/**
 `shuffleArray`: the Fisher-Yates loop that walks `i` from the last index down
 to 1 and swaps position `i` with a random position `j` in `[0, i]`. The random
 `j` of each round is an explicit choice.
 */
module Shuffle {
  import opened Js

  /** Number of random indices `shuffleArray` asks for on an array of length `n`. */
  function SwapCalls(n: nat): nat {
    if n == 0 then 0 else n - 1
  }

  /** `js[t]` is the `j` of round `t`, the round with `i = top - t`. */
  ghost predicate RoundsFit(js: seq<nat>, top: nat) {
    |js| == top && forall t | 0 <= t < |js| :: js[t] <= top - t
  }

  /** Valid swap choices for a whole `shuffleArray` call on length `n`. */
  ghost predicate SwapsFit(js: seq<nat>, n: nat) {
    RoundsFit(js, SwapCalls(n))
  }

  lemma RoundsFitTail(js: seq<nat>, top: nat)
    requires RoundsFit(js, top) && top > 0
    ensures RoundsFit(js[1..], top - 1)
  {
    forall t | 0 <= t < top - 1
      ensures js[1..][t] <= (top - 1) - t
    {
      assert js[1..][t] == js[t + 1];
    }
  }

  /** `[array[i], array[j]] = [array[j], array[i]]` */
  function Swap<T>(a: seq<T>, i: nat, j: nat): (r: seq<T>)
    requires i < |a| && j < |a|
    ensures |r| == |a|
    ensures r[i] == a[j] && r[j] == a[i]
    ensures forall k | 0 <= k < |a| && k != i && k != j :: r[k] == a[k]
    ensures multiset(r) == multiset(a)
  {
    a[i := a[j]][j := a[i]]
  }

  /** The rounds `i = top, top - 1, ..., 1` of the loop. */
  function ShuffleFrom<T>(a: seq<T>, top: nat, js: seq<nat>): (r: seq<T>)
    requires top < |a| && RoundsFit(js, top)
    ensures |r| == |a|
    ensures multiset(r) == multiset(a)
    ensures r[top + 1..] == a[top + 1..]
    decreases top
  {
    if top == 0 then a
    else
      RoundsFitTail(js, top);
      var b := Swap(a, top, js[0]);
      assert b[top..] == [b[top]] + a[top + 1..];
      ShuffleFrom(b, top - 1, js[1..])
  }

  /** `shuffleArray(array)`: the result is a permutation of the input. */
  function ShuffleArray<T>(a: seq<T>, js: seq<nat>): (r: seq<T>)
    requires SwapsFit(js, |a|)
    ensures |r| == |a|
    ensures multiset(r) == multiset(a)
  {
    if |a| == 0 then a else ShuffleFrom(a, |a| - 1, js)
  }

  /** The loop itself, written as the source writes it, agrees with the
      recursive definition and so permutes its input. */
  method ShuffleLoop<T>(a: seq<T>, js: seq<nat>) returns (r: seq<T>)
    requires SwapsFit(js, |a|)
    ensures r == ShuffleArray(a, js)
    ensures multiset(r) == multiset(a)
  {
    r := a;
    if |a| == 0 {
      return;
    }
    var i := |a| - 1;
    var t := 0;
    while i > 0
      invariant 0 <= i < |a| && t == |a| - 1 - i && |r| == |a|
      invariant RoundsFit(js[t..], i)
      invariant ShuffleFrom(r, i, js[t..]) == ShuffleArray(a, js)
      invariant multiset(r) == multiset(a)
    {
      RoundsFitTail(js[t..], i);
      assert js[t..][1..] == js[t + 1..];
      r := Swap(r, i, js[t]);
      i := i - 1;
      t := t + 1;
    }
  }

  /** Swap choices that make the rounds `top, ..., 1` produce `target` in
      positions `0..top`, for any `target` holding the same elements there:
      every arrangement of the panel is a possible outcome. */
  function SwapsFor<T(==)>(a: seq<T>, top: nat, target: seq<T>): (js: seq<nat>)
    requires top < |a| && top < |target|
    requires multiset(a[..top + 1]) == multiset(target[..top + 1])
    ensures RoundsFit(js, top)
    ensures ShuffleFrom(a, top, js)[..top + 1] == target[..top + 1]
    decreases top
  {
    if top == 0 then
      SingletonMultiset(a[..1], target[..1]);
      []
    else
      var j := IndexOf(a[..top + 1], target[top]);
      SwapStep(a, top, target, j);
      var b := Swap(a, top, j);
      var js := SwapsFor(b, top - 1, target);
      SwapsStepResult(a, top, target, j, js);
      [j] + js
  }

  lemma SingletonMultiset<T>(x: seq<T>, y: seq<T>)
    requires |x| == 1 && |y| == 1 && multiset(x) == multiset(y)
    ensures x == y
  {
    assert x[0] in multiset(y);
  }

  /** Bringing `target[top]` to position `top` leaves a prefix that holds the
      rest of the target prefix. */
  lemma SwapStep<T>(a: seq<T>, top: nat, target: seq<T>, j: int)
    requires 0 < top < |a| && top < |target|
    requires multiset(a[..top + 1]) == multiset(target[..top + 1])
    requires j == IndexOf(a[..top + 1], target[top])
    ensures 0 <= j <= top
    ensures Swap(a, top, j)[top] == target[top]
    ensures multiset(Swap(a, top, j)[..top]) == multiset(target[..top])
  {
    assert target[..top + 1] == target[..top] + [target[top]];
    assert target[top] in multiset(a[..top + 1]);
    var b := Swap(a, top, j);
    var x := target[top];
    assert b[..top + 1] == Swap(a[..top + 1], top, j);
    assert b[..top + 1] == b[..top] + [x];
    calc {
      multiset(b[..top]);
      multiset(b[..top + 1]) - multiset{x};
      multiset(target[..top + 1]) - multiset{x};
      multiset(target[..top]);
    }
  }

  lemma SwapsStepResult<T>(a: seq<T>, top: nat, target: seq<T>, j: nat, js: seq<nat>)
    requires 0 < top < |a| && top < |target| && j <= top
    requires Swap(a, top, j)[top] == target[top]
    requires RoundsFit(js, top - 1)
    requires ShuffleFrom(Swap(a, top, j), top - 1, js)[..top] == target[..top]
    ensures RoundsFit([j] + js, top)
    ensures ShuffleFrom(a, top, [j] + js)[..top + 1] == target[..top + 1]
  {
    RoundsFitCons(j, js, top);
    ShuffleFromUnfold(a, top, [j] + js);
    assert ([j] + js)[1..] == js;
    var b := Swap(a, top, j);
    SuffixKept(ShuffleFrom(b, top - 1, js), b, top, target);
  }

  lemma RoundsFitCons(j: nat, js: seq<nat>, top: nat)
    requires 0 < top && j <= top && RoundsFit(js, top - 1)
    ensures RoundsFit([j] + js, top)
  {
    var ks := [j] + js;
    forall t | 0 <= t < |ks|
      ensures ks[t] <= top - t
    {
      if t > 0 {
        assert ks[t] == js[t - 1];
      }
    }
  }

  /** One round of `ShuffleFrom`, unfolded. */
  lemma ShuffleFromUnfold<T>(a: seq<T>, top: nat, ks: seq<nat>)
    requires 0 < top < |a| && RoundsFit(ks, top)
    ensures ks[0] <= top && RoundsFit(ks[1..], top - 1)
    ensures ShuffleFrom(a, top, ks) == ShuffleFrom(Swap(a, top, ks[0]), top - 1, ks[1..])
  {
    RoundsFitTail(ks, top);
  }

  lemma SuffixKept<T>(r: seq<T>, b: seq<T>, top: nat, target: seq<T>)
    requires top < |r| == |b| && top < |target|
    requires r[top..] == b[top..] && b[top] == target[top]
    requires r[..top] == target[..top]
    ensures r[..top + 1] == target[..top + 1]
  {
    assert r[top] == r[top..][0];
  }

  /** Every permutation of the input is an outcome of `shuffleArray`. */
  lemma ShuffleReachesEvery<T>(a: seq<T>, target: seq<T>)
    requires multiset(a) == multiset(target)
    ensures exists js :: SwapsFit(js, |a|) && ShuffleArray(a, js) == target
  {
    assert |a| == |multiset(a)| == |target|;
    if |a| == 0 {
      assert SwapsFit([], 0);
      assert ShuffleArray(a, []) == target;
    } else {
      var js := ReachTarget(a, target);
      assert SwapsFit(js, |a|) && ShuffleArray(a, js) == target;
    }
  }

  lemma ReachTarget<T>(a: seq<T>, target: seq<T>) returns (js: seq<nat>)
    requires 0 < |a| == |target| && multiset(a) == multiset(target)
    ensures SwapsFit(js, |a|) && ShuffleArray(a, js) == target
  {
    var n := |a| - 1;
    FullSlice(a);
    FullSlice(target);
    js := SwapsFor(a, n, target);
    var r := ShuffleFrom(a, n, js);
    FullSlice(r);
    ShuffleArrayIsFrom(a, js);
  }

  lemma ShuffleArrayIsFrom<T>(a: seq<T>, js: seq<nat>)
    requires 0 < |a| && RoundsFit(js, |a| - 1)
    ensures SwapsFit(js, |a|) && ShuffleArray(a, js) == ShuffleFrom(a, |a| - 1, js)
  {
  }

  lemma FullSlice<T>(s: seq<T>)
    ensures s[..|s|] == s
  {
  }
}
