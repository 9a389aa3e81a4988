/**
 Drawing by position without replacement, the one random step the engine uses
 both for tickets and for decoys. `Math.floor(Math.random() * arr.length)` is
 replaced by an explicit choice of index, so every property below holds for
 every sequence of choices the random source could produce.
 */
module Draw {
  import opened Js

  /** `choices` are valid successive random indices into an array of length
      `n` that loses one element per draw: each is below the current length. */
  ghost predicate Fits(choices: seq<nat>, n: int) {
    |choices| <= n && forall t | 0 <= t < |choices| :: choices[t] < n - t
  }

  /** Choices left after `k` draws fit the array those draws left, and so do
      the first `k` choices alone. */
  lemma {:induction false} FitsSplit(choices: seq<nat>, n: nat, k: nat)
    requires Fits(choices, n) && k <= |choices|
    ensures Fits(choices[k..], n - k)
    ensures Fits(choices[..k], n)
    ensures |choices| <= n
  {
    forall t | 0 <= t < |choices| - k
      ensures choices[k..][t] < (n - k) - t
    {
      assert choices[k..][t] == choices[t + k];
    }
  }

  lemma FitsCons(j: nat, c: seq<nat>, n: nat)
    requires j < n && Fits(c, n - 1)
    ensures Fits([j] + c, n)
  {
    forall t | 0 <= t < |[j] + c|
      ensures ([j] + c)[t] < n - t
    {
      if t > 0 {
        assert ([j] + c)[t] == c[t - 1];
      }
    }
  }

  /** `getRandomTicketFromArrayAndRemove` (and the body of the decoy loop) with
      `j` the random index: the element at `j`, and the array without it. */
  function TakeAt<T>(arr: seq<T>, j: nat): (r: (T, seq<T>))
    requires j < |arr|
    ensures r.0 == arr[j]
    ensures |r.1| == |arr| - 1
  {
    (arr[j], arr[..j] + arr[j + 1..])
  }

  /** What the source leaves in the array, `arr.splice(randomIndex, 1)`, is
      exactly the array `TakeAt` returns. */
  lemma TakeAtIsSplice<T>(arr: seq<T>, j: nat)
    requires j < |arr|
    ensures TakeAt(arr, j).1 == Splice(arr, j, 1)
  {
  }

  /** A draw takes exactly the drawn element out of the multiset. */
  lemma TakeAtBag<T>(arr: seq<T>, j: nat)
    requires j < |arr|
    ensures multiset(TakeAt(arr, j).1) + multiset{arr[j]} == multiset(arr)
  {
    SpliceOne(arr, j);
  }

  /** The other elements keep their relative order, and putting the drawn
      element back at its position restores the array. */
  lemma TakeAtPutBack<T>(arr: seq<T>, j: nat)
    requires j < |arr|
    ensures forall k | 0 <= k < j :: TakeAt(arr, j).1[k] == arr[k]
    ensures forall k | j <= k < |arr| - 1 :: TakeAt(arr, j).1[k] == arr[k + 1]
    ensures TakeAt(arr, j).1[..j] + [TakeAt(arr, j).0] + TakeAt(arr, j).1[j..] == arr
  {
    var rest := TakeAt(arr, j).1;
    assert rest[..j] == arr[..j];
    assert rest[j..] == arr[j + 1..];
  }

  /** The elements drawn, in draw order, and what is left of the array. */
  datatype Drawn<T> = Drawn(taken: seq<T>, left: seq<T>)

  /** Draws `|choices|` elements one after the other, each by position from
      what the previous draws left. */
  function DrawPositions<T>(pool: seq<T>, choices: seq<nat>): (r: Drawn<T>)
    requires Fits(choices, |pool|)
    ensures |r.taken| == |choices|
    ensures |r.left| == |pool| - |choices|
    decreases |choices|
  {
    if |choices| == 0 then Drawn([], pool)
    else
      var x := TakeAt(pool, choices[0]);
      var d := DrawPositions(x.1, choices[1..]);
      Drawn([x.0] + d.taken, d.left)
  }

  /** Drawing only moves elements: the drawn ones and the ones left are
      together exactly the pool. */
  lemma {:induction false} DrawPositionsBag<T>(pool: seq<T>, choices: seq<nat>)
    requires Fits(choices, |pool|)
    ensures var d := DrawPositions(pool, choices);
            multiset(d.taken) + multiset(d.left) == multiset(pool)
    decreases |choices|
  {
    if |choices| > 0 {
      DrawPositionsUnfold(pool, choices);
      var x := TakeAt(pool, choices[0]).1;
      TakeAtBag(pool, choices[0]);
      DrawPositionsBag(x, choices[1..]);
    }
  }

  /** Drawing with `c1 + c2` is drawing with `c1`, then with `c2` from what is
      left. */
  lemma {:induction false} DrawPositionsAppend<T>(pool: seq<T>, c1: seq<nat>, c2: seq<nat>)
    requires Fits(c1 + c2, |pool|)
    ensures Fits(c1, |pool|) && Fits(c2, |pool| - |c1|)
    ensures DrawPositions(pool, c1 + c2).taken ==
              DrawPositions(pool, c1).taken + DrawPositions(DrawPositions(pool, c1).left, c2).taken
    ensures DrawPositions(pool, c1 + c2).left ==
              DrawPositions(DrawPositions(pool, c1).left, c2).left
    decreases |c1|
  {
    assert (c1 + c2)[..|c1|] == c1;
    assert (c1 + c2)[|c1|..] == c2;
    FitsSplit(c1 + c2, |pool|, |c1|);
    if |c1| == 0 {
      assert c1 + c2 == c2;
    } else {
      var x := TakeAt(pool, c1[0]).1;
      assert (c1 + c2)[1..] == c1[1..] + c2;
      FitsSplit(c1 + c2, |pool|, 1);
      DrawPositionsAppend(x, c1[1..], c2);
      DrawPositionsUnfold(pool, c1 + c2);
      DrawPositionsUnfold(pool, c1);
      var a := DrawPositions(x, c1[1..]);
      var b := DrawPositions(a.left, c2);
      assert [pool[c1[0]]] + (a.taken + b.taken) == ([pool[c1[0]]] + a.taken) + b.taken;
    }
  }

  /** One draw of `DrawPositions`, unfolded. */
  lemma DrawPositionsUnfold<T>(pool: seq<T>, c: seq<nat>)
    requires Fits(c, |pool|) && |c| > 0
    ensures c[0] < |pool| && Fits(c[1..], |pool| - 1)
    ensures DrawPositions(pool, c).taken ==
              [pool[c[0]]] + DrawPositions(TakeAt(pool, c[0]).1, c[1..]).taken
    ensures DrawPositions(pool, c).left ==
              DrawPositions(TakeAt(pool, c[0]).1, c[1..]).left
  {
    FitsSplit(c, |pool|, 1);
  }

  /** Drawing the first wanted element leaves a pool that still holds the
      rest of the wanted elements. */
  lemma SubTail<T>(pool: seq<T>, xs: seq<T>)
    requires multiset(xs) <= multiset(pool) && |xs| > 0
    ensures xs[0] in pool
    ensures multiset(xs[1..]) <= multiset(TakeAt(pool, IndexOf(pool, xs[0])).1)
  {
    var x := xs[0];
    assert xs == [x] + xs[1..];
    assert multiset(xs) == multiset(xs[1..]) + multiset{x};
    assert x in multiset(pool);
    var r := TakeAt(pool, IndexOf(pool, x));
    TakeAtBag(pool, IndexOf(pool, x));
    BagCancel(multiset(xs[1..]), multiset(r.1), x);
  }

  lemma BagCancel<T>(a: multiset<T>, b: multiset<T>, x: T)
    requires a + multiset{x} <= b + multiset{x}
    ensures a <= b
  {
    forall v
      ensures a[v] <= b[v]
    {
      assert (a + multiset{x})[v] <= (b + multiset{x})[v];
    }
  }

  lemma ChoicesStep<T>(pool: seq<T>, xs: seq<T>, j: nat, c: seq<nat>)
    requires |xs| > 0 && j < |pool| && pool[j] == xs[0]
    requires Fits(c, |pool| - 1) && DrawPositions(TakeAt(pool, j).1, c).taken == xs[1..]
    ensures Fits([j] + c, |pool|) && DrawPositions(pool, [j] + c).taken == xs
  {
    FitsCons(j, c, |pool|);
    assert ([j] + c)[1..] == c;
    assert xs == [xs[0]] + xs[1..];
  }

  /** Every sub-multiset of the pool, in every order, is what some valid
      choice sequence draws: the draw can repeat a value exactly as often as
      the pool holds it, and never more. */
  function ChoicesFor<T(==)>(pool: seq<T>, xs: seq<T>): (c: seq<nat>)
    requires multiset(xs) <= multiset(pool)
    ensures Fits(c, |pool|)
    ensures DrawPositions(pool, c).taken == xs
    decreases |xs|
  {
    if |xs| == 0 then []
    else
      SubTail(pool, xs);
      var j: nat := IndexOf(pool, xs[0]);
      var c := ChoicesFor(TakeAt(pool, j).1, xs[1..]);
      ChoicesStep(pool, xs, j, c);
      [j] + c
  }

  /** `k` choices of index 0. */
  function Zeros(k: nat): (z: seq<nat>)
    ensures |z| == k
  {
    if k == 0 then [] else [0] + Zeros(k - 1)
  }

  lemma {:induction false} ZerosAll(k: nat)
    ensures forall t | 0 <= t < k :: Zeros(k)[t] == 0
  {
    if k > 0 {
      ZerosAll(k - 1);
      assert forall t | 1 <= t < k :: Zeros(k)[t] == Zeros(k - 1)[t - 1];
    }
  }

  /** Choosing index 0 every time takes the front of the pool, in order. */
  lemma {:induction false} DrawFront<T>(pool: seq<T>, k: nat)
    requires k <= |pool|
    ensures Fits(Zeros(k), |pool|)
    ensures DrawPositions(pool, Zeros(k)).taken == pool[..k]
  {
    if k > 0 {
      var z := Zeros(k);
      DrawFront(pool[1..], k - 1);
      FitsCons(0, Zeros(k - 1), |pool|);
      assert z[1..] == Zeros(k - 1);
      DrawFrontStep(pool, k);
    }
  }

  lemma DrawFrontStep<T>(pool: seq<T>, k: nat)
    requires 0 < k <= |pool| && Fits(Zeros(k), |pool|) && Fits(Zeros(k - 1), |pool| - 1)
    requires DrawPositions(pool[1..], Zeros(k - 1)).taken == pool[1..][..k - 1]
    ensures DrawPositions(pool, Zeros(k)).taken == pool[..k]
  {
    var z := Zeros(k);
    assert z == [0] + Zeros(k - 1);
    assert z[0] == 0 && z[1..] == Zeros(k - 1);
    DrawPositionsUnfold(pool, z);
    assert TakeAt(pool, 0).1 == pool[1..];
    var t := DrawPositions(pool[1..], Zeros(k - 1)).taken;
    assert DrawPositions(pool, z).taken == [pool[0]] + t;
    assert pool[..k] == [pool[0]] + pool[1..][..k - 1];
  }
}
