/**
 The catalog of face values decoys are drawn from, and what
 `possibilities.splice(possibilities.indexOf(prize), 2)` leaves of it. The
 splice is meant to take the prize out of the catalog; whether it does depends
 on the catalog's shape, which is worked out here once for any catalog.
 */
module Catalog {
  import opened Js

  /** Number of times `x` occurs in `s`. */
  function Count<T(==)>(s: seq<T>, x: T): nat {
    multiset(s)[x]
  }

  /** No face value occurs more than twice in the catalog. */
  ghost predicate AtMostTwice(catalog: seq<nat>) {
    forall v :: Count(catalog, v) <= 2
  }

  /** `possibilities.splice(possibilities.indexOf(prize), 2)`: what is left
      of the catalog never holds more of anything than the catalog, loses at
      most two entries, and, when the prize is missing, loses just its last
      entry (a start of -1 counts back from the end). */
  function Reduce(catalog: seq<nat>, prize: nat): (r: seq<nat>)
    ensures multiset(r) <= multiset(catalog)
    ensures |catalog| - 2 <= |r| < |catalog| || |catalog| == 0
    ensures prize !in catalog && |catalog| > 0 ==> r == catalog[..|catalog| - 1]
  {
    var i := IndexOf(catalog, prize);
    ReduceBag(catalog, i);
    Splice(catalog, i, 2)
  }

  lemma ReduceBag(catalog: seq<nat>, i: int)
    ensures multiset(Splice(catalog, i, 2)) <= multiset(catalog)
  {
    var s := SpliceStart(|catalog|, i);
    var d := SpliceCount(|catalog|, i, 2);
    assert catalog == catalog[..s] + catalog[s..s + d] + catalog[s + d..];
  }

  /** The prize is gone from the reduced catalog exactly when the catalog
      holds it at most once, or twice with the second copy right after the
      first: `splice(idx, 2)` removes the first copy and its neighbour only. */
  lemma ReduceExcludes(catalog: seq<nat>, prize: nat)
    ensures prize !in Reduce(catalog, prize) <==>
              Count(catalog, prize) <= 1 ||
              (Count(catalog, prize) == 2 && IndexOf(catalog, prize) + 1 < |catalog| &&
               catalog[IndexOf(catalog, prize) + 1] == prize)
  {
    var r := Reduce(catalog, prize);
    assert prize in r <==> Count(r, prize) > 0;
    if prize !in catalog {
      assert Count(catalog, prize) == 0;
    } else {
      ReduceCount(catalog, prize);
    }
  }

  /** How many copies of a prize the catalog holds survive the splice: all
      but the first, and all but two when the second follows the first. */
  lemma ReduceCount(catalog: seq<nat>, prize: nat)
    requires prize in catalog
    ensures var i := IndexOf(catalog, prize);
            Count(Reduce(catalog, prize), prize) ==
              Count(catalog, prize) - (if i + 1 < |catalog| && catalog[i + 1] == prize then 2 else 1)
  {
    var i := IndexOf(catalog, prize);
    var d := Min(2, |catalog| - i);
    ReduceShape(catalog, prize);
    WindowCount(catalog, i, d, prize);
    PrefixCount(catalog, prize);
    WindowHead(catalog, i, d, prize);
    var w := if i + 1 < |catalog| && catalog[i + 1] == prize then 2 else 1;
    assert Count(catalog[i..i + d], prize) == w;
    assert Count(Reduce(catalog, prize), prize) == Count(catalog[i + d..], prize);
  }

  /** No copy of `x` comes before its first occurrence. */
  lemma PrefixCount(c: seq<nat>, x: nat)
    requires x in c
    ensures Count(c[..IndexOf(c, x)], x) == 0
  {
    assert x !in multiset(c[..IndexOf(c, x)]);
  }

  /** A window of one or two entries starting with `x` holds `x` once, or
      twice when its second entry is `x` too. */
  lemma WindowHead(c: seq<nat>, i: nat, d: nat, x: nat)
    requires 1 <= d <= 2 && i + d <= |c| && c[i] == x
    ensures Count(c[i..i + d], x) == (if d == 2 && c[i + 1] == x then 2 else 1)
  {
    if d == 2 {
      assert c[i..i + d] == [c[i]] + [c[i + 1]];
    } else {
      assert c[i..i + d] == [c[i]];
    }
  }

  /** When the prize is present, the splice cuts out the window that starts
      at its first copy. */
  lemma ReduceShape(catalog: seq<nat>, prize: nat)
    requires prize in catalog
    ensures var i := IndexOf(catalog, prize);
            Reduce(catalog, prize) == catalog[..i] + catalog[i + Min(2, |catalog| - i)..]
  {
    var i := IndexOf(catalog, prize);
    assert SpliceStart(|catalog|, i) == i;
    assert SpliceCount(|catalog|, i, 2) == Min(2, |catalog| - i);
    assert Reduce(catalog, prize) == Splice(catalog, i, 2);
  }

  lemma WindowCount(c: seq<nat>, i: nat, d: nat, x: nat)
    requires i + d <= |c|
    ensures Count(c, x) == Count(c[..i], x) + Count(c[i..i + d], x) + Count(c[i + d..], x)
    ensures Count(c[..i] + c[i + d..], x) == Count(c[..i], x) + Count(c[i + d..], x)
  {
    assert c == c[..i] + c[i..i + d] + c[i + d..];
  }

  /** The catalog is in non-decreasing order (stated step by step). */
  ghost predicate Sorted(c: seq<nat>) {
    |c| <= 1 || (c[0] <= c[1] && Sorted(c[1..]))
  }

  /** No value fills three consecutive places. */
  ghost predicate NoTriple(c: seq<nat>) {
    |c| <= 2 || (c[0] != c[2] && NoTriple(c[1..]))
  }

  /** One pass over the catalog: every step either rises, or repeats the
      previous value when that value has not been repeated yet. */
  ghost predicate Ascending(c: seq<nat>, repeated: bool) {
    || |c| <= 1
    || (c[0] < c[1] && Ascending(c[1..], false))
    || (c[0] == c[1] && !repeated && Ascending(c[1..], true))
  }

  /** A catalog that passes the walk is sorted and has no value in three
      places in a row. */
  lemma {:induction false} AscendingShape(c: seq<nat>, repeated: bool)
    requires Ascending(c, repeated)
    ensures Sorted(c) && NoTriple(c)
    ensures repeated && |c| > 1 ==> c[0] < c[1]
  {
    if |c| > 1 {
      if c[0] < c[1] && Ascending(c[1..], false) {
        AscendingShape(c[1..], false);
        if |c| > 2 {
          assert c[1..][0] <= c[1..][1];
        }
      } else {
        AscendingShape(c[1..], true);
      }
    }
  }

  /** In a sorted catalog every later entry is at least every earlier one. */
  lemma {:induction false} SortedOrder(c: seq<nat>, i: nat, j: nat)
    requires Sorted(c) && i <= j < |c|
    ensures c[i] <= c[j]
    decreases j
  {
    if i < j {
      SortedOrder(c, i, j - 1);
      SortedStep(c, j - 1);
    }
  }

  lemma {:induction false} SortedStep(c: seq<nat>, k: nat)
    requires Sorted(c) && k + 1 < |c|
    ensures c[k] <= c[k + 1]
  {
    if k > 0 {
      SortedStep(c[1..], k - 1);
    }
  }

  /** A sorted catalog in which no value fills three places in a row holds
      no value more than twice. */
  lemma {:induction false} SortedAtMostTwice(c: seq<nat>)
    requires Sorted(c) && NoTriple(c)
    ensures AtMostTwice(c)
  {
    if |c| > 0 {
      SortedAtMostTwice(c[1..]);
      forall v
        ensures Count(c, v) <= 2
      {
        assert c == [c[0]] + c[1..];
        assert Count(c, v) == (if c[0] == v then 1 else 0) + Count(c[1..], v);
        if c[0] == v {
          if |c| > 2 {
            assert c[1..] == [c[1]] + c[2..];
            LaterAbove(c, v);
          } else if |c| == 2 {
            assert c[1..] == [c[1]];
          } else {
            assert c[1..] == [];
          }
        }
      }
    }
  }

  /** Past the first two places of a sorted catalog without triples, the
      first value does not return. */
  lemma LaterAbove(c: seq<nat>, v: nat)
    requires Sorted(c) && NoTriple(c) && |c| > 2 && c[0] == v
    ensures Count(c[2..], v) == 0
  {
    forall k | 0 <= k < |c| - 2
      ensures c[2..][k] != v
    {
      SortedOrder(c, 0, 2);
      SortedOrder(c, 2, k + 2);
    }
    assert v !in c[2..];
  }

  /** In a sorted catalog holding no value more than twice, the splice takes
      the prize out completely, whatever the prize: a missing prize costs the
      last entry, a single copy goes with its neighbour, and a second copy
      sits right after the first. */
  lemma SortedExcludes(c: seq<nat>, prize: nat)
    requires Sorted(c) && AtMostTwice(c)
    ensures prize !in Reduce(c, prize)
  {
    ReduceExcludes(c, prize);
    if prize in c && Count(c, prize) == 2 {
      var i := IndexOf(c, prize);
      var k := SecondCopy(c, prize);
      SortedOrder(c, i, i + 1);
      SortedOrder(c, i + 1, k);
    }
  }

  /** When the catalog holds two copies, the second lies after the first. */
  lemma SecondCopy(c: seq<nat>, prize: nat) returns (k: nat)
    requires prize in c && Count(c, prize) == 2
    ensures IndexOf(c, prize) < k < |c| && c[k] == prize
  {
    var i := IndexOf(c, prize);
    WindowCount(c, i, 1, prize);
    PrefixCount(c, prize);
    assert c[i..i + 1] == [prize];
    assert prize in multiset(c[i + 1..]);
    var j :| 0 <= j < |c[i + 1..]| && c[i + 1..][j] == prize;
    k := i + 1 + j;
  }

  /** The catalog is a run of pairs: two equal entries, then a strictly
      larger pair, and so on. */
  ghost predicate Pairs(c: seq<nat>) {
    || |c| == 0
    || (|c| >= 2 && c[0] == c[1] && (|c| == 2 || c[1] < c[2]) && Pairs(c[2..]))
  }

  /** A value below the first pair is nowhere in the catalog. */
  lemma {:induction false} PairsAbove(c: seq<nat>, x: nat)
    requires Pairs(c) && |c| > 0 && x < c[0]
    ensures x !in c
  {
    assert c == c[..2] + c[2..];
    if |c| > 2 {
      PairsAbove(c[2..], x);
    }
  }

  /** In a run of pairs every value present sits in exactly two adjacent
      places, the first of them where `indexOf` finds it. */
  lemma {:induction false} PairsPair(c: seq<nat>, x: nat)
    requires Pairs(c) && x in c
    ensures IndexOf(c, x) + 1 < |c| && c[IndexOf(c, x) + 1] == x
    ensures Count(c, x) == 2
  {
    if c[0] == x {
      PairsFront(c, x);
    } else {
      assert c == [c[0], c[1]] + c[2..];
      PairsPair(c[2..], x);
      PairsShift(c, x);
    }
  }

  lemma PairsFront(c: seq<nat>, x: nat)
    requires Pairs(c) && |c| > 0 && c[0] == x
    ensures IndexOf(c, x) + 1 < |c| && c[IndexOf(c, x) + 1] == x
    ensures Count(c, x) == 2
  {
    assert c == [c[0], c[1]] + c[2..];
    if |c| > 2 {
      PairsAbove(c[2..], x);
    }
  }

  lemma PairsShift(c: seq<nat>, x: nat)
    requires |c| >= 2 && c[0] != x && c[1] != x && x in c[2..]
    requires IndexOf(c[2..], x) + 1 < |c| - 2 && c[2..][IndexOf(c[2..], x) + 1] == x
    requires Count(c[2..], x) == 2
    ensures IndexOf(c, x) + 1 < |c| && c[IndexOf(c, x) + 1] == x
    ensures Count(c, x) == 2
  {
    assert c == [c[0], c[1]] + c[2..];
    var i := IndexOf(c[2..], x);
    assert c[..i + 2] == [c[0], c[1]] + c[2..][..i];
    IndexOfAt(c, x, i + 2);
  }

  /** For a prize that a run of pairs holds, `splice(indexOf(prize), 2)`
      removes exactly its two copies and nothing else. */
  lemma PairsRemoved(c: seq<nat>, x: nat)
    requires Pairs(c) && x in c
    ensures |Reduce(c, x)| == |c| - 2
    ensures multiset(Reduce(c, x)) + multiset{x, x} == multiset(c)
  {
    PairsPair(c, x);
    var i := IndexOf(c, x);
    assert Reduce(c, x) == Splice(c, i, 2);
    SplicePair(c, i, x);
  }
}
