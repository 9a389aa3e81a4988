/**
 The JavaScript built-ins the prize engine relies on, with the exact semantics
 the engine depends on: `Array.prototype.splice` without inserted items
 (including a negative start), `Array.prototype.indexOf` (first occurrence or
 -1), and `Number.prototype.toString` on non-negative integers.
 */
module Js {

  function Min(a: int, b: int): int {
    if a <= b then a else b
  }

  function Max(a: int, b: int): int {
    if a <= b then b else a
  }

  /** Position where `splice(start, _)` starts deleting in an array of length
      `len`: a negative start counts back from the end (ECMAScript 2024,
      section 23.1.3.31, steps 4-6). */
  function SpliceStart(len: nat, start: int): (s: nat)
    ensures s <= len
  {
    if start < 0 then Max(len + start, 0) else Min(start, len)
  }

  /** Number of elements `splice(start, deleteCount)` actually deletes
      (section 23.1.3.31, step 11.c). */
  function SpliceCount(len: nat, start: int, deleteCount: int): (d: nat)
    ensures SpliceStart(len, start) + d <= len
    ensures d <= Max(deleteCount, 0)
  {
    Min(Max(deleteCount, 0), len - SpliceStart(len, start))
  }

  /** The array left behind by `a.splice(start, deleteCount)` when no items
      are inserted. */
  function Splice<T>(a: seq<T>, start: int, deleteCount: int): (r: seq<T>)
    ensures |r| == |a| - SpliceCount(|a|, start, deleteCount)
    ensures r[..SpliceStart(|a|, start)] == a[..SpliceStart(|a|, start)]
    ensures r[SpliceStart(|a|, start)..] ==
              a[SpliceStart(|a|, start) + SpliceCount(|a|, start, deleteCount)..]
  {
    var s := SpliceStart(|a|, start);
    a[..s] + a[s + SpliceCount(|a|, start, deleteCount)..]
  }

  /** Removing the one element at a valid position takes exactly that element
      out of the multiset. */
  lemma SpliceOne<T>(a: seq<T>, i: nat)
    requires i < |a|
    ensures multiset(Splice(a, i, 1)) + multiset{a[i]} == multiset(a)
  {
    assert a == a[..i] + [a[i]] + a[i + 1..];
  }

  /** Removing two adjacent copies of `x` takes exactly two `x` out of the
      multiset. */
  lemma SplicePair<T>(a: seq<T>, i: nat, x: T)
    requires i + 1 < |a| && a[i] == x && a[i + 1] == x
    ensures multiset(Splice(a, i, 2)) + multiset{x, x} == multiset(a)
  {
    assert a == a[..i] + [a[i], a[i + 1]] + a[i + 2..];
  }

  /** `splice(-1, 2)` deletes only the last element: there is just one
      element from the start position to the end. */
  lemma SpliceMinusOne<T>(a: seq<T>)
    requires |a| >= 1
    ensures Splice(a, -1, 2) == a[..|a| - 1]
  {
  }

  /** Index of the first element equal to `x`, or -1 when there is none. */
  function IndexOf<T(==)>(a: seq<T>, x: T): (r: int)
    ensures -1 <= r < |a|
    ensures r == -1 <==> x !in a
    ensures 0 <= r ==> a[r] == x && x !in a[..r]
  {
    if |a| == 0 then -1
    else if a[0] == x then 0
    else
      var r := IndexOf(a[1..], x);
      assert a[1..][..Max(r, 0)] == a[1..Max(r, 0) + 1];
      if r == -1 then -1 else r + 1
  }

  /** `indexOf` answers the position of the first copy, wherever that copy
      is. */
  lemma IndexOfAt<T>(a: seq<T>, x: T, i: nat)
    requires i < |a| && a[i] == x && x !in a[..i]
    ensures IndexOf(a, x) == i
  {
  }

  function Digit(d: nat): char
    requires d < 10
  {
    (('0' as int) + d) as char
  }

  /** Decimal representation, as `Number.prototype.toString()` gives it for a
      non-negative integer. */
  function ToString(n: nat): (s: string)
    ensures |s| >= 1
    ensures forall i | 0 <= i < |s| :: '0' <= s[i] <= '9'
    ensures n >= 10 ==> s[0] != '0'
  {
    if n < 10 then [Digit(n)] else ToString(n / 10) + [Digit(n % 10)]
  }

  /** Reads a string of decimal digits back as a number. */
  function Parse(s: string): nat
  {
    if |s| == 0 then 0
    else
      var c := s[|s| - 1] as int - '0' as int;
      Parse(s[..|s| - 1]) * 10 + (if 0 <= c < 10 then c else 0)
  }

  /** `Parse` inverts `ToString`. */
  lemma {:induction false} ParseToString(n: nat)
    ensures Parse(ToString(n)) == n
  {
    if n >= 10 {
      var s := ToString(n);
      assert s[..|s| - 1] == ToString(n / 10);
      ParseToString(n / 10);
    }
  }

  /** Distinct numbers have distinct decimal strings, so comparing panel
      strings is comparing prize values. */
  lemma ToStringInjective(n: nat, m: nat)
    ensures ToString(n) == ToString(m) <==> n == m
  {
    ParseToString(n);
    ParseToString(m);
  }
}
