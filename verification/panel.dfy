/**
 The eight numbers printed on one winning scratch card: three copies of the
 won prize, five decoys drawn from a catalog of face values with the prize's
 entries spliced out, all shuffled, plus an edition number. The card is read
 as "the value that appears three times is the prize", so the central facts
 are that the prize appears exactly three times and no other value reaches
 three.
 */
module Panel {
  import opened Js
  import opened Draw
  import opened Shuffle
  import opened Catalog

  /** Numbers on a card. */
  const PanelSize: nat := 8
  /** Copies of the prize on a card. */
  const Matches: nat := 3
  /** Decoys on a card. */
  const DecoyCount: nat := 5
  /** Editions are numbered 1..Editions. */
  const Editions: nat := 10

  /** Decimal strings of the numbers, in order. */
  function Strings(xs: seq<nat>): (r: seq<string>)
    ensures |r| == |xs|
    ensures forall k | 0 <= k < |xs| :: r[k] == ToString(xs[k])
  {
    seq(|xs|, k requires 0 <= k < |xs| => ToString(xs[k]))
  }

  /** Turning numbers into strings keeps every count, since distinct numbers
      have distinct strings. */
  lemma {:induction false} StringsCount(xs: seq<nat>, v: nat)
    ensures Count(Strings(xs), ToString(v)) == Count(xs, v)
  {
    if |xs| > 0 {
      StringsCount(xs[1..], v);
      StringsCons(xs);
      ToStringInjective(xs[0], v);
    }
  }

  lemma StringsCons(xs: seq<nat>)
    requires |xs| > 0
    ensures xs == [xs[0]] + xs[1..]
    ensures Strings(xs) == [ToString(xs[0])] + Strings(xs[1..])
  {
  }

  /** A string occurs in `Strings(xs)` only as the string of some `x` in `xs`,
      and then as often as that `x` does. */
  lemma StringsCountAny(xs: seq<nat>, s: string)
    ensures Count(Strings(xs), s) == 0 ||
            exists k | 0 <= k < |xs| :: s == ToString(xs[k]) && Count(Strings(xs), s) == Count(xs, xs[k])
  {
    if s in Strings(xs) {
      var k :| 0 <= k < |xs| && Strings(xs)[k] == s;
      StringsCount(xs, xs[k]);
    }
  }

  /** The numbers before `shuffleArray`: three copies of the prize string,
      then the decoy strings. The prize string occurs three times more than
      the prize occurs among the decoys. */
  function Unshuffled(prize: nat, decoys: seq<nat>): (r: seq<string>)
    ensures |r| == Matches + |decoys|
    ensures multiset(r) ==
              multiset{ToString(prize), ToString(prize), ToString(prize)} + multiset(Strings(decoys))
    ensures Count(r, ToString(prize)) == Matches + Count(decoys, prize)
  {
    StringsCount(decoys, prize);
    [ToString(prize), ToString(prize), ToString(prize)] + Strings(decoys)
  }

  /** The two loops that fill `numbers` for one winner, as the source writes
      them: `for (i = 0; i < 3; i++)` pushes the prize string, then the decoy
      loop pushes five drawn strings. Together they build `Unshuffled`. */
  method FillNumbers(prize: nat, possibilities: seq<nat>, choices: seq<nat>) returns (numbers: seq<string>)
    requires |choices| == DecoyCount && Fits(choices, |possibilities|)
    ensures numbers == Unshuffled(prize, DrawPositions(possibilities, choices).taken)
  {
    numbers := [];
    var i := 0;
    while i < Matches
      invariant 0 <= i <= Matches
      invariant |numbers| == i
      invariant forall k | 0 <= k < i :: numbers[k] == ToString(prize)
    {
      numbers := numbers + [ToString(prize)];
      i := i + 1;
    }
    var p := ToString(prize);
    assert numbers == [p, p, p];
    var decoys := PickDecoys(possibilities, choices);
    numbers := numbers + decoys;
  }

  /** The decoy loop as the source writes it: five times, read the entry at
      the random index, push its string and `splice(randomIndex, 1)` it out.
      It draws exactly what `DrawPositions` draws. */
  method PickDecoys(possibilities: seq<nat>, choices: seq<nat>) returns (numbers: seq<string>)
    requires |choices| == DecoyCount && Fits(choices, |possibilities|)
    ensures numbers == Strings(DrawPositions(possibilities, choices).taken)
  {
    numbers := [];
    var p := possibilities;
    var i := 0;
    while i < DecoyCount
      invariant 0 <= i <= DecoyCount
      invariant |p| == |possibilities| - i
      invariant Fits(choices[i..], |p|)
      invariant numbers + Strings(DrawPositions(p, choices[i..]).taken) ==
                Strings(DrawPositions(possibilities, choices).taken)
    {
      var j := choices[i];
      PickStep(p, choices[i..], numbers);
      assert choices[i..][1..] == choices[i + 1..];
      numbers := numbers + [ToString(p[j])];
      p := Splice(p, j, 1);
      i := i + 1;
    }
  }

  lemma PickStep(p: seq<nat>, c: seq<nat>, numbers: seq<string>)
    requires Fits(c, |p|) && |c| > 0
    ensures c[0] < |p| && Fits(c[1..], |Splice(p, c[0], 1)|)
    ensures numbers + Strings(DrawPositions(p, c).taken) ==
            (numbers + [ToString(p[c[0]])]) + Strings(DrawPositions(Splice(p, c[0], 1), c[1..]).taken)
  {
    DrawPositionsUnfold(p, c);
    TakeAtIsSplice(p, c[0]);
    StringsPrepend(p[c[0]], DrawPositions(Splice(p, c[0], 1), c[1..]).taken);
  }

  lemma StringsPrepend(x: nat, t: seq<nat>)
    ensures Strings([x] + t) == [ToString(x)] + Strings(t)
  {
  }

  /** The random numbers one winner consumes, in the order the source asks
      for them: the edition, five decoy indices, the seven swap indices of
      `shuffleArray` on eight numbers. */
  datatype WinnerDraws = WinnerDraws(edition: nat, decoys: seq<nat>, swaps: seq<nat>)

  /** Every index is within the range the source's `Math.floor(Math.random() * n)`
      can produce at that point. */
  ghost predicate DrawsFit(w: WinnerDraws, catalog: seq<nat>, prize: nat) {
    && w.edition < Editions
    && |w.decoys| == DecoyCount
    && Fits(w.decoys, |Reduce(catalog, prize)|)
    && SwapsFit(w.swaps, PanelSize)
  }

  /** `Math.floor(Math.random() * 10) + 1`. */
  function Edition(u: nat): (e: nat)
    requires u < Editions
    ensures 1 <= e <= Editions
    ensures e - 1 == u
  {
    u + 1
  }

  /** Every edition 1..10 is the outcome of some random index. */
  lemma EditionOnto(e: nat)
    requires 1 <= e <= Editions
    ensures exists u | 0 <= u < Editions :: Edition(u) == e
  {
    assert Edition(e - 1) == e;
  }

  /** What one winner's card shows. */
  datatype Card = Card(numbers: seq<string>, edition: nat)

  /** The decoys the loop draws for this prize. */
  function Decoys(catalog: seq<nat>, prize: nat, choices: seq<nat>): (d: seq<nat>)
    requires |choices| == DecoyCount && Fits(choices, |Reduce(catalog, prize)|)
    ensures |d| == DecoyCount
    ensures multiset(d) <= multiset(Reduce(catalog, prize))
  {
    DecoysBag(catalog, prize, choices);
    DrawPositions(Reduce(catalog, prize), choices).taken
  }

  lemma DecoysBag(catalog: seq<nat>, prize: nat, choices: seq<nat>)
    requires Fits(choices, |Reduce(catalog, prize)|)
    ensures multiset(DrawPositions(Reduce(catalog, prize), choices).taken) <= multiset(Reduce(catalog, prize))
  {
    DrawPositionsBag(Reduce(catalog, prize), choices);
  }

  /** One iteration of the per-winner loop: edition, numbers, shuffle. The
      card holds eight numbers, and they are the three prize strings and the
      five decoy strings in some order. */
  function MakeCard(catalog: seq<nat>, prize: nat, w: WinnerDraws): (c: Card)
    requires DrawsFit(w, catalog, prize)
    ensures |c.numbers| == PanelSize
    ensures 1 <= c.edition <= Editions
    ensures multiset(c.numbers) == multiset(Unshuffled(prize, Decoys(catalog, prize, w.decoys)))
  {
    var numbers := Unshuffled(prize, Decoys(catalog, prize, w.decoys));
    Card(ShuffleArray(numbers, w.swaps), Edition(w.edition))
  }

  /** The card has a single three-of-a-kind and it is the prize: the prize
      string appears exactly three times and every other string at most
      twice, as long as the reduced catalog no longer holds the prize and the
      catalog holds no value more than twice. */
  lemma CardThreeOfAKind(catalog: seq<nat>, prize: nat, w: WinnerDraws)
    requires DrawsFit(w, catalog, prize)
    requires prize !in Reduce(catalog, prize) && AtMostTwice(catalog)
    ensures Count(MakeCard(catalog, prize, w).numbers, ToString(prize)) == Matches
    ensures forall s | s != ToString(prize) :: Count(MakeCard(catalog, prize, w).numbers, s) <= 2
  {
    var d := Decoys(catalog, prize, w.decoys);
    DecoysBounded(catalog, Reduce(catalog, prize), d, prize);
    UnshuffledCounts(prize, d);
    CountsCarry(MakeCard(catalog, prize, w).numbers, Unshuffled(prize, d), ToString(prize));
  }

  /** Counts depend only on the multiset, so a shuffle keeps them. */
  lemma CountsCarry(a: seq<string>, b: seq<string>, p: string)
    requires multiset(a) == multiset(b)
    requires Count(b, p) == Matches && forall s | s != p :: Count(b, s) <= 2
    ensures Count(a, p) == Matches && forall s | s != p :: Count(a, s) <= 2
  {
    forall s | s != p
      ensures Count(a, s) <= 2
    {
      assert Count(a, s) == Count(b, s);
    }
  }

  /** Decoys taken from the reduced catalog hold no prize and no value more
      than twice. */
  lemma DecoysBounded(catalog: seq<nat>, r: seq<nat>, d: seq<nat>, prize: nat)
    requires multiset(d) <= multiset(r) <= multiset(catalog)
    requires prize !in r && AtMostTwice(catalog)
    ensures Count(d, prize) == 0
    ensures forall v :: Count(d, v) <= 2
  {
    assert Count(r, prize) == 0;
    forall v
      ensures Count(d, v) <= 2
    {
      assert Count(d, v) <= Count(r, v) <= Count(catalog, v);
    }
  }

  /** Three prize strings next to decoys without the prize and without any
      value three times make one three-of-a-kind. */
  lemma UnshuffledCounts(prize: nat, d: seq<nat>)
    requires Count(d, prize) == 0 && forall v :: Count(d, v) <= 2
    ensures Count(Unshuffled(prize, d), ToString(prize)) == Matches
    ensures forall s | s != ToString(prize) :: Count(Unshuffled(prize, d), s) <= 2
  {
    var p := ToString(prize);
    var u := Unshuffled(prize, d);
    assert u == [p, p, p] + Strings(d);
    StringsCount(d, prize);
    forall s | s != p
      ensures Count(u, s) <= 2
    {
      assert Count(u, s) == Count(Strings(d), s);
      StringsCountAny(d, s);
    }
  }

  /** Any card of the right shape can come out: for any five decoys the
      reduced catalog can supply, any arrangement of them with the three
      prize strings, and any edition 1..10, some valid random draws produce
      exactly that card. */
  lemma CardReachesEvery(catalog: seq<nat>, prize: nat, decoys: seq<nat>, numbers: seq<string>, edition: nat)
    requires |decoys| == DecoyCount && multiset(decoys) <= multiset(Reduce(catalog, prize))
    requires multiset(numbers) == multiset(Unshuffled(prize, decoys))
    requires 1 <= edition <= Editions
    ensures exists w :: DrawsFit(w, catalog, prize) && MakeCard(catalog, prize, w) == Card(numbers, edition)
  {
    var w := CardDraws(catalog, prize, decoys, numbers, edition);
    assert DrawsFit(w, catalog, prize) && MakeCard(catalog, prize, w) == Card(numbers, edition);
  }

  /** The draws that produce a wanted card. */
  lemma CardDraws(catalog: seq<nat>, prize: nat, decoys: seq<nat>, numbers: seq<string>, edition: nat)
    returns (w: WinnerDraws)
    requires |decoys| == DecoyCount && multiset(decoys) <= multiset(Reduce(catalog, prize))
    requires multiset(numbers) == multiset(Unshuffled(prize, decoys))
    requires 1 <= edition <= Editions
    ensures DrawsFit(w, catalog, prize) && MakeCard(catalog, prize, w) == Card(numbers, edition)
  {
    var u := Unshuffled(prize, decoys);
    var c := ChoicesFor(Reduce(catalog, prize), decoys);
    ShuffleReachesEvery(u, numbers);
    var js :| SwapsFit(js, |u|) && ShuffleArray(u, js) == numbers;
    w := WinnerDraws(edition - 1, c, js);
    CardFromParts(catalog, prize, decoys, numbers, w);
  }

  /** Draws whose decoy choices take `decoys` and whose swaps arrange the
      unshuffled card as `numbers` make the card `numbers`. */
  lemma CardFromParts(catalog: seq<nat>, prize: nat, decoys: seq<nat>, numbers: seq<string>, w: WinnerDraws)
    requires w.edition < Editions && |w.decoys| == DecoyCount
    requires Fits(w.decoys, |Reduce(catalog, prize)|) && DrawPositions(Reduce(catalog, prize), w.decoys).taken == decoys
    requires SwapsFit(w.swaps, |Unshuffled(prize, decoys)|) && ShuffleArray(Unshuffled(prize, decoys), w.swaps) == numbers
    ensures DrawsFit(w, catalog, prize)
    ensures MakeCard(catalog, prize, w) == Card(numbers, w.edition + 1)
  {
    assert |Unshuffled(prize, decoys)| == PanelSize;
    assert Decoys(catalog, prize, w.decoys) == decoys;
    MakeCardParts(catalog, prize, w);
  }

  lemma MakeCardParts(catalog: seq<nat>, prize: nat, w: WinnerDraws)
    requires DrawsFit(w, catalog, prize)
    ensures MakeCard(catalog, prize, w) ==
              Card(ShuffleArray(Unshuffled(prize, Decoys(catalog, prize, w.decoys)), w.swaps), w.edition + 1)
  {
    var u := Unshuffled(prize, Decoys(catalog, prize, w.decoys));
    assert MakeCard(catalog, prize, w) == Card(ShuffleArray(u, w.swaps), Edition(w.edition));
  }
}
