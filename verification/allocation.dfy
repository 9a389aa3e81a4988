/**
 The ticket pool and the tier-by-tier allocation of `designPrize`: tickets
 1..100 are put in an array, then every prize tier of the fixed schedule draws
 up to `amount` tickets from it, skipping the draw once the array is empty.
 */
module Allocation {
  import opened Js
  import opened Draw

  /** A prize tier: its face value and how many tickets it asks for. The
      tier's `winners` array of the source is the per-tier output of `Allocate`. */
  datatype Tier = Tier(prize: nat, amount: nat)

  const TicketCount: nat := 100

  /** The fixed prize schedule, in the order the tiers draw. */
  const Schedule: seq<Tier> := [
    Tier(100000, 1), Tier(50000, 1), Tier(10000, 4), Tier(5000, 10),
    Tier(1000, 20), Tier(500, 30), Tier(100, 30), Tier(100, 4)
  ]

  /** No value occurs twice. */
  ghost predicate Unique(s: seq<int>) {
    forall x :: multiset(s)[x] <= 1
  }

  function Elems(s: seq<int>): set<int> {
    set x | x in s
  }

  function Tickets(n: nat): seq<int> {
    seq(n, k => k + 1)
  }

  /** The loop that pushes `i` for `i = 1 .. ticketCount`. */
  method InitTickets(n: nat) returns (a: seq<int>)
    ensures |a| == n
    ensures forall k | 0 <= k < n :: a[k] == k + 1
  {
    a := [];
    var i := 1;
    while i < n + 1
      invariant 1 <= i <= n + 1
      invariant |a| == i - 1
      invariant forall k | 0 <= k < |a| :: a[k] == k + 1
    {
      a := a + [i];
      i := i + 1;
    }
  }

  /** The initial pool holds each ticket 1..n exactly once and nothing else. */
  lemma {:induction false} TicketsExactlyOnce(n: nat)
    ensures forall x :: multiset(Tickets(n))[x] == (if 1 <= x <= n then 1 else 0)
  {
    if n > 0 {
      TicketsExactlyOnce(n - 1);
      assert Tickets(n) == Tickets(n - 1) + [n];
    }
  }

  /** Total number of tickets the tiers ask for. */
  function Demand(tiers: seq<Tier>): nat {
    if |tiers| == 0 then 0 else tiers[0].amount + Demand(tiers[1..])
  }

  lemma {:induction false} DemandAppend(s: seq<Tier>, t: seq<Tier>)
    ensures Demand(s + t) == Demand(s) + Demand(t)
  {
    if |s| == 0 {
      assert s + t == t;
    } else {
      assert (s + t)[1..] == s[1..] + t;
      DemandAppend(s[1..], t);
    }
  }

  function Sum(g: seq<nat>): nat {
    if |g| == 0 then 0 else g[0] + Sum(g[1..])
  }

  /** How many winners each tier actually gets from a pool of `n` tickets:
      a tier takes what it asks for while the pool lasts. In all, the tiers
      get what they ask for or the whole pool, whichever is less. */
  function Granted(tiers: seq<Tier>, n: nat): (g: seq<nat>)
    ensures |g| == |tiers|
    ensures Sum(g) == Min(Demand(tiers), n)
  {
    if |tiers| == 0 then []
    else
      var m := Min(tiers[0].amount, n);
      [m] + Granted(tiers[1..], n - m)
  }

  /** Tier `i` gets its full amount or whatever the earlier tiers left over,
      whichever is smaller. */
  lemma {:induction false} GrantedClosedForm(tiers: seq<Tier>, n: nat, i: nat)
    requires i < |tiers|
    ensures Granted(tiers, n)[i] == Min(tiers[i].amount, Max(n - Demand(tiers[..i]), 0))
  {
    if i > 0 {
      var m := Min(tiers[0].amount, n);
      assert tiers[..i][1..] == tiers[1..][..i - 1];
      GrantedClosedForm(tiers[1..], n - m, i - 1);
    }
  }

  /** Tiers are served in schedule order: a tier whose prefix of the schedule
      fits in the pool gets its full amount. */
  lemma GrantedFull(tiers: seq<Tier>, n: nat, i: nat)
    requires i < |tiers| && Demand(tiers[..i + 1]) <= n
    ensures Granted(tiers, n)[i] == tiers[i].amount
  {
    GrantedClosedForm(tiers, n, i);
    assert tiers[..i + 1] == tiers[..i] + [tiers[i]];
    DemandAppend(tiers[..i], [tiers[i]]);
  }

  /** Once a tier is short, every later tier gets nothing. */
  lemma GrantedStarved(tiers: seq<Tier>, n: nat, i: nat, j: nat)
    requires i < j < |tiers| && Granted(tiers, n)[i] < tiers[i].amount
    ensures Granted(tiers, n)[j] == 0
  {
    GrantedClosedForm(tiers, n, i);
    GrantedClosedForm(tiers, n, j);
    assert tiers[..j] == tiers[..i] + [tiers[i]] + tiers[i + 1..j];
    DemandAppend(tiers[..i] + [tiers[i]], tiers[i + 1..j]);
    DemandAppend(tiers[..i], [tiers[i]]);
  }

  /** Two tickets for three tiers: the first two tiers take one each and
      the third gets nothing, without any error. */
  lemma ShortPool()
    ensures Granted([Tier(100000, 1), Tier(50000, 1), Tier(10000, 4)], 2) == [1, 1, 0]
  {
    var s := [Tier(100000, 1), Tier(50000, 1), Tier(10000, 4)];
    assert Granted(s[2..], 0) == [0];
    assert Granted(s[1..], 1) == [1, 0];
  }

  /** What one tier's draw loop produces: its winners in draw order, the pool
      it leaves and the random choices it did not use. */
  datatype TierDraw = TierDraw(winners: seq<int>, pool: seq<int>, rest: seq<nat>)

  /** `for (p = 0; p < amount; p++) if (ticketArray.length > 0) winners.push(draw)`:
      a tier gets its amount or the whole pool, whichever is less, and uses
      one random choice per winner. */
  function DrawTier(pool: seq<int>, amount: nat, draws: seq<nat>): (r: TierDraw)
    requires Fits(draws, |pool|) && Min(amount, |pool|) <= |draws|
    ensures |r.winners| == Min(amount, |pool|)
    ensures |r.pool| == |pool| - |r.winners|
    ensures r.rest == draws[|r.winners|..]
    decreases amount
  {
    if amount == 0 then TierDraw([], pool, draws)
    else if |pool| > 0 then
      var x := TakeAt(pool, draws[0]);
      FitsSplit(draws, |pool|, 1);
      var r := DrawTier(x.1, amount - 1, draws[1..]);
      assert draws[1..][|r.winners|..] == draws[1 + |r.winners|..];
      TierDraw([x.0] + r.winners, r.pool, r.rest)
    else
      DrawTier(pool, amount - 1, draws)
  }

  /** A tier's loop is the same as that many plain draws by position. */
  lemma {:induction false} DrawTierIsDrawPositions(pool: seq<int>, amount: nat, draws: seq<nat>)
    requires Fits(draws, |pool|) && Min(amount, |pool|) <= |draws|
    ensures Fits(draws[..Min(amount, |pool|)], |pool|)
    ensures DrawTier(pool, amount, draws).winners == DrawPositions(pool, draws[..Min(amount, |pool|)]).taken
    ensures DrawTier(pool, amount, draws).pool == DrawPositions(pool, draws[..Min(amount, |pool|)]).left
    decreases amount
  {
    var k := Min(amount, |pool|);
    FitsSplit(draws, |pool|, k);
    if amount > 0 && |pool| > 0 {
      var x := TakeAt(pool, draws[0]);
      DrawTierUnfold(pool, amount, draws);
      assert Min(amount - 1, |pool| - 1) == k - 1;
      DrawTierIsDrawPositions(x.1, amount - 1, draws[1..]);
      DrawPositionsUnfold(pool, draws[..k]);
      PrefixTail(draws, k);
    } else if amount > 0 {
      DrawTierIsDrawPositions(pool, amount - 1, draws);
    }
  }

  lemma PrefixTail(s: seq<nat>, k: nat)
    requires 0 < k <= |s|
    ensures s[..k][1..] == s[1..][..k - 1]
  {
  }

  /** One draw of a tier's loop, unfolded. */
  lemma DrawTierUnfold(pool: seq<int>, amount: nat, draws: seq<nat>)
    requires Fits(draws, |pool|) && Min(amount, |pool|) <= |draws|
    requires amount > 0 && |pool| > 0
    ensures draws[0] < |pool| && Fits(draws[1..], |pool| - 1)
    ensures Min(amount - 1, |pool| - 1) <= |draws[1..]|
    ensures DrawTier(pool, amount, draws).winners ==
              [pool[draws[0]]] + DrawTier(TakeAt(pool, draws[0]).1, amount - 1, draws[1..]).winners
    ensures DrawTier(pool, amount, draws).pool ==
              DrawTier(TakeAt(pool, draws[0]).1, amount - 1, draws[1..]).pool
  {
    FitsSplit(draws, |pool|, 1);
  }

  function Flatten(ws: seq<seq<int>>): seq<int> {
    if |ws| == 0 then [] else ws[0] + Flatten(ws[1..])
  }

  /** The number of winners of each tier. */
  function Sizes(ws: seq<seq<int>>): seq<nat> {
    seq(|ws|, i requires 0 <= i < |ws| => |ws[i]|)
  }

  /** The outcome of the allocation: winners per tier (in schedule order) and
      the pool that is left. */
  datatype Allocation = Allocation(winners: seq<seq<int>>, pool: seq<int>)

  /** `prizes.forEach(prize => ...draw loop...)`: one winner list per tier,
      of the size `Granted` gives, taking `Min(Demand, |pool|)` tickets in all
      and one random choice per ticket. */
  function Allocate(tiers: seq<Tier>, pool: seq<int>, draws: seq<nat>): (r: Allocation)
    requires Fits(draws, |pool|) && Min(Demand(tiers), |pool|) <= |draws|
    ensures Sizes(r.winners) == Granted(tiers, |pool|)
    ensures |r.pool| == |pool| - Min(Demand(tiers), |pool|)
    decreases |tiers|
  {
    if |tiers| == 0 then Allocation([], pool)
    else
      var d := DrawTier(pool, tiers[0].amount, draws);
      TierLeaves(tiers, pool, draws);
      var r := Allocate(tiers[1..], d.pool, d.rest);
      AllocateStep(tiers, |pool|, d.winners, r.winners);
      Allocation([d.winners] + r.winners, r.pool)
  }

  /** After the first tier, the unused choices fit the pool it left, and the
      remaining tiers take the remaining share. */
  lemma TierLeaves(tiers: seq<Tier>, pool: seq<int>, draws: seq<nat>)
    requires Fits(draws, |pool|) && Min(Demand(tiers), |pool|) <= |draws| && |tiers| > 0
    ensures var d := DrawTier(pool, tiers[0].amount, draws);
            && Fits(d.rest, |d.pool|)
            && Min(Demand(tiers), |pool|) == |d.winners| + Min(Demand(tiers[1..]), |d.pool|)
            && Min(Demand(tiers[1..]), |d.pool|) <= |d.rest|
            && |d.pool| - Min(Demand(tiers[1..]), |d.pool|) == |pool| - Min(Demand(tiers), |pool|)
  {
    var d := DrawTier(pool, tiers[0].amount, draws);
    FitsSplit(draws, |pool|, |d.winners|);
  }

  lemma AllocateStep(tiers: seq<Tier>, n: nat, w: seq<int>, ws: seq<seq<int>>)
    requires |tiers| > 0 && |w| == Min(tiers[0].amount, n)
    requires Sizes(ws) == Granted(tiers[1..], n - |w|)
    ensures Sizes([w] + ws) == Granted(tiers, n)
  {
    assert Sizes([w] + ws) == [|w|] + Sizes(ws);
  }

  /** One tier of `Allocate`, unfolded. */
  lemma AllocateUnfold(tiers: seq<Tier>, pool: seq<int>, draws: seq<nat>)
    requires Fits(draws, |pool|) && Min(Demand(tiers), |pool|) <= |draws| && |tiers| > 0
    ensures var d := DrawTier(pool, tiers[0].amount, draws);
            && Fits(d.rest, |d.pool|)
            && Min(Demand(tiers[1..]), |d.pool|) <= |d.rest|
            && Min(Demand(tiers), |pool|) == |d.winners| + Min(Demand(tiers[1..]), |d.pool|)
            && Allocate(tiers, pool, draws).winners == [d.winners] + Allocate(tiers[1..], d.pool, d.rest).winners
            && Allocate(tiers, pool, draws).pool == Allocate(tiers[1..], d.pool, d.rest).pool
  {
    var d := DrawTier(pool, tiers[0].amount, draws);
    FitsSplit(draws, |pool|, |d.winners|);
  }

  /** All winners of the allocation, in schedule order, are the first
      `Min(Demand, |pool|)` plain draws from the pool. */
  lemma {:induction false} AllocateIsDrawPositions(tiers: seq<Tier>, pool: seq<int>, draws: seq<nat>)
    requires Fits(draws, |pool|) && Min(Demand(tiers), |pool|) <= |draws|
    ensures Fits(draws[..Min(Demand(tiers), |pool|)], |pool|)
    ensures Flatten(Allocate(tiers, pool, draws).winners) ==
              DrawPositions(pool, draws[..Min(Demand(tiers), |pool|)]).taken
    ensures Allocate(tiers, pool, draws).pool ==
              DrawPositions(pool, draws[..Min(Demand(tiers), |pool|)]).left
    decreases |tiers|
  {
    var k := Min(Demand(tiers), |pool|);
    FitsSplit(draws, |pool|, k);
    if |tiers| == 0 {
      assert draws[..k] == [];
    } else {
      var d := DrawTier(pool, tiers[0].amount, draws);
      var m := |d.winners|;
      AllocateUnfold(tiers, pool, draws);
      DrawTierIsDrawPositions(pool, tiers[0].amount, draws);
      AllocateIsDrawPositions(tiers[1..], d.pool, d.rest);
      var r := Allocate(tiers[1..], d.pool, d.rest);
      FlattenCons(d.winners, r.winners);
      SplitChoices(draws, m, k);
      DrawPositionsAppend(pool, draws[..m], d.rest[..k - m]);
    }
  }

  lemma SplitChoices(draws: seq<nat>, m: nat, k: nat)
    requires m <= k <= |draws|
    ensures draws[..k] == draws[..m] + draws[m..][..k - m]
  {
  }

  lemma FlattenCons(w: seq<int>, ws: seq<seq<int>>)
    ensures Flatten([w] + ws) == w + Flatten(ws)
  {
    assert ([w] + ws)[1..] == ws;
  }

  /** The allocation only moves tickets: the winners of all tiers and the
      tickets left over are together exactly the pool. */
  lemma AllocationBag(tiers: seq<Tier>, pool: seq<int>, draws: seq<nat>)
    requires Fits(draws, |pool|) && Min(Demand(tiers), |pool|) <= |draws|
    ensures var r := Allocate(tiers, pool, draws);
            multiset(Flatten(r.winners)) + multiset(r.pool) == multiset(pool)
  {
    AllocateIsDrawPositions(tiers, pool, draws);
    DrawPositionsBag(pool, draws[..Min(Demand(tiers), |pool|)]);
  }

  /** The winners of tier `i` and of tier `j` are inside the flattened list
      side by side. */
  lemma {:induction false} FlattenPair(ws: seq<seq<int>>, i: nat, j: nat)
    requires i < j < |ws|
    ensures multiset(ws[i]) + multiset(ws[j]) <= multiset(Flatten(ws))
  {
    if i == 0 {
      FlattenHolds(ws[1..], j - 1);
    } else {
      FlattenPair(ws[1..], i - 1, j - 1);
    }
  }

  lemma {:induction false} FlattenHolds(ws: seq<seq<int>>, i: nat)
    requires i < |ws|
    ensures multiset(ws[i]) <= multiset(Flatten(ws))
  {
    if i > 0 {
      FlattenHolds(ws[1..], i - 1);
    }
  }

  /** From a pool without repeats, the tiers' winner lists are free of
      repeats, pairwise disjoint, and disjoint from the tickets left over;
      together with those they are exactly the pool. */
  lemma AllocationDisjoint(tiers: seq<Tier>, pool: seq<int>, draws: seq<nat>)
    requires Fits(draws, |pool|) && Min(Demand(tiers), |pool|) <= |draws|
    requires Unique(pool)
    ensures var r := Allocate(tiers, pool, draws);
            && Unique(Flatten(r.winners))
            && (forall i, j | 0 <= i < j < |r.winners| :: multiset(r.winners[i]) !! multiset(r.winners[j]))
            && multiset(Flatten(r.winners)) !! multiset(r.pool)
            && Elems(Flatten(r.winners)) + Elems(r.pool) == Elems(pool)
  {
    var r := Allocate(tiers, pool, draws);
    AllocationBag(tiers, pool, draws);
    SplitUnique(Flatten(r.winners), r.pool, pool);
    ListsDisjoint(r.winners);
  }

  /** Two parts that make up a pool without repeats are without repeats,
      disjoint, and together hold exactly the pool's values. */
  lemma SplitUnique(a: seq<int>, b: seq<int>, pool: seq<int>)
    requires multiset(a) + multiset(b) == multiset(pool) && Unique(pool)
    ensures Unique(a) && multiset(a) !! multiset(b)
    ensures Elems(a) + Elems(b) == Elems(pool)
  {
    forall x
      ensures multiset(a)[x] <= 1 && (multiset(a)[x] == 0 || multiset(b)[x] == 0)
    {
      assert multiset(a)[x] + multiset(b)[x] == multiset(pool)[x];
    }
    forall x
      ensures x in Elems(a) + Elems(b) <==> x in Elems(pool)
    {
      assert x in a <==> x in multiset(a);
      assert x in b <==> x in multiset(b);
      assert x in pool <==> x in multiset(pool);
    }
  }

  /** Lists whose concatenation has no repeats are pairwise disjoint. */
  lemma ListsDisjoint(ws: seq<seq<int>>)
    requires Unique(Flatten(ws))
    ensures forall i, j | 0 <= i < j < |ws| :: multiset(ws[i]) !! multiset(ws[j])
  {
    forall i, j | 0 <= i < j < |ws|
      ensures multiset(ws[i]) !! multiset(ws[j])
    {
      FlattenPair(ws, i, j);
      forall x | x in multiset(ws[i])
        ensures x !in multiset(ws[j])
      {
        assert multiset(ws[i])[x] + multiset(ws[j])[x] <= multiset(Flatten(ws))[x];
      }
    }
  }

  /** Every outcome is possible: any `Min(Demand, |pool|)` tickets of the
      pool, in any order, are the flattened winners of some valid run of the
      draw loops. */
  lemma AllocationReachesEvery(tiers: seq<Tier>, pool: seq<int>, xs: seq<int>)
    requires multiset(xs) <= multiset(pool) && |xs| == Min(Demand(tiers), |pool|)
    ensures exists draws :: Fits(draws, |pool|) && |draws| == |xs| &&
              Flatten(Allocate(tiers, pool, draws).winners) == xs
  {
    var c := ChoicesFor(pool, xs);
    AllocationOf(tiers, pool, c, xs);
  }

  lemma AllocationOf(tiers: seq<Tier>, pool: seq<int>, c: seq<nat>, xs: seq<int>)
    requires Fits(c, |pool|) && DrawPositions(pool, c).taken == xs
    requires |xs| == Min(Demand(tiers), |pool|)
    ensures Flatten(Allocate(tiers, pool, c).winners) == xs
  {
    AllocateIsDrawPositions(tiers, pool, c);
    assert c[..|xs|] == c;
  }

  function Repeat(x: nat, k: nat): seq<nat> {
    seq(k, _ => x)
  }

  /** The prize of each winner, in the order `winArray` lists them: each
      tier's face value repeated once per winner the tier got. */
  function PrizeColumn(tiers: seq<Tier>, n: nat): (col: seq<nat>)
    ensures |col| == Min(Demand(tiers), n)
  {
    if |tiers| == 0 then []
    else
      var m := Min(tiers[0].amount, n);
      Repeat(tiers[0].prize, m) + PrizeColumn(tiers[1..], n - m)
  }

  /** The fixed schedule asks for exactly the ticket count, and every tier
      is served in full. */
  lemma ScheduleDemand()
    ensures Demand(Schedule) == TicketCount
    ensures Granted(Schedule, TicketCount) == [1, 1, 4, 10, 20, 30, 30, 4]
  {
    var s := Schedule;
    assert Demand(s[7..]) == 4;
    assert Demand(s[6..]) == 34;
    assert Demand(s[5..]) == 64;
    assert Demand(s[4..]) == 84;
    assert Demand(s[3..]) == 94;
    assert Demand(s[2..]) == 98;
    assert Demand(s[1..]) == 99;
    assert Granted(s[7..], 4) == [4];
    assert Granted(s[6..], 34) == [30, 4];
    assert Granted(s[5..], 64) == [30, 30, 4];
    assert Granted(s[4..], 84) == [20, 30, 30, 4];
    assert Granted(s[3..], 94) == [10, 20, 30, 30, 4];
    assert Granted(s[2..], 98) == [4, 10, 20, 30, 30, 4];
    assert Granted(s[1..], 99) == [1, 4, 10, 20, 30, 30, 4];
  }

  /** The schedule's prize column written out as runs of equal values, the
      shape of the recorded `v` list. */
  function ScheduleValues(): seq<nat> {
    Repeat(100000, 1) + Repeat(50000, 1) + Repeat(10000, 4) + Repeat(5000, 10) +
    Repeat(1000, 20) + Repeat(500, 30) + Repeat(100, 30) + Repeat(100, 4)
  }

  /** With the whole schedule served, the prize column lists every tier's
      face value as often as the tier asks for, in schedule order. */
  lemma ScheduleColumn()
    ensures PrizeColumn(Schedule, TicketCount) == ScheduleValues()
  {
    var s := Schedule;
    assert PrizeColumn(s[7..], 4) == Repeat(100, 4);
    assert PrizeColumn(s[6..], 34) == Repeat(100, 30) + Repeat(100, 4);
    assert PrizeColumn(s[5..], 64) == Repeat(500, 30) + (Repeat(100, 30) + Repeat(100, 4));
    assert PrizeColumn(s[4..], 84) == Repeat(1000, 20) + (Repeat(500, 30) + (Repeat(100, 30) + Repeat(100, 4)));
    assert PrizeColumn(s[3..], 94) ==
      Repeat(5000, 10) + (Repeat(1000, 20) + (Repeat(500, 30) + (Repeat(100, 30) + Repeat(100, 4))));
    assert PrizeColumn(s[2..], 98) ==
      Repeat(10000, 4) + (Repeat(5000, 10) + (Repeat(1000, 20) + (Repeat(500, 30) + (Repeat(100, 30) + Repeat(100, 4)))));
    assert PrizeColumn(s[1..], 99) ==
      Repeat(50000, 1) + (Repeat(10000, 4) + (Repeat(5000, 10) + (Repeat(1000, 20) + (Repeat(500, 30) + (Repeat(100, 30) + Repeat(100, 4))))));
  }

  /** What the tiers pay out when each is served in full: face value times
      amount, summed over the tiers. */
  function Payout(tiers: seq<Tier>): nat {
    if |tiers| == 0 then 0 else tiers[0].prize * tiers[0].amount + Payout(tiers[1..])
  }

  lemma {:induction false} SumAppend(a: seq<nat>, b: seq<nat>)
    ensures Sum(a + b) == Sum(a) + Sum(b)
  {
    if |a| == 0 {
      assert a + b == b;
    } else {
      assert (a + b)[1..] == a[1..] + b;
      SumAppend(a[1..], b);
    }
  }

  lemma {:induction false} SumRepeat(x: nat, k: nat)
    ensures Sum(Repeat(x, k)) == x * k
  {
    if k > 0 {
      assert Repeat(x, k)[1..] == Repeat(x, k - 1);
      SumRepeat(x, k - 1);
    }
  }

  /** When the pool covers the demand, the prize column adds up to the
      payout: every winner is paid its tier's face value. */
  lemma {:induction false} ColumnPayout(tiers: seq<Tier>, n: nat)
    requires Demand(tiers) <= n
    ensures Sum(PrizeColumn(tiers, n)) == Payout(tiers)
  {
    if |tiers| > 0 {
      var m := Min(tiers[0].amount, n);
      assert m == tiers[0].amount;
      ColumnPayout(tiers[1..], n - m);
      SumAppend(Repeat(tiers[0].prize, m), PrizeColumn(tiers[1..], n - m));
      SumRepeat(tiers[0].prize, m);
    }
  }

  /** The schedule pays 278400 in all, and so does the `v` column of every
      run: 100000 + 50000 + 4×10000 + 10×5000 + 20×1000 + 30×500 + 30×100 +
      4×100. */
  lemma SchedulePayout()
    ensures Payout(Schedule) == 278400
    ensures Sum(PrizeColumn(Schedule, TicketCount)) == 278400
  {
    ScheduleDemand();
    ColumnPayout(Schedule, TicketCount);
  }

  /** A ticket pool holds no repeats. */
  lemma TicketsUnique(n: nat)
    ensures Unique(Tickets(n))
  {
    TicketsExactlyOnce(n);
  }

  /** With the fixed schedule the demand equals the ticket count: every tier
      is served in full and the pool ends empty, so each ticket 1..100 goes
      to exactly one tier. */
  lemma ScheduleDrainsPool(draws: seq<nat>)
    requires Fits(draws, TicketCount) && |draws| == TicketCount
    ensures var r := Allocate(Schedule, Tickets(TicketCount), draws);
            && Sizes(r.winners) == [1, 1, 4, 10, 20, 30, 30, 4]
            && r.pool == []
            && Unique(Flatten(r.winners))
            && multiset(Flatten(r.winners)) == multiset(Tickets(TicketCount))
  {
    ScheduleDemand();
    TicketsUnique(TicketCount);
    AllocationBag(Schedule, Tickets(TicketCount), draws);
    AllocationDisjoint(Schedule, Tickets(TicketCount), draws);
  }
}
