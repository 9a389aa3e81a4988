/**
 The whole `designPrize` run, generic in the prize schedule and the catalog of
 face values: fill the ticket pool, let every tier draw its winners, build one
 card per winner in tier order, and read off the three columns `k` (ticket
 ids), `v` (prizes) and `e` (editions) that are later set on the contract.
 */
module Engine {
  import opened Js
  import opened Draw
  import opened Allocation
  import opened Catalog
  import opened Panel
  import opened Shuffle

  /** One `winArray` entry: `{id: winner, prize: prize.prize, numbers, edition}`. */
  datatype Win = Win(id: int, prize: nat, numbers: seq<string>, edition: nat)

  /** The three arrays `k`, `v`, `e` filled by the final `forEach`. */
  datatype Summary = Summary(k: seq<int>, v: seq<nat>, e: seq<nat>)

  /** Everything the run produces. */
  datatype Outcome = Outcome(wins: seq<Win>, summary: Summary)

  /** The prize of every winner in the order the second `forEach` visits
      them: the tier's value once per winner of the tier. */
  function Prizes(tiers: seq<Tier>, ws: seq<seq<int>>): (r: seq<nat>)
    requires |ws| == |tiers|
    ensures |r| == |Flatten(ws)|
  {
    if |tiers| == 0 then []
    else Repeat(tiers[0].prize, |ws[0]|) + Prizes(tiers[1..], ws[1..])
  }

  /** When the tiers got the shares `Granted` gives, the winners' prizes are
      exactly the prize column that depends on the schedule alone, whatever
      tickets were drawn. */
  lemma {:induction false} PrizesAreColumn(tiers: seq<Tier>, ws: seq<seq<int>>, n: nat)
    requires |ws| == |tiers| && Sizes(ws) == Granted(tiers, n)
    ensures Prizes(tiers, ws) == PrizeColumn(tiers, n)
  {
    if |tiers| > 0 {
      var m := Min(tiers[0].amount, n);
      assert Sizes(ws)[0] == |ws[0]|;
      assert Sizes(ws[1..]) == Sizes(ws)[1..];
      PrizesAreColumn(tiers[1..], ws[1..], n - m);
    }
  }

  /** The nested `forEach` over tiers and their winners: one entry per
      winner, with its ticket id, its tier's prize, and its card. */
  function MakeWins(ids: seq<int>, prizes: seq<nat>, cards: seq<Card>): (r: seq<Win>)
    requires |ids| == |prizes| == |cards|
    ensures |r| == |ids|
    ensures forall i | 0 <= i < |r| :: r[i].id == ids[i] && r[i].prize == prizes[i]
    ensures forall i | 0 <= i < |r| :: Card(r[i].numbers, r[i].edition) == cards[i]
  {
    seq(|ids|, i requires 0 <= i < |ids| => Win(ids[i], prizes[i], cards[i].numbers, cards[i].edition))
  }

  /** The card of every winner, each built from that winner's own draws. */
  function Cards(catalog: seq<nat>, prizes: seq<nat>, draws: seq<WinnerDraws>): (cs: seq<Card>)
    requires |prizes| == |draws|
    requires forall i | 0 <= i < |draws| :: DrawsFit(draws[i], catalog, prizes[i])
    ensures |cs| == |draws|
    ensures forall i | 0 <= i < |cs| :: 1 <= cs[i].edition <= Editions && |cs[i].numbers| == PanelSize
    ensures forall i | 0 <= i < |cs| :: cs[i] == MakeCard(catalog, prizes[i], draws[i])
  {
    seq(|draws|, i requires 0 <= i < |draws| => MakeCard(catalog, prizes[i], draws[i]))
  }

  /** The columns `k`, `v`, `e`: the ids, prizes and editions of the
      entries, position by position. */
  function Summarize(wins: seq<Win>): Summary {
    Summary(seq(|wins|, i requires 0 <= i < |wins| => wins[i].id),
            seq(|wins|, i requires 0 <= i < |wins| => wins[i].prize),
            seq(|wins|, i requires 0 <= i < |wins| => wins[i].edition))
  }

  /** `winArray.forEach(val => { k.push(val.id), v.push(val.prize), e.push(val.edition) })`,
      as the source writes it: the pushes build exactly the aligned columns. */
  method PushColumns(wins: seq<Win>) returns (k: seq<int>, v: seq<nat>, e: seq<nat>)
    ensures Summary(k, v, e) == Summarize(wins)
    ensures |k| == |wins| && |v| == |wins| && |e| == |wins|
    ensures forall i | 0 <= i < |wins| :: k[i] == wins[i].id && v[i] == wins[i].prize && e[i] == wins[i].edition
  {
    k, v, e := [], [], [];
    var n := 0;
    while n < |wins|
      invariant 0 <= n <= |wins|
      invariant |k| == n && |v| == n && |e| == n
      invariant forall i | 0 <= i < n :: k[i] == wins[i].id && v[i] == wins[i].prize && e[i] == wins[i].edition
    {
      k, v, e := k + [wins[n].id], v + [wins[n].prize], e + [wins[n].edition];
      n := n + 1;
    }
  }

  /** Random draws that fit one run: the ticket draws fit the shrinking pool
      and there is one fitting record per winner, for the prize that winner
      gets. */
  ghost predicate RunFits(tiers: seq<Tier>, catalog: seq<nat>, tickets: seq<nat>, winners: seq<WinnerDraws>) {
    && Fits(tickets, TicketCount)
    && |tickets| == Min(Demand(tiers), TicketCount)
    && |winners| == |tickets|
    && forall i | 0 <= i < |winners| :: DrawsFit(winners[i], catalog, PrizeColumn(tiers, TicketCount)[i])
  }

  /** `designPrize()`: the columns have one entry per winner; the ticket ids
      are distinct tickets 1..100; the prize column is fixed by the schedule
      alone; every edition is in 1..10; and each entry has an eight-number
      card. */
  function DesignPrize(tiers: seq<Tier>, catalog: seq<nat>, tickets: seq<nat>, winners: seq<WinnerDraws>): (o: Outcome)
    requires RunFits(tiers, catalog, tickets, winners)
    ensures |o.wins| == Min(Demand(tiers), TicketCount)
    ensures o.summary.v == PrizeColumn(tiers, TicketCount)
    ensures o.summary.k == Flatten(Allocate(tiers, Tickets(TicketCount), tickets).winners)
    ensures Unique(o.summary.k)
    ensures forall x | x in o.summary.k :: 1 <= x <= TicketCount
    ensures forall i | 0 <= i < |o.summary.e| :: 1 <= o.summary.e[i] <= Editions
    ensures o.summary == Summarize(o.wins)
    ensures forall i | 0 <= i < |o.wins| :: |o.wins[i].numbers| == PanelSize
    ensures forall i | 0 <= i < |o.wins| ::
              Card(o.wins[i].numbers, o.wins[i].edition) ==
                MakeCard(catalog, PrizeColumn(tiers, TicketCount)[i], winners[i])
  {
    var a := Allocate(tiers, Tickets(TicketCount), tickets);
    AllocationFacts(tiers, tickets);
    Assemble(catalog, Flatten(a.winners), PrizeColumn(tiers, TicketCount), winners)
  }

  /** The second half of the run: cards for the winners in order, then the
      summary columns, which reproduce the winners' ids and prizes. */
  function Assemble(catalog: seq<nat>, ids: seq<int>, prizes: seq<nat>, winners: seq<WinnerDraws>): (o: Outcome)
    requires |ids| == |prizes| == |winners|
    requires forall i | 0 <= i < |winners| :: DrawsFit(winners[i], catalog, prizes[i])
    ensures |o.wins| == |ids|
    ensures o.summary == Summarize(o.wins)
    ensures o.summary.k == ids && o.summary.v == prizes
    ensures forall i | 0 <= i < |o.summary.e| :: 1 <= o.summary.e[i] <= Editions
    ensures forall i | 0 <= i < |o.wins| :: |o.wins[i].numbers| == PanelSize
    ensures forall i | 0 <= i < |o.wins| ::
              Card(o.wins[i].numbers, o.wins[i].edition) == MakeCard(catalog, prizes[i], winners[i])
  {
    var cards := Cards(catalog, prizes, winners);
    var wins := MakeWins(ids, prizes, cards);
    SummarizeColumns(wins, ids, prizes, cards);
    Outcome(wins, Summarize(wins))
  }

  /** The columns of entries that carry the given ids, prizes and cards are
      those ids and prizes, and the cards' editions. */
  lemma SummarizeColumns(wins: seq<Win>, ids: seq<int>, prizes: seq<nat>, cards: seq<Card>)
    requires |wins| == |ids| == |prizes| == |cards|
    requires forall i | 0 <= i < |wins| :: wins[i].id == ids[i] && wins[i].prize == prizes[i]
    requires forall i | 0 <= i < |wins| :: Card(wins[i].numbers, wins[i].edition) == cards[i]
    requires forall i | 0 <= i < |cards| :: 1 <= cards[i].edition <= Editions && |cards[i].numbers| == PanelSize
    ensures Summarize(wins).k == ids && Summarize(wins).v == prizes
    ensures forall i | 0 <= i < |wins| :: 1 <= Summarize(wins).e[i] <= Editions
    ensures forall i | 0 <= i < |wins| :: |wins[i].numbers| == PanelSize
  {
    var s := Summarize(wins);
    assert s.k == ids;
    assert s.v == prizes;
  }

  /** What the allocation guarantees for the run: its winners are distinct
      tickets 1..100, and their prizes form the schedule's prize column. */
  lemma AllocationFacts(tiers: seq<Tier>, tickets: seq<nat>)
    requires Fits(tickets, TicketCount) && |tickets| == Min(Demand(tiers), TicketCount)
    ensures var a := Allocate(tiers, Tickets(TicketCount), tickets);
            && |Flatten(a.winners)| == |tickets|
            && Unique(Flatten(a.winners))
            && (forall x | x in Flatten(a.winners) :: 1 <= x <= TicketCount)
            && Prizes(tiers, a.winners) == PrizeColumn(tiers, TicketCount)
  {
    var pool := Tickets(TicketCount);
    var a := Allocate(tiers, pool, tickets);
    TicketsUnique(TicketCount);
    AllocationDisjoint(tiers, pool, tickets);
    AllocateIsDrawPositions(tiers, pool, tickets);
    PrizesAreColumn(tiers, a.winners, TicketCount);
    AllocationBag(tiers, pool, tickets);
    TicketsExactlyOnce(TicketCount);
    forall x | x in Flatten(a.winners)
      ensures 1 <= x <= TicketCount
    {
      assert multiset(Flatten(a.winners))[x] <= multiset(pool)[x];
    }
  }

  /** The card of this entry shows its prize exactly three times and no
      other number three times or more, so the prize is the one value a
      player finds three of. */
  ghost predicate PrizeIsTheTriple(w: Win) {
    && Count(w.numbers, ToString(w.prize)) == Matches
    && forall s | s != ToString(w.prize) :: Count(w.numbers, s) <= 2
  }

  /** Every card of the run shows its prize exactly three times and no other
      value three times, provided the catalog is split correctly for every
      prize of the schedule and holds no value more than twice. */
  lemma DesignPrizeCards(tiers: seq<Tier>, catalog: seq<nat>, tickets: seq<nat>, winners: seq<WinnerDraws>)
    requires RunFits(tiers, catalog, tickets, winners)
    requires forall t | t in tiers :: t.prize !in Reduce(catalog, t.prize)
    requires AtMostTwice(catalog)
    ensures var o := DesignPrize(tiers, catalog, tickets, winners);
            forall i | 0 <= i < |o.wins| :: PrizeIsTheTriple(o.wins[i])
  {
    var o := DesignPrize(tiers, catalog, tickets, winners);
    var col := PrizeColumn(tiers, TicketCount);
    ColumnFromTiers(tiers, TicketCount);
    forall i | 0 <= i < |o.wins|
      ensures PrizeIsTheTriple(o.wins[i])
    {
      assert o.wins[i].prize == o.summary.v[i] == col[i];
      assert col[i] in col;
      CardThreeOfAKind(catalog, col[i], winners[i]);
    }
  }

  /** A sorted catalog with no value in three places meets both conditions
      above for every schedule, so every card of every run has its prize as
      its only three-of-a-kind. */
  lemma SortedCatalogCards(tiers: seq<Tier>, catalog: seq<nat>, tickets: seq<nat>, winners: seq<WinnerDraws>)
    requires RunFits(tiers, catalog, tickets, winners)
    requires Sorted(catalog) && NoTriple(catalog)
    ensures var o := DesignPrize(tiers, catalog, tickets, winners);
            forall i | 0 <= i < |o.wins| :: PrizeIsTheTriple(o.wins[i])
  {
    SortedAtMostTwice(catalog);
    forall t | t in tiers
      ensures t.prize !in Reduce(catalog, t.prize)
    {
      SortedExcludes(catalog, t.prize);
    }
    DesignPrizeCards(tiers, catalog, tickets, winners);
  }

  /** Every value in the prize column is the prize of some tier. */
  lemma {:induction false} ColumnFromTiers(tiers: seq<Tier>, n: nat)
    ensures forall x | x in PrizeColumn(tiers, n) :: exists t | t in tiers :: t.prize == x
  {
    if |tiers| > 0 {
      var m := Min(tiers[0].amount, n);
      ColumnFromTiers(tiers[1..], n - m);
      forall x | x in PrizeColumn(tiers, n)
        ensures exists t | t in tiers :: t.prize == x
      {
        if x in Repeat(tiers[0].prize, m) {
          assert tiers[0] in tiers;
        } else {
          assert x in PrizeColumn(tiers[1..], n - m);
          var t :| t in tiers[1..] && t.prize == x;
          assert t in tiers;
        }
      }
    }
  }

  /** Any winners and editions can come out of a run: for any choice of
      distinct winning tickets, one per prize the schedule hands out, and any
      editions 1..10, some valid random draws make the run produce exactly
      those columns, provided every prize leaves at least five decoy
      candidates. */
  lemma RunReachesEvery(tiers: seq<Tier>, catalog: seq<nat>, ks: seq<int>, es: seq<nat>)
    requires multiset(ks) <= multiset(Tickets(TicketCount))
    requires |ks| == Min(Demand(tiers), TicketCount) && |es| == |ks|
    requires forall i | 0 <= i < |es| :: 1 <= es[i] <= Editions
    requires forall x | x in PrizeColumn(tiers, TicketCount) :: |Reduce(catalog, x)| >= DecoyCount
    ensures exists tickets, winners ::
              && RunFits(tiers, catalog, tickets, winners)
              && DesignPrize(tiers, catalog, tickets, winners).summary == Summary(ks, PrizeColumn(tiers, TicketCount), es)
  {
    var col := PrizeColumn(tiers, TicketCount);
    var tickets := ChoicesFor(Tickets(TicketCount), ks);
    AllocationOf(tiers, Tickets(TicketCount), tickets, ks);
    var winners := PlainWinners(catalog, col, es);
    assert RunFits(tiers, catalog, tickets, winners);
    RunEditions(tiers, catalog, tickets, winners, es);
  }

  /** The editions the run reports are the editions the draws carry. */
  lemma RunEditions(tiers: seq<Tier>, catalog: seq<nat>, tickets: seq<nat>, winners: seq<WinnerDraws>, es: seq<nat>)
    requires RunFits(tiers, catalog, tickets, winners) && |es| == |winners|
    requires forall i | 0 <= i < |es| ::
               MakeCard(catalog, PrizeColumn(tiers, TicketCount)[i], winners[i]).edition == es[i]
    ensures DesignPrize(tiers, catalog, tickets, winners).summary.e == es
  {
    var o := DesignPrize(tiers, catalog, tickets, winners);
    forall i | 0 <= i < |es|
      ensures o.summary.e[i] == es[i]
    {
      assert Card(o.wins[i].numbers, o.wins[i].edition) ==
        MakeCard(catalog, PrizeColumn(tiers, TicketCount)[i], winners[i]);
    }
  }

  /** One plain draw record per winner, carrying the wanted edition. */
  lemma PlainWinners(catalog: seq<nat>, col: seq<nat>, es: seq<nat>) returns (winners: seq<WinnerDraws>)
    requires |col| == |es|
    requires forall i | 0 <= i < |es| :: 1 <= es[i] <= Editions
    requires forall x | x in col :: |Reduce(catalog, x)| >= DecoyCount
    ensures |winners| == |es|
    ensures forall i | 0 <= i < |winners| :: DrawsFit(winners[i], catalog, col[i])
    ensures forall i | 0 <= i < |winners| :: MakeCard(catalog, col[i], winners[i]).edition == es[i]
  {
    winners := seq(|es|, i requires 0 <= i < |es| => PlainDraws(es[i]));
    forall i | 0 <= i < |winners|
      ensures DrawsFit(winners[i], catalog, col[i])
      ensures MakeCard(catalog, col[i], winners[i]).edition == es[i]
    {
      assert col[i] in col;
      PlainDrawsFit(es[i], catalog, col[i]);
      PlainDrawsEdition(es[i], catalog, col[i]);
    }
  }

  /** The draws that always pick index 0: the decoys are the front of the
      reduced catalog and the shuffle swaps every position with the first. */
  function PlainDraws(edition: nat): (w: WinnerDraws)
    requires 1 <= edition <= Editions
    ensures w.edition < Editions && Edition(w.edition) == edition
  {
    WinnerDraws(edition - 1, Zeros(DecoyCount), Zeros(SwapCalls(PanelSize)))
  }

  lemma PlainDrawsFit(edition: nat, catalog: seq<nat>, prize: nat)
    requires 1 <= edition <= Editions && |Reduce(catalog, prize)| >= DecoyCount
    ensures DrawsFit(PlainDraws(edition), catalog, prize)
  {
    DrawFront(Reduce(catalog, prize), DecoyCount);
    ZerosAll(SwapCalls(PanelSize));
  }

  lemma PlainDrawsEdition(edition: nat, catalog: seq<nat>, prize: nat)
    requires 1 <= edition <= Editions && DrawsFit(PlainDraws(edition), catalog, prize)
    ensures MakeCard(catalog, prize, PlainDraws(edition)).edition == edition
  {
    MakeCardParts(catalog, prize, PlainDraws(edition));
  }

  /** A full run on the fixed schedule with a sorted catalog that holds no
      value three times: all 100 tickets win, each exactly once; the prizes
      are the schedule's values in schedule order; and every card shows its
      prize three times and nothing else three times. */
  lemma ScheduleRun(catalog: seq<nat>, tickets: seq<nat>, winners: seq<WinnerDraws>)
    requires RunFits(Schedule, catalog, tickets, winners)
    requires Sorted(catalog) && NoTriple(catalog)
    ensures var o := DesignPrize(Schedule, catalog, tickets, winners);
            && |o.wins| == TicketCount
            && multiset(o.summary.k) == multiset(Tickets(TicketCount))
            && o.summary.v == ScheduleValues()
            && forall i | 0 <= i < |o.wins| :: PrizeIsTheTriple(o.wins[i])
  {
    ScheduleColumn();
    ScheduleRunTickets(catalog, tickets, winners);
    SortedCatalogCards(Schedule, catalog, tickets, winners);
  }

  lemma ScheduleRunTickets(catalog: seq<nat>, tickets: seq<nat>, winners: seq<WinnerDraws>)
    requires RunFits(Schedule, catalog, tickets, winners)
    ensures var o := DesignPrize(Schedule, catalog, tickets, winners);
            |o.wins| == TicketCount && multiset(o.summary.k) == multiset(Tickets(TicketCount))
  {
    ScheduleDemand();
    ScheduleDrainsPool(tickets);
  }

  /** On the fixed schedule, any assignment of the 100 tickets to the 100
      prizes and any editions are a possible outcome, for any catalog of at
      least seven entries. */
  lemma ScheduleRunReachesEvery(catalog: seq<nat>, ks: seq<int>, es: seq<nat>)
    requires |catalog| >= DecoyCount + 2
    requires multiset(ks) == multiset(Tickets(TicketCount)) && |es| == TicketCount
    requires forall i | 0 <= i < |es| :: 1 <= es[i] <= Editions
    ensures exists tickets, winners ::
              && RunFits(Schedule, catalog, tickets, winners)
              && DesignPrize(Schedule, catalog, tickets, winners).summary == Summary(ks, ScheduleValues(), es)
  {
    ScheduleDemand();
    ScheduleColumn();
    assert |ks| == |multiset(ks)| == |Tickets(TicketCount)|;
    RunReachesEvery(Schedule, catalog, ks, es);
  }
}
