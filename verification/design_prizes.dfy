/**
 `designPrizes.js`: the run with the fourteen-entry catalog that holds every
 face value of the schedule twice, side by side.
 */
module DesignPrizes {
  import opened Js
  import opened Draw
  import opened Allocation
  import opened Catalog
  import opened Panel
  import opened Engine

  /** The `possibilities` array of `designPrizes.js`. */
  const DesignCatalog: seq<nat> :=
    [100, 100, 500, 500, 1000, 1000, 5000, 5000, 10000, 10000, 50000, 50000, 100000, 100000]

  /** The catalog is sorted and no value fills three places, so no value
      appears more than twice and every prize is spliced out completely,
      leaving at least twelve decoy candidates. */
  lemma DesignCatalogFits(prize: nat)
    ensures AtMostTwice(DesignCatalog)
    ensures prize !in Reduce(DesignCatalog, prize)
    ensures |Reduce(DesignCatalog, prize)| >= 12
  {
    DesignCatalogShape();
    SortedAtMostTwice(DesignCatalog);
    SortedExcludes(DesignCatalog, prize);
  }

  /** Every prize of the schedule has exactly two adjacent copies in the
      catalog, so the splice removes exactly those two and twelve decoy
      candidates remain. */
  lemma DesignCatalogPairs(t: Tier)
    requires t in Schedule
    ensures Count(DesignCatalog, t.prize) == 2
    ensures |Reduce(DesignCatalog, t.prize)| == 12
    ensures multiset(Reduce(DesignCatalog, t.prize)) + multiset{t.prize, t.prize} == multiset(DesignCatalog)
  {
    assert Pairs(DesignCatalog);
    assert t.prize in DesignCatalog;
    PairsPair(DesignCatalog, t.prize);
    PairsRemoved(DesignCatalog, t.prize);
  }

  lemma DesignCatalogShape()
    ensures Sorted(DesignCatalog) && NoTriple(DesignCatalog)
  {
    assert Ascending(DesignCatalog, false);
    AscendingShape(DesignCatalog, false);
  }

  /** A full run of `designPrizes.js`: all 100 tickets win, each exactly
      once; the prizes are the schedule's values in schedule order; and every
      card shows its prize three times and nothing else three times. */
  lemma DesignRun(tickets: seq<nat>, winners: seq<WinnerDraws>)
    requires RunFits(Schedule, DesignCatalog, tickets, winners)
    ensures var o := DesignPrize(Schedule, DesignCatalog, tickets, winners);
            && |o.wins| == TicketCount
            && multiset(o.summary.k) == multiset(Tickets(TicketCount))
            && o.summary.v == ScheduleValues()
            && forall i | 0 <= i < |o.wins| :: PrizeIsTheTriple(o.wins[i])
  {
    DesignCatalogShape();
    ScheduleRun(DesignCatalog, tickets, winners);
  }

  /** Any assignment of the 100 tickets to the 100 prizes and any editions
      are a possible outcome of `designPrizes.js`. */
  lemma DesignRunReachesEvery(ks: seq<int>, es: seq<nat>)
    requires multiset(ks) == multiset(Tickets(TicketCount)) && |es| == TicketCount
    requires forall i | 0 <= i < |es| :: 1 <= es[i] <= Editions
    ensures exists tickets, winners ::
              && RunFits(Schedule, DesignCatalog, tickets, winners)
              && DesignPrize(Schedule, DesignCatalog, tickets, winners).summary == Summary(ks, ScheduleValues(), es)
  {
    ScheduleRunReachesEvery(DesignCatalog, ks, es);
  }

  /** Decoys may repeat a value: for the top prize, drawing the first
      candidate five times puts 100 and 500 twice each on the card. */
  lemma DesignDecoysRepeat()
    ensures Fits(Zeros(DecoyCount), |Reduce(DesignCatalog, 100000)|)
    ensures Decoys(DesignCatalog, 100000, Zeros(DecoyCount)) == [100, 100, 500, 500, 1000]
  {
    TopPrizeReduce();
    DrawFront(DesignCatalog[..12], DecoyCount);
    FrontFive();
  }

  /** The top prize sits at the end, so splicing it out keeps the first twelve. */
  lemma TopPrizeReduce()
    ensures Reduce(DesignCatalog, 100000) == DesignCatalog[..12]
  {
    var c := DesignCatalog;
    assert c[..12] == [100, 100, 500, 500, 1000, 1000, 5000, 5000, 10000, 10000, 50000, 50000];
    IndexOfAt(c, 100000, 12);
    ReduceShape(c, 100000);
  }

  lemma FrontFive()
    ensures DesignCatalog[..12][..DecoyCount] == [100, 100, 500, 500, 1000]
  {
    assert DesignCatalog[..12][..DecoyCount] == DesignCatalog[..5];
  }
}
