/**
 `createPrizes.js`: the same run with an eleven-entry catalog that holds 10000
 once and 50000 not at all. For 50000 `indexOf` answers -1 and `splice(-1, 2)`
 drops the last entry instead; for 10000 the splice takes the lone 10000 and
 the first 100000. Neither path lets the prize back onto a card.
 */
module CreatePrizes {
  import opened Js
  import opened Draw
  import opened Allocation
  import opened Catalog
  import opened Panel
  import opened Engine

  /** The `possibilities` array of `createPrizes.js`. */
  const CreateCatalog: seq<nat> :=
    [100, 100, 500, 500, 1000, 1000, 5000, 5000, 10000, 100000, 100000]

  /** The catalog is sorted and no value fills three places, so no value
      appears more than twice and every prize, present or not, is absent
      from the reduced catalog, which keeps at least nine entries. */
  lemma CreateCatalogFits(prize: nat)
    ensures AtMostTwice(CreateCatalog)
    ensures prize !in Reduce(CreateCatalog, prize)
    ensures |Reduce(CreateCatalog, prize)| >= 9
  {
    CreateCatalogShape();
    SortedAtMostTwice(CreateCatalog);
    SortedExcludes(CreateCatalog, prize);
  }

  lemma CreateCatalogShape()
    ensures Sorted(CreateCatalog) && NoTriple(CreateCatalog)
  {
    assert Ascending(CreateCatalog, false);
    AscendingShape(CreateCatalog, false);
  }

  /** 50000 is not in the catalog: `indexOf` gives -1, and `splice(-1, 2)`
      removes only the last 100000, leaving ten entries without 50000. */
  lemma CreateMissingPrize()
    ensures IndexOf(CreateCatalog, 50000) == -1
    ensures Reduce(CreateCatalog, 50000) == CreateCatalog[..10]
    ensures 50000 !in Reduce(CreateCatalog, 50000)
  {
    var c := CreateCatalog;
    assert c[..10] == [100, 100, 500, 500, 1000, 1000, 5000, 5000, 10000, 100000];
    assert 50000 !in c by {
      assert c == c[..10] + [100000];
    }
  }

  /** 10000 is in the catalog once, at index 8: `splice(8, 2)` removes it
      together with the first 100000, so only one 100000 stays available as
      a decoy. */
  lemma CreateLonePrize()
    ensures IndexOf(CreateCatalog, 10000) == 8
    ensures Reduce(CreateCatalog, 10000) == CreateCatalog[..8] + [100000]
  {
    var c := CreateCatalog;
    CreateLoneIndex();
    ReduceShape(c, 10000);
    assert c[10..] == [100000];
  }

  lemma CreateLoneIndex()
    ensures IndexOf(CreateCatalog, 10000) == 8
  {
    var c := CreateCatalog;
    assert c[..8] == [100, 100, 500, 500, 1000, 1000, 5000, 5000];
    IndexOfAt(c, 10000, 8);
  }

  /** A full run of `createPrizes.js`: all 100 tickets win, each exactly
      once; the prizes are the schedule's values in schedule order, 50000
      included; and every card shows its prize three times and nothing else
      three times. */
  lemma CreateRun(tickets: seq<nat>, winners: seq<WinnerDraws>)
    requires RunFits(Schedule, CreateCatalog, tickets, winners)
    ensures var o := DesignPrize(Schedule, CreateCatalog, tickets, winners);
            && |o.wins| == TicketCount
            && multiset(o.summary.k) == multiset(Tickets(TicketCount))
            && o.summary.v == ScheduleValues()
            && forall i | 0 <= i < |o.wins| :: PrizeIsTheTriple(o.wins[i])
  {
    CreateCatalogShape();
    ScheduleRun(CreateCatalog, tickets, winners);
  }

  /** Any assignment of the 100 tickets to the 100 prizes and any editions
      are a possible outcome of `createPrizes.js`. */
  lemma CreateRunReachesEvery(ks: seq<int>, es: seq<nat>)
    requires multiset(ks) == multiset(Tickets(TicketCount)) && |es| == TicketCount
    requires forall i | 0 <= i < |es| :: 1 <= es[i] <= Editions
    ensures exists tickets, winners ::
              && RunFits(Schedule, CreateCatalog, tickets, winners)
              && DesignPrize(Schedule, CreateCatalog, tickets, winners).summary == Summary(ks, ScheduleValues(), es)
  {
    ScheduleRunReachesEvery(CreateCatalog, ks, es);
  }
}
