# Scratch-card prize engine

A Dafny model of the allocation and panel engine of the scratch-card prize
scripts `designPrizes.js` and `createPrizes.js`. The two scripts share one
engine and differ only in the catalog of face values used for decoys.

A run works in three steps:

- **Ticket pool draw.** It fills a pool with tickets 1..100. It walks the fixed
  prize schedule (1×100000, 1×50000, 4×10000, 10×5000, 20×1000, 30×500,
  30×100, 4×100). Each tier draws up to its amount of tickets by random
  position, without replacement, while the pool lasts.
- **Panel construction.** Every winner gets a card:
  - an edition in 1..10;
  - three copies of the prize as decimal strings;
  - five decoys drawn by random position from the catalog, after
    `possibilities.splice(possibilities.indexOf(prize), 2)`;
  - a Fisher-Yates shuffle of the eight strings.
- **Summary.** The list of winners is projected onto the three aligned
  columns `k` (ticket id), `v` (prize) and `e` (edition).

`Math.random` is replaced by explicit index choices. Every property below
holds for every sequence of choices within the ranges that
`Math.floor(Math.random() * n)` can produce. `Fits`, `SwapsFit` and
`DrawsFit` state those ranges.

Modules, in dependency order:

- `Js` (js.dfy) models the built-ins with their exact JavaScript semantics:
  - `splice` follows section 23.1.3.31 of ECMAScript 2024, including a
    negative start and a clamped delete count;
  - `indexOf` returns the first occurrence, or -1;
  - `toString` gives the decimal form of a non-negative integer.
- `Draw` (draw.dfy) covers `getRandomTicketFromArrayAndRemove` and drawing
  many elements by position.
- `Allocation` (allocation.dfy) covers the ticket pool, the schedule and the
  per-tier draw loop.
- `Shuffle` (shuffle.dfy) covers `shuffleArray`, both as a recursive
  definition and as the source's loop.
- `Catalog` (catalog.dfy) covers the `indexOf`/`splice(idx, 2)` reduction of
  the decoy catalog, and the catalog shapes for which it removes the prize.
- `Panel` (panel.dfy) covers one winner's card.
- `Engine` (engine.dfy) is the whole `designPrize` run, generic in the
  schedule and the catalog.
- `DesignPrizes` (design_prizes.dfy) and `CreatePrizes` (create_prizes.dfy)
  hold the two scripts' catalogs and the facts about them.

## Model

| member | source | states |
|---|---|---|
| Js.Splice | designPrizes.js:133 | `splice(start, count)` with no inserted items keeps the entries before the clamped start and those after the deleted window. It deletes `SpliceCount` entries: a negative start counts from the end, and the count is clipped to what is left. |
| Js.SpliceMinusOne | createPrizes.js:132-133 | `splice(-1, 2)` on a non-empty array removes only the last entry. |
| Js.SpliceOne | designPrizes.js:93 | Splicing out one entry at a valid position removes exactly that entry from the multiset. |
| Js.SplicePair | designPrizes.js:133 | Splicing two adjacent copies of `x` removes exactly two `x` from the multiset. |
| Js.IndexOf | designPrizes.js:132 | Returns -1 exactly when the value is absent. Otherwise it returns a position holding the value with no copy before it. |
| Js.ToString | designPrizes.js:127 | `toString()` of a non-negative integer is a non-empty string of decimal digits with no leading zero. |
| Js.ParseToString | designPrizes.js:127 | Reading the decimal string back gives the number: `toString` has an inverse. |
| Js.ToStringInjective | designPrizes.js:137 | Two numbers have equal strings if and only if they are equal, so comparing panel strings compares face values. |
| Draw.TakeAt | designPrizes.js:90-95 | The draw returns `arr[randomIndex]`, and the array shrinks by exactly one. |
| Draw.TakeAtIsSplice | designPrizes.js:93 | The array left by the draw is the one `arr.splice(randomIndex, 1)` leaves. |
| Draw.TakeAtBag | designPrizes.js:90-95 | The array left plus the drawn element is the old array, as a multiset. |
| Draw.TakeAtPutBack | designPrizes.js:90-95 | Entries before the index stay put and entries after it move down by one. Re-inserting the drawn element at its position restores the array. |
| Draw.DrawPositions | designPrizes.js:135-139 | Repeated draws by position take one element per choice, and the array loses one element per draw. |
| Draw.DrawPositionsBag | designPrizes.js:135-139 | The drawn elements and the elements left are together exactly the original pool (no loss and no duplication). |
| Draw.DrawPositionsAppend | designPrizes.js:105-113 | Drawing with `c1 + c2` equals drawing with `c1` and then drawing with `c2` from what is left. This is how successive tiers share one pool. |
| Draw.ChoicesFor | designPrizes.js:135-139 | Every sub-multiset of the pool, in every order, is drawn by some valid choice sequence. A draw can take a value as often as the pool holds it. |
| Draw.DrawFront | designPrizes.js:135-139 | Choosing index 0 every time takes the front of the pool in order. |
| Allocation.InitTickets | designPrizes.js:98-103 | The initial loop builds `[1, 2, ..., ticketCount]`. |
| Allocation.TicketsExactlyOnce | designPrizes.js:98-103 | The initial pool holds every ticket 1..n exactly once and nothing else. |
| Allocation.Granted | designPrizes.js:105-113 | The tiers' winner counts sum to the smaller of the total demand and the pool size. |
| Allocation.GrantedClosedForm | designPrizes.js:108-111 | Tier `i` gets `min(amount, pool left by earlier tiers)`. |
| Allocation.GrantedFull | designPrizes.js:108-111 | A tier whose prefix of the schedule fits in the pool gets its full amount. |
| Allocation.GrantedStarved | designPrizes.js:109 | After the first tier that comes up short, every later tier gets no winners. |
| Allocation.ShortPool | designPrizes.js:105-113 | With two tickets and tiers (100000,1), (50000,1), (10000,4), the shares are 1, 1, 0, and no error is raised. |
| Allocation.DrawTier | designPrizes.js:108-112 | One tier's loop draws `min(amount, pool size)` winners, uses one random choice per winner, and leaves the rest of the choices untouched. |
| Allocation.DrawTierIsDrawPositions | designPrizes.js:108-112 | One tier's loop equals that many plain draws by position, both in its winners and in the pool it leaves. |
| Allocation.Allocate | designPrizes.js:105-113 | The winner lists have the sizes `Granted` gives, and the pool loses exactly `min(demand, pool size)` tickets. |
| Allocation.AllocateIsDrawPositions | designPrizes.js:105-113 | All tiers' winners, in schedule order, are the first `min(demand, pool size)` position draws from the pool. The leftover pool is what those draws leave. |
| Allocation.AllocationBag | designPrizes.js:98-113 | The winners of all tiers plus the leftover pool are exactly the initial pool, as a multiset. |
| Allocation.AllocationDisjoint | designPrizes.js:98-113 | From a pool without repeats, winner lists have no repeats and are pairwise disjoint. They are also disjoint from the leftover pool, and together with it they cover the pool. |
| Allocation.AllocationReachesEvery | designPrizes.js:105-113 | Every selection of the right number of distinct pool tickets, in any order, is the winners' list for some valid choices. |
| Allocation.PrizeColumn | designPrizes.js:117-118 | The prize column has one entry per winner: `min(demand, pool size)` entries. |
| Allocation.ScheduleDemand | designPrizes.js:37-79 | The schedule asks for 1+1+4+10+20+30+30+4 = 100 tickets, the ticket count, and every tier is served in full. |
| Allocation.ScheduleColumn | designPrizes.js:11-23 | The prize column of the schedule is each tier's value repeated `amount` times in tier order: 100000 once, 50000 once, then 10000, 5000, 1000, 500 and 100 four, ten, twenty, thirty and thirty-four times. This is the shape of the recorded `v` list. |
| Allocation.ColumnPayout | designPrizes.js:105-118 | When the pool covers the demand, every winner is paid its tier's face value: the prize column sums to the sum of face value times amount. |
| Allocation.SchedulePayout | designPrizes.js:37-81 | The schedule pays 278400 in all, and so does the `v` column of every run. The comment at line 81 says 279000. |
| Allocation.ScheduleDrainsPool | designPrizes.js:98-113 | With the schedule, the pool ends empty, and every ticket 1..100 is assigned to exactly one tier. |
| Shuffle.Swap | designPrizes.js:86 | The destructuring swap exchanges positions `i` and `j`, leaves everything else alone, and keeps the multiset. |
| Shuffle.ShuffleFrom | designPrizes.js:84-87 | The rounds `i = top .. 1` permute the array and leave positions above `top` untouched. |
| Shuffle.ShuffleArray | designPrizes.js:83-88 | `shuffleArray` returns a permutation of its input, with the same length and the same multiset. |
| Shuffle.ShuffleLoop | designPrizes.js:83-88 | The loop, written as the source writes it, computes `ShuffleArray` and keeps the multiset at every round. |
| Shuffle.SwapsFor | designPrizes.js:83-88 | For any target holding the same elements, some valid swap choices make the rounds produce that target. |
| Shuffle.ShuffleReachesEvery | designPrizes.js:83-88 | Every permutation of the input is an outcome of `shuffleArray`. |
| Catalog.Reduce | designPrizes.js:130-133 | After `splice(indexOf(prize), 2)`, the catalog holds a sub-multiset of the old one and has lost at most two entries. When the prize is absent, it has lost exactly its last entry. |
| Catalog.ReduceExcludes | designPrizes.js:132-133 | The prize is gone after the splice if and only if the catalog holds it at most once, or holds it twice with the second copy right after the first. |
| Catalog.ReduceCount | designPrizes.js:132-133 | The splice lowers the prize's count by two when its neighbour is a second copy, and by one otherwise. |
| Catalog.ReduceShape | designPrizes.js:132-133 | When the prize is present, the reduced catalog is the part before its first copy followed by the part after the two removed places. |
| Catalog.AscendingShape | designPrizes.js:130 | A catalog that passes the rising walk is sorted and has no value in three places in a row. |
| Catalog.SortedAtMostTwice | designPrizes.js:130 | A sorted catalog without a value in three places in a row holds no value more than twice. |
| Catalog.SortedExcludes | designPrizes.js:130-133 | In such a catalog, the splice removes the prize completely, whether the prize is present or not. |
| Catalog.PairsPair | designPrizes.js:130-132 | In a run of pairs, every value present occurs exactly twice, and `indexOf` points at the first copy with the second right after it. |
| Catalog.PairsRemoved | designPrizes.js:130-133 | In a run of pairs, the splice removes exactly the two copies of the prize and nothing else. |
| Panel.StringsCount | designPrizes.js:137 | Turning numbers into strings keeps the count of every value. |
| Panel.Unshuffled | designPrizes.js:124-139 | Before the shuffle, the numbers are the three prize strings and the decoy strings as a multiset. The prize string occurs three times more often than the prize occurs among the decoys. |
| Panel.FillNumbers | designPrizes.js:124-139 | The two loops that push onto `numbers`, the three prize strings and then the five decoys taken by position from the reduced catalog, build exactly the numbers `shuffleArray` receives. |
| Panel.PickDecoys | designPrizes.js:135-139 | The decoy loop, as the source writes it, pushes exactly the strings of what position draws take from the reduced catalog. |
| Panel.Edition | designPrizes.js:121 | The edition lies in 1..10 and is the random index plus one. |
| Panel.EditionOnto | designPrizes.js:121 | Every edition 1..10 comes from some random index. |
| Panel.Decoys | designPrizes.js:135-139 | Five decoys, forming a sub-multiset of the reduced catalog. They may repeat a value, since they are drawn by position. |
| Panel.MakeCard | designPrizes.js:120-141 | The card has eight numbers, which are the three prize strings and the five decoy strings in some order, and an edition in 1..10. |
| Panel.CardThreeOfAKind | designPrizes.js:124-141 | If the reduced catalog lacks the prize and the catalog holds no value more than twice, the card shows the prize exactly three times and every other string at most twice. |
| Panel.DecoysBounded | designPrizes.js:135-139 | Decoys from such a catalog contain no prize and no value more than twice. |
| Panel.UnshuffledCounts | designPrizes.js:124-139 | Three prize strings next to such decoys form exactly one three-of-a-kind. |
| Panel.CardReachesEvery | designPrizes.js:120-141 | Every combination of edition, five available decoys and arrangement of the eight strings is the card of some valid draws. |
| Engine.PrizesAreColumn | designPrizes.js:117-118 | The prizes of the winners, listed in the nested `forEach` order, are the prize column, whichever tickets were drawn. |
| Engine.PushColumns | designPrizes.js:153-159 | The pushes build `k`, `v`, `e` of the length of `winArray`, aligned with it index by index. |
| Engine.Assemble | designPrizes.js:115-159 | `winArray` has one entry per winner, in tier order and then draw order. Each entry's card is the one built from that winner's own draws, with eight numbers. The summary columns reproduce the winners' ids and prizes, and every edition is in 1..10. |
| Engine.AllocationFacts | designPrizes.js:98-113 | The run's winners are distinct tickets from 1..100, with prizes forming the schedule's prize column. |
| Engine.DesignPrize | designPrizes.js:97-159 | One run: one entry per winner; distinct ticket ids in 1..100 that are the allocation's winners; a prize column fixed by the schedule alone; editions in 1..10; eight-number cards; each card built from its winner's draws. |
| Engine.DesignPrizeCards | designPrizes.js:117-145 | Every card of a run has the prize as its only three-of-a-kind, when the splice removes every tier's prize and the catalog holds no value more than twice. |
| Engine.SortedCatalogCards | designPrizes.js:124-141 | With a sorted catalog that has no value in three places, every card of every run has the prize as its only three-of-a-kind. |
| Engine.ColumnFromTiers | designPrizes.js:117-118 | Every prize in the column is the prize of some tier. |
| Engine.RunReachesEvery | designPrizes.js:97-159 | Any choice of distinct winning tickets and any editions 1..10 is the summary of some valid run, provided every prize leaves at least five decoy candidates. |
| Engine.ScheduleRun | designPrizes.js:97-159 | On the schedule with a sorted catalog: 100 entries covering the tickets 1..100 exactly once, the prizes in schedule order, and every card with the prize as its only three-of-a-kind. |
| Engine.ScheduleRunReachesEvery | designPrizes.js:97-159 | On the schedule, every assignment of the 100 tickets, with any editions, is a possible run. |
| DesignPrizes.DesignCatalogFits | designPrizes.js:130-139 | The 14-entry catalog holds no value more than twice. For every prize, the splice removes it completely and leaves at least 12 decoy candidates. |
| DesignPrizes.DesignCatalogPairs | designPrizes.js:130-133 | Every schedule prize has exactly two adjacent copies in the catalog. The splice removes exactly those two, and 12 entries remain. |
| DesignPrizes.DesignRun | designPrizes.js:97-159 | The script's run: every ticket wins exactly once, prizes come in schedule order, and every card has its prize as its only three-of-a-kind. |
| DesignPrizes.DesignRunReachesEvery | designPrizes.js:97-159 | Every assignment of the 100 tickets, with any editions, is a possible outcome of the script. |
| DesignPrizes.DesignDecoysRepeat | designPrizes.js:129-139 | Decoys are not unique despite the comment: for the top prize, drawing index 0 five times gives 100, 100, 500, 500, 1000. |
| CreatePrizes.CreateCatalogFits | createPrizes.js:130-139 | The 11-entry catalog holds no value more than twice. For every prize, the splice leaves no copy of it and at least 9 decoy candidates. |
| CreatePrizes.CreateMissingPrize | createPrizes.js:130-133 | 50000 is absent, so `indexOf` gives -1. `splice(-1, 2)` removes only the last 100000, leaving ten entries without 50000. |
| CreatePrizes.CreateLonePrize | createPrizes.js:130-133 | 10000 sits at index 8, and `splice(8, 2)` removes it together with the first 100000. |
| CreatePrizes.CreateRun | createPrizes.js:97-159 | The script's run: every ticket wins exactly once, prizes come in schedule order (50000 included), and every card has its prize as its only three-of-a-kind. |
| CreatePrizes.CreateRunReachesEvery | createPrizes.js:97-159 | Every assignment of the 100 tickets, with any editions, is a possible outcome of the script. |

## Left out

- `imglib.js` and the `webapp` directory are not part of this model. They handle image rendering, uploads and the user interface, all I/O over libraries that are not shown.
- `generateImages(winArray)` (line 150) and `console.log(k, v, e)` (line 160) are output side effects. The model returns the winner list and the three columns instead.
- `Math.random` is an explicit choice of indices within the ranges the source can produce. Uniformity and any other probabilistic claim are out of scope.
- JavaScript numbers are doubles. Every value here is an integer of at most 100000, so they are modelled as unbounded integers, with no floating point.
- The module-level `prizes` array keeps its `winners` lists between calls. The script calls `designPrize` once (line 165), so the model starts each run with empty winner lists.
- The commented-out arrays at lines 1-34 record one past run and are not restated as literals. `Allocation.ScheduleColumn` gives the shape of their `v` list. Their `k` and `e` lists are instances of `DesignRunReachesEvery` and `CreateRunReachesEvery`.
- If fewer than five decoy candidates remained, the script would read `undefined` and throw. The model states the ranges the draws must lie in as a precondition (`DrawsFit`), and `DesignCatalogFits` and `CreateCatalogFits` show that both catalogs always leave at least nine.
- The comment at line 129 of both scripts promises "5 unique other numbers", but the code draws decoys by position and does not enforce uniqueness. The model follows the code, and `DesignDecoysRepeat` shows a card with repeated decoys.
- The code has no error path for a prize missing from the catalog or for a catalog too short for five decoys. The model follows the code: `CreateMissingPrize` shows the absent 50000 silently going through `splice(-1, 2)`, and the short-catalog case is the `DrawsFit` precondition described above.
- The comment at line 81 of both scripts gives 279000 as the total of all prizes, built from the per-tier comments, and the comment on the last tier (line 75) says 1000 for four prizes of 100. The code pays 278400, as does the `v` list recorded at lines 11-23. The model follows the code, and `Allocation.SchedulePayout` proves the 278400.
- Allocation.PrizeColumn: its own contract states only the length. Its content is stated by `Engine.PrizesAreColumn` and `Allocation.ScheduleColumn`.
