# Verified model of the solver

The solver keeps a limit order book of swap notes, matches them in pairs and in triangles, hands what is left to external
DEXes, and settles filled notes in one transaction. This project models that logic in Dafny 4.11 and proves what it
promises. `dafny verify dfyconfig.toml` checks everything.

## How it is built

- `Types` has the integer arithmetic of one order: floor releases, exact rate comparison, and matching two orders. Amounts
  are integers below 2^64; every narrowing cast is written out as a remainder.
- `Book` is the order book as a value: the orders, the matchable ids in the order in which they were indexed, the parked
  notes with their queue, and the credited balances. `OrderBook` is the class with the real fields (levels per pair, counters,
  both adjacency maps, park queue). Its methods are proved against `Book`, and its invariant `Valid` ties every field to it.
  `RateIndex` has the lemmas about levels, counters and adjacency.
- `Direct` and `Ledger` are about the direct phase as a function on books: confluence, idempotence, solvency.
  `DirectMatching` is the loop that runs it.
- `Cycles` and `CycleHeap` are about one triangular cycle and about the heap of candidates, `CycleRuns` about any sequence of
  executed cycles as a trace. `TriangularMatching` is the loop. `Engine` puts the two phases together: `EngineRun` says what a
  run is, and everything after it (`Matcher`, `Ticks`) speaks of the trace of executed cycles.
- `Select` and `RouterServer` choose notes for DEX quotes and keep the sorted quote snapshot. `Routing` turns a selection over
  the book's listings into a handover.
- `Parking` is about parked notes over time, `Executor` about the net flow of a batch, and `CycleBatch` about the batch of one
  cycle and about a book on which the engine's own batch is refused. `Ticks` says what the stages of a tick are and what holds
  over any run of ticks; `Matcher` is the tick and the tick loop as a class.
- `SwapEta` has the rolling settlement window, its median, and the fill prediction.
- `Database`, `Ingest` and `Settlement` are the tables and the two stages that write them. `Lifecycle` interleaves ingest,
  matcher and executor step by step, with a crash possible anywhere. `Execution` is the executor's treatment of one batch;
  it and `Refinement` show that executor, ingest and tick are paths of that system. `Stranding` shows what runs can do to the
  orders of a batch. `Recovery` boots the matcher from the tables.

Order, quote and note records are values, as the code copies them before changing them. Order-sensitive library
structures (ordered maps, deques, sorted vectors, the binary heap) are sequences. Iteration over hash sets and hash maps
picks an arbitrary element each time, so what is proved holds for every order. The heap pops any entry of maximal surplus.

Some properties one might expect are false of the code. For each there is a concrete counterexample and the exact condition:

- A failed match can still change an order: `ZeroReleaseExample`, `ShortReleaseExample`, `FailedMatchMutates`.
- Cleaning up a filled order twice makes the pair counter drift: `CleanedTwiceDrifts`, `DecrementOk`, `CleanupIfFilled`. No
  caller in the repository cleans up an order twice.
- A profitable cycle can be short on its closing token, and its batch is then refused: `ProfitableCycleCanBeShort`, `ShortRun`,
  `ShortRefused`, `CycleBalances`, `CycleAccepted`. Its orders are then stranded until a crash: `ShortCycleStrands`,
  `RefusedStrands`.
- An older queue ticket wakes a note before its time: `StaleTicketWakesEarly`, `WakesExactlyOverdue`.
- A sync that lists a new note twice forwards it twice: `ListedTwiceForwardedTwice`, `ForwardedOnce`. The comment in
  `crates/solver/src/ingest/ingest.rs:212-217` promises that a note enters the channel exactly once; the model follows the code.
- A row marked as consumed on chain can lose that status to the executor: `TwoNotesLost`, `NullifiedIsLost`, `NullifiedLostIff`.

## Model

| member | source | states |
|---|---|---|
| `Types.OutputLossless` | crates/solver/src/matching/types.rs:10-13 | for a fill up to the requested amount the truncating cast loses nothing: the release is the exact floor quotient, stays within the offer, and is the whole offer for a full fill |
| `Types.OutputSuperadditive` | crates/solver/src/matching/types.rs:10-13 | two separate fills never release more than one combined fill |
| `Types.RateOrder` | crates/solver/src/matching/types.rs:38-57 | cross-multiplied comparison of positive rates is a total preorder, equality identifies representations of one rate, and no product exceeds 128 bits |
| `Types.CrossRespectsRate` | crates/solver/src/matching/types.rs:150-154 | whether an order crosses does not depend on which representation of a rate it is tested against |
| `Types.MinFillIsCeilingInverse` | crates/solver/src/matching/types.rs:99-128 | for targets up to the offer, a fill releases at least the target if and only if it is at least the computed minimum fill, despite the truncating casts; above the offer the minimum is the whole order |
| `Types.MatchLedger` | crates/solver/src/matching/types.rs:158-190 | in a successful match each side releases exactly its counterpart's fill plus the credited surplus, and both fills are positive and fit |
| `Types.MatchExact` | crates/solver/src/matching/types.rs:158-190 | for any two orders, partly filled or not, a match succeeds if and only if the trade of exact integer arithmetic exists, and then fills, surpluses and both orders are those of that trade |
| `Types.FailedMatchMutates` | crates/solver/src/matching/types.rs:165-185 | a failed match leaves both orders unchanged if and only if one was filled already, they do not cross, or the first has nothing left to send; otherwise at least one of them has been filled |
| `Types.ZeroReleaseExample` | crates/solver/src/matching/types.rs:172-184 | two crossing orders of which one is filled although the match fails on a zero release |
| `Types.ShortReleaseExample` | crates/solver/src/matching/types.rs:172-184 | two crossing orders that are both filled although the match fails because one release is too short |
| `Types.WholeOrdersTrade` | crates/solver/src/matching/types.rs:150-190 | two untouched orders trade if and only if they cross, and a trade completes one of them |
| `Book.MatchEffect` | crates/solver/src/matching/order_book.rs:346-367 | a match writes back exactly the exact trade or leaves the book as it is, credits exactly both surpluses on their tokens, and takes exactly the completed orders off the matchable list |
| `RateIndex.BestInWins` | crates/solver/src/matching/order_book.rs:235-257 | the best order of a pair has the lowest rate and, among equals, was indexed first; none exists only if the pair has no matchable order |
| `RateIndex.BestStays` | crates/solver/src/matching/order_book.rs:235-257 | removing any other id leaves the best order of a pair the best |
| `RateIndex.TreeInsertOk` | crates/solver/src/matching/order_book.rs:91-109 | inserting an id into the levels of its pair keeps them strictly sorted by rate, each level first-in-first-out, and nothing else in them |
| `RateIndex.TreeRemoveOk` | crates/solver/src/matching/order_book.rs:390-417 | removing an id from its level, and the level once it is empty, leaves exactly the other ids in place |
| `RateIndex.DecrementOk` | crates/solver/src/matching/order_book.rs:113-126 | a saturating decrement keeps a pair's counter exact if and only if the id was counted or nothing was left to count |
| `RateIndex.CleanedTwiceDrifts` | crates/solver/src/matching/order_book.rs:113-126 | two orders of a pair, one filled and cleaned up twice, end with a counter of zero and one matchable order |
| `OrderBook.TreeHeadIsBest` | crates/solver/src/matching/order_book.rs:235-257 | the head of the first level is the price-time winner of the pair |
| `OrderBook.FlattenIsListing` | crates/solver/src/matching/order_book.rs:262-272 | reading the levels in order lists exactly the matchable orders of the pair, by rate and then by indexing time |
| `OrderBook.TopLevelIsBest` | crates/solver/src/matching/order_book.rs:286-305 | the published top level has the rate of the best order even if its stored key came from a removed order, and its volume is the saturated sum over all orders at that rate |
| `OrderBook.OrderBook.constructor` | crates/solver/src/matching/order_book.rs:36-50 | a new book is valid and empty |
| `OrderBook.OrderBook.AddUserOrder` | crates/solver/src/matching/order_book.rs:54-88 | a new or parked order enters whole at the back of the matchable list; a known unparked one is left alone; all indexes stay in agreement |
| `OrderBook.OrderBook.IndexInsert` | crates/solver/src/matching/order_book.rs:91-109 | inserting an unindexed order keeps levels, counter and both adjacency maps in agreement with the matchable list |
| `OrderBook.OrderBook.RemoveFromIndex` | crates/solver/src/matching/order_book.rs:390-417 | the id leaves the matchable list, and levels and adjacency agree with what remains |
| `OrderBook.OrderBook.CleanupIfFilled` | crates/solver/src/matching/order_book.rs:113-126 | a completed order leaves the matchable list; the indexes stay in agreement if and only if it was still indexed or its pair had no counted order |
| `OrderBook.OrderBook.RemoveOrder` | crates/solver/src/matching/order_book.rs:129-150 | the order is gone from orders, index and parked notes, nothing else moves, and the indexes agree |
| `OrderBook.OrderBook.Park` | crates/solver/src/matching/order_book.rs:157-180 | an active unparked order leaves matching and gets a queue ticket; anything else is left alone; the indexes agree |
| `OrderBook.OrderBook.Unpark` | crates/solver/src/matching/order_book.rs:183-189 | a parked order returns to the back of the matchable list and its DEX is reported; the indexes agree |
| `OrderBook.OrderBook.Reindex` | crates/solver/src/matching/order_book.rs:214-221 | an active order is indexed again at the back, any other id changes nothing |
| `OrderBook.OrderBook.ReactivateParkedOlderThan` | crates/solver/src/matching/order_book.rs:193-210 | the loop does what the specification of reactivation says, ticket by ticket, and keeps the indexes in agreement |
| `OrderBook.OrderBook.BestOrder` | crates/solver/src/matching/order_book.rs:235-257 | in a valid book lazy pruning finds nothing to prune and the result is the price-time winner |
| `OrderBook.OrderBook.HasOrders` | crates/solver/src/matching/order_book.rs:276-281 | the counter test is true if and only if the pair has a best order |
| `OrderBook.OrderBook.NotesForPair` | crates/solver/src/matching/order_book.rs:262-272 | lists exactly the matchable orders of a pair in price-time priority |
| `OrderBook.OrderBook.GetBestLevel` | crates/solver/src/matching/order_book.rs:286-305 | the scan over the levels returns the first live one with its saturated live volume |
| `OrderBook.OrderBook.SnapshotBestLevels` | crates/solver/src/matching/order_book.rs:308-316 | the snapshot holds the top level of exactly the pairs that have one |
| `OrderBook.OrderBook.ApplyMatch` | crates/solver/src/matching/order_book.rs:346-367 | for any two ids, a failed match changes nothing at all; a successful one writes both orders, credits and indexes, and the book stays valid if and only if no parked order was completed |
| `Direct.StepDecreases` | crates/solver/src/matching/direct_matching.rs:42-93 | every executed match strictly reduces what is still requested, which is why the pair loop ends |
| `Direct.PairsCommute` | crates/solver/src/matching/direct_matching.rs:30-40 | two pairs can be matched to the end in either order with the same book, filled set and count |
| `Direct.MatchAllAnyOrder` | crates/solver/src/matching/direct_matching.rs:30-40 | the direct phase is confluent: whichever pair is visited first, it ends in the same book, filled set and cycle count |
| `Direct.DirectEndsStuck` | crates/solver/src/matching/direct_matching.rs:7-93 | after the direct phase no pair of tokens whatever has a match left, collected or not |
| `Direct.DirectPhaseIdempotent` | crates/solver/src/matching/direct_matching.rs:7-93 | a second direct phase on the result executes nothing and changes nothing |
| `Direct.AllReports` | crates/solver/src/matching/direct_matching.rs:30-93 | the reported set is exactly the set of orders whose fill changed, and a cycle is counted only if some did |
| `Ledger.MatchSolvent` | crates/solver/src/matching/order_book.rs:346-377 | one match keeps releases at least fills plus credits on every token, despite rounding |
| `Ledger.DirectPhaseSolvent` | crates/solver/src/matching/direct_matching.rs:30-93 | from any book of whole orders the direct phase ends with releases covering fills plus credits on every token |
| `Ledger.ReleasedWithinOffered` | crates/solver/src/matching/order_book.rs:371-377 | releases, and hence credited balances, never exceed the total offer of a token, so they fit 64 bits when that total does |
| `DirectMatching.CollectMatchablePairs` | crates/solver/src/matching/direct_matching.rs:7-28 | the nested loops over the known tokens collect exactly the pairs with matchable orders on both sides, each once, lower token first |
| `DirectMatching.MatchUserOrders` | crates/solver/src/matching/direct_matching.rs:42-93 | the loop on the real book equals the pair function: best against best until nothing trades, with termination proved |
| `DirectMatching.RunDirectMatching` | crates/solver/src/matching/direct_matching.rs:30-40 | visiting the pairs in an arbitrary order computes the one result of the direct phase and keeps the book valid |
| `Cycles.CanonicalIsRotation` | crates/solver/src/matching/three_edge_cycle.rs:14-24 | the three rotations of a triangle have one canonical form with the same directed pairs |
| `Cycles.CycleLedger` | crates/solver/src/matching/three_edge_cycle.rs:183-258 | for every bottleneck: fills are positive and fit, the bottleneck is completed, and release equals fill plus surplus on each token but for the shortfall on the closing one |
| `Cycles.CycleBalances` | crates/solver/src/matching/three_edge_cycle.rs:217-258 | a cycle balances on all tokens if and only if its last leg releases at least the bottleneck's fill |
| `Cycles.SimulationExact` | crates/solver/src/matching/three_edge_cycle.rs:183-324 | a simulation is found if and only if exact arithmetic has one: all legs active and priced, the leg with the least requested value (the earliest among equals) filled completely, each further leg with what the one before releases as far as it wants it, surpluses what is released beyond the fills, and the ranking value their priced sum, capped once |
| `Cycles.ProfitableCycleCanBeShort` | crates/solver/src/matching/three_edge_cycle.rs:217-324 | a cycle with positive surplus that releases 5 of a token against a fill of 10 |
| `Cycles.TryBuildOk` | crates/solver/src/matching/three_edge_cycle.rs:132-177 | a built entry consists of the current best orders of its three pairs and its surplus is positive and up to date |
| `Cycles.FilterIs` | crates/solver/src/matching/three_edge_cycle.rs:143-165 | the fast filter refuses three orders if and only if their offers multiply to no more than their requests and the latter product fits 128 bits |
| `Cycles.TryBuildExact` | crates/solver/src/matching/three_edge_cycle.rs:132-177 | a triangle is built if and only if its three pairs have best orders that pass the filter and whose exact cycle has a positive value; the entry names exactly these orders and this value |
| `Cycles.ExecutionMatchesSimulation` | crates/solver/src/matching/three_edge_cycle.rs:412-460 | the three orders are different and matchable, no fill is clamped, every fill is at least one, and each actual release is the simulated one |
| `Cycles.ExecuteOk` | crates/solver/src/matching/three_edge_cycle.rs:412-460 | executing an entry changes exactly its three orders, keeps the book well-formed and uses up requested units |
| `Cycles.ExecuteEffect` | crates/solver/src/matching/three_edge_cycle.rs:412-460 | executing an entry lowers each of its orders by exactly the simulated fill, credits exactly the three surpluses, and takes exactly the completed orders off the matchable list |
| `Cycles.ExecuteLedger` | crates/solver/src/matching/three_edge_cycle.rs:412-460 | credits of a cycle are covered by what it nets on every token up to the shortfall on the closing one, and never exceed what it releases |
| `Cycles.ExecuteKeepsCurrent` | crates/solver/src/matching/three_edge_cycle.rs:334-397 | executing one entry leaves every other entry sound: its orders are still in the book and, while active, still the best of their pairs |
| `Cycles.ExecuteUnaffected` | crates/solver/src/matching/three_edge_cycle.rs:380-397 | a triangle that shares no pair with the executed one is rebuilt exactly as before, so it need not be re-evaluated |
| `CycleHeap.ExecuteHeapOk` | crates/solver/src/matching/three_edge_cycle.rs:380-397 | after an execution the heap still has, for every buildable triangle that shares no pair with it, the entry of its best orders with its present surplus |
| `CycleHeap.RequeueOk` | crates/solver/src/matching/three_edge_cycle.rs:352-378 | re-queueing a stale entry with its recomputed surplus keeps the heap complete and weighs at most one, where the stale entry weighed two; a zero surplus means that its triangle cannot be built |
| `CycleHeap.RefreshOk` | crates/solver/src/matching/three_edge_cycle.rs:343-397 | rebuilding a popped triangle keeps the heap complete and adds a weight of at most one |
| `CycleHeap.TopIsBest` | crates/solver/src/matching/three_edge_cycle.rs:330-343 | the top of a complete heap is worth at least as much as any known triangle that could be executed now, stale entries notwithstanding |
| `CycleRuns.TraceReports` | crates/solver/src/matching/three_edge_cycle.rs:363-409 | any sequence of executed cycles keeps the book well-formed and fills exactly the orders of its entries |
| `CycleRuns.TraceLedger` | crates/solver/src/matching/three_edge_cycle.rs:412-460 | over any sequence of executed cycles, credits on a token never exceed releases, and exceed the net flow by at most the shortfalls of those cycles that close on it |
| `CycleRuns.NoShortfallNoDebt` | crates/solver/src/matching/three_edge_cycle.rs:217-258 | if no executed cycle falls short, there is no debt on any token |
| `TriangularMatching.TryBuildEntry` | crates/solver/src/matching/three_edge_cycle.rs:132-177 | reading the book through its pruning lookups does not change it and gives the entry of the current best orders |
| `TriangularMatching.EnumerateTriangles` | crates/solver/src/matching/three_edge_cycle.rs:92-126 | the triangles built are exactly those that can be executed with a profit, each gets one entry with its best orders and present surplus, and the reverse index lists exactly them under their pairs |
| `TriangularMatching.ExecuteCycle` | crates/solver/src/matching/three_edge_cycle.rs:412-460 | it fails if and only if an order is missing, and then leaves exactly the fills made before the missing one; on a simulated entry the new book is exactly the executed one and stays valid |
| `TriangularMatching.RunThreeEdgeCycle` | crates/solver/src/matching/three_edge_cycle.rs:334-409 | the heap loop terminates for every book and feed and executes exactly the cycles of a trace: each is a triangle of the enumeration on the best orders of that moment, with bottleneck, fills and value as exact arithmetic has them, at a positive value that no other triangle of the start exceeds; the book, the filled set and the count are those of the trace, and no triangle that could be built at the start can be built at the end |
| `Engine.EngineReports` | crates/solver/src/matching/engine.rs:28-54 | a run of both phases reports exactly the orders it changed, and counts a cycle if and only if it changed one |
| `Engine.EngineAccounted` | crates/solver/src/matching/engine.rs:28-54 | from whole orders, what a run credits on a token exceeds what it nets by at most the shortfalls of its cycles there, and never exceeds the total offer |
| `Engine.IdleIff` | crates/solver/src/matching/engine.rs:28-54 | a run fills nothing if and only if no pair of tokens whatever has a match and, with triangles enabled, no triangle of tokens whatever can be built |
| `Engine.DirectTradesIff` | crates/solver/src/matching/direct_matching.rs:7-93 | on whole orders the direct phase fills something if and only if there are two matchable orders on opposite priced pairs with `offered * offered > requested * requested` |
| `Engine.MatchingEngine.Run` | crates/solver/src/matching/engine.rs:28-54 | in both configurations: book, filled set and count are those of the direct phase followed by the cycles of a trace on what it left, no cycle with triangles off, and otherwise until no enumerated triangle is executable; only positive balances are reported |
| `CycleBatch.CycleAccepted` | crates/solver/src/matching/three_edge_cycle.rs:217-258 | a batch that settles one cycle of whole orders passes the deficit check if and only if the cycle does not fall short on its closing token |
| `CycleBatch.ShortRun` | crates/solver/src/matching/three_edge_cycle.rs:334-409 | on a certain book of three whole orders every run of the engine executes exactly the profitable cycle that falls short |
| `CycleBatch.ShortRuns` | crates/solver/src/matching/three_edge_cycle.rs:334-409 | there is such a run |
| `CycleBatch.ShortRefused` | crates/solver/src/matching/three_edge_cycle.rs:217-324 | the batch of any such run is refused by the deficit check |
| `Select.CrossingIsPrefix` | crates/solver/src/router/select.rs:66-119 | under descending rates, if a later quote crosses then so does every earlier one, which justifies the early exit |
| `Select.LastFitIsTightest` | crates/solver/src/router/select.rs:85-119 | the last quote that fits has the smallest rate of all live crossing quotes with room |
| `Select.Choose` | crates/solver/src/router/select.rs:85-119 | the early-exit scan gives the answer of an exhaustive search over all quotes |
| `Select.MatchPair` | crates/solver/src/router/select.rs:85-119 | the picks of a pair are those of the reference selection: each note in turn goes whole to the last quote an exhaustive search finds to fit what is left |
| `Select.SelectNotes` | crates/solver/src/router/select.rs:124-135 | whatever order the pairs are visited in, the picks of each quoted pair are exactly its reference selection, and there are no others |
| `Select.SelectionCrosses` | crates/solver/src/router/select.rs:66-119 | every pick hands a whole note of its pair, at its own rate, to a quote that has not expired, names positive amounts, and pays at least that rate |
| `Select.SelectionDistinct` | crates/solver/src/router/select.rs:121-135 | no note is picked twice, within a pair or across pairs |
| `Select.SelectionWithinSupply` | crates/solver/src/router/select.rs:85-119 | the picks ask no quote for more than its supply |
| `Select.SelectionTightest` | crates/solver/src/router/select.rs:70-119 | each pick goes to a quote whose rate is the smallest of all live crossing quotes that still had room after the earlier picks |
| `Select.SelectionMaximal` | crates/solver/src/router/select.rs:85-135 | a note that is in no pick fits no live crossing quote on top of what the picks ask of its DEX |
| `RouterServer.SortByRateSorted` | crates/solver/src/router/server.rs:82-101 | sorting positive quotes makes rates descend, which is what selection needs |
| `RouterServer.RouterState.Republish` | crates/solver/src/router/server.rs:82-101 | the snapshot groups exactly the stored quotes by pair, each DEX once per pair, each group descending by rate |
| `RouterServer.RouterState.PublishedOk` | crates/solver/src/router/server.rs:82-101 | every published snapshot is what the matcher asks of its quotes: sorted, and one quote per DEX and pair |
| `RouterServer.RouterState.RegisterQuote` | crates/solver/src/router/server.rs:123-148 | a quote with a zero amount is refused and changes nothing; any other replaces the DEX's quote on the pair of the notes that take its other side, lives no longer than it asked for and than the cap, no shorter than the lesser of the two, and is published; no other quote changes |
| `RouterServer.RouterState.Deliver` | crates/solver/src/router/server.rs:153-177 | exactly the quotes a batch used are consumed, all others stay, and the snapshot agrees |
| `RouterServer.RouterState.Deregister` | crates/solver/src/router/server.rs:180-187 | all quotes of the DEX are gone from store and snapshot, and no others |
| `Parking.ExpiredIs` | crates/solver/src/matching/order_book.rs:197-199 | the saturating expiry test is `at + ttl <= time` in plain integers, except that at the end of the 64-bit clock everything has expired |
| `Parking.ReactivateWakes` | crates/solver/src/matching/order_book.rs:193-210 | reactivation wakes exactly the parked notes with an expired ticket, drops exactly the expired tickets, and keeps the queue in clock order |
| `Parking.NoneOverdue` | crates/solver/src/matching/order_book.rs:193-210 | after reactivation no parked note has outlived its time |
| `Parking.KeepsUnexpired` | crates/solver/src/matching/order_book.rs:193-210 | if no older ticket survives, a note stays parked if and only if its park time plus the time to live lies after the clock, which must not have reached its 64-bit end |
| `Parking.WakesExactlyOverdue` | crates/solver/src/matching/order_book.rs:157-210 | exactly the overdue notes are woken, for every time to live and clock, if and only if no ticket of a parked note is older than its parking |
| `Parking.ParkBatchNoOlder` | crates/solver/src/matching/order_book.rs:157-180 | parking a batch leaves no older ticket behind if and only if none of its notes still has one in the queue |
| `Parking.NoOlderReactivate` | crates/solver/src/matching/order_book.rs:193-210 | reactivation leaves no older ticket behind where there was none |
| `Parking.StaleTicketWakesEarly` | crates/solver/src/matching/order_book.rs:183-208 | a note parked, rolled back and parked again is woken by its first ticket before its time |
| `Parking.RollbackRestores` | crates/solver/src/matcher/matcher.rs:226-238 | parking a batch and unparking it restores everything but positions in the matchable list and the tickets left in the queue |
| `Parking.SameMatchables` | crates/solver/src/matcher/matcher.rs:226-238 | books with the same orders and parked notes have the same matchable set, the same counters and the same best rate on every pair |
| `Executor.PrepareBatch` | crates/solver/src/executor/executor.rs:160-241 | a batch is accepted if and only if every note decodes and can be executed and every token's net flow is between zero and the 64-bit limit, whatever order tokens are visited in; the first bad note decides the error; once accepted, everything brought in is paid back, left in a remainder, or swept |
| `Executor.FlowIsNet` | crates/solver/src/executor/executor.rs:168-208 | the net flow of a batch is release minus receipt summed over the orders it settles |
| `Executor.BatchFlow` | crates/solver/src/executor/executor.rs:168-208 | the batch of all touched orders carries exactly the net flow of the run that touched them |
| `Routing.SelectionRouted` | crates/solver/src/matcher/matcher.rs:245-292 | a selection over the book's listings, turned into items, hands out distinct whole matchable notes, each to the tightest quote with room at its turn, within supply, and leaves out no matchable note that would still fit |
| `Routing.RoutedHeld` | crates/solver/src/router/server.rs:153-177 | every item of a handover names a quote the router holds and that is still usable, as long as the snapshot is up to date |
| `Routing.SendFacts` | crates/solver/src/matcher/matcher.rs:217-238 | a delivered handover parks its notes; an undelivered one leaves them matchable, behind the others |
| `Ticks.EndsKept` | crates/solver/src/matcher/matcher.rs:245-292 | with quotes as the router publishes them, a tick asks no DEX for more than its supply |
| `Ticks.RoutedWereFree` | crates/solver/src/matcher/matcher.rs:128-146 | a note routed in a tick did not settle in it and was not with a DEX already |
| `Ticks.SettledWereFree` | crates/solver/src/matcher/matcher.rs:128-139 | no note that settles is with a DEX |
| `Ticks.DrainedExactly` | crates/solver/src/matcher/matcher.rs:106-126 | the events of a tick leave exactly the orders that were not consumed and the ingested ones, the latter whole and with their own terms, and parked exactly the notes that were neither |
| `Ticks.ParkedAfter` | crates/solver/src/matcher/matcher.rs:206-240 | after a tick exactly the delivered notes have joined the parked ones, each with its DEX and the clock of the tick |
| `Ticks.TickNoOlder` | crates/solver/src/matcher/matcher.rs:97-151 | a tick leaves no older ticket behind if and only if it parks no note again while an older ticket of it survives |
| `Ticks.RunNoOlder` | crates/solver/src/matcher/matcher.rs:97-151 | over any run no older ticket appears exactly as long as no note is parked again too early |
| `Ticks.RunWakesOnTime` | crates/solver/src/matcher/matcher.rs:106-134 | over any run, at every tick with its router, each note that stays parked still has time to live; and if no note was parked again too early before, exactly the notes with time to live stay parked |
| `Ticks.SettlesAfresh` | crates/solver/src/matcher/matcher.rs:97-151 | over any run a note settles a second time only if it was ingested again in between |
| `Ticks.StrandedByRouter` | crates/solver/src/matcher/matcher.rs:141-146 | once the router channel has closed nothing is routed or woken any more, so a parked note stays parked until it is consumed or ingested again |
| `Matcher.Matcher.DrainConsumed` | crates/solver/src/matcher/matcher.rs:111-115 | consumed notes leave book, raw notes and arrival times together |
| `Matcher.Matcher.DrainOrders` | crates/solver/src/matcher/matcher.rs:116-126 | new orders enter whole, a known one keeps its first arrival time, and the boundary invariant holds again |
| `Matcher.Matcher.BuildBatch` | crates/solver/src/matcher/matcher.rs:175-191 | every touched order appears once in the batch with the fill it got, its own bytes and its arrival time |
| `Matcher.Matcher.InternalMatch` | crates/solver/src/matcher/matcher.rs:158-201 | the engine has run on the book in its configuration; the batch holds exactly the orders it filled, all of which were matchable; once it is sent they leave the book, which is whole again; on every token the batch flows out at most what the executed cycles fell short by, and in at most the offers |
| `Matcher.Matcher.RouteExternal` | crates/solver/src/matcher/matcher.rs:245-292 | exactly the notes of a handover are parked, and the handover is safe, tight and leaves out nothing that fits |
| `Matcher.Matcher.ExternalPass` | crates/solver/src/matcher/matcher.rs:206-240 | delivered notes stay parked, an undelivered batch is rolled back, and a closed channel is reported only if something was to be sent |
| `Matcher.Matcher.OpenTick` | crates/solver/src/matcher/matcher.rs:106-134 | the clock never steps back, and events are applied in order before overdue notes are woken |
| `Matcher.Matcher.Tick` | crates/solver/src/matcher/matcher.rs:97-151 | the boundary invariant survives a tick; the engine runs on the woken book; there is a batch if and only if something could be executed, in particular whenever two matchable orders cross, it holds exactly what was filled, and the deficit check accepts it whenever no executed cycle falls short and offers fit; what remains is routed to crossing quotes within supply, tightest first and with nothing left out; notes past their time are woken; the snapshot is that of the resulting book |
| `Matcher.Matcher.Run` | crates/solver/src/matcher/matcher.rs:97-151 | the tick loop is a run in which every tick continues from the last on an engine run over its book, a closed router is never used again, every batch is what its tick filled and is accepted whenever no cycle of that tick falls short and offers fit, no DEX is asked for more than its supply, and parked notes are woken on time |
| `SwapEta.MedianIsMiddle` | crates/solver/src/swap_eta.rs:76-88 | the result is the floored mean of the two middle ranks, so it depends on the values only, not on their order; there is none exactly if there are no values |
| `SwapEta.SettlementStats.Record` | crates/solver/src/swap_eta.rs:50-61 | whatever was dropped from the queue is older than a day or has 1000 later samples, for any sequence of record times, and a queue below the cap starts within the day |
| `SwapEta.SettlementStats.MedianSecs` | crates/solver/src/swap_eta.rs:65-71 | for a query no earlier than any record, the answer is the median of the durations recorded within the last day among the last 1000 samples of the whole history |
| `SwapEta.WindowExact` | crates/solver/src/swap_eta.rs:20-26 | filtering the last 1000 samples gives the last 1000 of the window if and only if no fresh sample lies further back or none of the last 1000 is stale |
| `SwapEta.OrderedWindowExact` | crates/solver/src/swap_eta.rs:20-26 | with non-decreasing record times the two always agree |
| `SwapEta.SnapshotAgrees` | crates/solver/src/swap_eta.rs:96-104 | the prediction from the published level is true if and only if the order crosses some opposing order and the best rate holds enough; at a tick boundary such an order trades |
| `Database.CastRoundTrip` | crates/solver/src/db/db.rs:219-224 | amounts survive the signed column unchanged, even above the signed range |
| `Database.InsertOrdersSpec` | crates/solver/src/db/db.rs:105-112 | known rows stay as they are and of several new rows with one id the first wins |
| `Database.Database.InsertNotesBatch` | crates/solver/src/db/db.rs:92-118 | the reported set is exactly the ids that had no order row before |
| `Database.Database.MarkOrdersOnchainNullified` | crates/solver/src/db/db.rs:169-184 | only active and settling rows among the listed ones become terminal |
| `Database.Database.ResetAllSettlingToActive` | crates/solver/src/db/db.rs:191-196 | exactly the settling rows become active |
| `Database.Database.LoadActiveOrdersWithNotes` | crates/solver/src/db/db.rs:202-227 | returns each active row that has a note row exactly once, with its amounts cast back |
| `Ingest.RowRoundTrip` | crates/solver/src/ingest/ingest.rs:180-196 | each column of a stored order holds its note's own token or amount, and loading the row gives the forwarded order back |
| `Ingest.FirstSeenIds` | crates/solver/src/ingest/ingest.rs:223-234 | an id is forwarded if and only if the sync names it and it had no row |
| `Ingest.ForwardedOnce` | crates/solver/src/ingest/ingest.rs:208-234 | no id is forwarded twice by one sync if and only if the sync lists no new id twice |
| `Ingest.ListedTwiceForwardedTwice` | crates/solver/src/ingest/ingest.rs:208-234 | a sync that lists a new note twice forwards it twice |
| `Ingest.IngestOnce` | crates/solver/src/ingest/ingest.rs:114-246 | consumed notes are nullified first, all swap notes are stored, and only first-seen ones are sent, each with both rows already durable; a closed channel loses messages but no rows |
| `Settlement.ClassifyInputNotes` | crates/solver/src/executor/executor.rs:285-310 | the batch is split exactly by what the chain reports, and the unconsumed notes are rebuilt whole and in order |
| `Execution.ExecuteBatch` | crates/solver/src/executor/executor.rs:537-652 | any batch that is not accepted writes nothing; otherwise every row of the batch ends with the status its outcome calls for, no other row changes, and exactly the notes that are active again are fed back; and this is, from every state, what the executor's own steps in the interleaved system do |
| `Execution.ExecutionRecovers` | crates/solver/src/db/db.rs:186-227 | a crash right after the executor has treated a batch finds exactly the rows it left active or settling |
| `Execution.BroughtBack` | crates/solver/src/executor/executor.rs:537-652 | such a crash brings back no order of a settled batch, every order of one given back or left hanging, and of a classified one exactly those the chain did not report as consumed |
| `Refinement.IngestRefines` | crates/solver/src/ingest/ingest.rs:114-246 | what `IngestOnce` promises is what its steps in the interleaved system do: the same tables, every consumed id passed on, the same orders forwarded |
| `Refinement.TickRefines` | crates/solver/src/matcher/matcher.rs:97-151 | a tick is a path of drains and at most one emission in the interleaved system: it takes exactly its events, emits exactly its batch, and leaves exactly the orders of its book |
| `Lifecycle.RebootExact` | crates/solver/src/pipeline.rs:258-276 | after a reboot the book holds exactly the ids whose row was active or settling, each with its note's own amounts |
| `Lifecycle.StepKeeps` | crates/solver/src/ingest/ingest.rs:114-246 | every step of ingest, matcher and executor keeps it true that whatever is held, queued or was forwarded has order and note rows with its own terms |
| `Lifecycle.RunKeeps` | crates/solver/src/executor/executor.rs:537-652 | the same in every state of every interleaved run with any number of crashes |
| `Lifecycle.CrashAnywhere` | crates/solver/src/db/db.rs:186-227 | cutting any run at any point, recovery finds exactly the unsettled orders, and everything ever forwarded is durable |
| `Lifecycle.ClosedForever` | crates/solver/src/db/db.rs:163-184 | once a row is executed or nullified and no stage holds the order, it stays so through every later step and crash |
| `Lifecycle.NullifiedLostIff` | crates/solver/src/db/db.rs:152-161 | a nullified row loses its status in a step if and only if the executor is writing a batch that contains it |
| `Stranding.NullifiedIsLost` | crates/solver/src/db/db.rs:152-184 | for every batch the executor accepts and each of its notes, a run from the empty system leads to a nullified row of that note which the executor's success overwrites |
| `Stranding.TwoNotesLost` | crates/solver/src/db/db.rs:152-184 | two notes that fill each other are such a batch |
| `Lifecycle.StrandedUntilCrash` | crates/solver/src/executor/executor.rs:477-499 | from any state, an order no stage holds stays unheld through every step until the next crash: neither ingest nor the executor brings it back |
| `Lifecycle.OnlyGivingUpStrands` | crates/solver/src/executor/executor.rs:537-652 | the last hold on an order with an unsettled row is lost only where an iteration, a batch, a re-feed or a drained note is given up; every other step keeps hold or settles the row, and a reboot picks it up |
| `Stranding.ReachClaimed` | crates/solver/src/ingest/ingest.rs:114-246 | every batch of genuine notes can be brought before the executor by a run of sync, storing, forwarding, draining and matching, with no other stage holding its orders |
| `Stranding.RefusedStrands` | crates/solver/src/executor/executor.rs:546 | for every batch of genuine notes that the deficit check does not accept there is a run from the empty system to it; the executor can only refuse it; its rows then stay unsettled, and however the system goes on no stage holds its orders until the next crash |
| `Stranding.ShortCycleStrands` | crates/solver/src/executor/executor.rs:546 | the batch the engine makes of the short cycle is one of these, and its three orders are stranded |
| `Lifecycle.ForwardedAtMostOnce` | crates/solver/src/ingest/ingest.rs:212-234 | across restarts ingest forwards no id twice, as long as no sync lists a new id twice |
| `Recovery.Boot` | crates/solver/src/matcher/matcher.rs:71-93 | recovery and hydration leave every unsettled order in the book, whole, matchable and with its original terms, and the boundary invariant holds |

## Left out

- Lifecycle.StepKeeps: the matcher is reduced to the orders in its book; what it does with them is in `Matcher`, and `Refinement.TickRefines` connects the two.
- SwapEta.MedianIsMiddle: the sort in place is a function on sequences, so the caller's slice being reordered is not modelled.
- Credited balances are unbounded; that they fit 64 bits follows from `Ledger.ReleasedWithinOffered` and the run's ledger.
- What `PswapNote::execute` does is not part of the repository; it is taken to fail on a fill beyond the request and on zero
  amounts, and otherwise to follow the formula the order arithmetic states. Limits the asset library itself puts on amounts are not modelled.
- Recording settlement times from a settled batch: the batch carries the arrival times, and `SwapEta` starts at the recorded sample.
- CycleBatch.CycleAccepted: stated for three different tokens, as every order trades two different ones.
- A note id commits to one note, so notes with one id are assumed to have one content.
- Prices are a fixed partial map during one engine run; price fetching, floating point and the off-market test are not modelled.
- Counting of remaining orders (`active_order_count`), `deduct_protocol_balance` and `execute_trade_atomic`, which the core does not use.
- Failures to acquire a database connection appear only as steps in `Lifecycle`, and a failed hydration query is not modelled.
- Router steps are atomic: the snapshot is published in the step that changes the quotes. Connections, outboxes, authentication and the wire format are not modelled.
- Account ids, timestamps and token registration in the database; they do not affect orders.
- The retry loop around the submit, which only decides which outcome `Execution.ExecuteBatch` is given.
- Which of several equally good triangles runs first, which the code leaves open.
- HTTP, websocket and chain clients, configuration, tracing, thread startup, the LP library, the mocks and the end-to-end test crate.
