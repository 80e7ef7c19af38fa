/** Settling one triangular cycle: exactly when the executor accepts its batch. */
module CycleBatch {
  import opened Types
  import opened RateIndex
  import opened Sums
  import opened B = Book
  import opened Direct
  import opened Ledger
  import opened Cycles
  import opened CycleRuns
  import opened Engine
  import opened Executor

  /** The first fill of an order nets exactly its release minus its fill. */
  lemma FirstFillNet(o: Order, o': Order, f: Amount, t: TokenId)
    requires o.Valid() && o.IsWhole() && FilledFrom(o, o') && f == FillBetween(o, o')
    ensures NetOf(t)(o) == 0
    ensures NetOf(t)(o') == (if o.offeredToken == t then o.OfferedFor(f) else 0) - (if o.requestedToken == t then f else 0)
  {
    OutputLossless(o.offered, o.requested, 0);
  }

  /** What a cycle credits on `t`, less what it falls short by there. */
  ghost function CycleNet(b: Book, e: CycleEntry, sim: CycleSimulation, t: TokenId): int
    requires WellFormed(b) && EntryOk(b, e)
  {
    var (tri, f) := (e.triangle, sim.fills);
    (if tri.a == t then f.surplusA else 0) + (if tri.b == t then f.surplusB else 0) + (if tri.c == t then f.surplusC else 0)
      - (if t == ClosingToken(tri, sim.bottleneck) then ShortfallOf(b, e, sim) else 0)
  }

  /** The net flow of a cycle on whole orders is what it credits, less the shortfall on its closing token. */
  lemma CycleFlow(b: Book, feed: Feed, e: CycleEntry, sim: CycleSimulation, t: TokenId)
    requires WellFormed(b) && AllWhole(b.orders) && EntryOk(b, e) && Simulates(b, feed, e, sim)
    ensures SumOver(Execute(b, e, sim.fills).orders, NetOf(t)) == CycleNet(b, e, sim, t)
  {
    hide SimulateFullCycle;
    hide SimulateCycle;
    hide CalculateOutput;
    hide Execute;
    var (x, y, z, f) := (b.orders[e.orderAB], b.orders[e.orderBC], b.orders[e.orderCA], sim.fills);
    var (ab, ca, bc) := Fills(b, e, f);
    ExecutionMatchesSimulation(b, feed, e, sim);
    ExecuteSum(b, feed, e, sim, NetOf(t));
    CycleLedger(x, y, z, sim.bottleneck);
    WholeNets(b, t);
    FirstFillNet(x, ab, f.fillB, t);
    FirstFillNet(y, bc, f.fillC, t);
    FirstFillNet(z, ca, f.fillA, t);
    hide NetOf;
    hide WellFormed;
  }

  lemma WholeNets(b: Book, t: TokenId)
    requires WellFormed(b) && AllWhole(b.orders)
    ensures SumOver(b.orders, NetOf(t)) == 0
  {
    forall id | id in b.orders
      ensures NetOf(t)(b.orders[id]) == 0
    {
      FirstFillNet(b.orders[id], b.orders[id], 0, t);
    }
    SumZero(b.orders, NetOf(t));
  }

  /** A batch that settles one cycle is accepted if and only if the cycle does not fall short on its closing token. */
  lemma CycleAccepted(b: Book, feed: Feed, e: CycleEntry, sim: CycleSimulation, notes: seq<FilledNote>)
    requires WellFormed(b) && AllWhole(b.orders) && EntryOk(b, e) && Simulates(b, feed, e, sim)
    requires var t := e.triangle; t.a != t.b && t.b != t.c && t.a != t.c
    requires BatchOf(notes, Execute(b, e, sim.fills).orders, {e.orderAB, e.orderBC, e.orderCA})
    ensures Accepted(notes) <==> ShortfallOf(b, e, sim) == 0
  {
    hide SimulateFullCycle;
    hide SimulateCycle;
    hide CalculateOutput;
    hide Execute;
    hide NetFlow;
    hide BatchOf;
    ExecutionMatchesSimulation(b, feed, e, sim);
    CycleLedger(b.orders[e.orderAB], b.orders[e.orderBC], b.orders[e.orderCA], sim.bottleneck);
    CycleBatchFlow(b, feed, e, sim, notes, ClosingToken(e.triangle, sim.bottleneck));
    forall t
      ensures NetFlow(notes, t) == CycleNet(b, e, sim, t)
    {
      CycleBatchFlow(b, feed, e, sim, notes, t);
    }
    hide WellFormed;
  }

  lemma CycleBatchFlow(b: Book, feed: Feed, e: CycleEntry, sim: CycleSimulation, notes: seq<FilledNote>, t: TokenId)
    requires WellFormed(b) && AllWhole(b.orders) && EntryOk(b, e) && Simulates(b, feed, e, sim)
    requires BatchOf(notes, Execute(b, e, sim.fills).orders, {e.orderAB, e.orderBC, e.orderCA})
    ensures Decoded(notes) && NetFlow(notes, t) == CycleNet(b, e, sim, t)
  {
    hide SimulateFullCycle;
    hide Execute;
    hide NetFlow;
    hide NetOf;
    hide BatchOf;
    hide CycleNet;
    ExecuteOk(b, feed, e, sim);
    CycleFlow(b, feed, e, sim, t);
    hide Simulates;
    BatchFlow(notes, b, Execute(b, e, sim.fills), {e.orderAB, e.orderBC, e.orderCA}, t);
  }

  // ---------------------------------------------------------------------------
  // A book on which the engine's own batch is refused
  // ---------------------------------------------------------------------------

  const AB: Order := Order(1, 0, 1, 100, 10, 10)
  const BC: Order := Order(2, 1, 2, 15, 15, 15)
  const CA: Order := Order(3, 2, 0, 5, 20, 20)
  const THREE: Orders := map[1 := AB, 2 := BC, 3 := CA]
  const SHORT_ENTRY: CycleEntry := CycleEntry(Triangle(0, 1, 2), 1, 2, 3, 80)
  const SHORT_SIM: CycleSimulation := CycleSimulation(LegAB, FillResult(20, 10, 5, 80, 0, 0), 80)

  /** Three whole orders that close a profitable cycle, all tokens at one price. */
  ghost predicate Short(b: Book, feed: Feed)
  {
    b == Book(THREE, [1, 2, 3], map[], [], map[], {0, 1, 2}) && feed == map[0 := 1, 1 := 1, 2 := 1]
  }

  lemma ShortBook(b: Book, feed: Feed)
    requires Short(b, feed)
    ensures WellFormed(b) && AllWhole(b.orders)
    ensures Best(b, (0, 1)) == Some(1) && Best(b, (1, 2)) == Some(2) && Best(b, (2, 0)) == Some(3)
    ensures forall p: Pair :: Best(b, p).Some? ==> p == (0, 1) || p == (1, 2) || p == (2, 0)
  {
    OnlyBest((0, 1), 0);
    OnlyBest((1, 2), 1);
    OnlyBest((2, 0), 2);
    hide BestIn;
  }

  /** With one order per pair, that order is the best. */
  lemma OnlyBest(p: Pair, k: nat)
    requires k < 3 && THREE[[1, 2, 3][k]].Pair() == p
    ensures Covers(THREE, [1, 2, 3]) && BestIn(THREE, [1, 2, 3], p) == Some([1, 2, 3][k])
  {
    var i := BestInWins(THREE, [1, 2, 3], p);
    hide BestIn;
    assert [1, 2, 3][k] in [1, 2, 3];
  }

  /** The enumeration finds the cycle, and simulates it to fall short by 5 on its closing token. */
  lemma ShortCycle(b: Book, feed: Feed)
    requires Short(b, feed)
    ensures WellFormed(b) && AllWhole(b.orders) && EntryOk(b, SHORT_ENTRY) && Simulates(b, feed, SHORT_ENTRY, SHORT_SIM)
    ensures TryBuild(b, feed, Triangle(0, 1, 2)) == Some(SHORT_ENTRY) && ShortfallOf(b, SHORT_ENTRY, SHORT_SIM) == 5
  {
    ShortBook(b, feed);
    ProfitableCycleCanBeShort(b.orders[1], b.orders[2], b.orders[3], feed);
    assert !Unprofitable(b.orders[1], b.orders[2], b.orders[3]);
    hide SimulateFullCycle;
    hide Shortfall;
    hide Best;
    hide WellFormed;
  }

  /** No other triangle is listed. */
  lemma ShortListed(b: Book, feed: Feed, t: Triangle)
    requires Short(b, feed)
    ensures WellFormed(b) && (Listed(b, feed, t) <==> t == Triangle(0, 1, 2))
  {
    ShortBook(b, feed);
    ShortCycle(b, feed);
    assert Canonical(0, 1, 2) == Triangle(0, 1, 2);
    if Listed(b, feed, t) {
      ShortTriangle(b, feed, t);
    }
    hide Best;
    hide TryBuild;
    hide WellFormed;
    hide Canonical;
  }

  lemma ShortTriangle(b: Book, feed: Feed, t: Triangle)
    requires Short(b, feed) && WellFormed(b) && Listed(b, feed, t)
    ensures t == Triangle(0, 1, 2)
  {
    ShortBook(b, feed);
    assert Best(b, t.AB()).Some? && Best(b, t.BC()).Some? && Best(b, t.CA()).Some?;
    hide Best;
    hide TryBuild;
    hide WellFormed;
  }

  lemma ShortDirect(b: Book, feed: Feed)
    requires Short(b, feed)
    ensures WellFormed(b) && DirectPhase(b, feed) == Run(b, {}, 0)
  {
    ShortBook(b, feed);
    hide Best;
    hide WellFormed;
    assert MatchablePairs(b) == {};
  }

  /** The only step the book allows. */
  lemma ShortFirst(b: Book, feed: Feed, step: CycleStep)
    requires Short(b, feed) && StepOk(b, b, feed, step)
    ensures step == CycleStep(SHORT_ENTRY, SHORT_SIM)
  {
    ShortListed(b, feed, step.entry.triangle);
    ShortCycle(b, feed);
    hide WellFormed;
    hide SimulateFullCycle;
    hide NoneBetter;
    hide Listed;
    hide Current;
    hide TryBuild;
  }

  /** What the step leaves: the third order is complete, and the first two keep their pairs. */
  lemma ShortAfter(b: Book, feed: Feed)
    requires Short(b, feed)
    ensures WellFormed(b) && EntryOk(b, SHORT_ENTRY)
    ensures var b' := Execute(b, SHORT_ENTRY, SHORT_SIM.fills);
      && WellFormed(b') && b'.orders.Keys == {1, 2, 3} && b'.orders[3] == CA.(requestedRemaining := 0)
      && b'.orders[1].Pair() == (0, 1) && b'.orders[2].Pair() == (1, 2)
  {
    hide Execute;
    hide WellFormed;
    hide Simulates;
    hide TryBuild;
    hide ShortfallOf;
    ShortCycle(b, feed);
    ExecuteOk(b, feed, SHORT_ENTRY, SHORT_SIM);
    ShortThird(b, feed);
  }

  lemma ShortThird(b: Book, feed: Feed)
    requires Short(b, feed)
    ensures WellFormed(b) && EntryOk(b, SHORT_ENTRY)
    ensures var orders := Execute(b, SHORT_ENTRY, SHORT_SIM.fills).orders; 3 in orders && orders[3] == CA.(requestedRemaining := 0)
  {
    ShortCycle(b, feed);
    ExecutionMatchesSimulation(b, feed, SHORT_ENTRY, SHORT_SIM);
    hide WellFormed;
    hide SimulateFullCycle;
    hide SimulateCycle;
    hide TryBuild;
    hide DropFilled;
    hide CalculateOutput;
    hide ShortfallOf;
  }

  /** So no further step is possible. */
  lemma ShortSecond(b: Book, feed: Feed, step: CycleStep)
    requires Short(b, feed)
    ensures EntryOk(b, SHORT_ENTRY) && WellFormed(b) && !StepOk(b, Execute(b, SHORT_ENTRY, SHORT_SIM.fills), feed, step)
  {
    ShortAfter(b, feed);
    ShortListed(b, feed, step.entry.triangle);
    hide Execute;
    hide WellFormed;
    hide NoneBetter;
    hide Listed;
    hide Current;
    hide TryBuild;
  }

  /** The steps of a trace at the books it passes through. */
  lemma StepAt(b: Book, feed: Feed, trace: Trace)
    requires Executes(b, feed, trace)
    ensures trace != [] ==> StepOk(b, b, feed, trace[0])
    ensures |trace| > 1 ==> StepOk(b, After(b, trace[0]), feed, trace[1])
  {
    hide StepOk;
    hide After;
    if trace != [] {
      assert trace[..0] == [];
      assert AfterCycles(b, trace[..0]) == b;
    }
    if |trace| > 1 {
      assert trace[..1][..0] == [] && trace[..1][0] == trace[0];
      assert AfterCycles(b, trace[..1]) == After(b, trace[0]);
    }
  }

  lemma ShortTrace(b: Book, feed: Feed, trace: Trace)
    requires Short(b, feed) && Executes(b, feed, trace) && trace != []
    ensures trace == [CycleStep(SHORT_ENTRY, SHORT_SIM)]
  {
    ShortCycle(b, feed);
    StepAt(b, feed, trace);
    ShortFirst(b, feed, trace[0]);
    if |trace| > 1 {
      ShortSecond(b, feed, trace[1]);
      hide StepOk;
      hide Execute;
      hide WellFormed;
    }
  }

  /** With triangles enabled, every run of the engine on this book executes exactly this cycle. */
  lemma ShortRun(b: Book, feed: Feed, r: Run, trace: Trace)
    requires Short(b, feed) && EngineRun(b, feed, true, r, trace)
    ensures trace == [CycleStep(SHORT_ENTRY, SHORT_SIM)] && EntryOk(b, SHORT_ENTRY)
    ensures r.book == Execute(b, SHORT_ENTRY, SHORT_SIM.fills) && r.filled == {1, 2, 3}
  {
    ShortDirect(b, feed);
    ShortListed(b, feed, Triangle(0, 1, 2));
    assert trace != [] by { ShortCycle(b, feed); }
    ShortCycle(b, feed);
    ShortTrace(b, feed, trace);
    hide DirectPhase;
    hide WellFormed;
    hide Execute;
    hide Executes;
    hide Exhausted;
    hide EntryOk;
    assert trace[..0] == [];
    assert AfterCycles(b, []) == b && OrdersOf([]) == {};
  }

  lemma ShortStep(b: Book, feed: Feed)
    requires Short(b, feed)
    ensures StepOk(b, b, feed, CycleStep(SHORT_ENTRY, SHORT_SIM))
  {
    ShortBook(b, feed);
    ShortCycle(b, feed);
    ShortListed(b, feed, Triangle(0, 1, 2));
    assert Current(b, SHORT_ENTRY);
    hide WellFormed;
    hide Listed;
    hide TryBuild;
    hide Best;
    hide Simulates;
    hide StepOk;
    hide Current;
    forall x, y, z | z != x && z != y && TryBuild(b, feed, Canonical(x, y, z)).Some?
      ensures Canonical(x, y, z) == Triangle(0, 1, 2)
    {
      IsListed(b, feed, x, y, z);
      ShortListed(b, feed, Canonical(x, y, z));
    }
    IsStep(b, b, feed, SHORT_ENTRY, SHORT_SIM);
  }

  lemma ShortExhausted(b: Book, feed: Feed)
    requires Short(b, feed)
    ensures WellFormed(b) && EntryOk(b, SHORT_ENTRY)
    ensures var b' := Execute(b, SHORT_ENTRY, SHORT_SIM.fills); WellFormed(b') && Exhausted(b, b', feed)
  {
    ShortAfter(b, feed);
    hide Execute;
    hide BuildFrom;
    hide Listed;
    var b' := Execute(b, SHORT_ENTRY, SHORT_SIM.fills);
    assert Best(b', (2, 0)).None?;
    hide Best;
    hide WellFormed;
    forall x, y, z | z != x && z != y && TryBuild(b, feed, Canonical(x, y, z)).Some?
      ensures TryBuild(b', feed, Canonical(x, y, z)).None?
    {
      IsListed(b, feed, x, y, z);
      ShortListed(b, feed, Canonical(x, y, z));
    }
  }

  /** A run of one cycle, when the direct phase does nothing and nothing is executable afterwards. */
  lemma OneCycleRun(b: Book, feed: Feed, step: CycleStep, b': Book)
    requires WellFormed(b) && WellFormed(b') && DirectPhase(b, feed) == Run(b, {}, 0) && StepOk(b, b, feed, step)
    requires b' == Execute(b, step.entry, step.sim.fills) && Exhausted(b, b', feed)
    ensures EngineRun(b, feed, true, Run(b', StepOrders(step.entry), 1), [step])
  {
    hide DirectPhase;
    hide CycleRun;
    hide WellFormed;
    hide Execute;
    hide Exhausted;
    hide StepOk;
    NoCycles(b, feed, {});
    OneMoreCycle(b, feed, [], b, {}, {}, step.entry, step.sim);
    assert [] + [step] == [step] && {} + StepOrders(step.entry) == StepOrders(step.entry);
  }

  /** And there is such a run. */
  lemma ShortRuns(b: Book, feed: Feed)
    requires Short(b, feed)
    ensures WellFormed(b) && EntryOk(b, SHORT_ENTRY)
    ensures EngineRun(b, feed, true, Run(Execute(b, SHORT_ENTRY, SHORT_SIM.fills), {1, 2, 3}, 1), [CycleStep(SHORT_ENTRY, SHORT_SIM)])
  {
    hide Short;
    hide DirectPhase;
    hide EngineRun;
    hide WellFormed;
    hide Execute;
    hide Exhausted;
    hide StepOk;
    hide EntryOk;
    ShortDirect(b, feed);
    ShortStep(b, feed);
    ShortExhausted(b, feed);
    OneCycleRun(b, feed, CycleStep(SHORT_ENTRY, SHORT_SIM), Execute(b, SHORT_ENTRY, SHORT_SIM.fills));
    assert StepOrders(SHORT_ENTRY) == {1, 2, 3};
  }

  /** The engine's own batch on this book is refused, although every order was whole and the cycle profitable. */
  lemma ShortRefused(b: Book, feed: Feed, r: Run, trace: Trace, notes: seq<FilledNote>)
    requires Short(b, feed) && EngineRun(b, feed, true, r, trace) && BatchOf(notes, r.book.orders, r.filled)
    ensures !Accepted(notes) && |trace| == 1 && 0 < trace[0].sim.surplusUsd
  {
    ShortRun(b, feed, r, trace);
    ShortCycle(b, feed);
    hide SimulateFullCycle;
    hide Execute;
    hide BatchOf;
    hide Accepted;
    hide TryBuild;
    hide WellFormed;
    CycleAccepted(b, feed, SHORT_ENTRY, SHORT_SIM, notes);
  }
}
