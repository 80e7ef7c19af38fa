/** Sequences of executed cycles as values: the book they lead to, what they touch, and their ledger. */
module CycleRuns {
  import opened Types
  import opened RateIndex
  import opened Sums
  import opened B = Book
  import opened Direct
  import opened Ledger
  import opened Cycles

  /** The three directed pairs a -> b -> c -> a all have matchable orders. */
  ghost predicate Candidate(b: Book, x: TokenId, y: TokenId, z: TokenId)
    requires WellFormed(b)
  {
    && z != x && z != y
    && Best(b, (x, y)).Some? && Best(b, (y, z)).Some? && Best(b, (z, x)).Some?
  }

  /** The canonical form of some cycle of tokens that returns through a third one. */
  ghost predicate Formed(t: Triangle)
  {
    exists x, y, z :: z != x && z != y && t == Canonical(x, y, z)
  }

  /** A triangle the enumeration of `b` lists: its best orders make a profitable cycle. */
  ghost predicate Listed(b: Book, feed: Feed, t: Triangle)
    requires WellFormed(b)
  {
    Formed(t) && TryBuild(b, feed, t).Some?
  }

  lemma IsListed(b: Book, feed: Feed, x: TokenId, y: TokenId, z: TokenId)
    requires WellFormed(b) && z != x && z != y && TryBuild(b, feed, Canonical(x, y, z)).Some?
    ensures Listed(b, feed, Canonical(x, y, z))
  {}

  /** The hypothesis under which the heap loop executes an entry. */
  ghost predicate Executable(b: Book, feed: Feed, e: CycleEntry, sim: CycleSimulation)
  {
    WellFormed(b) && EntryOk(b, e) && Simulates(b, feed, e, sim)
  }

  /** What an executable entry is known to give, for use while the book is being updated. */
  lemma ExecutableFacts(b: Book, feed: Feed, e: CycleEntry, sim: CycleSimulation)
    requires Executable(b, feed, e, sim)
    ensures WellFormed(Execute(b, e, sim.fills))
    ensures e.orderAB in b.orders && e.orderBC in b.orders && e.orderCA in b.orders
    ensures e.orderAB in b.fifo && e.orderBC in b.fifo && e.orderCA in b.fifo
    ensures e.orderAB != e.orderBC && e.orderBC != e.orderCA && e.orderAB != e.orderCA
    ensures b.orders[e.orderAB].id == e.orderAB && b.orders[e.orderBC].id == e.orderBC && b.orders[e.orderCA].id == e.orderCA
  {
    hide SimulateFullCycle;
    hide Execute;
    ExecuteOk(b, feed, e, sim);
    ExecutionMatchesSimulation(b, feed, e, sim);
  }

  /** No triangle listed at the start is executable any more. */
  ghost predicate Exhausted(b0: Book, b: Book, feed: Feed)
    requires WellFormed(b0) && WellFormed(b)
  {
    forall x, y, z :: z != x && z != y && TryBuild(b0, feed, Canonical(x, y, z)).Some? ==>
      TryBuild(b, feed, Canonical(x, y, z)).None?
  }

  /** Among the triangles listed in `b0`, none that is executable in `b` is worth more than `surplus`. */
  ghost predicate NoneBetter(b0: Book, b: Book, feed: Feed, surplus: nat)
    requires WellFormed(b0) && WellFormed(b)
  {
    forall x, y, z :: z != x && z != y && TryBuild(b0, feed, Canonical(x, y, z)).Some? ==>
      var e := TryBuild(b, feed, Canonical(x, y, z));
      e.Some? ==> e.value.surplusUsd <= surplus
  }

  // ---------------------------------------------------------------------------
  // Traces
  // ---------------------------------------------------------------------------

  /** One executed entry, with the simulation it was executed on. */
  datatype CycleStep = CycleStep(entry: CycleEntry, sim: CycleSimulation)

  type Trace = seq<CycleStep>

  ghost function After(b: Book, step: CycleStep): Book
  {
    if WellFormed(b) && EntryOk(b, step.entry) then Execute(b, step.entry, step.sim.fills) else b
  }

  ghost function AfterCycles(b: Book, trace: Trace): Book
  {
    if trace == [] then b else After(AfterCycles(b, trace[..|trace| - 1]), trace[|trace| - 1])
  }

  /**
   * `step` is what the heap loop may execute in `b`: a listed triangle on the present best orders, filled as exact
   * arithmetic says, whose surplus is the simulated one, positive, and as high as that of any other listed triangle.
   */
  ghost predicate StepOk(b0: Book, b: Book, feed: Feed, step: CycleStep)
  {
    && WellFormed(b0) && Executable(b, feed, step.entry, step.sim)
    && IsSimulation(feed, b.orders[step.entry.orderAB], b.orders[step.entry.orderBC], b.orders[step.entry.orderCA], step.sim)
    && Listed(b0, feed, step.entry.triangle) && Current(b, step.entry)
    && 0 < step.sim.surplusUsd == step.entry.surplusUsd && NoneBetter(b0, b, feed, step.sim.surplusUsd)
  }

  lemma IsStep(b0: Book, b: Book, feed: Feed, e: CycleEntry, sim: CycleSimulation)
    requires WellFormed(b0) && Executable(b, feed, e, sim) && Listed(b0, feed, e.triangle) && Current(b, e)
    requires 0 < sim.surplusUsd == e.surplusUsd && NoneBetter(b0, b, feed, sim.surplusUsd)
    ensures StepOk(b0, b, feed, CycleStep(e, sim))
  {
    SimulationExact(feed, b.orders[e.orderAB], b.orders[e.orderBC], b.orders[e.orderCA], sim);
    hide SimulateFullCycle;
    hide IsSimulation;
    hide WellFormed;
    hide Listed;
    hide Current;
    hide NoneBetter;
  }

  /** Every step of the trace was possible when its turn came. */
  ghost predicate Executes(b: Book, feed: Feed, trace: Trace)
  {
    WellFormed(b) && forall k :: 0 <= k < |trace| ==> StepOk(b, AfterCycles(b, trace[..k]), feed, trace[k])
  }

  ghost function StepOrders(e: CycleEntry): set<OrderId> { {e.orderAB, e.orderCA, e.orderBC} }

  ghost function OrdersOf(trace: Trace): set<OrderId>
  {
    if trace == [] then {} else OrdersOf(trace[..|trace| - 1]) + StepOrders(trace[|trace| - 1].entry)
  }

  /** What executing `step` in `b` falls short by on `t`. */
  ghost function StepDebt(b: Book, step: CycleStep, t: TokenId): nat
  {
    if WellFormed(b) && EntryOk(b, step.entry) && t == ClosingToken(step.entry.triangle, step.sim.bottleneck)
    then ShortfallOf(b, step.entry, step.sim) else 0
  }

  /** The shortfalls of the executed cycles on their closing tokens, added up for `t`. */
  ghost function DebtOf(b: Book, trace: Trace, t: TokenId): nat
  {
    if trace == [] then 0
    else
      var init := trace[..|trace| - 1];
      DebtOf(b, init, t) + StepDebt(AfterCycles(b, init), trace[|trace| - 1], t)
  }

  /** The cycles of `trace` lead from `b0` to `b`, and from the filled set `filled0` to `filled`. */
  ghost predicate CycleRun(b0: Book, feed: Feed, trace: Trace, b: Book, filled0: set<OrderId>, filled: set<OrderId>)
  {
    Executes(b0, feed, trace) && b == AfterCycles(b0, trace) && filled == filled0 + OrdersOf(trace)
  }

  lemma NoCycles(b: Book, feed: Feed, filled: set<OrderId>)
    requires WellFormed(b)
    ensures CycleRun(b, feed, [], b, filled, filled)
  {
    assert filled + OrdersOf([]) == filled;
  }

  lemma OneMoreCycle(b0: Book, feed: Feed, trace: Trace, b: Book, filled0: set<OrderId>, filled: set<OrderId>,
      e: CycleEntry, sim: CycleSimulation)
    requires CycleRun(b0, feed, trace, b, filled0, filled) && StepOk(b0, b, feed, CycleStep(e, sim))
    ensures CycleRun(b0, feed, trace + [CycleStep(e, sim)], Execute(b, e, sim.fills), filled0, filled + StepOrders(e))
  {
    hide Execute;
    hide WellFormed;
    hide EntryOk;
    hide NoneBetter;
    hide Listed;
    hide Current;
    hide IsSimulation;
    hide Simulates;
    hide StepOrders;
    var trace' := trace + [CycleStep(e, sim)];
    assert trace'[..|trace|] == trace;
    forall k | 0 <= k < |trace'|
      ensures StepOk(b0, AfterCycles(b0, trace'[..k]), feed, trace'[k])
    {
      if k < |trace| {
        assert trace'[..k] == trace[..k] && trace'[k] == trace[k];
      }
    }
  }

  /** The last step of a trace, and the trace before it. */
  lemma LastCycle(b: Book, feed: Feed, trace: Trace)
    requires Executes(b, feed, trace) && trace != []
    ensures Executes(b, feed, trace[..|trace| - 1])
    ensures var n := |trace| - 1; Executable(AfterCycles(b, trace[..n]), feed, trace[n].entry, trace[n].sim)
  {
    hide Execute;
    hide WellFormed;
    hide EntryOk;
    hide NoneBetter;
    hide Listed;
    hide Current;
    hide IsSimulation;
    hide Simulates;
    var n := |trace| - 1;
    var init := trace[..n];
    forall k | 0 <= k < n
      ensures StepOk(b, AfterCycles(b, init[..k]), feed, init[k])
    {
      assert init[..k] == trace[..k] && init[k] == trace[k];
    }
  }

  // ---------------------------------------------------------------------------
  // What a trace does
  // ---------------------------------------------------------------------------

  ghost predicate TraceEffect(b0: Book, b: Book, filled0: set<OrderId>, filled: set<OrderId>)
  {
    WellFormed(b) && Follows(b0, b) && Touched(b0, b, filled0, filled)
  }

  lemma NoEffect(b: Book, filled: set<OrderId>)
    requires WellFormed(b)
    ensures TraceEffect(b, b, filled, filled)
  {
    hide WellFormed;
  }

  lemma EffectMore(b0: Book, b: Book, feed: Feed, step: CycleStep, filled0: set<OrderId>, filled: set<OrderId>)
    requires TraceEffect(b0, b, filled0, filled) && Executable(b, feed, step.entry, step.sim)
    ensures TraceEffect(b0, After(b, step), filled0, filled + StepOrders(step.entry))
  {
    hide Execute;
    hide WellFormed;
    hide Simulates;
    hide EntryOk;
    ExecuteOk(b, feed, step.entry, step.sim);
    ExecutableFacts(b, feed, step.entry, step.sim);
    hide Follows;
    hide Touched;
    FollowsTransitive(b0, b, After(b, step));
    TouchedMore(b0, b, After(b, step), filled0, filled, StepOrders(step.entry));
  }

  /** A trace keeps the book well-formed and changes exactly the orders of its entries. */
  lemma {:induction false} TraceReports(b: Book, feed: Feed, trace: Trace, filled0: set<OrderId>)
    requires Executes(b, feed, trace)
    ensures TraceEffect(b, AfterCycles(b, trace), filled0, filled0 + OrdersOf(trace))
  {
    hide TraceEffect;
    if trace == [] {
      assert filled0 + OrdersOf(trace) == filled0;
      NoEffect(b, filled0);
    } else {
      hide After;
      hide Executes;
      hide Executable;
      hide StepOrders;
      var n := |trace| - 1;
      LastCycle(b, feed, trace);
      TraceReports(b, feed, trace[..n], filled0);
      EffectMore(b, AfterCycles(b, trace[..n]), feed, trace[n], filled0, filled0 + OrdersOf(trace[..n]));
      assert filled0 + OrdersOf(trace) == (filled0 + OrdersOf(trace[..n])) + StepOrders(trace[n].entry);
    }
  }

  /** Credits on `t` never exceed releases, and exceed the net flow by at most the shortfalls on `t`. */
  ghost predicate Covered(b0: Book, b: Book, debt: nat, t: TokenId)
  {
    var credited := BalanceAt(b.balances, t) - BalanceAt(b0.balances, t);
    && credited <= SumOver(b.orders, ReleasedOf(t)) - SumOver(b0.orders, ReleasedOf(t))
    && credited <= SumOver(b.orders, NetOf(t)) - SumOver(b0.orders, NetOf(t)) + debt
  }

  lemma CoveredMore(b0: Book, b: Book, feed: Feed, debt: nat, step: CycleStep, t: TokenId)
    requires Covered(b0, b, debt, t) && Executable(b, feed, step.entry, step.sim)
    ensures Covered(b0, After(b, step), debt + StepDebt(b, step, t), t)
  {
    hide NetOf;
    hide ReleasedOf;
    hide Execute;
    hide WellFormed;
    hide EntryOk;
    hide Simulates;
    hide ShortfallOf;
    ExecuteLedger(b, feed, step.entry, step.sim, t);
  }

  /** Cycle by cycle, what is credited is covered but for the shortfalls of the executed cycles. */
  lemma {:induction false} TraceLedger(b: Book, feed: Feed, trace: Trace, t: TokenId)
    requires Executes(b, feed, trace)
    ensures Covered(b, AfterCycles(b, trace), DebtOf(b, trace, t), t)
  {
    if trace == [] {
      NothingCredited(b, t);
    } else {
      hide After;
      hide Executes;
      hide Executable;
      hide Covered;
      hide StepDebt;
      var n := |trace| - 1;
      LastCycle(b, feed, trace);
      TraceLedger(b, feed, trace[..n], t);
      CoveredMore(b, AfterCycles(b, trace[..n]), feed, DebtOf(b, trace[..n], t), trace[n], t);
    }
  }

  lemma NothingCredited(b: Book, t: TokenId)
    ensures Covered(b, b, 0, t)
  {}

  /** No executed cycle fell short on its closing token. */
  ghost predicate NoShortfall(b: Book, trace: Trace)
  {
    forall k, t :: 0 <= k < |trace| ==> StepDebt(AfterCycles(b, trace[..k]), trace[k], t) == 0
  }

  lemma {:induction false} NoShortfallNoDebt(b: Book, trace: Trace, t: TokenId)
    requires NoShortfall(b, trace)
    ensures DebtOf(b, trace, t) == 0
  {
    if trace != [] {
      hide StepDebt;
      hide AfterCycles;
      var n := |trace| - 1;
      assert StepDebt(AfterCycles(b, trace[..n]), trace[n], t) == 0;
      forall k, u | 0 <= k < n
        ensures StepDebt(AfterCycles(b, trace[..n][..k]), trace[..n][k], u) == 0
      {
        assert trace[..n][..k] == trace[..k];
      }
      NoShortfallNoDebt(b, trace[..n], t);
    }
  }
}
