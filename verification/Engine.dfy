/** One engine run: the direct phase, then the triangular phase on what is left. */
module Engine {
  import opened Types
  import opened RateIndex
  import opened Sums
  import opened B = Book
  import opened OrderBook
  import opened Direct
  import opened Ledger
  import opened Cycles
  import opened CycleRuns
  import opened DirectMatching
  import opened TriangularMatching

  datatype SettlementBatch = SettlementBatch(filledOrders: set<OrderId>, protocolBalances: map<TokenId, nat>, cyclesExecuted: nat)

  /** Token `t` after a run: credits exceed the net flow by at most `debt`, and never exceed the total offer. */
  ghost predicate Accounted(b: Book, debt: nat, t: TokenId)
  {
    && BalanceAt(b.balances, t) <= SumOver(b.orders, NetOf(t)) + debt
    && BalanceAt(b.balances, t) <= SumOver(b.orders, OfferedOf(t))
  }

  /** The book the triangular phase starts on. */
  ghost function AfterDirect(b: Book, feed: Feed): Book
  {
    if WellFormed(b) then DirectPhase(b, feed).book else b
  }

  /**
   * `r` is a run of the engine on `b0`: the direct phase, and, with triangles enabled, the cycles of `trace` on what it
   * left, until no listed triangle is executable.
   */
  ghost predicate EngineRun(b0: Book, feed: Feed, triangular: bool, r: Run, trace: Trace)
  {
    && WellFormed(b0) && WellFormed(r.book) && (triangular || trace == [])
    && var d := DirectPhase(b0, feed);
    && CycleRun(d.book, feed, trace, r.book, d.filled, r.filled) && r.cycles == d.cycles + |trace|
    && (triangular ==> Exhausted(d.book, r.book, feed))
  }

  lemma DirectReports(b: Book, feed: Feed)
    requires WellFormed(b)
    ensures Reports(b, {}, DirectPhase(b, feed))
  {
    hide WellFormed;
    hide Reports;
    StartReports(b);
    AllReports(b, {}, Run(b, {}, 0), feed, MatchablePairs(b));
  }

  lemma StartReports(b: Book)
    ensures Reports(b, {}, Run(b, {}, 0))
  {}

  /** A run reports exactly the orders it changed, and counts a cycle if and only if it changed one. */
  lemma EngineReports(b0: Book, feed: Feed, triangular: bool, r: Run, trace: Trace)
    requires EngineRun(b0, feed, triangular, r, trace)
    ensures Reports(b0, {}, r)
  {
    hide WellFormed;
    hide DirectPhase;
    hide Executes;
    hide Exhausted;
    hide Follows;
    hide Touched;
    var d := DirectPhase(b0, feed);
    DirectReports(b0, feed);
    TraceReports(d.book, feed, trace, d.filled);
    assert trace != [] ==> trace[|trace| - 1].entry.orderAB in OrdersOf(trace);
    assert trace == [] ==> r.filled == d.filled;
    FollowsTransitive(b0, d.book, r.book);
    TouchedTogether(b0, d.book, r.book, d.filled, r.filled);
  }

  lemma TouchedTogether(b0: Book, b: Book, b': Book, filled0: set<OrderId>, filled: set<OrderId>)
    requires Follows(b0, b) && Follows(b, b') && Touched(b0, b, {}, filled0) && Touched(b, b', filled0, filled)
    ensures Touched(b0, b', {}, filled)
  {}

  /** Started on whole orders, a run credits no more than comes in plus the shortfalls of its cycles. */
  lemma EngineAccounted(b0: Book, feed: Feed, triangular: bool, r: Run, trace: Trace, t: TokenId)
    requires EngineRun(b0, feed, triangular, r, trace) && AllWhole(b0.orders) && b0.balances == map[]
    ensures Accounted(r.book, DebtOf(AfterDirect(b0, feed), trace, t), t)
  {
    hide NetOf;
    hide ReleasedOf;
    hide OfferedOf;
    hide Executes;
    hide Exhausted;
    hide DirectPhase;
    hide DebtOf;
    var b := AfterDirect(b0, feed);
    ReleasedWithinOffered(b, t);
    ReleasedWithinOffered(r.book, t);
    hide WellFormed;
    DirectPhaseSolvent(b0, feed, t);
    TraceLedger(b, feed, trace, t);
  }

  /** On a book without orders a run does nothing. */
  lemma EmptyEngineRun(b: Book, feed: Feed, triangular: bool)
    requires WellFormed(b) && b.orders == map[]
    ensures EngineRun(b, feed, triangular, Run(b, {}, 0), [])
  {
    assert forall p: Pair :: Best(b, p).None?;
    assert MatchablePairs(b) == {};
    NoCycles(b, feed, {});
  }

  /** Nothing can be executed in `b`: no pair has a match and, with triangles enabled, no triangle is listed. */
  ghost predicate Idle(b: Book, feed: Feed, triangular: bool)
    requires WellFormed(b)
  {
    && (forall p: Pair :: p.0 < p.1 ==> NextMatch(b, feed, p).None?)
    && (triangular ==> NoTriangle(b, feed))
  }

  ghost predicate NoTriangle(b: Book, feed: Feed)
    requires WellFormed(b)
  {
    forall x, y, z :: z != x && z != y ==> TryBuild(b, feed, Canonical(x, y, z)).None?
  }

  lemma NoneListed(b: Book, feed: Feed)
    requires WellFormed(b)
    ensures NoTriangle(b, feed) <==> Exhausted(b, b, feed)
    ensures NoTriangle(b, feed) ==> forall t :: !Listed(b, feed, t)
  {
    hide TryBuild;
    hide WellFormed;
    hide Canonical;
  }

  lemma DirectIdleIff(b: Book, feed: Feed)
    requires WellFormed(b)
    ensures DirectPhase(b, feed).cycles == 0 <==> forall p: Pair :: p.0 < p.1 ==> NextMatch(b, feed, p).None?
    ensures DirectPhase(b, feed).cycles == 0 ==> DirectPhase(b, feed) == Run(b, {}, 0)
  {
    hide WellFormed;
    hide NextMatch;
    hide MatchAll;
    hide MatchablePairs;
    DirectReports(b, feed);
    if DirectPhase(b, feed).cycles == 0 {
      forall p: Pair | p.0 < p.1
        ensures NextMatch(b, feed, p).None?
      {
        DirectEndsStuck(b, feed, p);
      }
    }
    if forall p: Pair :: p.0 < p.1 ==> NextMatch(b, feed, p).None? {
      StuckPairsIdle(Run(b, {}, 0), feed, MatchablePairs(b));
    }
  }

  // ---------------------------------------------------------------------------
  // Whole orders
  // ---------------------------------------------------------------------------

  /** Two matchable orders that want each other's token, both priced, and cross. */
  ghost predicate CanTrade(b: Book, feed: Feed, x: OrderId, y: OrderId)
  {
    && x in b.fifo && y in b.fifo && x in b.orders && y in b.orders
    && var (o, u) := (b.orders[x], b.orders[y]);
    && o.offeredToken == u.requestedToken && o.requestedToken == u.offeredToken && o.offeredToken != o.requestedToken
    && o.offeredToken in feed && o.requestedToken in feed
    && o.offered * u.offered > o.requested * u.requested
  }

  /** The best orders of a pair cross whenever any two of its orders do. */
  lemma BestCross(b: Book, feed: Feed, x: OrderId, y: OrderId)
    requires WellFormed(b) && CanTrade(b, feed, x, y)
    ensures var p := b.orders[x].Pair();
      && Best(b, p).Some? && Best(b, Swap(p)).Some?
      && b.orders[Best(b, p).value].IsProfitableWith(b.orders[Best(b, Swap(p)).value])
  {
    var (o, u, p) := (b.orders[x], b.orders[y], b.orders[x].Pair());
    var i := BestInWins(b.orders, b.fifo, p);
    var j := BestInWins(b.orders, b.fifo, Swap(p));
    hide BestIn;
    var (o', u') := (b.orders[Best(b, p).value], b.orders[Best(b, Swap(p)).value]);
    assert o'.Rate().AtMost(o.Rate()) && u'.Rate().AtMost(u.Rate());
    hide WellFormed;
    CrossAtLowerRate(u.offered, u.requested, o'.Rate(), o.Rate());
    CrossAtLowerRate(o'.offered, o'.requested, u'.Rate(), u.Rate());
  }

  /** On whole orders the direct phase fills something if and only if two matchable orders cross. */
  lemma DirectTradesIff(b: Book, feed: Feed)
    requires WellFormed(b) && AllWhole(b.orders)
    ensures DirectPhase(b, feed).cycles != 0 <==> exists x, y :: CanTrade(b, feed, x, y)
  {
    hide WellFormed;
    hide DirectPhase;
    hide NextMatch;
    hide CanTrade;
    hide AllWhole;
    DirectIdleIff(b, feed);
    if p: Pair :| p.0 < p.1 && NextMatch(b, feed, p).Some? {
      NextTrades(b, feed, p);
    }
    if x, y :| CanTrade(b, feed, x, y) {
      TradeNext(b, feed, x, y);
    }
  }

  /** Whichever of the two tokens is the lower one. */
  lemma TradeNext(b: Book, feed: Feed, x: OrderId, y: OrderId)
    requires WellFormed(b) && AllWhole(b.orders) && CanTrade(b, feed, x, y)
    ensures exists p: Pair :: p.0 < p.1 && NextMatch(b, feed, p).Some?
  {
    hide NextMatch;
    hide WellFormed;
    CrossSwaps(b, feed, x, y);
    WholeNext(b, feed, x, y);
    WholeNext(b, feed, y, x);
    var p := b.orders[x].Pair();
    assert (p.0 < p.1 && NextMatch(b, feed, p).Some?) || (p.1 < p.0 && NextMatch(b, feed, b.orders[y].Pair()).Some?);
  }

  lemma CrossSwaps(b: Book, feed: Feed, x: OrderId, y: OrderId)
    requires CanTrade(b, feed, x, y)
    ensures CanTrade(b, feed, y, x)
  {}

  lemma NextTrades(b: Book, feed: Feed, p: Pair)
    requires WellFormed(b) && AllWhole(b.orders) && p.0 < p.1 && NextMatch(b, feed, p).Some?
    ensures var m := NextMatch(b, feed, p).value; CanTrade(b, feed, m.left.id, m.right.id)
  {
    var m := NextMatch(b, feed, p).value;
    NextMatchIs(b, feed, p);
    var (o, u) := (b.orders[m.left.id], b.orders[m.right.id]);
    hide MatchWith;
    hide Best;
    WholeOrdersTrade(o, u);
  }

  lemma WholeNext(b: Book, feed: Feed, x: OrderId, y: OrderId)
    requires WellFormed(b) && AllWhole(b.orders) && CanTrade(b, feed, x, y)
    ensures NextMatch(b, feed, b.orders[x].Pair()).Some?
  {
    var p := b.orders[x].Pair();
    BestCross(b, feed, x, y);
    NextMatchIs(b, feed, p);
    var (o, u) := (b.orders[Best(b, p).value], b.orders[Best(b, Swap(p)).value]);
    hide MatchWith;
    hide Best;
    WholeOrdersTrade(o, u);
  }

  /** The engine fills nothing if and only if nothing could be executed in its book. */
  lemma IdleIff(b0: Book, feed: Feed, triangular: bool, r: Run, trace: Trace)
    requires EngineRun(b0, feed, triangular, r, trace)
    ensures r.filled == {} <==> Idle(b0, feed, triangular)
  {
    hide WellFormed;
    hide DirectPhase;
    hide Follows;
    hide Touched;
    hide NextMatch;
    hide NoTriangle;
    hide Exhausted;
    DirectIdleIff(b0, feed);
    EngineReports(b0, feed, triangular, r, trace);
    NoneListed(b0, feed);
    hide Reports;
    if trace != [] {
      FirstListed(DirectPhase(b0, feed).book, feed, trace);
    }
  }

  lemma FirstListed(b: Book, feed: Feed, trace: Trace)
    requires Executes(b, feed, trace) && trace != []
    ensures Listed(b, feed, trace[0].entry.triangle)
  {
    assert StepOk(b, AfterCycles(b, trace[..0]), feed, trace[0]);
    hide Listed;
  }

  /** On whole orders, an idle book has no two matchable orders that cross. */
  lemma IdleNoTrade(b: Book, feed: Feed, triangular: bool)
    requires WellFormed(b) && AllWhole(b.orders) && Idle(b, feed, triangular)
    ensures forall x, y :: !CanTrade(b, feed, x, y)
  {
    hide WellFormed;
    hide DirectPhase;
    hide NextMatch;
    hide CanTrade;
    hide NoTriangle;
    DirectTradesIff(b, feed);
    DirectIdleIff(b, feed);
  }

  class MatchingEngine {
    const book: OrderBook
    var triangularEnabled: bool

    constructor (book: OrderBook, triangularEnabled: bool)
      ensures this.book == book && this.triangularEnabled == triangularEnabled
    {
      this.book := book;
      this.triangularEnabled := triangularEnabled;
    }

    /** Run both phases; `trace` lists the executed cycles. */
    method Run() returns (batch: SettlementBatch, ghost trace: Trace)
      requires book.Valid()
      modifies book
      ensures book.Valid() && book.feed == old(book.feed)
      ensures EngineRun(old(book.View()), book.feed, triangularEnabled,
                        Direct.Run(book.View(), batch.filledOrders, batch.cyclesExecuted), trace)
      ensures batch.protocolBalances == map t | t in book.protocolBalances && 0 < book.protocolBalances[t] :: book.protocolBalances[t]
    {
      hide WellFormed;
      hide IndexOk;
      hide MatchAll;
      hide CycleRun;
      hide Exhausted;
      var filled, cycles := RunDirectMatching(book, {});
      trace := [];
      NoCycles(book.View(), book.feed, filled);
      var more := 0;
      if triangularEnabled {
        filled, more, trace := RunThreeEdgeCycle(book, filled);
      }
      var balances := map t | t in book.protocolBalances && 0 < book.protocolBalances[t] :: book.protocolBalances[t];
      batch := SettlementBatch(filled, balances, cycles + more);
    }
  }
}
