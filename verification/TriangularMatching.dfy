/** Triangular matching on the live book: enumeration, the heap loop and execution. */
module TriangularMatching {
  import opened Types
  import opened RateIndex
  import opened Sums
  import opened B = Book
  import opened OrderBook
  import opened Direct
  import opened Ledger
  import opened Cycles
  import opened CycleHeap
  import opened CycleRuns

  // ---------------------------------------------------------------------------
  // Building entries
  // ---------------------------------------------------------------------------

  /** Build the entry of a triangle from the current best orders. */
  method TryBuildEntry(book: OrderBook, t: Triangle) returns (r: Option<CycleEntry>)
    requires book.Valid()
    modifies book
    ensures book.Valid() && book.View() == old(book.View()) && book.feed == old(book.feed)
    ensures r == TryBuild(book.View(), book.feed, t)
  {
    hide WellFormed;
    hide IndexOk;
    hide SimulateFullCycle;
    hide BestIn;
    BuildFacts(book.View(), t);
    var bestAB := book.BestOrder(t.a, t.b);
    if bestAB.None? { return None; }
    var bestBC := book.BestOrder(t.b, t.c);
    if bestBC.None? { return None; }
    var bestCA := book.BestOrder(t.c, t.a);
    if bestCA.None? { return None; }
    var ab, bc, ca := bestAB.value, bestBC.value, bestCA.value;
    if Unprofitable(ab, bc, ca) { return None; }
    var simulation := SimulateFullCycle(book.feed, ab, bc, ca);
    if simulation.None? || simulation.value.surplusUsd == 0 { return None; }
    return Some(CycleEntry(t, ab.id, bc.id, ca.id, simulation.value.surplusUsd));
  }

  /** Best orders are valid and carry their own ids. */
  lemma BuildFacts(b: Book, t: Triangle)
    ensures WellFormed(b) ==> forall p | p in t.Pairs() && Best(b, p).Some? ::
      b.orders[Best(b, p).value].Valid() && b.orders[Best(b, p).value].id == Best(b, p).value
  {}

  type TrianglesByPair = map<Pair, seq<Triangle>>

  function TrianglesAt(index: TrianglesByPair, p: Pair): seq<Triangle> { if p in index then index[p] else [] }

  /** The reverse index lists each built triangle under its three pairs, and nothing else. */
  ghost predicate ReverseIndexOk(index: TrianglesByPair, built: set<Triangle>)
  {
    forall p: Pair, t :: t in TrianglesAt(index, p) <==> t in built && p in t.Pairs()
  }

  function AddUnder(index: TrianglesByPair, p: Pair, t: Triangle): TrianglesByPair
  {
    index[p := TrianglesAt(index, p) + [t]]
  }

  lemma AddToReverseIndex(index: TrianglesByPair, built: set<Triangle>, t: Triangle)
    requires ReverseIndexOk(index, built)
    ensures ReverseIndexOk(AddUnder(AddUnder(AddUnder(index, t.AB(), t), t.BC(), t), t.CA(), t), built + {t})
  {
    forall p: Pair, u
      ensures u in TrianglesAt(AddUnder(AddUnder(AddUnder(index, t.AB(), t), t.BC(), t), t.CA(), t), p)
        <==> u in built + {t} && p in u.Pairs()
    {
      assert u in TrianglesAt(index, p) <==> u in built && p in u.Pairs();
    }
  }

  ghost predicate DistinctTriangles(entries: Heap)
  {
    forall i, j :: 0 <= i < j < |entries| ==> entries[i].triangle != entries[j].triangle
  }

  /** What enumeration has established about the triangles it has seen. */
  ghost predicate Enumerated(b: Book, feed: Feed, seen: set<Triangle>, built: set<Triangle>, entries: Heap)
    requires WellFormed(b)
  {
    && built <= seen && DistinctTriangles(entries)
    && (forall t :: t in seen ==> Formed(t))
    && (forall t :: t in built ==> TryBuild(b, feed, t).Some?)
    && (forall t :: t in seen && TryBuild(b, feed, t).Some? ==> t in built && InHeap(entries, TryBuild(b, feed, t).value))
    && (forall i :: 0 <= i < |entries| ==> entries[i].triangle in built && TryBuild(b, feed, entries[i].triangle) == Some(entries[i]))
  }

  lemma SeenSkipped(b: Book, feed: Feed, seen: set<Triangle>, built: set<Triangle>, entries: Heap, t: Triangle)
    requires WellFormed(b) && Enumerated(b, feed, seen, built, entries) && Formed(t) && TryBuild(b, feed, t).None?
    ensures Enumerated(b, feed, seen + {t}, built, entries)
  {
    hide TryBuild;
    hide WellFormed;
  }

  lemma SeenBuilt(b: Book, feed: Feed, seen: set<Triangle>, built: set<Triangle>, entries: Heap, e: CycleEntry)
    requires WellFormed(b) && Enumerated(b, feed, seen, built, entries) && Formed(e.triangle) && e.triangle !in seen
    requires TryBuild(b, feed, e.triangle) == Some(e)
    ensures Enumerated(b, feed, seen + {e.triangle}, built + {e.triangle}, entries + [e])
  {
    hide TryBuild;
    hide WellFormed;
    var entries' := entries + [e];
    forall t | t in seen + {e.triangle} && TryBuild(b, feed, t).Some?
      ensures t in built + {e.triangle} && InHeap(entries', TryBuild(b, feed, t).value)
    {
      if t in seen {
        var i :| 0 <= i < |entries| && entries[i] == TryBuild(b, feed, t).value;
        assert entries'[i] == entries[i];
      } else {
        assert entries'[|entries|] == e;
      }
    }
  }

  /** An enumeration that saw every candidate is a correct initial heap. */
  lemma EnumeratedHeapOk(b: Book, feed: Feed, seen: set<Triangle>, built: set<Triangle>, entries: Heap)
    requires WellFormed(b) && Enumerated(b, feed, seen, built, entries)
    ensures HeapOk(b, feed, entries, built, {}) && DistinctTriangles(entries)
  {
    hide TryBuild;
    hide WellFormed;
    hide EntryOk;
    hide Current;
    forall i | 0 <= i < |entries|
      ensures EntryOk(b, entries[i]) && Current(b, entries[i]) && 0 < entries[i].surplusUsd
    {
      TryBuildOk(b, feed, entries[i].triangle);
    }
  }

  /** Look at one candidate triangle: build its entry unless it has been seen. */
  method Consider(book: OrderBook, t: Triangle, seen0: set<Triangle>, ghost built0: set<Triangle>, entries0: Heap,
      index0: TrianglesByPair)
    returns (seen: set<Triangle>, ghost built: set<Triangle>, entries: Heap, index: TrianglesByPair)
    requires book.Valid() && Formed(t)
    requires Enumerated(book.View(), book.feed, seen0, built0, entries0) && ReverseIndexOk(index0, built0)
    modifies book
    ensures book.Valid() && book.View() == old(book.View()) && book.feed == old(book.feed)
    ensures seen == seen0 + {t}
    ensures Enumerated(book.View(), book.feed, seen, built, entries) && ReverseIndexOk(index, built)
  {
    hide WellFormed;
    hide IndexOk;
    hide TryBuild;
    hide Enumerated;
    hide ReverseIndexOk;
    seen, built, entries, index := seen0 + {t}, built0, entries0, index0;
    if t in seen0 {
      assert seen == seen0;
      return;
    }
    var entry := TryBuildEntry(book, t);
    if entry.Some? {
      BuiltTriangle(book.View(), book.feed, t);
      SeenBuilt(book.View(), book.feed, seen0, built0, entries0, entry.value);
      AddToReverseIndex(index, built0, t);
      index := AddUnder(AddUnder(AddUnder(index, t.AB(), t), t.BC(), t), t.CA(), t);
      built := built + {t};
      entries := entries + [entry.value];
    } else {
      SeenSkipped(book.View(), book.feed, seen0, built0, entries0, t);
    }
  }

  lemma BuiltTriangle(b: Book, feed: Feed, t: Triangle)
    requires WellFormed(b) && TryBuild(b, feed, t).Some?
    ensures TryBuild(b, feed, t).value.triangle == t
  {
    hide WellFormed;
    hide SimulateFullCycle;
  }

  /** `NeighborsAt` lists the tokens joined to `x` by a pair with matchable orders. */
  lemma NeighborsAreOpen(book: OrderBook, x: TokenId, y: TokenId)
    requires book.Valid()
    ensures y in NeighborsAt(book.userAdjacency, x) <==> Best(book.View(), (x, y)).Some?
    ensures y in NeighborsAt(book.incomingAdjacency, x) <==> Best(book.View(), (y, x)).Some?
  {
    OpenPair(book, (x, y));
    OpenPair(book, (y, x));
  }

  lemma OpenPair(book: OrderBook, p: Pair)
    requires book.Valid()
    ensures p in book.pairIndex <==> Best(book.View(), p).Some?
    ensures p in book.pairIndex <==> p.1 in NeighborsAt(book.userAdjacency, p.0)
    ensures p in book.pairIndex <==> p.0 in NeighborsAt(book.incomingAdjacency, p.1)
  {
    TreePresent(book.orders, book.fifo, book.pairIndex, p);
    var i := BestInWins(book.orders, book.fifo, p);
  }

  /** The tokens of a pair with matchable orders are known to the book. */
  lemma OpenTokens(b: Book, p: Pair)
    requires WellFormed(b) && Best(b, p).Some?
    ensures p.0 in b.tokens && p.1 in b.tokens
  {}

  /** Consider every candidate triangle through `y` whose first token is `x`. */
  method EnumerateEdge(book: OrderBook, x: TokenId, y: TokenId, seen0: set<Triangle>, ghost built0: set<Triangle>,
      entries0: Heap, index0: TrianglesByPair)
    returns (seen: set<Triangle>, ghost built: set<Triangle>, entries: Heap, index: TrianglesByPair)
    requires book.Valid() && Best(book.View(), (x, y)).Some?
    requires Enumerated(book.View(), book.feed, seen0, built0, entries0) && ReverseIndexOk(index0, built0)
    modifies book
    ensures book.Valid() && book.View() == old(book.View()) && book.feed == old(book.feed)
    ensures seen0 <= seen && forall z :: Candidate(book.View(), x, y, z) ==> Canonical(x, y, z) in seen
    ensures Enumerated(book.View(), book.feed, seen, built, entries) && ReverseIndexOk(index, built)
  {
    hide WellFormed;
    hide IndexOk;
    hide Enumerated;
    hide ReverseIndexOk;
    hide BestIn;
    seen, built, entries, index := seen0, built0, entries0, index0;
    ghost var b := book.View();
    var outgoing := NeighborsAt(book.userAdjacency, y);
    forall z { NeighborsAreOpen(book, y, z); }
    while outgoing != {}
      invariant book.Valid() && book.View() == b && book.feed == old(book.feed) && seen0 <= seen
      invariant forall z :: z in outgoing ==> Best(b, (y, z)).Some?
      invariant forall z :: Candidate(b, x, y, z) && z !in outgoing ==> Canonical(x, y, z) in seen
      invariant Enumerated(b, book.feed, seen, built, entries) && ReverseIndexOk(index, built)
      decreases |outgoing|
    {
      var z :| z in outgoing;
      if z != x && z != y && book.HasOrders(z, x) {
        seen, built, entries, index := Consider(book, Canonical(x, y, z), seen, built, entries, index);
      }
      outgoing := outgoing - {z};
    }
  }

  /** All profitable triangles of the book, with the reverse index from pairs to triangles. */
  method EnumerateTriangles(book: OrderBook) returns (entries: Heap, index: TrianglesByPair, ghost built: set<Triangle>)
    requires book.Valid()
    modifies book
    ensures book.Valid() && book.View() == old(book.View()) && book.feed == old(book.feed)
    ensures HeapOk(book.View(), book.feed, entries, built, {}) && DistinctTriangles(entries) && ReverseIndexOk(index, built)
    ensures KnowsAll(book.View(), book.feed, built)
  {
    hide WellFormed;
    hide IndexOk;
    hide ReverseIndexOk;
    hide BestIn;
    hide TryBuild;
    var seen: set<Triangle> := {};
    entries, index, built := [], map[], {};
    ghost var b := book.View();
    var todo := book.tokens;
    forall x, y, z | Candidate(b, x, y, z)
      ensures y in todo
    {
      OpenTokens(b, (x, y));
    }
    assert Enumerated(b, book.feed, seen, built, entries);
    assert ReverseIndexOk(index, built) by { EmptyReverseIndex(); }
    while todo != {}
      invariant book.Valid() && book.View() == b && book.feed == old(book.feed) && todo <= book.tokens
      invariant forall x, y, z :: Candidate(b, x, y, z) && y !in todo ==> Canonical(x, y, z) in seen
      invariant Enumerated(b, book.feed, seen, built, entries) && ReverseIndexOk(index, built)
      decreases |todo|
    {
      var y :| y in todo;
      var incoming := NeighborsAt(book.incomingAdjacency, y);
      forall x { NeighborsAreOpen(book, y, x); }
      ghost var seen0 := seen;
      while incoming != {}
        invariant book.Valid() && book.View() == b && book.feed == old(book.feed) && seen0 <= seen
        invariant forall x :: x in incoming ==> Best(b, (x, y)).Some?
        invariant forall x, z :: Candidate(b, x, y, z) && x !in incoming ==> Canonical(x, y, z) in seen
        invariant Enumerated(b, book.feed, seen, built, entries) && ReverseIndexOk(index, built)
        decreases |incoming|
      {
        hide Enumerated;
        var x :| x in incoming;
        seen, built, entries, index := EnumerateEdge(book, x, y, seen, built, entries, index);
        incoming := incoming - {x};
      }
      todo := todo - {y};
    }
    EnumeratedHeapOk(b, book.feed, seen, built, entries);
    EnumeratedAll(b, book.feed, seen, built, entries);
  }

  lemma EnumeratedAll(b: Book, feed: Feed, seen: set<Triangle>, built: set<Triangle>, entries: Heap)
    requires WellFormed(b) && Enumerated(b, feed, seen, built, entries)
    requires forall x, y, z :: Candidate(b, x, y, z) ==> Canonical(x, y, z) in seen
    ensures KnowsAll(b, feed, built)
  {
    hide TryBuild;
    hide WellFormed;
    hide BestIn;
    hide InHeap;
    hide Candidate;
    hide Canonical;
    forall t | Listed(b, feed, t)
      ensures t in seen
    {
      var x, y, z :| z != x && z != y && t == Canonical(x, y, z);
      BuiltCandidate(b, feed, x, y, z);
    }
  }

  /** All three pairs of a triangle that can be built have orders, whichever rotation it is looked at in. */
  lemma BuiltCandidate(b: Book, feed: Feed, x: TokenId, y: TokenId, z: TokenId)
    requires WellFormed(b) && z != x && z != y && TryBuild(b, feed, Canonical(x, y, z)).Some?
    ensures Candidate(b, x, y, z)
  {
    hide WellFormed;
    hide BestIn;
    hide BuildFrom;
  }

  lemma EmptyReverseIndex()
    ensures ReverseIndexOk(map[], {})
  {}

  // ---------------------------------------------------------------------------
  // Executing cycles
  // ---------------------------------------------------------------------------

  /** Filling an order in place keeps the orders valid and their terms unchanged. */
  lemma FillInPlace(orders: Orders, id: OrderId, amount: Amount, s: seq<OrderId>)
    ensures OrdersOk(orders) && Covers(orders, s) && id in orders ==>
      var orders' := orders[id := orders[id].Fill(amount).1];
      OrdersOk(orders') && SameTerms(orders, orders', s)
  {
    hide CalculateOutput;
  }

  /** Write the fill of one order in place. */
  method FillOrder(book: OrderBook, id: OrderId, amount: Amount)
    requires OrdersOk(book.orders) && id in book.orders
    modifies book`orders
    ensures OrdersOk(book.orders)
    ensures book.orders == old(book.orders)[id := old(book.orders)[id].Fill(amount).1]
    ensures old(book.Represents()) ==> book.Represents()
  {
    hide IndexOk;
    hide LinksOk;
    hide CountsOk;
    hide SameTerms;
    ghost var orders' := book.orders[id := book.orders[id].Fill(amount).1];
    IndexCovers(book.orders, book.fifo, book.pairIndex, book.activePairCount, book.userAdjacency, book.incomingAdjacency);
    FillInPlace(book.orders, id, amount, book.fifo);
    IndexJoin(book.orders, book.fifo, book.pairIndex, book.activePairCount, book.userAdjacency, book.incomingAdjacency);
    IndexCarriesOver(book.orders, orders', book.fifo, book.pairIndex, book.activePairCount, book.userAdjacency, book.incomingAdjacency);
    book.orders := book.orders[id := book.orders[id].Fill(amount).1];
  }

  lemma IndexCovers(orders: Orders, s: seq<OrderId>, trees: Trees, counts: Counts, outgoing: Adjacency,
      incoming: Adjacency)
    ensures IndexOk(orders, s, trees, counts, outgoing, incoming) ==> Covers(orders, s)
  {}

  /** Clean up the completed orders of an executed entry and credit the surpluses. */
  method FinishCycle(book: OrderBook, e: CycleEntry, fills: FillResult)
    requires OrdersOk(book.orders) && e.orderAB in book.orders && e.orderCA in book.orders && e.orderBC in book.orders
    modifies book`pairIndex, book`activePairCount, book`userAdjacency, book`incomingAdjacency,
      book`fifo, book`protocolBalances, book`tokens
    ensures book.fifo
      == DropFilled(DropFilled(DropFilled(old(book.fifo), book.orders[e.orderAB]), book.orders[e.orderCA]), book.orders[e.orderBC])
    ensures book.protocolBalances
      == Deposit(
        Deposit(Deposit(old(book.protocolBalances), e.triangle.a, fills.surplusA), e.triangle.b, fills.surplusB),
        e.triangle.c, fills.surplusC)
    ensures book.tokens
      == Known(Known(Known(old(book.tokens), e.triangle.a, fills.surplusA), e.triangle.b, fills.surplusB), e.triangle.c, fills.surplusC)
    ensures old(book.Represents())
      && e.orderAB in old(book.fifo) && e.orderBC in old(book.fifo) && e.orderCA in old(book.fifo)
      && e.orderAB != e.orderBC && e.orderBC != e.orderCA && e.orderAB != e.orderCA
      ==> book.Represents()
  {
    hide IndexOk;
    hide LinksOk;
    hide Known;
    hide Deposit;
    book.CleanupIfFilled(e.orderAB);
    book.CleanupIfFilled(e.orderCA);
    book.CleanupIfFilled(e.orderBC);
    book.AddProtocolBalance(e.triangle.a, fills.surplusA);
    book.AddProtocolBalance(e.triangle.b, fills.surplusB);
    book.AddProtocolBalance(e.triangle.c, fills.surplusC);
  }

  /** The orders when an entry is given up at its first missing order: earlier fills are not undone. */
  ghost function FilledUpToMissing(orders: Orders, e: CycleEntry, fills: FillResult): Orders
    requires OrdersOk(orders)
  {
    if e.orderAB !in orders then orders
    else
      FillInPlace(orders, e.orderAB, fills.fillB, []);
      hide CalculateOutput;
      var first := orders[e.orderAB := orders[e.orderAB].Fill(fills.fillB).1];
      if e.orderCA !in first then first else first[e.orderCA := first[e.orderCA].Fill(fills.fillA).1]
  }

  /** Fill the three orders of an entry, clean up the completed ones and credit the surpluses. */
  method ExecuteCycle(book: OrderBook, e: CycleEntry, fills: FillResult, filled0: set<OrderId>,
      ghost sim: CycleSimulation)
    returns (ok: bool, filled: set<OrderId>)
    requires book.Valid() && sim.fills == fills
    modifies book`orders, book`pairIndex, book`activePairCount, book`userAdjacency, book`incomingAdjacency,
      book`fifo, book`protocolBalances, book`tokens
    ensures ok <==> e.orderAB in old(book.orders) && e.orderCA in old(book.orders) && e.orderBC in old(book.orders)
    ensures filled == if ok then filled0 + {e.orderAB, e.orderCA, e.orderBC} else filled0
    ensures OrdersOk(old(book.orders))
    ensures !ok ==> book.View() == old(book.View()).(orders := FilledUpToMissing(old(book.orders), e, fills))
    ensures old(Executable(book.View(), book.feed, e, sim)) ==>
      ok && book.View() == Execute(old(book.View()), e, fills) && book.Valid()
  {
    hide WellFormed;
    hide IndexOk;
    hide Executable;
    hide CalculateOutput;
    hide Known;
    hide Deposit;
    ghost var before := book.View();
    if Executable(before, book.feed, e, sim) {
      ExecutableFacts(before, book.feed, e, sim);
    }
    filled := filled0;
    OrdersAreOk(before);
    if e.orderAB !in book.orders { return false, filled; }
    FillOrder(book, e.orderAB, fills.fillB);
    if e.orderCA !in book.orders { return false, filled; }
    FillOrder(book, e.orderCA, fills.fillA);
    if e.orderBC !in book.orders { return false, filled; }
    FillOrder(book, e.orderBC, fills.fillC);
    hide OrdersOk;
    filled := filled + {e.orderAB, e.orderCA, e.orderBC};
    FinishCycle(book, e, fills);
    ok := true;
  }

  lemma OrdersAreOk(b: Book)
    ensures WellFormed(b) ==> OrdersOk(b.orders)
  {}

  // ---------------------------------------------------------------------------
  // The heap loop
  // ---------------------------------------------------------------------------

  /** The built triangles that share a pair with `t`. */
  method AffectedBy(index: TrianglesByPair, t: Triangle) returns (affected: set<Triangle>)
    ensures forall u :: u in affected <==> exists p :: p in t.Pairs() && u in TrianglesAt(index, p)
  {
    affected := {};
    var pairs := [t.AB(), t.BC(), t.CA()];
    for i := 0 to 3
      invariant forall u :: u in affected <==> exists j :: 0 <= j < i && u in TrianglesAt(index, pairs[j])
    {
      affected := affected + set u | u in TrianglesAt(index, pairs[i]);
    }
    assert pairs[0] == t.AB() && pairs[1] == t.BC() && pairs[2] == t.CA();
    forall u, p | p in t.Pairs() && u in TrianglesAt(index, p)
      ensures u in affected
    {
      var j := if p == t.AB() then 0 else if p == t.BC() then 1 else 2;
      assert pairs[j] == p;
    }
  }

  /** Push a newly built entry for every affected triangle that can still be executed. */
  method Reevaluate(book: OrderBook, affected: set<Triangle>, heap0: Heap,
      ghost built: set<Triangle>) returns (heap: Heap)
    requires book.Valid() && HeapOk(book.View(), book.feed, heap0, built, affected) && affected <= built
    modifies book
    ensures book.Valid() && book.View() == old(book.View()) && book.feed == old(book.feed)
    ensures HeapOk(book.View(), book.feed, heap, built, {})
  {
    hide WellFormed;
    hide IndexOk;
    hide HeapOk;
    hide TryBuild;
    heap := heap0;
    var todo := affected;
    while todo != {}
      invariant book.Valid() && book.View() == old(book.View()) && book.feed == old(book.feed) && todo <= built
      invariant HeapOk(book.View(), book.feed, heap, built, todo)
      decreases |todo|
    {
      var t :| t in todo;
      RefreshOk(book.View(), book.feed, heap, built, todo, t);
      var entry := TryBuildEntry(book, t);
      if entry.Some? {
        heap := heap + [entry.value];
      }
      todo := todo - {t};
    }
  }

  /** `built` has exactly the listed triangles of `b0`. */
  ghost predicate KnowsAll(b0: Book, feed: Feed, built: set<Triangle>)
    requires WellFormed(b0)
  {
    forall t :: t in built <==> Listed(b0, feed, t)
  }

  /** The popped entry at position `i`, and what the rest of the heap still guarantees. */
  lemma PopFacts(b0: Book, b: Book, feed: Feed, heap: Heap, built: set<Triangle>, i: nat)
    requires WellFormed(b) && HeapOk(b, feed, heap, built, {}) && IsTop(heap, i)
    requires WellFormed(b0) && KnowsAll(b0, feed, built)
    ensures var e := heap[i];
      && e.triangle in built && EntryOk(b, e) && Current(b, e) && Listed(b0, feed, e.triangle)
      && HeapOk(b, feed, Pop(heap, i), built, {e.triangle})
      && EntriesOk(b, heap) && EntriesOk(b, Pop(heap, i))
      && Weight(b, feed, heap) == Weight(b, feed, Pop(heap, i)) + Cost(b, feed, e)
      && 0 < e.surplusUsd && NoneBetter(b0, b, feed, e.surplusUsd)
  {
    hide WellFormed;
    hide Cost;
    hide TryBuild;
    PopOk(b, feed, heap, built, i);
    HeapEntriesOk(b, feed, heap, built, {});
    PopWeight(b, feed, heap, i);
    hide Listed;
    forall x, y, z | z != x && z != y && TryBuild(b0, feed, Canonical(x, y, z)).Some?
      ensures var t := Canonical(x, y, z); TryBuild(b, feed, t).Some? ==> TryBuild(b, feed, t).value.surplusUsd <= heap[i].surplusUsd
    {
      IsListed(b0, feed, x, y, z);
      TopIsBest(b, feed, heap, built, i, Canonical(x, y, z));
    }
  }

  /** The affected triangles are the built ones that share a pair with the executed one. */
  lemma AffectedOk(index: TrianglesByPair, built: set<Triangle>, t: Triangle, affected: set<Triangle>)
    requires ReverseIndexOk(index, built) && t in built
    requires forall u :: u in affected <==> exists p :: p in t.Pairs() && u in TrianglesAt(index, p)
    ensures affected <= built && t in affected
    ensures forall u :: u in built && u !in affected ==> u.Pairs() !! t.Pairs()
  {
    forall u | u in affected
      ensures u in built
    {
      var p :| p in t.Pairs() && u in TrianglesAt(index, p);
    }
    assert t in TrianglesAt(index, t.AB());
    forall u | u in built && u !in affected
      ensures u.Pairs() !! t.Pairs()
    {
      assert forall p: Pair :: p in t.Pairs() ==> (u in TrianglesAt(index, p) <==> p in u.Pairs());
    }
  }

  /**
   * Triangular matching: pop the best entry, drop or renew it if it is stale, otherwise execute it; until no entry is
   * left. `trace` lists the executed cycles.
   */
  method RunThreeEdgeCycle(book: OrderBook, filled0: set<OrderId>)
    returns (filled: set<OrderId>, cycles: nat, ghost trace: Trace)
    requires book.Valid()
    modifies book
    ensures book.Valid() && book.feed == old(book.feed)
    ensures CycleRun(old(book.View()), book.feed, trace, book.View(), filled0, filled) && cycles == |trace|
    ensures Exhausted(old(book.View()), book.View(), book.feed)
  {
    hide WellFormed;
    hide IndexOk;
    hide HeapOk;
    hide TryBuild;
    hide CycleRun;
    hide NoneBetter;
    hide KnowsAll;
    hide Listed;
    hide StepOk;
    hide FilledUpToMissing;
    hide DistinctTriangles;
    hide OrdersOk;
    hide ReverseIndexOk;
    hide Current;
    hide EntryOk;
    hide SimulateFullCycle;
    hide Weight;
    hide Execute;
    filled, cycles, trace := filled0, 0, [];
    ghost var b0 := book.View();
    NoCycles(b0, book.feed, filled0);
    var heap, index, built := EnumerateTriangles(book);
    while heap != []
      invariant book.Valid() && book.feed == old(book.feed)
      invariant HeapOk(book.View(), book.feed, heap, built, {})
      invariant CycleRun(b0, book.feed, trace, book.View(), filled0, filled) && cycles == |trace|
      decreases TotalRemaining(book.View()), if EntriesOk(book.View(), heap) then Weight(book.View(), book.feed, heap) else 0
    {
      TopExists(heap);
      var i :| 0 <= i < |heap| && IsTop(heap, i);
      ghost var b := book.View();
      PopFacts(b0, b, book.feed, heap, built, i);
      var e := heap[i];
      heap := Pop(heap, i);
      EntryOrdersOk(b, e);
      var simulation := SimulateFullCycle(book.feed, book.orders[e.orderAB], book.orders[e.orderBC], book.orders[e.orderCA]);
      if simulation.None? || simulation.value.surplusUsd != e.surplusUsd {
        assert Cost(b, book.feed, e) == 2;
        if simulation.None? {
          RefreshOk(b, book.feed, heap, built, {e.triangle}, e.triangle);
          assert {e.triangle} - {e.triangle} == {};
          var entry := TryBuildEntry(book, e.triangle);
          if entry.Some? {
            heap := heap + [entry.value];
          }
        } else {
          RequeueOk(b, book.feed, heap, built, e, simulation.value);
          if 0 < simulation.value.surplusUsd {
            heap := heap + [e.(surplusUsd := simulation.value.surplusUsd)];
          }
        }
        continue;
      }
      ghost var sim := simulation.value;
      assert Executable(b, book.feed, e, sim);
      IsStep(b0, b, book.feed, e, sim);
      OneMoreCycle(b0, book.feed, trace, b, filled0, filled, e, sim);
      ExecuteOk(b, book.feed, e, sim);
      var ok;
      ok, filled := ExecuteCycle(book, e, simulation.value.fills, filled, sim);
      assert ok;
      trace := trace + [CycleStep(e, sim)];
      cycles := cycles + 1;
      var affected := AffectedBy(index, e.triangle);
      AffectedOk(index, built, e.triangle, affected);
      ExecuteHeapOk(b, book.feed, heap, built, e, sim, affected);
      heap := Reevaluate(book, affected, heap, built);
    }
    EmptyHeapExhausted(b0, book.View(), book.feed, built);
  }

  lemma EntryOrdersOk(b: Book, e: CycleEntry)
    requires WellFormed(b) && EntryOk(b, e)
    ensures e.orderAB in b.orders && e.orderBC in b.orders && e.orderCA in b.orders
    ensures b.orders[e.orderAB].Valid() && b.orders[e.orderBC].Valid() && b.orders[e.orderCA].Valid()
  {}

  lemma EmptyHeapExhausted(b0: Book, b: Book, feed: Feed, built: set<Triangle>)
    requires WellFormed(b0) && WellFormed(b) && HeapOk(b, feed, [], built, {})
    requires KnowsAll(b0, feed, built)
    ensures Exhausted(b0, b, feed)
  {
    hide WellFormed;
    hide TryBuild;
    hide Listed;
    forall x, y, z | z != x && z != y && TryBuild(b0, feed, Canonical(x, y, z)).Some?
      ensures TryBuild(b, feed, Canonical(x, y, z)).None?
    {
      IsListed(b0, feed, x, y, z);
    }
  }
}
