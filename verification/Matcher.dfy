/** The matcher tick: draining events, reactivation, internal matching and external routing as one state machine. */
module Matcher {
  import opened Types
  import opened RateIndex
  import opened Sums
  import opened B = Book
  import opened OrderBook
  import opened Direct
  import opened Ledger
  import opened CycleRuns
  import opened Engine
  import opened Parking
  import opened Executor
  import opened Select
  import opened RouterServer
  import opened Routing
  import opened Ticks

  /** Ingest parses an order and its bytes from one note, rejects zero amounts, and a note id stands for one note. */
  ghost predicate IngestOk(o: IngestOrder, noteOf: NoteOf)
  {
    && 0 < o.offeredAmount && 0 < o.requestedAmount
    && noteOf(o.noteId) == NoteTerms(o.offeredToken, o.offeredAmount, o.requestedToken, o.requestedAmount)
    && o.raw == Some(noteOf(o.noteId))
  }

  /**
   * What holds at every tick boundary: one raw note and one arrival time per order, every order whole, nothing credited,
   * and a park queue in clock order.
   */
  ghost predicate StateOk(b: Book, raw: RawNotes, arrivals: Arrivals, now: Amount, noteOf: NoteOf)
  {
    && WellFormed(b) && QueueOk(b, now)
    && NotesOk(b.orders, raw, noteOf) && arrivals.Keys == b.orders.Keys && b.balances == map[]
  }

  /** Every order is whole and has the terms and the bytes of its own note. */
  ghost predicate NotesOk(orders: Orders, raw: RawNotes, noteOf: NoteOf)
  {
    && raw.Keys == orders.Keys && AllWhole(orders)
    && forall id :: id in orders ==> TermsOf(orders[id]) == noteOf(id) && raw[id] == Some(noteOf(id))
  }

  // ---------------------------------------------------------------------------
  // Every step keeps the boundary invariant
  // ---------------------------------------------------------------------------

  lemma ClockStateOk(b: Book, raw: RawNotes, arrivals: Arrivals, now: Amount, later: Amount, noteOf: NoteOf)
    requires StateOk(b, raw, arrivals, now, noteOf) && now <= later
    ensures StateOk(b, raw, arrivals, later, noteOf)
  {
    hide WellFormed;
    hide QueueOk;
    QueueShrinks(b, b, now, later);
  }

  lemma RemoveStateOk(b: Book, raw: RawNotes, arrivals: Arrivals, now: Amount, noteOf: NoteOf, id: OrderId)
    requires StateOk(b, raw, arrivals, now, noteOf)
    ensures StateOk(B.RemoveOrder(b, id), raw - {id}, arrivals - {id}, now, noteOf)
  {
    hide WellFormed;
    hide QueueOk;
    RemoveOrderWellFormed(b, id);
    QueueShrinks(b, B.RemoveOrder(b, id), now, now);
  }

  lemma AddStateOk(b: Book, raw: RawNotes, arrivals: Arrivals, now: Amount, noteOf: NoteOf, o: IngestOrder,
      arrivals': Arrivals)
    requires StateOk(b, raw, arrivals, now, noteOf) && IngestOk(o, noteOf)
    requires arrivals'.Keys == arrivals.Keys + {o.noteId}
    ensures StateOk(AddOrder(b, o.noteId, o.offeredToken, o.requestedToken, o.offeredAmount, o.requestedAmount),
                    raw[o.noteId := o.raw], arrivals', now, noteOf)
  {
    hide WellFormed;
    hide QueueOk;
    hide NotesOk;
    var b' := AddOrder(b, o.noteId, o.offeredToken, o.requestedToken, o.offeredAmount, o.requestedAmount);
    AddOrderWellFormed(b, o.noteId, o.offeredToken, o.requestedToken, o.offeredAmount, o.requestedAmount);
    QueueShrinks(b, b', now, now);
    AddNotesOk(b.orders, raw, noteOf, o);
  }

  lemma AddNotesOk(orders: Orders, raw: RawNotes, noteOf: NoteOf, o: IngestOrder)
    requires NotesOk(orders, raw, noteOf) && IngestOk(o, noteOf)
    ensures o.noteId in orders ==> NotesOk(orders, raw[o.noteId := o.raw], noteOf) && orders.Keys == orders.Keys + {o.noteId}
    ensures var order := Order(o.noteId, o.offeredToken, o.requestedToken, o.offeredAmount, o.requestedAmount, o.requestedAmount);
      NotesOk(orders[o.noteId := order], raw[o.noteId := o.raw], noteOf)
  {}

  lemma ReactivateStateOk(b: Book, raw: RawNotes, arrivals: Arrivals, now: Amount, noteOf: NoteOf, ttl: Amount)
    requires StateOk(b, raw, arrivals, now, noteOf)
    ensures StateOk(Reactivate(b, ttl, now).0, raw, arrivals, now, noteOf)
  {
    hide WellFormed;
    hide QueueOk;
    ReactivateWellFormed(b, ttl, now);
    ReactivateWakes(b, ttl, now, now);
  }

  lemma {:induction false} ParkAllStateOk(b: Book, raw: RawNotes, arrivals: Arrivals, now: Amount, noteOf: NoteOf,
      items: seq<(OrderId, DexId)>)
    requires StateOk(b, raw, arrivals, now, noteOf)
    ensures StateOk(ParkAll(b, items, now), raw, arrivals, now, noteOf)
    ensures ParkAll(b, items, now).orders == b.orders
  {
    hide WellFormed;
    hide QueueOk;
    if items != [] {
      var init, last := items[..|items| - 1], items[|items| - 1];
      ParkAllStateOk(b, raw, arrivals, now, noteOf, init);
      ParkWellFormed(ParkAll(b, init, now), last.0, last.1, now);
      ParkQueueOk(ParkAll(b, init, now), last.0, last.1, now, now);
    }
  }

  lemma {:induction false} UnparkAllStateOk(b: Book, raw: RawNotes, arrivals: Arrivals, now: Amount, noteOf: NoteOf,
      items: seq<(OrderId, DexId)>)
    requires StateOk(b, raw, arrivals, now, noteOf)
    ensures StateOk(UnparkAll(b, items), raw, arrivals, now, noteOf)
    ensures UnparkAll(b, items).orders == b.orders
  {
    hide WellFormed;
    hide QueueOk;
    if items != [] {
      var init, last := items[..|items| - 1], items[|items| - 1];
      UnparkAllStateOk(b, raw, arrivals, now, noteOf, init);
      var u := UnparkAll(b, init);
      UnparkWellFormed(u, last.0);
      QueueShrinks(u, B.Unpark(u, last.0), now, now);
    }
  }

  // ---------------------------------------------------------------------------
  // Internal matching
  // ---------------------------------------------------------------------------

  /** A run touches only matchable orders, and the touched ones are exactly the reported ones. */
  lemma TouchedWereMatchable(b: Book, r: Run)
    requires WellFormed(b) && Reports(b, {}, r)
    ensures forall id :: id in r.filled ==> id in b.fifo && id in r.book.orders && id !in b.parked
    ensures forall id :: id in b.orders && id !in r.filled ==> r.book.orders[id] == b.orders[id]
    ensures r.book.orders.Keys == b.orders.Keys && r.book.parked == b.parked && r.book.parkQueue == b.parkQueue
    ensures r.filled == {} ==> r.book == b
    ensures forall id :: id in b.orders ==> TermsOf(r.book.orders[id]) == TermsOf(b.orders[id])
  {}

  /** Once the touched orders are gone and the balances cleared, the boundary invariant holds again. */
  lemma AfterSettlement(b: Book, b': Book, raw: RawNotes, arrivals: Arrivals, now: Amount, noteOf: NoteOf,
      filled: set<OrderId>)
    requires StateOk(b, raw, arrivals, now, noteOf) && WellFormed(b')
    requires b'.orders == b.orders - filled && b'.parked == b.parked && b'.parkQueue == b.parkQueue && b'.balances == map[]
    ensures StateOk(b', raw - filled, arrivals - filled, now, noteOf)
  {
    hide WellFormed;
    hide QueueOk;
    QueueShrinks(b, b', now, now);
  }

  lemma ClearedWellFormed(b: Book)
    ensures WellFormed(b) ==> WellFormed(b.(balances := map[]))
  {}

  /** The net flow of a batch lies between minus the run's debt and the total offer. */
  lemma BatchAccounted(notes: seq<FilledNote>, b0: Book, r: Run, debt: nat, t: TokenId)
    requires WellFormed(b0) && AllWhole(b0.orders) && WellFormed(r.book) && Reports(b0, {}, r)
    requires BatchOf(notes, r.book.orders, r.filled) && Accounted(r.book, debt, t)
    ensures Decoded(notes) && 0 <= NetFlow(notes, t) + debt
    ensures NetFlow(notes, t) <= SumOver(b0.orders, OfferedOf(t))
  {
    hide NetOf;
    hide OfferedOf;
    BatchFlow(notes, b0, r.book, r.filled, t);
    ReleasedWithinOffered(r.book, t);
    OfferUnchanged(b0.orders, r.book.orders, t);
  }

  /** Fills do not change what the orders offer. */
  lemma OfferUnchanged(orders: Orders, orders': Orders, t: TokenId)
    requires orders.Keys == orders'.Keys && forall id :: id in orders ==> FilledFrom(orders[id], orders'[id])
    ensures SumOver(orders, OfferedOf(t)) == SumOver(orders', OfferedOf(t))
  {
    assert forall id :: id in orders ==> OfferedOf(t)(orders[id]) == OfferedOf(t)(orders'[id]);
    hide OfferedOf;
    SumSame(orders, orders', OfferedOf(t));
  }

  /** Every filled order is known with the bytes of its own note. */
  ghost predicate Complete(raw: RawNotes, orders: Orders, filled: set<OrderId>)
  {
    forall id :: id in filled ==> id in raw && id in orders && raw[id] == Some(TermsOf(orders[id]))
  }

  /** Notes carry the arrival times that are known. */
  ghost predicate ArrivalsKept(notes: seq<FilledNote>, arrivals: Arrivals)
  {
    forall k :: 0 <= k < |notes| && notes[k].noteId in arrivals ==> notes[k].arrival == arrivals[notes[k].noteId]
  }

  lemma EmptyBatch(orders: Orders, arrivals: Arrivals)
    ensures BatchOf([], orders, {}) && ArrivalsKept([], arrivals)
  {}

  lemma KeepArrival(notes: seq<FilledNote>, arrivals: Arrivals, note: FilledNote)
    requires ArrivalsKept(notes, arrivals) && (note.noteId in arrivals ==> note.arrival == arrivals[note.noteId])
    ensures ArrivalsKept(notes + [note], arrivals)
  {}

  lemma NoneMissing(raw: RawNotes, orders: Orders, filled: set<OrderId>, id: OrderId)
    requires id in filled && id !in raw
    ensures !Complete(raw, orders, filled)
  {}

  lemma OneMoreNote(raw: RawNotes, orders: Orders, filled: set<OrderId>, notes: seq<FilledNote>, todo: set<OrderId>,
    note: FilledNote)
    requires OrdersOk(orders) && note.noteId in todo && todo <= filled && note.noteId in raw && note.terms == raw[note.noteId]
    requires note.requestedFilled == if note.noteId in orders then orders[note.noteId].RequestedFilled() else 0
    ensures Complete(raw, orders, filled) && BatchOf(notes, orders, filled - todo) ==>
      BatchOf(notes + [note], orders, filled - (todo - {note.noteId}))
  {
    if Complete(raw, orders, filled) && BatchOf(notes, orders, filled - todo) {
      assert SettlesOrder(note, orders);
      hide BatchOf;
      ExtendBatch(notes, orders, filled - todo, note);
      assert filled - (todo - {note.noteId}) == (filled - todo) + {note.noteId};
    }
  }

  lemma ExtendBatch(notes: seq<FilledNote>, orders: Orders, filled: set<OrderId>, n: FilledNote)
    requires BatchOf(notes, orders, filled) && SettlesOrder(n, orders) && n.noteId !in filled
    ensures BatchOf(notes + [n], orders, filled + {n.noteId})
  {
    var notes' := notes + [n];
    forall id
      ensures id in filled + {n.noteId} <==> exists k :: 0 <= k < |notes'| && notes'[k].noteId == id
    {
      if k :| 0 <= k < |notes| && notes[k].noteId == id {
        assert notes'[k].noteId == id;
      }
      if id == n.noteId {
        assert notes'[|notes|].noteId == id;
      }
    }
    forall i | 0 <= i < |notes|
      ensures notes[i].noteId != n.noteId
    {}
  }

  /**
   * On every token the batch flows out at most what the cycles of `trace` fell short by, and in at most what the orders
   * of `b0` offer.
   */
  ghost predicate FlowBounds(notes: seq<FilledNote>, b0: Book, feed: Feed, trace: Trace)
  {
    Decoded(notes) && forall t ::
      0 <= NetFlow(notes, t) + DebtOf(AfterDirect(b0, feed), trace, t) && NetFlow(notes, t) <= SumOver(b0.orders, OfferedOf(t))
  }

  ghost predicate OffersFit(b: Book) { forall t :: SumOver(b.orders, OfferedOf(t)) <= MAX_U64 }

  /** If no executed cycle falls short, the executor accepts the batch. */
  ghost predicate Safe(notes: seq<FilledNote>, b0: Book, feed: Feed, trace: Trace)
  {
    OffersFit(b0) && NoShortfall(AfterDirect(b0, feed), trace) ==> Accepted(notes)
  }

  lemma BoundedIsSafe(notes: seq<FilledNote>, b0: Book, feed: Feed, trace: Trace)
    requires FlowBounds(notes, b0, feed, trace)
    ensures Safe(notes, b0, feed, trace)
  {
    hide SumOver;
    hide OfferedOf;
    hide NetFlow;
    hide NoShortfall;
    hide AfterDirect;
    hide DebtOf;
    if NoShortfall(AfterDirect(b0, feed), trace) {
      forall t ensures DebtOf(AfterDirect(b0, feed), trace, t) == 0 {
        NoShortfallNoDebt(AfterDirect(b0, feed), trace, t);
      }
    }
  }

  /** Every note carries the time its order arrived. */
  ghost predicate Stamped(notes: seq<FilledNote>, arrivals: Arrivals)
  {
    forall k :: 0 <= k < |notes| ==> notes[k].noteId in arrivals && notes[k].arrival == arrivals[notes[k].noteId]
  }

  lemma StampedFacts(notes: seq<FilledNote>, r: Run, raw: RawNotes, arrivals: Arrivals, now: Amount,
    noteOf: NoteOf, b0: Book)
    requires StateOk(b0, raw, arrivals, now, noteOf) && Reports(b0, {}, r) && BatchOf(notes, r.book.orders, r.filled)
    requires ArrivalsKept(notes, arrivals)
    ensures Stamped(notes, arrivals)
  {
    TouchedWereMatchable(b0, r);
  }

  /** What is needed to settle a run: the batch, its flow bounds, and which orders it touched. */
  lemma SettlementFacts(b0: Book, raw: RawNotes, arrivals: Arrivals, now: Amount, noteOf: NoteOf, r: Run)
    requires StateOk(b0, raw, arrivals, now, noteOf) && WellFormed(r.book) && Reports(b0, {}, r)
    ensures OrdersOk(r.book.orders)
    ensures Complete(raw, r.book.orders, r.filled)
    ensures forall id :: id in r.filled ==> id in b0.fifo && id !in r.book.parked
    ensures r.book.orders - r.filled == b0.orders - r.filled && r.book.parked == b0.parked && r.book.parkQueue == b0.parkQueue
    ensures r.filled == {} ==> r.book == b0
  {
    TouchedWereMatchable(b0, r);
    hide WellFormed;
    hide Reports;
    hide QueueOk;
    SameRest(b0.orders, r.book.orders, r.filled);
    TouchedComplete(b0.orders, raw, noteOf, r.book.orders, r.filled);
    hide NotesOk;
    hide Complete;
  }

  lemma TouchedComplete(orders: Orders, raw: RawNotes, noteOf: NoteOf, orders': Orders, filled: set<OrderId>)
    requires NotesOk(orders, raw, noteOf) && orders'.Keys == orders.Keys && filled <= orders.Keys
    requires forall id :: id in orders ==> TermsOf(orders'[id]) == TermsOf(orders[id])
    ensures Complete(raw, orders', filled)
  {}

  lemma SameRest(orders: Orders, orders': Orders, filled: set<OrderId>)
    requires orders'.Keys == orders.Keys && forall id :: id in orders && id !in filled ==> orders'[id] == orders[id]
    ensures orders' - filled == orders - filled
  {}

  lemma DropMore<V>(m: map<OrderId, V>, done: set<OrderId>, id: OrderId)
    ensures (m - done) - {id} == m - (done + {id})
  {}

  lemma TokenBounded(notes: seq<FilledNote>, b0: Book, feed: Feed, triangular: bool, r: Run, trace: Trace, t: TokenId)
    requires EngineRun(b0, feed, triangular, r, trace) && AllWhole(b0.orders) && b0.balances == map[]
    requires BatchOf(notes, r.book.orders, r.filled)
    ensures Decoded(notes) && 0 <= NetFlow(notes, t) + DebtOf(AfterDirect(b0, feed), trace, t)
    ensures NetFlow(notes, t) <= SumOver(b0.orders, OfferedOf(t))
  {
    hide WellFormed;
    hide Reports;
    hide NetFlow;
    hide OfferedOf;
    hide BatchOf;
    hide Accounted;
    hide CycleRun;
    hide Exhausted;
    hide AfterDirect;
    hide DebtOf;
    EngineReports(b0, feed, triangular, r, trace);
    EngineAccounted(b0, feed, triangular, r, trace, t);
    BatchAccounted(notes, b0, r, DebtOf(AfterDirect(b0, feed), trace, t), t);
  }

  lemma FlowsBounded(notes: seq<FilledNote>, b0: Book, feed: Feed, triangular: bool, r: Run, trace: Trace)
    requires EngineRun(b0, feed, triangular, r, trace) && AllWhole(b0.orders) && b0.balances == map[]
    requires BatchOf(notes, r.book.orders, r.filled)
    ensures FlowBounds(notes, b0, feed, trace)
  {
    hide EngineRun;
    hide NetFlow;
    hide OfferedOf;
    hide BatchOf;
    hide AfterDirect;
    hide DebtOf;
    TokenBounded(notes, b0, feed, triangular, r, trace, 0);
    forall t
      ensures 0 <= NetFlow(notes, t) + DebtOf(AfterDirect(b0, feed), trace, t) && NetFlow(notes, t) <= SumOver(b0.orders, OfferedOf(t))
    {
      TokenBounded(notes, b0, feed, triangular, r, trace, t);
    }
  }

  // ---------------------------------------------------------------------------
  // The matcher
  // ---------------------------------------------------------------------------

  /** Orders come from honest notes, and quotes from the router's published snapshot. */
  ghost predicate InputOk(input: TickInput, noteOf: NoteOf)
  {
    && (forall k :: 0 <= k < |input.orders| ==> IngestOk(input.orders[k], noteOf))
    && (input.router.Some? ==> QuotesOk(input.router.value.quotes))
  }

  lemma InputFacts(input: TickInput, noteOf: NoteOf)
    requires InputOk(input, noteOf)
    ensures forall k :: 0 <= k < |input.orders| ==> IngestOk(input.orders[k], noteOf)
    ensures input.router.Some? ==> QuotesOk(input.router.value.quotes)
    ensures input.router.Some? ==> forall p :: p in input.router.value.quotes ==> Descending(input.router.value.quotes[p])
    ensures InputOk(input.(router := None), noteOf)
  {}

  function Max(a: Amount, b: Amount): Amount { if a < b then b else a }

  class Matcher {
    const engine: MatchingEngine
    var rawNotes: RawNotes
    var arrivals: Arrivals
    var lastNow: Amount
    /** The note each id commits to. */
    ghost const noteOf: NoteOf

    ghost predicate Valid()
      reads this, engine, engine.book
    {
      engine.book.Valid() && StateOk(engine.book.View(), rawNotes, arrivals, lastNow, noteOf)
    }

    constructor (engine: MatchingEngine, ghost noteOf: NoteOf)
      requires engine.book.Valid() && engine.book.View() == Book(map[], [], map[], [], map[], {})
      ensures Valid() && this.engine == engine && this.noteOf == noteOf
    {
      this.engine, this.noteOf := engine, noteOf;
      rawNotes, arrivals, lastNow := map[], map[], 0;
    }

    /** Drop consumed notes. */
    method DrainConsumed(ids: seq<OrderId>)
      requires Valid()
      modifies this`rawNotes, this`arrivals, engine.book
      ensures Valid() && engine.book.View() == RemoveAll(old(engine.book.View()), ids)
      ensures arrivals == old(arrivals) - (set id | id in ids)
    {
      hide StateOk;
      hide WellFormed;
      hide IndexOk;
      var book := engine.book;
      assert ids[..0] == [];
      for k := 0 to |ids|
        invariant Valid() && book.View() == RemoveAll(old(book.View()), ids[..k])
        invariant arrivals == old(arrivals) - (set id | id in ids[..k])
      {
        assert ids[..k + 1][..k] == ids[..k] && ids[..k + 1] == ids[..k] + [ids[k]];
        RemoveStateOk(book.View(), rawNotes, arrivals, lastNow, noteOf, ids[k]);
        book.RemoveOrder(ids[k]);
        rawNotes := rawNotes - {ids[k]};
        arrivals := arrivals - {ids[k]};
      }
      assert ids[..|ids|] == ids;
    }

    /** Add new orders; an order that is already known keeps its first arrival time. */
    method DrainOrders(orders: seq<IngestOrder>, nowUnix: Amount)
      requires Valid() && forall k :: 0 <= k < |orders| ==> IngestOk(orders[k], noteOf)
      modifies this`rawNotes, this`arrivals, engine.book
      ensures Valid() && engine.book.View() == AddAll(old(engine.book.View()), orders)
      ensures forall id :: id in arrivals ==> arrivals[id] == if id in old(arrivals) then old(arrivals)[id] else nowUnix
    {
      hide StateOk;
      hide WellFormed;
      hide IndexOk;
      var book := engine.book;
      assert orders[..0] == [];
      for k := 0 to |orders|
        invariant Valid() && book.View() == AddAll(old(book.View()), orders[..k])
        invariant forall id :: id in old(arrivals) ==> id in arrivals
        invariant forall id :: id in arrivals ==> arrivals[id] == if id in old(arrivals) then old(arrivals)[id] else nowUnix
      {
        assert orders[..k + 1][..k] == orders[..k] && orders[..k + 1] == orders[..k] + [orders[k]];
        var o := orders[k];
        var arrivals' := if o.noteId in arrivals then arrivals else arrivals[o.noteId := nowUnix];
        AddStateOk(book.View(), rawNotes, arrivals, lastNow, noteOf, o, arrivals');
        book.AddUserOrder(o.noteId, o.offeredToken, o.requestedToken, o.offeredAmount, o.requestedAmount);
        arrivals := arrivals';
        rawNotes := rawNotes[o.noteId := o.raw];
      }
      assert orders[..|orders|] == orders;
    }

    /** The notes of the filled orders, in arbitrary order; an order without raw bytes is skipped. */
    method BuildBatch(filled: set<OrderId>, nowUnix: Amount) returns (notes: seq<FilledNote>)
      requires OrdersOk(engine.book.orders)
      ensures Complete(rawNotes, engine.book.orders, filled) ==> BatchOf(notes, engine.book.orders, filled)
      ensures ArrivalsKept(notes, arrivals)
    {
      hide BatchOf;
      hide Complete;
      hide ArrivalsKept;
      var book := engine.book;
      ghost var complete := Complete(rawNotes, book.orders, filled);
      notes := [];
      EmptyBatch(book.orders, arrivals);
      var todo := filled;
      assert filled - todo == {};
      while todo != {}
        invariant todo <= filled && ArrivalsKept(notes, arrivals)
        invariant complete ==> BatchOf(notes, book.orders, filled - todo)
        decreases |todo|
      {
        var id :| id in todo;
        if id in rawNotes {
          var fill := if id in book.orders then book.orders[id].RequestedFilled() else 0;
          var note := FilledNote(id, fill, rawNotes[id], if id in arrivals then arrivals[id] else nowUnix);
          KeepArrival(notes, arrivals, note);
          OneMoreNote(rawNotes, book.orders, filled, notes, todo, note);
          notes := notes + [note];
        } else {
          NoneMissing(rawNotes, book.orders, filled, id);
        }
        todo := todo - {id};
      }
      assert filled - todo == filled;
    }

    /** Remove every settled order, its raw note and its arrival time. */
    method RemoveSettled(filled: set<OrderId>)
      requires engine.book.Valid() && forall id :: id in filled ==> id !in engine.book.parked
      modifies this`rawNotes, this`arrivals, engine.book`orders, engine.book`parked, engine.book`fifo, engine.book`pairIndex,
        engine.book`activePairCount, engine.book`userAdjacency, engine.book`incomingAdjacency
      ensures engine.book.Valid()
      ensures engine.book.orders == old(engine.book.orders) - filled && engine.book.parked == old(engine.book.parked)
      ensures rawNotes == old(rawNotes) - filled && arrivals == old(arrivals) - filled
    {
      hide WellFormed;
      hide IndexOk;
      var book := engine.book;
      var todo := filled;
      ghost var done: set<OrderId> := {};
      while todo != {}
        invariant todo + done == filled && book.Valid()
        invariant book.orders == old(book.orders) - done && book.parked == old(book.parked)
        invariant rawNotes == old(rawNotes) - done && arrivals == old(arrivals) - done
        decreases |todo|
      {
        var id :| id in todo;
        ghost var view := book.View();
        book.RemoveOrder(id);
        RemovedView(view, id);
        DropMore(old(book.orders), done, id);
        DropMore(old(rawNotes), done, id);
        DropMore(old(arrivals), done, id);
        rawNotes := rawNotes - {id};
        arrivals := arrivals - {id};
        todo, done := todo - {id}, done + {id};
      }
    }

    /** Run the engine and hand the filled notes to the executor; `run` is the book as the engine left it. */
    method InternalMatch(feed: Feed, execOpen: bool, nowUnix: Amount)
      returns (stopped: bool, batch: Option<seq<FilledNote>>, ghost run: Run, ghost trace: Trace)
      requires Valid()
      modifies this`rawNotes, this`arrivals, engine.book
      ensures EngineRun(old(engine.book.View()), feed, engine.triangularEnabled, run, trace)
      ensures Reports(old(engine.book.View()), {}, run)
      ensures batch.None? ==> run.filled == {} && !stopped && engine.book.View() == old(engine.book.View())
      ensures batch.Some? ==> run.filled != {} && BatchOf(batch.value, run.book.orders, run.filled) && stopped == !execOpen
      ensures batch.Some? ==> FlowBounds(batch.value, old(engine.book.View()), feed, trace)
      ensures batch.Some? ==> Stamped(batch.value, old(arrivals))
      ensures forall id :: id in run.filled ==> id in old(engine.book.fifo)
      ensures !stopped ==> Valid() && engine.book.orders == old(engine.book.orders) - run.filled
      ensures !stopped ==> engine.book.parked == old(engine.book.parked) && engine.book.parkQueue == old(engine.book.parkQueue)
    {
      hide StateOk;
      hide WellFormed;
      hide IndexOk;
      hide Reports;
      hide EngineRun;
      hide BatchOf;
      hide FlowBounds;
      var book := engine.book;
      ghost var b0 := book.View();
      StateFacts(b0, rawNotes, arrivals, lastNow, noteOf);
      run, trace := Direct.Run(b0, {}, 0), [];
      StartReports(b0);
      if book.orders == map[] {
        assert book.orders - {} == book.orders;
        EmptyEngineRun(b0, feed, engine.triangularEnabled);
        return false, None, run, trace;
      }
      book.feed := feed;
      var result;
      result, trace := engine.Run();
      run := Direct.Run(book.View(), result.filledOrders, result.cyclesExecuted);
      EngineReports(b0, feed, engine.triangularEnabled, run, trace);
      SettlementFacts(b0, rawNotes, arrivals, lastNow, noteOf, run);
      if result.filledOrders == {} {
        assert book.orders - {} == book.orders;
        return false, None, run, trace;
      }
      var notes := BuildBatch(result.filledOrders, nowUnix);
      FlowsBounded(notes, b0, feed, engine.triangularEnabled, run, trace);
      StampedFacts(notes, run, rawNotes, arrivals, lastNow, noteOf, b0);
      if !execOpen {
        return true, Some(notes), run, trace;
      }
      RemoveSettled(result.filledOrders);
      ClearedWellFormed(book.View());
      book.protocolBalances := map[];
      AfterSettlement(b0, book.View(), old(rawNotes), old(arrivals), lastNow, noteOf, result.filledOrders);
      return false, Some(notes), run, trace;
    }

    /** The whole matchable notes of every quoted pair, in priority order. */
    method Candidates(quotes: QuotesByPair) returns (notes: NotesByPair)
      requires Valid()
      ensures CandidatesOk(engine.book.View(), notes) && CandidatesAll(engine.book.View(), quotes, notes)
      ensures forall p :: p in notes ==> DistinctIds(notes[p])
      ensures forall p :: p in quotes ==> NotesAt(notes, p) == engine.book.NotesForPair(p.0, p.1)
    {
      hide StateOk;
      hide WellFormed;
      hide IndexOk;
      hide DistinctIds;
      hide WholeOnly;
      var book := engine.book;
      notes := map[];
      var todo := quotes.Keys;
      while todo != {}
        invariant todo <= quotes.Keys && notes.Keys <= quotes.Keys - todo
        invariant CandidatesOk(book.View(), notes)
        invariant forall p :: p in notes ==> DistinctIds(notes[p])
        invariant forall p :: p in quotes && p !in todo ==> NotesAt(notes, p) == book.NotesForPair(p.0, p.1)
        decreases |todo|
      {
        var p :| p in todo;
        var all := book.NotesForPair(p.0, p.1);
        PairFacts(p, all);
        var whole := WholeOnly(all);
        if whole != [] {
          notes := notes[p := whole];
        }
        todo := todo - {p};
      }
      forall id | id in book.fifo && id in book.orders && book.orders[id].Pair() in quotes
        ensures Offers(notes, book.orders[id].Pair(), id)
      {
        var p := book.orders[id].Pair();
        PairFacts(p, book.NotesForPair(p.0, p.1));
      }
    }

    /** At a tick boundary the listing of a pair is already whole. */
    lemma PairFacts(p: Pair, all: seq<Order>)
      requires Valid() && all == engine.book.NotesForPair(p.0, p.1)
      ensures WholeOnly(all) == all && DistinctIds(all)
      ensures forall k :: 0 <= k < |all| ==>
        all[k].id in engine.book.fifo && all[k].id in engine.book.orders && all[k] == engine.book.orders[all[k].id]
        && all[k].Pair() == p && all[k].Valid()
      ensures forall id :: id in engine.book.fifo && id in engine.book.orders && engine.book.orders[id].Pair() == p ==>
        exists k :: 0 <= k < |all| && all[k].id == id
    {
      hide StateOk;
      hide WellFormed;
      hide IndexOk;
      hide IsListing;
      hide WholeOnly;
      var book := engine.book;
      StateFacts(book.View(), rawNotes, arrivals, lastNow, noteOf);
      assert NoteIds(all) == seq(|all|, i requires 0 <= i < |all| => all[i].id);
      BookListing(book.View(), p, all);
    }

    /** Park every pick whose note bytes are at hand and list it for handover. */
    method ParkPicks(picks: seq<Pick>, now: Amount) returns (items: seq<RoutedNote>)
      requires engine.book.Valid() && forall k :: 0 <= k < |picks| ==> picks[k].noteId in rawNotes
      modifies engine.book`pairIndex, engine.book`activePairCount, engine.book`userAdjacency, engine.book`incomingAdjacency,
        engine.book`fifo, engine.book`parked, engine.book`parkQueue
      ensures items == Items(picks)
      ensures engine.book.View() == ParkAll(old(engine.book.View()), Handed(items), now)
      ensures engine.book.Valid()
    {
      hide WellFormed;
      hide IndexOk;
      var book := engine.book;
      items := [];
      assert picks[..0] == [];
      for k := 0 to |picks|
        invariant book.Valid() && items == Items(picks[..k])
        invariant book.View() == ParkAll(old(book.View()), Handed(items), now)
      {
        var pick := picks[k];
        if pick.noteId in rawNotes {
          ghost var before := items;
          book.Park(pick.noteId, pick.dex, now);
          items := items + [ItemOf(pick)];
          assert Handed(items)[..k] == Handed(before);
        }
      }
      assert picks[..|picks|] == picks;
    }

    /** Select residual whole notes against the quotes and park each pick. */
    method RouteExternal(quotes: QuotesByPair) returns (items: seq<RoutedNote>)
      requires Valid() && forall p :: p in quotes ==> Descending(quotes[p])
      modifies engine.book`pairIndex, engine.book`activePairCount, engine.book`userAdjacency, engine.book`incomingAdjacency,
        engine.book`fifo, engine.book`parked, engine.book`parkQueue
      ensures Routed(old(engine.book.View()), quotes, lastNow, items)
      ensures engine.book.View() == ParkAll(old(engine.book.View()), Handed(items), lastNow)
      ensures Valid()
    {
      hide StateOk;
      hide WellFormed;
      hide IndexOk;
      hide Routed;
      hide Selection;
      hide DistinctNotes;
      hide CandidatesOk;
      hide CandidatesAll;
      hide DistinctIds;
      hide Descending;
      hide ParkAll;
      var book := engine.book;
      ghost var b0 := book.View();
      NothingRouted(b0, quotes, lastNow);
      if quotes == map[] {
        return [];
      }
      var notes := Candidates(quotes);
      if notes == map[] {
        NoCandidates(b0, quotes);
        return [];
      }
      CandidatesFacts(b0, notes);
      var picks := SelectNotes(notes, quotes, lastNow);
      SelectionRouted(b0, notes, quotes, lastNow, picks);
      RawFacts(b0, rawNotes, arrivals, lastNow, noteOf);
      items := ParkPicks(picks, lastNow);
      ParkAllStateOk(b0, rawNotes, arrivals, lastNow, noteOf, Handed(items));
    }

    /** Return every undelivered item to matching. */
    method UnparkItems(items: seq<RoutedNote>)
      requires engine.book.Valid()
      modifies engine.book`pairIndex, engine.book`activePairCount, engine.book`userAdjacency, engine.book`incomingAdjacency,
        engine.book`fifo, engine.book`parked
      ensures engine.book.View() == UnparkAll(old(engine.book.View()), Handed(items))
      ensures engine.book.Valid()
    {
      hide WellFormed;
      hide IndexOk;
      var book := engine.book;
      ghost var handed := Handed(items);
      assert handed[..0] == [];
      for k := 0 to |items|
        invariant book.Valid() && book.View() == UnparkAll(old(book.View()), handed[..k])
      {
        assert handed[..k + 1][..k] == handed[..k] && handed[..k + 1] == handed[..k] + [handed[k]];
        var _ := book.Unpark(items[k].noteId);
      }
      assert handed[..|items|] == handed;
    }

    /** One external pass: a delivered handover stays parked, an undelivered one is rolled back. */
    method ExternalPass(quotes: QuotesByPair, send: SendOutcome) returns (items: seq<RoutedNote>, closed: bool)
      requires Valid() && forall p :: p in quotes ==> Descending(quotes[p])
      modifies engine.book`pairIndex, engine.book`activePairCount, engine.book`userAdjacency, engine.book`incomingAdjacency,
        engine.book`fifo, engine.book`parked, engine.book`parkQueue
      ensures Routed(old(engine.book.View()), quotes, lastNow, items)
      ensures closed <==> items != [] && send.Closed?
      ensures engine.book.View() == AfterSend(old(engine.book.View()), items, lastNow, send)
      ensures Valid()
    {
      hide StateOk;
      hide WellFormed;
      hide IndexOk;
      hide Routed;
      hide ItemOk;
      hide Descending;
      var book := engine.book;
      ghost var b0 := book.View();
      NothingRouted(b0, quotes, lastNow);
      StateFacts(b0, rawNotes, arrivals, lastNow, noteOf);
      items := RouteExternal(quotes);
      SendFacts(b0, quotes, lastNow, items);
      if items == [] {
        return items, false;
      }
      match send {
        case Sent =>
          closed := false;
        case Full | Closed =>
          ghost var b1 := book.View();
          UnparkItems(items);
          UnparkAllStateOk(b1, rawNotes, arrivals, lastNow, noteOf, Handed(items));
          closed := send == Closed;
      }
    }

    /** The first half of a tick: advance the clamped clock, drain both event queues, wake overdue notes. */
    method OpenTick(input: TickInput) returns (ghost drained: Book)
      requires Valid() && forall k :: 0 <= k < |input.orders| ==> IngestOk(input.orders[k], noteOf)
      modifies this`rawNotes, this`arrivals, this`lastNow, engine.book
      ensures lastNow == Max(old(lastNow), input.wallMillis)
      ensures drained == Drained(old(engine.book.View()), input) && WellFormed(drained) && QueueOk(drained, lastNow)
      ensures engine.book.View() == Woken(drained, input, lastNow)
      ensures Valid()
    {
      hide StateOk;
      hide WellFormed;
      hide IndexOk;
      hide IngestOk;
      hide QueueOk;
      hide Reactivate;
      var book := engine.book;
      ClockStateOk(book.View(), rawNotes, arrivals, lastNow, Max(lastNow, input.wallMillis), noteOf);
      lastNow := Max(lastNow, input.wallMillis);
      DrainConsumed(input.consumed);
      DrainOrders(input.orders, input.wallUnix);
      drained := book.View();
      StateFacts(drained, rawNotes, arrivals, lastNow, noteOf);
      if input.router.Some? {
        ReactivateStateOk(book.View(), rawNotes, arrivals, lastNow, noteOf, input.router.value.inflightTtl);
        var _ := book.ReactivateParkedOlderThan(input.router.value.inflightTtl, lastNow);
      }
    }

    /**
     * One tick. Its stages are those of `Opens` and `Ends`: only matchable notes settle, what remains is routed to the
     * tightest quotes with nothing left out that fits, and only delivered notes stay with their DEX.
     */
    method Tick(input: TickInput) returns (o: TickOutput, ghost m: Moment)
      requires Valid() && InputOk(input, noteOf)
      modifies this`rawNotes, this`arrivals, this`lastNow, engine.book
      ensures m.now == lastNow == Max(old(lastNow), input.wallMillis) && m.before == old(engine.book.View()) && Opens(m, input)
      ensures WakesOnTime(m, input) && m.triangular == engine.triangularEnabled && Settled(input, o, m)
      ensures forall id :: id in m.start.orders ==> TermsOf(m.start.orders[id]) == noteOf(id)
      ensures o.stopped <==> o.batch.Some? && !input.execOpen
      ensures !o.stopped ==> Ends(m, input, o) && engine.book.View() == m.after && Valid()
      ensures !o.stopped ==> OrdersOk(engine.book.orders) && Publishes(engine.book.orders, engine.book.pairIndex, o.snapshot)
    {
      hide StateOk;
      hide WellFormed;
      hide QueueOk;
      hide IndexOk;
      hide IngestOk;
      hide Descending;
      hide Reports;
      hide EngineRun;
      hide BatchOf;
      hide FlowBounds;
      hide Settled;
      hide SupplyKept;
      hide QuotesOk;
      hide Publishes;
      hide WakesOnTime;
      hide Drained;
      hide Woken;
      hide TopLevel;
      hide AfterSend;
      hide Routed;
      var book := engine.book;
      ghost var before := book.View();
      InputFacts(input, noteOf);
      ghost var drained := OpenTick(input);
      ghost var start := book.View();
      StateFacts(start, rawNotes, arrivals, lastNow, noteOf);
      TermsFacts(start, rawNotes, arrivals, lastNow, noteOf);
      var stopped, batch;
      ghost var run, trace;
      stopped, batch, run, trace := InternalMatch(input.feed, input.execOpen, input.wallUnix);
      ghost var residual := book.View();
      if stopped {
        m := Moment(lastNow, before, drained, start, engine.triangularEnabled, run, trace, residual, residual);
        OpensOnTime(m, input);
        o := TickOutput(true, batch, [], false, map[]);
        NoItemsKept(input, o);
        SettledFacts(input, o, m);
        return;
      }
      StateFacts(residual, rawNotes, arrivals, lastNow, noteOf);
      var items, gone := [], false;
      if input.router.Some? {
        items, gone := ExternalPass(input.router.value.quotes, input.router.value.send);
      }
      assert OrdersOk(book.orders) by { OrdersFacts(book.View()); }
      var snapshot := book.SnapshotBestLevels();
      o := TickOutput(false, batch, items, gone, snapshot);
      m := Moment(lastNow, before, drained, start, engine.triangularEnabled, run, trace, residual, book.View());
      OpensOnTime(m, input);
      EndsKept(m, input, o);
      SettledFacts(input, o, m);
    }

    /**
     * The tick loop over any sequence of inputs, until the executor goes away; a router that has closed is not used
     * again.
     */
    method Run(inputs: seq<TickInput>) returns (outputs: seq<TickOutput>, ghost moments: seq<Moment>)
      requires Valid() && forall n :: 0 <= n < |inputs| ==> InputOk(inputs[n], noteOf)
      modifies this`rawNotes, this`arrivals, this`lastNow, engine.book
      ensures IsRun(inputs, outputs, moments) && (moments != [] ==> moments[0].before == old(engine.book.View()))
      ensures AllSettled(inputs, outputs, moments, engine.triangularEnabled)
      ensures forall n :: 0 <= n < |outputs| ==> WakesOnTime(moments[n], Effective(inputs, outputs, n))
      ensures |outputs| < |inputs| ==> outputs != [] && outputs[|outputs| - 1].stopped
      ensures outputs == [] || !outputs[|outputs| - 1].stopped ==> Valid()
    {
      hide StateOk;
      hide WellFormed;
      hide IndexOk;
      hide Opens;
      hide Ends;
      hide Publishes;
      hide InputOk;
      hide WakesOnTime;
      hide Settled;
      hide AllSettled;
      hide IsRun;
      outputs, moments := [], [];
      var routed := true;
      NoTicks(inputs, engine.triangularEnabled);
      ghost var view, clock := engine.book.View(), lastNow;
      for n := 0 to |inputs|
        invariant |outputs| == |moments| == n && Valid() && IsRun(inputs, outputs, moments)
        invariant view == engine.book.View() && clock == lastNow
        invariant if n == 0 then view == old(engine.book.View()) else moments[0].before == old(engine.book.View())
        invariant n > 0 ==> !outputs[n - 1].stopped && moments[n - 1].after == view && moments[n - 1].now == clock
        invariant routed <==> !Gone(outputs, n)
        invariant AllSettled(inputs, outputs, moments, engine.triangularEnabled)
      {
        var input := if routed then inputs[n] else inputs[n].(router := None);
        InputFacts(inputs[n], noteOf);
        var o;
        ghost var m;
        o, m := Tick(input);
        assert input == Effective(inputs, outputs, n);
        OneMoreTick(inputs, outputs, moments, o, m);
        OneMoreSettled(inputs, outputs, moments, input, o, m);
        outputs, moments := outputs + [o], moments + [m];
        view, clock := engine.book.View(), lastNow;
        if o.stopped {
          AllOnTime(inputs, outputs, moments);
          return;
        }
        if o.routerGone {
          routed := false;
        }
      }
      AllOnTime(inputs, outputs, moments);
    }
  }

  /**
   * A tick hands over exactly what its engine run filled, and nothing if and only if nothing could be executed: certainly
   * something if any two matchable orders cross; the
   * executor accepts the batch whenever no executed cycle falls short; and no DEX is asked for more than its supply.
   */
  ghost predicate Settled(input: TickInput, o: TickOutput, m: Moment)
  {
    && SupplyKept(input, o) && WellFormed(m.start) && (o.batch.None? <==> Idle(m.start, input.feed, m.triangular))
    && (o.batch.None? ==> m.run.filled == {} && forall x, y :: !CanTrade(m.start, input.feed, x, y))
    && (o.batch.Some? ==>
          && BatchOf(o.batch.value, m.run.book.orders, m.run.filled) && m.run.filled != {}
          && FlowBounds(o.batch.value, m.start, input.feed, m.trace) && Safe(o.batch.value, m.start, input.feed, m.trace))
  }

  lemma AllOnTime(inputs: seq<TickInput>, outputs: seq<TickOutput>, moments: seq<Moment>)
    requires IsRun(inputs, outputs, moments)
    ensures forall n :: 0 <= n < |outputs| ==> WakesOnTime(moments[n], Effective(inputs, outputs, n))
  {
    hide Opens;
    hide Ends;
    hide WakesOnTime;
    hide Effective;
    forall n | 0 <= n < |outputs|
      ensures WakesOnTime(moments[n], Effective(inputs, outputs, n))
    {
      RunWakesOnTime(inputs, outputs, moments, n);
    }
  }

  lemma SettledFacts(input: TickInput, o: TickOutput, m: Moment)
    requires EngineRun(m.start, input.feed, m.triangular, m.run, m.trace) && (o.batch.None? <==> m.run.filled == {})
    requires SupplyKept(input, o) && AllWhole(m.start.orders)
    requires o.batch.Some? ==>
      BatchOf(o.batch.value, m.run.book.orders, m.run.filled) && FlowBounds(o.batch.value, m.start, input.feed, m.trace)
    ensures Settled(input, o, m)
  {
    IdleIff(m.start, input.feed, m.triangular, m.run, m.trace);
    if o.batch.None? {
      IdleNoTrade(m.start, input.feed, m.triangular);
    }
    hide CanTrade;
    hide CycleRun;
    hide Exhausted;
    hide Idle;
    hide WellFormed;
    hide BatchOf;
    hide FlowBounds;
    hide Safe;
    if o.batch.Some? {
      BoundedIsSafe(o.batch.value, m.start, input.feed, m.trace);
    }
  }

  /** Every tick of a run settled, under one setting of the triangle switch. */
  ghost predicate AllSettled(inputs: seq<TickInput>, outputs: seq<TickOutput>, moments: seq<Moment>, triangular: bool)
  {
    && |outputs| == |moments| <= |inputs|
    && forall n :: 0 <= n < |outputs| ==> moments[n].triangular == triangular && Settled(inputs[n], outputs[n], moments[n])
  }

  /** Of its input, the settlement of a tick depends on the prices only. */
  lemma OneMoreSettled(inputs: seq<TickInput>, outputs: seq<TickOutput>, moments: seq<Moment>, input: TickInput,
      o: TickOutput, m: Moment)
    requires AllSettled(inputs, outputs, moments, m.triangular) && |outputs| < |inputs|
    requires Settled(input, o, m) && (input == inputs[|outputs|] || input == inputs[|outputs|].(router := None))
    ensures AllSettled(inputs, outputs + [o], moments + [m], m.triangular)
  {
    hide BatchOf;
    hide FlowBounds;
    hide Safe;
    hide Idle;
    hide CanTrade;
    hide WellFormed;
    if input != inputs[|outputs|] {
      NoItemsKept(inputs[|outputs|], o);
    }
    assert Settled(inputs[|outputs|], o, m);
    hide Settled;
  }

  lemma NoTicks(inputs: seq<TickInput>, triangular: bool)
    ensures IsRun(inputs, [], []) && !Gone([], 0) && AllSettled(inputs, [], [], triangular)
  {}

  /** A run goes on with a tick on the input its router state calls for. */
  lemma OneMoreTick(inputs: seq<TickInput>, outputs: seq<TickOutput>, moments: seq<Moment>, o: TickOutput, m: Moment)
    requires IsRun(inputs, outputs, moments) && |outputs| < |inputs|
    requires var input := Effective(inputs, outputs, |outputs|); Opens(m, input) && (!o.stopped ==> Ends(m, input, o))
    requires var n := |outputs|; n > 0 ==>
      !outputs[n - 1].stopped && m.before == moments[n - 1].after && moments[n - 1].now <= m.now
    ensures IsRun(inputs, outputs + [o], moments + [m])
    ensures Gone(outputs + [o], |outputs| + 1) <==> Gone(outputs, |outputs|) || o.routerGone
    ensures forall k: nat :: k <= |outputs| ==> Effective(inputs, outputs + [o], k) == Effective(inputs, outputs, k)
  {
    hide Opens;
    hide Ends;
    var n, outputs', moments' := |outputs|, outputs + [o], moments + [m];
    forall k: nat | k <= n
      ensures Effective(inputs, outputs', k) == Effective(inputs, outputs, k)
    {
      GoneBefore(outputs, o, k);
    }
    GoneBefore(outputs, o, n);
    hide Effective;
    hide Gone;
    forall k | 0 <= k < n + 1
      ensures Opens(moments'[k], Effective(inputs, outputs', k))
      ensures !outputs'[k].stopped ==> Ends(moments'[k], Effective(inputs, outputs', k), outputs'[k])
    {
      if k < n {
        assert moments'[k] == moments[k] && outputs'[k] == outputs[k];
      }
    }
    forall k | 0 <= k < n
      ensures !outputs'[k].stopped && Follow(moments', k)
    {
      if k < n - 1 {
        assert Follow(moments, k);
      }
    }
  }

  lemma GoneBefore(outputs: seq<TickOutput>, o: TickOutput, k: nat)
    requires k <= |outputs|
    ensures Gone(outputs + [o], k) <==> Gone(outputs, k)
    ensures k == |outputs| ==> (Gone(outputs + [o], k + 1) <==> Gone(outputs, k) || o.routerGone)
  {
    var outputs' := outputs + [o];
    assert forall i :: 0 <= i < |outputs| ==> outputs'[i] == outputs[i];
    assert outputs'[|outputs|] == o;
  }

  lemma OrdersFacts(b: Book)
    ensures WellFormed(b) ==> OrdersOk(b.orders)
  {}

  lemma RawFacts(b: Book, raw: RawNotes, arrivals: Arrivals, now: Amount, noteOf: NoteOf)
    requires StateOk(b, raw, arrivals, now, noteOf)
    ensures forall id :: id in b.orders ==> id in raw
  {}

  lemma StateFacts(b: Book, raw: RawNotes, arrivals: Arrivals, now: Amount, noteOf: NoteOf)
    requires StateOk(b, raw, arrivals, now, noteOf)
    ensures WellFormed(b) && AllWhole(b.orders) && b.balances == map[] && QueueOk(b, now)
  {}

  lemma TermsFacts(b: Book, raw: RawNotes, arrivals: Arrivals, now: Amount, noteOf: NoteOf)
    requires StateOk(b, raw, arrivals, now, noteOf)
    ensures forall id :: id in b.orders ==> TermsOf(b.orders[id]) == noteOf(id)
  {}

  lemma RemovedView(b: Book, id: OrderId)
    requires id !in b.parked
    ensures B.RemoveOrder(b, id) == b.(orders := b.orders - {id}, fifo := B.RemoveOrder(b, id).fifo)
  {
    assert id !in b.orders ==> b.orders - {id} == b.orders;
  }
}
