/** What a tick does, stage by stage, and what holds over any run of ticks. */
module Ticks {
  import opened Types
  import opened RateIndex
  import opened B = Book
  import opened OrderBook
  import opened Direct
  import opened Ledger
  import opened CycleRuns
  import opened Engine
  import opened Parking
  import opened Executor
  import opened Select
  import opened RouterServer
  import opened Routing

  datatype RouterHooks = RouterHooks(inflightTtl: Amount, quotes: QuotesByPair, send: SendOutcome)

  /** What the outside world gives one tick: clocks, drained events, prices, and the state of its channels. */
  datatype TickInput = TickInput(
    wallMillis: Amount, wallUnix: Amount, consumed: seq<OrderId>, orders: seq<IngestOrder>, feed: Feed, execOpen: bool,
    router: Option<RouterHooks>)

  datatype TickOutput = TickOutput(
    stopped: bool, batch: Option<seq<FilledNote>>, items: seq<RoutedNote>, routerGone: bool, snapshot: map<Pair, BestLevel>)

  /**
   * The book at the stages of a tick: before it, with events applied, with woken notes, after the engine's run and the
   * cycles of its `trace`, after settlement, after routing.
   */
  datatype Moment = Moment(
    now: Amount, before: Book, drained: Book, start: Book, triangular: bool, run: Run, trace: Trace, residual: Book, after: Book)

  // ---------------------------------------------------------------------------
  // Stages
  // ---------------------------------------------------------------------------

  ghost function RemoveAll(b: Book, ids: seq<OrderId>): Book
  {
    if ids == [] then b else B.RemoveOrder(RemoveAll(b, ids[..|ids| - 1]), ids[|ids| - 1])
  }

  ghost function AddAll(b: Book, orders: seq<IngestOrder>): Book
  {
    if orders == [] then b
    else
      var o := orders[|orders| - 1];
      AddOrder(AddAll(b, orders[..|orders| - 1]), o.noteId, o.offeredToken, o.requestedToken, o.offeredAmount, o.requestedAmount)
  }

  ghost function Drained(b: Book, input: TickInput): Book { AddAll(RemoveAll(b, input.consumed), input.orders) }

  ghost function Woken(b: Book, input: TickInput, now: Amount): Book
  {
    if input.router.Some? then Reactivate(b, input.router.value.inflightTtl, now).0 else b
  }

  /** Events are applied in order, then parked notes are woken, then the engine runs on whole orders. */
  ghost predicate Opens(m: Moment, input: TickInput)
  {
    && m.drained == Drained(m.before, input) && WellFormed(m.drained) && QueueOk(m.drained, m.now)
    && m.start == Woken(m.drained, input, m.now) && WellFormed(m.start) && AllWhole(m.start.orders)
    && EngineRun(m.start, input.feed, m.triangular, m.run, m.trace)
    && Reports(m.start, {}, m.run) && forall id :: id in m.run.filled ==> id in m.start.fifo
  }

  /** Settled orders leave the book, what remains is routed, and the handover is delivered or rolled back. */
  ghost predicate Ends(m: Moment, input: TickInput, o: TickOutput)
  {
    && WellFormed(m.residual) && m.residual.orders == m.start.orders - m.run.filled
    && m.residual.parked == m.start.parked && m.residual.parkQueue == m.start.parkQueue
    && match input.router
       case None => o.items == [] && !o.routerGone && m.after == m.residual
       case Some(r) =>
         && Routed(m.residual, r.quotes, m.now, o.items) && m.after == AfterSend(m.residual, o.items, m.now, r.send)
         && (o.routerGone <==> o.items != [] && r.send.Closed?)
  }

  /** No DEX is asked for more than the supply it quoted. */
  ghost predicate SupplyKept(input: TickInput, o: TickOutput)
  {
    match input.router
    case None => o.items == []
    case Some(r) => forall p, i :: p in r.quotes && 0 <= i < |r.quotes[p]| ==>
      Load(o.items, r.quotes[p][i].dex, p) <= r.quotes[p][i].supply
  }

  // ---------------------------------------------------------------------------
  // One tick
  // ---------------------------------------------------------------------------

  lemma NoItemsKept(input: TickInput, o: TickOutput)
    requires o.items == []
    ensures SupplyKept(input, o)
  {}

  lemma EndsKept(m: Moment, input: TickInput, o: TickOutput)
    requires Ends(m, input, o) && (input.router.Some? ==> QuotesOk(input.router.value.quotes))
    ensures SupplyKept(input, o)
  {
    hide Descending;
    hide DistinctDexes;
    hide Load;
  }

  /** A routed note was not settled in the same tick and was not with a DEX already. */
  lemma RoutedWereFree(m: Moment, input: TickInput, o: TickOutput, k: nat)
    requires Ends(m, input, o) && k < |o.items|
    ensures o.items[k].noteId !in m.run.filled && o.items[k].noteId !in m.start.parked
  {}

  /** No settled note was with a DEX. */
  lemma SettledWereFree(m: Moment, input: TickInput, id: OrderId)
    requires Opens(m, input) && id in m.run.filled
    ensures id !in m.start.parked
  {}

  /** Exactly the delivered notes join the parked ones, each with its DEX and the time of the tick. */
  lemma ParkedAfter(m: Moment, input: TickInput, o: TickOutput, id: OrderId)
    requires Ends(m, input, o)
    ensures id in m.after.parked <==>
      (id in m.start.parked
      || (input.router.Some? && input.router.value.send.Sent? && exists k :: 0 <= k < |o.items| && o.items[k].noteId == id))
    ensures id in m.start.parked ==> m.after.parked[id] == m.start.parked[id]
    ensures id in m.after.parked && id !in m.start.parked ==>
      && m.after.parked[id].at == m.now
      && exists k :: 0 <= k < |o.items| && o.items[k].noteId == id && o.items[k].dex == m.after.parked[id].dex
  {
    if input.router.Some? {
      var r := input.router.value;
      assert Routable(m.residual, Handed(o.items));
      assert forall k :: 0 <= k < |o.items| ==> Handed(o.items)[k].0 in m.residual.fifo;
      assert forall k :: 0 <= k < |o.items| ==> o.items[k].noteId !in m.residual.parked;
      hide Routed;
      hide WellFormed;
      hide AfterSend;
      SentParked(m.residual, o.items, m.now, r.send, id);
    }
  }

  /**
   * With a router, every note that stays parked still has time to live; and without older tickets exactly the notes that
   * have time to live stay parked.
   */
  ghost predicate WakesOnTime(m: Moment, input: TickInput)
  {
    input.router.Some? ==>
      var ttl := input.router.value.inflightTtl;
      && (forall id :: id in m.start.parked ==> m.now < m.start.parked[id].at + ttl && m.now < MAX_U64)
      && (NoOlderTicket(m.drained) ==> forall id ::
           id in m.start.parked <==> id in m.drained.parked && m.now < m.drained.parked[id].at + ttl && m.now < MAX_U64)
  }

  lemma OpensOnTime(m: Moment, input: TickInput)
    requires Opens(m, input)
    ensures WakesOnTime(m, input)
  {
    hide EngineRun;
    hide Reactivate;
    hide QueueOk;
    hide WellFormed;
    hide Reports;
    hide Drained;
    hide NoOlderTicket;
    if input.router.Some? {
      var ttl := input.router.value.inflightTtl;
      assert m.start == Reactivate(m.drained, ttl, m.now).0;
      WokenOnTime(m.drained, ttl, m.now);
    }
  }

  lemma {:induction false} DrainedParked(b: Book, ids: seq<OrderId>, orders: seq<IngestOrder>)
    ensures RemoveAll(b, ids).parkQueue == b.parkQueue && AddAll(b, orders).parkQueue == b.parkQueue
    ensures forall id :: id in RemoveAll(b, ids).parked ==> id in b.parked && RemoveAll(b, ids).parked[id] == b.parked[id]
    ensures forall id :: id in AddAll(b, orders).parked ==> id in b.parked && AddAll(b, orders).parked[id] == b.parked[id]
    decreases |ids| + |orders|
  {
    if ids != [] {
      DrainedParked(b, ids[..|ids| - 1], orders);
    } else if orders != [] {
      DrainedParked(b, ids, orders[..|orders| - 1]);
    }
  }

  /** No routed note is parked again while an older ticket of its own survives. */
  ghost predicate NoRepark(m: Moment, input: TickInput, o: TickOutput)
  {
    input.router.Some? && input.router.value.send.Sent? ==> NoOldTicketOf(m.residual, Ids(Handed(o.items)), m.now)
  }

  lemma OpeningNoOlder(m: Moment, input: TickInput)
    requires Opens(m, input) && NoOlderTicket(m.before)
    ensures NoOlderTicket(m.drained) && NoOlderTicket(m.start)
  {
    var removed := RemoveAll(m.before, input.consumed);
    DrainedParked(m.before, input.consumed, []);
    DrainedParked(removed, [], input.orders);
    NoOlderShrinks(m.before, removed);
    NoOlderShrinks(removed, m.drained);
    if input.router.Some? {
      NoOlderReactivate(m.drained, input.router.value.inflightTtl, m.now);
    }
  }

  /** A tick leaves no older ticket behind if and only if it parks no note again too early. */
  lemma TickNoOlder(m: Moment, input: TickInput, o: TickOutput)
    requires Opens(m, input) && Ends(m, input, o) && NoOlderTicket(m.before)
    ensures NoOlderTicket(m.after) <==> NoRepark(m, input, o)
  {
    OpeningNoOlder(m, input);
    hide Opens;
    NoOlderShrinks(m.start, m.residual);
    if input.router.Some? {
      var r := input.router.value;
      SendFacts(m.residual, r.quotes, m.now, o.items);
      if r.send.Sent? {
        ParkBatchNoOlder(m.residual, Handed(o.items), m.now);
      } else {
        RollbackNoOlder(m.residual, r.quotes, m.now, o.items, r.send);
      }
    }
  }

  lemma RollbackNoOlder(b: Book, quotes: QuotesByPair, now: Amount, items: seq<RoutedNote>, send: SendOutcome)
    requires WellFormed(b) && Routed(b, quotes, now, items) && NoOlderTicket(b) && !send.Sent?
    ensures NoOlderTicket(AfterSend(b, items, now, send))
  {
    var handed := Handed(items);
    assert forall i :: 0 <= i < |handed| ==> handed[i].0 in b.fifo;
    assert forall i :: 0 <= i < |handed| ==> handed[i].0 !in b.parked;
    hide Routed;
    hide WellFormed;
    hide WithoutAll;
    TicketsOfFree(b, AfterSend(b, items, now, send), handed, now);
  }

  /** Tickets of notes that are not parked do no harm. */
  lemma TicketsOfFree(b: Book, b': Book, handed: seq<(OrderId, DexId)>, now: Amount)
    requires NoOlderTicket(b) && b'.parked == b.parked && b'.parkQueue == b.parkQueue + Tickets(handed, now)
    requires forall i :: 0 <= i < |handed| ==> handed[i].0 !in b.parked
    ensures NoOlderTicket(b')
  {
    var n := |b.parkQueue|;
    assert forall k :: 0 <= k < n ==> b'.parkQueue[k] == b.parkQueue[k];
    assert forall k :: n <= k < |b'.parkQueue| ==> b'.parkQueue[k] == Tickets(handed, now)[k - n] == Ticket(now, handed[k - n].0);
  }

  // ---------------------------------------------------------------------------
  // Whole runs
  // ---------------------------------------------------------------------------

  ghost predicate Gone(outputs: seq<TickOutput>,
      n: nat) { exists i :: 0 <= i < n && i < |outputs| && outputs[i].routerGone }

  /** The input tick `n` really uses: once the router channel has closed, there is no router any more. */
  ghost function Effective(inputs: seq<TickInput>, outputs: seq<TickOutput>, n: nat): TickInput
    requires n < |inputs|
  {
    if Gone(outputs, n) then inputs[n].(router := None) else inputs[n]
  }

  /** A run of ticks, until the executor goes away; every tick starts from the book the last one left. */
  ghost predicate IsRun(inputs: seq<TickInput>, outputs: seq<TickOutput>, moments: seq<Moment>)
  {
    && |outputs| == |moments| <= |inputs|
    && (forall n :: 0 <= n < |outputs| ==> Opens(moments[n], Effective(inputs, outputs, n)))
    && (forall n :: 0 <= n < |outputs| && !outputs[n].stopped ==> Ends(moments[n], Effective(inputs, outputs, n), outputs[n]))
    && (forall n :: 0 <= n < |outputs| - 1 ==> !outputs[n].stopped && Follow(moments, n))
  }

  ghost predicate Follow(moments: seq<Moment>, n: nat)
    requires n + 1 < |moments|
  {
    moments[n + 1].before == moments[n].after && moments[n].now <= moments[n + 1].now
  }

  /** What a run says about its tick `n`. */
  lemma TickAt(inputs: seq<TickInput>, outputs: seq<TickOutput>, moments: seq<Moment>, n: nat)
    requires IsRun(inputs, outputs, moments) && n < |outputs|
    ensures Opens(moments[n], Effective(inputs, outputs, n))
    ensures !outputs[n].stopped ==> Ends(moments[n], Effective(inputs, outputs, n), outputs[n])
    ensures n + 1 < |outputs| ==> !outputs[n].stopped && moments[n + 1].before == moments[n].after
    ensures Effective(inputs, outputs, n).consumed == inputs[n].consumed && Effective(inputs, outputs, n).orders == inputs[n].orders
  {
    hide Opens;
    hide Ends;
  }

  ghost predicate Ingested(input: TickInput, id: OrderId)
  {
    exists k :: 0 <= k < |input.orders| && input.orders[k].noteId == id
  }

  lemma {:induction false} RemoveAllOrders(b: Book, ids: seq<OrderId>)
    ensures RemoveAll(b, ids).orders.Keys <= b.orders.Keys
  {
    if ids != [] {
      RemoveAllOrders(b, ids[..|ids| - 1]);
    }
  }

  lemma {:induction false} AddAllOrders(b: Book, orders: seq<IngestOrder>, id: OrderId)
    requires id in AddAll(b, orders).orders && id !in b.orders
    ensures exists k :: 0 <= k < |orders| && orders[k].noteId == id
  {
    var last := |orders| - 1;
    if orders[last].noteId != id {
      AddAllOrders(b, orders[..last], id);
    }
  }

  lemma {:induction false} ReactivateOrders(b: Book, ttl: Amount, time: Amount)
    ensures Reactivate(b, ttl, time).0.orders == b.orders
    decreases |b.parkQueue|
  {
    if b.parkQueue != [] && Expired(b.parkQueue[0].at, ttl, time) {
      ReactivateOrders(B.Unpark(b.(parkQueue := b.parkQueue[1..]), b.parkQueue[0].id), ttl, time);
    }
  }

  /** After the consumed events, exactly the other orders are left, as they were. */
  lemma {:induction false} RemovedExactly(b: Book, ids: seq<OrderId>, id: OrderId)
    requires b.parked.Keys <= b.orders.Keys
    ensures var b' := RemoveAll(b, ids);
      && b'.parked.Keys <= b'.orders.Keys
      && (id in b'.orders <==> id in b.orders && id !in ids) && (id in b'.parked <==> id in b.parked && id !in ids)
      && (id in b'.orders ==> b'.orders[id] == b.orders[id])
  {
    if ids != [] {
      var init := ids[..|ids| - 1];
      assert ids == init + [ids[|ids| - 1]];
      RemovedExactly(b, init, id);
    }
  }

  /** The order that one ingest event asks for. */
  ghost predicate Whole(o: Order, e: IngestOrder)
  {
    && o.id == e.noteId && o.offeredToken == e.offeredToken && o.requestedToken == e.requestedToken
    && o.offered == e.offeredAmount && o.requested == e.requestedAmount && o.requestedRemaining == e.requestedAmount
  }

  /** After the order events, exactly the ingested orders have joined, whole; only a parked one is replaced. */
  lemma {:induction false} AddedExactly(b: Book, orders: seq<IngestOrder>, id: OrderId)
    ensures var b' := AddAll(b, orders); var named := exists k :: 0 <= k < |orders| && orders[k].noteId == id;
      && (id in b'.orders <==> id in b.orders || named) && (id in b'.parked <==> id in b.parked && !named)
      && (id in b'.orders && (!named || (id in b.orders && id !in b.parked)) ==> b'.orders[id] == b.orders[id])
      && (named && !(id in b.orders && id !in b.parked) ==>
            exists k :: 0 <= k < |orders| && orders[k].noteId == id && Whole(b'.orders[id], orders[k]))
  {
    if orders != [] {
      var n := |orders| - 1;
      var init, last := orders[..n], orders[n];
      assert forall k :: 0 <= k < n ==> init[k] == orders[k];
      AddedExactly(b, init, id);
      if last.noteId == id && !(id in AddAll(b, init).orders && id !in AddAll(b, init).parked) {
        assert Whole(AddAll(b, orders).orders[id], orders[n]);
      }
    }
  }

  /**
   * What the events of a tick leave in the book: every order that was not consumed and every ingested one, and with a DEX
   * every parked note that was neither.
   */
  lemma DrainedExactly(b: Book, input: TickInput, id: OrderId)
    requires WellFormed(b)
    ensures var b' := Drained(b, input);
      && (id in b'.orders <==> (id in b.orders && id !in input.consumed) || Ingested(input, id))
      && (id in b'.parked <==> id in b.parked && !Recalled(input, id))
      && (id in b.orders && !Recalled(input, id) ==> b'.orders[id] == b.orders[id])
      && (Ingested(input, id) && (id !in b.orders || id in input.consumed) ==>
            exists k :: 0 <= k < |input.orders| && input.orders[k].noteId == id && Whole(b'.orders[id], input.orders[k]))
  {
    RemovedExactly(b, input.consumed, id);
    AddedExactly(RemoveAll(b, input.consumed), input.orders, id);
    hide RemoveAll;
    hide AddAll;
  }

  /** A tick starts with orders of the tick before and freshly ingested ones only. */
  lemma OpeningOrders(m: Moment, input: TickInput, id: OrderId)
    requires Opens(m, input) && id in m.start.orders && id !in m.before.orders
    ensures Ingested(input, id)
  {
    var removed := RemoveAll(m.before, input.consumed);
    RemoveAllOrders(m.before, input.consumed);
    if input.router.Some? {
      ReactivateOrders(m.drained, input.router.value.inflightTtl, m.now);
    }
    AddAllOrders(removed, input.orders, id);
  }

  /** An order of the book after a tick was in it at the start and did not settle. */
  lemma AfterOrders(m: Moment, input: TickInput, o: TickOutput, id: OrderId)
    requires Ends(m, input, o) && id in m.after.orders
    ensures id in m.start.orders && id !in m.run.filled
  {}

  /** A settled note comes back into the book only by being ingested again. */
  lemma {:induction false} SettledComesBack(inputs: seq<TickInput>, outputs: seq<TickOutput>, moments: seq<Moment>,
      i: nat, j: nat, id: OrderId)
    requires IsRun(inputs, outputs, moments) && i < j < |outputs| && id in moments[i].run.filled && id in moments[j].start.orders
    ensures exists k :: i < k <= j && Ingested(inputs[k], id)
    decreases j
  {
    hide Opens;
    hide Ends;
    hide Effective;
    TickAt(inputs, outputs, moments, j - 1);
    TickAt(inputs, outputs, moments, j);
    hide IsRun;
    if id in moments[j].before.orders {
      AfterOrders(moments[j - 1], Effective(inputs, outputs, j - 1), outputs[j - 1], id);
      SettledComesBack(inputs, outputs, moments, i, j - 1, id);
    } else {
      OpeningOrders(moments[j], Effective(inputs, outputs, j), id);
      assert Ingested(inputs[j], id);
    }
  }

  /** Over any run, a note settles again only if it was ingested again in between. */
  lemma SettlesAfresh(inputs: seq<TickInput>, outputs: seq<TickOutput>, moments: seq<Moment>, i: nat, j: nat,
      id: OrderId)
    requires IsRun(inputs, outputs, moments) && i < j < |outputs| && id in moments[i].run.filled && id in moments[j].run.filled
    ensures exists k :: i < k <= j && Ingested(inputs[k], id)
  {
    TickAt(inputs, outputs, moments, j);
    hide IsRun;
    assert id in moments[j].start.orders;
    SettledComesBack(inputs, outputs, moments, i, j, id);
  }

  /** Tick `n` parks no note again while an older ticket of it survives. */
  ghost predicate NoReparkAt(inputs: seq<TickInput>, outputs: seq<TickOutput>, moments: seq<Moment>, n: nat)
    requires n < |outputs| == |moments| <= |inputs|
  {
    NoRepark(moments[n], Effective(inputs, outputs, n), outputs[n])
  }

  /**
   * Starting without an older ticket, the run stays without one exactly as long as no note is parked again too early.
   */
  lemma {:induction false} RunNoOlder(inputs: seq<TickInput>, outputs: seq<TickOutput>, moments: seq<Moment>, n: nat)
    requires IsRun(inputs, outputs, moments) && n < |outputs| && NoOlderTicket(moments[0].before)
    ensures (forall i :: 0 <= i < n ==> NoOlderTicket(moments[i].after))
      <==> (forall i :: 0 <= i < n ==> NoReparkAt(inputs, outputs, moments, i))
    decreases n
  {
    hide Opens;
    hide Ends;
    hide Effective;
    hide NoOlderTicket;
    hide NoRepark;
    if n > 0 {
      RunNoOlder(inputs, outputs, moments, n - 1);
      TickAt(inputs, outputs, moments, n - 1);
      if n > 1 {
        TickAt(inputs, outputs, moments, n - 2);
      }
      hide IsRun;
      if forall i :: 0 <= i < n - 1 ==> NoOlderTicket(moments[i].after) {
        assert n > 1 ==> NoOlderTicket(moments[n - 2].after);
        TickNoOlder(moments[n - 1], Effective(inputs, outputs, n - 1), outputs[n - 1]);
      }
      assert NoOlderTicket(moments[n - 1].after) || !NoOlderTicket(moments[n - 1].after);
      assert NoReparkAt(inputs, outputs, moments, n - 1) || !NoReparkAt(inputs, outputs, moments, n - 1);
    }
  }

  /** No tick before `n` parked a note again too early. */
  ghost predicate NoReparkBefore(inputs: seq<TickInput>, outputs: seq<TickOutput>, moments: seq<Moment>, n: nat)
    requires n < |outputs| == |moments| <= |inputs|
  {
    forall i :: 0 <= i < n ==> NoReparkAt(inputs, outputs, moments, i)
  }

  /**
   * Over any run, every tick that still has its router leaves no overdue note parked; and if no note was parked again too
   * early before, it wakes exactly the overdue ones.
   */
  lemma RunWakesOnTime(inputs: seq<TickInput>, outputs: seq<TickOutput>, moments: seq<Moment>, n: nat)
    requires IsRun(inputs, outputs, moments) && n < |outputs|
    ensures WakesOnTime(moments[n], Effective(inputs, outputs, n))
    ensures NoOlderTicket(moments[0].before) && NoReparkBefore(inputs, outputs, moments, n) ==> NoOlderTicket(moments[n].drained)
  {
    hide Opens;
    hide Ends;
    hide Effective;
    hide NoReparkAt;
    hide NoOlderTicket;
    hide WakesOnTime;
    TickAt(inputs, outputs, moments, n);
    OpensOnTime(moments[n], Effective(inputs, outputs, n));
    if NoOlderTicket(moments[0].before) && NoReparkBefore(inputs, outputs, moments, n) {
      RunNoOlder(inputs, outputs, moments, n);
      if n > 0 {
        TickAt(inputs, outputs, moments, n - 1);
        assert NoOlderTicket(moments[n - 1].after);
      }
      hide IsRun;
      OpeningNoOlder(moments[n], Effective(inputs, outputs, n));
    }
  }

  /** What takes a note back from a DEX when nobody wakes it. */
  ghost predicate Recalled(input: TickInput, id: OrderId) { id in input.consumed || Ingested(input, id) }

  lemma {:induction false} RemoveAllKeeps(b: Book, ids: seq<OrderId>, id: OrderId)
    requires id in b.parked && id !in ids
    ensures id in RemoveAll(b, ids).parked
  {
    if ids != [] {
      RemoveAllKeeps(b, ids[..|ids| - 1], id);
    }
  }

  lemma {:induction false} AddAllKeeps(b: Book, orders: seq<IngestOrder>, id: OrderId)
    requires id in b.parked && forall k :: 0 <= k < |orders| ==> orders[k].noteId != id
    ensures id in AddAll(b, orders).parked
  {
    if orders != [] {
      AddAllKeeps(b, orders[..|orders| - 1], id);
    }
  }

  lemma ParkedStays(m: Moment, input: TickInput, o: TickOutput, id: OrderId)
    requires Opens(m, input) && Ends(m, input, o) && input.router.None? && id in m.before.parked && !Recalled(input, id)
    ensures id in m.after.parked && o.items == []
  {
    RemoveAllKeeps(m.before, input.consumed, id);
    AddAllKeeps(RemoveAll(m.before, input.consumed), input.orders, id);
  }

  lemma NoRouterAfter(inputs: seq<TickInput>, outputs: seq<TickOutput>, i: nat, n: nat, id: OrderId)
    requires i < n < |inputs| && i < |outputs| && outputs[i].routerGone
    ensures Effective(inputs, outputs, n).router.None?
    ensures Recalled(Effective(inputs, outputs, n), id) <==> Recalled(inputs[n], id)
  {}

  /**
   * Once the router is gone, nothing is routed and nothing is woken any more: a parked note stays until it is consumed or
   * ingested again.
   */
  lemma {:induction false} StrandedByRouter(inputs: seq<TickInput>, outputs: seq<TickOutput>, moments: seq<Moment>,
      i: nat, j: nat, id: OrderId)
    requires IsRun(inputs, outputs, moments) && i < j < |outputs| && outputs[i].routerGone && !outputs[j].stopped
    requires id in moments[i].after.parked && forall k :: i < k <= j ==> !Recalled(inputs[k], id)
    ensures id in moments[j].after.parked && outputs[j].items == []
    decreases j
  {
    hide Opens;
    hide Ends;
    hide Effective;
    hide Recalled;
    TickAt(inputs, outputs, moments, j - 1);
    TickAt(inputs, outputs, moments, j);
    hide IsRun;
    if i < j - 1 {
      StrandedByRouter(inputs, outputs, moments, i, j - 1, id);
    }
    NoRouterAfter(inputs, outputs, i, j, id);
    ParkedStays(moments[j], Effective(inputs, outputs, j), outputs[j], id);
  }
}
