/** The stages as steps of the interleaved system: an ingest iteration and a matcher tick are paths of `Lifecycle`. */
module Refinement {
  import opened Types
  import opened RateIndex
  import opened B = Book
  import opened Direct
  import opened Executor
  import opened Database
  import opened Ingest
  import opened Settlement
  import opened Engine
  import opened Parking
  import opened Routing
  import opened Ticks
  import M = Matcher
  import L = Lifecycle

  // ---------------------------------------------------------------------------
  // Paths
  // ---------------------------------------------------------------------------

  /** The steps lead from `s` to `s'`. */
  ghost predicate Leads(s: L.State, steps: seq<L.Step>, s': L.State)
  {
    exists trace: seq<L.State> :: L.IsPath(s, steps, trace) && trace[|steps|] == s'
  }

  lemma LeadsNowhere(s: L.State)
    ensures Leads(s, [], s)
  {
    assert L.IsPath(s, [], [s]);
  }

  lemma LeadsOn(s: L.State, steps: seq<L.Step>, s': L.State, step: L.Step)
    requires Leads(s, steps, s') && L.Enabled(s', step)
    ensures Leads(s, steps + [step], L.Apply(s', step))
  {
    hide L.Enabled;
    hide L.Apply;
    var trace: seq<L.State> :| L.IsPath(s, steps, trace) && trace[|steps|] == s';
    var steps', trace' := steps + [step], trace + [L.Apply(s', step)];
    forall i | 0 <= i < |steps'|
      ensures L.Enabled(trace'[i], steps'[i]) && trace'[i + 1] == L.Apply(trace'[i], steps'[i])
    {
      if i < |steps| {
        assert trace'[i] == trace[i] && trace'[i + 1] == trace[i + 1] && steps'[i] == steps[i];
      }
    }
    assert L.IsPath(s, steps', trace');
  }

  ghost function Repeat(step: L.Step, n: nat): seq<L.Step> { if n == 0 then [] else Repeat(step, n - 1) + [step] }

  lemma RepeatNothing(steps: seq<L.Step>, step: L.Step)
    ensures steps + Repeat(step, 0) == steps
  {}

  /** One more of the same step. */
  lemma LeadsAgain(s: L.State, steps: seq<L.Step>, step: L.Step, n: nat, s': L.State)
    requires Leads(s, steps + Repeat(step, n), s') && L.Enabled(s', step)
    ensures Leads(s, steps + Repeat(step, n + 1), L.Apply(s', step))
  {
    hide Leads;
    hide L.Enabled;
    hide L.Apply;
    LeadsOn(s, steps + Repeat(step, n), s', step);
    assert steps + Repeat(step, n + 1) == (steps + Repeat(step, n)) + [step];
  }

  // ---------------------------------------------------------------------------
  // An ingest iteration
  // ---------------------------------------------------------------------------

  ghost function SentIds(orders: seq<IngestOrder>): (ids: seq<OrderId>)
    ensures |ids| == |orders| && forall k :: 0 <= k < |ids| ==> ids[k] == orders[k].noteId
  {
    seq(|orders|, k requires 0 <= k < |orders| => orders[k].noteId)
  }

  ghost function IngestSteps(consumed: seq<OrderId>, notes: seq<IncomingNote>, block: Amount, sent: nat, ok: bool): seq<L.Step>
  {
    [L.SyncArrives(consumed, notes, block)] + Repeat(L.SendConsumed, |consumed|) + [L.Persist] + Repeat(L.SendOrder, sent)
      + [if ok then L.FinishIngest else L.IngestFails]
  }

  /** The state after `k` consumed ids of a sync have been sent on. */
  ghost function Dropping(s: L.State, consumed: seq<OrderId>, parsed: seq<(OrderId, NoteTerms)>, block: Amount, k: nat): L.State
    requires k <= |consumed|
  {
    L.WithOrders(s, Nullify(s.db.orders, IdSet(consumed))).(
      ingest := L.Syncing(consumed[k..], parsed, block), consumedChannel := s.consumedChannel + consumed[..k])
  }

  /** The state after `k` orders have been forwarded. */
  ghost function Sending(s: L.State, orders: seq<IngestOrder>, k: nat): L.State
    requires k <= |orders|
  {
    s.(ingest := L.Forwarding(orders[k..]), orderChannel := s.orderChannel + orders[..k],
       forwarded := s.forwarded + SentIds(orders[..k]))
  }

  lemma DropsOn(s: L.State, consumed: seq<OrderId>, parsed: seq<(OrderId, NoteTerms)>, block: Amount, k: nat)
    requires k < |consumed|
    ensures var d := Dropping(s, consumed, parsed, block, k);
      L.Enabled(d, L.SendConsumed) && L.Apply(d, L.SendConsumed) == Dropping(s, consumed, parsed, block, k + 1)
  {
    assert consumed[k..][1..] == consumed[k + 1..] && consumed[..k] + [consumed[k]] == consumed[..k + 1];
    assert s.consumedChannel + consumed[..k] + [consumed[k]] == s.consumedChannel + consumed[..k + 1];
  }

  lemma SendsOn(s: L.State, orders: seq<IngestOrder>, k: nat)
    requires k < |orders|
    ensures var d := Sending(s, orders, k);
      L.Enabled(d, L.SendOrder) && L.Apply(d, L.SendOrder) == Sending(s, orders, k + 1)
  {
    assert orders[k..][1..] == orders[k + 1..] && orders[..k] + [orders[k]] == orders[..k + 1];
    assert s.orderChannel + orders[..k] + [orders[k]] == s.orderChannel + orders[..k + 1];
    assert SentIds(orders[..k + 1]) == SentIds(orders[..k]) + [orders[k].noteId];
    assert s.forwarded + SentIds(orders[..k]) + [orders[k].noteId] == s.forwarded + SentIds(orders[..k + 1]);
  }

  lemma {:induction false} LeadsDropping(s: L.State, consumed: seq<OrderId>, notes: seq<IncomingNote>, block: Amount, k: nat)
    requires s.ingest.Waiting? && k <= |consumed|
    ensures Leads(s, [L.SyncArrives(consumed, notes, block)] + Repeat(L.SendConsumed, k), Dropping(s, consumed, Parsed(notes), block, k))
  {
    hide Leads;
    var first := L.SyncArrives(consumed, notes, block);
    if k == 0 {
      LeadsNowhere(s);
      LeadsOn(s, [], s, first);
      assert [first] + Repeat(L.SendConsumed, 0) == [] + [first];
      assert consumed[0..] == consumed && s.consumedChannel + consumed[..0] == s.consumedChannel;
    } else {
      LeadsDropping(s, consumed, notes, block, k - 1);
      DropsOn(s, consumed, Parsed(notes), block, k - 1);
      hide Dropping;
      LeadsAgain(s, [first], L.SendConsumed, k - 1, Dropping(s, consumed, Parsed(notes), block, k - 1));
    }
  }

  lemma {:induction false} LeadsSending(s0: L.State, steps: seq<L.Step>, s: L.State, orders: seq<IngestOrder>, k: nat)
    requires k <= |orders| && s.ingest == L.Forwarding(orders) && Leads(s0, steps, s)
    ensures Leads(s0, steps + Repeat(L.SendOrder, k), Sending(s, orders, k))
  {
    hide Leads;
    if k == 0 {
      assert steps + Repeat(L.SendOrder, 0) == steps && orders[0..] == orders;
      assert s.orderChannel + orders[..0] == s.orderChannel && s.forwarded + SentIds(orders[..0]) == s.forwarded;
    } else {
      LeadsSending(s0, steps, s, orders, k - 1);
      SendsOn(s, orders, k - 1);
      hide Sending;
      LeadsAgain(s0, steps, L.SendOrder, k - 1, Sending(s, orders, k - 1));
    }
  }

  /**
   * What one ingest iteration promises is what its steps do: rows nullified and stored, every consumed id passed on, and
   * the first-seen orders forwarded, all of them or, if the channel closes, the first ones.
   */
  lemma IngestRefines(s: L.State, consumed: seq<OrderId>, notes: seq<IncomingNote>, block: Amount, sent: seq<IngestOrder>, ok: bool)
    requires s.ingest.Waiting?
    requires var first := FirstSeen(Nullify(s.db.orders, IdSet(consumed)), Parsed(notes)); sent <= first && (ok ==> sent == first)
    ensures var nulled := Nullify(s.db.orders, IdSet(consumed));
      Leads(s, IngestSteps(consumed, notes, block, |sent|, ok),
            s.(db := Stored(s.db.(orders := nulled), Parsed(notes), block), consumedChannel := s.consumedChannel + consumed,
               orderChannel := s.orderChannel + sent, forwarded := s.forwarded + SentIds(sent)))
  {
    hide Leads;
    hide Nullify;
    hide Parsed;
    hide FirstSeen;
    hide Stored;
    var n, parsed := |consumed|, Parsed(notes);
    var first := FirstSeen(Nullify(s.db.orders, IdSet(consumed)), parsed);
    LeadsDropping(s, consumed, notes, block, n);
    var s1 := Dropping(s, consumed, parsed, block, n);
    assert consumed[n..] == [] && consumed[..n] == consumed;
    var steps1 := [L.SyncArrives(consumed, notes, block)] + Repeat(L.SendConsumed, n);
    LeadsOn(s, steps1, s1, L.Persist);
    var s2 := L.Apply(s1, L.Persist);
    LeadsSending(s, steps1 + [L.Persist], s2, first, |sent|);
    var s3 := Sending(s2, first, |sent|);
    assert first[..|sent|] == sent && (ok ==> first[|sent|..] == []);
    LeadsOn(s, steps1 + [L.Persist] + Repeat(L.SendOrder, |sent|), s3, if ok then L.FinishIngest else L.IngestFails);
  }

  // ---------------------------------------------------------------------------
  // A matcher tick
  // ---------------------------------------------------------------------------

  /** The orders of a book as the interleaved system sees them. */
  ghost function Held(b: Book, noteOf: NoteOf): map<OrderId, IngestOrder>
  {
    map id | id in b.orders :: Original(id, noteOf(id))
  }

  ghost function TickSteps(input: TickInput, o: TickOutput): seq<L.Step>
  {
    Repeat(L.DrainConsumed, |input.consumed|) + Repeat(L.DrainOrder, |input.orders|)
      + (if o.batch.Some? then [L.Emit(o.batch.value)] else [])
  }

  lemma RemoveKeys(b: Book, ids: seq<OrderId>, k: nat)
    requires k < |ids|
    ensures RemoveAll(b, ids[..k + 1]).orders == RemoveAll(b, ids[..k]).orders - {ids[k]}
  {
    assert ids[..k + 1][..k] == ids[..k];
    var b1 := RemoveAll(b, ids[..k]);
    assert ids[k] !in b1.orders ==> b1.orders - {ids[k]} == b1.orders;
  }

  lemma AddKeys(b: Book, orders: seq<IngestOrder>, k: nat)
    requires k < |orders|
    ensures AddAll(b, orders[..k + 1]).orders.Keys == AddAll(b, orders[..k]).orders.Keys + {orders[k].noteId}
  {
    assert orders[..k + 1][..k] == orders[..k];
  }

  /** The state after `k` consumed ids have been drained. */
  ghost function Removing(s: L.State, b: Book, noteOf: NoteOf, ids: seq<OrderId>, rest: seq<OrderId>, k: nat): L.State
    requires k <= |ids|
  {
    s.(book := Held(RemoveAll(b, ids[..k]), noteOf), consumedChannel := ids[k..] + rest)
  }

  /** The state after `k` orders have been drained. */
  ghost function Adding(s: L.State, b: Book, noteOf: NoteOf, orders: seq<IngestOrder>, rest: seq<IngestOrder>, k: nat): L.State
    requires k <= |orders|
  {
    s.(book := Held(AddAll(b, orders[..k]), noteOf), orderChannel := orders[k..] + rest)
  }

  lemma RemovesOn(s: L.State, b: Book, noteOf: NoteOf, ids: seq<OrderId>, rest: seq<OrderId>, k: nat)
    requires k < |ids|
    ensures var d := Removing(s, b, noteOf, ids, rest, k);
      L.Enabled(d, L.DrainConsumed) && L.Apply(d, L.DrainConsumed) == Removing(s, b, noteOf, ids, rest, k + 1)
  {
    RemoveKeys(b, ids, k);
    hide RemoveAll;
    assert (ids[k..] + rest)[1..] == ids[k + 1..] + rest;
    var b1, b2 := RemoveAll(b, ids[..k]), RemoveAll(b, ids[..k + 1]);
    assert Held(b2, noteOf) == Held(b1, noteOf) - {ids[k]};
  }

  /** Every order comes from its own note. */
  ghost predicate Genuine(orders: seq<IngestOrder>, noteOf: NoteOf)
  {
    forall k :: 0 <= k < |orders| ==> orders[k] == Original(orders[k].noteId, noteOf(orders[k].noteId))
  }

  /** Adding one order of a note adds exactly its id. */
  lemma HeldMore(b1: Book, b2: Book, noteOf: NoteOf, o: IngestOrder)
    requires b2.orders.Keys == b1.orders.Keys + {o.noteId} && o == Original(o.noteId, noteOf(o.noteId))
    ensures Held(b2, noteOf) == Held(b1, noteOf)[o.noteId := o]
  {
    assert forall id :: id in b2.orders <==> id in b1.orders || id == o.noteId;
  }

  lemma AddsOn(s: L.State, b: Book, noteOf: NoteOf, orders: seq<IngestOrder>, rest: seq<IngestOrder>, k: nat)
    requires k < |orders| && orders[k] == Original(orders[k].noteId, noteOf(orders[k].noteId))
    ensures var d := Adding(s, b, noteOf, orders, rest, k);
      L.Enabled(d, L.DrainOrder) && L.Apply(d, L.DrainOrder) == Adding(s, b, noteOf, orders, rest, k + 1)
  {
    hide AddAll;
    hide Held;
    AddKeys(b, orders, k);
    HeldMore(AddAll(b, orders[..k]), AddAll(b, orders[..k + 1]), noteOf, orders[k]);
    assert (orders[k..] + rest)[1..] == orders[k + 1..] + rest;
  }

  lemma {:induction false} LeadsRemoving(s: L.State, b: Book, noteOf: NoteOf, ids: seq<OrderId>, rest: seq<OrderId>, k: nat)
    requires k <= |ids| && s.book == Held(b, noteOf) && s.consumedChannel == ids + rest
    ensures Leads(s, Repeat(L.DrainConsumed, k), Removing(s, b, noteOf, ids, rest, k))
  {
    hide Leads;
    if k == 0 {
      LeadsNowhere(s);
      assert ids[0..] == ids && ids[..0] == [];
    } else {
      LeadsRemoving(s, b, noteOf, ids, rest, k - 1);
      RemovesOn(s, b, noteOf, ids, rest, k - 1);
      hide Removing;
      assert [] + Repeat(L.DrainConsumed, k - 1) == Repeat(L.DrainConsumed, k - 1);
      assert [] + Repeat(L.DrainConsumed, k) == Repeat(L.DrainConsumed, k);
      LeadsAgain(s, [], L.DrainConsumed, k - 1, Removing(s, b, noteOf, ids, rest, k - 1));
    }
  }

  lemma {:induction false} LeadsAdding(s0: L.State, steps: seq<L.Step>, s: L.State, b: Book, noteOf: NoteOf,
      orders: seq<IngestOrder>, rest: seq<IngestOrder>, k: nat)
    requires k <= |orders| && s.book == Held(b, noteOf) && s.orderChannel == orders + rest && Leads(s0, steps, s)
    requires Genuine(orders, noteOf)
    ensures Leads(s0, steps + Repeat(L.DrainOrder, k), Adding(s, b, noteOf, orders, rest, k))
  {
    hide *;
    if k == 0 {
      RepeatNothing(steps, L.DrainOrder);
      AddingNothing(s, b, noteOf, orders, rest);
    } else {
      LeadsAdding(s0, steps, s, b, noteOf, orders, rest, k - 1);
      GenuineAt(orders, noteOf, k - 1);
      AddsOn(s, b, noteOf, orders, rest, k - 1);
      LeadsAgain(s0, steps, L.DrainOrder, k - 1, Adding(s, b, noteOf, orders, rest, k - 1));
    }
  }

  lemma GenuineAt(orders: seq<IngestOrder>, noteOf: NoteOf, k: nat)
    requires Genuine(orders, noteOf) && k < |orders|
    ensures orders[k] == Original(orders[k].noteId, noteOf(orders[k].noteId))
  {}

  lemma AddingNothing(s: L.State, b: Book, noteOf: NoteOf, orders: seq<IngestOrder>, rest: seq<IngestOrder>)
    requires s.book == Held(b, noteOf) && s.orderChannel == orders + rest
    ensures Adding(s, b, noteOf, orders, rest, 0) == s
  {
    assert orders[0..] == orders && orders[..0] == [];
  }

  /** Which is what the matcher asks of its input. */
  lemma InputGenuine(input: TickInput, noteOf: NoteOf)
    requires M.InputOk(input, noteOf)
    ensures Genuine(input.orders, noteOf)
  {
    forall k | 0 <= k < |input.orders|
      ensures input.orders[k] == Original(input.orders[k].noteId, noteOf(input.orders[k].noteId))
    {
      assert M.IngestOk(input.orders[k], noteOf);
    }
  }

  /** Draining the events of a tick. */
  lemma LeadsDrained(s: L.State, b: Book, noteOf: NoteOf, input: TickInput, restC: seq<OrderId>, restO: seq<IngestOrder>)
    requires s.book == Held(b, noteOf) && s.consumedChannel == input.consumed + restC && s.orderChannel == input.orders + restO
    requires Genuine(input.orders, noteOf)
    ensures Leads(s, Repeat(L.DrainConsumed, |input.consumed|) + Repeat(L.DrainOrder, |input.orders|),
                  s.(book := Held(Drained(b, input), noteOf), consumedChannel := restC, orderChannel := restO))
  {
    hide Leads;
    hide Held;
    hide Repeat;
    var ids, orders := input.consumed, input.orders;
    LeadsRemoving(s, b, noteOf, ids, restC, |ids|);
    var s1 := Removing(s, b, noteOf, ids, restC, |ids|);
    assert ids[..|ids|] == ids && ids[|ids|..] + restC == restC;
    LeadsAdding(s, Repeat(L.DrainConsumed, |ids|), s1, RemoveAll(b, ids), noteOf, orders, restO, |orders|);
    assert orders[..|orders|] == orders && orders[|orders|..] + restO == restO;
  }

  /**
   * A tick is a path of draining steps and at most one emission: it takes exactly its events from the channels, emits
   * exactly its batch, and leaves exactly its book.
   */
  lemma TickRefines(m: Moment, input: TickInput, o: TickOutput, noteOf: NoteOf, s: L.State, restC: seq<OrderId>, restO: seq<IngestOrder>)
    requires Opens(m, input) && Ends(m, input, o) && M.InputOk(input, noteOf)
    requires forall id :: id in m.start.orders ==> TermsOf(m.start.orders[id]) == noteOf(id)
    requires if o.batch.Some? then BatchOf(o.batch.value, m.run.book.orders, m.run.filled) else m.run.filled == {}
    requires s.book == Held(m.before, noteOf) && s.consumedChannel == input.consumed + restC && s.orderChannel == input.orders + restO
    ensures Leads(s, TickSteps(input, o),
                  s.(book := Held(m.after, noteOf), consumedChannel := restC, orderChannel := restO,
                     batches := s.batches + if o.batch.Some? then [o.batch.value] else []))
  {
    hide Leads;
    hide Repeat;
    hide Opens;
    hide Ends;
    hide Held;
    hide Genuine;
    hide M.InputOk;
    InputGenuine(input, noteOf);
    StageOrders(m, input, o);
    if o.batch.Some? {
      EmitsBatch(m, input, o.batch.value, noteOf);
    }
    hide BatchOf;
    LeadsDrained(s, m.before, noteOf, input, restC, restO);
    hide Drained;
    SameHeld(m.start, m.drained, noteOf);
    EmitLeads(s, Repeat(L.DrainConsumed, |input.consumed|) + Repeat(L.DrainOrder, |input.orders|),
              s.(book := Held(m.drained, noteOf), consumedChannel := restC, orderChannel := restO),
              m.start, m.after, m.run.filled, o.batch, noteOf);
  }

  lemma SameHeld(b: Book, b': Book, noteOf: NoteOf)
    requires b.orders == b'.orders
    ensures Held(b, noteOf) == Held(b', noteOf)
  {}

  /** The emission, if there is one. */
  lemma EmitLeads(s0: L.State, steps: seq<L.Step>, s: L.State, b: Book, b': Book, filled: set<OrderId>,
      batch: Option<seq<FilledNote>>, noteOf: NoteOf)
    requires Leads(s0, steps, s) && s.book == Held(b, noteOf) && b'.orders == b.orders - filled
    requires if batch.Some? then L.BatchIds(batch.value) == filled && L.FromBook(Held(b, noteOf), batch.value) else filled == {}
    ensures Leads(s0, steps + (if batch.Some? then [L.Emit(batch.value)] else []),
                  s.(book := Held(b', noteOf), batches := s.batches + if batch.Some? then [batch.value] else []))
  {
    hide Leads;
    hide L.BatchIds;
    hide L.FromBook;
    assert Held(b', noteOf) == Held(b, noteOf) - filled;
    if batch.Some? {
      LeadsOn(s0, steps, s, L.Emit(batch.value));
    } else {
      assert steps + [] == steps && s.batches + [] == s.batches && Held(b, noteOf) - {} == Held(b, noteOf);
    }
  }

  /** Waking changes no order, settlement removes the filled ones, routing none. */
  lemma StageOrders(m: Moment, input: TickInput, o: TickOutput)
    requires Opens(m, input) && Ends(m, input, o)
    ensures m.drained == Drained(m.before, input) && m.start.orders == m.drained.orders
    ensures m.after.orders == m.start.orders - m.run.filled
  {
    hide Drained;
    hide EngineRun;
    hide Reports;
    hide WellFormed;
    hide QueueOk;
    hide Routed;
    hide Reactivate;
    if input.router.Some? {
      ReactivateOrders(m.drained, input.router.value.inflightTtl, m.now);
    }
  }

  /** What a run fills, it filled in place. */
  lemma FilledKnown(m: Moment, input: TickInput, id: OrderId)
    requires Opens(m, input) && id in m.run.filled
    ensures id in m.start.orders && id in m.run.book.orders && TermsOf(m.run.book.orders[id]) == TermsOf(m.start.orders[id])
  {
    hide EngineRun;
    hide QueueOk;
    hide Drained;
    hide Woken;
    assert FilledFrom(m.start.orders[id], m.run.book.orders[id]);
  }

  lemma EmitsBatch(m: Moment, input: TickInput, batch: seq<FilledNote>, noteOf: NoteOf)
    requires Opens(m, input) && BatchOf(batch, m.run.book.orders, m.run.filled)
    requires forall id :: id in m.start.orders ==> TermsOf(m.start.orders[id]) == noteOf(id)
    ensures L.BatchIds(batch) == m.run.filled && L.FromBook(Held(m.start, noteOf), batch)
  {
    hide Opens;
    forall k | 0 <= k < |batch|
      ensures batch[k].noteId in m.start.orders && batch[k].terms == Some(noteOf(batch[k].noteId))
    {
      assert SettlesOrder(batch[k], m.run.book.orders);
      FilledKnown(m, input, batch[k].noteId);
    }
    assert forall id :: id in L.BatchIds(batch) <==> InBatch(batch, id);
    assert forall id :: id in m.run.filled <==> InBatch(batch, id);
  }
}
