/** Orders across crashes: ingest, matcher and executor interleaved step by step over one database. */
module Lifecycle {
  import opened Types
  import opened Executor
  import opened Database
  import opened Ingest
  import opened Settlement

  /** Where an ingest iteration stands. */
  datatype Ingesting =
    | Waiting
    | Syncing(consumed: seq<OrderId>, parsed: seq<(OrderId, NoteTerms)>, block: Amount)
    | Forwarding(orders: seq<IngestOrder>)

  /** Where the executor stands in its current batch. */
  datatype Executing =
    | Idle
    | Claimed(batch: seq<FilledNote>)
    | Submitting(batch: seq<FilledNote>)
    | Reverting(active: seq<FilledNote>)
    | Refeeding(orders: seq<IngestOrder>)

  /** The durable tables, everything a crash wipes, and the ids ingest ever sent to the matcher. */
  datatype State = State(
    db: Tables, book: map<OrderId, IngestOrder>, orderChannel: seq<IngestOrder>, consumedChannel: seq<OrderId>,
    batches: seq<seq<FilledNote>>, ingest: Ingesting, executor: Executing, forwarded: seq<OrderId>)

  datatype Step =
    | SyncArrives(consumedIds: seq<OrderId>, newNotes: seq<IncomingNote>, block: Amount)
    | SendConsumed
    | Persist
    | SendOrder
    | FinishIngest
    | IngestFails
    | DrainConsumed
    | DrainOrder
    | Emit(batch: seq<FilledNote>)
    | Claim
    | Refuse
    | MarkSettling
    | Succeed
    | GiveUp(reverted: bool)
    | Abandon
    | Classify(consumed: set<OrderId>)
    | Revert
    | Refeed
    | StopRefeed
    | Crash

  // ---------------------------------------------------------------------------
  // Steps
  // ---------------------------------------------------------------------------

  ghost predicate Enabled(s: State, step: Step)
  {
    match step
    case SyncArrives(_, _, _) => s.ingest.Waiting?
    case SendConsumed => s.ingest.Syncing? && s.ingest.consumed != []
    case Persist => s.ingest.Syncing? && s.ingest.consumed == []
    case SendOrder => s.ingest.Forwarding? && s.ingest.orders != []
    case FinishIngest => s.ingest.Forwarding? && s.ingest.orders == []
    case IngestFails => !s.ingest.Waiting?
    case DrainConsumed => s.consumedChannel != []
    case DrainOrder => s.orderChannel != []
    case Emit(batch) => FromBook(s.book, batch)
    case Claim => s.executor.Idle? && s.batches != []
    case Refuse => s.executor.Claimed?
    case MarkSettling => s.executor.Claimed? && Accepted(s.executor.batch)
    case Succeed => s.executor.Submitting?
    case GiveUp(_) => s.executor.Submitting? && Decoded(s.executor.batch)
    case Abandon => s.executor.Submitting?
    case Classify(_) => s.executor.Submitting? && Decoded(s.executor.batch)
    case Revert => s.executor.Reverting? && Decoded(s.executor.active)
    case Refeed => s.executor.Refeeding? && s.executor.orders != []
    case StopRefeed => s.executor.Refeeding?
    case Crash => true
  }

  /** A batch the matcher emits: notes of its book, with their own bytes. */
  ghost predicate FromBook(book: map<OrderId, IngestOrder>, batch: seq<FilledNote>)
  {
    forall k :: 0 <= k < |batch| ==> batch[k].noteId in book && batch[k].terms == book[batch[k].noteId].raw
  }

  ghost function BatchIds(batch: seq<FilledNote>): set<OrderId> { IdSet(SourceIds(batch)) }

  ghost function RebuiltAll(batch: seq<FilledNote>): seq<IngestOrder>
    requires Decoded(batch)
  {
    seq(|batch|, k requires 0 <= k < |batch| => Rebuild(batch[k]))
  }

  /** The batch's notes that are not consumed. */
  ghost function Unconsumed(batch: seq<FilledNote>, consumed: set<OrderId>): seq<FilledNote>
  {
    if batch == [] then []
    else
      var init, last := Unconsumed(batch[..|batch| - 1], consumed), batch[|batch| - 1];
      if last.noteId in consumed then init else init + [last]
  }

  ghost function WithOrders(s: State, orders: map<OrderId, OrderRow>): State { s.(db := s.db.(orders := orders)) }

  /** Reset stuck rows, then hydrate a fresh book from the active ones; everything volatile is gone. */
  ghost function Reboot(s: State): State
  {
    var db := s.db.(orders := Recovered(s.db.orders));
    State(db, map id | id in Loadable(db) :: OrderOf(db.orders[id], db.notes[id]), [], [], [], Waiting, Idle, s.forwarded)
  }

  ghost function Apply(s: State, step: Step): State
    requires Enabled(s, step)
  {
    match step
    case SyncArrives(consumed, notes, block) =>
      WithOrders(s, Nullify(s.db.orders, IdSet(consumed))).(ingest := Syncing(consumed, Parsed(notes), block))
    case SendConsumed =>
      s.(ingest := s.ingest.(consumed := s.ingest.consumed[1..]), consumedChannel := s.consumedChannel + [s.ingest.consumed[0]])
    case Persist =>
      s.(db := Stored(s.db, s.ingest.parsed, s.ingest.block), ingest := Forwarding(FirstSeen(s.db.orders, s.ingest.parsed)))
    case SendOrder =>
      var o := s.ingest.orders[0];
      s.(ingest := Forwarding(s.ingest.orders[1..]), orderChannel := s.orderChannel + [o], forwarded := s.forwarded + [o.noteId])
    case FinishIngest => s.(ingest := Waiting)
    case IngestFails => s.(ingest := Waiting)
    case DrainConsumed => s.(consumedChannel := s.consumedChannel[1..], book := s.book - {s.consumedChannel[0]})
    case DrainOrder =>
      var o := s.orderChannel[0];
      s.(orderChannel := s.orderChannel[1..], book := s.book[o.noteId := o])
    case Emit(batch) => s.(book := s.book - BatchIds(batch), batches := s.batches + [batch])
    case Claim => s.(batches := s.batches[1..], executor := Claimed(s.batches[0]))
    case Refuse => s.(executor := Idle)
    case MarkSettling =>
      WithOrders(s, SetStatus(s.db.orders, BatchIds(s.executor.batch), Settling)).(executor := Submitting(s.executor.batch))
    case Succeed => WithOrders(s, SetStatus(s.db.orders, BatchIds(s.executor.batch), Executed)).(executor := Idle)
    case GiveUp(reverted) =>
      var orders := if reverted then SetStatus(s.db.orders, BatchIds(s.executor.batch), Active) else s.db.orders;
      WithOrders(s, orders).(executor := Refeeding(RebuiltAll(s.executor.batch)))
    case Abandon => s.(executor := Idle)
    case Classify(consumed) =>
      var batch := s.executor.batch;
      WithOrders(s, Nullify(s.db.orders, BatchIds(batch) * consumed)).(executor := Reverting(Unconsumed(batch, consumed)))
    case Revert =>
      WithOrders(s, SetStatus(s.db.orders, BatchIds(s.executor.active), Active)).(executor := Refeeding(RebuiltAll(s.executor.active)))
    case Refeed =>
      s.(executor := Refeeding(s.executor.orders[1..]), orderChannel := s.orderChannel + [s.executor.orders[0]])
    case StopRefeed => s.(executor := Idle)
    case Crash => Reboot(s)
  }

  const EMPTY: State := State(Tables(map[], map[], 0), map[], [], [], [], Waiting, Idle, [])

  /** `trace` lists the states that `steps` lead through from `s`, one step at a time. */
  ghost predicate IsPath(s: State, steps: seq<Step>, trace: seq<State>)
  {
    && |trace| == |steps| + 1 && trace[0] == s
    && forall i :: 0 <= i < |steps| ==> Enabled(trace[i], steps[i]) && trace[i + 1] == Apply(trace[i], steps[i])
  }

  /** A run starts from the empty system. */
  ghost predicate IsRun(steps: seq<Step>, trace: seq<State>) { IsPath(EMPTY, steps, trace) }

  // ---------------------------------------------------------------------------
  // What every step keeps
  // ---------------------------------------------------------------------------

  /** A note id commits to its note, so what a sync parses is what the id stands for. */
  ghost predicate Honest(step: Step, noteOf: NoteOf)
  {
    step.SyncArrives? ==> forall k :: 0 <= k < |step.newNotes| && FromNote(step.newNotes[k]).Some? ==>
      step.newNotes[k].terms.value == noteOf(step.newNotes[k].id)
  }

  ghost predicate Positive(t: NoteTerms) { 0 < t.offered && 0 < t.requested }

  /** Every order row holds its note's terms and has its note row. */
  ghost predicate RowsOk(db: Tables, noteOf: NoteOf)
  {
    && (forall id :: id in db.notes ==> db.notes[id] == Some(noteOf(id)))
    && forall id :: id in db.orders ==>
         && db.orders[id] == RowOf(id, noteOf(id)).(status := db.orders[id].status)
         && Positive(noteOf(id)) && id in db.notes
  }

  ghost predicate OrdersKnown(os: seq<IngestOrder>, db: Tables, noteOf: NoteOf)
  {
    forall k :: 0 <= k < |os| ==> os[k].noteId in db.orders && os[k] == Original(os[k].noteId, noteOf(os[k].noteId))
  }

  ghost predicate NotesKnown(batch: seq<FilledNote>, db: Tables, noteOf: NoteOf)
  {
    forall k :: 0 <= k < |batch| ==> batch[k].noteId in db.orders && batch[k].terms == Some(noteOf(batch[k].noteId))
  }

  ghost predicate BookKnown(book: map<OrderId, IngestOrder>, db: Tables, noteOf: NoteOf)
  {
    forall id :: id in book ==> id in db.orders && book[id] == Original(id, noteOf(id))
  }

  ghost predicate ParsedOk(parsed: seq<(OrderId, NoteTerms)>, noteOf: NoteOf)
  {
    forall k :: 0 <= k < |parsed| ==> parsed[k].1 == noteOf(parsed[k].0) && Positive(parsed[k].1)
  }

  ghost predicate IngestOk(i: Ingesting, db: Tables, noteOf: NoteOf)
  {
    match i
    case Waiting => true
    case Syncing(_, parsed, _) => ParsedOk(parsed, noteOf)
    case Forwarding(orders) => OrdersKnown(orders, db, noteOf)
  }

  ghost predicate ExecutorOk(e: Executing, db: Tables, noteOf: NoteOf)
  {
    match e
    case Idle => true
    case Claimed(batch) => NotesKnown(batch, db, noteOf)
    case Submitting(batch) => NotesKnown(batch, db, noteOf)
    case Reverting(active) => NotesKnown(active, db, noteOf)
    case Refeeding(orders) => OrdersKnown(orders, db, noteOf)
  }

  /** Whatever any stage holds or ever forwarded has durable order and note rows with the note's own terms. */
  ghost predicate Inv(s: State, noteOf: NoteOf)
  {
    && RowsOk(s.db, noteOf)
    && BookKnown(s.book, s.db, noteOf) && OrdersKnown(s.orderChannel, s.db, noteOf)
    && (forall k :: 0 <= k < |s.batches| ==> NotesKnown(s.batches[k], s.db, noteOf))
    && IngestOk(s.ingest, s.db, noteOf) && ExecutorOk(s.executor, s.db, noteOf)
    && forall id :: id in s.forwarded ==> id in s.db.orders
  }

  /** Rows are only added, never removed or given other terms. */
  ghost predicate Grows(db: Tables, db': Tables) { db.orders.Keys <= db'.orders.Keys }

  lemma GrowsKeeps(s: State, db': Tables, noteOf: NoteOf)
    requires Inv(s, noteOf) && RowsOk(db', noteOf) && Grows(s.db, db')
    ensures Inv(s.(db := db'), noteOf)
  {
    var db := s.db;
    assert BookKnown(s.book, db', noteOf) && OrdersKnown(s.orderChannel, db', noteOf);
    forall k | 0 <= k < |s.batches|
      ensures NotesKnown(s.batches[k], db', noteOf)
    {
      assert NotesKnown(s.batches[k], db, noteOf);
    }
  }

  /** Rows that differ in status alone keep their terms. */
  lemma StatusRowsOk(db: Tables, orders: map<OrderId, OrderRow>, noteOf: NoteOf)
    requires RowsOk(db, noteOf) && orders.Keys == db.orders.Keys
    requires forall id :: id in orders ==> orders[id] == db.orders[id].(status := orders[id].status)
    ensures RowsOk(db.(orders := orders), noteOf) && Grows(db, db.(orders := orders))
  {}

  lemma {:induction false} ParsedAreHonest(notes: seq<IncomingNote>, noteOf: NoteOf)
    requires forall k :: 0 <= k < |notes| && FromNote(notes[k]).Some? ==> notes[k].terms.value == noteOf(notes[k].id)
    ensures ParsedOk(Parsed(notes), noteOf)
  {
    if notes != [] {
      ParsedAreHonest(notes[..|notes| - 1], noteOf);
    }
  }

  lemma {:induction false} FirstSeenKnown(orders: map<OrderId, OrderRow>, parsed: seq<(OrderId, NoteTerms)>,
      noteOf: NoteOf)
    requires ParsedOk(parsed, noteOf)
    ensures forall k :: 0 <= k < |FirstSeen(orders, parsed)| ==>
      FirstSeen(orders, parsed)[k] == Original(FirstSeen(orders, parsed)[k].noteId, noteOf(FirstSeen(orders, parsed)[k].noteId))
  {
    if parsed != [] {
      FirstSeenKnown(orders, parsed[..|parsed| - 1], noteOf);
    }
  }

  lemma StoredRowsOk(db: Tables, parsed: seq<(OrderId, NoteTerms)>, block: Amount, noteOf: NoteOf)
    requires RowsOk(db, noteOf) && ParsedOk(parsed, noteOf)
    ensures RowsOk(Stored(db, parsed, block), noteOf) && Grows(db, Stored(db, parsed, block))
    ensures forall id :: id in Stored(db, parsed, block).orders <==> id in db.orders || Names(parsed, id)
    ensures forall id :: id in db.orders ==> Stored(db, parsed, block).orders[id] == db.orders[id]
  {
    if parsed != [] {
      NotesStored(db, parsed, noteOf);
      OrdersStored(db, parsed, noteOf);
    }
  }

  lemma NotesStored(db: Tables, parsed: seq<(OrderId, NoteTerms)>, noteOf: NoteOf)
    requires RowsOk(db, noteOf) && ParsedOk(parsed, noteOf)
    ensures var notes := InsertNotes(db.notes, NoteRows(parsed));
      && (forall id :: id in notes ==> notes[id] == Some(noteOf(id)))
      && (forall id :: id in db.notes || Names(parsed, id) ==> id in notes)
  {
    var rows := NoteRows(parsed);
    InsertNotesSpec(db.notes, rows);
    forall id | Names(parsed, id)
      ensures id in InsertNotes(db.notes, rows)
    {
      var k :| 0 <= k < |parsed| && parsed[k].0 == id;
      assert rows[k].noteId == id;
    }
  }

  lemma OrdersStored(db: Tables, parsed: seq<(OrderId, NoteTerms)>, noteOf: NoteOf)
    requires ParsedOk(parsed, noteOf)
    ensures var orders := InsertOrders(db.orders, OrderRows(parsed));
      && (forall id :: id in orders <==> id in db.orders || Names(parsed, id))
      && (forall id :: id in db.orders ==> orders[id] == db.orders[id])
      && (forall id :: id in orders && id !in db.orders ==> orders[id] == RowOf(id, noteOf(id)) && Positive(noteOf(id)))
  {
    hide Names;
    hide InsertOrders;
    var orders := InsertOrders(db.orders, OrderRows(parsed));
    forall id
      ensures id in orders <==> id in db.orders || Names(parsed, id)
      ensures id in db.orders ==> orders[id] == db.orders[id]
      ensures id in orders && id !in db.orders ==> orders[id] == RowOf(id, noteOf(id)) && Positive(noteOf(id))
    {
      OrderStored(db.orders, parsed, noteOf, id);
    }
  }

  /** What storing a sync does to one id. */
  ghost predicate StoredAt(known: map<OrderId, OrderRow>, parsed: seq<(OrderId, NoteTerms)>, noteOf: NoteOf,
      id: OrderId)
  {
    var orders := InsertOrders(known, OrderRows(parsed));
    && (id in orders <==> id in known || Names(parsed, id))
    && (id in known ==> orders[id] == known[id])
    && (id in orders && id !in known ==> orders[id] == RowOf(id, noteOf(id)) && Positive(noteOf(id)))
  }

  lemma {:induction false} OrderStored(known: map<OrderId, OrderRow>, parsed: seq<(OrderId, NoteTerms)>,
      noteOf: NoteOf, id: OrderId)
    requires ParsedOk(parsed, noteOf)
    ensures StoredAt(known, parsed, noteOf, id)
  {
    if parsed != [] {
      var init, last := parsed[..|parsed| - 1], parsed[|parsed| - 1];
      assert parsed == init + [last] && OrderRows(parsed)[..|init|] == OrderRows(init);
      assert ParsedOk(init, noteOf);
      OrderStored(known, init, noteOf, id);
      NamesAppend(known, init, last, id);
      hide Names;
    }
  }

  lemma {:induction false} UnconsumedKnown(batch: seq<FilledNote>, consumed: set<OrderId>, db: Tables, noteOf: NoteOf)
    requires NotesKnown(batch, db, noteOf)
    ensures NotesKnown(Unconsumed(batch, consumed), db, noteOf)
  {
    if batch != [] {
      UnconsumedKnown(batch[..|batch| - 1], consumed, db, noteOf);
    }
  }

  // ---------------------------------------------------------------------------
  // The invariant, stage by stage
  // ---------------------------------------------------------------------------

  lemma IngestKeeps(s: State, step: Step, noteOf: NoteOf)
    requires Inv(s, noteOf) && Enabled(s, step) && Honest(step, noteOf)
    requires step.SyncArrives? || step.SendConsumed? || step.Persist? || step.SendOrder? || step.FinishIngest? || step.IngestFails?
    ensures Inv(Apply(s, step), noteOf)
  {
    hide RowsOk;
    match step
    case SyncArrives(consumed, notes, block) =>
      ParsedAreHonest(notes, noteOf);
      var orders := Nullify(s.db.orders, IdSet(consumed));
      StatusRowsOk(s.db, orders, noteOf);
      GrowsKeeps(s, s.db.(orders := orders), noteOf);
    case Persist =>
      StoredRowsOk(s.db, s.ingest.parsed, s.ingest.block, noteOf);
      GrowsKeeps(s, Stored(s.db, s.ingest.parsed, s.ingest.block), noteOf);
      PersistKnown(s.db, s.ingest.parsed, s.ingest.block, noteOf);
    case _ =>
  }

  /** What is about to be forwarded is durable already. */
  lemma PersistKnown(db: Tables, parsed: seq<(OrderId, NoteTerms)>, block: Amount, noteOf: NoteOf)
    requires RowsOk(db, noteOf) && ParsedOk(parsed, noteOf)
    ensures OrdersKnown(FirstSeen(db.orders, parsed), Stored(db, parsed, block), noteOf)
  {
    StoredRowsOk(db, parsed, block, noteOf);
    FirstSeenKnown(db.orders, parsed, noteOf);
    SentAreNamed(db.orders, parsed, FirstSeen(db.orders, parsed));
  }

  lemma MatcherKeeps(s: State, step: Step, noteOf: NoteOf)
    requires Inv(s, noteOf) && Enabled(s, step) && (step.DrainConsumed? || step.DrainOrder? || step.Emit?)
    ensures Inv(Apply(s, step), noteOf)
  {
    hide RowsOk;
  }

  lemma ExecutorKeeps(s: State, step: Step, noteOf: NoteOf)
    requires Inv(s, noteOf) && Enabled(s, step)
    requires step.Claim? || step.Refuse? || step.Abandon? || step.Refeed? || step.StopRefeed?
    ensures Inv(Apply(s, step), noteOf)
  {
    hide RowsOk;
  }

  lemma StatusOnly(s: State, step: Step)
    requires Enabled(s, step) && (step.MarkSettling? || step.Succeed? || step.GiveUp? || step.Classify? || step.Revert?)
    ensures var orders := Apply(s, step).db.orders;
      && Apply(s, step).db == s.db.(orders := orders) && orders.Keys == s.db.orders.Keys
      && forall id :: id in orders ==> orders[id] == s.db.orders[id].(status := orders[id].status)
  {
    hide BatchIds;
    hide Decoded;
  }

  /** The steps of the executor that write statuses. */
  lemma StatusKeeps(s: State, step: Step, noteOf: NoteOf)
    requires Inv(s, noteOf) && Enabled(s, step)
    requires step.MarkSettling? || step.Succeed? || step.GiveUp? || step.Classify? || step.Revert?
    ensures Inv(Apply(s, step), noteOf)
  {
    StatusOnly(s, step);
    var s' := Apply(s, step);
    assert s' == s.(db := s'.db, executor := s'.executor);
    BatchKnown(s, noteOf);
    ExecutorAfter(s, step, noteOf);
    hide Apply;
    hide Inv;
    hide RowsOk;
    hide ExecutorOk;
    StatusRowsOk(s.db, s'.db.orders, noteOf);
    GrowsKeeps(s, s'.db, noteOf);
    ReplaceExecutor(s.(db := s'.db), s'.executor, noteOf);
  }

  lemma BatchKnown(s: State, noteOf: NoteOf)
    requires Inv(s, noteOf)
    ensures RowsOk(s.db, noteOf) && ExecutorOk(s.executor, s.db, noteOf)
  {}

  lemma ReplaceExecutor(s: State, e: Executing, noteOf: NoteOf)
    requires Inv(s, noteOf) && ExecutorOk(e, s.db, noteOf)
    ensures Inv(s.(executor := e), noteOf)
  {}

  lemma ExecutorAfter(s: State, step: Step, noteOf: NoteOf)
    requires ExecutorOk(s.executor, s.db, noteOf) && Enabled(s, step)
    requires step.MarkSettling? || step.Succeed? || step.GiveUp? || step.Classify? || step.Revert?
    ensures ExecutorOk(Apply(s, step).executor, Apply(s, step).db, noteOf)
  {
    if step.Classify? {
      UnconsumedKnown(s.executor.batch, step.consumed, s.db, noteOf);
    }
  }

  // ---------------------------------------------------------------------------
  // Reboot
  // ---------------------------------------------------------------------------

  /** Ids whose row says the note is still to be settled. */
  ghost function Unsettled(db: Tables): set<OrderId> { set id | id in db.orders && Live(db.orders[id]) }

  /**
   * After a crash at any point the book holds exactly the unsettled ids, each with its note's own amounts, whatever the
   * stages held before.
   */
  lemma RebootExact(s: State, noteOf: NoteOf)
    requires Inv(s, noteOf)
    ensures Reboot(s).book.Keys == Unsettled(s.db)
    ensures forall id :: id in Reboot(s).book ==> Reboot(s).book[id] == Original(id, noteOf(id))
    ensures Inv(Reboot(s), noteOf)
  {
    var orders := Recovered(s.db.orders);
    StatusRowsOk(s.db, orders, noteOf);
    var db := s.db.(orders := orders);
    forall id | id in Loadable(db)
      ensures OrderOf(db.orders[id], db.notes[id]) == Original(id, noteOf(id))
    {
      CastRoundTrip(noteOf(id).offered);
      CastRoundTrip(noteOf(id).requested);
    }
  }

  lemma StepKeeps(s: State, step: Step, noteOf: NoteOf)
    requires Inv(s, noteOf) && Enabled(s, step) && Honest(step, noteOf)
    ensures Inv(Apply(s, step), noteOf)
  {
    hide Inv;
    match step
    case SyncArrives(_, _, _) => IngestKeeps(s, step, noteOf);
    case SendConsumed => IngestKeeps(s, step, noteOf);
    case Persist => IngestKeeps(s, step, noteOf);
    case SendOrder => IngestKeeps(s, step, noteOf);
    case FinishIngest => IngestKeeps(s, step, noteOf);
    case IngestFails => IngestKeeps(s, step, noteOf);
    case DrainConsumed => MatcherKeeps(s, step, noteOf);
    case DrainOrder => MatcherKeeps(s, step, noteOf);
    case Emit(_) => MatcherKeeps(s, step, noteOf);
    case Crash => RebootExact(s, noteOf);
    case MarkSettling => StatusKeeps(s, step, noteOf);
    case Succeed => StatusKeeps(s, step, noteOf);
    case GiveUp(_) => StatusKeeps(s, step, noteOf);
    case Classify(_) => StatusKeeps(s, step, noteOf);
    case Revert => StatusKeeps(s, step, noteOf);
    case _ => ExecutorKeeps(s, step, noteOf);
  }

  /**
   * In every state of every run, however it interleaves and wherever it crashes, what is held or forwarded is durable.
   */
  lemma {:induction false} RunKeeps(steps: seq<Step>, trace: seq<State>, noteOf: NoteOf, i: nat)
    requires IsRun(steps, trace) && i <= |steps| && forall k :: 0 <= k < |steps| ==> Honest(steps[k], noteOf)
    ensures Inv(trace[i], noteOf)
  {
    if i > 0 {
      RunKeeps(steps, trace, noteOf, i - 1);
      StepKeeps(trace[i - 1], steps[i - 1], noteOf);
    }
  }

  /** Crash recovery: cut any run anywhere, and the next boot finds exactly the unsettled orders, whole. */
  lemma CrashAnywhere(steps: seq<Step>, trace: seq<State>, noteOf: NoteOf, i: nat)
    requires IsRun(steps, trace) && i <= |steps| && forall k :: 0 <= k < |steps| ==> Honest(steps[k], noteOf)
    ensures Reboot(trace[i]).book.Keys == Unsettled(trace[i].db)
    ensures forall id :: id in Reboot(trace[i]).book ==> Reboot(trace[i]).book[id] == Original(id, noteOf(id))
    ensures forall id :: id in trace[i].forwarded ==> id in trace[i].db.orders && id in trace[i].db.notes
  {
    RunKeeps(steps, trace, noteOf, i);
    RebootExact(trace[i], noteOf);
  }

  // ---------------------------------------------------------------------------
  // Terminal statuses
  // ---------------------------------------------------------------------------

  ghost predicate ExecutorHolds(e: Executing, id: OrderId)
  {
    match e
    case Idle => false
    case Claimed(batch) => InBatch(batch, id)
    case Submitting(batch) => InBatch(batch, id)
    case Reverting(active) => InBatch(active, id)
    case Refeeding(orders) => Carries(orders, id)
  }

  /** Some stage still has the order in hand. */
  ghost predicate Held(s: State, id: OrderId)
  {
    || id in s.book || Carries(s.orderChannel, id)
    || (exists k :: 0 <= k < |s.batches| && InBatch(s.batches[k], id))
    || (s.ingest.Forwarding? && Carries(s.ingest.orders, id))
    || ExecutorHolds(s.executor, id)
  }

  /** The row is terminal and no stage has the order in hand. */
  ghost predicate Closed(s: State, id: OrderId, status: Status)
  {
    && (status == Executed || status == OnchainNullified)
    && id in s.db.orders && s.db.orders[id].status == status && !Held(s, id)
  }

  lemma {:induction false} UnconsumedIds(batch: seq<FilledNote>, consumed: set<OrderId>, id: OrderId)
    requires InBatch(Unconsumed(batch, consumed), id)
    ensures InBatch(batch, id)
  {
    var k :| 0 <= k < |Unconsumed(batch, consumed)| && Unconsumed(batch, consumed)[k].noteId == id;
    var init, last := batch[..|batch| - 1], batch[|batch| - 1];
    if k < |Unconsumed(init, consumed)| {
      assert Unconsumed(init, consumed)[k].noteId == id;
      UnconsumedIds(init, consumed, id);
      var i :| 0 <= i < |init| && init[i].noteId == id;
      assert batch[i].noteId == id;
    } else {
      assert batch[|init|].noteId == id;
    }
  }

  lemma RebuiltIds(batch: seq<FilledNote>, id: OrderId)
    requires Decoded(batch)
    ensures Carries(RebuiltAll(batch), id) <==> InBatch(batch, id)
  {
    assert forall k :: 0 <= k < |batch| ==> RebuiltAll(batch)[k].noteId == batch[k].noteId;
  }

  lemma ClosedKeepsIngest(s: State, step: Step, id: OrderId, status: Status)
    requires Closed(s, id, status) && Enabled(s, step)
    requires step.SyncArrives? || step.SendConsumed? || step.Persist? || step.SendOrder? || step.FinishIngest?
      || step.IngestFails? || step.Crash?
    ensures Closed(Apply(s, step), id, status)
  {
    match step
    case Persist =>
      FirstSeenIds(s.db.orders, s.ingest.parsed, id);
      InsertOrdersSpec(s.db.orders, OrderRows(s.ingest.parsed));
    case SendOrder =>
      CarriesAppend(s.orderChannel, s.ingest.orders[0], id);
    case _ =>
  }

  lemma ClosedKeepsMatcher(s: State, step: Step, id: OrderId, status: Status)
    requires Closed(s, id, status) && Enabled(s, step) && (step.DrainConsumed? || step.DrainOrder? || step.Emit?)
    ensures Closed(Apply(s, step), id, status)
  {}

  lemma ClosedKeepsExecutor(s: State, step: Step, id: OrderId, status: Status)
    requires Closed(s, id, status) && Enabled(s, step)
    requires step.Claim? || step.Refuse? || step.MarkSettling? || step.Succeed? || step.GiveUp? || step.Abandon?
      || step.Classify? || step.Revert? || step.Refeed? || step.StopRefeed?
    ensures Closed(Apply(s, step), id, status)
  {
    match step
    case GiveUp(_) => RebuiltIds(s.executor.batch, id);
    case Classify(consumed) =>
      if InBatch(Unconsumed(s.executor.batch, consumed), id) {
        UnconsumedIds(s.executor.batch, consumed, id);
      }
    case Revert => RebuiltIds(s.executor.active, id);
    case Refeed => CarriesAppend(s.orderChannel, s.executor.orders[0], id);
    case _ =>
  }

  /** Once a row is terminal and no stage holds the order, it stays so through every later step and crash. */
  lemma {:induction false} ClosedForever(steps: seq<Step>, trace: seq<State>, i: nat, j: nat, id: OrderId,
      status: Status)
    requires IsRun(steps, trace) && i <= j <= |steps| && Closed(trace[i], id, status)
    ensures Closed(trace[j], id, status)
    decreases j
  {
    if i < j {
      ClosedForever(steps, trace, i, j - 1, id, status);
      var s, step := trace[j - 1], steps[j - 1];
      hide Closed;
      match step
      case SyncArrives(_, _, _) => ClosedKeepsIngest(s, step, id, status);
      case SendConsumed => ClosedKeepsIngest(s, step, id, status);
      case Persist => ClosedKeepsIngest(s, step, id, status);
      case SendOrder => ClosedKeepsIngest(s, step, id, status);
      case FinishIngest => ClosedKeepsIngest(s, step, id, status);
      case IngestFails => ClosedKeepsIngest(s, step, id, status);
      case Crash => ClosedKeepsIngest(s, step, id, status);
      case DrainConsumed => ClosedKeepsMatcher(s, step, id, status);
      case DrainOrder => ClosedKeepsMatcher(s, step, id, status);
      case Emit(_) => ClosedKeepsMatcher(s, step, id, status);
      case _ => ClosedKeepsExecutor(s, step, id, status);
    }
  }

  /** The executor is about to write this row without looking at its status. */
  ghost predicate Overwrites(s: State, step: Step, id: OrderId)
  {
    match step
    case MarkSettling => s.executor.Claimed? && InBatch(s.executor.batch, id)
    case Succeed => s.executor.Submitting? && InBatch(s.executor.batch, id)
    case GiveUp(reverted) => reverted && s.executor.Submitting? && InBatch(s.executor.batch, id)
    case Revert => s.executor.Reverting? && InBatch(s.executor.active, id)
    case _ => false
  }

  /**
   * A nullified row loses its status in a step exactly when that step is an unguarded write of a batch that holds it.
   */
  lemma NullifiedLostIff(s: State, step: Step, id: OrderId)
    requires Enabled(s, step) && id in s.db.orders && s.db.orders[id].status == OnchainNullified
    ensures id in Apply(s, step).db.orders
    ensures Apply(s, step).db.orders[id].status != OnchainNullified <==> Overwrites(s, step, id)
  {
    if step.Persist? {
      InsertOrdersSpec(s.db.orders, OrderRows(s.ingest.parsed));
    }
  }

  // ---------------------------------------------------------------------------
  // Stranded orders
  // ---------------------------------------------------------------------------

  lemma UnheldIngest(s: State, step: Step, id: OrderId)
    requires id in s.db.orders && !Held(s, id) && Enabled(s, step)
    requires step.SyncArrives? || step.SendConsumed? || step.Persist? || step.SendOrder? || step.FinishIngest? || step.IngestFails?
    ensures id in Apply(s, step).db.orders && !Held(Apply(s, step), id)
  {
    match step
    case Persist =>
      FirstSeenIds(s.db.orders, s.ingest.parsed, id);
      InsertOrdersSpec(s.db.orders, OrderRows(s.ingest.parsed));
    case SendOrder =>
      CarriesAppend(s.orderChannel, s.ingest.orders[0], id);
    case _ =>
  }

  lemma UnheldMatcher(s: State, step: Step, id: OrderId)
    requires id in s.db.orders && !Held(s, id) && Enabled(s, step) && (step.DrainConsumed? || step.DrainOrder? || step.Emit?)
    ensures id in Apply(s, step).db.orders && !Held(Apply(s, step), id)
  {}

  lemma UnheldExecutor(s: State, step: Step, id: OrderId)
    requires id in s.db.orders && !Held(s, id) && Enabled(s, step)
    requires step.Claim? || step.Refuse? || step.MarkSettling? || step.Succeed? || step.GiveUp? || step.Abandon?
      || step.Classify? || step.Revert? || step.Refeed? || step.StopRefeed?
    ensures id in Apply(s, step).db.orders && !Held(Apply(s, step), id)
  {
    match step
    case GiveUp(_) => RebuiltIds(s.executor.batch, id);
    case Classify(consumed) =>
      if InBatch(Unconsumed(s.executor.batch, consumed), id) {
        UnconsumedIds(s.executor.batch, consumed, id);
      }
    case Revert => RebuiltIds(s.executor.active, id);
    case Refeed => CarriesAppend(s.orderChannel, s.executor.orders[0], id);
    case _ =>
  }

  /**
   * An order no stage holds stays unheld through every step but a crash: neither ingest nor executor brings it back.
   */
  lemma UnheldStays(s: State, step: Step, id: OrderId)
    requires id in s.db.orders && !Held(s, id) && Enabled(s, step) && !step.Crash?
    ensures id in Apply(s, step).db.orders && !Held(Apply(s, step), id)
  {
    hide Held;
    hide Apply;
    match step
    case SyncArrives(_, _, _) => UnheldIngest(s, step, id);
    case SendConsumed => UnheldIngest(s, step, id);
    case Persist => UnheldIngest(s, step, id);
    case SendOrder => UnheldIngest(s, step, id);
    case FinishIngest => UnheldIngest(s, step, id);
    case IngestFails => UnheldIngest(s, step, id);
    case DrainConsumed => UnheldMatcher(s, step, id);
    case DrainOrder => UnheldMatcher(s, step, id);
    case Emit(_) => UnheldMatcher(s, step, id);
    case _ => UnheldExecutor(s, step, id);
  }

  /** Between crashes a stranded order is never traded again; the next boot finds it if its row is still unsettled. */
  lemma {:induction false} StrandedUntilCrash(s: State, steps: seq<Step>, trace: seq<State>, i: nat, j: nat, id: OrderId)
    requires IsPath(s, steps, trace) && i <= j <= |steps| && forall k :: i <= k < j ==> !steps[k].Crash?
    requires id in trace[i].db.orders && !Held(trace[i], id)
    ensures id in trace[j].db.orders && !Held(trace[j], id)
    decreases j
  {
    hide Held;
    hide Apply;
    hide Enabled;
    if i < j {
      StrandedUntilCrash(s, steps, trace, i, j - 1, id);
      UnheldStays(trace[j - 1], steps[j - 1], id);
    }
  }

  /** The last stage lets go of an order whose row still says that it is to be settled. */
  ghost predicate Strands(s: State, step: Step, id: OrderId)
    requires Enabled(s, step)
  {
    var s' := Apply(s, step);
    Held(s, id) && !Held(s', id) && id in s'.db.orders && Live(s'.db.orders[id])
  }

  /** The steps at which work in hand is given up without a status that says so. */
  ghost predicate GivesUp(step: Step)
  {
    step.IngestFails? || step.DrainConsumed? || step.Refuse? || step.Abandon? || step.StopRefeed?
  }

  lemma {:induction false} UnconsumedHolds(batch: seq<FilledNote>, consumed: set<OrderId>, id: OrderId)
    requires InBatch(batch, id) && id !in consumed
    ensures InBatch(Unconsumed(batch, consumed), id)
  {
    var init, last := batch[..|batch| - 1], batch[|batch| - 1];
    var before, after := Unconsumed(init, consumed), Unconsumed(batch, consumed);
    if last.noteId == id {
      assert after[|before|].noteId == id;
    } else {
      var k :| 0 <= k < |batch| && batch[k].noteId == id;
      assert init[k].noteId == id;
      UnconsumedHolds(init, consumed, id);
      var i :| 0 <= i < |before| && before[i].noteId == id;
      assert after[i].noteId == id;
    }
  }

  /** A list without its head still carries every other id. */
  lemma TailCarries(orders: seq<IngestOrder>, id: OrderId)
    requires orders != [] && Carries(orders, id)
    ensures orders[0].noteId == id || Carries(orders[1..], id)
  {
    var k :| 0 <= k < |orders| && orders[k].noteId == id;
    if k > 0 {
      assert orders[1..][k - 1].noteId == id;
    }
  }

  lemma MovesKeepHold(s: State, step: Step, id: OrderId)
    requires Held(s, id) && Enabled(s, step) && (step.SendOrder? || step.DrainOrder? || step.Emit? || step.Claim? || step.Refeed?)
    ensures Held(Apply(s, step), id)
  {
    var s' := Apply(s, step);
    match step
    case SendOrder =>
      CarriesAppend(s.orderChannel, s.ingest.orders[0], id);
      if Carries(s.ingest.orders, id) { TailCarries(s.ingest.orders, id); }
    case DrainOrder =>
      if Carries(s.orderChannel, id) { TailCarries(s.orderChannel, id); }
    case Emit(batch) =>
      assert s'.batches[|s.batches|] == batch && forall k :: 0 <= k < |s.batches| ==> s'.batches[k] == s.batches[k];
    case Claim =>
      if k :| 0 < k < |s.batches| && InBatch(s.batches[k], id) {
        assert s'.batches[k - 1] == s.batches[k];
      }
    case Refeed =>
      CarriesAppend(s.orderChannel, s.executor.orders[0], id);
      if Carries(s.executor.orders, id) { TailCarries(s.executor.orders, id); }
    case _ =>
  }

  lemma WritesKeepHold(s: State, step: Step, id: OrderId)
    requires Held(s, id) && Enabled(s, step) && id in s.db.orders
    requires step.MarkSettling? || step.Succeed? || step.GiveUp? || step.Classify? || step.Revert?
    ensures var s' := Apply(s, step); id in s'.db.orders && (Held(s', id) || !Live(s'.db.orders[id]))
  {
    match step
    case GiveUp(_) => RebuiltIds(s.executor.batch, id);
    case Classify(consumed) =>
      if InBatch(s.executor.batch, id) && id !in consumed {
        UnconsumedHolds(s.executor.batch, consumed, id);
      }
    case Revert => RebuiltIds(s.executor.active, id);
    case _ =>
  }

  lemma HeldIsStored(s: State, noteOf: NoteOf, id: OrderId)
    requires Inv(s, noteOf) && Held(s, id)
    ensures id in s.db.orders
  {
    hide RowsOk;
  }

  lemma OthersKeepHold(s: State, step: Step, id: OrderId)
    requires Held(s, id) && Enabled(s, step) && (step.SyncArrives? || step.SendConsumed? || step.Persist? || step.FinishIngest?)
    ensures Held(Apply(s, step), id)
  {}

  /**
   * Only giving work up strands an order: every other step keeps hold of it or settles its row, and a reboot picks it
   * up.
   */
  lemma OnlyGivingUpStrands(s: State, step: Step, noteOf: NoteOf, id: OrderId)
    requires Inv(s, noteOf) && Enabled(s, step) && Strands(s, step, id)
    ensures GivesUp(step)
  {
    HeldIsStored(s, noteOf, id);
    RebootHolds(s, noteOf, id);
    hide Inv;
    hide Held;
    hide Apply;
    match step
    case SyncArrives(_, _, _) => OthersKeepHold(s, step, id);
    case SendConsumed => OthersKeepHold(s, step, id);
    case Persist => OthersKeepHold(s, step, id);
    case FinishIngest => OthersKeepHold(s, step, id);
    case SendOrder => MovesKeepHold(s, step, id);
    case DrainOrder => MovesKeepHold(s, step, id);
    case Emit(_) => MovesKeepHold(s, step, id);
    case Claim => MovesKeepHold(s, step, id);
    case Refeed => MovesKeepHold(s, step, id);
    case MarkSettling => WritesKeepHold(s, step, id);
    case Succeed => WritesKeepHold(s, step, id);
    case GiveUp(_) => WritesKeepHold(s, step, id);
    case Classify(_) => WritesKeepHold(s, step, id);
    case Revert => WritesKeepHold(s, step, id);
    case _ =>
  }

  /** A reboot holds every unsettled order. */
  lemma RebootHolds(s: State, noteOf: NoteOf, id: OrderId)
    requires Inv(s, noteOf)
    ensures !Strands(s, Crash, id)
  {
    RebootExact(s, noteOf);
    hide Inv;
  }

  // ---------------------------------------------------------------------------
  // Forwarding
  // ---------------------------------------------------------------------------

  ghost predicate Distinct(ids: seq<OrderId>) { forall i, j :: 0 <= i < j < |ids| ==> ids[i] != ids[j] }

  /** No id was forwarded twice, and none that is about to be forwarded ever was. */
  ghost predicate ForwardsOnce(s: State)
  {
    && Distinct(s.forwarded) && (forall id :: id in s.forwarded ==> id in s.db.orders)
    && (s.ingest.Forwarding? ==> DistinctOrders(s.ingest.orders))
    && (s.ingest.Forwarding? ==>
      forall k :: 0 <= k < |s.ingest.orders| ==> s.ingest.orders[k].noteId !in s.forwarded && s.ingest.orders[k].noteId in s.db.orders)
  }

  lemma ForwardStep(s: State, step: Step)
    requires ForwardsOnce(s) && Enabled(s, step)
    requires step.Persist? ==> FreshIdsDistinct(s.db.orders, s.ingest.parsed)
    ensures ForwardsOnce(Apply(s, step))
  {
    match step
    case Persist =>
      var parsed := s.ingest.parsed;
      var first := FirstSeen(s.db.orders, parsed);
      ForwardedOnce(s.db.orders, parsed);
      InsertOrdersSpec(s.db.orders, OrderRows(parsed));
      forall k | 0 <= k < |first|
        ensures first[k].noteId !in s.db.orders && first[k].noteId in Apply(s, step).db.orders
      {
        FirstSeenIds(s.db.orders, parsed, first[k].noteId);
        var i :| 0 <= i < |parsed| && parsed[i].0 == first[k].noteId;
        assert OrderRows(parsed)[i].noteId == first[k].noteId;
      }
    case SendOrder =>
      var o := s.ingest.orders[0];
      assert o.noteId !in s.forwarded;
    case _ =>
  }

  /** Across restarts, ingest forwards no id twice as long as no sync lists a new id twice. */
  lemma {:induction false} ForwardedAtMostOnce(steps: seq<Step>, trace: seq<State>, i: nat)
    requires IsRun(steps, trace) && i <= |steps|
    requires forall k :: 0 <= k < |steps| && steps[k].Persist? && trace[k].ingest.Syncing? ==>
      FreshIdsDistinct(trace[k].db.orders, trace[k].ingest.parsed)
    ensures ForwardsOnce(trace[i])
  {
    if i > 0 {
      ForwardedAtMostOnce(steps, trace, i - 1);
      ForwardStep(trace[i - 1], steps[i - 1]);
    }
  }
}
