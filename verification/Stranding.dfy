/** Runs that reach a given batch, and what becomes of its orders: lost nullifications and orders stranded by refusal. */
module Stranding {
  import opened Types
  import opened RateIndex
  import opened B = Book
  import opened Direct
  import opened Cycles
  import opened CycleRuns
  import opened CycleBatch
  import opened Engine
  import opened Executor
  import opened Database
  import opened Ingest
  import opened Settlement
  import opened Lifecycle

  // ---------------------------------------------------------------------------
  // Reachable states
  // ---------------------------------------------------------------------------

  ghost predicate HonestRun(steps: seq<Step>, trace: seq<State>, noteOf: NoteOf)
  {
    IsRun(steps, trace) && forall k :: 0 <= k < |steps| ==> Honest(steps[k], noteOf)
  }

  ghost predicate Ends(steps: seq<Step>, trace: seq<State>, noteOf: NoteOf, s: State)
  {
    HonestRun(steps, trace, noteOf) && trace[|steps|] == s
  }

  /** Some run from the empty system, on notes that are what their ids stand for, ends in `s`. */
  ghost predicate Reachable(s: State, noteOf: NoteOf) { exists steps, trace :: Ends(steps, trace, noteOf, s) }

  lemma ReachEmpty(noteOf: NoteOf)
    ensures Reachable(EMPTY, noteOf)
  {
    assert Ends([], [EMPTY], noteOf, EMPTY);
  }

  lemma ReachStep(s: State, step: Step, noteOf: NoteOf)
    requires Reachable(s, noteOf) && Enabled(s, step) && Honest(step, noteOf)
    ensures Reachable(Apply(s, step), noteOf)
  {
    hide Enabled;
    hide Apply;
    hide Honest;
    var steps, trace :| Ends(steps, trace, noteOf, s);
    var steps', trace' := steps + [step], trace + [Apply(s, step)];
    forall i | 0 <= i < |steps'|
      ensures Enabled(trace'[i], steps'[i]) && trace'[i + 1] == Apply(trace'[i], steps'[i]) && Honest(steps'[i], noteOf)
    {
      if i < |steps| {
        assert trace'[i] == trace[i] && trace'[i + 1] == trace[i + 1] && steps'[i] == steps[i];
      }
    }
    assert Ends(steps', trace', noteOf, Apply(s, step));
  }

  lemma ReachInv(s: State, noteOf: NoteOf)
    requires Reachable(s, noteOf)
    ensures Inv(s, noteOf)
  {
    hide Inv;
    var steps, trace :| Ends(steps, trace, noteOf, s);
    RunKeeps(steps, trace, noteOf, |steps|);
  }

  /** Forward everything ingest has in hand. */
  lemma {:induction false} ReachForwarded(s: State, noteOf: NoteOf) returns (s': State)
    requires Reachable(s, noteOf) && s.ingest.Forwarding?
    ensures Reachable(s', noteOf)
    ensures s' == s.(ingest := Forwarding([]), orderChannel := s.orderChannel + s.ingest.orders, forwarded := s'.forwarded)
    decreases |s.ingest.orders|
  {
    hide Reachable;
    if s.ingest.orders == [] {
      assert s.orderChannel + s.ingest.orders == s.orderChannel;
      s' := s;
    } else {
      ReachStep(s, SendOrder, noteOf);
      var s1 := Apply(s, SendOrder);
      s' := ReachForwarded(s1, noteOf);
      assert s1.orderChannel + s1.ingest.orders == s.orderChannel + s.ingest.orders;
    }
  }

  /** Drain the order channel into the book. */
  lemma {:induction false} ReachDrained(s: State, noteOf: NoteOf) returns (s': State)
    requires Reachable(s, noteOf)
    ensures Reachable(s', noteOf) && s' == s.(orderChannel := [], book := s'.book)
    ensures forall id :: id in s.book || Carries(s.orderChannel, id) ==> id in s'.book
    decreases |s.orderChannel|
  {
    hide Reachable;
    if s.orderChannel == [] {
      s' := s;
    } else {
      ReachStep(s, DrainOrder, noteOf);
      var s1 := Apply(s, DrainOrder);
      s' := ReachDrained(s1, noteOf);
      forall id | Carries(s.orderChannel, id)
        ensures id in s'.book
      {
        TailCarries(s.orderChannel, id);
      }
    }
  }

  /** The notes of a batch as a sync would bring them in. */
  ghost function Incoming(batch: seq<FilledNote>): (notes: seq<IncomingNote>)
    ensures |notes| == |batch|
  {
    seq(|batch|, k requires 0 <= k < |batch| => IncomingNote(batch[k].noteId, batch[k].terms))
  }

  /** The notes carry the positive terms their ids stand for. */
  ghost predicate Genuine(batch: seq<FilledNote>, noteOf: NoteOf)
  {
    forall k :: 0 <= k < |batch| ==> batch[k].terms == Some(noteOf(batch[k].noteId)) && Positive(noteOf(batch[k].noteId))
  }

  lemma {:induction false} IncomingParsed(batch: seq<FilledNote>, noteOf: NoteOf)
    requires Genuine(batch, noteOf)
    ensures var parsed := Parsed(Incoming(batch));
      |parsed| == |batch| && forall k :: 0 <= k < |batch| ==> parsed[k] == (batch[k].noteId, noteOf(batch[k].noteId))
  {
    if batch != [] {
      var n := |batch| - 1;
      IncomingParsed(batch[..n], noteOf);
      assert Incoming(batch)[..n] == Incoming(batch[..n]);
    }
  }

  /** A sync of the notes, stored: each has an active row and is about to be forwarded. */
  lemma ReachStored(batch: seq<FilledNote>, noteOf: NoteOf) returns (s: State)
    requires Genuine(batch, noteOf)
    ensures Reachable(s, noteOf) && s == EMPTY.(db := s.db, ingest := s.ingest) && s.ingest.Forwarding?
    ensures forall id :: InBatch(batch, id) ==>
      id in s.db.orders && s.db.orders[id].status == Active && Carries(s.ingest.orders, id)
  {
    hide Reachable;
    var notes := Incoming(batch);
    ReachEmpty(noteOf);
    IncomingParsed(batch, noteOf);
    ReachStep(EMPTY, SyncArrives([], notes, 0), noteOf);
    var s1 := Apply(EMPTY, SyncArrives([], notes, 0));
    assert s1 == EMPTY.(ingest := Syncing([], Parsed(notes), 0)) by {
      assert Nullify(map[], IdSet([])) == map[];
    }
    ReachStep(s1, Persist, noteOf);
    s := Apply(s1, Persist);
    hide Parsed;
    forall id | InBatch(batch, id)
      ensures id in s.db.orders && s.db.orders[id].status == Active && Carries(s.ingest.orders, id)
    {
      var k :| 0 <= k < |batch| && batch[k].noteId == id;
      assert Parsed(notes)[k].0 == id;
      FirstSeenIds(map[], Parsed(notes), id);
      OrderStored(map[], Parsed(notes), noteOf, id);
    }
  }

  /** Any batch of genuine notes can come before the executor, with no other stage holding its orders. */
  lemma ReachClaimed(batch: seq<FilledNote>, noteOf: NoteOf) returns (s: State)
    requires Genuine(batch, noteOf)
    ensures Reachable(s, noteOf) && s.executor == Claimed(batch) && s.ingest == Forwarding([])
    ensures s.orderChannel == [] && s.batches == []
    ensures forall id :: InBatch(batch, id) ==> id !in s.book && id in s.db.orders && s.db.orders[id].status == Active
  {
    hide Reachable;
    hide Inv;
    var s1 := ReachStored(batch, noteOf);
    var s2 := ReachForwarded(s1, noteOf);
    assert [] + s1.ingest.orders == s1.ingest.orders;
    var s3 := ReachDrained(s2, noteOf);
    ReachInv(s3, noteOf);
    assert FromBook(s3.book, batch) by { GenuineInBook(s3, batch, noteOf); }
    ReachStep(s3, Emit(batch), noteOf);
    var s4 := Apply(s3, Emit(batch));
    assert s4.batches == [batch];
    ReachStep(s4, Claim, noteOf);
    s := Apply(s4, Claim);
  }

  lemma GenuineInBook(s: State, batch: seq<FilledNote>, noteOf: NoteOf)
    requires Inv(s, noteOf) && Genuine(batch, noteOf) && forall id :: InBatch(batch, id) ==> id in s.book
    ensures FromBook(s.book, batch)
  {
    forall k | 0 <= k < |batch|
      ensures batch[k].noteId in s.book && batch[k].terms == s.book[batch[k].noteId].raw
    {
      assert InBatch(batch, batch[k].noteId);
    }
  }

  // ---------------------------------------------------------------------------
  // A nullified row is not safe while its batch is in flight
  // ---------------------------------------------------------------------------

  /**
   * Whatever batch the executor accepts, and whichever of its notes the chain reports as consumed in the meantime: a run
   * leads to a nullified row that the executor's success then overwrites.
   */
  lemma NullifiedIsLost(batch: seq<FilledNote>, noteOf: NoteOf, id: OrderId) returns (s: State)
    requires Genuine(batch, noteOf) && Accepted(batch) && InBatch(batch, id)
    ensures Reachable(s, noteOf) && Enabled(s, Succeed)
    ensures id in s.db.orders && s.db.orders[id].status == OnchainNullified
    ensures var s' := Apply(s, Succeed); id in s'.db.orders && s'.db.orders[id].status == Executed
  {
    hide Reachable;
    hide Accepted;
    var s1 := ReachClaimed(batch, noteOf);
    ReachStep(s1, MarkSettling, noteOf);
    var s2 := Apply(s1, MarkSettling);
    ReachStep(s2, FinishIngest, noteOf);
    var s3 := Apply(s2, FinishIngest);
    ReachStep(s3, SyncArrives([id], [], 0), noteOf);
    s := Apply(s3, SyncArrives([id], [], 0));
    assert id in IdSet([id]) && id in BatchIds(batch);
  }

  const TERMS1: NoteTerms := NoteTerms(0, 10, 1, 20)
  const TERMS2: NoteTerms := NoteTerms(1, 20, 0, 10)

  ghost function TwoNotes(id: OrderId): NoteTerms { if id == 1 then TERMS1 else TERMS2 }

  /** Two notes that fill each other completely are such a batch. */
  lemma TwoNotesLost(batch: seq<FilledNote>) returns (s: State)
    requires batch == [FilledNote(1, 20, Some(TERMS1), 0), FilledNote(2, 10, Some(TERMS2), 0)]
    ensures Reachable(s, TwoNotes) && Enabled(s, Succeed)
    ensures 1 in s.db.orders && s.db.orders[1].status == OnchainNullified
    ensures var s' := Apply(s, Succeed); 1 in s'.db.orders && s'.db.orders[1].status == Executed
  {
    BatchAccepted(batch);
    assert batch[0].noteId == 1;
    hide Accepted;
    s := NullifiedIsLost(batch, TwoNotes, 1);
  }

  lemma BatchAccepted(batch: seq<FilledNote>)
    requires batch == [FilledNote(1, 20, Some(TERMS1), 0), FilledNote(2, 10, Some(TERMS2), 0)]
    ensures Accepted(batch)
  {
    var a := batch[0];
    assert batch[..1] == [a] && [a][..0] == [] && Decoded([a]);
    forall t
      ensures NetFlow(batch, t) == 0
    {
      assert OfferedIn([a], t) == (if t == 0 then 10 else 0) && Paybacks([a], t) == (if t == 1 then 20 else 0);
      assert Remainders([a], t) == 0;
      assert OfferedIn(batch, t) == OfferedIn([a], t) + (if t == 1 then 20 else 0);
      assert Paybacks(batch, t) == Paybacks([a], t) + (if t == 0 then 10 else 0);
      assert Remainders(batch, t) == 0;
    }
  }

  // ---------------------------------------------------------------------------
  // A refused batch strands its orders
  // ---------------------------------------------------------------------------

  ghost predicate NoCrash(steps: seq<Step>) { forall k :: 0 <= k < |steps| ==> !steps[k].Crash? }

  /** No stage holds any order of the batch, though each still has its row. */
  ghost predicate AllUnheld(s: State, batch: seq<FilledNote>)
  {
    forall id :: InBatch(batch, id) ==> id in s.db.orders && !Held(s, id)
  }

  /** However the system goes on from `s`, until it crashes no stage ever holds an order of the batch again. */
  ghost predicate StrandedFrom(s: State, batch: seq<FilledNote>)
  {
    forall steps, trace :: IsPath(s, steps, trace) && NoCrash(steps) ==> AllUnheld(trace[|steps|], batch)
  }

  lemma UnheldIsStranded(s: State, batch: seq<FilledNote>)
    requires AllUnheld(s, batch)
    ensures StrandedFrom(s, batch)
  {
    hide AllUnheld;
    hide Enabled;
    hide Apply;
    forall steps, trace | IsPath(s, steps, trace) && NoCrash(steps)
      ensures AllUnheld(trace[|steps|], batch)
    {
      PathUnheld(s, batch, steps, trace);
    }
  }

  lemma PathUnheld(s: State, batch: seq<FilledNote>, steps: seq<Step>, trace: seq<State>)
    requires AllUnheld(s, batch) && IsPath(s, steps, trace) && NoCrash(steps)
    ensures AllUnheld(trace[|steps|], batch)
  {
    hide Held;
    hide Enabled;
    hide Apply;
    hide InBatch;
    forall id | InBatch(batch, id)
      ensures id in trace[|steps|].db.orders && !Held(trace[|steps|], id)
    {
      StrandedUntilCrash(s, steps, trace, 0, |steps|, id);
    }
  }

  /** The executor gets rid of the batch it has claimed only by refusing it. */
  ghost predicate OnlyRefused(s: State)
  {
    forall step :: Enabled(s, step) ==> Apply(s, step).executor == s.executor || Apply(s, step).executor == Executing.Idle
  }

  /** In `s` the executor holds a batch it can only refuse, and its orders are then stranded, active, until a crash. */
  ghost predicate RefusedAt(s: State, batch: seq<FilledNote>)
  {
    && s.executor == Claimed(batch) && OnlyRefused(s)
    && (forall id :: InBatch(batch, id) ==> Strands(s, Refuse, id))
    && StrandedFrom(Apply(s, Refuse), batch)
  }

  /**
   * Whatever batch of genuine notes the deficit check does not accept: a run leads to it, the executor can do nothing but
   * refuse it, and then its orders stay active in the database while no stage holds them, until the next crash.
   */
  lemma RefusedStrands(batch: seq<FilledNote>, noteOf: NoteOf) returns (s: State)
    requires Genuine(batch, noteOf) && !Accepted(batch)
    ensures Reachable(s, noteOf) && RefusedAt(s, batch)
  {
    hide Reachable;
    hide Accepted;
    hide StrandedFrom;
    s := ReachClaimed(batch, noteOf);
    assert AllUnheld(Apply(s, Refuse), batch);
    UnheldIsStranded(Apply(s, Refuse), batch);
  }

  ghost function ShortNotes(id: OrderId): NoteTerms { TermsOf(if id == 1 then AB else if id == 2 then BC else CA) }

  /** A batch carries the terms of the orders it fills. */
  lemma FilledGenuine(orders: Orders, orders': Orders, filled: set<OrderId>, notes: seq<FilledNote>, noteOf: NoteOf)
    requires BatchOf(notes, orders', filled) && filled <= orders.Keys == orders'.Keys
    requires forall id :: id in orders ==> FilledFrom(orders[id], orders'[id])
    requires forall id :: id in filled ==> Positive(noteOf(id)) && TermsOf(orders[id]) == noteOf(id)
    ensures Genuine(notes, noteOf) && forall id :: InBatch(notes, id) <==> id in filled
  {
    forall k | 0 <= k < |notes|
      ensures notes[k].terms == Some(noteOf(notes[k].noteId)) && Positive(noteOf(notes[k].noteId))
    {
      assert notes[k].noteId in filled && SettlesOrder(notes[k], orders');
      assert FilledFrom(orders[notes[k].noteId], orders'[notes[k].noteId]);
    }
  }

  lemma ShortGenuine(b: Book, feed: Feed, r: Run, trace: Trace, notes: seq<FilledNote>)
    requires Short(b, feed) && EngineRun(b, feed, true, r, trace) && BatchOf(notes, r.book.orders, r.filled)
    ensures Genuine(notes, ShortNotes) && forall id :: InBatch(notes, id) <==> id in {1, 2, 3}
  {
    hide EngineRun;
    hide Execute;
    hide EntryOk;
    hide BatchOf;
    hide Genuine;
    hide InBatch;
    ShortRun(b, feed, r, trace);
    EngineReports(b, feed, true, r, trace);
    FilledGenuine(b.orders, r.book.orders, r.filled, notes, ShortNotes);
  }

  /**
   * The engine itself produces such batches: on the three orders of the short cycle its batch is refused, and all three
   * are stranded until the next crash.
   */
  lemma ShortCycleStrands(b: Book, feed: Feed, r: Run, trace: Trace, notes: seq<FilledNote>) returns (s: State)
    requires Short(b, feed) && EngineRun(b, feed, true, r, trace) && BatchOf(notes, r.book.orders, r.filled)
    ensures Reachable(s, ShortNotes) && RefusedAt(s, notes) && forall id :: InBatch(notes, id) <==> id in {1, 2, 3}
  {
    ShortRefused(b, feed, r, trace, notes);
    ShortGenuine(b, feed, r, trace, notes);
    hide Reachable;
    hide Accepted;
    hide RefusedAt;
    hide EngineRun;
    hide BatchOf;
    s := RefusedStrands(notes, ShortNotes);
  }
}
