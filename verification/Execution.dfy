/** Executing a batch: the status writes around the submit and what goes back, as a path of the interleaved system. */
module Execution {
  import opened Types
  import opened Executor
  import opened Database
  import opened Ingest
  import opened Settlement
  import opened Lifecycle

  /**
   * The status a batch's row ends with. `consumed` is what the chain reports as spent, or `None` if it could not be asked.
   */
  function Verdict(outcome: SubmitOutcome, consumed: Option<set<OrderId>>, id: OrderId): Status
  {
    match outcome
    case Success => Executed
    case RpcExhausted | BuildFailed => Active
    case Cancelled => Settling
    case TxError => if consumed.None? then Settling else if id in consumed.value then OnchainNullified else Active
  }

  /** Every row outside the batch is untouched; every row of the batch has its verdict, whatever its status was. */
  ghost predicate Concluded(before: map<OrderId, OrderRow>, after: map<OrderId, OrderRow>, batch: seq<FilledNote>,
    outcome: SubmitOutcome, consumed: Option<set<OrderId>>)
  {
    && after.Keys == before.Keys
    && forall id :: id in before ==>
         after[id] == if InBatch(batch, id) then before[id].(status := Verdict(outcome, consumed, id)) else before[id]
  }

  // ---------------------------------------------------------------------------
  // The same as steps of the interleaved system
  // ---------------------------------------------------------------------------

  /** The steps the executor takes on a claimed batch. */
  ghost function StepsOf(batch: seq<FilledNote>, outcome: SubmitOutcome, consumed: Option<set<OrderId>>): seq<Step>
  {
    if !Accepted(batch) then [Refuse]
    else
      match outcome
      case Success => [MarkSettling, Succeed]
      case RpcExhausted | BuildFailed => [MarkSettling, GiveUp(true)]
      case Cancelled => [MarkSettling, Abandon]
      case TxError => if consumed.None? then [MarkSettling, Abandon] else [MarkSettling, Classify(consumed.value), Revert]
  }

  /** What the executor still has to feed back to the matcher. */
  ghost function InHand(e: Executing): seq<IngestOrder> { if e.Refeeding? then e.orders else [] }

  /** The steps lead from `s` to the given order rows, with the given orders left to feed back. */
  ghost predicate Arrives(s: State, steps: seq<Step>, orders: map<OrderId, OrderRow>, refeed: seq<IngestOrder>)
  {
    exists trace: seq<State> :: IsPath(s, steps, trace) && trace[|steps|].db.orders == orders && InHand(trace[|steps|].executor) == refeed
  }

  /** Wherever the system holds these rows and the executor this batch, its own steps have the same effect. */
  ghost predicate Refines(before: map<OrderId, OrderRow>, after: map<OrderId, OrderRow>, batch: seq<FilledNote>,
    outcome: SubmitOutcome, consumed: Option<set<OrderId>>, refeed: seq<IngestOrder>)
  {
    forall s: State :: s.db.orders == before && s.executor == Claimed(batch) ==>
      Arrives(s, StepsOf(batch, outcome, consumed), after, refeed)
  }

  lemma TwoSteps(s: State, a: Step, b: Step)
    requires Enabled(s, a) && Enabled(Apply(s, a), b)
    ensures var s' := Apply(Apply(s, a), b); Arrives(s, [a, b], s'.db.orders, InHand(s'.executor))
  {
    hide Enabled;
    hide Apply;
    var trace := [s, Apply(s, a), Apply(Apply(s, a), b)];
    assert IsPath(s, [a, b], trace);
  }

  lemma ThreeSteps(s: State, a: Step, b: Step, c: Step)
    requires Enabled(s, a) && Enabled(Apply(s, a), b) && Enabled(Apply(Apply(s, a), b), c)
    ensures var s' := Apply(Apply(Apply(s, a), b), c); Arrives(s, [a, b, c], s'.db.orders, InHand(s'.executor))
  {
    hide Enabled;
    hide Apply;
    var trace := [s, Apply(s, a), Apply(Apply(s, a), b), Apply(Apply(Apply(s, a), b), c)];
    assert IsPath(s, [a, b, c], trace);
  }

  lemma RefusedRefines(before: map<OrderId, OrderRow>, batch: seq<FilledNote>, outcome: SubmitOutcome,
      consumed: Option<set<OrderId>>)
    requires !Accepted(batch)
    ensures Refines(before, before, batch, outcome, consumed, [])
  {
    hide Accepted;
    forall s: State | s.db.orders == before && s.executor == Claimed(batch)
      ensures Arrives(s, [Refuse], before, [])
    {
      assert IsPath(s, [Refuse], [s, Apply(s, Refuse)]);
    }
  }

  /** The rows after every outcome but a classified failure: one more status for all rows, or none. */
  ghost function Uniform(before: map<OrderId, OrderRow>, ids: set<OrderId>, outcome: SubmitOutcome): map<OrderId, OrderRow>
  {
    var settling := SetStatus(before, ids, Settling);
    match outcome
    case Success => SetStatus(settling, ids, Executed)
    case RpcExhausted | BuildFailed => SetStatus(settling, ids, Active)
    case Cancelled | TxError => settling
  }

  ghost predicate GivenBack(outcome: SubmitOutcome) { outcome == RpcExhausted || outcome == BuildFailed }

  lemma UniformArrives(s: State, batch: seq<FilledNote>, outcome: SubmitOutcome, consumed: Option<set<OrderId>>,
      refeed: seq<IngestOrder>)
    requires Accepted(batch) && Decoded(batch) && (outcome == TxError ==> consumed.None?) && s.executor == Claimed(batch)
    requires refeed == if GivenBack(outcome) then RebuiltAll(batch) else []
    ensures Arrives(s, StepsOf(batch, outcome, consumed), Uniform(s.db.orders, BatchIds(batch), outcome), refeed)
  {
    hide Accepted;
    hide Decoded;
    hide Arrives;
    hide SetStatus;
    hide BatchIds;
    hide RebuiltAll;
    match outcome
    case Success => TwoSteps(s, MarkSettling, Succeed);
    case RpcExhausted => TwoSteps(s, MarkSettling, GiveUp(true));
    case BuildFailed => TwoSteps(s, MarkSettling, GiveUp(true));
    case _ => TwoSteps(s, MarkSettling, Abandon);
  }

  lemma UniformRefines(before: map<OrderId, OrderRow>, batch: seq<FilledNote>, outcome: SubmitOutcome,
      consumed: Option<set<OrderId>>, refeed: seq<IngestOrder>)
    requires Accepted(batch) && Decoded(batch) && (outcome == TxError ==> consumed.None?)
    requires refeed == if GivenBack(outcome) then RebuiltAll(batch) else []
    ensures Refines(before, Uniform(before, BatchIds(batch), outcome), batch, outcome, consumed, refeed)
  {
    hide Accepted;
    hide Arrives;
    hide StepsOf;
    hide Uniform;
    forall s: State | s.db.orders == before && s.executor == Claimed(batch)
      ensures Arrives(s, StepsOf(batch, outcome, consumed), Uniform(before, BatchIds(batch), outcome), refeed)
    {
      UniformArrives(s, batch, outcome, consumed, refeed);
    }
  }

  lemma AcceptedDecodes(batch: seq<FilledNote>)
    requires Accepted(batch)
    ensures Decoded(batch)
  {}

  /** A classified failure: the consumed rows are nullified, the others active again. */
  ghost function Split(before: map<OrderId, OrderRow>, batch: seq<FilledNote>, consumed: set<OrderId>): map<OrderId, OrderRow>
  {
    var ids := BatchIds(batch);
    SetStatus(Nullify(SetStatus(before, ids, Settling), ids * consumed), BatchIds(Unconsumed(batch, consumed)), Active)
  }

  lemma SplitArrives(s: State, batch: seq<FilledNote>, consumed: set<OrderId>)
    requires Accepted(batch) && Decoded(batch) && Decoded(Unconsumed(batch, consumed)) && s.executor == Claimed(batch)
    ensures Arrives(s, StepsOf(batch, TxError, Some(consumed)), Split(s.db.orders, batch, consumed),
                    RebuiltAll(Unconsumed(batch, consumed)))
  {
    hide Accepted;
    hide Decoded;
    hide Arrives;
    hide SetStatus;
    hide Nullify;
    hide BatchIds;
    hide RebuiltAll;
    hide Unconsumed;
    ThreeSteps(s, MarkSettling, Classify(consumed), Revert);
  }

  lemma SplitRefines(before: map<OrderId, OrderRow>, batch: seq<FilledNote>, consumed: set<OrderId>)
    requires Accepted(batch) && Decoded(batch) && Decoded(Unconsumed(batch, consumed))
    ensures Refines(before, Split(before, batch, consumed), batch, TxError, Some(consumed), RebuiltAll(Unconsumed(batch, consumed)))
  {
    hide Accepted;
    hide Arrives;
    hide StepsOf;
    hide Split;
    forall s: State | s.db.orders == before && s.executor == Claimed(batch)
      ensures Arrives(s, StepsOf(batch, TxError, Some(consumed)), Split(before, batch, consumed), RebuiltAll(Unconsumed(batch, consumed)))
    {
      SplitArrives(s, batch, consumed);
    }
  }

  lemma {:induction false} UnconsumedDecodes(batch: seq<FilledNote>, consumed: set<OrderId>)
    requires Decoded(batch)
    ensures Decoded(Unconsumed(batch, consumed))
  {
    if batch != [] {
      UnconsumedDecodes(batch[..|batch| - 1], consumed);
    }
  }

  /** What a classified failure feeds back is the rebuilt rest of the batch. */
  lemma {:induction false} RefedIs(batch: seq<FilledNote>, consumed: set<OrderId>, orders: seq<IngestOrder>)
    requires Decoded(batch) && Refed(batch, consumed, orders)
    ensures Decoded(Unconsumed(batch, consumed)) && orders == RebuiltAll(Unconsumed(batch, consumed))
  {
    UnconsumedDecodes(batch, consumed);
    if batch != [] {
      var init, last := batch[..|batch| - 1], batch[|batch| - 1];
      if last.noteId in consumed {
        RefedIs(init, consumed, orders);
      } else {
        RefedIs(init, consumed, orders[..|orders| - 1]);
        assert orders == orders[..|orders| - 1] + [Rebuild(last)];
      }
    }
  }

  lemma SplitIds(batch: seq<FilledNote>, consumed: set<OrderId>, spent: seq<OrderId>, active: seq<OrderId>)
    requires forall id :: id in spent <==> InBatch(batch, id) && id in consumed
    requires forall id :: id in active <==> InBatch(batch, id) && id !in consumed
    ensures IdSet(spent) == BatchIds(batch) * consumed && IdSet(active) == BatchIds(Unconsumed(batch, consumed))
  {
    forall id
      ensures InBatch(Unconsumed(batch, consumed), id) <==> InBatch(batch, id) && id !in consumed
    {
      if InBatch(batch, id) && id !in consumed {
        UnconsumedHolds(batch, consumed, id);
      }
      if InBatch(Unconsumed(batch, consumed), id) {
        UnconsumedIds(batch, consumed, id);
        UnconsumedLeft(batch, consumed, id);
      }
    }
    hide InBatch;
    hide Unconsumed;
  }

  lemma {:induction false} UnconsumedLeft(batch: seq<FilledNote>, consumed: set<OrderId>, id: OrderId)
    requires InBatch(Unconsumed(batch, consumed), id)
    ensures id !in consumed
  {
    var before, after := Unconsumed(batch[..|batch| - 1], consumed), Unconsumed(batch, consumed);
    var k :| 0 <= k < |after| && after[k].noteId == id;
    if k < |before| {
      assert before[k].noteId == id;
      UnconsumedLeft(batch[..|batch| - 1], consumed, id);
    }
  }

  // ---------------------------------------------------------------------------
  // A crash right after it
  // ---------------------------------------------------------------------------

  /** The executor's steps keep whatever any step keeps. */
  lemma {:induction false} PathKeeps(s: State, steps: seq<Step>, trace: seq<State>, noteOf: NoteOf, i: nat)
    requires IsPath(s, steps, trace) && i <= |steps| && Inv(s, noteOf)
    requires forall k :: 0 <= k < |steps| ==> Honest(steps[k], noteOf)
    ensures Inv(trace[i], noteOf)
  {
    hide Inv;
    hide Enabled;
    hide Apply;
    if i > 0 {
      PathKeeps(s, steps, trace, noteOf, i - 1);
      StepKeeps(trace[i - 1], steps[i - 1], noteOf);
    }
  }

  /** Some state with these rows is reached, and a crash there finds exactly the unsettled rows among them. */
  ghost predicate Recovers(s: State, steps: seq<Step>, orders: map<OrderId, OrderRow>)
  {
    exists trace: seq<State> :: IsPath(s, steps, trace) && trace[|steps|].db.orders == orders
      && Reboot(trace[|steps|]).book.Keys == set id | id in orders && Live(orders[id])
  }

  lemma ExecutionRecovers(s: State, noteOf: NoteOf, after: map<OrderId, OrderRow>, batch: seq<FilledNote>,
      outcome: SubmitOutcome, consumed: Option<set<OrderId>>, refeed: seq<IngestOrder>)
    requires Inv(s, noteOf) && s.executor == Claimed(batch)
    requires Refines(s.db.orders, after, batch, outcome, consumed, refeed)
    ensures Recovers(s, StepsOf(batch, outcome, consumed), after)
  {
    hide Inv;
    hide Reboot;
    hide Accepted;
    hide Enabled;
    hide Apply;
    var steps := StepsOf(batch, outcome, consumed);
    assert forall k :: 0 <= k < |steps| ==> Honest(steps[k], noteOf);
    hide StepsOf;
    assert Arrives(s, steps, after, refeed);
    var trace: seq<State> :| IsPath(s, steps, trace) && trace[|steps|].db.orders == after && InHand(trace[|steps|].executor) == refeed;
    PathKeeps(s, steps, trace, noteOf, |steps|);
    RebootExact(trace[|steps|], noteOf);
  }

  /**
   * What a crash right after an accepted batch brings back: nothing of a settled one, everything of one given back or left
   * hanging, and of a classified one exactly what the chain did not report as consumed.
   */
  lemma BroughtBack(before: map<OrderId, OrderRow>, after: map<OrderId, OrderRow>, batch: seq<FilledNote>,
      outcome: SubmitOutcome, consumed: Option<set<OrderId>>, id: OrderId)
    requires Concluded(before, after, batch, outcome, consumed) && id in before && InBatch(batch, id)
    ensures id in after
    ensures Live(after[id]) <==> outcome != Success && (outcome == TxError && consumed.Some? ==> id !in consumed.value)
  {
    hide InBatch;
  }

  // ---------------------------------------------------------------------------
  // The batch
  // ---------------------------------------------------------------------------

  /** A uniform verdict, whichever statuses were written before it. */
  lemma UniformVerdict(before: map<OrderId, OrderRow>, batch: seq<FilledNote>, ids: set<OrderId>,
      outcome: SubmitOutcome, consumed: Option<set<OrderId>>)
    requires forall id :: id in ids <==> InBatch(batch, id)
    ensures outcome != TxError || consumed.None? ==>
      forall id ::
        Concluded(before, SetStatus(SetStatus(before, ids, Settling), ids, Verdict(outcome, consumed, id)), batch, outcome, consumed)
    ensures outcome == Cancelled || (outcome == TxError && consumed.None?) ==>
      Concluded(before, SetStatus(before, ids, Settling), batch, outcome, consumed)
  {}

  /** After a classified failure: the batch is all settling, so the guard lets every spent row through. */
  lemma SplitVerdict(before: map<OrderId, OrderRow>, batch: seq<FilledNote>, ids: set<OrderId>, spent: set<OrderId>,
      active: set<OrderId>, consumed: set<OrderId>)
    requires forall id :: id in ids <==> InBatch(batch, id)
    requires forall id :: id in spent <==> InBatch(batch, id) && id in consumed
    requires forall id :: id in active <==> InBatch(batch, id) && id !in consumed
    ensures Concluded(before, SetStatus(Nullify(SetStatus(before, ids, Settling), spent), active, Active), batch, TxError, Some(consumed))
  {}

  lemma NoRows(orders: map<OrderId, OrderRow>, status: Status)
    ensures SetStatus(orders, IdSet([]), status) == orders && Nullify(orders, IdSet([])) == orders
  {}

  /** Settle one batch. A refused batch writes nothing; otherwise the verdict decides every row and what is fed back. */
  method ExecuteBatch(db: Database, batch: seq<FilledNote>, outcome: SubmitOutcome, consumed: Option<set<OrderId>>)
    returns (ok: bool, refeed: seq<IngestOrder>)
    requires db.Valid()
    modifies db`orders
    ensures db.Valid()
    ensures !Accepted(batch) ==> !ok && refeed == [] && db.orders == old(db.orders)
    ensures Accepted(batch) ==> Concluded(old(db.orders), db.orders, batch, outcome, consumed) && (ok <==> outcome == Success)
    ensures Accepted(batch) && (outcome == RpcExhausted || outcome == BuildFailed) ==> Refed(batch, {}, refeed)
    ensures Accepted(batch) && outcome == TxError && consumed.Some? ==> Refed(batch, consumed.value, refeed)
    ensures outcome == Success || outcome == Cancelled || (outcome == TxError && consumed.None?) ==> refeed == []
    ensures Refines(old(db.orders), db.orders, batch, outcome, consumed, refeed)
  {
    hide Accepted;
    hide Refed;
    hide InBatch;
    hide Concluded;
    hide SetStatus;
    hide Keyed;
    hide Refines;
    var prepared := PrepareBatch(batch);
    if !prepared.Ready? {
      RefusedRefines(db.orders, batch, outcome, consumed);
      return false, [];
    }
    AcceptedDecodes(batch);
    hide Decoded;
    hide IdSet;
    var ids := SourceIds(batch);
    var _ := db.UpdateOrdersStatus(ids, Settling);
    UniformVerdict(old(db.orders), batch, IdSet(ids), outcome, consumed);
    refeed := [];
    match outcome {
      case Success =>
        var _ := db.UpdateOrdersStatus(ids, Executed);
        assert Verdict(outcome, consumed, 0) == Executed;
        ok := true;
      case RpcExhausted | BuildFailed =>
        var _ := db.UpdateOrdersStatus(ids, Active);
        assert Verdict(outcome, consumed, 0) == Active;
        refeed := RebuildAll(batch);
        RefedAll(batch, refeed);
        assert refeed == RebuiltAll(batch);
        hide RebuiltAll;
        ok := false;
      case Cancelled =>
        ok := false;
      case TxError =>
        if consumed.Some? {
          refeed := Classified(db, batch, consumed.value, old(db.orders));
          return false, refeed;
        }
        ok := false;
    }
    UniformRefines(old(db.orders), batch, outcome, consumed, refeed);
  }

  /** The failed transaction's rows, once the chain has told which inputs are gone. */
  method Classified(db: Database, batch: seq<FilledNote>, consumed: set<OrderId>, ghost before: map<OrderId, OrderRow>)
    returns (refeed: seq<IngestOrder>)
    requires db.Valid() && Accepted(batch) && Decoded(batch) && db.orders == SetStatus(before, BatchIds(batch), Settling)
    modifies db`orders
    ensures db.Valid() && Concluded(before, db.orders, batch, TxError, Some(consumed)) && Refed(batch, consumed, refeed)
    ensures Refines(before, db.orders, batch, TxError, Some(consumed), refeed)
  {
    hide Accepted;
    hide Refed;
    hide InBatch;
    hide Concluded;
    hide SetStatus;
    hide Nullify;
    hide Keyed;
    hide Refines;
    hide IdSet;
    var spent, active;
    spent, active, refeed := ClassifyInputNotes(batch, consumed);
    SplitIds(batch, consumed, spent, active);
    ClassifiedVerdict(before, batch, spent, active, consumed);
    NoRows(db.orders, Active);
    if spent != [] {
      var _ := db.MarkOrdersOnchainNullified(spent);
    }
    NoRows(db.orders, Active);
    if active != [] {
      var _ := db.UpdateOrdersStatus(active, Active);
    }
    RefedIs(batch, consumed, refeed);
    SplitRefines(before, batch, consumed);
  }

  lemma ClassifiedVerdict(before: map<OrderId, OrderRow>, batch: seq<FilledNote>, spent: seq<OrderId>,
      active: seq<OrderId>, consumed: set<OrderId>)
    requires forall id :: id in spent <==> InBatch(batch, id) && id in consumed
    requires forall id :: id in active <==> InBatch(batch, id) && id !in consumed
    ensures Concluded(before,
      SetStatus(Nullify(SetStatus(before, BatchIds(batch), Settling), IdSet(spent)), IdSet(active), Active),
      batch, TxError, Some(consumed))
  {
    hide InBatch;
    SplitVerdict(before, batch, BatchIds(batch), IdSet(spent), IdSet(active), consumed);
  }
}
