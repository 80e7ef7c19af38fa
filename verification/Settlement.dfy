/** The notes of a batch: their ids, the orders rebuilt from them, and the split by what the chain has consumed. */
module Settlement {
  import opened Types
  import opened Executor
  import opened Database
  import opened Ingest

  datatype SubmitOutcome = Success | RpcExhausted | BuildFailed | Cancelled | TxError

  ghost predicate InBatch(batch: seq<FilledNote>, id: OrderId) { exists k :: 0 <= k < |batch| && batch[k].noteId == id }

  function Rebuild(n: FilledNote): IngestOrder
    requires n.terms.Some?
  {
    Original(n.noteId, n.terms.value)
  }

  /** The note ids of a batch, in order. */
  function SourceIds(batch: seq<FilledNote>): (ids: seq<OrderId>)
    ensures |ids| == |batch| && forall k :: 0 <= k < |ids| ==> ids[k] == batch[k].noteId
    ensures forall id :: id in IdSet(ids) <==> InBatch(batch, id)
  {
    var ids := seq(|batch|, k requires 0 <= k < |batch| => batch[k].noteId);
    assert forall k :: 0 <= k < |batch| ==> ids[k] == batch[k].noteId && ids[k] in ids;
    ids
  }

  method RebuildAll(batch: seq<FilledNote>) returns (orders: seq<IngestOrder>)
    requires Decoded(batch)
    ensures |orders| == |batch| && forall k :: 0 <= k < |batch| ==> orders[k] == Rebuild(batch[k])
  {
    orders := [];
    for k := 0 to |batch|
      invariant |orders| == k && forall i :: 0 <= i < k ==> orders[i] == Rebuild(batch[i])
    {
      orders := orders + [Rebuild(batch[k])];
    }
  }

  /** Partition the inputs of a failed transaction by what the chain reports as consumed. */
  method ClassifyInputNotes(batch: seq<FilledNote>, consumed: set<OrderId>)
    returns (spent: seq<OrderId>, active: seq<OrderId>, orders: seq<IngestOrder>)
    requires Decoded(batch)
    ensures forall id :: id in spent <==> InBatch(batch, id) && id in consumed
    ensures forall id :: id in active <==> InBatch(batch, id) && id !in consumed
    ensures Refed(batch, consumed, orders)
  {
    spent, active, orders := [], [], [];
    assert batch[..0] == [];
    for k := 0 to |batch|
      invariant forall id :: id in spent <==> InBatch(batch[..k], id) && id in consumed
      invariant forall id :: id in active <==> InBatch(batch[..k], id) && id !in consumed
      invariant Refed(batch[..k], consumed, orders)
    {
      BatchStep(batch, consumed, orders, k);
      if batch[k].noteId in consumed {
        spent := spent + [batch[k].noteId];
      } else {
        orders := orders + [Rebuild(batch[k])];
        active := active + [batch[k].noteId];
      }
    }
    assert batch[..|batch|] == batch;
  }

  /** `orders` are the batch's notes, rebuilt whole and in order, less the consumed ones. */
  ghost predicate Refed(batch: seq<FilledNote>, consumed: set<OrderId>, orders: seq<IngestOrder>)
    requires Decoded(batch)
  {
    if batch == [] then orders == []
    else
      var init, last := batch[..|batch| - 1], batch[|batch| - 1];
      if last.noteId in consumed then Refed(init, consumed, orders)
      else orders != [] && orders[|orders| - 1] == Rebuild(last) && Refed(init, consumed, orders[..|orders| - 1])
  }

  lemma BatchStep(batch: seq<FilledNote>, consumed: set<OrderId>, orders: seq<IngestOrder>, k: nat)
    requires k < |batch| && Decoded(batch) && Refed(batch[..k], consumed, orders)
    ensures forall id :: InBatch(batch[..k + 1], id) <==> InBatch(batch[..k], id) || id == batch[k].noteId
    ensures Refed(batch[..k + 1], consumed, if batch[k].noteId in consumed then orders else orders + [Rebuild(batch[k])])
  {
    assert batch[..k + 1][..k] == batch[..k] && batch[..k + 1][k] == batch[k];
    assert (orders + [Rebuild(batch[k])])[..|orders|] == orders;
    forall id
      ensures InBatch(batch[..k + 1], id) <==> InBatch(batch[..k], id) || id == batch[k].noteId
    {
      if InBatch(batch[..k], id) {
        var i :| 0 <= i < k && batch[..k][i].noteId == id;
        assert batch[..k + 1][i].noteId == id;
      }
    }
  }

  lemma {:induction false} RefedAll(batch: seq<FilledNote>, orders: seq<IngestOrder>)
    requires Decoded(batch) && |orders| == |batch| && forall k :: 0 <= k < |batch| ==> orders[k] == Rebuild(batch[k])
    ensures Refed(batch, {}, orders)
  {
    if batch != [] {
      RefedAll(batch[..|batch| - 1], orders[..|orders| - 1]);
    }
  }
}
