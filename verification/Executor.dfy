/** Settlement of a batch: per-token net flow, the deficit check and conservation. */
module Executor {
  import opened Types
  import opened RateIndex
  import opened Sums
  import opened B = Book
  import opened Ledger

  /** The swap terms a raw note decodes to. */
  datatype NoteTerms = NoteTerms(offeredToken: TokenId, offered: Amount, requestedToken: TokenId, requested: Amount)

  /** The terms of an order's note. */
  function TermsOf(o: Order): NoteTerms { NoteTerms(o.offeredToken, o.offered, o.requestedToken, o.requested) }

  /** The note each id commits to. */
  type NoteOf = OrderId -> NoteTerms

  /** What the note bytes of each id decode to, and when each id was first seen. */
  type RawNotes = map<OrderId, Option<NoteTerms>>
  type Arrivals = map<OrderId, Amount>

  /**
   * A filled note of a batch, with the time it arrived; `terms` is `None` if its bytes do not decode to a swap note.
   */
  datatype FilledNote = FilledNote(noteId: OrderId, requestedFilled: Amount, terms: Option<NoteTerms>, arrival: Amount)

  /** An order on its way to the matcher; `raw` is what its note bytes decode to. */
  datatype IngestOrder = IngestOrder(
    noteId: OrderId, offeredToken: TokenId, requestedToken: TokenId, offeredAmount: Amount, requestedAmount: Amount, raw: Option<NoteTerms>)

  /** The note can be executed: it decodes, and the fill stays within it. */
  predicate Executable(n: FilledNote)
  {
    n.terms.Some? && 0 < n.terms.value.offered && 0 < n.terms.value.requested && n.requestedFilled <= n.terms.value.requested
  }

  /** What executing a note leaves in a remainder note: nothing once it is completely filled. */
  function Remainder(t: NoteTerms, fill: Amount): (r: Amount)
    requires 0 < t.requested && fill <= t.requested
    ensures fill == t.requested ==> r == 0
  {
    OutputLossless(t.offered, t.requested, fill);
    if fill < t.requested then t.offered - CalculateOutput(t.offered, t.requested, fill) else 0
  }

  // ---------------------------------------------------------------------------
  // The three flows of a batch
  // ---------------------------------------------------------------------------

  ghost predicate Decoded(notes: seq<FilledNote>)
  {
    forall k :: 0 <= k < |notes| ==> Executable(notes[k])
  }

  /** Units of `t` the consumed notes bring in. */
  ghost function OfferedIn(notes: seq<FilledNote>, t: TokenId): nat
    requires Decoded(notes)
  {
    if notes == [] then 0
    else
      var n := notes[|notes| - 1];
      OfferedIn(notes[..|notes| - 1], t) + (if n.terms.value.offeredToken == t then n.terms.value.offered else 0)
  }

  /** Units of `t` paid back to the creators. */
  ghost function Paybacks(notes: seq<FilledNote>, t: TokenId): nat
    requires Decoded(notes)
  {
    if notes == [] then 0
    else
      var n := notes[|notes| - 1];
      Paybacks(notes[..|notes| - 1], t) + (if n.terms.value.requestedToken == t then n.requestedFilled else 0)
  }

  /** Units of `t` that go into remainder notes. */
  ghost function Remainders(notes: seq<FilledNote>, t: TokenId): nat
    requires Decoded(notes)
  {
    if notes == [] then 0
    else
      var n := notes[|notes| - 1];
      Remainders(notes[..|notes| - 1], t)
        + (if n.terms.value.offeredToken == t then Remainder(n.terms.value, n.requestedFilled) else 0)
  }

  ghost function NetFlow(notes: seq<FilledNote>, t: TokenId): int
    requires Decoded(notes)
  {
    OfferedIn(notes, t) - Paybacks(notes, t) - Remainders(notes, t)
  }

  function FlowAt(flow: map<TokenId, int>, t: TokenId): int { if t in flow then flow[t] else 0 }

  function Add(flow: map<TokenId, int>, t: TokenId,
      amount: int): map<TokenId, int> { flow[t := FlowAt(flow, t) + amount] }

  datatype Prepared =
    | Ready(surplus: map<TokenId, Amount>)
    | Undecodable
    | Unexecutable
    | Insolvent(token: TokenId, deficit: nat)
    | SurplusTooLarge(token: TokenId)

  /** The flow map after one more note. */
  function AddNote(flow: map<TokenId, int>, n: FilledNote): map<TokenId, int>
    requires Executable(n)
  {
    var t := n.terms.value;
    var filled := Add(Add(flow, t.offeredToken, t.offered), t.requestedToken, 0 - n.requestedFilled);
    if n.requestedFilled < t.requested then Add(filled, t.offeredToken, 0 - Remainder(t, n.requestedFilled)) else filled
  }

  lemma AddNoteFlow(notes: seq<FilledNote>, flow: map<TokenId, int>, t: TokenId)
    requires notes != [] && Decoded(notes) && FlowAt(flow, t) == NetFlow(notes[..|notes| - 1], t)
    ensures FlowAt(AddNote(flow, notes[|notes| - 1]), t) == NetFlow(notes, t)
  {
    hide CalculateOutput;
  }

  datatype Flows = Flows(flow: map<TokenId, int>) | Failed(at: nat)

  /** Accumulate the net flow per token, stopping at the first note that cannot be executed. */
  method Accumulate(notes: seq<FilledNote>) returns (r: Flows)
    ensures r.Flows? ==> Decoded(notes) && forall t :: FlowAt(r.flow, t) == NetFlow(notes, t)
    ensures r.Failed? ==> r.at < |notes| && Decoded(notes[..r.at]) && !Executable(notes[r.at])
  {
    hide AddNote;
    hide NetFlow;
    var flow: map<TokenId, int> := map[];
    assert forall t :: NetFlow(notes[..0], t) == 0 by { EmptyFlow(); }
    for k := 0 to |notes|
      invariant Decoded(notes[..k])
      invariant forall t :: FlowAt(flow, t) == NetFlow(notes[..k], t)
    {
      assert notes[..k + 1] == notes[..k] + [notes[k]] && notes[..k + 1][..k] == notes[..k];
      if !Executable(notes[k]) {
        return Failed(k);
      }
      assert Decoded(notes[..k + 1]);
      forall t
        ensures FlowAt(AddNote(flow, notes[k]), t) == NetFlow(notes[..k + 1], t)
      {
        AddNoteFlow(notes[..k + 1], flow, t);
      }
      flow := AddNote(flow, notes[k]);
    }
    assert notes[..|notes|] == notes;
    return Flows(flow);
  }

  lemma EmptyFlow()
    ensures forall t :: NetFlow([], t) == 0
  {}

  /** The deficit check accepts the batch. */
  ghost predicate Accepted(notes: seq<FilledNote>) { Decoded(notes) && forall t :: 0 <= NetFlow(notes, t) <= MAX_U64 }

  /** Note `k` is the first of the batch that cannot be executed. */
  ghost predicate FirstBad(notes: seq<FilledNote>,
      k: nat) { k < |notes| && Decoded(notes[..k]) && !Executable(notes[k]) }

  /** Accumulate the net flow of a batch, then sweep the surplus or reject the batch. */
  method PrepareBatch(notes: seq<FilledNote>) returns (r: Prepared)
    // The verdict depends on the flows alone, not on the order in which the tokens are visited.
    ensures r.Ready? <==> Accepted(notes)
    ensures r.Ready? ==> Swept(notes, r.surplus)
    ensures r.Undecodable? <==> exists k: nat :: FirstBad(notes, k) && notes[k].terms.None?
    ensures r.Unexecutable? <==> exists k: nat :: FirstBad(notes, k) && notes[k].terms.Some?
    ensures r.Insolvent? ==> Decoded(notes) && NetFlow(notes, r.token) + r.deficit == 0 < r.deficit
    ensures r.SurplusTooLarge? ==> Decoded(notes) && NetFlow(notes, r.token) > MAX_U64
  {
    var flows := Accumulate(notes);
    if flows.Failed? {
      var k := flows.at;
      assert FirstBad(notes, k);
      FirstBadUnique(notes, k);
      return if notes[k].terms.None? then Undecodable else Unexecutable;
    }
    assert forall k: nat :: !FirstBad(notes, k);
    hide FirstBad;
    var flow := flows.flow;
    var surplus: map<TokenId, Amount> := map[];
    var todo := flow.Keys;
    while todo != {}
      invariant todo <= flow.Keys
      invariant forall t :: t in flow && t !in todo ==> 0 <= flow[t] <= MAX_U64
      invariant forall t :: t in surplus <==> t in flow && t !in todo && 0 < flow[t]
      invariant forall t :: t in surplus ==> surplus[t] == flow[t]
      decreases |todo|
    {
      var t :| t in todo;
      assert FlowAt(flow, t) == NetFlow(notes, t);
      if flow[t] < 0 {
        return Insolvent(t, 0 - flow[t]);
      }
      if flow[t] > MAX_U64 {
        return SurplusTooLarge(t);
      }
      if flow[t] > 0 {
        surplus := surplus[t := flow[t]];
      }
      todo := todo - {t};
    }
    forall t
      ensures 0 <= NetFlow(notes, t) <= MAX_U64
      ensures NetFlow(notes, t) == if t in surplus then surplus[t] else 0
    {
      assert FlowAt(flow, t) == NetFlow(notes, t);
    }
    return Ready(surplus);
  }

  lemma FirstBadUnique(notes: seq<FilledNote>, k: nat)
    requires FirstBad(notes, k)
    ensures !Decoded(notes) && forall j: nat :: FirstBad(notes, j) ==> j == k
  {
    forall j: nat | FirstBad(notes, j)
      ensures j == k
    {}
  }

  /**
   * Conservation: everything brought in is paid back, left in a remainder, or swept; only positive amounts are swept.
   */
  ghost predicate Swept(notes: seq<FilledNote>, surplus: map<TokenId, Amount>)
    requires Decoded(notes)
  {
    && (forall t :: OfferedIn(notes, t) == Paybacks(notes, t) + Remainders(notes, t) + (if t in surplus then surplus[t] else 0))
    && forall t :: t in surplus ==> 0 < surplus[t]
  }

  // ---------------------------------------------------------------------------
  // Batches produced by an engine run
  // ---------------------------------------------------------------------------

  ghost predicate DistinctNoteIds(notes: seq<FilledNote>)
  {
    forall i, j :: 0 <= i < j < |notes| ==> notes[i].noteId != notes[j].noteId
  }

  /** `notes` settles exactly the orders in `filled`, each once, with its own terms and its fill so far. */
  ghost predicate BatchOf(notes: seq<FilledNote>, orders: Orders, filled: set<OrderId>)
  {
    && DistinctNoteIds(notes)
    && (forall id :: id in filled <==> exists k :: 0 <= k < |notes| && notes[k].noteId == id)
    && (forall k :: 0 <= k < |notes| ==> SettlesOrder(notes[k], orders))
  }

  ghost predicate SettlesOrder(n: FilledNote, orders: Orders)
  {
    && n.noteId in orders && orders[n.noteId].Valid()
    && var o := orders[n.noteId];
    && n.terms == Some(TermsOf(o))
    && n.requestedFilled == o.RequestedFilled()
  }

  ghost function IdsOf(notes: seq<FilledNote>): set<OrderId>
  {
    set k | 0 <= k < |notes| :: notes[k].noteId
  }

  /** The net flow of a batch is the summed net of the orders it settles. */
  lemma {:induction false} FlowIsNet(notes: seq<FilledNote>, orders: Orders, t: TokenId)
    requires DistinctNoteIds(notes) && forall k :: 0 <= k < |notes| ==> SettlesOrder(notes[k], orders)
    ensures Decoded(notes) && NetFlow(notes, t) == SumOver(Restrict(orders, IdsOf(notes)), NetOf(t))
  {
    if notes == [] {
      assert Restrict(orders, {}) == map[];
    } else {
      var init, last := notes[..|notes| - 1], notes[|notes| - 1];
      FlowIsNet(init, orders, t);
      var o := orders[last.noteId];
      assert last.noteId !in IdsOf(init);
      IdsOfLast(notes);
      var m := Restrict(orders, IdsOf(init));
      assert Restrict(orders, IdsOf(notes)) == m[last.noteId := o];
      SumUpdate(m, last.noteId, o, NetOf(t));
      NoteNet(last, o, t);
    }
  }

  lemma IdsOfLast(notes: seq<FilledNote>)
    requires notes != []
    ensures IdsOf(notes) == IdsOf(notes[..|notes| - 1]) + {notes[|notes| - 1].noteId}
  {
    var init := notes[..|notes| - 1];
    forall id | id in IdsOf(init)
      ensures id in IdsOf(notes)
    {
      var k :| 0 <= k < |init| && init[k].noteId == id;
      assert notes[k].noteId == id;
    }
    assert notes[|notes| - 1].noteId in IdsOf(notes);
  }

  /** The contribution of one note is release minus receipt. */
  lemma NoteNet(n: FilledNote, o: Order, t: TokenId)
    requires o.Valid() && n.terms == Some(TermsOf(o))
    requires n.requestedFilled == o.RequestedFilled()
    ensures NetOf(t)(o)
      == (if o.offeredToken == t then o.offered - Remainder(n.terms.value, n.requestedFilled) else 0)
         - (if o.requestedToken == t then n.requestedFilled else 0)
  {
    OutputLossless(o.offered, o.requested, o.RequestedFilled());
  }

  /** A batch of all touched orders of a run that started on whole orders carries exactly the run's net flow. */
  lemma BatchFlow(notes: seq<FilledNote>, b0: Book, b: Book, filled: set<OrderId>, t: TokenId)
    requires OrdersOk(b0.orders) && AllWhole(b0.orders) && OrdersOk(b.orders) && b.orders.Keys == b0.orders.Keys
    requires BatchOf(notes, b.orders, filled)
    requires forall id :: id in b.orders && id !in filled ==> b.orders[id] == b0.orders[id]
    ensures Decoded(notes) && NetFlow(notes, t) == SumOver(b.orders, NetOf(t))
  {
    FlowIsNet(notes, b.orders, t);
    assert IdsOf(notes) == filled;
    forall id | id in b.orders && id !in filled
      ensures NetOf(t)(b.orders[id]) == 0
    {
      var o := b.orders[id];
      OutputLossless(o.offered, o.requested, 0);
    }
    SumRestrict(b.orders, filled, NetOf(t));
  }
}
