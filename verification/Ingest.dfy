/** One ingest iteration: persist first, then forward only what was seen for the first time. */
module Ingest {
  import opened Types
  import opened Executor
  import opened Database

  /** A synced note; `terms` is `None` if it is not a swap note or does not parse as one. */
  datatype IncomingNote = IncomingNote(id: OrderId, terms: Option<NoteTerms>)

  /** Parsing also rejects zero amounts. */
  function FromNote(n: IncomingNote): Option<NoteTerms>
  {
    if n.terms.Some? && 0 < n.terms.value.offered && 0 < n.terms.value.requested then n.terms else None
  }

  /** The notes that parse, in order. */
  function Parsed(notes: seq<IncomingNote>): seq<(OrderId, NoteTerms)>
  {
    if notes == [] then []
    else
      var before, last := Parsed(notes[..|notes| - 1]), notes[|notes| - 1];
      if FromNote(last).Some? then before + [(last.id, FromNote(last).value)] else before
  }

  function Original(id: OrderId, t: NoteTerms): IngestOrder
  {
    IngestOrder(id, t.offeredToken, t.requestedToken, t.offered, t.requested, Some(t))
  }

  /** The columns of a stored order hold its note's own tokens and amounts, and loading it gives the order back. */
  lemma RowRoundTrip(id: OrderId, t: NoteTerms)
    ensures var row := RowOf(id, t);
      && row.noteId == id && row.status == Active
      && row.offeredAsset == t.offeredToken && row.offeredAmount % TWO_64 == t.offered
      && row.requestedAsset == t.requestedToken && row.requestedAmount % TWO_64 == t.requested
      && OrderOf(row, Some(t)) == Original(id, t)
  {
    CastRoundTrip(t.offered);
    CastRoundTrip(t.requested);
  }

  ghost function NoteRows(parsed: seq<(OrderId, NoteTerms)>): (r: seq<NoteRow>)
    ensures |r| == |parsed|
  {
    seq(|parsed|, k requires 0 <= k < |parsed| => NoteRow(parsed[k].0, Some(parsed[k].1)))
  }

  ghost function OrderRows(parsed: seq<(OrderId, NoteTerms)>): (r: seq<OrderRow>)
    ensures |r| == |parsed|
  {
    seq(|parsed|, k requires 0 <= k < |parsed| => RowOf(parsed[k].0, parsed[k].1))
  }

  ghost function Orders(parsed: seq<(OrderId, NoteTerms)>): (r: seq<IngestOrder>)
    ensures |r| == |parsed|
  {
    seq(|parsed|, k requires 0 <= k < |parsed| => Original(parsed[k].0, parsed[k].1))
  }

  /** The tables once a sync's notes are stored; without any swap note not even the cursor moves. */
  ghost function Stored(t: Tables, parsed: seq<(OrderId, NoteTerms)>, block: Amount): Tables
  {
    if parsed == [] then t
    else Tables(InsertNotes(t.notes, NoteRows(parsed)), InsertOrders(t.orders, OrderRows(parsed)), ToI64(block))
  }

  /** What is forwarded: the parsed orders whose id had no row yet. */
  ghost function FirstSeen(orders: map<OrderId, OrderRow>, parsed: seq<(OrderId, NoteTerms)>): seq<IngestOrder>
  {
    if parsed == [] then []
    else
      var before, last := FirstSeen(orders, parsed[..|parsed| - 1]), parsed[|parsed| - 1];
      if last.0 in orders then before else before + [Original(last.0, last.1)]
  }

  ghost predicate DistinctOrders(orders: seq<IngestOrder>) { forall i,
      j :: 0 <= i < j < |orders| ==> orders[i].noteId != orders[j].noteId }

  /** No two notes of the sync share an id that is new. */
  ghost predicate FreshIdsDistinct(orders: map<OrderId, OrderRow>, parsed: seq<(OrderId, NoteTerms)>)
  {
    forall i, j :: 0 <= i < j < |parsed| && parsed[i].0 == parsed[j].0 ==> parsed[i].0 in orders
  }

  ghost predicate Carries(orders: seq<IngestOrder>,
      id: OrderId) { exists k :: 0 <= k < |orders| && orders[k].noteId == id }

  ghost predicate Names(parsed: seq<(OrderId, NoteTerms)>,
      id: OrderId) { exists k :: 0 <= k < |parsed| && parsed[k].0 == id }

  lemma CarriesAppend(s: seq<IngestOrder>, o: IngestOrder, id: OrderId)
    ensures Carries(s + [o], id) <==> Carries(s, id) || o.noteId == id
    ensures DistinctOrders(s + [o]) <==> DistinctOrders(s) && !Carries(s, o.noteId)
  {
    var s' := s + [o];
    assert s'[|s|] == o && forall k :: 0 <= k < |s| ==> s'[k] == s[k];
  }

  lemma NamesAppend(orders: map<OrderId, OrderRow>, s: seq<(OrderId, NoteTerms)>, p: (OrderId, NoteTerms), id: OrderId)
    ensures Names(s + [p], id) <==> Names(s, id) || p.0 == id
    ensures FreshIdsDistinct(orders, s + [p]) <==> FreshIdsDistinct(orders, s) && (Names(s, p.0) ==> p.0 in orders)
  {
    var s' := s + [p];
    assert s'[|s|] == p && forall k :: 0 <= k < |s| ==> s'[k] == s[k];
  }

  /** An id is forwarded if and only if the sync names it and it had no row. */
  lemma {:induction false} FirstSeenIds(orders: map<OrderId, OrderRow>, parsed: seq<(OrderId, NoteTerms)>, id: OrderId)
    ensures Carries(FirstSeen(orders, parsed), id) <==> Names(parsed, id) && id !in orders
  {
    if parsed != [] {
      var init, last := parsed[..|parsed| - 1], parsed[|parsed| - 1];
      assert parsed == init + [last];
      FirstSeenIds(orders, init, id);
      NamesAppend(orders, init, last, id);
      CarriesAppend(FirstSeen(orders, init), Original(last.0, last.1), id);
    }
  }

  /** Each new id is forwarded exactly once if and only if the sync lists no new id twice. */
  lemma {:induction false} ForwardedOnce(orders: map<OrderId, OrderRow>, parsed: seq<(OrderId, NoteTerms)>)
    ensures DistinctOrders(FirstSeen(orders, parsed)) <==> FreshIdsDistinct(orders, parsed)
  {
    if parsed != [] {
      var init, last := parsed[..|parsed| - 1], parsed[|parsed| - 1];
      assert parsed == init + [last];
      hide DistinctOrders;
      hide FreshIdsDistinct;
      hide Carries;
      hide Names;
      ForwardedOnce(orders, init);
      FirstSeenIds(orders, init, last.0);
      NamesAppend(orders, init, last, last.0);
      CarriesAppend(FirstSeen(orders, init), Original(last.0, last.1), last.0);
    }
  }

  /** A sync that lists a new note twice forwards it twice. */
  lemma ListedTwiceForwardedTwice(t: NoteTerms)
    ensures FirstSeen(map[], [(1, t), (1, t)]) == [Original(1, t), Original(1, t)]
  {
    var p: (OrderId, NoteTerms) := (1, t);
    assert [p, p][..1] == [p] && [p][..0] == [];
    assert FirstSeen(map[], [p]) == [Original(1, t)];
  }

  /**
   * One iteration. `accepts` says how many orders the matcher still takes before its channel closes. Whatever is sent is in
   * the tables already, and a closed channel loses only messages, never rows.
   */
  method IngestOnce(db: Database, block: Amount, newNotes: seq<IncomingNote>, consumed: seq<OrderId>, accepts: nat)
    returns (ok: bool, dropped: seq<OrderId>, sent: seq<IngestOrder>)
    requires db.Valid()
    modifies db
    ensures db.Valid() && dropped == consumed
    ensures var nulled := Nullify(old(db.orders), IdSet(consumed));
      && db.View() == Stored(old(db.View()).(orders := nulled), Parsed(newNotes), block)
      && sent <= FirstSeen(nulled, Parsed(newNotes))
      && ok == (|FirstSeen(nulled, Parsed(newNotes))| <= accepts) && (ok ==> sent == FirstSeen(nulled, Parsed(newNotes)))
    ensures forall k :: 0 <= k < |sent| ==> sent[k].noteId in db.orders && sent[k].noteId in db.notes
    ensures if Parsed(newNotes) == [] then db.cursor == old(db.cursor) else ToU64(db.cursor) == block
  {
    hide FirstSeen;
    hide Nullify;
    NullifyNone(db.orders);
    if consumed != [] {
      var _ := db.MarkOrdersOnchainNullified(consumed);
    }
    dropped := consumed;
    ghost var nulled := Nullify(old(db.orders), IdSet(consumed));
    assert db.orders == nulled;
    var dbNotes, dbOrders, orders := ParseNotes(newNotes);
    ghost var parsed := Parsed(newNotes);
    if dbNotes == [] {
      NothingSeen(nulled);
      return true, dropped, [];
    }
    assert parsed != [];
    var inserted := db.InsertNotesBatch(dbNotes, dbOrders, block);
    CastRoundTrip(block);
    StoredRows(old(db.notes), nulled, parsed);
    ok, sent := ForwardOrders(orders, inserted, accepts, nulled, parsed);
    SentAreNamed(nulled, parsed, sent);
  }

  /** Send the first-seen orders until the channel closes. */
  method ForwardOrders(orders: seq<IngestOrder>, inserted: set<OrderId>, accepts: nat,
    ghost known: map<OrderId, OrderRow>, ghost parsed: seq<(OrderId, NoteTerms)>)
    returns (ok: bool, sent: seq<IngestOrder>)
    requires orders == Orders(parsed) && forall k :: 0 <= k < |parsed| ==> (parsed[k].0 in inserted <==> parsed[k].0 !in known)
    ensures sent <= FirstSeen(known, parsed) && ok == (|FirstSeen(known, parsed)| <= accepts)
    ensures ok ==> sent == FirstSeen(known, parsed)
  {
    hide FirstSeen;
    sent := [];
    NothingSeen(known);
    assert parsed[..0] == [];
    for k := 0 to |orders|
      invariant sent == FirstSeen(known, parsed[..k]) && |sent| <= accepts
    {
      SeenStep(known, parsed, k);
      SeenPrefix(known, parsed, k + 1);
      if orders[k].noteId in inserted {
        if |sent| == accepts {
          return false, sent;
        }
        sent := sent + [orders[k]];
      }
    }
    assert parsed[..|parsed|] == parsed;
    ok := true;
  }

  lemma SentAreNamed(known: map<OrderId, OrderRow>, parsed: seq<(OrderId, NoteTerms)>, sent: seq<IngestOrder>)
    requires sent <= FirstSeen(known, parsed)
    ensures forall k :: 0 <= k < |sent| ==> Names(parsed, sent[k].noteId)
  {
    forall k | 0 <= k < |sent|
      ensures Names(parsed, sent[k].noteId)
    {
      assert FirstSeen(known, parsed)[k] == sent[k];
      FirstSeenIds(known, parsed, sent[k].noteId);
    }
  }

  /** Split the swap notes of a sync into rows and messages; everything else is skipped. */
  method ParseNotes(notes: seq<IncomingNote>) returns (dbNotes: seq<NoteRow>, dbOrders: seq<OrderRow>,
      orders: seq<IngestOrder>)
    ensures dbNotes == NoteRows(Parsed(notes)) && dbOrders == OrderRows(Parsed(notes)) && orders == Orders(Parsed(notes))
  {
    dbNotes, dbOrders, orders := [], [], [];
    assert notes[..0] == [];
    for k := 0 to |notes|
      invariant dbNotes == NoteRows(Parsed(notes[..k])) && dbOrders == OrderRows(Parsed(notes[..k])) && orders == Orders(Parsed(notes[..k]))
    {
      assert notes[..k + 1][..k] == notes[..k];
      var terms := FromNote(notes[k]);
      if terms.Some? {
        dbNotes := dbNotes + [NoteRow(notes[k].id, terms)];
        dbOrders := dbOrders + [RowOf(notes[k].id, terms.value)];
        orders := orders + [Original(notes[k].id, terms.value)];
      }
    }
    assert notes[..|notes|] == notes;
  }

  lemma NullifyNone(orders: map<OrderId, OrderRow>)
    ensures Nullify(orders, IdSet([])) == orders
  {}

  lemma NothingSeen(orders: map<OrderId, OrderRow>)
    ensures FirstSeen(orders, []) == []
  {}

  lemma SeenStep(orders: map<OrderId, OrderRow>, parsed: seq<(OrderId, NoteTerms)>, k: nat)
    requires k < |parsed|
    ensures FirstSeen(orders, parsed[..k + 1]) ==
      if parsed[k].0 in orders then FirstSeen(orders, parsed[..k])
      else FirstSeen(orders, parsed[..k]) + [Original(parsed[k].0, parsed[k].1)]
  {
    assert parsed[..k + 1][..k] == parsed[..k];
  }

  lemma {:induction false} SeenPrefix(orders: map<OrderId, OrderRow>, parsed: seq<(OrderId, NoteTerms)>, k: nat)
    requires k <= |parsed|
    ensures FirstSeen(orders, parsed[..k]) <= FirstSeen(orders, parsed)
    decreases |parsed| - k
  {
    if k == |parsed| {
      assert parsed[..k] == parsed;
    } else {
      SeenPrefix(orders, parsed, k + 1);
      SeenStep(orders, parsed, k);
    }
  }

  /** Every parsed note has both rows afterwards. */
  lemma StoredRows(notes: RawNotes, orders: map<OrderId, OrderRow>, parsed: seq<(OrderId, NoteTerms)>)
    ensures forall k :: 0 <= k < |parsed| ==>
      && parsed[k].0 in InsertNotes(notes, NoteRows(parsed)) && parsed[k].0 in InsertOrders(orders, OrderRows(parsed))
      && Lists(OrderRows(parsed), parsed[k].0)
  {
    InsertNotesSpec(notes, NoteRows(parsed));
    InsertOrdersSpec(orders, OrderRows(parsed));
    forall k | 0 <= k < |parsed|
      ensures parsed[k].0 in InsertNotes(notes, NoteRows(parsed)) && parsed[k].0 in InsertOrders(orders, OrderRows(parsed))
        && Lists(OrderRows(parsed), parsed[k].0)
    {
      assert NoteRows(parsed)[k].noteId == parsed[k].0 && OrderRows(parsed)[k].noteId == parsed[k].0;
    }
  }
}
