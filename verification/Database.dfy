/** The durable tables: insert-or-ignore, status updates, boot recovery and hydration. */
module Database {
  import opened Types
  import opened RateIndex
  import opened Executor

  datatype Status = Active | Settling | Executed | OnchainNullified

  datatype NoteRow = NoteRow(noteId: OrderId, raw: Option<NoteTerms>)

  /** Amounts are stored as signed 64-bit integers. */
  datatype OrderRow = OrderRow(
    noteId: OrderId, requestedAsset: TokenId, requestedAmount: int, offeredAsset: TokenId, offeredAmount: int, status: Status)

  datatype Tables = Tables(notes: RawNotes, orders: map<OrderId, OrderRow>, cursor: int)

  // ---------------------------------------------------------------------------
  // Amounts through the signed column
  // ---------------------------------------------------------------------------

  const TWO_63: int := 0x8000_0000_0000_0000

  /** The bit-preserving cast of an unsigned amount to a signed column value. */
  function ToI64(u: Amount): (i: int)
    ensures -TWO_63 <= i < TWO_63
  {
    if u < TWO_63 then u else u - TWO_64
  }

  function ToU64(i: int): Amount { i % TWO_64 }

  lemma CastRoundTrip(u: Amount)
    ensures ToU64(ToI64(u)) == u
  {
    if u >= TWO_63 {
      assert (u - TWO_64) % TWO_64 == u;
    }
  }

  function RowOf(id: OrderId, t: NoteTerms): OrderRow
  {
    OrderRow(id, t.requestedToken, ToI64(t.requested), t.offeredToken, ToI64(t.offered), Active)
  }

  function OrderOf(row: OrderRow, raw: Option<NoteTerms>): IngestOrder
  {
    IngestOrder(row.noteId, row.offeredAsset, row.requestedAsset, ToU64(row.offeredAmount), ToU64(row.requestedAmount), raw)
  }

  // ---------------------------------------------------------------------------
  // Table operations
  // ---------------------------------------------------------------------------

  ghost function InsertNotes(notes: RawNotes, rows: seq<NoteRow>): RawNotes
  {
    if rows == [] then notes
    else
      var before, last := InsertNotes(notes, rows[..|rows| - 1]), rows[|rows| - 1];
      if last.noteId in before then before else before[last.noteId := last.raw]
  }

  ghost function InsertOrders(orders: map<OrderId, OrderRow>, rows: seq<OrderRow>): map<OrderId, OrderRow>
  {
    if rows == [] then orders
    else
      var before, last := InsertOrders(orders, rows[..|rows| - 1]), rows[|rows| - 1];
      if last.noteId in before then before else before[last.noteId := last]
  }

  ghost predicate Lists(rows: seq<OrderRow>, id: OrderId) { exists k :: 0 <= k < |rows| && rows[k].noteId == id }

  /** Known rows stay as they are, and of several new rows with one id the first wins. */
  lemma {:induction false} InsertOrdersSpec(orders: map<OrderId, OrderRow>, rows: seq<OrderRow>)
    ensures forall id :: id in InsertOrders(orders, rows) <==> id in orders || Lists(rows, id)
    ensures forall id :: id in orders ==> InsertOrders(orders, rows)[id] == orders[id]
    ensures forall k :: 0 <= k < |rows| && rows[k].noteId !in orders && (forall j :: 0 <= j < k ==> rows[j].noteId != rows[k].noteId) ==>
      rows[k].noteId in InsertOrders(orders, rows) && InsertOrders(orders, rows)[rows[k].noteId] == rows[k]
  {
    if rows != [] {
      var init, last := rows[..|rows| - 1], rows[|rows| - 1];
      InsertOrdersSpec(orders, init);
      assert rows == init + [last];
      forall id
        ensures Lists(rows, id) <==> Lists(init, id) || id == last.noteId
      {
        if Lists(init, id) {
          var k :| 0 <= k < |init| && init[k].noteId == id;
          assert rows[k].noteId == id;
        }
        if id == last.noteId {
          assert rows[|init|].noteId == id;
        }
      }
      forall k | 0 <= k < |init|
        ensures Lists(init, init[k].noteId)
      {}
    }
  }

  lemma {:induction false} InsertNotesSpec(notes: RawNotes, rows: seq<NoteRow>)
    ensures forall id :: id in notes ==> id in InsertNotes(notes, rows) && InsertNotes(notes, rows)[id] == notes[id]
    ensures forall k :: 0 <= k < |rows| ==> rows[k].noteId in InsertNotes(notes, rows)
    ensures forall id :: id in InsertNotes(notes, rows) && id !in notes ==>
      exists k :: 0 <= k < |rows| && rows[k] == NoteRow(id, InsertNotes(notes, rows)[id])
  {
    if rows != [] {
      var init := rows[..|rows| - 1];
      InsertNotesSpec(notes, init);
      assert rows == init + [rows[|rows| - 1]];
      forall id | id in InsertNotes(notes, init) && id !in notes
        ensures exists k :: 0 <= k < |rows| && rows[k] == NoteRow(id, InsertNotes(notes, init)[id])
      {
        var k :| 0 <= k < |init| && init[k] == NoteRow(id, InsertNotes(notes, init)[id]);
        assert rows[k] == init[k];
      }
    }
  }

  function SetStatus(orders: map<OrderId, OrderRow>, ids: set<OrderId>, status: Status): map<OrderId, OrderRow>
  {
    map id | id in orders :: if id in ids then orders[id].(status := status) else orders[id]
  }

  function IdSet(ids: seq<OrderId>): set<OrderId> { set id | id in ids }

  predicate Live(row: OrderRow) { row.status == Active || row.status == Settling }

  function LiveAmong(orders: map<OrderId, OrderRow>, ids: set<OrderId>): set<OrderId>
  {
    set id | id in ids && id in orders && Live(orders[id])
  }

  function WithStatus(orders: map<OrderId, OrderRow>, status: Status): set<OrderId>
  {
    set id | id in orders && orders[id].status == status
  }

  /** What the inner join returns: active rows that also have a note row. */
  function Loadable(t: Tables): set<OrderId>
  {
    set id | id in t.orders && t.orders[id].status == Active && id in t.notes
  }

  /** The primary key of an order row is its note id. */
  ghost predicate Keyed(orders: map<OrderId, OrderRow>) { forall id :: id in orders ==> orders[id].noteId == id }

  lemma {:induction false} InsertKeyed(orders: map<OrderId, OrderRow>, rows: seq<OrderRow>)
    requires Keyed(orders)
    ensures Keyed(InsertOrders(orders, rows))
  {
    if rows != [] {
      InsertKeyed(orders, rows[..|rows| - 1]);
    }
  }

  ghost function Nullify(orders: map<OrderId, OrderRow>, ids: set<OrderId>): map<OrderId, OrderRow>
  {
    map id | id in orders :: if id in ids && Live(orders[id]) then orders[id].(status := OnchainNullified) else orders[id]
  }

  ghost function Recovered(orders: map<OrderId, OrderRow>): map<OrderId, OrderRow>
  {
    map id | id in orders :: if orders[id].status == Settling then orders[id].(status := Active) else orders[id]
  }

  /** `out` holds exactly the loadable orders, each once. */
  ghost predicate LoadedFrom(t: Tables, out: seq<IngestOrder>)
  {
    && (forall k :: 0 <= k < |out| ==> out[k].noteId in Loadable(t) && out[k] == OrderOf(t.orders[out[k].noteId], t.notes[out[k].noteId]))
    && (forall id :: id in Loadable(t) ==> exists k :: 0 <= k < |out| && out[k].noteId == id)
    && forall i, j :: 0 <= i < j < |out| ==> out[i].noteId != out[j].noteId
  }

  class Database {
    var notes: RawNotes
    var orders: map<OrderId, OrderRow>
    var cursor: int

    ghost function View(): Tables
      reads this
    {
      Tables(notes, orders, cursor)
    }

    ghost predicate Valid()
      reads this
    {
      Keyed(orders)
    }

    constructor ()
      ensures Valid() && View() == Tables(map[], map[], 0)
    {
      notes, orders, cursor := map[], map[], 0;
    }

    /** One transaction: new notes, new orders, and the block cursor. Returns the ids seen for the first time. */
    method InsertNotesBatch(newNotes: seq<NoteRow>, newOrders: seq<OrderRow>,
        block: Amount) returns (inserted: set<OrderId>)
      requires Valid()
      modifies this
      ensures Valid() && View() == Tables(InsertNotes(old(notes), newNotes), InsertOrders(old(orders), newOrders), ToI64(block))
      ensures forall id :: id in inserted <==> id !in old(orders) && Lists(newOrders, id)
    {
      assert newNotes[..0] == [] && newOrders[..0] == [];
      for k := 0 to |newNotes|
        invariant notes == InsertNotes(old(notes), newNotes[..k]) && orders == old(orders)
      {
        assert newNotes[..k + 1][..k] == newNotes[..k];
        if newNotes[k].noteId !in notes {
          notes := notes[newNotes[k].noteId := newNotes[k].raw];
        }
      }
      assert newNotes[..|newNotes|] == newNotes;
      inserted := {};
      for k := 0 to |newOrders|
        invariant notes == InsertNotes(old(notes), newNotes)
        invariant orders == InsertOrders(old(orders), newOrders[..k])
        invariant forall id :: id in inserted <==> id in orders && id !in old(orders)
        invariant forall id :: id in old(orders) ==> id in orders
      {
        assert newOrders[..k + 1][..k] == newOrders[..k];
        if newOrders[k].noteId !in orders {
          orders := orders[newOrders[k].noteId := newOrders[k]];
          inserted := inserted + {newOrders[k].noteId};
        }
      }
      assert newOrders[..|newOrders|] == newOrders;
      InsertOrdersSpec(old(orders), newOrders);
      InsertKeyed(old(orders), newOrders);
      cursor := ToI64(block);
    }

    /** Unguarded: overwrites whatever status the rows have. */
    method UpdateOrdersStatus(ids: seq<OrderId>, status: Status) returns (count: nat)
      requires Valid()
      modifies this`orders
      ensures Valid() && orders == SetStatus(old(orders), IdSet(ids), status)
      ensures count == |IdSet(ids) * old(orders).Keys|
    {
      var known := IdSet(ids) * orders.Keys;
      count := |known|;
      orders := SetStatus(orders, IdSet(ids), status);
    }

    /** Guarded: only active and settling rows become terminal. */
    method MarkOrdersOnchainNullified(ids: seq<OrderId>) returns (count: nat)
      requires Valid()
      modifies this`orders
      ensures Valid() && orders == Nullify(old(orders), IdSet(ids))
      ensures count == |LiveAmong(old(orders), IdSet(ids))|
    {
      var hit := LiveAmong(orders, IdSet(ids));
      count := |hit|;
      orders := SetStatus(orders, hit, OnchainNullified);
    }

    /** Boot recovery. */
    method ResetAllSettlingToActive() returns (count: nat)
      requires Valid()
      modifies this`orders
      ensures Valid() && orders == Recovered(old(orders)) && count == |WithStatus(old(orders), Settling)|
    {
      var stuck := WithStatus(orders, Settling);
      count := |stuck|;
      orders := SetStatus(orders, stuck, Active);
    }

    /** Active orders joined with their notes, each once, in no particular order. */
    method LoadActiveOrdersWithNotes() returns (out: seq<IngestOrder>)
      requires Valid()
      ensures LoadedFrom(View(), out)
    {
      out := [];
      var todo := Loadable(Tables(notes, orders, cursor));
      ghost var all := todo;
      while todo != {}
        invariant todo <= all
        invariant forall k :: 0 <= k < |out| ==>
          out[k].noteId in all && out[k].noteId !in todo && out[k] == OrderOf(orders[out[k].noteId], notes[out[k].noteId])
        invariant forall id :: id in all && id !in todo ==> exists k :: 0 <= k < |out| && out[k].noteId == id
        invariant forall i, j :: 0 <= i < j < |out| ==> out[i].noteId != out[j].noteId
        decreases |todo|
      {
        hide OrderOf;
        hide Loadable;
        var id :| id in todo;
        ghost var before := out;
        out := out + [OrderOf(orders[id], notes[id])];
        assert out[|before|].noteId == id;
        forall x | x in all && x !in todo
          ensures exists k :: 0 <= k < |out| && out[k].noteId == x
        {
          var k :| 0 <= k < |before| && before[k].noteId == x;
          assert out[k].noteId == x;
        }
        todo := todo - {id};
      }
    }
  }
}
