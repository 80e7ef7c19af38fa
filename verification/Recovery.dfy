/** Booting: recover stuck rows and hydrate the matcher's book from the database. */
module Recovery {
  import opened Types
  import opened RateIndex
  import opened Book
  import opened Executor
  import opened Ticks
  import opened M = Matcher
  import D = Database
  import I = Ingest
  import L = Lifecycle

  /** From an empty book, hydration adds exactly the loaded ids, and parks none. */
  lemma {:induction false} HydratedKeys(b: Book, orders: seq<IngestOrder>, ids: set<OrderId>)
    requires b.orders == map[] && b.parked == map[]
    requires forall id :: id in ids <==> exists k :: 0 <= k < |orders| && orders[k].noteId == id
    ensures AddAll(b, orders).orders.Keys == ids && AddAll(b, orders).parked == map[]
  {
    if orders == [] {
      assert ids == {};
    } else {
      var init, last := orders[..|orders| - 1], orders[|orders| - 1];
      var before := set k | 0 <= k < |init| :: init[k].noteId;
      HydratedKeys(b, init, before);
      forall id
        ensures id in ids <==> id in before || id == last.noteId
      {
        if id in before {
          var k :| 0 <= k < |init| && init[k].noteId == id;
          assert orders[k].noteId == id;
        }
        if id == last.noteId {
          assert orders[|init|].noteId == id;
        }
      }
    }
  }

  /** Loaded orders are honest ingest orders. */
  lemma LoadedOk(db: D.Tables, out: seq<IngestOrder>, noteOf: NoteOf)
    requires L.RowsOk(db, noteOf) && D.LoadedFrom(db, out)
    ensures forall k :: 0 <= k < |out| ==> M.IngestOk(out[k], noteOf)
  {
    forall k | 0 <= k < |out|
      ensures M.IngestOk(out[k], noteOf)
    {
      var id := out[k].noteId;
      assert id in db.orders && id in db.notes;
      D.CastRoundTrip(noteOf(id).offered);
      D.CastRoundTrip(noteOf(id).requested);
    }
  }

  /** The rows that are loaded after recovery are exactly the unsettled ones. */
  lemma RecoveredLoads(db: D.Tables, noteOf: NoteOf)
    requires L.RowsOk(db, noteOf)
    ensures var db' := db.(orders := D.Recovered(db.orders)); L.RowsOk(db', noteOf) && D.Loadable(db') == L.Unsettled(db)
  {
    L.StatusRowsOk(db, D.Recovered(db.orders), noteOf);
  }

  /**
   * Boot recovery and hydration: every unsettled order is back in the book, whole, matchable and at its original terms.
   */
  method Boot(db: D.Database, m: Matcher, nowUnix: Amount)
    requires db.Valid() && L.RowsOk(db.View(), m.noteOf)
    requires m.Valid() && m.engine.book.orders == map[] && m.engine.book.parked == map[]
    modifies db`orders, m`rawNotes, m`arrivals, m.engine.book
    ensures m.Valid() && m.engine.book.orders.Keys == L.Unsettled(old(db.View())) && m.engine.book.parked == map[]
    ensures forall id :: id in m.engine.book.orders ==>
      id in m.engine.book.fifo && m.engine.book.orders[id].IsWhole() && TermsOf(m.engine.book.orders[id]) == m.noteOf(id)
    ensures db.Valid() && db.View() == old(db.View()).(orders := D.Recovered(old(db.orders)))
  {
    hide StateOk;
    hide WellFormed;
    hide IndexOk;
    hide AddAll;
    hide L.RowsOk;
    hide L.Unsettled;
    hide D.Recovered;
    hide D.Loadable;
    hide D.LoadedFrom;
    hide M.IngestOk;
    RecoveredLoads(db.View(), m.noteOf);
    var _ := db.ResetAllSettlingToActive();
    var loaded := db.LoadActiveOrdersWithNotes();
    LoadedOk(db.View(), loaded, m.noteOf);
    LoadedIds(db.View(), loaded);
    HydratedKeys(m.engine.book.View(), loaded, D.Loadable(db.View()));
    m.DrainOrders(loaded, nowUnix);
    AllMatchable(m.engine.book.View(), m.rawNotes, m.arrivals, m.lastNow, m.noteOf);
  }

  lemma LoadedIds(db: D.Tables, out: seq<IngestOrder>)
    requires D.LoadedFrom(db, out)
    ensures forall id :: id in D.Loadable(db) <==> exists k :: 0 <= k < |out| && out[k].noteId == id
  {}

  lemma AllMatchable(b: Book, raw: RawNotes, arrivals: Arrivals, now: Amount, noteOf: NoteOf)
    requires StateOk(b, raw, arrivals, now, noteOf) && b.parked == map[]
    ensures forall id :: id in b.orders ==> id in b.fifo && b.orders[id].IsWhole() && TermsOf(b.orders[id]) == noteOf(id)
  {}
}
