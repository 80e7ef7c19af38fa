/** Routing residual notes to DEXes: from the book's listings to the handover, and what becomes of it. */
module Routing {
  import opened Types
  import opened RateIndex
  import opened B = Book
  import opened OrderBook
  import opened Ledger
  import opened Parking
  import opened Select
  import opened RouterServer

  // ---------------------------------------------------------------------------
  // Candidates
  // ---------------------------------------------------------------------------

  /** Only whole notes are routed. */
  function WholeOnly(notes: seq<Order>): seq<Order>
  {
    if notes == [] then []
    else if notes[0].IsWhole() then [notes[0]] + WholeOnly(notes[1..])
    else WholeOnly(notes[1..])
  }

  lemma {:induction false} WholeOnlyAll(notes: seq<Order>)
    requires forall k :: 0 <= k < |notes| ==> notes[k].IsWhole()
    ensures WholeOnly(notes) == notes
  {
    if notes != [] {
      WholeOnlyAll(notes[1..]);
    }
  }

  ghost function NoteIds(notes: seq<Order>): (r: seq<OrderId>)
    ensures |r| == |notes| && forall i :: 0 <= i < |r| ==> r[i] == notes[i].id
  {
    seq(|notes|, i requires 0 <= i < |notes| => notes[i].id)
  }

  /** A price-time listing names matchable orders of its pair, each once. */
  lemma ListingFacts(orders: Orders, s: seq<OrderId>, p: Pair, notes: seq<Order>)
    requires Covers(orders, s) && NoDup(s) && IsListing(orders, s, p, NoteIds(notes))
    requires forall i :: 0 <= i < |notes| ==> notes[i].id in orders && notes[i] == orders[notes[i].id]
    ensures forall i :: 0 <= i < |notes| ==> notes[i].id in s && notes[i].Pair() == p && notes[i].Valid()
    ensures DistinctIds(notes)
    ensures forall id :: id in s && orders[id].Pair() == p ==> exists k :: 0 <= k < |notes| && notes[k].id == id
  {
    hide Before;
    var ids := NoteIds(notes);
    forall i | 0 <= i < |notes|
      ensures notes[i].id in s && notes[i].Pair() == p && notes[i].Valid()
    {
      assert ids[i] in ids;
    }
    forall i, j | 0 <= i < j < |notes|
      ensures notes[i].id != notes[j].id
    {
      assert Before(orders, s, ids[i], ids[j]);
      NotBeforeItself(orders, s, ids[i]);
    }
    forall id | id in s && orders[id].Pair() == p
      ensures exists k :: 0 <= k < |notes| && notes[k].id == id
    {
      assert id in ids;
    }
  }

  lemma NotBeforeItself(orders: Orders, s: seq<OrderId>, x: OrderId)
    requires Covers(orders, s) && NoDup(s) && x in s
    ensures !Before(orders, s, x, x)
  {}

  lemma BookListing(b: Book, p: Pair, all: seq<Order>)
    requires WellFormed(b) && AllWhole(b.orders) && IsListing(b.orders, b.fifo, p, NoteIds(all))
    requires forall k :: 0 <= k < |all| ==> all[k].id in b.orders && all[k] == b.orders[all[k].id]
    ensures WholeOnly(all) == all && DistinctIds(all)
    ensures forall k :: 0 <= k < |all| ==> all[k].id in b.fifo && all[k].Pair() == p && all[k].Valid()
    ensures forall id :: id in b.fifo && b.orders[id].Pair() == p ==> exists k :: 0 <= k < |all| && all[k].id == id
  {
    assert Covers(b.orders, b.fifo) && NoDup(b.fifo) && forall k :: 0 <= k < |all| ==> all[k].IsWhole();
    hide WellFormed;
    hide IsListing;
    hide WholeOnly;
    hide DistinctIds;
    hide NoDup;
    ListingFacts(b.orders, b.fifo, p, all);
    WholeOnlyAll(all);
  }

  /** `notes` holds, for each quoted pair, whole matchable orders of that pair, each once. */
  ghost predicate CandidatesOk(b: Book, notes: NotesByPair)
  {
    forall p, k :: p in notes && 0 <= k < |notes[p]| ==>
      var n := notes[p][k]; n.id in b.fifo && n.id in b.orders && n == b.orders[n.id] && n.Pair() == p && n.Valid()
  }

  /** The candidates of `p` include the matchable order `id`. */
  ghost predicate Offers(notes: NotesByPair, p: Pair, id: OrderId)
  {
    exists k :: 0 <= k < |NotesAt(notes, p)| && NotesAt(notes, p)[k].id == id
  }

  /** No matchable order of a quoted pair is missing. */
  ghost predicate CandidatesAll(b: Book, quotes: QuotesByPair, notes: NotesByPair)
  {
    forall id :: id in b.fifo && id in b.orders && b.orders[id].Pair() in quotes ==> Offers(notes, b.orders[id].Pair(), id)
  }

  lemma CandidatesFacts(b: Book, notes: NotesByPair)
    requires CandidatesOk(b, notes) && forall p :: p in notes ==> DistinctIds(notes[p])
    ensures DistinctNotes(notes) && forall p, k :: p in notes && 0 <= k < |notes[p]| ==> notes[p][k].Valid()
  {
    forall p, q, i, j | 0 <= i < |NotesAt(notes, p)| && 0 <= j < |NotesAt(notes, q)|
      && NotesAt(notes, p)[i].id == NotesAt(notes, q)[j].id
      ensures p == q && i == j
    {
      assert NotesAt(notes, p)[i].Pair() == p && NotesAt(notes, q)[j].Pair() == q;
    }
  }

  // ---------------------------------------------------------------------------
  // The handover
  // ---------------------------------------------------------------------------

  /** The ids and DEXes of a batch of handovers. */
  ghost function Handed(items: seq<RoutedNote>): (r: seq<(OrderId, DexId)>)
    ensures |r| == |items| && forall k :: 0 <= k < |r| ==> r[k] == (items[k].noteId, items[k].dex)
  {
    seq(|items|, k requires 0 <= k < |items| => (items[k].noteId, items[k].dex))
  }

  function ItemOf(pick: Pick): RoutedNote { RoutedNote(pick.dex, pick.noteId, pick.fill, pick.pair) }

  ghost function Items(picks: seq<Pick>): (r: seq<RoutedNote>)
    ensures |r| == |picks| && forall k :: 0 <= k < |r| ==> r[k] == ItemOf(picks[k])
  {
    seq(|picks|, k requires 0 <= k < |picks| => ItemOf(picks[k]))
  }

  /** How much a handover asks one DEX to fill on one pair. */
  ghost function Load(items: seq<RoutedNote>, dex: DexId, pair: Pair): nat
  {
    if items == [] then 0
    else
      var last := items[|items| - 1];
      Load(items[..|items| - 1], dex, pair) + if last.dex == dex && last.pair == pair then last.fill else 0
  }

  lemma {:induction false} LoadIsHanded(picks: seq<Pick>, dex: DexId, pair: Pair)
    ensures Load(Items(picks), dex, pair) == HandedTo(picks, dex, pair)
  {
    if picks != [] {
      LoadIsHanded(picks[..|picks| - 1], dex, pair);
      assert Items(picks)[..|picks| - 1] == Items(picks[..|picks| - 1]);
    }
  }

  /** A quote could take the order on top of what the items ask of its DEX. */
  ghost predicate RoomFor(o: Order, q: Quote, now: Amount, items: seq<RoutedNote>)
  {
    && now < q.expiresAt && 0 < q.supply && 0 < q.demand && o.requested * q.demand <= q.supply * o.offered
    && o.requested + Load(items, q.dex, o.Pair()) <= q.supply
  }

  /** A live quote of the DEX that pays at least the order's rate. */
  ghost predicate Takes(q: Quote, dex: DexId, o: Order, now: Amount)
  {
    q.dex == dex && now < q.expiresAt && 0 < q.supply && 0 < q.demand && o.requested * q.demand <= q.supply * o.offered
  }

  /** A routed note is a whole matchable order, handed to a usable quote of its own pair that it crosses. */
  ghost predicate ItemOk(b: Book, quotes: QuotesByPair, now: Amount, item: RoutedNote)
  {
    && item.noteId in b.fifo && item.noteId in b.orders && item.pair in quotes
    && var o := b.orders[item.noteId];
    && item.pair == o.Pair() && item.fill == o.requested
    && exists i :: 0 <= i < |quotes[item.pair]| && Takes(quotes[item.pair][i], item.dex, o, now)
  }

  /** Some quote of the DEX is at most as generous as `q`. */
  ghost predicate AtLeastAsTight(quotes: seq<Quote>, dex: DexId, q: Quote)
  {
    exists c :: 0 <= c < |quotes| && quotes[c].dex == dex && quotes[c].Rate().AtMost(q.Rate())
  }

  /** No quote that still had room at its turn was tighter than the one an item went to. */
  ghost predicate ItemTight(b: Book, quotes: QuotesByPair, now: Amount, items: seq<RoutedNote>, k: nat)
    requires k < |items| && ItemOk(b, quotes, now, items[k])
  {
    var item := items[k];
    forall j :: 0 <= j < |quotes[item.pair]| && RoomFor(b.orders[item.noteId], quotes[item.pair][j], now, items[..k])
      ==> AtLeastAsTight(quotes[item.pair], item.dex, quotes[item.pair][j])
  }

  /** A matchable order of a quoted pair that was not handed over. */
  ghost predicate LeftOut(b: Book, quotes: QuotesByPair, items: seq<RoutedNote>, id: OrderId)
  {
    id in b.fifo && id in b.orders && b.orders[id].Pair() in quotes && id !in Ids(Handed(items))
  }

  /** Nothing that was left out fits what is left of any quote. */
  ghost predicate NothingLeftOut(b: Book, quotes: QuotesByPair, now: Amount, items: seq<RoutedNote>)
  {
    forall id, j :: LeftOut(b, quotes, items, id) && 0 <= j < |quotes[b.orders[id].Pair()]| ==>
      !RoomFor(b.orders[id], quotes[b.orders[id].Pair()][j], now, items)
  }

  ghost predicate WithinSupply(quotes: QuotesByPair, items: seq<RoutedNote>)
  {
    forall p, i :: p in quotes && 0 <= i < |quotes[p]| && DistinctDexes(quotes[p]) ==>
      Load(items, quotes[p][i].dex, p) <= quotes[p][i].supply
  }

  /**
   * A handover: distinct whole matchable orders, each sent to the tightest quote that still had room for it, no quote
   * beyond its supply, and nothing left out that would still fit.
   */
  ghost predicate Routed(b: Book, quotes: QuotesByPair, now: Amount, items: seq<RoutedNote>)
  {
    && Routable(b, Handed(items)) && WithinSupply(quotes, items)
    && (forall k :: 0 <= k < |items| ==> ItemOk(b, quotes, now, items[k]) && ItemTight(b, quotes, now, items, k))
    && NothingLeftOut(b, quotes, now, items)
  }

  lemma NothingRouted(b: Book, quotes: QuotesByPair, now: Amount)
    ensures (forall id :: id in b.fifo && id in b.orders ==> b.orders[id].Pair() !in quotes) ==> Routed(b, quotes, now, [])
    ensures ParkAll(b, Handed([]), now) == b
  {
    assert Handed([]) == [];
  }

  lemma NoCandidates(b: Book, quotes: QuotesByPair)
    requires CandidatesAll(b, quotes, map[])
    ensures forall id :: id in b.fifo && id in b.orders ==> b.orders[id].Pair() !in quotes
  {
    forall id | id in b.fifo && id in b.orders
      ensures b.orders[id].Pair() !in quotes
    {
      assert !Offers(map[], b.orders[id].Pair(), id);
    }
  }

  /** The note a pick stands for. */
  lemma PickIsItem(b: Book, notes: NotesByPair, quotes: QuotesByPair, now: Amount, pick: Pick) returns (k: nat)
    requires CandidatesOk(b, notes) && PickOk(notes, quotes, now, pick)
    ensures ItemOk(b, quotes, now, ItemOf(pick)) && pick.noteId in b.fifo && pick.noteId in b.orders
    ensures k < |NotesAt(notes, pick.pair)| && NotesAt(notes, pick.pair)[k] == b.orders[pick.noteId]
    ensures NotesAt(notes, pick.pair)[k].id == pick.noteId && NotesAt(notes, pick.pair)[k].Valid()
  {
    var p := pick.pair;
    var i;
    k, i :| 0 <= k < |NotesAt(notes, p)| && 0 <= i < |quotes[p]| && Hands(pick, NotesAt(notes, p)[k], quotes[p][i], now);
    assert Takes(quotes[p][i], pick.dex, NotesAt(notes, p)[k], now);
    assert p in notes && NotesAt(notes, p)[k] == b.orders[pick.noteId];
  }

  lemma SelectionItems(b: Book, notes: NotesByPair, quotes: QuotesByPair, now: Amount, picks: seq<Pick>)
    requires CandidatesOk(b, notes) && Selection(notes, quotes, now, picks) && DistinctNotes(notes)
    ensures Routable(b, Handed(Items(picks)))
    ensures forall k :: 0 <= k < |picks| ==>
      ItemOk(b, quotes, now, Items(picks)[k]) && picks[k].noteId in b.orders && picks[k].pair in quotes
  {
    SelectionDistinct(notes, quotes, now, picks);
    hide CandidatesOk;
    hide PickOk;
    hide ItemOk;
    hide Selection;
    hide DistinctNotes;
    var items := Items(picks);
    forall m | 0 <= m < |picks|
      ensures ItemOk(b, quotes, now, items[m]) && picks[m].noteId in b.fifo && picks[m].noteId in b.orders
    {
      SelectionCrosses(notes, quotes, now, picks, m);
      var k := PickIsItem(b, notes, quotes, now, picks[m]);
    }
  }

  /** A quote that still had room for a picked note was not tighter than the chosen one. */
  lemma PickTight(b: Book, notes: NotesByPair, quotes: QuotesByPair, now: Amount, picks: seq<Pick>, m: nat, k: nat, j: nat)
    requires Selection(notes, quotes, now, picks) && DistinctNotes(notes) && m < |picks| && picks[m].noteId in b.orders
    requires var p := picks[m].pair;
      && p in quotes && Descending(quotes[p]) && j < |quotes[p]| && p == b.orders[picks[m].noteId].Pair()
      && k < |NotesAt(notes, p)| && NotesAt(notes, p)[k] == b.orders[picks[m].noteId]
      && NotesAt(notes, p)[k].id == picks[m].noteId && NotesAt(notes, p)[k].Valid()
      && RoomFor(b.orders[picks[m].noteId], quotes[p][j], now, Items(picks)[..m])
    ensures AtLeastAsTight(quotes[picks[m].pair], picks[m].dex, quotes[picks[m].pair][j])
  {
    var p := picks[m].pair;
    assert DistinctIds(NotesAt(notes, p));
    assert Items(picks)[..m] == Items(picks[..m]);
    hide DistinctIds;
    hide Selection;
    hide Load;
    hide HandedTo;
    hide Descending;
    hide DistinctNotes;
    LoadIsHanded(picks[..m], quotes[p][j].dex, p);
    SelectionTightest(notes, quotes, now, picks, m, k, j);
  }

  lemma SelectionItemTight(b: Book, notes: NotesByPair, quotes: QuotesByPair, now: Amount, picks: seq<Pick>, m: nat)
    requires CandidatesOk(b, notes) && Selection(notes, quotes, now, picks) && DistinctNotes(notes) && m < |picks|
    requires ItemOk(b, quotes, now, Items(picks)[m]) && Descending(quotes[picks[m].pair])
    ensures ItemTight(b, quotes, now, Items(picks), m)
  {
    hide Selection;
    hide PickOk;
    hide Load;
    hide Descending;
    hide DistinctNotes;
    hide CandidatesOk;
    hide AtLeastAsTight;
    hide RoomFor;
    SelectionCrosses(notes, quotes, now, picks, m);
    var k := PickIsItem(b, notes, quotes, now, picks[m]);
    var p := picks[m].pair;
    forall j | 0 <= j < |quotes[p]| && RoomFor(b.orders[picks[m].noteId], quotes[p][j], now, Items(picks)[..m])
      ensures AtLeastAsTight(quotes[p], picks[m].dex, quotes[p][j])
    {
      PickTight(b, notes, quotes, now, picks, m, k, j);
    }
  }

  lemma SelectionLeavesNothing(b: Book, notes: NotesByPair, quotes: QuotesByPair, now: Amount, picks: seq<Pick>)
    requires CandidatesOk(b, notes) && CandidatesAll(b, quotes, notes) && Selection(notes, quotes, now, picks)
    ensures NothingLeftOut(b, quotes, now, Items(picks))
  {
    hide Selection;
    hide Load;
    hide HandedTo;
    var items := Items(picks);
    forall id, j | LeftOut(b, quotes, items, id) && 0 <= j < |quotes[b.orders[id].Pair()]|
      ensures !RoomFor(b.orders[id], quotes[b.orders[id].Pair()][j], now, items)
    {
      var p := b.orders[id].Pair();
      assert Offers(notes, p, id);
      var k :| 0 <= k < |NotesAt(notes, p)| && NotesAt(notes, p)[k].id == id;
      assert NotesAt(notes, p)[k] == b.orders[id];
      forall m | 0 <= m < |picks|
        ensures picks[m].noteId != id
      {
        assert Ids(Handed(items))[m] == picks[m].noteId;
      }
      SelectionMaximal(notes, quotes, now, picks, p, k, j);
      LoadIsHanded(picks, quotes[p][j].dex, p);
    }
  }

  lemma SelectionLoads(notes: NotesByPair, quotes: QuotesByPair, now: Amount, picks: seq<Pick>)
    requires Selection(notes, quotes, now, picks)
    ensures WithinSupply(quotes, Items(picks))
  {
    hide Selection;
    hide DistinctDexes;
    hide Load;
    hide HandedTo;
    forall p, i | p in quotes && 0 <= i < |quotes[p]| && DistinctDexes(quotes[p])
      ensures Load(Items(picks), quotes[p][i].dex, p) <= quotes[p][i].supply
    {
      SelectionWithinSupply(notes, quotes, now, picks, p, i);
      LoadIsHanded(picks, quotes[p][i].dex, p);
    }
  }

  /** The parts of a handover, put together. */
  lemma IsRouted(b: Book, quotes: QuotesByPair, now: Amount, items: seq<RoutedNote>)
    requires Routable(b, Handed(items)) && WithinSupply(quotes, items) && NothingLeftOut(b, quotes, now, items)
    requires forall k :: 0 <= k < |items| ==> ItemOk(b, quotes, now, items[k]) && ItemTight(b, quotes, now, items, k)
    ensures Routed(b, quotes, now, items)
  {
    hide Routable;
    hide WithinSupply;
    hide NothingLeftOut;
    hide ItemOk;
    hide ItemTight;
  }

  /** A selection over the book's candidates is a handover. */
  lemma SelectionRouted(b: Book, notes: NotesByPair, quotes: QuotesByPair, now: Amount, picks: seq<Pick>)
    requires CandidatesOk(b, notes) && CandidatesAll(b, quotes, notes) && DistinctNotes(notes)
    requires Selection(notes, quotes, now, picks) && forall p :: p in quotes ==> Descending(quotes[p])
    ensures Routed(b, quotes, now, Items(picks)) && forall k :: 0 <= k < |picks| ==> picks[k].noteId in b.orders
  {
    hide *;
    SelectionItems(b, notes, quotes, now, picks);
    SelectionLeavesNothing(b, notes, quotes, now, picks);
    SelectionLoads(notes, quotes, now, picks);
    forall m | 0 <= m < |picks|
      ensures ItemTight(b, quotes, now, Items(picks), m)
    {
      SelectionItemTight(b, notes, quotes, now, picks, m);
    }
    IsRouted(b, quotes, now, Items(picks));
  }

  /** Every handover names a quote the router still holds, as long as the snapshot is up to date. */
  lemma RoutedHeld(b: Book, store: Store, published: QuotesByPair, now: Amount, items: seq<RoutedNote>, k: nat)
    requires Agrees(published, store) && Routed(b, published, now, items) && k < |items|
    ensures Stored(store, items[k].dex, items[k].pair) && items[k].noteId in b.orders
    ensures Takes(store[items[k].dex][items[k].pair], items[k].dex, b.orders[items[k].noteId], now)
  {
    assert ItemOk(b, published, now, items[k]);
    var p := items[k].pair;
    var i :| 0 <= i < |published[p]| && Takes(published[p][i], items[k].dex, b.orders[items[k].noteId], now);
    assert Lists(QuotesAt(published, p), store, p, Entries(store));
    assert published[p][i] in QuotesAt(published, p);
  }

  // ---------------------------------------------------------------------------
  // Sending it
  // ---------------------------------------------------------------------------

  datatype SendOutcome = Sent | Full | Closed

  /**
   * The book after a handover was offered to the router. Delivered notes are parked; undelivered ones are matchable
   * again, behind the others, with only their queue tickets left behind.
   */
  ghost function AfterSend(b: Book, items: seq<RoutedNote>, now: Amount, send: SendOutcome): Book
  {
    var handed := Handed(items);
    var queued := b.(parkQueue := b.parkQueue + Tickets(handed, now));
    if send.Sent? then queued.(fifo := WithoutAll(b.fifo, Ids(handed)), parked := ParkedWith(b.parked, handed, now))
    else queued.(fifo := WithoutAll(b.fifo, Ids(handed)) + Ids(handed))
  }

  lemma SendFacts(b: Book, quotes: QuotesByPair, now: Amount, items: seq<RoutedNote>)
    requires WellFormed(b) && Routed(b, quotes, now, items)
    ensures ParkAll(b, Handed(items), now) == AfterSend(b, items, now, Sent)
    ensures UnparkAll(ParkAll(b, Handed(items), now), Handed(items)) == AfterSend(b, items, now, Full) == AfterSend(b, items, now, Closed)
    ensures items == [] ==> AfterSend(b, items, now, Full) == AfterSend(b, items, now, Closed) == AfterSend(b, items, now, Sent) == b
  {
    ParkAllSpec(b, Handed(items), now);
    RollbackRestores(b, Handed(items), now);
    if items == [] {
      assert Handed(items) == [];
    }
  }

  /** Which notes are parked once a handover was offered, and how. */
  lemma SentParked(b: Book, items: seq<RoutedNote>, now: Amount, send: SendOutcome, id: OrderId)
    requires Routable(b, Handed(items)) && forall k :: 0 <= k < |items| ==> items[k].noteId !in b.parked
    ensures var b' := AfterSend(b, items, now, send);
      && (id in b'.parked <==> id in b.parked || (send.Sent? && exists k :: 0 <= k < |items| && items[k].noteId == id))
      && (id in b.parked ==> b'.parked[id] == b.parked[id])
      && (id in b'.parked && id !in b.parked ==>
            b'.parked[id].at == now && exists k :: 0 <= k < |items| && items[k].noteId == id && items[k].dex == b'.parked[id].dex)
  {
    var handed := Handed(items);
    var ids := Ids(handed);
    assert forall k :: 0 <= k < |items| ==> ids[k] == items[k].noteId;
    hide ParkedWith;
    hide WithoutAll;
    hide Tickets;
    if id in ids {
      var k :| 0 <= k < |ids| && ids[k] == id;
      assert handed[k] == (items[k].noteId, items[k].dex);
      if send.Sent? {
        assert AfterSend(b, items, now, send).parked[handed[k].0].dex == handed[k].1;
      }
    }
  }
}
