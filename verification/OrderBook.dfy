/** The stateful order book: rate trees, counters, adjacency sets and park queue, updated in place. */
module OrderBook {
  import opened Types
  import opened RateIndex
  import opened B = Book

  // ---------------------------------------------------------------------------
  // What the trees say about priority
  // ---------------------------------------------------------------------------

  /** The first id of a level is the oldest one at its rate. */
  lemma {:induction false} SelectFirst(orders: Orders, s: seq<OrderId>, p: Pair, key: RateKey) returns (i: nat)
    requires Covers(orders, s) && Select(orders, s, p, key) != []
    ensures i < |s| && s[i] == Select(orders, s, p, key)[0]
    ensures forall j :: 0 <= j < i && orders[s[j]].Pair() == p ==> !orders[s[j]].Rate().Same(key)
  {
    var init, last := s[..|s| - 1], s[|s| - 1];
    assert s == init + [last];
    if Select(orders, init, p, key) != [] {
      i := SelectFirst(orders, init, p, key);
    } else {
      i := |s| - 1;
      forall j | 0 <= j < i && orders[s[j]].Pair() == p
        ensures !orders[s[j]].Rate().Same(key)
      {
        assert init[j] !in Select(orders, init, p, key);
      }
    }
  }

  /** The head of the first level is the price-time winner. */
  lemma TreeHeadIsBest(orders: Orders, s: seq<OrderId>, p: Pair, t: Tree)
    requires Covers(orders, s) && TreeOk(orders, s, p, t)
    ensures BestIn(orders, s, p) == if t == [] then None else Some(t[0].ids[0])
  {
    var b := BestInWins(orders, s, p);
    if t == [] {
      forall id | id in s
        ensures orders[id].Pair() != p
      {
        assert orders[id].Pair() == p ==> HasKey(t, orders[id].Rate());
      }
    } else {
      var i := SelectFirst(orders, s, p, t[0].key);
      assert s[i] in Select(orders, s, p, t[0].key);
      HeadBeats(orders, s, p, t, i, b);
      HeadBeats(orders, s, p, t, i, i);
    }
  }

  /** The head of the first level is at most as dear as any order `j`, and strictly cheaper than an older one. */
  lemma HeadBeats(orders: Orders, s: seq<OrderId>, p: Pair, t: Tree, i: nat, j: nat)
    requires Covers(orders, s) && TreeOk(orders, s, p, t) && t != [] && i < |s| && j < |s|
    requires orders[s[i]].Rate().Same(t[0].key)
    requires forall k :: 0 <= k < i && orders[s[k]].Pair() == p ==> !orders[s[k]].Rate().Same(t[0].key)
    requires orders[s[j]].Pair() == p
    ensures orders[s[i]].Rate().AtMost(orders[s[j]].Rate())
    ensures j < i ==> orders[s[i]].Rate().Less(orders[s[j]].Rate())
  {
    var ri, rj := orders[s[i]].Rate(), orders[s[j]].Rate();
    assert HasKey(t, rj);
    var m :| 0 <= m < |t| && t[m].key.Same(rj);
    RateOrder(t[0].key, t[m].key, rj);
    RateOrder(ri, t[0].key, rj);
    RateOrder(rj, t[0].key, rj);
  }

  /** `x` has priority over `y`: a lower rate, or the same rate and an earlier place in `s`. */
  ghost predicate Before(orders: Orders, s: seq<OrderId>, x: OrderId, y: OrderId)
    requires Covers(orders, s)
  {
    && x in s && y in s
    && (orders[x].Rate().Less(orders[y].Rate()) || (orders[x].Rate().Same(orders[y].Rate()) && Earlier(s, x, y)))
  }

  ghost predicate Earlier(s: seq<OrderId>, x: OrderId, y: OrderId)
  {
    exists i, j :: 0 <= i < j < |s| && s[i] == x && s[j] == y
  }

  /** `r` lists exactly the matchable ids of pair `p`, in price-time priority. */
  ghost predicate IsListing(orders: Orders, s: seq<OrderId>, p: Pair, r: seq<OrderId>)
    requires Covers(orders, s)
  {
    && (forall id :: id in r <==> id in s && orders[id].Pair() == p)
    && forall i, j :: 0 <= i < j < |r| ==> Before(orders, s, r[i], r[j])
  }

  function Flatten(t: Tree): seq<OrderId>
  {
    if t == [] then [] else t[0].ids + Flatten(t[1..])
  }

  lemma BeforeLifts(orders: Orders, s: seq<OrderId>, last: OrderId, x: OrderId, y: OrderId)
    requires Covers(orders, s + [last]) && Before(orders, s, x, y)
    ensures Before(orders, s + [last], x, y)
  {
    if Earlier(s, x, y) {
      var i, j :| 0 <= i < j < |s| && s[i] == x && s[j] == y;
      assert (s + [last])[i] == x && (s + [last])[j] == y;
    }
  }

  /** The newest id comes after every other id at its rate. */
  lemma NewestIsLast(orders: Orders, s: seq<OrderId>, last: OrderId, x: OrderId, key: RateKey)
    requires Covers(orders, s + [last]) && key.Positive() && x in s
    requires orders[x].Rate().Same(key) && orders[last].Rate().Same(key)
    ensures Before(orders, s + [last], x, last)
  {
    RateOrder(orders[last].Rate(), key, key);
    RateOrder(orders[x].Rate(), key, orders[last].Rate());
    var i :| 0 <= i < |s| && s[i] == x;
    assert (s + [last])[i] == x && (s + [last])[|s|] == last;
  }

  lemma {:induction false} SelectOrdered(orders: Orders, s: seq<OrderId>, p: Pair, key: RateKey, i: nat, j: nat)
    requires Covers(orders, s) && key.Positive()
    requires i < j < |Select(orders, s, p, key)|
    ensures Before(orders, s, Select(orders, s, p, key)[i], Select(orders, s, p, key)[j])
  {
    var init, last := s[..|s| - 1], s[|s| - 1];
    assert s == init + [last];
    var q, r := Select(orders, init, p, key), Select(orders, s, p, key);
    assert r[i] == q[i] && q[i] in q;
    if j < |q| {
      SelectOrdered(orders, init, p, key, i, j);
      BeforeLifts(orders, init, last, q[i], q[j]);
    } else {
      NewestIsLast(orders, init, last, q[i], key);
    }
  }

  lemma {:induction false} FlattenMembers(t: Tree, id: OrderId)
    ensures id in Flatten(t) <==> exists k :: 0 <= k < |t| && id in t[k].ids
  {
    if t != [] {
      var rest := t[1..];
      FlattenMembers(rest, id);
      if k :| 0 <= k < |rest| && id in rest[k].ids {
        assert id in t[k + 1].ids;
      }
      if k :| 0 < k < |t| && id in t[k].ids {
        assert id in rest[k - 1].ids;
      }
    }
  }

  /** Reading the levels in order, and each level front to back, gives price-time priority. */
  lemma {:induction false} FlattenOrdered(orders: Orders, s: seq<OrderId>, p: Pair, t: Tree, i: nat, j: nat)
    requires Covers(orders, s) && Sorted(t)
    requires forall k :: 0 <= k < |t| ==> t[k].ids == Select(orders, s, p, t[k].key)
    requires i < j < |Flatten(t)|
    ensures Before(orders, s, Flatten(t)[i], Flatten(t)[j])
  {
    hide Before;
    hide Select;
    hide Sorted;
    var head, tail := t[0].ids, Flatten(t[1..]);
    assert Flatten(t) == head + tail;
    if j < |head| {
      TailSorted(t);
      SelectOrdered(orders, s, p, t[0].key, i, j);
    } else if |head| <= i {
      TailSorted(t);
      FlattenOrdered(orders, s, p, t[1..], i - |head|, j - |head|);
    } else {
      CrossLevels(orders, s, p, t, head[i], tail[j - |head|]);
    }
  }

  lemma TailSorted(t: Tree)
    requires t != [] && Sorted(t)
    ensures Sorted(t[1..]) && t[0].key.Positive()
  {}

  lemma CrossLevels(orders: Orders, s: seq<OrderId>, p: Pair, t: Tree, x: OrderId, y: OrderId)
    requires Covers(orders, s) && Sorted(t) && t != []
    requires forall k :: 0 <= k < |t| ==> t[k].ids == Select(orders, s, p, t[k].key)
    requires x in t[0].ids && y in Flatten(t[1..])
    ensures Before(orders, s, x, y)
  {
    hide Before;
    hide Select;
    hide Sorted;
    FlattenMembers(t[1..], y);
    hide Flatten;
    var k :| 0 <= k < |t[1..]| && y in t[1..][k].ids;
    assert y in t[k + 1].ids;
    LevelsOrdered(orders, s, p, t, k + 1, x, y);
  }

  lemma LevelsOrdered(orders: Orders, s: seq<OrderId>, p: Pair, t: Tree, k: nat, x: OrderId, y: OrderId)
    requires Covers(orders, s) && Sorted(t) && 0 < k < |t|
    requires x in Select(orders, s, p, t[0].key) && y in Select(orders, s, p, t[k].key)
    ensures Before(orders, s, x, y)
  {
    RateOrder(orders[x].Rate(), t[0].key, t[k].key);
    RateOrder(orders[y].Rate(), t[k].key, t[k].key);
    RateOrder(orders[x].Rate(), t[k].key, orders[y].Rate());
  }

  lemma FlattenIsListing(orders: Orders, s: seq<OrderId>, p: Pair, t: Tree)
    requires Covers(orders, s) && TreeOk(orders, s, p, t)
    ensures IsListing(orders, s, p, Flatten(t))
  {
    forall i, j | 0 <= i < j < |Flatten(t)|
      ensures Before(orders, s, Flatten(t)[i], Flatten(t)[j])
    {
      FlattenOrdered(orders, s, p, t, i, j);
    }
    forall id
      ensures id in Flatten(t) <==> id in s && orders[id].Pair() == p
    {
      FlattenMembers(t, id);
      if id in s && orders[id].Pair() == p {
        assert HasKey(t, orders[id].Rate());
        var k :| 0 <= k < |t| && t[k].key.Same(orders[id].Rate());
        RateOrder(orders[id].Rate(), t[k].key, t[k].key);
        assert id in t[k].ids;
      }
    }
  }

  // ---------------------------------------------------------------------------
  // Lazy pruning and level volumes
  // ---------------------------------------------------------------------------

  predicate Live(orders: Orders, id: OrderId) { id in orders && orders[id].IsActive() }

  /** A queue without its dead prefix. */
  function PruneIds(orders: Orders, ids: seq<OrderId>): (r: seq<OrderId>)
    ensures r != [] ==> Live(orders, r[0])
  {
    if ids == [] || Live(orders, ids[0]) then ids else PruneIds(orders, ids[1..])
  }

  /** A tree without the dead entries that precede its first live id. */
  function Prune(orders: Orders, t: Tree): (r: Tree)
    ensures r != [] ==> r[0].ids != [] && Live(orders, r[0].ids[0])
  {
    if t == [] then []
    else
      var ids := PruneIds(orders, t[0].ids);
      if ids == [] then Prune(orders, t[1..]) else t[0 := Level(t[0].key, ids)]
  }

  /** The live orders among `ids`, in that order. */
  function LiveOrders(orders: Orders, ids: seq<OrderId>): (r: seq<Order>)
  {
    if ids == [] then []
    else if Live(orders, ids[0]) then [orders[ids[0]]] + LiveOrders(orders, ids[1..])
    else LiveOrders(orders, ids[1..])
  }

  lemma {:induction false} LiveOrdersAll(orders: Orders, ids: seq<OrderId>)
    requires forall id :: id in ids ==> Live(orders, id)
    ensures |LiveOrders(orders, ids)| == |ids|
    ensures forall i :: 0 <= i < |ids| ==> ids[i] in orders && LiveOrders(orders, ids)[i] == orders[ids[i]]
  {
    if ids != [] {
      LiveOrdersAll(orders, ids[1..]);
    }
  }

  /** Summed remaining offer of the live orders of a level, saturating. */
  function Volume(orders: Orders, ids: seq<OrderId>): Amount
    requires OrdersOk(orders)
  {
    if ids == [] then 0
    else
      var v := Volume(orders, ids[..|ids| - 1]);
      var id := ids[|ids| - 1];
      if Live(orders, id) then SaturatingAdd(v, orders[id].OfferedRemaining()) else v
  }

  predicate AnyLive(orders: Orders, ids: seq<OrderId>) { exists i :: 0 <= i < |ids| && Live(orders, ids[i]) }

  datatype BestLevel = BestLevel(rate: RateKey, volume: Amount)

  /** The first level with a live order, and the volume of its live orders. */
  function TopLevel(orders: Orders, t: Tree): Option<BestLevel>
    requires OrdersOk(orders)
  {
    if t == [] then None
    else if AnyLive(orders, t[0].ids) then Some(BestLevel(t[0].key, Volume(orders, t[0].ids)))
    else TopLevel(orders, t[1..])
  }

  lemma EmptyTop(orders: Orders)
    requires OrdersOk(orders)
    ensures TopLevel(orders, []).None?
  {}

  /** Exact, unsaturated volume. */
  ghost function OfferedSum(orders: Orders, ids: seq<OrderId>): nat
    requires Covers(orders, ids)
  {
    if ids == [] then 0
    else
      assert ids[|ids| - 1] in ids;
      OfferedSum(orders, ids[..|ids| - 1]) + orders[ids[|ids| - 1]].OfferedRemaining()
  }

  lemma {:induction false} VolumeSaturates(orders: Orders, ids: seq<OrderId>)
    requires OrdersOk(orders) && Covers(orders, ids)
    requires forall id :: id in ids ==> Live(orders, id)
    ensures Volume(orders, ids) == Min(OfferedSum(orders, ids), MAX_U64)
  {
    if ids != [] {
      VolumeSaturates(orders, ids[..|ids| - 1]);
      assert ids[|ids| - 1] in ids;
    }
  }

  /** Every id of a well-formed tree is live. */
  lemma TreeIsLive(b: Book, p: Pair, t: Tree)
    requires WellFormed(b) && TreeOk(b.orders, b.fifo, p, t)
    ensures forall k, id :: 0 <= k < |t| && id in t[k].ids ==> Live(b.orders, id)
  {
    forall k, id | 0 <= k < |t| && id in t[k].ids
      ensures Live(b.orders, id)
    {
      assert id in Select(b.orders, b.fifo, p, t[k].key);
    }
  }

  /**
   * The top level is priced at the rate of the best order, whatever order its stored key came from, and counts every
   * order at that rate.
   */
  lemma TopLevelIsBest(b: Book, p: Pair, t: Tree)
    requires WellFormed(b) && TreeOk(b.orders, b.fifo, p, t)
    ensures TopLevel(b.orders, t).None? <==> Best(b, p).None?
    ensures TopLevel(b.orders, t).Some? ==>
      var level := TopLevel(b.orders, t).value;
      && level.rate.Positive()
      && level.rate.Same(b.orders[Best(b, p).value].Rate())
      && level.volume == Min(OfferedSum(b.orders, Select(b.orders, b.fifo, p, level.rate)), MAX_U64)
  {
    TreeHeadIsBest(b.orders, b.fifo, p, t);
    if t != [] {
      TreeIsLive(b, p, t);
      assert t[0].ids[0] in t[0].ids;
      assert AnyLive(b.orders, t[0].ids);
      VolumeSaturates(b.orders, t[0].ids);
      RateOrder(t[0].key, b.orders[t[0].ids[0]].Rate(), t[0].key);
    }
  }

  /** Pruning a well-formed tree changes nothing. */
  lemma PruneIdle(b: Book, p: Pair, t: Tree)
    requires WellFormed(b) && TreeOk(b.orders, b.fifo, p, t)
    ensures Prune(b.orders, t) == t
  {
    TreeIsLive(b, p, t);
    if t != [] {
      assert t[0].ids[0] in t[0].ids;
      assert t == t[0 := Level(t[0].key, t[0].ids)];
    }
  }

  /** The counter of a pair is positive exactly when the pair has a best order. */
  lemma HasOrdersOk(orders: Orders, s: seq<OrderId>, trees: Trees, counts: Counts, outgoing: Adjacency,
      incoming: Adjacency, p: Pair)
    ensures IndexOk(orders, s, trees, counts, outgoing, incoming) ==> (0 < CountAt(counts, p) <==> BestIn(orders, s, p).Some?)
  {
    if IndexOk(orders, s, trees, counts, outgoing, incoming) {
      assert CountAt(counts, p) == NumberOf(orders, s, p);
      NumberPositive(orders, s, p);
      var i := BestInWins(orders, s, p);
    }
  }

  lemma NotesAreListed(b: Book, p: Pair, t: Tree)
    requires WellFormed(b) && TreeOk(b.orders, b.fifo, p, t)
    ensures var notes := LiveOrders(b.orders, Flatten(t));
      && IsListing(b.orders, b.fifo, p, seq(|notes|, i requires 0 <= i < |notes| => notes[i].id))
      && forall i :: 0 <= i < |notes| ==> notes[i].id in b.orders && notes[i] == b.orders[notes[i].id]
  {
    var notes := LiveOrders(b.orders, Flatten(t));
    FlattenIsListing(b.orders, b.fifo, p, t);
    LiveOrdersAll(b.orders, Flatten(t));
    assert seq(|notes|, i requires 0 <= i < |notes| => notes[i].id) == Flatten(t);
  }

  /** The snapshot holds the top level of exactly the pairs that have one. */
  ghost predicate Publishes(orders: Orders, index: map<Pair, Tree>, snapshot: map<Pair, BestLevel>)
    requires OrdersOk(orders)
  {
    && (forall p :: p in snapshot <==> TopLevel(orders, TreeAt(index, p)).Some?)
    && forall p :: p in snapshot ==> Some(snapshot[p]) == TopLevel(orders, TreeAt(index, p))
  }

  class OrderBook {
    var orders: Orders
    var pairIndex: Trees
    var userAdjacency: Adjacency
    var incomingAdjacency: Adjacency
    var activePairCount: Counts
    var parked: map<OrderId, Parking>
    var parkQueue: seq<Ticket>
    var protocolBalances: map<TokenId, nat>
    var tokens: set<TokenId>
    var feed: map<TokenId, Amount>
    /** The matchable ids in the order in which they were indexed. */
    ghost var fifo: seq<OrderId>

    /** The book as a value. */
    ghost function View(): Book
      reads this
    {
      Book(orders, fifo, parked, parkQueue, protocolBalances, tokens)
    }

    /** Trees, counters and adjacency all represent `fifo`. */
    ghost predicate Represents()
      reads this
    {
      IndexOk(orders, fifo, pairIndex, activePairCount, userAdjacency, incomingAdjacency)
    }

    /** The part of `Represents` without the counters. */
    ghost predicate Linked()
      reads this
    {
      LinksOk(orders, fifo, pairIndex, userAdjacency, incomingAdjacency)
    }

    ghost predicate Valid()
      reads this
    {
      WellFormed(View()) && Represents()
    }

    constructor (feed: map<TokenId, Amount>)
      ensures Valid() && this.feed == feed
      ensures View() == Book(map[], [], map[], [], map[], {})
    {
      orders, pairIndex, userAdjacency, incomingAdjacency := map[], map[], map[], map[];
      activePairCount, parked, parkQueue, protocolBalances := map[], map[], [], map[];
      tokens, fifo := {}, [];
      this.feed := feed;
    }

    method AddUserOrder(id: OrderId, offeredToken: TokenId, requestedToken: TokenId, offered: Amount, requested: Amount)
      requires Valid() && 0 < offered && 0 < requested
      modifies this`pairIndex, this`activePairCount, this`userAdjacency, this`incomingAdjacency, this`fifo,
        this`orders, this`parked, this`tokens
      ensures View() == AddOrder(old(View()), id, offeredToken, requestedToken, offered, requested)
      ensures Valid()
    {
      hide WellFormed;
      hide LinksOk;
      hide CountsOk;
      hide SameTerms;
      if id in orders && id !in parked {
        return;
      }
      var order := Order(id, offeredToken, requestedToken, offered, requested, requested);
      AddOrderWellFormed(View(), id, offeredToken, requestedToken, offered, requested);
      AddOrderFresh(View(), order);
      IndexCarriesOver(orders, orders[id := order], fifo, pairIndex, activePairCount, userAdjacency, incomingAdjacency);
      parked := parked - {id};
      orders := orders[id := order];
      IndexInsert(id, offeredToken, requestedToken, order.Rate());
      tokens := tokens + {offeredToken, requestedToken};
    }

    /** Push an id to the back of its rate level, bump its counter and record both adjacencies. */
    method IndexInsert(id: OrderId, offeredToken: TokenId, requestedToken: TokenId, key: RateKey)
      modifies this`pairIndex, this`activePairCount, this`userAdjacency, this`incomingAdjacency, this`fifo
      ensures fifo == old(fifo) + [id]
      ensures old(Represents()) && id in orders && orders[id].Valid() && id !in old(fifo)
        && orders[id].Pair() == (offeredToken, requestedToken) && orders[id].Rate() == key
        ==> Represents()
    {
      hide IndexOk;
      hide TreeInsert;
      hide Link;
      var p := (offeredToken, requestedToken);
      IndexInsertOk(orders, fifo, pairIndex, activePairCount, userAdjacency, incomingAdjacency, id);
      pairIndex := pairIndex[p := TreeInsert(TreeAt(pairIndex, p), key, id)];
      activePairCount := activePairCount[p := CountAt(activePairCount, p) + 1];
      userAdjacency := Link(userAdjacency, offeredToken, requestedToken);
      incomingAdjacency := Link(incomingAdjacency, requestedToken, offeredToken);
      fifo := fifo + [id];
    }

    /** Take an id out of its tree; an emptied pair leaves the index and both adjacency maps. */
    method RemoveFromIndex(p: Pair, key: RateKey, id: OrderId)
      modifies this`pairIndex, this`userAdjacency, this`incomingAdjacency, this`fifo
      ensures fifo == Without(old(fifo), id)
      ensures old(Linked()) && Located(orders, old(fifo), id, p, key) ==> Linked()
    {
      LinksRemoveOk(orders, fifo, pairIndex, userAdjacency, incomingAdjacency, id, p, key);
      hide LinksOk;
      hide Located;
      hide TreeRemove;
      hide Unlink;
      fifo := Without(fifo, id);
      if p !in pairIndex {
        return;
      }
      var t := TreeRemove(pairIndex[p], key, id);
      if t == [] {
        pairIndex := pairIndex - {p};
        userAdjacency := Unlink(userAdjacency, p.0, p.1);
        incomingAdjacency := Unlink(incomingAdjacency, p.1, p.0);
      } else {
        pairIndex := pairIndex[p := t];
      }
    }

    /** Take a completely filled order out of the index; its struct stays in `orders`. */
    method CleanupIfFilled(id: OrderId)
      requires OrdersOk(orders)
      modifies this`pairIndex, this`activePairCount, this`userAdjacency, this`incomingAdjacency, this`fifo
      ensures fifo == if id in orders then DropFilled(old(fifo), orders[id]) else old(fifo)
      ensures old(Linked()) ==> Linked()
      // The counter drifts exactly when a filled order is cleaned up although it is no longer indexed and others are.
      ensures old(Represents()) ==>
        (Represents() <==>
          || id !in orders || orders[id].IsActive() || id in old(fifo)
          || CountAt(old(activePairCount), orders[id].Pair()) == 0)
    {
      if id !in orders || !orders[id].IsCompletelyFilled() {
        return;
      }
      hide TreesOk;
      hide AdjacencyOk;
      hide CountsOk;
      var p, key := orders[id].Pair(), orders[id].Rate();
      if Represents() {
        DecrementOk(orders, fifo, activePairCount, id, p);
      }
      activePairCount := Decrement(activePairCount, p);
      RemoveFromIndex(p, key, id);
    }

    /** Remove an order from the book entirely. */
    method RemoveOrder(id: OrderId)
      requires Valid()
      modifies this`pairIndex, this`activePairCount, this`userAdjacency, this`incomingAdjacency, this`fifo,
        this`orders, this`parked
      ensures View() == B.RemoveOrder(old(View()), id)
      ensures Valid()
    {
      hide WellFormed;
      hide IndexOk;
      hide LinksOk;
      hide CountsOk;
      hide SameTerms;
      hide Decrement;
      if id !in orders {
        return;
      }
      RemoveOrderWellFormed(View(), id);
      UnindexFacts(View(), pairIndex, activePairCount, userAdjacency, incomingAdjacency, id);
      var order := orders[id];
      if id in parked {
        // A parked note left the index and the counter when it was parked.
        parked := parked - {id};
      } else {
        if order.IsActive() {
          activePairCount := Decrement(activePairCount, order.Pair());
        }
        RemoveFromIndex(order.Pair(), order.Rate(), id);
      }
      IndexCarriesOver(orders, orders - {id}, fifo, pairIndex, activePairCount, userAdjacency, incomingAdjacency);
      orders := orders - {id};
    }

    /** Hand a note to an external DEX: out of the index, but kept in `orders`. */
    method Park(id: OrderId, dex: DexId, time: Amount)
      requires Valid()
      modifies this`pairIndex, this`activePairCount, this`userAdjacency, this`incomingAdjacency, this`fifo,
        this`parked, this`parkQueue
      ensures View() == B.Park(old(View()), id, dex, time)
      ensures Valid()
    {
      hide WellFormed;
      hide IndexOk;
      hide LinksOk;
      hide CountsOk;
      hide SameTerms;
      hide Decrement;
      if id in parked {
        return;
      }
      if id !in orders || !orders[id].IsActive() {
        return;
      }
      ParkWellFormed(View(), id, dex, time);
      UnindexFacts(View(), pairIndex, activePairCount, userAdjacency, incomingAdjacency, id);
      var p, key := orders[id].Pair(), orders[id].Rate();
      activePairCount := Decrement(activePairCount, p);
      RemoveFromIndex(p, key, id);
      IndexJoin(orders, fifo, pairIndex, activePairCount, userAdjacency, incomingAdjacency);
      parked := parked[id := Parking(dex, time)];
      parkQueue := parkQueue + [Ticket(time, id)];
    }

    /** Put a parked note back at the tail of its rate level. */
    method Unpark(id: OrderId) returns (dex: Option<DexId>)
      requires Valid()
      modifies this`pairIndex, this`activePairCount, this`userAdjacency, this`incomingAdjacency, this`fifo,
        this`parked
      ensures View() == B.Unpark(old(View()), id)
      ensures Valid()
      ensures dex == if id in old(parked) then Some(old(parked)[id].dex) else None
    {
      hide WellFormed;
      hide IndexOk;
      UnparkWellFormed(View(), id);
      ParkedFacts(View(), id);
      if id !in parked {
        return None;
      }
      dex := Some(parked[id].dex);
      parked := parked - {id};
      Reindex(id);
    }

    /** Re-add the existing struct of an order to the index; no-op for a missing or filled one. */
    method Reindex(id: OrderId)
      requires Represents() && OrdersOk(orders) && id !in fifo
      modifies this`pairIndex, this`activePairCount, this`userAdjacency, this`incomingAdjacency, this`fifo
      ensures Represents()
      ensures fifo == if id in orders && orders[id].IsActive() then old(fifo) + [id] else old(fifo)
    {
      hide IndexOk;
      if id !in orders || !orders[id].IsActive() {
        return;
      }
      IndexInsert(id, orders[id].offeredToken, orders[id].requestedToken, orders[id].Rate());
    }

    /** Unpark every note whose ticket has expired, popping only the expired prefix of the queue. */
    method ReactivateParkedOlderThan(ttl: Amount, time: Amount) returns (reactivated: seq<(OrderId, DexId)>)
      requires Valid()
      modifies this`pairIndex, this`activePairCount, this`userAdjacency, this`incomingAdjacency, this`fifo,
        this`parked, this`parkQueue
      ensures (View(), reactivated) == Reactivate(old(View()), ttl, time)
      ensures Valid()
    {
      hide WellFormed;
      hide IndexOk;
      reactivated := [];
      ghost var goal := Reactivate(View(), ttl, time);
      assert goal.1 == [] + goal.1;
      while parkQueue != [] && Expired(parkQueue[0].at, ttl, time)
        invariant Valid()
        invariant goal.0 == Reactivate(View(), ttl, time).0
        invariant goal.1 == reactivated + Reactivate(View(), ttl, time).1
        decreases |parkQueue|
      {
        var id := parkQueue[0].id;
        PopWellFormed(View());
        parkQueue := parkQueue[1..];
        var dex := Unpark(id);
        if dex.Some? {
          assert goal.1 == (reactivated + [(id, dex.value)]) + Reactivate(View(), ttl, time).1;
          reactivated := reactivated + [(id, dex.value)];
        }
      }
      assert reactivated + [] == reactivated;
    }

    /** The cheapest, oldest active order of a pair, dropping dead entries that stand before it. */
    method BestOrder(offered: TokenId, requested: TokenId) returns (r: Option<Order>)
      modifies this`pairIndex
      ensures var p := (offered, requested); var t := Prune(orders, TreeAt(old(pairIndex), p));
        && pairIndex == (if p in old(pairIndex) then old(pairIndex)[p := t] else old(pairIndex))
        && r == if t == [] then None else Some(orders[t[0].ids[0]])
      ensures old(Valid()) ==> Valid() && View() == old(View())
      ensures old(Valid()) ==> r == var best := Best(View(), (offered, requested)); if best.None? then None else Some(orders[best.value])
    {
      var p := (offered, requested);
      if Valid() {
        PruneIdle(View(), p, TreeAt(pairIndex, p));
        TreeHeadIsBest(orders, fifo, p, TreeAt(pairIndex, p));
        assert p in pairIndex ==> pairIndex == pairIndex[p := pairIndex[p]];
      }
      hide WellFormed;
      hide IndexOk;
      hide BestIn;
      if p !in pairIndex {
        return None;
      }
      var tree := pairIndex[p];
      while tree != []
        invariant Prune(orders, tree) == Prune(orders, old(pairIndex)[p])
        decreases |tree|
      {
        var ids := tree[0].ids;
        while ids != [] && (ids[0] !in orders || !orders[ids[0]].IsActive())
          invariant PruneIds(orders, ids) == PruneIds(orders, tree[0].ids)
          decreases |ids|
        {
          ids := ids[1..];
        }
        if ids != [] {
          pairIndex := pairIndex[p := tree[0 := Level(tree[0].key, ids)]];
          return Some(orders[ids[0]]);
        }
        tree := tree[1..];
      }
      pairIndex := pairIndex[p := []];
      return None;
    }

    /** Is any matchable order of the pair left? Decided by the counter alone. */
    function HasOrders(offered: TokenId, requested: TokenId): (r: bool)
      reads this
      ensures Valid() ==> (r <==> Best(View(), (offered, requested)).Some?)
    {
      HasOrdersOk(orders, fifo, pairIndex, activePairCount, userAdjacency, incomingAdjacency, (offered, requested));
      0 < CountAt(activePairCount, (offered, requested))
    }

    /** The matchable orders of a pair in price-time priority. */
    function NotesForPair(offered: TokenId, requested: TokenId): (notes: seq<Order>)
      reads this
      requires Valid()
      ensures IsListing(orders, fifo, (offered, requested), seq(|notes|, i requires 0 <= i < |notes| => notes[i].id))
      ensures forall i :: 0 <= i < |notes| ==> notes[i].id in orders && notes[i] == orders[notes[i].id]
    {
      var t := TreeAt(pairIndex, (offered, requested));
      NotesAreListed(View(), (offered, requested), t);
      LiveOrders(orders, Flatten(t))
    }

    /** Top of book of a pair: the first live level and its live volume. */
    method GetBestLevel(offered: TokenId, requested: TokenId) returns (r: Option<BestLevel>)
      requires OrdersOk(orders)
      ensures r == TopLevel(orders, TreeAt(pairIndex, (offered, requested)))
    {
      hide CalculateOutput;
      var t := TreeAt(pairIndex, (offered, requested));
      var k := 0;
      while k < |t|
        invariant k <= |t|
        invariant TopLevel(orders, t[k..]) == TopLevel(orders, t)
      {
        var ids := t[k].ids;
        var volume: Amount, any := 0, false;
        for i := 0 to |ids|
          invariant volume == Volume(orders, ids[..i])
          invariant any == AnyLive(orders, ids[..i])
        {
          assert ids[..i + 1][..i] == ids[..i];
          assert ids[..i + 1] == ids[..i] + [ids[i]];
          if ids[i] in orders && orders[ids[i]].IsActive() {
            any := true;
            volume := SaturatingAdd(volume, orders[ids[i]].OfferedRemaining());
          }
        }
        assert ids[..|ids|] == ids;
        if any {
          return Some(BestLevel(t[k].key, volume));
        }
        assert t[k..][1..] == t[k + 1..];
        k := k + 1;
      }
      return None;
    }

    /** Top of book of every pair. */
    method SnapshotBestLevels() returns (snapshot: map<Pair, BestLevel>)
      requires OrdersOk(orders)
      ensures Publishes(orders, pairIndex, snapshot)
    {
      hide TopLevel;
      snapshot := map[];
      var todo := pairIndex.Keys;
      while todo != {}
        invariant todo <= pairIndex.Keys
        invariant forall p :: p in snapshot <==> p in pairIndex && p !in todo && TopLevel(orders, TreeAt(pairIndex, p)).Some?
        invariant forall p :: p in snapshot ==> Some(snapshot[p]) == TopLevel(orders, TreeAt(pairIndex, p))
        decreases |todo|
      {
        var p :| p in todo;
        var level := GetBestLevel(p.0, p.1);
        if level.Some? {
          snapshot := snapshot[p := level.value];
        }
        todo := todo - {p};
      }
      assert TopLevel(orders, []).None? by { EmptyTop(orders); }
    }

    method AddProtocolBalance(token: TokenId, amount: Amount)
      modifies this`protocolBalances, this`tokens
      ensures protocolBalances == Deposit(old(protocolBalances), token, amount)
      ensures tokens == Known(old(tokens), token, amount)
    {
      if amount == 0 {
        return;
      }
      protocolBalances := protocolBalances[token := BalanceAt(protocolBalances, token) + amount];
      tokens := tokens + {token};
    }

    /** Match two orders by id; nothing changes unless the match succeeds. */
    method ApplyMatch(aId: OrderId, bId: OrderId) returns (r: Option<MatchResult>)
      requires Valid()
      modifies this`pairIndex, this`activePairCount, this`userAdjacency, this`incomingAdjacency, this`fifo,
        this`orders, this`protocolBalances, this`tokens
      ensures View() == B.ApplyMatch(old(View()), aId, bId)
      // Only completing a parked order breaks the book.
      ensures Valid() <==> !CompletesParked(old(View()), aId, bId)
      ensures r == var m := TryMatch(old(View()), aId, bId); if m.None? then None else m.value.result
    {
      hide MatchWith;
      hide WellFormed;
      hide IndexOk;
      hide Settle;
      ApplyMatchFacts(View(), aId, bId);
      if aId == bId || aId !in orders || bId !in orders {
        return None;
      }
      var m := MatchWith(orders[aId], orders[bId]);
      if m.result.None? {
        return None;
      }
      Commit(m);
      return m.result;
    }

    /** Write a successful match back: orders, credited surpluses, and the index of completed orders. */
    method Commit(m: MatchOutcome)
      requires Represents() && m.result.Some? && m.left.id in orders && m.right.id in orders && m.left.id != m.right.id
      requires OrdersOk(orders[m.left.id := m.left][m.right.id := m.right])
      requires SameTerms(orders, orders[m.left.id := m.left][m.right.id := m.right], fifo)
      modifies this`orders, this`pairIndex, this`activePairCount, this`userAdjacency, this`incomingAdjacency,
        this`fifo, this`protocolBalances, this`tokens
      ensures View() == Settle(old(View()), m)
      ensures (m.left.id in old(fifo) || m.left.IsActive()) && (m.right.id in old(fifo) || m.right.IsActive()) ==> Represents()
    {
      hide OrdersOk;
      hide SameTerms;
      hide IndexOk;
      hide LinksOk;
      hide CountsOk;
      IndexJoin(orders, fifo, pairIndex, activePairCount, userAdjacency, incomingAdjacency);
      ghost var orders' := orders[m.left.id := m.left][m.right.id := m.right];
      IndexCarriesOver(orders, orders', fifo, pairIndex, activePairCount, userAdjacency, incomingAdjacency);
      orders := orders[m.left.id := m.left][m.right.id := m.right];
      IndexJoin(orders, fifo, pairIndex, activePairCount, userAdjacency, incomingAdjacency);
      CleanupIfFilled(m.left.id);
      CleanupIfFilled(m.right.id);
      AddProtocolBalance(m.left.offeredToken, m.result.value.surplusOffered);
      AddProtocolBalance(m.right.offeredToken, m.result.value.surplusRequested);
    }
  }
}
