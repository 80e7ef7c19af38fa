/**
 * The order book as a value: what each operation of the book does to the orders, the matchable list and the parked
 * notes.
 */
module Book {
  import opened Types
  import opened RateIndex

  /** The DEX a note was handed to, and when. */
  datatype Parking = Parking(dex: DexId, at: Amount)

  /** An entry of the time-ordered park queue. */
  datatype Ticket = Ticket(at: Amount, id: OrderId)

  /** `fifo` lists the ids the matching engine can see, oldest indexing first. */
  datatype Book = Book(
    orders: Orders,
    fifo: seq<OrderId>,
    parked: map<OrderId, Parking>,
    parkQueue: seq<Ticket>,
    balances: map<TokenId, nat>,
    tokens: set<TokenId>)

  ghost predicate OrdersOk(orders: Orders)
  {
    forall id :: id in orders ==> orders[id].Valid() && orders[id].id == id
  }

  /** Every order is in exactly one place: matchable if active and not parked, parked only while active. */
  ghost predicate WellFormed(b: Book)
  {
    && OrdersOk(b.orders)
    && NoDup(b.fifo)
    && (forall id :: id in b.fifo <==> id in b.orders && b.orders[id].IsActive() && id !in b.parked)
    && (forall id :: id in b.parked ==> id in b.orders && b.orders[id].IsActive())
    && (forall id :: id in b.orders ==> b.orders[id].offeredToken in b.tokens && b.orders[id].requestedToken in b.tokens)
  }

  /** The price-time winner of a pair. */
  ghost function Best(b: Book, p: Pair): (r: Option<OrderId>)
    requires WellFormed(b)
    ensures r.Some? ==> r.value in b.fifo && b.orders[r.value].Pair() == p
  {
    BestIn(b.orders, b.fifo, p)
  }

  // ---------------------------------------------------------------------------
  // Operations
  // ---------------------------------------------------------------------------

  function AddOrder(b: Book, id: OrderId, offeredToken: TokenId, requestedToken: TokenId, offered: Amount,
      requested: Amount): Book
  {
    if id in b.orders && id !in b.parked then b
    else b.(orders := b.orders[id := Order(id, offeredToken, requestedToken, offered, requested, requested)],
            parked := b.parked - {id},
            fifo := b.fifo + [id],
            tokens := b.tokens + {offeredToken, requestedToken})
  }

  function RemoveOrder(b: Book, id: OrderId): Book
  {
    if id !in b.orders then b
    else if id in b.parked then b.(orders := b.orders - {id}, parked := b.parked - {id})
    else b.(orders := b.orders - {id}, fifo := Without(b.fifo, id))
  }

  function Park(b: Book, id: OrderId, dex: DexId, time: Amount): Book
  {
    if id in b.parked || id !in b.orders || !b.orders[id].IsActive() then b
    else b.(fifo := Without(b.fifo, id),
            parked := b.parked[id := Parking(dex, time)],
            parkQueue := b.parkQueue + [Ticket(time, id)])
  }

  function Unpark(b: Book, id: OrderId): Book
  {
    if id !in b.parked then b
    else b.(parked := b.parked - {id},
            fifo := if id in b.orders && b.orders[id].IsActive() then b.fifo + [id] else b.fifo)
  }

  /** `parked_at + ttl` has been reached at `time`. */
  predicate Expired(at: Amount, ttl: Amount, time: Amount) { SaturatingAdd(at, ttl) <= time }

  /** Pop expired tickets from the front of the queue, waking every id that is still parked. */
  function Reactivate(b: Book, ttl: Amount, time: Amount): (Book, seq<(OrderId, DexId)>)
    decreases |b.parkQueue|
  {
    if b.parkQueue == [] || !Expired(b.parkQueue[0].at, ttl, time) then (b, [])
    else
      var id := b.parkQueue[0].id;
      var (b', woken) := Reactivate(Unpark(b.(parkQueue := b.parkQueue[1..]), id), ttl, time);
      (b', if id in b.parked then [(id, b.parked[id].dex)] + woken else woken)
  }

  function BalanceAt(balances: map<TokenId, nat>, t: TokenId): nat { if t in balances then balances[t] else 0 }

  /** `add_protocol_balance` on the balances and on the known tokens. */
  function Deposit(balances: map<TokenId, nat>, t: TokenId, amount: Amount): map<TokenId, nat>
  {
    if amount == 0 then balances else balances[t := BalanceAt(balances, t) + amount]
  }

  function Known(tokens: set<TokenId>, t: TokenId, amount: Amount): set<TokenId>
  {
    if amount == 0 then tokens else tokens + {t}
  }

  /** The matchable list once `o` has been written back: a completely filled order leaves it. */
  function DropFilled(s: seq<OrderId>, o: Order): seq<OrderId>
  {
    if o.IsCompletelyFilled() then Without(s, o.id) else s
  }

  /** Write both orders back, credit the surpluses, and take filled orders off the matchable list. */
  function Settle(b: Book, m: MatchOutcome): Book
    requires m.result.Some?
  {
    var MatchResult(so, sr) := m.result.value;
    b.(orders := b.orders[m.left.id := m.left][m.right.id := m.right],
       fifo := DropFilled(DropFilled(b.fifo, m.left), m.right),
       balances := Deposit(Deposit(b.balances, m.left.offeredToken, so), m.right.offeredToken, sr),
       tokens := Known(Known(b.tokens, m.left.offeredToken, so), m.right.offeredToken, sr))
  }

  /** The result of attempting a match between two orders of the book. */
  function TryMatch(b: Book, x: OrderId, y: OrderId): Option<MatchOutcome>
    requires OrdersOk(b.orders)
  {
    if x == y || x !in b.orders || y !in b.orders then None
    else
      var m := MatchWith(b.orders[x], b.orders[y]);
      if m.result.None? then None else Some(m)
  }

  /** `apply_match`: atomic, because the orders are written back only after the match succeeded. */
  function ApplyMatch(b: Book, x: OrderId, y: OrderId): Book
    requires OrdersOk(b.orders)
  {
    var m := TryMatch(b, x, y);
    if m.None? then b else Settle(b, m.value)
  }

  // ---------------------------------------------------------------------------
  // Well-formedness is kept
  // ---------------------------------------------------------------------------

  lemma AddOrderWellFormed(b: Book, id: OrderId, ot: TokenId, rt: TokenId, offered: Amount, requested: Amount)
    requires 0 < offered && 0 < requested
    ensures WellFormed(b) ==> WellFormed(AddOrder(b, id, ot, rt, offered, requested))
  {}

  /** An id that `AddOrder` accepts is not matchable yet, so the matchable orders keep their terms. */
  lemma AddOrderFresh(b: Book, o: Order)
    ensures WellFormed(b) && !(o.id in b.orders && o.id !in b.parked) ==>
      o.id !in b.fifo && SameTerms(b.orders, b.orders[o.id := o], b.fifo)
  {}

  lemma RemoveOrderWellFormed(b: Book, id: OrderId)
    ensures WellFormed(b) ==> WellFormed(RemoveOrder(b, id))
  {
    if NoDup(b.fifo) { WithoutNoDup(b.fifo, id); }
  }

  /** What taking `id` out of a correct index needs to know. */
  lemma UnindexFacts(b: Book, trees: Trees, counts: Counts, outgoing: Adjacency, incoming: Adjacency, id: OrderId)
    ensures id in b.orders && WellFormed(b) && IndexOk(b.orders, b.fifo, trees, counts, outgoing, incoming) ==>
      && b.orders[id].Valid()
      && LinksOk(b.orders, b.fifo, trees, outgoing, incoming) && CountsOk(b.orders, b.fifo, counts)
      && SameTerms(b.orders, b.orders - {id}, Without(b.fifo, id))
      && (id in b.fifo <==> b.orders[id].IsActive() && id !in b.parked)
      && (if id in b.fifo then CountsOk(b.orders, Without(b.fifo, id), Decrement(counts, b.orders[id].Pair()))
          else Without(b.fifo, id) == b.fifo)
  {
    if id in b.orders && WellFormed(b) && IndexOk(b.orders, b.fifo, trees, counts, outgoing, incoming) {
      DecrementOk(b.orders, b.fifo, counts, id, b.orders[id].Pair());
      if id !in b.fifo { WithoutAbsent(b.fifo, id); }
    }
  }

  lemma ParkWellFormed(b: Book, id: OrderId, dex: DexId, time: Amount)
    ensures WellFormed(b) ==> WellFormed(Park(b, id, dex, time))
  {
    if NoDup(b.fifo) { WithoutNoDup(b.fifo, id); }
  }

  lemma UnparkWellFormed(b: Book, id: OrderId)
    ensures WellFormed(b) ==> WellFormed(Unpark(b, id))
  {}

  lemma {:induction false} ReactivateWellFormed(b: Book, ttl: Amount, time: Amount)
    requires WellFormed(b)
    ensures WellFormed(Reactivate(b, ttl, time).0)
    decreases |b.parkQueue|
  {
    if b.parkQueue != [] && Expired(b.parkQueue[0].at, ttl, time) {
      var b1 := b.(parkQueue := b.parkQueue[1..]);
      UnparkWellFormed(b1, b.parkQueue[0].id);
      ReactivateWellFormed(Unpark(b1, b.parkQueue[0].id), ttl, time);
    }
  }

  lemma PopWellFormed(b: Book)
    requires b.parkQueue != []
    ensures WellFormed(b) ==> WellFormed(b.(parkQueue := b.parkQueue[1..]))
  {}

  /** A parked note is an active order outside the index. */
  lemma ParkedFacts(b: Book, id: OrderId)
    ensures WellFormed(b) && id in b.parked ==> id in b.orders && b.orders[id].Valid() && b.orders[id].IsActive() && id !in b.fifo
  {}

  /**
   * Further fills, followed by cleaning up those ids, keep the book well-formed exactly when no parked order is
   * completed.
   */
  lemma FillWellFormed(b: Book, b': Book, touched: set<OrderId>)
    requires WellFormed(b)
    requires touched <= b.orders.Keys == b'.orders.Keys
    requires forall id :: id in b.orders && id !in touched ==> b'.orders[id] == b.orders[id]
    requires forall id :: id in touched ==> FilledFrom(b.orders[id], b'.orders[id])
    requires b'.parked == b.parked && b.tokens <= b'.tokens
    requires NoDup(b'.fifo)
    requires forall id :: id in b'.fifo <==> id in b.fifo && b'.orders[id].IsActive()
    ensures WellFormed(b') <==> forall id :: id in touched && id in b.parked ==> b'.orders[id].IsActive()
  {}

  lemma DropFilledNoDup(s: seq<OrderId>, o: Order)
    requires NoDup(s)
    ensures NoDup(DropFilled(s, o))
    ensures forall id :: id in DropFilled(s, o) <==> id in s && (id == o.id ==> o.IsActive())
  {
    WithoutNoDup(s, o.id);
  }

  lemma SettleWellFormedIff(b: Book, m: MatchOutcome)
    requires WellFormed(b) && m.result.Some?
    requires m.left.id in b.orders && m.right.id in b.orders && m.left.id != m.right.id
    requires FilledFrom(b.orders[m.left.id], m.left) && FilledFrom(b.orders[m.right.id], m.right)
    ensures WellFormed(Settle(b, m)) <==> (m.left.id in b.parked ==> m.left.IsActive()) && (m.right.id in b.parked ==> m.right.IsActive())
  {
    DropFilledNoDup(b.fifo, m.left);
    DropFilledNoDup(DropFilled(b.fifo, m.left), m.right);
    FillWellFormed(b, Settle(b, m), {m.left.id, m.right.id});
    hide WellFormed;
  }

  lemma SettleWellFormed(b: Book, m: MatchOutcome)
    requires WellFormed(b) && m.result.Some?
    requires m.left.id in b.fifo && m.right.id in b.fifo && m.left.id != m.right.id
    requires FilledFrom(b.orders[m.left.id], m.left) && FilledFrom(b.orders[m.right.id], m.right)
    ensures WellFormed(Settle(b, m))
  {
    SettleWellFormedIff(b, m);
  }

  /** A match would complete an order that is parked, and so leave a parked note without anything to fill. */
  ghost predicate CompletesParked(b: Book, x: OrderId, y: OrderId)
    requires OrdersOk(b.orders)
  {
    var m := TryMatch(b, x, y);
    m.Some? && ((x in b.parked && m.value.left.IsCompletelyFilled()) || (y in b.parked && m.value.right.IsCompletelyFilled()))
  }

  /** Filling two orders keeps them valid and changes no matchable order's terms. */
  lemma FilledTerms(b: Book, x: Order, y: Order)
    requires WellFormed(b) && x.id in b.orders && y.id in b.orders && x.id != y.id
    requires FilledFrom(b.orders[x.id], x) && FilledFrom(b.orders[y.id], y)
    ensures OrdersOk(b.orders[x.id := x][y.id := y]) && SameTerms(b.orders, b.orders[x.id := x][y.id := y], b.fifo)
  {}

  /** Any two orders may be matched: the book stays well-formed exactly when no parked order is completed. */
  lemma ApplyMatchFacts(b: Book, x: OrderId, y: OrderId)
    ensures WellFormed(b) ==> OrdersOk(b.orders)
    ensures WellFormed(b) && TryMatch(b, x, y).Some? ==>
      var m := TryMatch(b, x, y).value;
      && x in b.orders && y in b.orders && x != y && m.result.Some?
      && m.left.id == x && m.right.id == y
      && OrdersOk(b.orders[x := m.left][y := m.right])
      && SameTerms(b.orders, b.orders[x := m.left][y := m.right], b.fifo)
      && (!CompletesParked(b, x, y) ==> (x in b.fifo || m.left.IsActive()) && (y in b.fifo || m.right.IsActive()))
      && (WellFormed(Settle(b, m)) <==> !CompletesParked(b, x, y))
  {
    hide MatchWith;
    hide Settle;
    if WellFormed(b) && TryMatch(b, x, y).Some? {
      var m := TryMatch(b, x, y).value;
      MatchLedger(b.orders[x], b.orders[y]);
      assert FilledFrom(b.orders[x], m.left) && FilledFrom(b.orders[y], m.right);
      FilledTerms(b, m.left, m.right);
      SettleWellFormedIff(b, m);
      hide SameTerms;
    }
  }

  lemma DepositAt(balances: map<TokenId, nat>, t: TokenId, amount: Amount, u: TokenId)
    ensures BalanceAt(Deposit(balances, t, amount), u) == BalanceAt(balances, u) + if u == t then amount else 0
  {}

  /**
   * A match trades exactly what exact arithmetic says or nothing at all, credits exactly both surpluses, and takes exactly
   * the completed orders off the matchable list.
   */
  lemma MatchEffect(b: Book, x: OrderId, y: OrderId, m: MatchOutcome, t: TokenId)
    requires WellFormed(b) && x in b.orders && y in b.orders && x != y
    ensures (forall m' :: !Trades(b.orders[x], b.orders[y], m')) ==> ApplyMatch(b, x, y) == b
    ensures Trades(b.orders[x], b.orders[y], m) ==>
      var b' := ApplyMatch(b, x, y);
      && b'.orders == b.orders[x := m.left][y := m.right] && b'.parked == b.parked && b'.parkQueue == b.parkQueue
      && (forall id :: id in b'.fifo <==> id in b.fifo && 0 < b'.orders[id].requestedRemaining)
      && BalanceAt(b'.balances, t) == BalanceAt(b.balances, t)
         + (if t == b.orders[x].offeredToken then m.result.value.surplusOffered else 0)
         + (if t == b.orders[y].offeredToken then m.result.value.surplusRequested else 0)
  {
    var o, u := b.orders[x], b.orders[y];
    MatchExact(o, u, MatchWith(o, u));
    MatchExact(o, u, m);
    hide MatchWith;
    hide Trades;
    if MatchWith(o, u).result.Some? {
      MatchLedger(o, u);
      MatchCredits(b, MatchWith(o, u), t);
    }
  }

  lemma MatchCredits(b: Book, m: MatchOutcome, t: TokenId)
    requires WellFormed(b) && m.result.Some? && m.left.id in b.orders && m.right.id in b.orders && m.left.id != m.right.id
    requires FilledFrom(b.orders[m.left.id], m.left) && FilledFrom(b.orders[m.right.id], m.right)
    ensures var b' := Settle(b, m);
      && (forall id :: id in b'.fifo <==> id in b.fifo && 0 < b'.orders[id].requestedRemaining)
      && BalanceAt(b'.balances, t) == BalanceAt(b.balances, t)
         + (if t == m.left.offeredToken then m.result.value.surplusOffered else 0)
         + (if t == m.right.offeredToken then m.result.value.surplusRequested else 0)
  {
    var MatchResult(so, sr) := m.result.value;
    DepositAt(b.balances, m.left.offeredToken, so, t);
    DepositAt(Deposit(b.balances, m.left.offeredToken, so), m.right.offeredToken, sr, t);
    DropFilledNoDup(b.fifo, m.left);
    DropFilledNoDup(DropFilled(b.fifo, m.left), m.right);
    hide Deposit;
    hide BalanceAt;
    hide DropFilled;
  }
}
