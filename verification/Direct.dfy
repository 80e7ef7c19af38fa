/** Direct (pairwise) matching as a pure run over the book: termination, confluence and idempotence. */
module Direct {
  import opened Types
  import opened RateIndex
  import opened Sums
  import opened B = Book

  type Feed = map<TokenId, Amount>

  /** A book in the middle of an engine run, with what the run has done so far. */
  datatype Run = Run(book: Book, filled: set<OrderId>, cycles: nat)

  function Swap(p: Pair): Pair { (p.1, p.0) }

  /** `m` fills two different matchable orders of `b`. */
  ghost predicate IsFill(b: Book, m: MatchOutcome)
    requires WellFormed(b)
  {
    && m.result.Some? && m.left.id != m.right.id
    && m.left.id in b.fifo && m.right.id in b.fifo
    && FilledFrom(b.orders[m.left.id], m.left) && FilledFrom(b.orders[m.right.id], m.right)
  }

  /** The next match of a pair: both best orders, if they exist, are priced and actually trade. */
  ghost function NextMatch(b: Book, feed: Feed, p: Pair): (r: Option<MatchOutcome>)
    requires WellFormed(b)
    ensures r.Some? ==>
      && IsFill(b, r.value)
      && r.value.left.Pair() == p && r.value.right.Pair() == Swap(p)
      && r == TryMatch(b, r.value.left.id, r.value.right.id)
  {
    hide MatchWith;
    var x, y := Best(b, p), Best(b, Swap(p));
    if x.None? || y.None? || p.0 !in feed || p.1 !in feed then None
    else
      ApplyMatchFacts(b, x.value, y.value);
      if TryMatch(b, x.value, y.value).Some? then
        MatchLedger(b.orders[x.value], b.orders[y.value]);
        TryMatch(b, x.value, y.value)
      else None
  }

  /** The next match, spelled out the way the loop of `match_user_orders` finds it. */
  lemma NextMatchIs(b: Book, feed: Feed, p: Pair)
    ensures WellFormed(b) ==>
      var x, y := Best(b, p), Best(b, Swap(p));
      if x.None? || y.None? || p.0 !in feed || p.1 !in feed then NextMatch(b, feed, p).None?
      else
        && b.orders[x.value].id == x.value && x.value !in b.parked
        && b.orders[y.value].id == y.value && y.value !in b.parked
        && NextMatch(b, feed, p) == TryMatch(b, x.value, y.value)
        && (NextMatch(b, feed, p).Some? ==>
              NextMatch(b, feed, p).value.left.id == x.value && NextMatch(b, feed, p).value.right.id == y.value)
  {
    hide MatchWith;
    if WellFormed(b) && Best(b, p).Some? && Best(b, Swap(p)).Some? {
      ApplyMatchFacts(b, Best(b, p).value, Best(b, Swap(p)).value);
    }
  }

  ghost function Remaining(): Order -> int { (o: Order) => o.requestedRemaining }

  ghost function TotalRemaining(b: Book): nat
  {
    SumNonNegative(b.orders, Remaining());
    SumOver(b.orders, Remaining())
  }

  /** The run after one match. */
  ghost function Step(r: Run, m: MatchOutcome): Run
    requires m.result.Some?
  {
    Run(Settle(r.book, m), r.filled + {m.left.id, m.right.id}, r.cycles + 1)
  }

  /** Two different orders replaced: the measure changes by the two differences. */
  lemma SumTwo(orders: Orders, x: OrderId, o: Order, y: OrderId, u: Order, f: Order -> int)
    requires x in orders && y in orders && x != y
    ensures SumOver(orders[x := o][y := u], f) == SumOver(orders, f) + f(o) - f(orders[x]) + f(u) - f(orders[y])
  {
    SumUpdate(orders, x, o, f);
    SumUpdate(orders[x := o], y, u, f);
  }

  /** Every match fills at least one unit on each side. */
  lemma StepDecreases(b: Book, feed: Feed, p: Pair)
    requires WellFormed(b) && NextMatch(b, feed, p).Some?
    ensures var b' := Settle(b, NextMatch(b, feed, p).value); WellFormed(b') && TotalRemaining(b') < TotalRemaining(b)
  {
    hide MatchWith;
    var m := NextMatch(b, feed, p).value;
    SettleWellFormed(b, m);
    MatchLedger(b.orders[m.left.id], b.orders[m.right.id]);
    SumTwo(b.orders, m.left.id, m.left, m.right.id, m.right, Remaining());
  }

  /** Match one pair until nothing trades. */
  ghost function MatchPair(r: Run, feed: Feed, p: Pair): (r': Run)
    requires WellFormed(r.book)
    ensures WellFormed(r'.book)
    decreases TotalRemaining(r.book)
  {
    hide NextMatch;
    hide Settle;
    var m := NextMatch(r.book, feed, p);
    if m.None? then r
    else
      StepDecreases(r.book, feed, p);
      MatchPair(Step(r, m.value), feed, p)
  }

  // ---------------------------------------------------------------------------
  // Matches of different pairs commute
  // ---------------------------------------------------------------------------

  /** The two pairs share no order. */
  predicate Apart(p: Pair, q: Pair) { p != q && p != Swap(q) }

  lemma BestUnaffected(b: Book, p: Pair, m: MatchOutcome)
    requires WellFormed(b) && IsFill(b, m)
    requires m.left.Pair() != p && m.right.Pair() != p
    ensures WellFormed(Settle(b, m))
    ensures Best(Settle(b, m), p) == Best(b, p)
  {
    SettleWellFormed(b, m);
    var orders' := b.orders[m.left.id := m.left][m.right.id := m.right];
    BestSameTerms(b.orders, orders', b.fifo, p);
    var s := DropFilled(b.fifo, m.left);
    BestIgnoresOthers(orders', b.fifo, p, m.left.id);
    BestIgnoresOthers(orders', s, p, m.right.id);
  }

  /** A fill of orders of pair `q` leaves the next match of an unrelated pair `p` as it was. */
  lemma NextMatchUnaffected(b: Book, feed: Feed, p: Pair, q: Pair, m: MatchOutcome)
    requires WellFormed(b) && Apart(p, q)
    requires IsFill(b, m) && m.left.Pair() == q && m.right.Pair() == Swap(q)
    ensures WellFormed(Settle(b, m))
    ensures NextMatch(Settle(b, m), feed, p) == NextMatch(b, feed, p)
  {
    hide MatchWith;
    hide BestIn;
    BestUnaffected(b, p, m);
    BestUnaffected(b, Swap(p), m);
  }

  lemma DepositCommutes(balances: map<TokenId, nat>, t: TokenId, x: Amount, u: TokenId, y: Amount)
    ensures Deposit(Deposit(balances, t, x), u, y) == Deposit(Deposit(balances, u, y), t, x)
  {}

  lemma DropFilledCommutes(s: seq<OrderId>, o: Order, u: Order)
    ensures DropFilled(DropFilled(s, o), u) == DropFilled(DropFilled(s, u), o)
  {
    WithoutCommutes(s, o.id, u.id);
  }

  /** Fills of four different orders can be settled in either order. */
  lemma SettleCommutes(b: Book, m: MatchOutcome, n: MatchOutcome)
    requires m.result.Some? && n.result.Some?
    requires {m.left.id, m.right.id} !! {n.left.id, n.right.id}
    ensures Settle(Settle(b, m), n) == Settle(Settle(b, n), m)
  {
    var (ml, mr, nl, nr) := (m.left, m.right, n.left, n.right);
    calc {
      DropFilled(DropFilled(DropFilled(DropFilled(b.fifo, ml), mr), nl), nr);
      { DropFilledCommutes(DropFilled(b.fifo, ml), mr, nl); }
      DropFilled(DropFilled(DropFilled(DropFilled(b.fifo, ml), nl), mr), nr);
      { DropFilledCommutes(b.fifo, ml, nl); DropFilledCommutes(DropFilled(DropFilled(b.fifo, nl), ml), mr, nr); }
      DropFilled(DropFilled(DropFilled(DropFilled(b.fifo, nl), ml), nr), mr);
      { DropFilledCommutes(DropFilled(b.fifo, nl), ml, nr); }
      DropFilled(DropFilled(DropFilled(DropFilled(b.fifo, nl), nr), ml), mr);
    }
    var (a, x) := (ml.offeredToken, m.result.value.surplusOffered);
    var (c, y) := (mr.offeredToken, m.result.value.surplusRequested);
    var (d, z) := (nl.offeredToken, n.result.value.surplusOffered);
    var (e, w) := (nr.offeredToken, n.result.value.surplusRequested);
    calc {
      Deposit(Deposit(Deposit(Deposit(b.balances, a, x), c, y), d, z), e, w);
      { DepositCommutes(Deposit(b.balances, a, x), c, y, d, z); }
      Deposit(Deposit(Deposit(Deposit(b.balances, a, x), d, z), c, y), e, w);
      { DepositCommutes(b.balances, a, x, d, z); DepositCommutes(Deposit(Deposit(b.balances, d, z), a, x), c, y, e, w); }
      Deposit(Deposit(Deposit(Deposit(b.balances, d, z), a, x), e, w), c, y);
      { DepositCommutes(Deposit(b.balances, d, z), a, x, e, w); }
      Deposit(Deposit(Deposit(Deposit(b.balances, d, z), e, w), a, x), c, y);
    }
  }

  /** One match of `p`, then all of `q`, or the other way round. */
  lemma {:induction false} StepThenPair(r: Run, feed: Feed, p: Pair, q: Pair, m: MatchOutcome)
    requires WellFormed(r.book) && Apart(p, q) && NextMatch(r.book, feed, p) == Some(m)
    ensures NextMatch(MatchPair(r, feed, q).book, feed, p) == Some(m)
    ensures WellFormed(Settle(r.book, m))
    ensures MatchPair(Step(r, m), feed, q) == Step(MatchPair(r, feed, q), m)
    decreases TotalRemaining(r.book)
  {
    hide NextMatch;
    hide Settle;
    hide WellFormed;
    NextMatchUnaffected(r.book, feed, q, p, m);
    var n := NextMatch(r.book, feed, q);
    if n.Some? {
      StepDecreases(r.book, feed, q);
      NextMatchUnaffected(r.book, feed, p, q, n.value);
      StepThenPair(Step(r, n.value), feed, p, q, m);
      SettleCommutes(r.book, m, n.value);
      assert Step(Step(r, m), n.value) == Step(Step(r, n.value), m);
    }
  }

  /** Matching one pair never changes what an unrelated pair will match next. */
  lemma {:induction false} PairUnaffected(r: Run, feed: Feed, p: Pair, q: Pair)
    requires WellFormed(r.book) && Apart(p, q)
    ensures NextMatch(MatchPair(r, feed, q).book, feed, p) == NextMatch(r.book, feed, p)
    decreases TotalRemaining(r.book)
  {
    hide NextMatch;
    hide Settle;
    hide WellFormed;
    var n := NextMatch(r.book, feed, q);
    if n.Some? {
      StepDecreases(r.book, feed, q);
      NextMatchUnaffected(r.book, feed, p, q, n.value);
      PairUnaffected(Step(r, n.value), feed, p, q);
    }
  }

  /** Two unrelated pairs can be matched in either order. */
  lemma {:induction false} PairsCommute(r: Run, feed: Feed, p: Pair, q: Pair)
    requires WellFormed(r.book) && Apart(p, q)
    ensures MatchPair(MatchPair(r, feed, p), feed, q) == MatchPair(MatchPair(r, feed, q), feed, p)
    decreases TotalRemaining(r.book)
  {
    hide NextMatch;
    hide Settle;
    hide WellFormed;
    var m := NextMatch(r.book, feed, p);
    PairUnaffected(r, feed, p, q);
    if m.Some? {
      StepDecreases(r.book, feed, p);
      PairsCommute(Step(r, m.value), feed, p, q);
      StepThenPair(r, feed, p, q, m.value);
    }
  }

  /** The cycle counter only counts. */
  lemma {:induction false} PairCycles(r: Run, feed: Feed, p: Pair, n: nat)
    requires WellFormed(r.book)
    ensures MatchPair(r.(cycles := r.cycles + n), feed, p) == MatchPair(r, feed, p).(cycles := MatchPair(r, feed, p).cycles + n)
    decreases TotalRemaining(r.book)
  {
    hide NextMatch;
    hide Settle;
    hide WellFormed;
    var m := NextMatch(r.book, feed, p);
    if m.Some? {
      StepDecreases(r.book, feed, p);
      PairCycles(Step(r, m.value), feed, p, n);
      assert Step(r.(cycles := r.cycles + n), m.value) == Step(r, m.value).(cycles := r.cycles + 1 + n);
    }
  }

  // ---------------------------------------------------------------------------
  // The whole direct phase
  // ---------------------------------------------------------------------------

  /** Pairs as `collect_matchable_pairs` forms them: lower token first. */
  ghost predicate Ascending(pairs: set<Pair>)
  {
    forall p :: p in pairs ==> p.0 < p.1
  }

  /** Match every pair of a set, in some order. */
  ghost function MatchAll(r: Run, feed: Feed, pairs: set<Pair>): (r': Run)
    requires WellFormed(r.book)
    ensures WellFormed(r'.book)
    decreases |pairs|
  {
    if pairs == {} then r
    else
      var p :| p in pairs;
      MatchAll(MatchPair(r, feed, p), feed, pairs - {p})
  }

  /**
   * Confluence: whichever pair is visited first, the direct phase ends in the same book, filled set and cycle count.
   */
  lemma {:induction false} MatchAllAnyOrder(r: Run, feed: Feed, pairs: set<Pair>, p: Pair)
    requires WellFormed(r.book) && Ascending(pairs) && p in pairs
    ensures MatchAll(r, feed, pairs) == MatchAll(MatchPair(r, feed, p), feed, pairs - {p})
    decreases |pairs|
  {
    hide MatchPair;
    hide WellFormed;
    var q :| q in pairs && MatchAll(r, feed, pairs) == MatchAll(MatchPair(r, feed, q), feed, pairs - {q});
    if p != q {
      MatchAllAnyOrder(MatchPair(r, feed, q), feed, pairs - {q}, p);
      PairsCommute(r, feed, p, q);
      MatchAllAnyOrder(MatchPair(r, feed, p), feed, pairs - {p}, q);
      assert (pairs - {q}) - {p} == (pairs - {p}) - {q};
    }
  }

  /** The pairs with matchable orders in both directions. */
  ghost function MatchablePairs(b: Book): (s: set<Pair>)
    requires WellFormed(b)
    ensures Ascending(s)
  {
    set a, c | a in b.tokens && c in b.tokens && a < c && Best(b, (a, c)).Some? && Best(b, (c, a)).Some? :: (a, c)
  }

  ghost function DirectPhase(b: Book, feed: Feed): (r: Run)
    requires WellFormed(b)
    ensures WellFormed(r.book)
  {
    MatchAll(Run(b, {}, 0), feed, MatchablePairs(b))
  }

  // ---------------------------------------------------------------------------
  // Idempotence
  // ---------------------------------------------------------------------------

  lemma {:induction false} PairEndsStuck(r: Run, feed: Feed, p: Pair)
    requires WellFormed(r.book)
    ensures NextMatch(MatchPair(r, feed, p).book, feed, p).None?
    decreases TotalRemaining(r.book)
  {
    hide NextMatch;
    hide Settle;
    hide WellFormed;
    var m := NextMatch(r.book, feed, p);
    if m.Some? {
      StepDecreases(r.book, feed, p);
      PairEndsStuck(Step(r, m.value), feed, p);
    }
  }

  lemma {:induction false} AllUnaffected(r: Run, feed: Feed, pairs: set<Pair>, p: Pair)
    requires WellFormed(r.book) && Ascending(pairs) && p.0 < p.1 && p !in pairs
    ensures NextMatch(MatchAll(r, feed, pairs).book, feed, p) == NextMatch(r.book, feed, p)
    decreases |pairs|
  {
    hide NextMatch;
    hide WellFormed;
    hide MatchPair;
    if pairs != {} {
      var q :| q in pairs && MatchAll(r, feed, pairs) == MatchAll(MatchPair(r, feed, q), feed, pairs - {q});
      PairUnaffected(r, feed, p, q);
      AllUnaffected(MatchPair(r, feed, q), feed, pairs - {q}, p);
    }
  }

  /** After the direct phase over `pairs`, none of them has a match left. */
  lemma AllEndStuck(r: Run, feed: Feed, pairs: set<Pair>, p: Pair)
    requires WellFormed(r.book) && Ascending(pairs) && p in pairs
    ensures NextMatch(MatchAll(r, feed, pairs).book, feed, p).None?
  {
    hide NextMatch;
    hide WellFormed;
    MatchAllAnyOrder(r, feed, pairs, p);
    PairEndsStuck(r, feed, p);
    AllUnaffected(MatchPair(r, feed, p), feed, pairs - {p}, p);
  }

  lemma {:induction false} StuckPairsIdle(r: Run, feed: Feed, pairs: set<Pair>)
    requires WellFormed(r.book)
    requires forall p :: p in pairs ==> NextMatch(r.book, feed, p).None?
    ensures MatchAll(r, feed, pairs) == r
    decreases |pairs|
  {
    hide NextMatch;
    hide WellFormed;
    if pairs != {} {
      var q :| q in pairs && MatchAll(r, feed, pairs) == MatchAll(MatchPair(r, feed, q), feed, pairs - {q});
      assert MatchPair(r, feed, q) == r;
      StuckPairsIdle(r, feed, pairs - {q});
    }
  }

  /** `b'` is `b` after some matching: only fills, and only departures from the matchable list. */
  ghost predicate Follows(b: Book, b': Book)
  {
    && b'.orders.Keys == b.orders.Keys
    && (forall id :: id in b.orders ==> FilledFrom(b.orders[id], b'.orders[id]))
    && (forall id :: id in b'.fifo ==> id in b.fifo)
    && (forall id :: id in b.orders && id !in b.fifo ==> b'.orders[id] == b.orders[id])
    && b'.parked == b.parked && b'.parkQueue == b.parkQueue && b'.tokens == b.tokens
  }

  lemma SettleFollows(b: Book, m: MatchOutcome)
    requires WellFormed(b) && IsFill(b, m)
    ensures Follows(b, Settle(b, m))
  {}

  lemma FollowsTransitive(b: Book, c: Book, d: Book)
    requires Follows(b, c) && Follows(c, d)
    ensures Follows(b, d)
  {}

  /** A pair that is not collected has no orders on one side. */
  lemma UncollectedIdle(b: Book, feed: Feed, p: Pair)
    requires WellFormed(b) && p.0 < p.1 && p !in MatchablePairs(b)
    ensures NextMatch(b, feed, p).None?
  {
    assert p == (p.0, p.1);
    hide MatchWith;
    hide BestIn;
  }

  /** After the direct phase no pair of tokens at all has a match left. */
  lemma DirectEndsStuck(b: Book, feed: Feed, p: Pair)
    requires WellFormed(b) && p.0 < p.1
    ensures NextMatch(DirectPhase(b, feed).book, feed, p).None?
  {
    hide NextMatch;
    hide WellFormed;
    hide MatchAll;
    hide MatchablePairs;
    if p in MatchablePairs(b) {
      AllEndStuck(Run(b, {}, 0), feed, MatchablePairs(b), p);
    } else {
      UncollectedIdle(b, feed, p);
      AllUnaffected(Run(b, {}, 0), feed, MatchablePairs(b), p);
    }
  }

  /** A second direct phase on the result of the first executes nothing. */
  lemma DirectPhaseIdempotent(b: Book, feed: Feed)
    requires WellFormed(b)
    ensures var r := DirectPhase(b, feed); DirectPhase(r.book, feed) == Run(r.book, {}, 0)
  {
    var r := DirectPhase(b, feed);
    hide DirectPhase;
    hide NextMatch;
    forall p | p in MatchablePairs(r.book)
      ensures NextMatch(r.book, feed, p).None?
    {
      DirectEndsStuck(b, feed, p);
    }
    StuckPairsIdle(Run(r.book, {}, 0), feed, MatchablePairs(r.book));
    assert DirectPhase(r.book, feed) == MatchAll(Run(r.book, {}, 0), feed, MatchablePairs(r.book)) by {
      DirectPhaseIs(r.book, feed);
    }
  }

  lemma DirectPhaseIs(b: Book, feed: Feed)
    requires WellFormed(b)
    ensures DirectPhase(b, feed) == MatchAll(Run(b, {}, 0), feed, MatchablePairs(b))
  {}

  // ---------------------------------------------------------------------------
  // What a run reports
  // ---------------------------------------------------------------------------

  /** `filled` adds to `filled0` exactly the orders that changed. */
  ghost predicate Touched(b0: Book, b: Book, filled0: set<OrderId>, filled: set<OrderId>)
  {
    && b.orders.Keys == b0.orders.Keys
    && forall id :: id in filled <==> id in filled0 || (id in b0.orders && b.orders[id] != b0.orders[id])
  }

  /** An order that changed keeps counting as changed, because fills only grow. */
  lemma TouchedMore(b0: Book, b: Book, b': Book, filled0: set<OrderId>, filled: set<OrderId>, more: set<OrderId>)
    requires Follows(b0, b) && Follows(b, b') && Touched(b0, b, filled0, filled)
    requires more <= b.orders.Keys
    requires forall id :: id in b.orders ==> (b'.orders[id] != b.orders[id] <==> id in more)
    ensures Touched(b0, b', filled0, filled + more)
  {}

  /** The filled set and the cycle count of a run, seen from the book it started on. */
  ghost predicate Reports(b0: Book, filled0: set<OrderId>, r: Run)
  {
    && Follows(b0, r.book) && Touched(b0, r.book, filled0, r.filled)
    && if r.cycles == 0 then r.book == b0 && r.filled == filled0 else r.filled != {}
  }

  lemma StepReports(b0: Book, filled0: set<OrderId>, r: Run, feed: Feed, p: Pair)
    requires WellFormed(r.book) && Reports(b0, filled0, r) && NextMatch(r.book, feed, p).Some?
    ensures Reports(b0, filled0, Step(r, NextMatch(r.book, feed, p).value))
  {
    hide MatchWith;
    var m := NextMatch(r.book, feed, p).value;
    MatchLedger(r.book.orders[m.left.id], r.book.orders[m.right.id]);
    hide NextMatch;
    SettleFollows(r.book, m);
    FollowsTransitive(b0, r.book, Settle(r.book, m));
    TouchedMore(b0, r.book, Settle(r.book, m), filled0, r.filled, {m.left.id, m.right.id});
  }

  lemma {:induction false} PairReports(b0: Book, filled0: set<OrderId>, r: Run, feed: Feed, p: Pair)
    requires WellFormed(r.book) && Reports(b0, filled0, r)
    ensures Reports(b0, filled0, MatchPair(r, feed, p))
    decreases TotalRemaining(r.book)
  {
    hide NextMatch;
    hide Settle;
    hide WellFormed;
    hide Reports;
    var m := NextMatch(r.book, feed, p);
    if m.Some? {
      StepDecreases(r.book, feed, p);
      StepReports(b0, filled0, r, feed, p);
      PairReports(b0, filled0, Step(r, m.value), feed, p);
    }
  }

  /** The direct phase reports exactly the orders it filled, and counts no cycle unless it filled some. */
  lemma {:induction false} AllReports(b0: Book, filled0: set<OrderId>, r: Run, feed: Feed, pairs: set<Pair>)
    requires WellFormed(r.book) && Reports(b0, filled0, r)
    ensures Reports(b0, filled0, MatchAll(r, feed, pairs))
    decreases |pairs|
  {
    hide WellFormed;
    hide MatchPair;
    hide Reports;
    if pairs != {} {
      var q :| q in pairs && MatchAll(r, feed, pairs) == MatchAll(MatchPair(r, feed, q), feed, pairs - {q});
      PairReports(b0, filled0, r, feed, q);
      AllReports(b0, filled0, MatchPair(r, feed, q), feed, pairs - {q});
    }
  }
}
