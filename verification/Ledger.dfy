/** Per-token accounting of a run: what filled orders release against what they are owed and what is credited. */
module Ledger {
  import opened Types
  import opened RateIndex
  import opened Sums
  import opened B = Book
  import opened Direct

  /** Units of token `t` an order has released for its fill so far. */
  function Released(o: Order, t: TokenId): nat
  {
    if o.Valid() && o.offeredToken == t then o.OfferedFor(o.RequestedFilled()) else 0
  }

  /** Units of token `t` an order has been paid so far. */
  function Received(o: Order, t: TokenId): nat
  {
    if o.Valid() && o.requestedToken == t then o.RequestedFilled() else 0
  }

  ghost function ReleasedOf(t: TokenId): Order -> int { (o: Order) => Released(o, t) }

  /** Release minus receipt: the contribution of an order to the solver's net flow of `t`. */
  ghost function NetOf(t: TokenId): Order -> int { (o: Order) => Released(o, t) - Received(o, t) }

  ghost function OfferedOf(t: TokenId): Order -> int { (o: Order) => if o.offeredToken == t then o.offered else 0 }

  /** The fills so far release, token by token, at least what they pay out plus what was credited. */
  ghost predicate Solvent(b: Book, t: TokenId)
  {
    BalanceAt(b.balances, t) <= SumOver(b.orders, NetOf(t))
  }

  /** Filling an order further releases at least what the extra fill releases on its own. */
  lemma FillReleases(o: Order, o': Order, t: TokenId)
    requires o.Valid() && FilledFrom(o, o')
    ensures o'.Valid()
    ensures o.offeredToken == t ==> Released(o', t) >= Released(o, t) + o.OfferedFor(FillBetween(o, o'))
    ensures o.offeredToken != t ==> Released(o', t) == Released(o, t)
    ensures Received(o', t) == Received(o, t) + (if o.requestedToken == t then FillBetween(o, o') else 0)
  {
    hide CalculateOutput;
    OutputSuperadditive(o.offered, o.requested, o.RequestedFilled(), FillBetween(o, o'));
  }

  /** One direct match keeps every token solvent. */
  lemma MatchSolvent(b: Book, feed: Feed, p: Pair, t: TokenId)
    requires WellFormed(b) && p.0 != p.1 && NextMatch(b, feed, p).Some?
    requires Solvent(b, t)
    ensures Solvent(Settle(b, NextMatch(b, feed, p).value), t)
  {
    hide MatchWith;
    var m := NextMatch(b, feed, p).value;
    var x, y := m.left.id, m.right.id;
    MatchLedger(b.orders[x], b.orders[y]);
    hide NextMatch;
    FillReleases(b.orders[x], m.left, t);
    FillReleases(b.orders[y], m.right, t);
    SumTwo(b.orders, x, m.left, y, m.right, NetOf(t));
  }

  lemma {:induction false} PairSolvent(r: Run, feed: Feed, p: Pair, t: TokenId)
    requires WellFormed(r.book) && p.0 != p.1 && Solvent(r.book, t)
    ensures Solvent(MatchPair(r, feed, p).book, t)
    decreases TotalRemaining(r.book)
  {
    hide NextMatch;
    hide Settle;
    hide WellFormed;
    var m := NextMatch(r.book, feed, p);
    if m.Some? {
      StepDecreases(r.book, feed, p);
      MatchSolvent(r.book, feed, p, t);
      PairSolvent(Step(r, m.value), feed, p, t);
    }
  }

  lemma {:induction false} AllSolvent(r: Run, feed: Feed, pairs: set<Pair>, t: TokenId)
    requires WellFormed(r.book) && Ascending(pairs) && Solvent(r.book, t)
    ensures Solvent(MatchAll(r, feed, pairs).book, t)
    decreases |pairs|
  {
    hide WellFormed;
    hide MatchPair;
    if pairs != {} {
      var q :| q in pairs && MatchAll(r, feed, pairs) == MatchAll(MatchPair(r, feed, q), feed, pairs - {q});
      PairSolvent(r, feed, q, t);
      AllSolvent(MatchPair(r, feed, q), feed, pairs - {q}, t);
    }
  }

  ghost predicate AllWhole(orders: Orders)
  {
    forall id :: id in orders ==> orders[id].IsWhole()
  }

  /** Untouched orders without balances owe nothing. */
  lemma WholeBookSolvent(b: Book, t: TokenId)
    requires OrdersOk(b.orders) && AllWhole(b.orders) && b.balances == map[]
    ensures Solvent(b, t) && SumOver(b.orders, ReleasedOf(t)) == 0
  {
    forall id | id in b.orders
      ensures NetOf(t)(b.orders[id]) == 0 && ReleasedOf(t)(b.orders[id]) == 0
    {
      var o := b.orders[id];
      OutputLossless(o.offered, o.requested, 0);
    }
    SumZero(b.orders, NetOf(t));
    SumZero(b.orders, ReleasedOf(t));
  }

  /**
   * From any book of whole orders the direct phase ends solvent on every token, whatever pairs it visited in whatever
   * order.
   */
  lemma DirectPhaseSolvent(b: Book, feed: Feed, t: TokenId)
    requires WellFormed(b) && AllWhole(b.orders) && b.balances == map[]
    ensures Solvent(DirectPhase(b, feed).book, t)
  {
    WholeBookSolvent(b, t);
    AllSolvent(Run(b, {}, 0), feed, MatchablePairs(b), t);
  }

  /**
   * Releases never exceed offers, so a balance covered by releases fits u64 whenever the total offer of its token does.
   */
  lemma ReleasedWithinOffered(b: Book, t: TokenId)
    requires OrdersOk(b.orders)
    ensures SumOver(b.orders, NetOf(t)) <= SumOver(b.orders, ReleasedOf(t)) <= SumOver(b.orders, OfferedOf(t))
  {
    forall id | id in b.orders
      ensures NetOf(t)(b.orders[id]) <= ReleasedOf(t)(b.orders[id]) <= OfferedOf(t)(b.orders[id])
    {
      var o := b.orders[id];
      OutputLossless(o.offered, o.requested, o.RequestedFilled());
    }
    SumMonotone(b.orders, NetOf(t), ReleasedOf(t));
    SumMonotone(b.orders, ReleasedOf(t), OfferedOf(t));
  }
}
