/** Direct matching on the live book. */
module DirectMatching {
  import opened Types
  import opened RateIndex
  import opened B = Book
  import opened OrderBook
  import opened Direct

  /** All token pairs, lower token first, with matchable orders in both directions. */
  method CollectMatchablePairs(book: OrderBook) returns (pairs: set<Pair>)
    requires book.Valid()
    ensures pairs == MatchablePairs(book.View())
  {
    pairs := {};
    var todo := book.tokens;
    while todo != {}
      invariant todo <= book.tokens
      invariant forall p :: p in pairs <==> p in MatchablePairs(book.View()) && p.0 !in todo
      decreases |todo|
    {
      var a :| a in todo;
      var rest := book.tokens;
      while rest != {}
        invariant rest <= book.tokens
        invariant forall p :: p in pairs <==>
          p in MatchablePairs(book.View()) && (p.0 !in todo || (p.0 == a && p.1 !in rest))
        decreases |rest|
      {
        var c :| c in rest;
        if a < c && book.HasOrders(a, c) && book.HasOrders(c, a) {
          pairs := pairs + {(a, c)};
        }
        rest := rest - {c};
      }
      todo := todo - {a};
    }
  }

  /** Match the best orders of one pair against each other until nothing trades. */
  method MatchUserOrders(book: OrderBook, a: TokenId, b: TokenId, filled0: set<OrderId>) returns (filled: set<OrderId>,
      cycles: nat)
    requires book.Valid()
    modifies book
    ensures Run(book.View(), filled, cycles) == MatchPair(Run(old(book.View()), filled0, 0), book.feed, (a, b))
    ensures book.Valid() && book.feed == old(book.feed)
  {
    hide WellFormed;
    hide IndexOk;
    hide MatchWith;
    hide Settle;
    hide NextMatch;
    hide Best;
    filled, cycles := filled0, 0;
    ghost var goal := MatchPair(Run(book.View(), filled, cycles), book.feed, (a, b));
    while true
      invariant book.Valid() && book.feed == old(book.feed)
      invariant goal == MatchPair(Run(book.View(), filled, cycles), book.feed, (a, b))
      decreases TotalRemaining(book.View())
    {
      ghost var before := Run(book.View(), filled, cycles);
      NextMatchIs(before.book, book.feed, (a, b));
      var orderA := book.BestOrder(a, b);
      if orderA.None? { break; }
      var orderB := book.BestOrder(b, a);
      if orderB.None? { break; }
      if a !in book.feed || b !in book.feed { break; }
      var r := book.ApplyMatch(orderA.value.id, orderB.value.id);
      if r.None? { break; }
      StepDecreases(before.book, book.feed, (a, b));
      filled := filled + {orderA.value.id, orderB.value.id};
      cycles := cycles + 1;
      assert Run(book.View(), filled, cycles) == Step(before, NextMatch(before.book, book.feed, (a, b)).value);
    }
  }

  /** The direct phase, visiting the collected pairs in an arbitrary order. */
  method RunDirectMatching(book: OrderBook, filled0: set<OrderId>) returns (filled: set<OrderId>, cycles: nat)
    requires book.Valid()
    modifies book
    ensures Run(book.View(), filled, cycles) == MatchAll(Run(old(book.View()), filled0, 0), book.feed, MatchablePairs(old(book.View())))
    ensures book.Valid() && book.feed == old(book.feed)
  {
    hide WellFormed;
    hide IndexOk;
    hide MatchPair;
    filled, cycles := filled0, 0;
    var pairs := CollectMatchablePairs(book);
    ghost var goal := MatchAll(Run(book.View(), filled, cycles), book.feed, pairs);
    while pairs != {}
      invariant book.Valid() && book.feed == old(book.feed) && Ascending(pairs)
      invariant goal == MatchAll(Run(book.View(), filled, cycles), book.feed, pairs)
      decreases |pairs|
    {
      var p :| p in pairs;
      ghost var before := Run(book.View(), filled, cycles);
      MatchAllAnyOrder(before, book.feed, pairs, p);
      PairCycles(before.(cycles := 0), book.feed, p, cycles);
      var more;
      filled, more := MatchUserOrders(book, p.0, p.1, filled);
      cycles := cycles + more;
      assert Run(book.View(), filled, cycles) == MatchPair(before, book.feed, p);
      pairs := pairs - {p};
    }
  }
}
