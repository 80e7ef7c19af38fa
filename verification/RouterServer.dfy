/** The router's quote store and the sorted snapshot it publishes to the matcher. */
module RouterServer {
  import opened Types
  import opened Select

  type Store = map<DexId, map<Pair, Quote>>

  predicate Stored(store: Store, dex: DexId, p: Pair) { dex in store && p in store[dex] }

  /** Every stored quote knows its DEX and pair and names a positive rate. */
  ghost predicate StoreOk(store: Store)
  {
    forall dex: DexId, p: Pair :: Stored(store, dex, p) ==>
      var q := store[dex][p]; q.dex == dex && q.pair == p && q.Rate().Positive()
  }

  function QuotesAt(m: QuotesByPair, p: Pair): seq<Quote> { if p in m then m[p] else [] }

  /** `list` holds each quote stored for `p` exactly once, as far as the entries in `done` go. */
  ghost predicate Lists(list: seq<Quote>, store: Store, p: Pair, done: set<(DexId, Pair)>)
  {
    && DistinctDexes(list)
    && forall q :: q in list <==> (q.dex, p) in done && Stored(store, q.dex, p) && store[q.dex][p] == q
  }

  ghost function Entries(store: Store): set<(DexId, Pair)>
  {
    set dex, p | dex in store && p in store[dex] :: (dex, p)
  }

  /** The snapshot groups exactly the stored quotes by pair, each group sorted most generous first. */
  ghost predicate Agrees(m: QuotesByPair, store: Store)
  {
    && (forall p :: p in m ==> m[p] != [])
    && (forall p: Pair :: Lists(QuotesAt(m, p), store, p, Entries(store)))
    && (forall p: Pair :: Descending(QuotesAt(m, p)))
  }

  // ---------------------------------------------------------------------------
  // Sorting by rate
  // ---------------------------------------------------------------------------

  ghost predicate AllPositive(s: seq<Quote>)
  {
    forall i :: 0 <= i < |s| ==> s[i].Rate().Positive()
  }

  /** Insert behind every quote that is at least as generous. */
  function InsertByRate(s: seq<Quote>, q: Quote): (r: seq<Quote>)
    ensures multiset(r) == multiset(s) + multiset{q}
  {
    if s == [] then [q]
    else if s[0].Rate().Less(q.Rate()) then [q] + s
    else
      assert s == [s[0]] + s[1..];
      [s[0]] + InsertByRate(s[1..], q)
  }

  /** A stable sort, descending by rate. */
  function SortByRate(s: seq<Quote>): (r: seq<Quote>)
    ensures multiset(r) == multiset(s)
  {
    if s == [] then []
    else
      assert s == s[..|s| - 1] + [s[|s| - 1]];
      InsertByRate(SortByRate(s[..|s| - 1]), s[|s| - 1])
  }

  /** A more generous quote in front keeps a list descending. */
  lemma PrependDescends(q: Quote, s: seq<Quote>)
    requires AllPositive(s) && Descending(s) && q.Rate().Positive()
    requires forall j :: 0 <= j < |s| ==> s[j].Rate().AtMost(q.Rate())
    ensures AllPositive([q] + s) && Descending([q] + s)
  {}

  lemma {:induction false} InsertByRateSorted(s: seq<Quote>, q: Quote)
    requires AllPositive(s) && Descending(s) && q.Rate().Positive()
    ensures AllPositive(InsertByRate(s, q)) && Descending(InsertByRate(s, q))
  {
    if s != [] {
      if s[0].Rate().Less(q.Rate()) {
        forall j | 0 <= j < |s|
          ensures s[j].Rate().AtMost(q.Rate())
        {
          RateOrder(s[j].Rate(), s[0].Rate(), q.Rate());
        }
        PrependDescends(q, s);
      } else {
        InsertByRateSorted(s[1..], q);
        InsertByRateMembers(s[1..], q);
        var t := InsertByRate(s[1..], q);
        forall j | 0 <= j < |t|
          ensures t[j].Rate().AtMost(s[0].Rate())
        {
          assert t[j] in t;
          RateOrder(q.Rate(), s[0].Rate(), q.Rate());
        }
        PrependDescends(s[0], t);
      }
    }
  }

  lemma {:induction false} SortByRateSorted(s: seq<Quote>)
    requires AllPositive(s)
    ensures AllPositive(SortByRate(s)) && Descending(SortByRate(s))
  {
    if s != [] {
      SortByRateSorted(s[..|s| - 1]);
      InsertByRateSorted(SortByRate(s[..|s| - 1]), s[|s| - 1]);
    }
  }

  /** Insertion adds exactly `q`. */
  lemma InsertByRateMembers(s: seq<Quote>, q: Quote)
    ensures forall x :: x in InsertByRate(s, q) <==> x in s || x == q
  {
    forall x
      ensures x in InsertByRate(s, q) <==> x in s || x == q
    {
      assert x in InsertByRate(s, q) <==> x in multiset(InsertByRate(s, q));
    }
  }

  lemma {:induction false} InsertByRateDistinct(s: seq<Quote>, q: Quote)
    requires DistinctDexes(s) && forall x :: x in s ==> x.dex != q.dex
    ensures DistinctDexes(InsertByRate(s, q))
  {
    if s != [] && !s[0].Rate().Less(q.Rate()) {
      InsertByRateDistinct(s[1..], q);
      InsertByRateMembers(s[1..], q);
      var t := InsertByRate(s[1..], q);
      forall j | 0 <= j < |t|
        ensures t[j].dex != s[0].dex
      {
        assert t[j] in t;
        assert t[j] == q || t[j] in s[1..];
      }
    }
  }

  lemma DistinctInit(init: seq<Quote>, last: Quote)
    requires DistinctDexes(init + [last])
    ensures DistinctDexes(init) && forall x :: x in init ==> x.dex != last.dex
  {
    var s := init + [last];
    assert s[|init|] == last && forall i :: 0 <= i < |init| ==> s[i] == init[i];
    forall x | x in init
      ensures x.dex != last.dex
    {
      var i :| 0 <= i < |init| && init[i] == x;
      assert s[i].dex != s[|init|].dex;
    }
  }

  /** Sorting keeps the members, and keeps DEXes distinct. */
  lemma {:induction false} SortByRateKeeps(s: seq<Quote>)
    ensures forall x :: x in SortByRate(s) <==> x in s
    ensures DistinctDexes(s) ==> DistinctDexes(SortByRate(s))
    ensures |SortByRate(s)| == |s|
  {
    if s != [] {
      var init, last := s[..|s| - 1], s[|s| - 1];
      assert s == init + [last];
      SortByRateKeeps(init);
      InsertByRateMembers(SortByRate(init), last);
      assert |multiset(SortByRate(s))| == |multiset(s)|;
      hide DistinctDexes;
      hide InsertByRate;
      if DistinctDexes(s) {
        DistinctInit(init, last);
        InsertByRateDistinct(SortByRate(init), last);
      }
    }
  }

  // ---------------------------------------------------------------------------
  // The router state
  // ---------------------------------------------------------------------------

  /** Pushing the quote of a new entry onto the list of its pair. */
  lemma ListsPush(list: seq<Quote>, store: Store, p: Pair, done: set<(DexId, Pair)>, dex: DexId)
    requires StoreOk(store) && Lists(list, store, p, done) && Stored(store, dex, p) && (dex, p) !in done
    ensures Lists(list + [store[dex][p]], store, p, done + {(dex, p)})
  {
    var q := store[dex][p];
    var list' := list + [q];
    forall i | 0 <= i < |list|
      ensures list[i].dex != dex
    {
      assert list[i] in list;
    }
    forall x
      ensures x in list' <==> (x.dex, p) in done + {(dex, p)} && Stored(store, x.dex, p) && store[x.dex][p] == x
    {
      assert x in list' <==> x in list || x == q;
    }
  }

  lemma ListsOther(list: seq<Quote>, store: Store, p: Pair, done: set<(DexId, Pair)>, dex: DexId, p': Pair)
    requires Lists(list, store, p, done) && p != p'
    ensures Lists(list, store, p, done + {(dex, p')})
  {
    forall x: Quote
      ensures (x.dex, p) in done <==> (x.dex, p) in done + {(dex, p')}
    {}
  }

  /** `byPair` groups by pair exactly the entries in `done`. */
  ghost predicate Grouped(byPair: QuotesByPair, store: Store, done: set<(DexId, Pair)>)
  {
    && (forall p :: p in byPair ==> byPair[p] != [])
    && forall p: Pair :: Lists(QuotesAt(byPair, p), store, p, done)
  }

  lemma GroupOne(byPair: QuotesByPair, store: Store, done: set<(DexId, Pair)>, dex: DexId, p: Pair)
    requires StoreOk(store) && Stored(store, dex, p) && (dex, p) !in done
    requires Grouped(byPair, store, done)
    ensures Grouped(byPair[p := QuotesAt(byPair, p) + [store[dex][p]]], store, done + {(dex, p)})
  {
    hide Lists;
    hide StoreOk;
    var byPair', done' := byPair[p := QuotesAt(byPair, p) + [store[dex][p]]], done + {(dex, p)};
    forall q: Pair
      ensures Lists(QuotesAt(byPair', q), store, q, done')
    {
      if q == p {
        ListsPush(QuotesAt(byPair, p), store, p, done, dex);
      } else {
        ListsOther(QuotesAt(byPair, q), store, q, done, dex, p);
      }
    }
  }

  lemma EmptyDescends()
    ensures Descending([])
  {}

  lemma EntriesDone(store: Store, done: set<(DexId, Pair)>)
    requires forall d: DexId, p: Pair :: (d, p) in done <==> Stored(store, d, p)
    ensures done == Entries(store)
  {
    forall x: (DexId, Pair)
      ensures x in done <==> x in Entries(store)
    {
      assert x == (x.0, x.1);
    }
  }

  lemma ListsSorted(list: seq<Quote>, store: Store, p: Pair, done: set<(DexId, Pair)>)
    requires StoreOk(store) && Lists(list, store, p, done)
    ensures Lists(SortByRate(list), store, p, done) && Descending(SortByRate(list)) && |SortByRate(list)| == |list|
  {
    SortByRateKeeps(list);
    forall i | 0 <= i < |list|
      ensures list[i].Rate().Positive()
    {
      assert list[i] in list;
      assert Stored(store, list[i].dex, p);
    }
    SortByRateSorted(list);
  }

  /** One note to be delivered to one DEX; its quote is consumed by the delivery. */
  datatype RoutedNote = RoutedNote(dex: DexId, noteId: OrderId, fill: Amount, pair: Pair)

  function Consume(store: Store, dex: DexId, p: Pair): Store
  {
    if dex in store then store[dex := store[dex] - {p}] else store
  }

  /** Both stores hold the same quotes. */
  ghost predicate SameQuotes(s: Store, t: Store)
  {
    forall d: DexId, p: Pair :: Stored(s, d, p) == Stored(t, d, p) && (Stored(s, d, p) ==> s[d][p] == t[d][p])
  }

  lemma AgreesSame(m: QuotesByPair, s: Store, t: Store)
    requires Agrees(m, s) && SameQuotes(s, t)
    ensures Agrees(m, t)
  {
    assert Entries(s) == Entries(t) by {
      forall d: DexId, p: Pair
        ensures (d, p) in Entries(s) <==> (d, p) in Entries(t)
      {
        assert Stored(s, d, p) == Stored(t, d, p);
      }
    }
    forall p: Pair
      ensures Lists(QuotesAt(m, p), t, p, Entries(t))
    {
      assert Lists(QuotesAt(m, p), s, p, Entries(s));
      forall q: Quote
        ensures (Stored(s, q.dex, p) && s[q.dex][p] == q) <==> (Stored(t, q.dex, p) && t[q.dex][p] == q)
      {}
    }
  }

  /** The quotes consumed by the first `k` items. */
  ghost predicate UsedBy(items: seq<RoutedNote>, k: nat, d: DexId, p: Pair)
  {
    exists j :: 0 <= j < k <= |items| && items[j].dex == d && items[j].pair == p
  }

  /** `store` is `old` without the quotes consumed by the first `k` items. */
  ghost predicate Consumed(items: seq<RoutedNote>, k: nat, old': Store, store: Store)
  {
    forall d: DexId, p: Pair ::
      && (Stored(store, d, p) <==> Stored(old', d, p) && !UsedBy(items, k, d, p))
      && (Stored(store, d, p) && Stored(old', d, p) ==> store[d][p] == old'[d][p])
  }

  lemma ConsumeOne(items: seq<RoutedNote>, k: nat, old': Store, store: Store)
    requires k < |items| && Consumed(items, k, old', store)
    ensures Consumed(items, k + 1, old', Consume(store, items[k].dex, items[k].pair))
    ensures !Stored(store, items[k].dex, items[k].pair) ==> SameQuotes(store, Consume(store, items[k].dex, items[k].pair))
  {
    var store' := Consume(store, items[k].dex, items[k].pair);
    forall d: DexId, p: Pair
      ensures Stored(store', d, p) <==> Stored(old', d, p) && !UsedBy(items, k + 1, d, p)
      ensures Stored(store', d, p) && Stored(old', d, p) ==> store'[d][p] == old'[d][p]
    {
      assert Stored(store, d, p) <==> Stored(old', d, p) && !UsedBy(items, k, d, p);
      if UsedBy(items, k + 1, d, p) {
        var j :| 0 <= j < k + 1 <= |items| && items[j].dex == d && items[j].pair == p;
        assert j < k ==> UsedBy(items, k, d, p);
      }
      if UsedBy(items, k, d, p) {
        var j :| 0 <= j < k <= |items| && items[j].dex == d && items[j].pair == p;
        assert UsedBy(items, k + 1, d, p);
      }
      if (d, p) == (items[k].dex, items[k].pair) {
        assert UsedBy(items, k + 1, d, p);
      }
    }
  }

  lemma NothingConsumed(items: seq<RoutedNote>, store: Store)
    ensures Consumed(items, 0, store, store) && SameQuotes(store, store)
  {}

  lemma SameQuotesTransitive(s: Store, t: Store, u: Store)
    ensures SameQuotes(s, t) && SameQuotes(t, u) ==> SameQuotes(s, u)
  {
    if SameQuotes(s, t) && SameQuotes(t, u) {
      forall d: DexId, p: Pair
        ensures Stored(s, d, p) == Stored(u, d, p) && (Stored(s, d, p) ==> s[d][p] == u[d][p])
      {
        assert Stored(s, d, p) == Stored(t, d, p);
      }
    }
  }

  lemma ConsumedOk(items: seq<RoutedNote>, k: nat, old': Store, store: Store)
    requires StoreOk(old') && Consumed(items, k, old', store)
    ensures StoreOk(store)
  {
    forall d: DexId, p: Pair | Stored(store, d, p)
      ensures var q := store[d][p]; q.dex == d && q.pair == p && q.Rate().Positive()
    {
      assert Stored(old', d, p);
    }
  }

  class RouterState {
    var quotes: Store
    var published: QuotesByPair
    const quoteTtl: Amount

    ghost predicate Valid()
      reads this
    {
      StoreOk(quotes) && Agrees(published, quotes)
    }

    constructor (quoteTtl: Amount)
      ensures Valid() && quotes == map[] && published == map[]
    {
      quotes, published := map[], map[];
      this.quoteTtl := quoteTtl;
    }

    /** What the matcher may rely on in a published snapshot. */
    lemma PublishedOk()
      requires Valid()
      ensures QuotesOk(published)
    {
      hide DistinctDexes;
      hide Descending;
      forall p | p in published
        ensures Descending(published[p]) && DistinctDexes(published[p])
      {
        assert QuotesAt(published, p) == published[p];
      }
    }

    /** Rebuild the snapshot: group the stored quotes by pair, then sort each group. */
    method Republish()
      requires StoreOk(quotes)
      modifies this`published
      ensures Valid()
    {
      hide StoreOk;
      hide Lists;
      hide Descending;
      hide Entries;
      hide SortByRate;
      var byPair := Group();
      var todo := byPair.Keys;
      var sorted: QuotesByPair := map[];
      while todo != {}
        invariant todo <= byPair.Keys && sorted.Keys == byPair.Keys - todo
        invariant forall p :: p in sorted ==> sorted[p] != []
        invariant forall p :: p in sorted ==> Lists(sorted[p], quotes, p, Entries(quotes)) && Descending(sorted[p])
        decreases |todo|
      {
        var p :| p in todo;
        ListsSorted(QuotesAt(byPair, p), quotes, p, Entries(quotes));
        sorted := sorted[p := SortByRate(byPair[p])];
        todo := todo - {p};
      }
      forall p: Pair
        ensures Lists(QuotesAt(sorted, p), quotes, p, Entries(quotes)) && Descending(QuotesAt(sorted, p))
      {
        assert Lists(QuotesAt(byPair, p), quotes, p, Entries(quotes));
        EmptyDescends();
      }
      published := sorted;
    }

    /** The stored quotes grouped by pair, DEXes and pairs visited in arbitrary order. */
    method Group() returns (byPair: QuotesByPair)
      requires StoreOk(quotes)
      ensures Grouped(byPair, quotes, Entries(quotes))
    {
      byPair := map[];
      ghost var done: set<(DexId, Pair)> := {};
      var dexes := quotes.Keys;
      while dexes != {}
        invariant dexes <= quotes.Keys
        invariant forall dex: DexId, p: Pair :: (dex, p) in done <==> Stored(quotes, dex, p) && dex !in dexes
        invariant Grouped(byPair, quotes, done)
        decreases |dexes|
      {
        hide Grouped;
        hide StoreOk;
        var dex :| dex in dexes;
        var pairs := quotes[dex].Keys;
        while pairs != {}
          invariant pairs <= quotes[dex].Keys
          invariant forall d: DexId, p: Pair :: (d, p) in done <==> Stored(quotes, d, p) && (d !in dexes || (d == dex && p !in pairs))
          invariant Grouped(byPair, quotes, done)
          decreases |pairs|
        {
          var p :| p in pairs;
          GroupOne(byPair, quotes, done, dex, p);
          byPair := byPair[p := QuotesAt(byPair, p) + [quotes[dex][p]]];
          done := done + {(dex, p)};
          pairs := pairs - {p};
        }
        dexes := dexes - {dex};
      }
      EntriesDone(quotes, done);
    }

    /** Store a quote, flipped to note orientation; zero amounts are refused and change nothing. */
    method RegisterQuote(dex: DexId, offeredToken: TokenId, supply: Amount, requestedToken: TokenId, demand: Amount,
                         validForMs: Option<Amount>, now: Amount) returns (accepted: bool)
      requires Valid()
      modifies this`quotes, this`published
      ensures Valid()
      ensures accepted <==> supply != 0 && demand != 0
      ensures !accepted ==> quotes == old(quotes) && published == old(published)
      // A note takes the other side: it offers what the DEX wants and wants what the DEX offers.
      ensures accepted ==>
        && Stored(quotes, dex, (requestedToken, offeredToken))
        && quotes[dex][(requestedToken, offeredToken)] in QuotesAt(published, (requestedToken, offeredToken))
      ensures accepted ==>
        var q := quotes[dex][(requestedToken, offeredToken)];
        && q.dex == dex && q.pair == (requestedToken, offeredToken) && q.supply == supply && q.demand == demand
        && now <= q.expiresAt <= now + quoteTtl && (validForMs.Some? ==> q.expiresAt <= now + validForMs.value)
        && (q.expiresAt == now + quoteTtl || (validForMs.Some? && q.expiresAt == now + validForMs.value) || q.expiresAt == MAX_U64)
      ensures forall d: DexId, p: Pair :: (d, p) != (dex, (requestedToken, offeredToken)) ==>
        && Stored(quotes, d, p) == Stored(old(quotes), d, p) && (Stored(quotes, d, p) ==> quotes[d][p] == old(quotes)[d][p])
    {
      if supply == 0 || demand == 0 {
        return false;
      }
      var p := (requestedToken, offeredToken);
      var ttl := if validForMs.Some? then Min(validForMs.value, quoteTtl) else quoteTtl;
      var q := Quote(dex, p, supply, demand, SaturatingAdd(now, ttl));
      var perPair: map<Pair, Quote> := if dex in quotes then quotes[dex] else map[];
      quotes := quotes[dex := perPair[p := q]];
      Republish();
      assert Lists(QuotesAt(published, p), quotes, p, Entries(quotes));
      assert Stored(quotes, dex, p);
      return true;
    }

    /** Consume every quote a delivered batch used, so that none is handed out again until the DEX re-quotes. */
    method Deliver(items: seq<RoutedNote>)
      requires Valid()
      modifies this`quotes, this`published
      ensures Valid()
      ensures Consumed(items, |items|, old(quotes), quotes)
    {
      hide StoreOk;
      hide Agrees;
      hide Consumed;
      hide SameQuotes;
      ghost var before := quotes;
      var consumed := false;
      assert Consumed(items, 0, before, quotes) && SameQuotes(before, quotes) by { NothingConsumed(items, quotes); }
      for k := 0 to |items|
        invariant Consumed(items, k, before, quotes)
        invariant published == old(published) && (!consumed ==> SameQuotes(before, quotes))
      {
        ConsumeOne(items, k, before, quotes);
        SameQuotesTransitive(before, quotes, Consume(quotes, items[k].dex, items[k].pair));
        consumed := consumed || Stored(quotes, items[k].dex, items[k].pair);
        quotes := Consume(quotes, items[k].dex, items[k].pair);
      }
      ConsumedOk(items, |items|, before, quotes);
      if consumed {
        Republish();
      } else {
        AgreesSame(published, before, quotes);
      }
    }

    /** Forget a disconnected DEX. */
    method Deregister(dex: DexId)
      requires Valid()
      modifies this`quotes, this`published
      ensures Valid() && quotes == old(quotes) - {dex}
      ensures forall p, q :: q in QuotesAt(published, p) ==> q.dex != dex
    {
      quotes := quotes - {dex};
      Republish();
      forall p: Pair, q | q in QuotesAt(published, p)
        ensures q.dex != dex
      {
        assert Lists(QuotesAt(published, p), quotes, p, Entries(quotes));
      }
    }
  }
}
