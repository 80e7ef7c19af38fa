/**
 * The rate index: price-time priority over an arrival-ordered list of ids, and the trees, counters and adjacency sets
 * that represent it.
 */
module RateIndex {
  import opened Types

  type Orders = map<OrderId, Order>

  // ---------------------------------------------------------------------------
  // Arrival-ordered lists
  // ---------------------------------------------------------------------------

  ghost predicate NoDup(s: seq<OrderId>)
  {
    forall i, j :: 0 <= i < j < |s| ==> s[i] != s[j]
  }

  /** `s` with every occurrence of `x` dropped. */
  function Without(s: seq<OrderId>, x: OrderId): (r: seq<OrderId>)
    ensures forall y :: y in r <==> y in s && y != x
    ensures |r| <= |s|
  {
    if s == [] then []
    else
      var init, last := s[..|s| - 1], s[|s| - 1];
      assert s == init + [last];
      if last == x then Without(init, x) else Without(init, x) + [last]
  }

  /** `s` with its first occurrence of `x` dropped: `position` followed by `remove`. */
  function RemoveFirst(s: seq<OrderId>, x: OrderId): seq<OrderId>
  {
    if s == [] then [] else if s[0] == x then s[1..] else [s[0]] + RemoveFirst(s[1..], x)
  }

  lemma {:induction false} WithoutAbsent(s: seq<OrderId>, x: OrderId)
    requires x !in s
    ensures Without(s, x) == s
  {
    if s != [] {
      WithoutAbsent(s[..|s| - 1], x);
      assert s == s[..|s| - 1] + [s[|s| - 1]];
    }
  }

  lemma {:induction false} WithoutConcat(s: seq<OrderId>, t: seq<OrderId>, x: OrderId)
    ensures Without(s + t, x) == Without(s, x) + Without(t, x)
  {
    if t == [] {
      assert s + t == s;
    } else {
      WithoutConcat(s, t[..|t| - 1], x);
      assert (s + t)[..|s + t| - 1] == s + t[..|t| - 1];
    }
  }

  lemma {:induction false} RemoveFirstNoDup(s: seq<OrderId>, x: OrderId)
    requires NoDup(s)
    ensures RemoveFirst(s, x) == Without(s, x)
  {
    if s != [] {
      WithoutConcat([s[0]], s[1..], x);
      assert s == [s[0]] + s[1..];
      if s[0] == x {
        WithoutAbsent(s[1..], x);
        assert Without([s[0]], x) == [];
      } else {
        RemoveFirstNoDup(s[1..], x);
        assert Without([s[0]], x) == [s[0]];
      }
    }
  }

  lemma {:induction false} WithoutNoDup(s: seq<OrderId>, x: OrderId)
    requires NoDup(s)
    ensures NoDup(Without(s, x))
  {
    if s != [] {
      var init, last := s[..|s| - 1], s[|s| - 1];
      WithoutNoDup(init, x);
      assert last !in init;
    }
  }

  lemma {:induction false} WithoutCommutes(s: seq<OrderId>, x: OrderId, y: OrderId)
    ensures Without(Without(s, x), y) == Without(Without(s, y), x)
  {
    if s != [] {
      var init, last := s[..|s| - 1], s[|s| - 1];
      WithoutCommutes(init, x, y);
      WithoutConcat(Without(init, x), [last], y);
      WithoutConcat(Without(init, y), [last], x);
    }
  }

  // ---------------------------------------------------------------------------
  // Best order of a pair
  // ---------------------------------------------------------------------------

  ghost predicate Covers(orders: Orders, s: seq<OrderId>)
  {
    forall id :: id in s ==> id in orders && orders[id].Valid()
  }

  /** Both books know the ids of `s` under the same pair and amounts; fills may differ. */
  ghost predicate SameTerms(orders: Orders, orders': Orders, s: seq<OrderId>)
  {
    && Covers(orders, s) && Covers(orders', s)
    && forall id :: id in s ==> orders[id].Pair() == orders'[id].Pair() && orders[id].Rate() == orders'[id].Rate()
  }

  /** The oldest id among those of pair `p` with the lowest rate. */
  ghost function BestIn(orders: Orders, s: seq<OrderId>, p: Pair): (r: Option<OrderId>)
    requires Covers(orders, s)
    ensures r.Some? ==> r.value in s && orders[r.value].Pair() == p
  {
    if s == [] then None
    else
      var init, last := s[..|s| - 1], s[|s| - 1];
      assert s == init + [last];
      var r := BestIn(orders, init, p);
      if orders[last].Pair() == p && (r.None? || orders[last].Rate().Less(orders[r.value].Rate())) then Some(last) else r
  }

  /**
   * Position `i` holds the price-time winner: strictly cheaper than anything older, at most as dear as anything newer.
   */
  ghost predicate IsBestAt(orders: Orders, s: seq<OrderId>, p: Pair, i: nat)
    requires Covers(orders, s)
  {
    && i < |s| && orders[s[i]].Pair() == p
    && (forall j :: 0 <= j < i && orders[s[j]].Pair() == p ==> orders[s[i]].Rate().Less(orders[s[j]].Rate()))
    && (forall j :: i <= j < |s| && orders[s[j]].Pair() == p ==> orders[s[i]].Rate().AtMost(orders[s[j]].Rate()))
  }

  /** A newcomer that beats the best beats everything. */
  lemma LastBeats(orders: Orders, s: seq<OrderId>, p: Pair, i: nat, last: OrderId)
    requires Covers(orders, s + [last]) && IsBestAt(orders, s, p, i)
    requires orders[last].Pair() == p && orders[last].Rate().Less(orders[s[i]].Rate())
    ensures IsBestAt(orders, s + [last], p, |s|)
  {
    forall j | 0 <= j < |s| && orders[s[j]].Pair() == p
      ensures orders[last].Rate().Less(orders[s[j]].Rate())
    {
      RateOrder(orders[last].Rate(), orders[s[i]].Rate(), orders[s[j]].Rate());
    }
  }

  lemma {:induction false} BestInWins(orders: Orders, s: seq<OrderId>, p: Pair) returns (i: nat)
    requires Covers(orders, s)
    ensures BestIn(orders, s, p).None? ==> forall id :: id in s ==> orders[id].Pair() != p
    ensures BestIn(orders, s, p).Some? ==> IsBestAt(orders, s, p, i) && BestIn(orders, s, p) == Some(s[i])
  {
    if s == [] {
      return 0;
    }
    var init, last := s[..|s| - 1], s[|s| - 1];
    assert s == init + [last];
    i := BestInWins(orders, init, p);
    var r := BestIn(orders, init, p);
    if orders[last].Pair() == p {
      if r.None? {
        return |s| - 1;
      }
      if orders[last].Rate().Less(orders[r.value].Rate()) {
        LastBeats(orders, init, p, i, last);
        return |s| - 1;
      }
    }
  }

  lemma {:induction false} BestSameTerms(orders: Orders, orders': Orders, s: seq<OrderId>, p: Pair)
    requires SameTerms(orders, orders', s)
    ensures BestIn(orders, s, p) == BestIn(orders', s, p)
  {
    if s != [] {
      BestSameTerms(orders, orders', s[..|s| - 1], p);
    }
  }

  /** Dropping an id of another pair does not change the best order. */
  lemma {:induction false} BestIgnoresOthers(orders: Orders, s: seq<OrderId>, p: Pair, x: OrderId)
    requires Covers(orders, s)
    requires x in s ==> orders[x].Pair() != p
    ensures BestIn(orders, Without(s, x), p) == BestIn(orders, s, p)
  {
    if s != [] {
      BestIgnoresOthers(orders, s[..|s| - 1], p, x);
    }
  }

  /** The best order stays best while other ids leave. */
  lemma {:induction false} BestStays(orders: Orders, s: seq<OrderId>, p: Pair, x: OrderId)
    requires Covers(orders, s)
    requires BestIn(orders, s, p).Some? && BestIn(orders, s, p).value != x
    ensures BestIn(orders, Without(s, x), p) == BestIn(orders, s, p)
  {
    var init, last := s[..|s| - 1], s[|s| - 1];
    var r := BestIn(orders, init, p);
    if BestIn(orders, s, p) == r {
      BestStays(orders, init, p, x);
    } else if r.Some? {
      // `last` beats everything in `init`, in particular whatever is best once `x` has left
      var w := BestIn(orders, Without(init, x), p);
      if w.Some? {
        var i := BestInWins(orders, init, p);
        var k :| 0 <= k < |init| && init[k] == w.value;
        assert orders[r.value].Rate().AtMost(orders[init[k]].Rate());
        RateOrder(orders[last].Rate(), orders[r.value].Rate(), orders[w.value].Rate());
      }
    } else {
      var i := BestInWins(orders, init, p);
      assert BestIn(orders, Without(init, x), p).None?;
    }
  }

  // ---------------------------------------------------------------------------
  // Trees of rate levels
  // ---------------------------------------------------------------------------

  /** One `BTreeMap` entry: the key first stored for a rate, and the FIFO queue at that rate. */
  datatype Level = Level(key: RateKey, ids: seq<OrderId>)
  type Tree = seq<Level>

  ghost predicate Sorted(t: Tree)
  {
    && (forall i :: 0 <= i < |t| ==> t[i].key.Positive())
    && forall i, j :: 0 <= i < j < |t| ==> t[i].key.Less(t[j].key)
  }

  /** Index of the first level whose rate is not below `key`. */
  function Search(t: Tree, key: RateKey): (k: nat)
    ensures k <= |t|
    ensures forall i :: 0 <= i < k ==> t[i].key.Less(key)
    ensures k < |t| ==> !t[k].key.Less(key)
  {
    if t == [] || !t[0].key.Less(key) then 0 else 1 + Search(t[1..], key)
  }

  function InsertLevel(t: Tree, k: nat, level: Level): (r: Tree)
    requires k <= |t|
    ensures |r| == |t| + 1
    ensures forall i :: 0 <= i < k ==> r[i] == t[i]
    ensures r[k] == level
    ensures forall i :: k <= i < |t| ==> r[i + 1] == t[i]
    ensures forall i :: k < i < |r| ==> r[i] == t[i - 1]
  {
    t[..k] + [level] + t[k..]
  }

  /** `entry(key).or_default().push_back(id)`. */
  function TreeInsert(t: Tree, key: RateKey, id: OrderId): Tree
  {
    var k := Search(t, key);
    if k < |t| && t[k].key.Same(key)
      then t[k := Level(t[k].key, t[k].ids + [id])]
      else InsertLevel(t, k, Level(key, [id]))
  }

  /** Remove one id from the level of `key`, and the level once it is empty. */
  function TreeRemove(t: Tree, key: RateKey, id: OrderId): Tree
  {
    var k := Search(t, key);
    if k < |t| && t[k].key.Same(key) then
      var ids := RemoveFirst(t[k].ids, id);
      if ids == [] then t[..k] + t[k + 1..] else t[k := Level(t[k].key, ids)]
    else t
  }

  /** The ids of pair `p` at the rate of `key`, oldest first. */
  ghost function Select(orders: Orders, s: seq<OrderId>, p: Pair, key: RateKey): (r: seq<OrderId>)
    requires Covers(orders, s)
    ensures forall id :: id in r <==> id in s && orders[id].Pair() == p && orders[id].Rate().Same(key)
  {
    if s == [] then []
    else
      var init, last := s[..|s| - 1], s[|s| - 1];
      assert s == init + [last];
      var r := Select(orders, init, p, key);
      if orders[last].Pair() == p && orders[last].Rate().Same(key) then r + [last] else r
  }

  ghost predicate HasKey(t: Tree, key: RateKey)
  {
    exists i :: 0 <= i < |t| && t[i].key.Same(key)
  }

  /** Tree `t` holds exactly the ids of pair `p`, each at its rate, in arrival order. */
  ghost predicate TreeOk(orders: Orders, s: seq<OrderId>, p: Pair, t: Tree)
    requires Covers(orders, s)
  {
    && Sorted(t)
    && (forall i :: 0 <= i < |t| ==> t[i].ids == Select(orders, s, p, t[i].key) && t[i].ids != [])
    && forall id :: id in s && orders[id].Pair() == p ==> HasKey(t, orders[id].Rate())
  }

  lemma {:induction false} SelectNoDup(orders: Orders, s: seq<OrderId>, p: Pair, key: RateKey)
    requires Covers(orders, s) && NoDup(s)
    ensures NoDup(Select(orders, s, p, key))
  {
    if s != [] {
      SelectNoDup(orders, s[..|s| - 1], p, key);
    }
  }

  lemma {:induction false} SelectWithout(orders: Orders, s: seq<OrderId>, p: Pair, key: RateKey, x: OrderId)
    requires Covers(orders, s)
    ensures Select(orders, Without(s, x), p, key) == Without(Select(orders, s, p, key), x)
  {
    if s != [] {
      SelectWithout(orders, s[..|s| - 1], p, key, x);
    }
  }

  lemma {:induction false} SelectSameTerms(orders: Orders, orders': Orders, s: seq<OrderId>, p: Pair, key: RateKey)
    requires SameTerms(orders, orders', s)
    ensures Select(orders, s, p, key) == Select(orders', s, p, key)
  {
    if s != [] {
      SelectSameTerms(orders, orders', s[..|s| - 1], p, key);
    }
  }

  /** The search finds the level of a rate whenever one exists. */
  lemma SearchFinds(t: Tree, key: RateKey)
    requires Sorted(t) && key.Positive()
    ensures var k := Search(t, key);
      && (HasKey(t, key) <==> k < |t| && t[k].key.Same(key))
      && (forall j :: 0 <= j < |t| && j != k ==> !t[j].key.Same(key))
      && (!HasKey(t, key) ==> forall j :: k <= j < |t| ==> key.Less(t[j].key))
      && (forall j :: k < j < |t| ==> key.Less(t[j].key))
  {
    var k := Search(t, key);
    forall j | k < j < |t|
      ensures key.Less(t[j].key)
    {
      RateOrder(key, t[k].key, t[j].key);
    }
    if k < |t| {
      RateOrder(key, t[k].key, key);
    }
  }

  lemma TreeInsertOk(orders: Orders, s: seq<OrderId>, p: Pair, t: Tree, id: OrderId)
    requires Covers(orders, s + [id])
    requires TreeOk(orders, s, p, t)
    requires orders[id].Pair() == p
    ensures TreeOk(orders, s + [id], p, TreeInsert(t, orders[id].Rate(), id))
  {
    var key := orders[id].Rate();
    var k, s' := Search(t, key), s + [id];
    assert s'[..|s'| - 1] == s && s'[|s'| - 1] == id;
    SearchFinds(t, key);
    forall i | 0 <= i < |t|
      ensures Select(orders, s', p, t[i].key) == if i == k && HasKey(t, key) then t[i].ids + [id] else t[i].ids
    {
      RateOrder(key, t[i].key, key);
    }
    if HasKey(t, key) {
      forall x | x in s' && orders[x].Pair() == p
        ensures HasKey(t, orders[x].Rate())
      {
        assert x in s || x == id;
      }
      UpdateLevelOk(orders, s', p, t, k, t[k].ids + [id]);
    } else {
      NewLevelIsFresh(orders, s, p, t, key);
      RateOrder(key, key, key);
      assert Select(orders, s', p, key) == [id];
      AddLevelOk(orders, s', p, t, k, Level(key, [id]));
    }
  }

  lemma InsertLevelSorted(t: Tree, k: nat, level: Level)
    requires Sorted(t) && k <= |t| && level.key.Positive()
    requires forall i :: 0 <= i < k ==> t[i].key.Less(level.key)
    requires forall i :: k <= i < |t| ==> level.key.Less(t[i].key)
    ensures Sorted(InsertLevel(t, k, level))
  {
    var t' := InsertLevel(t, k, level);
    forall i, j | 0 <= i < j < |t'|
      ensures t'[i].key.Less(t'[j].key)
    {
      if j < k {
        assert t'[j] == t[j];
      } else if k < j {
        assert t'[j] == t[j - 1];
      }
    }
  }

  lemma InsertLevelKeys(t: Tree, k: nat, level: Level, key: RateKey)
    requires k <= |t| && (HasKey(t, key) || level.key.Same(key))
    ensures HasKey(InsertLevel(t, k, level), key)
  {
    var t' := InsertLevel(t, k, level);
    if level.key.Same(key) {
      assert t'[k].key.Same(key);
    } else {
      var i :| 0 <= i < |t| && t[i].key.Same(key);
      assert t'[if i < k then i else i + 1].key.Same(key);
    }
  }

  lemma AddLevelOk(orders: Orders, s: seq<OrderId>, p: Pair, t: Tree, k: nat, level: Level)
    requires Covers(orders, s) && Sorted(t) && k <= |t| && level.key.Positive()
    requires forall i :: 0 <= i < k ==> t[i].key.Less(level.key)
    requires forall i :: k <= i < |t| ==> level.key.Less(t[i].key)
    requires forall i :: 0 <= i < |t| ==> t[i].ids == Select(orders, s, p, t[i].key) && t[i].ids != []
    requires level.ids == Select(orders, s, p, level.key) && level.ids != []
    requires forall x :: x in s && orders[x].Pair() == p ==> HasKey(t, orders[x].Rate()) || level.key.Same(orders[x].Rate())
    ensures TreeOk(orders, s, p, InsertLevel(t, k, level))
  {
    InsertLevelSorted(t, k, level);
    forall x | x in s && orders[x].Pair() == p
      ensures HasKey(InsertLevel(t, k, level), orders[x].Rate())
    {
      InsertLevelKeys(t, k, level, orders[x].Rate());
    }
  }

  /** A rate without a level has no ids. */
  lemma NewLevelIsFresh(orders: Orders, s: seq<OrderId>, p: Pair, t: Tree, key: RateKey)
    requires Covers(orders, s) && TreeOk(orders, s, p, t)
    requires key.Positive() && !HasKey(t, key)
    ensures Select(orders, s, p, key) == []
  {
    var r := Select(orders, s, p, key);
    if r != [] {
      var x := r[0];
      assert x in r;
      var i :| 0 <= i < |t| && t[i].key.Same(orders[x].Rate());
      RateOrder(t[i].key, orders[x].Rate(), key);
      assert false;
    }
  }

  /** Inserting an id of another pair leaves a tree correct. */
  lemma TreeInsertOther(orders: Orders, s: seq<OrderId>, p: Pair, t: Tree, id: OrderId)
    requires Covers(orders, s + [id])
    requires TreeOk(orders, s, p, t)
    requires orders[id].Pair() != p
    ensures TreeOk(orders, s + [id], p, t)
  {
    var s' := s + [id];
    assert s'[..|s'| - 1] == s;
  }

  /** Removing an id from its list touches only the level of its rate. */
  lemma LevelWithout(orders: Orders, s: seq<OrderId>, p: Pair, t: Tree, id: OrderId, key: RateKey, i: nat)
    requires Covers(orders, s) && NoDup(s) && TreeOk(orders, s, p, t) && key.Positive() && i < |t|
    requires id in s && orders[id].Pair() == p ==> orders[id].Rate() == key
    ensures Select(orders, Without(s, id), p, t[i].key) == RemoveFirst(t[i].ids, id)
    ensures i != Search(t, key) || !t[i].key.Same(key) ==> RemoveFirst(t[i].ids, id) == t[i].ids
  {
    SelectWithout(orders, s, p, t[i].key, id);
    SelectNoDup(orders, s, p, t[i].key);
    RemoveFirstNoDup(t[i].ids, id);
    SearchFinds(t, key);
    if i != Search(t, key) || !t[i].key.Same(key) {
      RateOrder(key, t[i].key, key);
      WithoutAbsent(t[i].ids, id);
    }
  }

  lemma TreeRemoveOk(orders: Orders, s: seq<OrderId>, p: Pair, t: Tree, id: OrderId, key: RateKey)
    requires Covers(orders, s) && NoDup(s)
    requires TreeOk(orders, s, p, t)
    requires key.Positive()
    requires id in s && orders[id].Pair() == p ==> orders[id].Rate() == key
    ensures TreeOk(orders, Without(s, id), p, TreeRemove(t, key, id))
  {
    var k, s' := Search(t, key), Without(s, id);
    SearchFinds(t, key);
    forall i | 0 <= i < |t|
      ensures Select(orders, s', p, t[i].key) == RemoveFirst(t[i].ids, id)
      ensures i != k || !t[k].key.Same(key) ==> RemoveFirst(t[i].ids, id) == t[i].ids
    {
      LevelWithout(orders, s, p, t, id, key, i);
    }
    RemainsOk(orders, s, s', p, t, k, if k < |t| then RemoveFirst(t[k].ids, id) else []);
    hide TreeOk;
    hide TreeOkBut;
    hide Select;
    hide Without;
    hide RemoveFirst;
    hide NoDup;
    if k < |t| && t[k].key.Same(key) {
      if RemoveFirst(t[k].ids, id) == [] {
        RemoveLevelOk(orders, s', p, t, k);
      } else {
        UpdateLevelOk(orders, s', p, t, k, RemoveFirst(t[k].ids, id));
      }
    }
  }

  /** A tree that is right for `s` is right for fewer ids wherever its levels keep theirs. */
  lemma RemainsOk(orders: Orders, s: seq<OrderId>, s': seq<OrderId>, p: Pair, t: Tree, k: nat, ids: seq<OrderId>)
    requires Covers(orders, s) && Covers(orders, s') && TreeOk(orders, s, p, t) && forall id :: id in s' ==> id in s
    ensures (forall i :: 0 <= i < |t| ==> Select(orders, s', p, t[i].key) == t[i].ids) ==> TreeOk(orders, s', p, t)
    ensures k < |t| && Select(orders, s', p, t[k].key) == ids
      && (forall i :: 0 <= i < |t| && i != k ==> Select(orders, s', p, t[i].key) == t[i].ids)
      ==> TreeOkBut(orders, s', p, t, k, ids)
  {
    hide Select;
  }

  /** Every level but `k` is right for `s`, and `ids` is what level `k` must hold. */
  ghost predicate TreeOkBut(orders: Orders, s: seq<OrderId>, p: Pair, t: Tree, k: nat, ids: seq<OrderId>)
    requires Covers(orders, s)
  {
    && Sorted(t) && k < |t|
    && (forall i :: 0 <= i < |t| && i != k ==> t[i].ids == Select(orders, s, p, t[i].key) && t[i].ids != [])
    && ids == Select(orders, s, p, t[k].key)
    && forall id :: id in s && orders[id].Pair() == p ==> HasKey(t, orders[id].Rate())
  }

  lemma UpdateLevelOk(orders: Orders, s: seq<OrderId>, p: Pair, t: Tree, k: nat, ids: seq<OrderId>)
    requires Covers(orders, s) && TreeOkBut(orders, s, p, t, k, ids) && ids != []
    ensures TreeOk(orders, s, p, t[k := Level(t[k].key, ids)])
  {
    var t' := t[k := Level(t[k].key, ids)];
    forall x | x in s && orders[x].Pair() == p
      ensures HasKey(t', orders[x].Rate())
    {
      var i :| 0 <= i < |t| && t[i].key.Same(orders[x].Rate());
      assert t'[i].key.Same(orders[x].Rate());
    }
  }

  lemma RemoveLevelOk(orders: Orders, s: seq<OrderId>, p: Pair, t: Tree, k: nat)
    requires Covers(orders, s) && TreeOkBut(orders, s, p, t, k, [])
    ensures TreeOk(orders, s, p, t[..k] + t[k + 1..])
  {
    var t' := t[..k] + t[k + 1..];
    forall i | 0 <= i < |t'|
      ensures t'[i] == t[if i < k then i else i + 1]
    {}
    forall x | x in s && orders[x].Pair() == p
      ensures HasKey(t', orders[x].Rate())
    {
      assert x !in Select(orders, s, p, t[k].key);
      RateOrder(orders[x].Rate(), t[k].key, t[k].key);
      var i :| 0 <= i < |t| && t[i].key.Same(orders[x].Rate());
      assert t'[if i < k then i else i - 1].key.Same(orders[x].Rate());
    }
  }

  lemma TreeRemoveOther(orders: Orders, s: seq<OrderId>, p: Pair, t: Tree, id: OrderId)
    requires Covers(orders, s)
    requires TreeOk(orders, s, p, t)
    requires id in s ==> orders[id].Pair() != p
    ensures TreeOk(orders, Without(s, id), p, t)
  {
    forall i | 0 <= i < |t|
      ensures t[i].ids == Select(orders, Without(s, id), p, t[i].key)
    {
      SelectWithout(orders, s, p, t[i].key, id);
      WithoutAbsent(t[i].ids, id);
    }
  }

  // ---------------------------------------------------------------------------
  // The index of all pairs, its counters and its adjacency sets
  // ---------------------------------------------------------------------------

  type Trees = map<Pair, Tree>
  type Counts = map<Pair, nat>
  type Adjacency = map<TokenId, set<TokenId>>

  function TreeAt(trees: Trees, p: Pair): Tree { if p in trees then trees[p] else [] }

  function CountAt(counts: Counts, p: Pair): nat { if p in counts then counts[p] else 0 }

  function NeighborsAt(adj: Adjacency, a: TokenId): set<TokenId> { if a in adj then adj[a] else {} }

  /** Number of ids of pair `p`. */
  ghost function NumberOf(orders: Orders, s: seq<OrderId>, p: Pair): nat
    requires Covers(orders, s)
  {
    if s == [] then 0
    else
      var init, last := s[..|s| - 1], s[|s| - 1];
      assert s == init + [last];
      NumberOf(orders, init, p) + (if orders[last].Pair() == p then 1 else 0)
  }

  ghost predicate TreesOk(orders: Orders, s: seq<OrderId>, trees: Trees)
    requires Covers(orders, s)
  {
    && (forall p :: p in trees ==> trees[p] != [])
    && forall p: Pair :: TreeOk(orders, s, p, TreeAt(trees, p))
  }

  ghost predicate CountsOk(orders: Orders, s: seq<OrderId>, counts: Counts)
    requires Covers(orders, s)
  {
    forall p: Pair :: CountAt(counts, p) == NumberOf(orders, s, p)
  }

  /** Both adjacency maps list exactly the pairs of the index, and keep no empty set. */
  ghost predicate AdjacencyOk(trees: Trees, outgoing: Adjacency, incoming: Adjacency)
  {
    && (forall p: Pair :: p in trees <==> p.1 in NeighborsAt(outgoing, p.0))
    && (forall p: Pair :: p in trees <==> p.0 in NeighborsAt(incoming, p.1))
    && (forall a :: a in outgoing ==> outgoing[a] != {})
    && (forall a :: a in incoming ==> incoming[a] != {})
  }

  lemma {:induction false} NumberPositive(orders: Orders, s: seq<OrderId>, p: Pair)
    requires Covers(orders, s)
    ensures 0 < NumberOf(orders, s, p) <==> exists id :: id in s && orders[id].Pair() == p
    ensures NumberOf(orders, s, p) <= |s|
  {
    if s != [] {
      var init, last := s[..|s| - 1], s[|s| - 1];
      assert s == init + [last];
      NumberPositive(orders, init, p);
    }
  }

  lemma {:induction false} NumberWithout(orders: Orders, s: seq<OrderId>, p: Pair, x: OrderId)
    requires Covers(orders, s) && NoDup(s)
    ensures NumberOf(orders, Without(s, x), p)
         == NumberOf(orders, s, p) - (if x in s && orders[x].Pair() == p then 1 else 0)
  {
    if s != [] {
      var init, last := s[..|s| - 1], s[|s| - 1];
      assert s == init + [last];
      assert last !in init;
      NumberWithout(orders, init, p, x);
    }
  }

  lemma {:induction false} NumberSameTerms(orders: Orders, orders': Orders, s: seq<OrderId>, p: Pair)
    requires SameTerms(orders, orders', s)
    ensures NumberOf(orders, s, p) == NumberOf(orders', s, p)
  {
    if s != [] {
      NumberSameTerms(orders, orders', s[..|s| - 1], p);
    }
  }

  /** Nothing in the representation depends on how far the orders are filled. */
  lemma IndexSameTerms(orders: Orders, orders': Orders, s: seq<OrderId>, trees: Trees, counts: Counts)
    requires SameTerms(orders, orders', s)
    ensures TreesOk(orders, s, trees) ==> TreesOk(orders', s, trees)
    ensures CountsOk(orders, s, counts) ==> CountsOk(orders', s, counts)
  {
    forall p: Pair
      ensures TreeOk(orders, s, p, TreeAt(trees, p)) ==> TreeOk(orders', s, p, TreeAt(trees, p))
    {
      forall key
        ensures Select(orders, s, p, key) == Select(orders', s, p, key)
      {
        SelectSameTerms(orders, orders', s, p, key);
      }
    }
    forall p: Pair
      ensures NumberOf(orders, s, p) == NumberOf(orders', s, p)
    {
      NumberSameTerms(orders, orders', s, p);
    }
  }

  lemma TreesInsertOk(orders: Orders, s: seq<OrderId>, trees: Trees, id: OrderId)
    requires Covers(orders, s + [id]) && TreesOk(orders, s, trees)
    ensures var p := orders[id].Pair();
      TreesOk(orders, s + [id], trees[p := TreeInsert(TreeAt(trees, p), orders[id].Rate(), id)])
  {
    var p := orders[id].Pair();
    var trees' := trees[p := TreeInsert(TreeAt(trees, p), orders[id].Rate(), id)];
    forall q: Pair
      ensures TreeOk(orders, s + [id], q, TreeAt(trees', q))
    {
      if q == p {
        TreeInsertOk(orders, s, p, TreeAt(trees, p), id);
      } else {
        TreeInsertOther(orders, s, q, TreeAt(trees, q), id);
      }
    }
  }

  lemma CountsInsertOk(orders: Orders, s: seq<OrderId>, counts: Counts, id: OrderId)
    requires Covers(orders, s + [id]) && CountsOk(orders, s, counts)
    ensures var p := orders[id].Pair(); CountsOk(orders, s + [id], counts[p := CountAt(counts, p) + 1])
  {
    var s' := s + [id];
    assert s'[..|s'| - 1] == s;
    forall q: Pair
      ensures NumberOf(orders, s', q) == CountAt(counts, q) + (if orders[id].Pair() == q then 1 else 0)
    {
      assert CountAt(counts, q) == NumberOf(orders, s, q);
    }
  }

  /** The tree map once the tree of `p` has become `t`; an empty tree is dropped. */
  function PutTree(trees: Trees, p: Pair, t: Tree): Trees
  {
    if t == [] then trees - {p} else trees[p := t]
  }

  lemma TreesRemoveOk(orders: Orders, s: seq<OrderId>, trees: Trees, id: OrderId, p: Pair, key: RateKey)
    requires Covers(orders, s) && NoDup(s) && TreesOk(orders, s, trees) && key.Positive()
    requires id in s ==> orders[id].Pair() == p && orders[id].Rate() == key
    ensures TreesOk(orders, Without(s, id), PutTree(trees, p, TreeRemove(TreeAt(trees, p), key, id)))
  {
    var trees' := PutTree(trees, p, TreeRemove(TreeAt(trees, p), key, id));
    forall q: Pair
      ensures TreeOk(orders, Without(s, id), q, TreeAt(trees', q))
    {
      if q == p {
        TreeRemoveOk(orders, s, p, TreeAt(trees, p), id, key);
      } else {
        TreeRemoveOther(orders, s, q, TreeAt(trees, q), id);
      }
    }
  }

  /** A pair has a tree exactly when some matchable order belongs to it. */
  lemma TreePresent(orders: Orders, s: seq<OrderId>, trees: Trees, p: Pair)
    requires Covers(orders, s) && TreesOk(orders, s, trees)
    ensures p in trees <==> exists id :: id in s && orders[id].Pair() == p
  {
    var t := TreeAt(trees, p);
    if p in trees {
      var x := t[0].ids[0];
      assert x in Select(orders, s, p, t[0].key);
    }
    if id :| id in s && orders[id].Pair() == p {
      assert HasKey(t, orders[id].Rate());
    }
  }

  // ---------------------------------------------------------------------------
  // Adjacency updates
  // ---------------------------------------------------------------------------

  /** `entry(a).or_default().insert(b)`. */
  function Link(adj: Adjacency, a: TokenId, b: TokenId): Adjacency
  {
    adj[a := NeighborsAt(adj, a) + {b}]
  }

  /** Remove `b` from the set of `a`, and the set once it is empty. */
  function Unlink(adj: Adjacency, a: TokenId, b: TokenId): Adjacency
  {
    if a !in adj then adj
    else if adj[a] - {b} == {} then adj - {a}
    else adj[a := adj[a] - {b}]
  }

  lemma LinkOk(trees: Trees, outgoing: Adjacency, incoming: Adjacency, p: Pair, t: Tree)
    requires AdjacencyOk(trees, outgoing, incoming)
    ensures AdjacencyOk(trees[p := t], Link(outgoing, p.0, p.1), Link(incoming, p.1, p.0))
  {}

  lemma UnlinkOk(trees: Trees, outgoing: Adjacency, incoming: Adjacency, p: Pair)
    requires AdjacencyOk(trees, outgoing, incoming)
    ensures AdjacencyOk(trees - {p}, Unlink(outgoing, p.0, p.1), Unlink(incoming, p.1, p.0))
  {}

  lemma KeepLinksOk(trees: Trees, outgoing: Adjacency, incoming: Adjacency, p: Pair, t: Tree)
    requires AdjacencyOk(trees, outgoing, incoming) && p in trees
    ensures AdjacencyOk(trees[p := t], outgoing, incoming)
  {}

  /** Trees and adjacency represent the matchable list `s`. */
  ghost predicate LinksOk(orders: Orders, s: seq<OrderId>, trees: Trees, outgoing: Adjacency, incoming: Adjacency)
  {
    && Covers(orders, s) && NoDup(s)
    && TreesOk(orders, s, trees)
    && AdjacencyOk(trees, outgoing, incoming)
  }

  /** The whole representation of a matchable list. */
  ghost predicate IndexOk(orders: Orders, s: seq<OrderId>, trees: Trees, counts: Counts, outgoing: Adjacency,
      incoming: Adjacency)
  {
    LinksOk(orders, s, trees, outgoing, incoming) && CountsOk(orders, s, counts)
  }

  lemma IndexInsertOk(orders: Orders, s: seq<OrderId>, trees: Trees, counts: Counts, outgoing: Adjacency,
      incoming: Adjacency, id: OrderId)
    ensures IndexOk(orders, s, trees, counts, outgoing, incoming) && id in orders && orders[id].Valid() && id !in s ==>
      var p := orders[id].Pair();
      IndexOk(orders, s + [id],
              trees[p := TreeInsert(TreeAt(trees, p), orders[id].Rate(), id)],
              counts[p := CountAt(counts, p) + 1],
              Link(outgoing, p.0, p.1), Link(incoming, p.1, p.0))
  {
    if IndexOk(orders, s, trees, counts, outgoing, incoming) && id in orders && orders[id].Valid() && id !in s {
      var p := orders[id].Pair();
      TreesInsertOk(orders, s, trees, id);
      CountsInsertOk(orders, s, counts, id);
      LinkOk(trees, outgoing, incoming, p, TreeInsert(TreeAt(trees, p), orders[id].Rate(), id));
      hide TreesOk;
      hide CountsOk;
      hide AdjacencyOk;
      hide TreeInsert;
      hide Link;
    }
  }

  /** `get_mut(&p)` followed by a saturating decrement. */
  function Decrement(counts: Counts, p: Pair): Counts
  {
    if p in counts then counts[p := if counts[p] == 0 then 0 else counts[p] - 1] else counts
  }

  /**
   * Decrementing for an id keeps the counters right exactly when the id was counted, or there was nothing left to
   * count.
   */
  lemma DecrementOk(orders: Orders, s: seq<OrderId>, counts: Counts, id: OrderId, p: Pair)
    requires Covers(orders, s) && NoDup(s) && CountsOk(orders, s, counts)
    requires id in s ==> orders[id].Pair() == p
    ensures CountsOk(orders, Without(s, id), Decrement(counts, p)) <==> id in s || CountAt(counts, p) == 0
    ensures id !in s ==> CountsOk(orders, Without(s, id), counts)
  {
    if id !in s { WithoutAbsent(s, id); }
    NumberPositive(orders, s, p);
    assert CountAt(counts, p) == NumberOf(orders, s, p);
    forall q: Pair
      ensures NumberOf(orders, Without(s, id), q) == CountAt(counts, q) - (if id in s && q == p then 1 else 0)
    {
      NumberWithout(orders, s, q, id);
      assert CountAt(counts, q) == NumberOf(orders, s, q);
    }
    if !(id in s || CountAt(counts, p) == 0) {
      assert CountAt(Decrement(counts, p), p) != NumberOf(orders, Without(s, id), p);
    }
  }

  /** `p` and `key` are where the index keeps `id`, if it keeps it at all. */
  ghost predicate Located(orders: Orders, s: seq<OrderId>, id: OrderId, p: Pair, key: RateKey)
    requires Covers(orders, s)
  {
    key.Positive() && (id in s ==> orders[id].Pair() == p && orders[id].Rate() == key)
  }

  /** Two orders of a pair, the first filled and cleaned up twice: the counter says none although one is left. */
  lemma CleanedTwiceDrifts(orders: Orders, p: Pair, counts: Counts)
    requires p == (0, 1) && orders == map[1 := Order(1, 0, 1, 10, 10, 0), 2 := Order(2, 0, 1, 10, 10, 10)] && counts == map[p := 2]
    ensures Covers(orders, [1, 2]) && CountsOk(orders, [1, 2], counts)
    ensures Without([1, 2], 1) == [2] && CountsOk(orders, [2], Decrement(counts, p))
    ensures CountAt(Decrement(Decrement(counts, p), p), p) == 0 && NumberOf(orders, [2], p) == 1
    ensures !CountsOk(orders, [2], Decrement(Decrement(counts, p), p))
  {
    forall q: Pair
      ensures NumberOf(orders, [1, 2], q) == (if q == p then 2 else 0) && NumberOf(orders, [2], q) == (if q == p then 1 else 0)
    {
      OneOrder(orders, 1, q);
      OneOrder(orders, 2, q);
      assert [1, 2][..1] == [1];
    }
    hide NumberOf;
    assert Without([1, 2], 1) == [2] by {
      assert [1, 2][..1] == [1] && [1][..0] == [];
    }
    hide Without;
  }

  lemma OneOrder(orders: Orders, id: OrderId, q: Pair)
    requires Covers(orders, [id])
    ensures NumberOf(orders, [id], q) == if orders[id].Pair() == q then 1 else 0
  {
    assert [id][..0] == [];
  }

  /** Removing an id from its tree; an emptied pair also leaves both adjacency maps. */
  lemma LinksRemoveOk(orders: Orders, s: seq<OrderId>, trees: Trees, outgoing: Adjacency, incoming: Adjacency,
                      id: OrderId, p: Pair, key: RateKey)
    ensures LinksOk(orders, s, trees, outgoing, incoming) && Located(orders, s, id, p, key) ==>
      if p !in trees then Without(s, id) == s
      else
        var t := TreeRemove(trees[p], key, id);
        if t == [] then LinksOk(orders, Without(s, id), trees - {p}, Unlink(outgoing, p.0, p.1), Unlink(incoming, p.1, p.0))
        else LinksOk(orders, Without(s, id), trees[p := t], outgoing, incoming)
  {
    if LinksOk(orders, s, trees, outgoing, incoming) && Located(orders, s, id, p, key) {
      hide TreeOk;
      hide TreeRemove;
      hide Unlink;
      if p in trees {
        WithoutNoDup(s, id);
        TreesRemoveOk(orders, s, trees, id, p, key);
        hide TreesOk;
        UnlinkOk(trees, outgoing, incoming, p);
        KeepLinksOk(trees, outgoing, incoming, p, TreeRemove(trees[p], key, id));
        hide AdjacencyOk;
      } else {
        TreePresent(orders, s, trees, p);
        WithoutAbsent(s, id);
      }
    }
  }

  lemma IndexJoin(orders: Orders, s: seq<OrderId>, trees: Trees, counts: Counts, outgoing: Adjacency,
      incoming: Adjacency)
    ensures LinksOk(orders, s, trees, outgoing, incoming) && CountsOk(orders, s, counts)
      <==> IndexOk(orders, s, trees, counts, outgoing, incoming)
  {}

  /** The representation carries over to any orders with the same terms. */
  lemma IndexCarriesOver(orders: Orders, orders': Orders, s: seq<OrderId>, trees: Trees, counts: Counts,
      outgoing: Adjacency, incoming: Adjacency)
    ensures SameTerms(orders, orders', s) && LinksOk(orders, s, trees, outgoing, incoming) && CountsOk(orders, s, counts)
      ==> IndexOk(orders', s, trees, counts, outgoing, incoming)
  {
    if SameTerms(orders, orders', s) {
      IndexSameTerms(orders, orders', s, trees, counts);
    }
  }
}
