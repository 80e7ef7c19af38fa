/** Sums of an integer measure over the orders of a book. */
module Sums {
  import opened Types

  ghost function SumOver(m: map<OrderId, Order>, f: Order -> int): int
  {
    if m == map[] then 0
    else
      var k :| k in m;
      f(m[k]) + SumOver(m - {k}, f)
  }

  /** Any key may be summed first. */
  lemma {:induction false} SumSplit(m: map<OrderId, Order>, k: OrderId, f: Order -> int)
    requires k in m
    ensures SumOver(m, f) == f(m[k]) + SumOver(m - {k}, f)
    decreases |m|
  {
    var j :| j in m && SumOver(m, f) == f(m[j]) + SumOver(m - {j}, f);
    if j != k {
      SumSplit(m - {j}, k, f);
      SumSplit(m - {k}, j, f);
      assert (m - {j}) - {k} == (m - {k}) - {j};
    }
  }

  lemma SumUpdate(m: map<OrderId, Order>, k: OrderId, v: Order, f: Order -> int)
    ensures SumOver(m[k := v], f) == SumOver(m, f) + f(v) - (if k in m then f(m[k]) else 0)
  {
    SumSplit(m[k := v], k, f);
    assert m[k := v] - {k} == m - {k};
    if k in m {
      SumSplit(m, k, f);
    } else {
      assert m - {k} == m;
    }
  }

  lemma {:induction false} SumMonotone(m: map<OrderId, Order>, f: Order -> int, g: Order -> int)
    requires forall k :: k in m ==> f(m[k]) <= g(m[k])
    ensures SumOver(m, f) <= SumOver(m, g)
    decreases |m|
  {
    if m != map[] {
      var k :| k in m;
      SumSplit(m, k, f);
      SumSplit(m, k, g);
      SumMonotone(m - {k}, f, g);
    }
  }

  /** A measure that vanishes on every order sums to zero. */
  lemma {:induction false} SumZero(m: map<OrderId, Order>, f: Order -> int)
    requires forall k :: k in m ==> f(m[k]) == 0
    ensures SumOver(m, f) == 0
    decreases |m|
  {
    if m != map[] {
      var k :| k in m;
      SumSplit(m, k, f);
      SumZero(m - {k}, f);
    }
  }

  lemma SumNonNegative(m: map<OrderId, Order>, f: Order -> int)
    requires forall k :: k in m ==> 0 <= f(m[k])
    ensures 0 <= SumOver(m, f)
  {
    SumMonotone(m, (o: Order) => 0, f);
    SumZero(m, (o: Order) => 0);
  }

  ghost function Restrict(m: map<OrderId, Order>, keep: set<OrderId>): map<OrderId, Order>
  {
    map k | k in m && k in keep :: m[k]
  }

  /** Orders outside `keep` that contribute nothing can be dropped. */
  lemma {:induction false} SumRestrict(m: map<OrderId, Order>, keep: set<OrderId>, f: Order -> int)
    requires forall k :: k in m && k !in keep ==> f(m[k]) == 0
    ensures SumOver(m, f) == SumOver(Restrict(m, keep), f)
    decreases |m|
  {
    if k :| k in m && k !in keep {
      SumSplit(m, k, f);
      SumRestrict(m - {k}, keep, f);
      assert Restrict(m - {k}, keep) == Restrict(m, keep);
    } else {
      assert Restrict(m, keep) == m;
    }
  }

  /** Two maps that agree under the measure have the same sum. */
  lemma {:induction false} SumSame(m: map<OrderId, Order>, m': map<OrderId, Order>, f: Order -> int)
    requires m.Keys == m'.Keys && forall k :: k in m ==> f(m[k]) == f(m'[k])
    ensures SumOver(m, f) == SumOver(m', f)
    decreases |m|
  {
    if m == map[] {
      assert m'.Keys == {};
      assert m' == map[];
    } else {
      var k :| k in m;
      SumSplit(m, k, f);
      SumSplit(m', k, f);
      hide SumOver;
      SumSame(m - {k}, m' - {k}, f);
    }
  }
}
