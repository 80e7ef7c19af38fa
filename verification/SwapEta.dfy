/** Settlement-time statistics and the fill predicate behind the swap-eta endpoint. */
module SwapEta {
  import opened Types
  import opened RateIndex
  import opened B = Book
  import opened OrderBook
  import opened Parking
  import opened Ledger

  const WINDOW_SECS: Amount := 86400
  const MAX_SAMPLES: nat := 1000

  datatype Sample = Sample(at: Amount, duration: Amount)

  function Cutoff(now: Amount): Amount { SaturatingSub(now, WINDOW_SECS) }

  // ---------------------------------------------------------------------------
  // The median, against a definition by rank
  // ---------------------------------------------------------------------------

  ghost function CountBelow(v: seq<Amount>, x: Amount): nat
  {
    if v == [] then 0 else (if v[0] < x then 1 else 0) + CountBelow(v[1..], x)
  }

  ghost function CountAtMost(v: seq<Amount>, x: Amount): nat
  {
    if v == [] then 0 else (if v[0] <= x then 1 else 0) + CountAtMost(v[1..], x)
  }

  /** `x` is the k-th smallest value of `v`, counting from 0 and with multiplicity. */
  ghost predicate IsRank(v: seq<Amount>, k: nat, x: Amount) { x in v && CountBelow(v, x) <= k < CountAtMost(v, x) }

  ghost predicate Sorted(v: seq<Amount>) { forall i, j :: 0 <= i < j < |v| ==> v[i] <= v[j] }

  ghost predicate SameCounts(v: seq<Amount>, w: seq<Amount>)
  {
    && |v| == |w|
    && forall x :: CountBelow(v, x) == CountBelow(w, x) && CountAtMost(v, x) == CountAtMost(w, x) && (x in v <==> x in w)
  }

  function Insert(v: seq<Amount>, y: Amount): seq<Amount>
  {
    if v == [] || y <= v[0] then [y] + v else [v[0]] + Insert(v[1..], y)
  }

  lemma {:induction false} InsertMembers(v: seq<Amount>, y: Amount, z: Amount)
    requires z in Insert(v, y)
    ensures z == y || z in v
  {
    if v != [] && v[0] < y && z != v[0] {
      InsertMembers(v[1..], y, z);
    }
  }

  lemma {:induction false} InsertSorted(v: seq<Amount>, y: Amount)
    requires Sorted(v)
    ensures Sorted(Insert(v, y))
  {
    if v != [] && v[0] < y {
      InsertSorted(v[1..], y);
      var rest := Insert(v[1..], y);
      forall i | 0 <= i < |rest|
        ensures v[0] <= rest[i]
      {
        InsertMembers(v[1..], y, rest[i]);
        if rest[i] in v[1..] {
          var j :| 0 <= j < |v[1..]| && v[1..][j] == rest[i];
          assert v[j + 1] == rest[i];
        }
      }
    }
  }

  lemma {:induction false} InsertOk(v: seq<Amount>, y: Amount)
    ensures SameCounts(Insert(v, y), [y] + v)
  {
    if v != [] && v[0] < y {
      var x, tail := v[0], v[1..];
      assert v == [x] + tail;
      InsertOk(tail, y);
      ConsCounts(Insert(tail, y), tail, x, y);
      hide SameCounts;
    }
  }

  /** Counts do not depend on which of two values comes first. */
  lemma ConsCounts(rest: seq<Amount>, tail: seq<Amount>, x: Amount, y: Amount)
    requires SameCounts(rest, [y] + tail)
    ensures SameCounts([x] + rest, [y] + ([x] + tail))
  {
    var v := [x] + tail;
    assert ([x] + rest)[1..] == rest && ([y] + v)[1..] == v && v[1..] == tail && ([y] + tail)[1..] == tail;
    forall z
      ensures CountBelow([x] + rest, z) == CountBelow([y] + v, z) && CountAtMost([x] + rest, z) == CountAtMost([y] + v, z)
      ensures z in [x] + rest <==> z in [y] + v
    {
      assert CountBelow(rest, z) == CountBelow([y] + tail, z) && CountAtMost(rest, z) == CountAtMost([y] + tail, z);
      assert z in rest <==> z in [y] + tail;
    }
  }

  function SortDurations(v: seq<Amount>): seq<Amount>
  {
    if v == [] then [] else Insert(SortDurations(v[1..]), v[0])
  }

  lemma {:induction false} SortOk(v: seq<Amount>)
    ensures Sorted(SortDurations(v)) && SameCounts(SortDurations(v), v)
  {
    if v != [] {
      SortOk(v[1..]);
      var rest := SortDurations(v[1..]);
      InsertOk(rest, v[0]);
      InsertSorted(rest, v[0]);
      assert ([v[0]] + rest)[1..] == rest;
    }
  }

  /** Middle value, or the floored mean of the two middle values. */
  function MedianOf(v: seq<Amount>): Option<Amount>
  {
    if v == [] then None
    else
      var s, n := SortDurations(v), |v|;
      assert |s| == n by { SortOk(v); }
      Some(if n % 2 == 1 then s[n / 2] else Mean(s[n / 2 - 1], s[n / 2]))
  }

  /** The floored mean, summed wide enough not to overflow. */
  function Mean(lo: Amount, hi: Amount): (r: Amount)
    ensures lo <= hi ==> lo <= r <= hi
    ensures 2 * r <= lo + hi <= 2 * r + 1
  {
    var sum: int := lo as int + hi as int;
    sum / 2
  }

  /**
   * `lo` and `hi` are the middle values of `v`: the same one for odd length, the two around the middle for even length.
   */
  ghost predicate Middles(v: seq<Amount>, lo: Amount, hi: Amount)
  {
    v != [] && IsRank(v, (|v| - 1) / 2, lo) && IsRank(v, |v| / 2, hi)
  }

  /** `r` is the floored mean of the middle values, and nothing if there are no values. */
  ghost predicate IsMedian(r: Option<Amount>, v: seq<Amount>)
  {
    && (r.None? <==> v == [])
    && forall lo: Amount, hi: Amount :: Middles(v, lo, hi) ==> r.Some? && r.value == (lo + hi) / 2
  }

  lemma SortedMiddles(v: seq<Amount>) returns (lo: Amount, hi: Amount)
    requires v != []
    ensures Middles(v, lo, hi) && MedianOf(v) == Some(Mean(lo, hi))
  {
    hide CountBelow;
    hide CountAtMost;
    SortOk(v);
    var s, n := SortDurations(v), |v|;
    SortedRank(s, (n - 1) / 2);
    SortedRank(s, n / 2);
    lo, hi := s[(n - 1) / 2], s[n / 2];
  }

  /** The median is the floored mean of the middle values, whatever order the values come in. */
  lemma MedianIsMiddle(v: seq<Amount>)
    ensures IsMedian(MedianOf(v), v)
    ensures v != [] ==> exists lo, hi :: Middles(v, lo, hi)
  {
    hide IsRank;
    if v != [] {
      var lo', hi' := SortedMiddles(v);
      hide MedianOf;
      forall lo, hi | Middles(v, lo, hi)
        ensures MedianOf(v) == Some(Mean(lo, hi))
      {
        RankUnique(v, (|v| - 1) / 2, lo, lo');
        RankUnique(v, |v| / 2, hi, hi');
      }
    }
  }

  lemma {:induction false} CountSplit(v: seq<Amount>, k: nat, x: Amount)
    requires k <= |v|
    ensures CountBelow(v, x) == CountBelow(v[..k], x) + CountBelow(v[k..], x)
    ensures CountAtMost(v, x) == CountAtMost(v[..k], x) + CountAtMost(v[k..], x)
  {
    if k > 0 {
      CountSplit(v[1..], k - 1, x);
      assert v[..k][1..] == v[1..][..k - 1] && v[k..] == v[1..][k - 1..];
    }
  }

  lemma {:induction false} CountBounds(v: seq<Amount>, x: Amount)
    ensures CountBelow(v, x) <= CountAtMost(v, x) <= |v|
    ensures (forall i :: 0 <= i < |v| ==> x <= v[i]) ==> CountBelow(v, x) == 0
    ensures (forall i :: 0 <= i < |v| ==> v[i] <= x) ==> CountAtMost(v, x) == |v|
  {
    if v != [] {
      CountBounds(v[1..], x);
    }
  }

  /** In a sorted sequence the value at k has rank k. */
  lemma SortedRank(s: seq<Amount>, k: nat)
    requires Sorted(s) && k < |s|
    ensures IsRank(s, k, s[k])
  {
    CountSplit(s, k, s[k]);
    CountBounds(s[..k], s[k]);
    CountBounds(s[k..], s[k]);
    CountSplit(s, k + 1, s[k]);
    CountBounds(s[..k + 1], s[k]);
  }

  /** Ranks are unique, so they name one value. */
  lemma RankUnique(v: seq<Amount>, k: nat, x: Amount, y: Amount)
    requires IsRank(v, k, x) && IsRank(v, k, y)
    ensures x == y
  {
    if x < y { CountStep(v, x, y); }
    if y < x { CountStep(v, y, x); }
  }

  lemma {:induction false} CountStep(v: seq<Amount>, x: Amount, y: Amount)
    requires x < y
    ensures CountAtMost(v, x) <= CountBelow(v, y)
  {
    if v != [] {
      CountStep(v[1..], x, y);
    }
  }

  // ---------------------------------------------------------------------------
  // The rolling window
  // ---------------------------------------------------------------------------

  function Fresh(h: seq<Sample>, cutoff: Amount): seq<Sample>
  {
    if h == [] then []
    else Fresh(h[..|h| - 1], cutoff) + if h[|h| - 1].at >= cutoff then [h[|h| - 1]] else []
  }

  ghost function Latest(h: seq<Sample>, n: nat): seq<Sample> { if |h| <= n then h else h[|h| - n..] }

  function Durations(h: seq<Sample>): (r: seq<Amount>)
    ensures |r| == |h| && forall i :: 0 <= i < |h| ==> r[i] == h[i].duration
  {
    seq(|h|, i requires 0 <= i < |h| => h[i].duration)
  }

  /** The durations of the samples taken no longer than a day before `now`, in order. */
  ghost function Recent(h: seq<Sample>, now: Amount): seq<Amount>
  {
    if h == [] then []
    else
      var before, last := Recent(h[..|h| - 1], now), h[|h| - 1];
      if now <= last.at + 86400 then before + [last.duration] else before
  }

  lemma {:induction false} FreshIsRecent(h: seq<Sample>, now: Amount)
    ensures Durations(Fresh(h, Cutoff(now))) == Recent(h, now)
  {
    if h != [] {
      FreshIsRecent(h[..|h| - 1], now);
    }
  }

  /**
   * `q` is a tail of the history `h` of at most 1000 samples; what it dropped is stale at `now` or pushed out by 1000
   * later samples.
   */
  ghost predicate Retains(q: seq<Sample>, h: seq<Sample>, now: Amount)
  {
    && |q| <= 1000 && |q| <= |h| && q == h[|h| - |q|..]
    && forall i :: 0 <= i < |h| - |q| ==> h[i].at + 86400 < now || i + 1000 < |h|
  }

  ghost predicate AllStale(h: seq<Sample>, cutoff: Amount) { forall i :: 0 <= i < |h| ==> h[i].at < cutoff }

  ghost predicate AllFresh(h: seq<Sample>, cutoff: Amount) { forall i :: 0 <= i < |h| ==> h[i].at >= cutoff }

  lemma {:induction false} FreshDrop(h: seq<Sample>, k: nat, cutoff: Amount)
    requires k <= |h| && forall i :: 0 <= i < k ==> h[i].at < cutoff
    ensures Fresh(h, cutoff) == Fresh(h[k..], cutoff)
  {
    if k == |h| {
      NoneFresh(h, cutoff);
    } else {
      FreshDrop(h[..|h| - 1], k, cutoff);
      assert h[k..][..|h| - k - 1] == h[..|h| - 1][k..];
    }
  }

  lemma {:induction false} NoneFresh(h: seq<Sample>, cutoff: Amount)
    requires AllStale(h, cutoff)
    ensures Fresh(h, cutoff) == []
  {
    if h != [] {
      NoneFresh(h[..|h| - 1], cutoff);
    }
  }

  /** Reading a retained queue is reading the last 1000 samples of the whole history. */
  lemma RetainedIsEnough(q: seq<Sample>, h: seq<Sample>, seen: Amount, now: Amount)
    requires Retains(q, h, seen) && seen <= now
    ensures Fresh(q, Cutoff(now)) == Fresh(Latest(h, MAX_SAMPLES), Cutoff(now))
  {
    var l := Latest(h, MAX_SAMPLES);
    var k := |l| - |q|;
    assert l[k..] == q;
    FreshDrop(l, k, Cutoff(now));
  }

  lemma {:induction false} FreshLength(h: seq<Sample>, cutoff: Amount)
    ensures |Fresh(h, cutoff)| <= |h|
    ensures |Fresh(h, cutoff)| == |h| <==> AllFresh(h, cutoff)
    ensures |Fresh(h, cutoff)| == 0 <==> AllStale(h, cutoff)
  {
    if h != [] {
      var init := h[..|h| - 1];
      FreshLength(init, cutoff);
      assert forall i :: 0 <= i < |init| ==> init[i] == h[i];
    }
  }

  lemma {:induction false} FreshConcat(a: seq<Sample>, b: seq<Sample>, cutoff: Amount)
    ensures Fresh(a + b, cutoff) == Fresh(a, cutoff) + Fresh(b, cutoff)
  {
    if b == [] {
      assert a + b == a;
    } else {
      assert (a + b)[..|a + b| - 1] == a + b[..|b| - 1];
      FreshConcat(a, b[..|b| - 1], cutoff);
    }
  }

  /**
   * The last 1000 samples filtered by age are the last 1000 samples of the window exactly when no fresh sample lies further
   * back, or none of the last 1000 is stale.
   */
  lemma WindowExact(h: seq<Sample>, cutoff: Amount)
    ensures Fresh(Latest(h, MAX_SAMPLES), cutoff) == Latest(Fresh(h, cutoff), MAX_SAMPLES) <==>
      (AllStale(h[..|h| - |Latest(h, MAX_SAMPLES)|], cutoff) || AllFresh(Latest(h, MAX_SAMPLES), cutoff))
  {
    var late := Latest(h, MAX_SAMPLES);
    var early := h[..|h| - |late|];
    assert h == early + late;
    FreshConcat(early, late, cutoff);
    FreshLength(early, cutoff);
    FreshLength(late, cutoff);
    hide Fresh;
    var f, g := Fresh(h, cutoff), Fresh(late, cutoff);
    if |f| > MAX_SAMPLES {
      assert Latest(f, MAX_SAMPLES) == f[|f| - MAX_SAMPLES..];
      assert |g| == MAX_SAMPLES ==> g == f[|f| - MAX_SAMPLES..];
    }
  }

  /** With times in order the two always agree. */
  lemma OrderedWindowExact(h: seq<Sample>, cutoff: Amount)
    requires forall i, j :: 0 <= i < j < |h| ==> h[i].at <= h[j].at
    ensures Fresh(Latest(h, MAX_SAMPLES), cutoff) == Latest(Fresh(h, cutoff), MAX_SAMPLES)
  {
    WindowExact(h, cutoff);
  }

  lemma EmptyRetains(now: Amount)
    ensures Retains([], [], now)
  {}

  /** Append a sample, drop stale samples from the front, then whatever exceeds the cap. */
  method Push(q: seq<Sample>, ghost h: seq<Sample>, ghost seen: Amount, now: Amount, duration: Amount)
    returns (q': seq<Sample>, ghost h': seq<Sample>)
    requires Retains(q, h, seen)
    ensures h' == h + [Sample(now, duration)] && Retains(q', h', if seen < now then now else seen)
    ensures q' != [] && (|q'| < 1000 ==> now <= q'[0].at + 86400)
  {
    ghost var later := if seen < now then now else seen;
    q', h' := q + [Sample(now, duration)], h + [Sample(now, duration)];
    AppendTail(q, h, seen, later, Sample(now, duration));
    hide Tail;
    hide Retains;
    var cutoff := Cutoff(now);
    while q' != [] && q'[0].at < cutoff
      invariant Tail(q', h', later) && q' != [] && q'[|q'| - 1] == Sample(now, duration)
      decreases |q'|
    {
      PopTail(q', h', later);
      q' := q'[1..];
    }
    while |q'| > MAX_SAMPLES
      invariant Tail(q', h', later) && q' != [] && (|q'| < MAX_SAMPLES ==> q'[0].at >= cutoff)
      decreases |q'|
    {
      PopTail(q', h', later);
      q' := q'[1..];
    }
    CappedTail(q', h', later);
  }

  lemma AppendTail(q: seq<Sample>, h: seq<Sample>, seen: Amount, later: Amount, s: Sample)
    requires Retains(q, h, seen) && seen <= later
    ensures Tail(q + [s], h + [s], later)
  {}

  /** A sample may leave the front once it is stale or too many are kept. */
  lemma PopTail(q: seq<Sample>, h: seq<Sample>, now: Amount)
    requires Tail(q, h, now) && q != [] && (q[0].at < Cutoff(now) || |q| > MAX_SAMPLES)
    ensures Tail(q[1..], h, now)
  {
    assert h[|h| - |q|] == q[0];
  }

  lemma CappedTail(q: seq<Sample>, h: seq<Sample>, now: Amount)
    requires Tail(q, h, now) && |q| <= MAX_SAMPLES
    ensures Retains(q, h, now)
  {}

  class SettlementStats {
    var byPair: map<Pair, seq<Sample>>
    /** Every sample ever recorded, and the latest time seen. */
    ghost var history: map<Pair, seq<Sample>>
    ghost var latest: Amount

    ghost predicate Valid()
      reads this
    {
      && byPair.Keys == history.Keys
      && forall p :: p in byPair ==> Retains(byPair[p], history[p], latest)
    }

    constructor ()
      ensures Valid() && history == map[] && latest == 0
    {
      byPair, history, latest := map[], map[], 0;
    }

    /** Record one settlement, prune what has left the window, and cap the queue. */
    method Record(pair: Pair, now: Amount, duration: Amount)
      requires Valid()
      modifies this
      ensures Valid() && latest == if old(latest) < now then now else old(latest)
      ensures pair in byPair && byPair[pair] != [] && (|byPair[pair]| < 1000 ==> now <= byPair[pair][0].at + 86400)
      ensures history == old(history)[pair := (if pair in old(history) then old(history)[pair] else []) + [Sample(now, duration)]]
    {
      hide Retains;
      var q := if pair in byPair then byPair[pair] else [];
      ghost var h := if pair in history then history[pair] else [];
      ghost var later := if latest < now then now else latest;
      EmptyRetains(latest);
      q, h := Push(q, h, latest, now, duration);
      forall p | p in byPair && p != pair
        ensures Retains(byPair[p], history[p], later)
      {
        RetainsLater(byPair[p], history[p], latest, later);
      }
      byPair := byPair[pair := q];
      history, latest := history[pair := h], later;
    }

    /** The median of the samples of the last day among the last 1000 ever recorded for the pair. */
    method MedianSecs(pair: Pair, now: Amount) returns (r: Option<Amount>)
      requires Valid()
      ensures latest <= now ==> IsMedian(r, Recent(Latest(if pair in history then history[pair] else [], 1000), now))
    {
      if pair !in byPair {
        MedianIsMiddle([]);
        return None;
      }
      if latest <= now {
        RetainedIsEnough(byPair[pair], history[pair], latest, now);
        FreshIsRecent(Latest(history[pair], 1000), now);
        MedianIsMiddle(Recent(Latest(history[pair], 1000), now));
      }
      return MedianOf(Durations(Fresh(byPair[pair], Cutoff(now))));
    }
  }

  /** As `Retains`, but possibly over the cap. */
  ghost predicate Tail(q: seq<Sample>, h: seq<Sample>, now: Amount)
  {
    && |q| <= |h| && q == h[|h| - |q|..]
    && forall i :: 0 <= i < |h| - |q| ==> h[i].at + 86400 < now || i + 1000 < |h|
  }

  lemma RetainsLater(q: seq<Sample>, h: seq<Sample>, seen: Amount, now: Amount)
    requires seen <= now
    ensures Retains(q, h, seen) ==> Retains(q, h, now)
  {}

  // ---------------------------------------------------------------------------
  // Can an order fill?
  // ---------------------------------------------------------------------------

  predicate EvalCanFill(offered: Amount, requested: Amount, best: Option<BestLevel>)
  {
    best.Some? && offered * best.value.rate.offered > requested * best.value.rate.requested && best.value.volume >= requested
  }

  /** If an order crosses any opposing order, it crosses the best one. */
  lemma BestCrossesFirst(orders: Orders, s: seq<OrderId>, p: Pair, o: Order, x: OrderId)
    requires Covers(orders, s) && o.Valid() && x in s && orders[x].Pair() == p && o.IsProfitableWith(orders[x])
    ensures BestIn(orders, s, p).Some? && o.IsProfitableWith(orders[BestIn(orders, s, p).value])
  {
    hide BestIn;
    var i := BestInWins(orders, s, p);
    BestBeats(orders, s, p, i, x);
    RateOrder(orders[s[i]].Rate(), orders[x].Rate(), RateKey(o.offered, o.requested));
  }

  /** What the orders at the best rate of a pair jointly offer. */
  ghost function BestVolume(b: Book, p: Pair): nat
    requires WellFormed(b)
  {
    if Best(b, p).None? then 0 else OfferedSum(b.orders, Select(b.orders, b.fifo, p, b.orders[Best(b, p).value].Rate()))
  }

  ghost predicate CrossesSome(b: Book, p: Pair, o: Order)
    requires WellFormed(b)
  {
    exists x :: x in b.fifo && b.orders[x].Pair() == p && o.IsProfitableWith(b.orders[x])
  }

  /**
   * The published top of book answers for the whole book: an order can fill if and only if it crosses some opposing order
   * and the orders at the best rate jointly offer what it requests. At a tick boundary, where all orders are whole, such
   * an order then trades with the best one.
   */
  lemma SnapshotAgrees(b: Book, p: Pair, t: Tree, o: Order)
    requires WellFormed(b) && TreeOk(b.orders, b.fifo, p, t) && o.Valid() && o.IsWhole()
    ensures EvalCanFill(o.offered, o.requested, TopLevel(b.orders, t)) <==> CrossesSome(b, p, o) && o.requested <= BestVolume(b, p)
    ensures EvalCanFill(o.offered, o.requested, TopLevel(b.orders, t)) && AllWhole(b.orders) ==>
      Best(b, p).Some? && MatchWith(o, b.orders[Best(b, p).value]).result.Some?
  {
    TopLevelIsBest(b, p, t);
    if Best(b, p).Some? {
      LevelAgrees(b, p, TopLevel(b.orders, t).value, o);
    }
    hide TopLevel;
    hide TreeOk;
    if CrossesSome(b, p, o) {
      CrossesBest(b, p, o);
    }
    hide WellFormed;
    hide CrossesSome;
  }

  lemma CrossesBest(b: Book, p: Pair, o: Order)
    requires WellFormed(b) && o.Valid() && CrossesSome(b, p, o)
    ensures Best(b, p).Some? && o.IsProfitableWith(b.orders[Best(b, p).value])
  {
    var x :| x in b.fifo && b.orders[x].Pair() == p && o.IsProfitableWith(b.orders[x]);
    BestCrossesFirst(b.orders, b.fifo, p, o, x);
  }

  /** The level's own key gives the same answers as the best order's rate. */
  lemma LevelAgrees(b: Book, p: Pair, level: BestLevel, o: Order)
    requires WellFormed(b) && Best(b, p).Some? && level.rate.Positive() && level.rate.Same(b.orders[Best(b, p).value].Rate())
    requires level.volume == Min(OfferedSum(b.orders, Select(b.orders, b.fifo, p, level.rate)), MAX_U64)
    requires o.Valid() && o.IsWhole()
    ensures EvalCanFill(o.offered, o.requested, Some(level)) <==>
      o.IsProfitableWith(b.orders[Best(b, p).value]) && o.requested <= BestVolume(b, p)
    ensures o.IsProfitableWith(b.orders[Best(b, p).value]) ==> CrossesSome(b, p, o)
    ensures o.IsProfitableWith(b.orders[Best(b, p).value]) && AllWhole(b.orders) ==> MatchWith(o, b.orders[Best(b, p).value]).result.Some?
  {
    var best := b.orders[Best(b, p).value];
    BestFacts(b, p);
    SelectSame(b.orders, b.fifo, p, level.rate, best.Rate());
    CrossRespectsRate(o.offered, o.requested, level.rate, best.Rate());
    hide WellFormed;
    hide Select;
    hide Best;
    hide OfferedSum;
    hide MatchWith;
    if AllWhole(b.orders) {
      WholeOrdersTrade(o, best);
    }
  }

  /** A level is the same under any representation of its rate. */
  lemma {:induction false} SelectSame(orders: Orders, s: seq<OrderId>, p: Pair, k: RateKey, m: RateKey)
    requires Covers(orders, s) && k.Positive() && m.Positive() && k.Same(m)
    ensures Select(orders, s, p, k) == Select(orders, s, p, m)
  {
    if s != [] {
      var last := orders[s[|s| - 1]];
      SelectSame(orders, s[..|s| - 1], p, k, m);
      RateOrder(last.Rate(), k, m);
      RateOrder(last.Rate(), m, k);
    }
  }

  lemma BestFacts(b: Book, p: Pair)
    requires WellFormed(b)
    ensures Best(b, p).Some? ==> b.orders[Best(b, p).value].Valid()
  {}
}
