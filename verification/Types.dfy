/** Amounts, release arithmetic, rate keys and single orders. */
module Types {

  const TWO_64: int := 0x1_0000_0000_0000_0000
  const TWO_128: int := 0x1_0000_0000_0000_0000_0000_0000_0000_0000
  const MAX_U64: int := 0xFFFF_FFFF_FFFF_FFFF

  /** An unsigned 64-bit token amount. */
  type Amount = x: int | 0 <= x < 0x1_0000_0000_0000_0000

  type TokenId = nat
  type OrderId = nat
  type DexId = nat

  /** A directed pair: (offered token, requested token). */
  type Pair = (TokenId, TokenId)

  datatype Option<+T> = None | Some(value: T)

  function Min(x: int, y: int): int { if x <= y then x else y }

  function SaturatingSub(x: Amount, y: Amount): Amount { if x <= y then 0 else x - y }

  function SaturatingAdd(x: Amount, y: Amount): Amount { if x + y <= MAX_U64 then x + y else MAX_U64 }

  // ---------------------------------------------------------------------------
  // Floor division
  // ---------------------------------------------------------------------------

  /** The defining property of floor division, as a Galois connection. */
  lemma FloorGalois(n: int, d: int, k: int)
    requires 0 < d
    ensures k <= n / d <==> k * d <= n
  {
    var q := n / d;
    assert q * d <= n < q * d + d by {
      assert n == d * q + n % d;
    }
    if k <= q {
      assert k * d <= q * d;
    } else {
      assert (q + 1) * d <= k * d;
    }
  }

  lemma ProductMonotone(x: nat, y: nat, x': nat, y': nat)
    requires x <= x' && y <= y'
    ensures 0 <= x * y <= x' * y'
  {
    assert x * y <= x' * y;
    assert x' * y <= x' * y';
  }

  /** A product of two amounts is below 2^128, so the u128 intermediates never overflow. */
  lemma ProductFits(x: Amount, y: Amount)
    ensures 0 <= x * y < TWO_128
  {
    ProductMonotone(x, y, MAX_U64, MAX_U64);
  }

  /** Offered asset released for a fill, with the source's narrowing cast written out. */
  function CalculateOutput(offeredTotal: Amount, requestedTotal: Amount, fillAmount: Amount): (r: Amount)
    requires 0 < requestedTotal
  {
    (offeredTotal * fillAmount / requestedTotal) % TWO_64
  }

  /** The narrowing cast is lossless for every fill up to the requested total, and full fill releases everything. */
  lemma OutputLossless(offered: Amount, requested: Amount, fill: Amount)
    requires 0 < requested && fill <= requested
    ensures CalculateOutput(offered, requested, fill) == offered * fill / requested
    ensures CalculateOutput(offered, requested, fill) <= offered
    ensures CalculateOutput(offered, requested, 0) == 0
    ensures CalculateOutput(offered, requested, requested) == offered
  {
    assert offered * 0 / requested == 0;
    FloorGalois(offered * fill, requested, 0);
    FloorGalois(offered * fill, requested, offered + 1);
    ProductMonotone(offered, fill, offered, requested);
    assert (offered + 1) * requested == offered * requested + requested;
    FloorGalois(offered * requested, requested, offered);
    FloorGalois(offered * requested, requested, offered + 1);
  }

  lemma FloorSuperadditive(x: int, y: int, d: int)
    requires 0 < d
    ensures x / d + y / d <= (x + y) / d
  {
    FloorGalois(x, d, x / d);
    FloorGalois(y, d, y / d);
    assert (x / d + y / d) * d == (x / d) * d + (y / d) * d;
    FloorGalois(x + y, d, x / d + y / d);
  }

  /** Two separate fills never release more than one combined fill. */
  lemma OutputSuperadditive(offered: Amount, requested: Amount, f: Amount, g: Amount)
    requires 0 < requested && f + g <= requested
    ensures CalculateOutput(offered, requested, f) + CalculateOutput(offered, requested, g)
         <= CalculateOutput(offered, requested, f + g)
  {
    OutputLossless(offered, requested, f);
    OutputLossless(offered, requested, g);
    OutputLossless(offered, requested, f + g);
    hide CalculateOutput;
    FloorSuperadditive(offered * f, offered * g, requested);
    assert offered * (f + g) == offered * f + offered * g;
  }

  // ---------------------------------------------------------------------------
  // Rate keys
  // ---------------------------------------------------------------------------

  /** Rate = requested / offered; a lower rate is a more generous order. */
  datatype RateKey = RateKey(requested: Amount, offered: Amount)
  {
    predicate Positive() { 0 < requested && 0 < offered }

    /** `cmp` is `Less`, decided by exact cross-multiplication. */
    predicate Less(other: RateKey) { requested * other.offered < other.requested * offered }

    /** `eq`, which identifies different representations of one rate. */
    predicate Same(other: RateKey) { requested * other.offered == other.requested * offered }

    predicate AtMost(other: RateKey) { requested * other.offered <= other.requested * offered }
  }

  lemma MulLe(x: int, y: int, z: nat)
    requires x <= y
    ensures x * z <= y * z
    ensures x < y && 0 < z ==> x * z < y * z
  {}

  lemma MulCancel(x: int, y: int, z: nat)
    requires 0 < z
    ensures x * z <= y * z ==> x <= y
    ensures x * z < y * z ==> x < y
  {
    if y < x { MulLe(y, x, z); }
    if y <= x { MulLe(y, x, z); }
  }

  lemma MulSwap(x: int, y: int, z: int)
    ensures (x * y) * z == (x * z) * y
  {}

  lemma MulAssoc(x: int, y: int, z: int)
    ensures (x * y) * z == x * (y * z)
  {}

  lemma CrossTransitive(r1: nat, o1: nat, r2: nat, o2: nat, r3: nat, o3: nat)
    requires 0 < o1 && 0 < o2 && 0 < o3
    requires r1 * o2 <= r2 * o1 && r2 * o3 <= r3 * o2
    ensures r1 * o3 <= r3 * o1
    ensures r1 * o2 < r2 * o1 || r2 * o3 < r3 * o2 ==> r1 * o3 < r3 * o1
  {
    MulSwap(r1, o3, o2);
    MulLe(r1 * o2, r2 * o1, o3);
    MulSwap(r2, o1, o3);
    MulLe(r2 * o3, r3 * o2, o1);
    MulSwap(r3, o2, o1);
    MulCancel(r1 * o3, r3 * o1, o2);
  }

  /** On positive amounts the cross-multiplied comparison is a total preorder, and every product fits u128. */
  lemma RateOrder(a: RateKey, b: RateKey, c: RateKey)
    requires a.Positive() && b.Positive() && c.Positive()
    ensures a.Same(a) && (a.Same(b) <==> b.Same(a))
    ensures a.Less(b) || a.Same(b) || b.Less(a)
    ensures !(a.Less(b) && (a.Same(b) || b.Less(a)))
    ensures a.AtMost(b) <==> !b.Less(a)
    ensures a.AtMost(b) && b.AtMost(c) ==> a.AtMost(c)
    ensures (a.Less(b) && b.AtMost(c)) || (a.AtMost(b) && b.Less(c)) ==> a.Less(c)
    ensures a.Same(b) && b.Same(c) ==> a.Same(c)
    ensures a.requested * b.offered < TWO_128 && b.requested * a.offered < TWO_128
  {
    ProductFits(a.requested, b.offered);
    ProductFits(b.requested, a.offered);
    if a.AtMost(b) && b.AtMost(c) {
      CrossTransitive(a.requested, a.offered, b.requested, b.offered, c.requested, c.offered);
    }
    if b.AtMost(a) && c.AtMost(b) {
      CrossTransitive(c.requested, c.offered, b.requested, b.offered, a.requested, a.offered);
    }
  }

  /** A crossing test gives one answer for all representations of a rate. */
  lemma CrossRespectsRate(offered: Amount, requested: Amount, k: RateKey, m: RateKey)
    requires k.Positive() && m.Positive() && k.Same(m)
    ensures offered * k.offered > requested * k.requested <==> offered * m.offered > requested * m.requested
  {
    if offered * k.offered > requested * k.requested { CrossScale(offered, requested, k, m); }
    if offered * m.offered > requested * m.requested { CrossScale(offered, requested, m, k); }
  }

  lemma CrossScale(offered: Amount, requested: Amount, k: RateKey, m: RateKey)
    requires k.Positive() && m.Positive() && k.Same(m)
    requires offered * k.offered > requested * k.requested
    ensures offered * m.offered > requested * m.requested
  {
    MulLe(requested * k.requested, offered * k.offered, m.offered);
    MulSwap(offered, k.offered, m.offered);
    MulAssoc(requested, k.requested, m.offered);
    MulAssoc(requested, m.requested, k.offered);
    MulCancel(requested * m.requested, offered * m.offered, k.offered);
  }

  /** What crosses at some rate crosses at every lower one. */
  lemma CrossAtLowerRate(offered: Amount, requested: Amount, k: RateKey, m: RateKey)
    requires k.Positive() && m.Positive() && k.AtMost(m) && offered * m.offered > requested * m.requested
    ensures offered * k.offered > requested * k.requested
  {
    MulLe(requested * m.requested, offered * m.offered, k.offered);
    MulSwap(offered, m.offered, k.offered);
    MulAssoc(requested, m.requested, k.offered);
    MulAssoc(requested, k.requested, m.offered);
    MulLe(k.requested * m.offered, m.requested * k.offered, requested);
    MulCancel(requested * k.requested, offered * k.offered, m.offered);
  }

  // ---------------------------------------------------------------------------
  // Orders
  // ---------------------------------------------------------------------------

  /** An order of the book. `offered` and `requested` never change; fills lower `requestedRemaining`. */
  datatype Order = Order(
    id: OrderId,
    offeredToken: TokenId,
    requestedToken: TokenId,
    offered: Amount,
    requested: Amount,
    requestedRemaining: Amount)
  {
    predicate Valid() { 0 < offered && 0 < requested && requestedRemaining <= requested }

    function Pair(): Pair { (offeredToken, requestedToken) }

    function Rate(): RateKey { RateKey(requested, offered) }

    predicate IsActive() { 0 < requestedRemaining }

    predicate IsCompletelyFilled() { requestedRemaining == 0 }

    predicate IsWhole() { requestedRemaining == requested }

    function RequestedFilled(): Amount
      requires requestedRemaining <= requested
    {
      requested - requestedRemaining
    }

    function OfferedFor(requestedFill: Amount): Amount
      requires 0 < requested
    {
      CalculateOutput(offered, requested, requestedFill)
    }

    function OfferedRemaining(): Amount
      requires 0 < requested
    {
      OfferedFor(requestedRemaining)
    }

    /** Minimum requested fill whose release reaches `target`. */
    function MinFillForRelease(target: Amount): Amount
      requires Valid()
    {
      if target == 0 then 0
      else if target >= offered then requested
      else
        var estimate := (target * requested / offered) % TWO_64;
        var fill := Min(estimate, requested);
        if OfferedFor(fill) >= target then fill
        else
          OutputLossless(offered, requested, fill);
          Min(fill + 1, requested)
    }

    /** `fill`: the clamped fill, its release, and the order afterwards. */
    function Fill(amount: Amount): (Amount, Order)
      requires Valid()
    {
      var filled := Min(amount, requestedRemaining);
      (OfferedFor(filled), this.(requestedRemaining := requestedRemaining - filled))
    }

    predicate IsProfitableWith(other: Order)
    {
      offered * other.offered > requested * other.requested
    }
  }

  /** With e = floor(target * requested / offered), the least f with target * requested <= offered * f is e or e + 1. */
  lemma CeilingStep(offered: nat, requested: nat, target: nat, e: int, f: nat)
    requires 0 < target < offered && 0 < requested
    requires e == target * requested / offered
    ensures 0 <= e < requested
    ensures target * requested <= offered * f <==> (if target * requested <= offered * e then e else e + 1) <= f
  {
    var n := target * requested;
    ProductMonotone(target + 1, requested, offered, requested);
    FloorGalois(n, offered, 0);
    FloorGalois(n, offered, requested);
    assert (target + 1) * requested == n + requested;
    FloorGalois(n, offered, e);
    FloorGalois(n, offered, e + 1);
    if f < e {
      ProductMonotone(f + 1, offered, e, offered);
      assert (f + 1) * offered == offered * f + offered;
    } else if e < f {
      ProductMonotone(e + 1, offered, f, offered);
    }
  }

  /** Release compared with a target, without the division. */
  lemma ReleaseReaches(o: Order, target: Amount, f: Amount)
    requires o.Valid() && f <= o.requested
    ensures target <= o.OfferedFor(f) <==> target * o.requested <= o.offered * f
    ensures o.OfferedFor(f) <= o.offered
  {
    OutputLossless(o.offered, o.requested, f);
    FloorGalois(o.offered * f, o.requested, target);
  }

  /** Below `offered` the estimate is exact or one short, and the narrowing cast is lossless. */
  lemma MinFillEstimate(o: Order, target: Amount, e: int)
    requires o.Valid() && 0 < target < o.offered
    requires e == target * o.requested / o.offered
    ensures 0 <= e < o.requested
    ensures o.MinFillForRelease(target) == if target * o.requested <= o.offered * e then e else e + 1
  {
    CeilingStep(o.offered, o.requested, target, e, 0);
    assert (target * o.requested / o.offered) % TWO_64 == e == Min(e, o.requested);
    assert o.MinFillForRelease(target) == if o.OfferedFor(e) >= target then e else e + 1;
    ReleaseReaches(o, target, e);
  }

  /** Only a full fill releases the whole offer. */
  lemma FullRelease(o: Order, f: Amount)
    requires o.Valid() && f <= o.requested
    ensures o.offered <= o.OfferedFor(f) <==> f == o.requested
  {
    ReleaseReaches(o, o.offered, f);
    if f < o.requested {
      assert (f + 1) * o.offered == o.offered * f + o.offered;
      ProductMonotone(f + 1, o.offered, o.requested, o.offered);
    }
  }

  /** Outside the open range the minimum fill is nothing or the whole order. */
  lemma MinFillEnds(o: Order, target: Amount)
    requires o.Valid() && !(0 < target < o.offered)
    ensures o.MinFillForRelease(target) == if target == 0 then 0 else o.requested
  {}

  /** Within the range the minimum fill is the least one that releases the target. */
  lemma MinFillWithin(o: Order, target: Amount, f: Amount)
    requires o.Valid() && f <= o.requested && 0 < target < o.offered
    ensures o.MinFillForRelease(target) <= o.requested
    ensures target <= o.OfferedFor(f) <==> o.MinFillForRelease(target) <= f
  {
    hide Order.MinFillForRelease;
    hide Order.OfferedFor;
    hide CalculateOutput;
    var e := target * o.requested / o.offered;
    ReleaseReaches(o, target, f);
    MinFillEstimate(o, target, e);
    CeilingStep(o.offered, o.requested, target, e, f);
  }

  /**
   * `min_fill_for_release` is the exact ceiling inverse of `offered_for`, and saturates at the whole order above it.
   */
  lemma MinFillIsCeilingInverse(o: Order, target: Amount, f: Amount)
    requires o.Valid() && f <= o.requested
    ensures o.MinFillForRelease(target) <= o.requested
    ensures target <= o.offered ==> (target <= o.OfferedFor(f) <==> o.MinFillForRelease(target) <= f)
    ensures o.offered < target ==> o.MinFillForRelease(target) == o.requested && o.OfferedFor(f) < target
  {
    hide Order.MinFillForRelease;
    hide Order.OfferedFor;
    hide CalculateOutput;
    ReleaseReaches(o, target, f);
    FullRelease(o, f);
    if 0 < target < o.offered {
      MinFillWithin(o, target, f);
    } else {
      MinFillEnds(o, target);
    }
  }

  // ---------------------------------------------------------------------------
  // Matching two orders
  // ---------------------------------------------------------------------------

  datatype MatchResult = MatchResult(surplusOffered: Amount, surplusRequested: Amount)

  /** The returned result and both orders as `match_with` leaves them, whatever it returned. */
  datatype MatchOutcome = MatchOutcome(result: Option<MatchResult>, left: Order, right: Order)

  /** What the left order would send if the match were attempted. */
  function Sends(a: Order, b: Order): Amount
    requires a.Valid()
  {
    Min(a.OfferedRemaining(), b.requestedRemaining)
  }

  /** The guards that `match_with` evaluates before it mutates anything. */
  predicate Attempted(a: Order, b: Order)
    requires a.Valid()
  {
    a.IsActive() && b.IsActive() && a.IsProfitableWith(b) && Sends(a, b) != 0
  }

  function MatchWith(a: Order, b: Order): (m: MatchOutcome)
    requires a.Valid() && b.Valid()
  {
    if !Attempted(a, b) then
      MatchOutcome(None, a, b)
    else
      var sends := Sends(a, b);
      var (rightReleases, b') := b.Fill(sends);
      if rightReleases == 0 then
        MatchOutcome(None, a, b')
      else
        var receives := Min(rightReleases, a.requestedRemaining);
        var (leftReleases, a') := a.Fill(receives);
        if leftReleases < sends then
          MatchOutcome(None, a', b')
        else
          MatchOutcome(Some(MatchResult(SaturatingSub(leftReleases, sends), SaturatingSub(rightReleases, receives))), a', b')
  }

  /** `o'` is `o` after some further fill. */
  predicate FilledFrom(o: Order, o': Order)
  {
    o' == o.(requestedRemaining := o'.requestedRemaining) && o'.requestedRemaining <= o.requestedRemaining
  }

  /** Units of the requested asset filled between `o` and `o'`. */
  function FillBetween(o: Order, o': Order): Amount
    requires FilledFrom(o, o')
  {
    o.requestedRemaining - o'.requestedRemaining
  }

  /** Every successful match fills both sides and accounts for each unit released on either token. */
  lemma MatchLedger(a: Order, b: Order)
    requires a.Valid() && b.Valid() && MatchWith(a, b).result.Some?
    ensures var m := MatchWith(a, b);
      && FilledFrom(a, m.left) && FilledFrom(b, m.right)
      && var fa, fb := FillBetween(a, m.left), FillBetween(b, m.right);
      && 0 < fa && 0 < fb
      && a.OfferedFor(fa) == fb + m.result.value.surplusOffered
      && b.OfferedFor(fb) == fa + m.result.value.surplusRequested
  {}

  /**
   * The trade of two orders in exact arithmetic, without casts, clamps or saturation: `a` sends all it can and `b` wants,
   * `b` returns the floor share of its offer, and `a` takes as much of that as it still wants.
   */
  ghost predicate Trades(a: Order, b: Order, m: MatchOutcome)
    requires a.Valid() && b.Valid()
  {
    var sends := Min(a.offered * a.requestedRemaining / a.requested, b.requestedRemaining);
    var back := b.offered * sends / b.requested;
    var takes := Min(back, a.requestedRemaining);
    var releases := a.offered * takes / a.requested;
    && 0 < a.requestedRemaining && 0 < b.requestedRemaining && a.offered * b.offered > a.requested * b.requested
    && 0 < sends <= releases && 0 < back
    && m.result.Some? && m.result.value.surplusOffered == releases - sends && m.result.value.surplusRequested == back - takes
    && FilledFrom(a, m.left) && a.requestedRemaining - m.left.requestedRemaining == takes
    && FilledFrom(b, m.right) && b.requestedRemaining - m.right.requestedRemaining == sends
  }

  /** `match_with` succeeds if and only if the exact trade exists, and then its outcome is that trade. */
  lemma MatchExact(a: Order, b: Order, m: MatchOutcome)
    requires a.Valid() && b.Valid()
    ensures m == MatchWith(a, b) && m.result.Some? <==> Trades(a, b, m)
  {
    OutputLossless(a.offered, a.requested, a.requestedRemaining);
    var sends := Min(a.OfferedFor(a.requestedRemaining), b.requestedRemaining);
    OutputLossless(b.offered, b.requested, sends);
    var takes := Min(b.OfferedFor(sends), a.requestedRemaining);
    OutputLossless(a.offered, a.requested, takes);
    hide CalculateOutput;
  }

  /** A match that returns nothing has still changed an order exactly when the early guards let it start. */
  lemma FailedMatchMutates(a: Order, b: Order)
    requires a.Valid() && b.Valid() && MatchWith(a, b).result.None?
    ensures (MatchWith(a, b).left == a && MatchWith(a, b).right == b) <==>
      !(0 < a.requestedRemaining && 0 < b.requestedRemaining && a.offered * b.offered > a.requested * b.requested
        && 0 < a.offered * a.requestedRemaining / a.requested)
  {
    OutputLossless(a.offered, a.requested, a.requestedRemaining);
  }

  /** A late failure by a zero counter-release. */
  lemma ZeroReleaseExample(a: Order, b: Order)
    requires a == Order(1, 0, 1, 7, 2, 2) && b == Order(2, 1, 0, 1, 3, 2)
    ensures Attempted(a, b) && MatchWith(a, b) == MatchOutcome(None, a, b.(requestedRemaining := 0))
  {
    assert a.OfferedRemaining() == 7;
    assert b.OfferedFor(2) == 0;
  }

  /** A late failure by a release below what was sent: both orders have changed. */
  lemma ShortReleaseExample(a: Order, b: Order)
    requires a == Order(1, 0, 1, 2, 3, 2) && b == Order(2, 1, 0, 8, 5, 5)
    ensures Attempted(a, b)
    ensures MatchWith(a, b) == MatchOutcome(None, a.(requestedRemaining := 1), b.(requestedRemaining := 4))
  {
    assert a.OfferedRemaining() == 1;
    assert b.OfferedFor(1) == 1;
    assert a.OfferedFor(1) == 0;
  }

  /** Two untouched orders trade exactly when they cross, and the trade completes one of them. */
  lemma WholeOrdersTrade(a: Order, b: Order)
    requires a.Valid() && b.Valid() && a.IsWhole() && b.IsWhole()
    ensures MatchWith(a, b).result.Some? <==> a.IsProfitableWith(b)
    ensures MatchWith(a, b).result.Some? ==>
              MatchWith(a, b).left.IsCompletelyFilled() || MatchWith(a, b).right.IsCompletelyFilled()
  {
    OutputLossless(a.offered, a.requested, a.requested);
    OutputLossless(b.offered, b.requested, b.requested);
    if a.IsProfitableWith(b) {
      if b.requested <= a.offered {
        if b.offered < a.requested {
          ReleaseReaches(a, b.requested, b.offered);
        }
      } else {
        ReleaseReaches(b, a.requested, a.offered);
      }
    }
  }
}
