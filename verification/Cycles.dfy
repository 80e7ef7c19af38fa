/** Three-edge cycles: simulation of a cycle, its ledger, and its execution on the book. */
module Cycles {
  import opened Types
  import opened RateIndex
  import opened Sums
  import opened B = Book
  import opened Direct
  import opened Ledger

  // ---------------------------------------------------------------------------
  // Triangles
  // ---------------------------------------------------------------------------

  /** A cycle of tokens a -> b -> c -> a. */
  datatype Triangle = Triangle(a: TokenId, b: TokenId, c: TokenId)
  {
    function AB(): Pair { (a, b) }
    function BC(): Pair { (b, c) }
    function CA(): Pair { (c, a) }

    function Pairs(): set<Pair> { {AB(), BC(), CA()} }

    /** Its three pairs are different. */
    predicate Proper() { !(a == b == c) }
  }

  /** The rotation that starts at the smallest token. */
  function Canonical(a: TokenId, b: TokenId, c: TokenId): Triangle
  {
    if a <= b && a <= c then Triangle(a, b, c)
    else if b <= a && b <= c then Triangle(b, c, a)
    else Triangle(c, a, b)
  }

  /** All rotations of a triangle share one canonical form, which has the same three pairs. */
  lemma CanonicalIsRotation(a: TokenId, b: TokenId, c: TokenId)
    ensures Canonical(a, b, c).Pairs() == {(a, b), (b, c), (c, a)}
    ensures a != b && b != c && a != c ==> Canonical(a, b, c) == Canonical(b, c, a) == Canonical(c, a, b)
    ensures Canonical(a, b, c).a <= a && Canonical(a, b, c).a <= b && Canonical(a, b, c).a <= c
  {}

  // ---------------------------------------------------------------------------
  // Simulation
  // ---------------------------------------------------------------------------

  datatype LegFill = LegFill(filled: Amount, released: Amount)

  /** Consume `input` tokens, capped by what the order still wants. */
  function FillLeg(o: Order, input: Amount): LegFill
    requires o.Valid()
  {
    var filled := Min(input, o.requestedRemaining);
    LegFill(filled, o.OfferedFor(filled))
  }

  /** Propagate fills through three legs, the first of which is filled completely. */
  function SimulateCycleFills(first: Order, second: Order, third: Order): Option<(LegFill, LegFill, LegFill)>
    requires first.Valid() && second.Valid() && third.Valid()
  {
    var f0 := LegFill(first.requestedRemaining, first.OfferedFor(first.requestedRemaining));
    var f1 := FillLeg(second, f0.released);
    var f2 := FillLeg(third, f1.released);
    if f0.filled == 0 || f1.filled == 0 || f2.filled == 0 then None else Some((f0, f1, f2))
  }

  datatype Bottleneck = LegAB | LegBC | LegCA

  /** Fill of the order that requests each token, and the surplus credited on it. */
  datatype FillResult = FillResult(
    fillA: Amount, fillB: Amount, fillC: Amount,
    surplusA: Amount, surplusB: Amount, surplusC: Amount)

  function SimulateCycle(ab: Order, bc: Order, ca: Order, bottleneck: Bottleneck): Option<FillResult>
    requires ab.Valid() && bc.Valid() && ca.Valid()
  {
    var legs := match bottleneck
      case LegAB => SimulateCycleFills(ab, ca, bc)
      case LegBC => SimulateCycleFills(bc, ab, ca)
      case LegCA => SimulateCycleFills(ca, bc, ab);
    if legs.None? then None
    else
      var (l0, l1, l2) := legs.value;
      // Token A is released by AB and consumed by CA, B by BC and AB, C by CA and BC.
      var (xab, xbc, xca) := match bottleneck
        case LegAB => (l0, l2, l1)
        case LegBC => (l1, l0, l2)
        case LegCA => (l2, l1, l0);
      Some(FillResult(
        xca.filled, xab.filled, xbc.filled,
        SaturatingSub(xab.released, xca.filled),
        SaturatingSub(xbc.released, xab.filled),
        SaturatingSub(xca.released, xbc.filled)))
  }

  const MAX_U128: int := 0xFFFF_FFFF_FFFF_FFFF_FFFF_FFFF_FFFF_FFFF

  function SaturatingMul128(x: nat, y: nat): nat { Min(x * y, MAX_U128) }

  function SaturatingAdd128(x: nat, y: nat): nat { Min(x + y, MAX_U128) }

  /** The leg with the smallest USD capacity; ties go to the earlier leg. */
  function FindBottleneck(usdAB: nat, usdBC: nat, usdCA: nat): Bottleneck
  {
    if usdAB <= usdBC && usdAB <= usdCA then LegAB else if usdBC <= usdCA then LegBC else LegCA
  }

  datatype CycleSimulation = CycleSimulation(bottleneck: Bottleneck, fills: FillResult, surplusUsd: nat)

  /** The ranking value of a cycle: its surpluses at their prices, added up with saturation. */
  function SurplusUsd(f: FillResult, pa: Amount, pb: Amount, pc: Amount): nat
  {
    SaturatingAdd128(
      SaturatingAdd128(SaturatingMul128(f.surplusA, pa), SaturatingMul128(f.surplusB, pb)),
      SaturatingMul128(f.surplusC, pc))
  }

  /** Bottleneck, fills and USD surplus of a cycle; `None` if a leg is filled, unpriced or too small. */
  function SimulateFullCycle(feed: Feed, ab: Order, bc: Order, ca: Order): Option<CycleSimulation>
    requires ab.Valid() && bc.Valid() && ca.Valid()
  {
    if !ab.IsActive() || !bc.IsActive() || !ca.IsActive() then None
    else if ab.offeredToken !in feed || ab.requestedToken !in feed || bc.requestedToken !in feed then None
    else
      var (pa, pb, pc) := (feed[ab.offeredToken], feed[ab.requestedToken], feed[bc.requestedToken]);
      var (uab, ubc, uca) := (ab.requestedRemaining * pb, bc.requestedRemaining * pc, ca.requestedRemaining * pa);
      var bottleneck := FindBottleneck(uab, ubc, uca);
      var usd := match bottleneck case LegAB => uab case LegBC => ubc case LegCA => uca;
      if usd == 0 then None
      else
        var fills := SimulateCycle(ab, bc, ca, bottleneck);
        if fills.None? then None
        else
          Some(CycleSimulation(bottleneck, fills.value, SurplusUsd(fills.value, pa, pb, pc)))
  }

  // ---------------------------------------------------------------------------
  // What a simulation computes
  // ---------------------------------------------------------------------------

  /** What an order releases for a fill, in exact arithmetic. */
  function Share(o: Order, fill: Amount): nat
    requires o.Valid()
  {
    FloorGalois(o.offered * fill, o.requested, 0);
    o.offered * fill / o.requested
  }

  /** `first` is filled completely, and each further leg with what the leg before it releases, as far as it wants it. */
  ghost predicate Propagates(first: Order, second: Order, third: Order, f0: Amount, f1: Amount, f2: Amount)
    requires first.Valid() && second.Valid() && third.Valid()
  {
    && f0 == first.requestedRemaining && f1 == Min(Share(first, f0), second.requestedRemaining)
    && f2 == Min(Share(second, f1), third.requestedRemaining) && 0 < f0 && 0 < f1 && 0 < f2
  }

  /** The leg with the least requested value, the earliest among equals, decides the fills. */
  ghost predicate Bottlenecks(bottleneck: Bottleneck, usdAB: int, usdBC: int, usdCA: int)
  {
    match bottleneck
    case LegAB => 0 < usdAB && usdAB <= usdBC && usdAB <= usdCA
    case LegBC => 0 < usdBC && usdBC < usdAB && usdBC <= usdCA
    case LegCA => 0 < usdCA && usdCA < usdAB && usdCA < usdBC
  }

  ghost predicate FillsFrom(ab: Order, bc: Order, ca: Order, bottleneck: Bottleneck, f: FillResult)
    requires ab.Valid() && bc.Valid() && ca.Valid()
  {
    match bottleneck
    case LegAB => Propagates(ab, ca, bc, f.fillB, f.fillA, f.fillC)
    case LegBC => Propagates(bc, ab, ca, f.fillC, f.fillB, f.fillA)
    case LegCA => Propagates(ca, bc, ab, f.fillA, f.fillC, f.fillB)
  }

  /** `surplus` is what is released beyond the fill, if anything. */
  ghost predicate Surplus(released: int, filled: int, surplus: int) { surplus == if released <= filled then 0 else released - filled }

  /** The cycle in exact arithmetic, without casts or saturation but for the cap on the ranking value. */
  ghost predicate IsSimulation(feed: Feed, ab: Order, bc: Order, ca: Order, sim: CycleSimulation)
    requires ab.Valid() && bc.Valid() && ca.Valid()
  {
    && ab.offeredToken in feed && ab.requestedToken in feed && bc.requestedToken in feed
    && 0 < ab.requestedRemaining && 0 < bc.requestedRemaining && 0 < ca.requestedRemaining
    && var (pa, pb, pc) := (feed[ab.offeredToken], feed[ab.requestedToken], feed[bc.requestedToken]);
    && Bottlenecks(sim.bottleneck, ab.requestedRemaining * pb, bc.requestedRemaining * pc, ca.requestedRemaining * pa)
    && FillsFrom(ab, bc, ca, sim.bottleneck, sim.fills)
    && Surplus(Share(ab, sim.fills.fillB), sim.fills.fillA, sim.fills.surplusA)
    && Surplus(Share(bc, sim.fills.fillC), sim.fills.fillB, sim.fills.surplusB)
    && Surplus(Share(ca, sim.fills.fillA), sim.fills.fillC, sim.fills.surplusC)
    && sim.surplusUsd == Min(sim.fills.surplusA * pa + sim.fills.surplusB * pb + sim.fills.surplusC * pc, MAX_U128)
  }

  lemma ShareIs(o: Order, fill: Amount)
    requires o.Valid() && fill <= o.requestedRemaining
    ensures o.OfferedFor(fill) == Share(o, fill)
  {
    OutputLossless(o.offered, o.requested, fill);
  }

  lemma ChainExact(first: Order, second: Order, third: Order)
    requires first.Valid() && second.Valid() && third.Valid()
    ensures var legs := SimulateCycleFills(first, second, third);
      && (legs.Some? ==>
            var (l0, l1, l2) := legs.value;
            && Propagates(first, second, third, l0.filled, l1.filled, l2.filled)
            && l0.released == Share(first, l0.filled) && l1.released == Share(second, l1.filled) && l2.released == Share(third, l2.filled))
      && (legs.None? ==> forall f0, f1, f2 :: !Propagates(first, second, third, f0, f1, f2))
  {
    var f0 := first.requestedRemaining;
    ShareIs(first, f0);
    var f1 := FillLeg(second, first.OfferedFor(f0)).filled;
    ShareIs(second, f1);
    var f2 := FillLeg(third, second.OfferedFor(f1)).filled;
    ShareIs(third, f2);
    hide Order.OfferedFor;
    hide Share;
  }

  lemma CycleExact(ab: Order, bc: Order, ca: Order, bottleneck: Bottleneck, f: FillResult)
    requires ab.Valid() && bc.Valid() && ca.Valid()
    ensures SimulateCycle(ab, bc, ca, bottleneck) == Some(f) <==>
      && FillsFrom(ab, bc, ca, bottleneck, f)
      && Surplus(Share(ab, f.fillB), f.fillA, f.surplusA) && Surplus(Share(bc, f.fillC), f.fillB, f.surplusB)
      && Surplus(Share(ca, f.fillA), f.fillC, f.surplusC)
  {
    match bottleneck {
      case LegAB => ChainExact(ab, ca, bc);
      case LegBC => ChainExact(bc, ab, ca);
      case LegCA => ChainExact(ca, bc, ab);
    }
    hide SimulateCycleFills;
    hide Share;
  }

  /** Adding up with a cap at each step caps the sum. */
  lemma SurplusUsdIs(f: FillResult, pa: Amount, pb: Amount, pc: Amount)
    ensures SurplusUsd(f, pa, pb, pc) == Min(f.surplusA * pa + f.surplusB * pb + f.surplusC * pc, MAX_U128)
  {}

  lemma BottleneckIs(leg: Bottleneck, uab: nat, ubc: nat, uca: nat)
    ensures Bottlenecks(leg, uab, ubc, uca) <==>
      leg == FindBottleneck(uab, ubc, uca) && 0 < match leg case LegAB => uab case LegBC => ubc case LegCA => uca
  {}

  /** `simulate_full_cycle` finds exactly the cycle of exact arithmetic, and nothing if there is none. */
  lemma SimulationExact(feed: Feed, ab: Order, bc: Order, ca: Order, sim: CycleSimulation)
    requires ab.Valid() && bc.Valid() && ca.Valid()
    ensures SimulateFullCycle(feed, ab, bc, ca) == Some(sim) <==> IsSimulation(feed, ab, bc, ca, sim)
  {
    hide SimulateCycle;
    hide FillsFrom;
    hide Surplus;
    hide Share;
    hide SurplusUsd;
    hide Min;
    hide FindBottleneck;
    hide Bottlenecks;
    if ab.offeredToken in feed && ab.requestedToken in feed && bc.requestedToken in feed {
      var (pa, pb, pc) := (feed[ab.offeredToken], feed[ab.requestedToken], feed[bc.requestedToken]);
      BottleneckIs(sim.bottleneck, ab.requestedRemaining * pb, bc.requestedRemaining * pc, ca.requestedRemaining * pa);
      CycleExact(ab, bc, ca, sim.bottleneck, sim.fills);
      SurplusUsdIs(sim.fills, pa, pb, pc);
    }
  }

  // ---------------------------------------------------------------------------
  // The ledger of one cycle
  // ---------------------------------------------------------------------------

  /** Amounts released on A, B and C by a simulated cycle. */
  function ReleasesOf(ab: Order, bc: Order, ca: Order, f: FillResult): (Amount, Amount, Amount)
    requires ab.Valid() && bc.Valid() && ca.Valid()
  {
    (ab.OfferedFor(f.fillB), bc.OfferedFor(f.fillC), ca.OfferedFor(f.fillA))
  }

  /** Fill and release on the closing token: the one the bottleneck order requests. */
  function Closing(ab: Order, bc: Order, ca: Order, bottleneck: Bottleneck, f: FillResult): LegFill
    requires ab.Valid() && bc.Valid() && ca.Valid()
  {
    var (ra, rb, rc) := ReleasesOf(ab, bc, ca, f);
    match bottleneck
    case LegAB => LegFill(f.fillB, rb)
    case LegBC => LegFill(f.fillC, rc)
    case LegCA => LegFill(f.fillA, ra)
  }

  /** What the last leg fails to release for the bottleneck's fill. */
  function Shortfall(ab: Order, bc: Order, ca: Order, bottleneck: Bottleneck, f: FillResult): Amount
    requires ab.Valid() && bc.Valid() && ca.Valid()
  {
    var c := Closing(ab, bc, ca, bottleneck, f);
    SaturatingSub(c.filled, c.released)
  }

  /**
   * Every simulated fill is at least one unit and fits its order, the bottleneck is filled completely,
   * and each token's release equals its fill plus the credited surplus, except for the shortfall on the closing token.
   */
  lemma CycleLedger(ab: Order, bc: Order, ca: Order, bottleneck: Bottleneck)
    requires ab.Valid() && bc.Valid() && ca.Valid()
    requires SimulateCycle(ab, bc, ca, bottleneck).Some?
    ensures var f := SimulateCycle(ab, bc, ca, bottleneck).value;
      var (ra, rb, rc) := ReleasesOf(ab, bc, ca, f);
      var short := Shortfall(ab, bc, ca, bottleneck, f);
      && 0 < f.fillA <= ca.requestedRemaining && 0 < f.fillB <= ab.requestedRemaining && 0 < f.fillC <= bc.requestedRemaining
      && (match bottleneck
          case LegAB => f.fillB == ab.requestedRemaining
          case LegBC => f.fillC == bc.requestedRemaining
          case LegCA => f.fillA == ca.requestedRemaining)
      && ra + (if bottleneck.LegCA? then short else 0) == f.fillA + f.surplusA
      && rb + (if bottleneck.LegAB? then short else 0) == f.fillB + f.surplusB
      && rc + (if bottleneck.LegBC? then short else 0) == f.fillC + f.surplusC
  {}

  /** The cycle balances on every token exactly when its last leg releases at least the bottleneck's fill. */
  lemma CycleBalances(ab: Order, bc: Order, ca: Order, bottleneck: Bottleneck)
    requires ab.Valid() && bc.Valid() && ca.Valid()
    requires SimulateCycle(ab, bc, ca, bottleneck).Some?
    ensures var f := SimulateCycle(ab, bc, ca, bottleneck).value;
      var (ra, rb, rc) := ReleasesOf(ab, bc, ca, f);
      var c := Closing(ab, bc, ca, bottleneck, f);
      ra == f.fillA + f.surplusA && rb == f.fillB + f.surplusB && rc == f.fillC + f.surplusC <==> c.released >= c.filled
  {
    CycleLedger(ab, bc, ca, bottleneck);
    hide SimulateCycle;
  }

  /** A positive USD surplus does not make a cycle balance: here token B releases 5 against a fill of 10. */
  lemma ProfitableCycleCanBeShort(ab: Order, bc: Order, ca: Order, feed: Feed)
    requires ab == Order(1, 0, 1, 100, 10, 10) && bc == Order(2, 1, 2, 15, 15, 15) && ca == Order(3, 2, 0, 5, 20, 20)
    requires feed == map[0 := 1, 1 := 1, 2 := 1]
    ensures SimulateFullCycle(feed, ab, bc, ca) == Some(CycleSimulation(LegAB, FillResult(20, 10, 5, 80, 0, 0), 80))
    ensures Closing(ab, bc, ca, LegAB, FillResult(20, 10, 5, 80, 0, 0)) == LegFill(10, 5)
    ensures Shortfall(ab, bc, ca, LegAB, FillResult(20, 10, 5, 80, 0, 0)) == 5
  {
    assert ab.OfferedFor(10) == 100 && ca.OfferedFor(20) == 5 && bc.OfferedFor(5) == 5;
  }

  // ---------------------------------------------------------------------------
  // Heap entries
  // ---------------------------------------------------------------------------

  datatype CycleEntry = CycleEntry(triangle: Triangle, orderAB: OrderId, orderBC: OrderId, orderCA: OrderId, surplusUsd: nat)

  /** The three orders of an entry are known, unparked and belong to the pairs of its triangle. */
  ghost predicate EntryOk(b: Book, e: CycleEntry)
  {
    && e.triangle.Proper()
    && e.orderAB in b.orders && b.orders[e.orderAB].Pair() == e.triangle.AB() && e.orderAB !in b.parked
    && e.orderBC in b.orders && b.orders[e.orderBC].Pair() == e.triangle.BC() && e.orderBC !in b.parked
    && e.orderCA in b.orders && b.orders[e.orderCA].Pair() == e.triangle.CA() && e.orderCA !in b.parked
  }

  ghost function SimulationOf(b: Book, feed: Feed, e: CycleEntry): Option<CycleSimulation>
    requires WellFormed(b) && EntryOk(b, e)
  {
    SimulateFullCycle(feed, b.orders[e.orderAB], b.orders[e.orderBC], b.orders[e.orderCA])
  }

  /** `x * y * z` in checked u128 arithmetic. */
  function CheckedProduct(x: Amount, y: Amount, z: Amount): Option<int>
  {
    if x * y <= MAX_U128 && x * y * z <= MAX_U128 then Some(x * y * z) else None
  }

  /** The fast pre-filter: both products computable and the cycle not profitable. */
  predicate Unprofitable(ab: Order, bc: Order, ca: Order)
  {
    var lhs := CheckedProduct(ab.offered, bc.offered, ca.offered);
    var rhs := CheckedProduct(ab.requested, bc.requested, ca.requested);
    lhs.Some? && rhs.Some? && lhs.value <= rhs.value
  }

  /** The entry of three given orders, if the cycle through them is worth executing. */
  ghost function BuildFrom(b: Book, feed: Feed, t: Triangle, x: OrderId, y: OrderId, z: OrderId): Option<CycleEntry>
    requires WellFormed(b) && x in b.orders && y in b.orders && z in b.orders
  {
    var (ab, bc, ca) := (b.orders[x], b.orders[y], b.orders[z]);
    if Unprofitable(ab, bc, ca) then None
    else
      var sim := SimulateFullCycle(feed, ab, bc, ca);
      if sim.None? || sim.value.surplusUsd == 0 then None else Some(CycleEntry(t, x, y, z, sim.value.surplusUsd))
  }

  /** The entry of the best orders of a triangle. */
  ghost function TryBuild(b: Book, feed: Feed, t: Triangle): (r: Option<CycleEntry>)
    requires WellFormed(b)
  {
    var (x, y, z) := (Best(b, t.AB()), Best(b, t.BC()), Best(b, t.CA()));
    if x.None? || y.None? || z.None? then None else BuildFrom(b, feed, t, x.value, y.value, z.value)
  }

  /** The recorded surplus is what executing the entry now would yield. */
  ghost predicate Accurate(b: Book, feed: Feed, e: CycleEntry)
    requires WellFormed(b) && EntryOk(b, e)
  {
    var sim := SimulationOf(b, feed, e);
    sim.Some? && sim.value.surplusUsd == e.surplusUsd
  }

  /** Each order of the entry that is still active is the best of its pair. */
  ghost predicate Current(b: Book, e: CycleEntry)
    requires WellFormed(b) && EntryOk(b, e)
  {
    && (b.orders[e.orderAB].IsActive() ==> Best(b, e.triangle.AB()) == Some(e.orderAB))
    && (b.orders[e.orderBC].IsActive() ==> Best(b, e.triangle.BC()) == Some(e.orderBC))
    && (b.orders[e.orderCA].IsActive() ==> Best(b, e.triangle.CA()) == Some(e.orderCA))
  }

  /** A freshly built entry is sound, accurate, current and profitable. */
  lemma TryBuildOk(b: Book, feed: Feed, t: Triangle)
    requires WellFormed(b) && t.Proper() && TryBuild(b, feed, t).Some?
    ensures var e := TryBuild(b, feed, t).value;
      EntryOk(b, e) && e.triangle == t && Accurate(b, feed, e) && Current(b, e) && 0 < e.surplusUsd
  {
    hide SimulateFullCycle;
    hide Unprofitable;
    hide BestIn;
  }

  /** The pre-filter refuses a cycle if and only if both triple products fit 128 bits and the offers do not win. */
  lemma FilterIs(ab: Order, bc: Order, ca: Order)
    requires ab.Valid() && bc.Valid() && ca.Valid()
    ensures Unprofitable(ab, bc, ca) <==>
      ab.offered * bc.offered * ca.offered <= ab.requested * bc.requested * ca.requested <= MAX_U128
  {
    ProductMonotone(ab.offered * bc.offered, 1, ab.offered * bc.offered, ca.offered);
    ProductMonotone(ab.requested * bc.requested, 1, ab.requested * bc.requested, ca.requested);
  }

  /** Some simulation of the cycle is worth `usd`. */
  ghost predicate Yields(feed: Feed, ab: Order, bc: Order, ca: Order, usd: nat)
    requires ab.Valid() && bc.Valid() && ca.Valid()
  {
    exists sim :: IsSimulation(feed, ab, bc, ca, sim) && sim.surplusUsd == usd
  }

  lemma YieldsIs(feed: Feed, ab: Order, bc: Order, ca: Order, usd: nat)
    requires ab.Valid() && bc.Valid() && ca.Valid()
    ensures Yields(feed, ab, bc, ca, usd) <==>
      SimulateFullCycle(feed, ab, bc, ca).Some? && SimulateFullCycle(feed, ab, bc, ca).value.surplusUsd == usd
  {
    hide SimulateFullCycle;
    hide IsSimulation;
    var sim := SimulateFullCycle(feed, ab, bc, ca);
    if sim.Some? {
      SimulationExact(feed, ab, bc, ca, sim.value);
    }
    if sim' :| IsSimulation(feed, ab, bc, ca, sim') && sim'.surplusUsd == usd {
      SimulationExact(feed, ab, bc, ca, sim');
    }
  }

  /**
   * A triangle is built if and only if all its pairs have orders, the best ones pass the filter, and their cycle is worth
   * something; the entry names them and what it is worth.
   */
  lemma TryBuildExact(b: Book, feed: Feed, t: Triangle, e: CycleEntry)
    requires WellFormed(b)
    ensures TryBuild(b, feed, t) == Some(e) <==>
      && e.triangle == t && Best(b, t.AB()) == Some(e.orderAB) && Best(b, t.BC()) == Some(e.orderBC)
      && Best(b, t.CA()) == Some(e.orderCA)
      && var (ab, bc, ca) := (b.orders[e.orderAB], b.orders[e.orderBC], b.orders[e.orderCA]);
      && !(ab.offered * bc.offered * ca.offered <= ab.requested * bc.requested * ca.requested <= MAX_U128)
      && 0 < e.surplusUsd && Yields(feed, ab, bc, ca, e.surplusUsd)
  {
    var (x, y, z) := (Best(b, t.AB()), Best(b, t.BC()), Best(b, t.CA()));
    if x.Some? && y.Some? && z.Some? {
      var (ab, bc, ca) := (b.orders[x.value], b.orders[y.value], b.orders[z.value]);
      assert ab.Valid() && bc.Valid() && ca.Valid();
      FilterIs(ab, bc, ca);
      YieldsIs(feed, ab, bc, ca, e.surplusUsd);
    }
    hide Best;
    hide WellFormed;
    hide Unprofitable;
    hide SimulateFullCycle;
    hide Yields;
  }

  /** While the orders of a current entry are active, rebuilding its triangle gives the same orders. */
  lemma RebuildsSame(b: Book, feed: Feed, e: CycleEntry)
    requires WellFormed(b) && EntryOk(b, e) && Current(b, e) && SimulationOf(b, feed, e).Some?
    ensures TryBuild(b, feed, e.triangle) == BuildFrom(b, feed, e.triangle, e.orderAB, e.orderBC, e.orderCA)
    ensures SimulationOf(b, feed, e).value.surplusUsd == 0 ==> TryBuild(b, feed, e.triangle).None?
  {
    assert b.orders[e.orderAB].IsActive() && b.orders[e.orderBC].IsActive() && b.orders[e.orderCA].IsActive();
    hide SimulateFullCycle;
    hide Unprofitable;
    hide BestIn;
  }

  // ---------------------------------------------------------------------------
  // Execution
  // ---------------------------------------------------------------------------

  /** Write one order back; if it is completely filled it leaves the matchable list. */
  ghost function Write(b: Book, o: Order): Book
  {
    b.(orders := b.orders[o.id := o], fifo := DropFilled(b.fifo, o))
  }

  ghost function Credit(b: Book, t: TokenId, amount: Amount): Book
  {
    b.(balances := Deposit(b.balances, t, amount), tokens := Known(b.tokens, t, amount))
  }

  ghost function WriteFills(b: Book, e: CycleEntry, f: FillResult): Book
    requires WellFormed(b) && EntryOk(b, e)
  {
    Write(Write(Write(b, b.orders[e.orderAB].Fill(f.fillB).1), b.orders[e.orderCA].Fill(f.fillA).1), b.orders[e.orderBC].Fill(f.fillC).1)
  }

  /** `execute_cycle`: fill the three orders, clean up the filled ones and credit the surpluses. */
  ghost function Execute(b: Book, e: CycleEntry, f: FillResult): Book
    requires WellFormed(b) && EntryOk(b, e)
  {
    Credit(Credit(Credit(WriteFills(b, e, f), e.triangle.a, f.surplusA), e.triangle.b, f.surplusB), e.triangle.c, f.surplusC)
  }

  /** `f` is what the simulation of `e` yields now. */
  ghost predicate Simulates(b: Book, feed: Feed, e: CycleEntry, sim: CycleSimulation)
    requires WellFormed(b) && EntryOk(b, e)
  {
    SimulationOf(b, feed, e) == Some(sim)
  }

  /**
   * The simulated fills are exact: nothing is clamped, every fill is at least one unit, and all three orders are
   * matchable and different.
   */
  lemma ExecutionMatchesSimulation(b: Book, feed: Feed, e: CycleEntry, sim: CycleSimulation)
    requires WellFormed(b) && EntryOk(b, e) && Simulates(b, feed, e, sim)
    ensures e.orderAB != e.orderBC && e.orderBC != e.orderCA && e.orderAB != e.orderCA
    ensures e.orderAB in b.fifo && e.orderBC in b.fifo && e.orderCA in b.fifo
    ensures var (ab, bc, ca, f) := (b.orders[e.orderAB], b.orders[e.orderBC], b.orders[e.orderCA], sim.fills);
      && SimulateCycle(ab, bc, ca, sim.bottleneck) == Some(f)
      && 0 < f.fillB && ab.Fill(f.fillB) == (ab.OfferedFor(f.fillB), ab.(requestedRemaining := ab.requestedRemaining - f.fillB))
      && 0 < f.fillC && bc.Fill(f.fillC) == (bc.OfferedFor(f.fillC), bc.(requestedRemaining := bc.requestedRemaining - f.fillC))
      && 0 < f.fillA && ca.Fill(f.fillA) == (ca.OfferedFor(f.fillA), ca.(requestedRemaining := ca.requestedRemaining - f.fillA))
  {
    var (ab, bc, ca) := (b.orders[e.orderAB], b.orders[e.orderBC], b.orders[e.orderCA]);
    assert ab.IsActive() && bc.IsActive() && ca.IsActive() && SimulateCycle(ab, bc, ca, sim.bottleneck) == Some(sim.fills);
    hide SimulateFullCycle;
    CycleLedger(ab, bc, ca, sim.bottleneck);
    hide SimulateCycle;
  }

  /** `o` is a further fill of a matchable order. */
  ghost predicate IsWrite(b: Book, o: Order)
    requires WellFormed(b)
  {
    o.id in b.fifo && FilledFrom(b.orders[o.id], o)
  }

  lemma WriteOk(b: Book, o: Order)
    requires WellFormed(b) && IsWrite(b, o)
    ensures WellFormed(Write(b, o)) && Follows(b, Write(b, o))
    ensures forall id :: id in b.fifo && id != o.id ==> id in Write(b, o).fifo && Write(b, o).orders[id] == b.orders[id]
  {
    DropFilledNoDup(b.fifo, o);
    FillWellFormed(b, Write(b, o), {o.id});
  }

  /** A best order stays best through a write, unless the write completes it. */
  lemma WriteKeepsBest(b: Book, o: Order, p: Pair)
    requires WellFormed(b) && IsWrite(b, o)
    ensures WellFormed(Write(b, o))
    ensures Best(b, p) != Some(o.id) || o.IsActive() ==> Best(Write(b, o), p) == Best(b, p)
  {
    WriteOk(b, o);
    var orders' := Write(b, o).orders;
    BestSameTerms(b.orders, orders', b.fifo, p);
    if o.IsCompletelyFilled() && Best(b, p) != Some(o.id) {
      if Best(b, p).Some? {
        BestStays(orders', b.fifo, p, o.id);
      } else {
        var i := BestInWins(b.orders, b.fifo, p);
        BestIgnoresOthers(orders', b.fifo, p, o.id);
      }
    }
  }

  lemma WriteSum(b: Book, o: Order, f: Order -> int)
    requires o.id in b.orders
    ensures SumOver(Write(b, o).orders, f) == SumOver(b.orders, f) + f(o) - f(b.orders[o.id])
  {
    SumUpdate(b.orders, o.id, o, f);
  }

  lemma CreditOk(b: Book, t: TokenId, amount: Amount)
    requires WellFormed(b) && t in b.tokens
    ensures WellFormed(Credit(b, t, amount)) && Follows(b, Credit(b, t, amount))
    ensures Credit(b, t, amount).orders == b.orders && Credit(b, t, amount).fifo == b.fifo
  {
    assert Known(b.tokens, t, amount) == b.tokens;
  }

  /** The three orders as the simulation leaves them. */
  ghost function Fills(b: Book, e: CycleEntry, f: FillResult): (Order, Order, Order)
    requires WellFormed(b) && EntryOk(b, e)
  {
    (b.orders[e.orderAB].Fill(f.fillB).1, b.orders[e.orderCA].Fill(f.fillA).1, b.orders[e.orderBC].Fill(f.fillC).1)
  }

  /** The writes of an execution are three successive legal writes, and the execution follows them. */
  lemma ExecuteSteps(b: Book, feed: Feed, e: CycleEntry, sim: CycleSimulation)
    requires WellFormed(b) && EntryOk(b, e) && Simulates(b, feed, e, sim)
    ensures var (ab, ca, bc) := Fills(b, e, sim.fills);
      var (b1, b2, b3) := (Write(b, ab), Write(Write(b, ab), ca), WriteFills(b, e, sim.fills));
      && (ab.id, ca.id, bc.id) == (e.orderAB, e.orderCA, e.orderBC)
      && IsWrite(b, ab) && WellFormed(b1) && IsWrite(b1, ca) && WellFormed(b2) && IsWrite(b2, bc) && WellFormed(b3)
      && b3 == Write(b2, bc)
      && b1.orders[e.orderCA] == b.orders[e.orderCA] && b2.orders[e.orderBC] == b.orders[e.orderBC]
      && b.orders[e.orderAB] != ab && b.orders[e.orderCA] != ca && b.orders[e.orderBC] != bc
      && Follows(b, b3)
  {
    hide SimulateFullCycle;
    hide SimulateCycle;
    ExecutionMatchesSimulation(b, feed, e, sim);
    var (ab, ca, bc) := Fills(b, e, sim.fills);
    WriteOk(b, ab);
    WriteOk(Write(b, ab), ca);
    WriteOk(Write(Write(b, ab), ca), bc);
    FollowsTransitive(b, Write(b, ab), Write(Write(b, ab), ca));
    FollowsTransitive(b, Write(Write(b, ab), ca), WriteFills(b, e, sim.fills));
  }

  lemma CreditsOk(b: Book, t: Triangle, f: FillResult)
    requires WellFormed(b) && t.a in b.tokens && t.b in b.tokens && t.c in b.tokens
    ensures var b' := Credit(Credit(Credit(b, t.a, f.surplusA), t.b, f.surplusB), t.c, f.surplusC);
      WellFormed(b') && Follows(b, b') && b'.orders == b.orders && b'.fifo == b.fifo
  {
    CreditOk(b, t.a, f.surplusA);
    CreditOk(Credit(b, t.a, f.surplusA), t.b, f.surplusB);
    CreditOk(Credit(Credit(b, t.a, f.surplusA), t.b, f.surplusB), t.c, f.surplusC);
  }

  /** Three writes change exactly the three orders and use up requested units. */
  lemma WriteFillsOk(b: Book, feed: Feed, e: CycleEntry, sim: CycleSimulation)
    requires WellFormed(b) && EntryOk(b, e) && Simulates(b, feed, e, sim)
    ensures var b' := WriteFills(b, e, sim.fills);
      && WellFormed(b') && Follows(b, b')
      && SumOver(b'.orders, Remaining()) < SumOver(b.orders, Remaining())
      && (forall id :: id in b.orders ==> (b'.orders[id] != b.orders[id] <==> id in {e.orderAB, e.orderBC, e.orderCA}))
  {
    hide SimulateFullCycle;
    ExecuteSteps(b, feed, e, sim);
    var (ab, ca, bc) := Fills(b, e, sim.fills);
    hide WellFormed;
    hide Follows;
    hide DropFilled;
    WriteSum(b, ab, Remaining());
    WriteSum(Write(b, ab), ca, Remaining());
    WriteSum(Write(Write(b, ab), ca), bc, Remaining());
    ThreeChanged(b.orders, ab, ca, bc);
  }

  lemma ThreeChanged(orders: Orders, x: Order, y: Order, z: Order)
    requires x.id in orders && y.id in orders && z.id in orders && x.id != y.id && y.id != z.id && x.id != z.id
    requires orders[x.id] != x && orders[y.id] != y && orders[z.id] != z
    ensures var orders' := orders[x.id := x][y.id := y][z.id := z];
      forall id :: id in orders ==> (orders'[id] != orders[id] <==> id in {x.id, y.id, z.id})
  {}

  /** Executing an entry keeps the book well-formed, changes exactly its three orders and uses up requested units. */
  lemma ExecuteOk(b: Book, feed: Feed, e: CycleEntry, sim: CycleSimulation)
    requires WellFormed(b) && EntryOk(b, e) && Simulates(b, feed, e, sim)
    ensures var b' := Execute(b, e, sim.fills);
      && WellFormed(b') && Follows(b, b')
      && TotalRemaining(b') < TotalRemaining(b)
      && (forall id :: id in b.orders ==> (b'.orders[id] != b.orders[id] <==> id in {e.orderAB, e.orderBC, e.orderCA}))
  {
    WriteFillsOk(b, feed, e, sim);
    var b3 := WriteFills(b, e, sim.fills);
    assert e.triangle.a in b.tokens && e.triangle.b in b.tokens && e.triangle.c in b.tokens;
    CreditsOk(b3, e.triangle, sim.fills);
    FollowsTransitive(b, b3, Execute(b, e, sim.fills));
    hide SimulateFullCycle;
    hide WellFormed;
    hide WriteFills;
    hide Credit;
    hide Follows;
  }

  /** What executing an entry leaves: each order filled as simulated, exactly the surpluses credited, completed orders gone. */
  lemma ExecuteEffect(b: Book, feed: Feed, e: CycleEntry, sim: CycleSimulation, t: TokenId)
    requires WellFormed(b) && EntryOk(b, e) && Simulates(b, feed, e, sim)
    ensures var (b', f) := (Execute(b, e, sim.fills), sim.fills);
      && b'.orders.Keys == b.orders.Keys
      && b'.orders[e.orderAB].requestedRemaining == b.orders[e.orderAB].requestedRemaining - f.fillB
      && b'.orders[e.orderBC].requestedRemaining == b.orders[e.orderBC].requestedRemaining - f.fillC
      && b'.orders[e.orderCA].requestedRemaining == b.orders[e.orderCA].requestedRemaining - f.fillA
      && (forall id :: id in b'.fifo <==> id in b.fifo && 0 < b'.orders[id].requestedRemaining)
      && BalanceAt(b'.balances, t) == BalanceAt(b.balances, t) + (if t == e.triangle.a then f.surplusA else 0)
         + (if t == e.triangle.b then f.surplusB else 0) + (if t == e.triangle.c then f.surplusC else 0)
  {
    ExecuteOk(b, feed, e, sim);
    ExecutedFills(b, feed, e, sim);
    CreditsAt(WriteFills(b, e, sim.fills), e.triangle, sim.fills, t);
    var b' := Execute(b, e, sim.fills);
    assert forall id :: id in b.fifo && id in b'.orders && b'.orders[id].IsActive() ==> id in b'.fifo;
    hide SimulateFullCycle;
    hide Write;
    hide WriteFills;
    hide Deposit;
  }

  lemma ExecutedFills(b: Book, feed: Feed, e: CycleEntry, sim: CycleSimulation)
    requires WellFormed(b) && EntryOk(b, e) && Simulates(b, feed, e, sim)
    ensures var (b', f) := (WriteFills(b, e, sim.fills), sim.fills);
      && b'.orders.Keys == b.orders.Keys && b'.balances == b.balances
      && b'.orders[e.orderAB].requestedRemaining == b.orders[e.orderAB].requestedRemaining - f.fillB
      && b'.orders[e.orderBC].requestedRemaining == b.orders[e.orderBC].requestedRemaining - f.fillC
      && b'.orders[e.orderCA].requestedRemaining == b.orders[e.orderCA].requestedRemaining - f.fillA
  {
    hide SimulateFullCycle;
    hide SimulateCycle;
    ExecutionMatchesSimulation(b, feed, e, sim);
    hide Order.OfferedFor;
    hide DropFilled;
  }

  lemma CreditsAt(b: Book, tri: Triangle, f: FillResult, t: TokenId)
    ensures var b' := Credit(Credit(Credit(b, tri.a, f.surplusA), tri.b, f.surplusB), tri.c, f.surplusC);
      BalanceAt(b'.balances, t) == BalanceAt(b.balances, t) + (if t == tri.a then f.surplusA else 0)
        + (if t == tri.b then f.surplusB else 0) + (if t == tri.c then f.surplusC else 0)
  {
    var m1 := Deposit(b.balances, tri.a, f.surplusA);
    DepositAt(b.balances, tri.a, f.surplusA, t);
    DepositAt(m1, tri.b, f.surplusB, t);
    DepositAt(Deposit(m1, tri.b, f.surplusB), tri.c, f.surplusC, t);
    hide Deposit;
    hide BalanceAt;
  }

  /** The token on which a cycle may fall short. */
  function ClosingToken(t: Triangle, bottleneck: Bottleneck): TokenId
  {
    match bottleneck case LegAB => t.b case LegBC => t.c case LegCA => t.a
  }

  ghost function ShortfallOf(b: Book, e: CycleEntry, sim: CycleSimulation): Amount
    requires WellFormed(b) && EntryOk(b, e)
  {
    Shortfall(b.orders[e.orderAB], b.orders[e.orderBC], b.orders[e.orderCA], sim.bottleneck, sim.fills)
  }

  /** What an order adds to the releases and receipts of `t` when it is filled by `f` units. */
  lemma WriteLedger(o: Order, o': Order, f: Amount, t: TokenId)
    requires o.Valid() && FilledFrom(o, o') && f == FillBetween(o, o')
    ensures ReleasedOf(t)(o') - ReleasedOf(t)(o) >= if o.offeredToken == t then o.OfferedFor(f) else 0
    ensures NetOf(t)(o') - NetOf(t)(o)
      >= (if o.offeredToken == t then o.OfferedFor(f) else 0) - (if o.requestedToken == t then f else 0)
  {
    FillReleases(o, o', t);
  }

  /** How the three writes of an execution move a per-order measure. */
  lemma ExecuteSum(b: Book, feed: Feed, e: CycleEntry, sim: CycleSimulation, g: Order -> int)
    requires WellFormed(b) && EntryOk(b, e) && Simulates(b, feed, e, sim)
    ensures var (ab, ca, bc) := Fills(b, e, sim.fills);
      SumOver(Execute(b, e, sim.fills).orders, g) - SumOver(b.orders, g)
        == (g(ab) - g(b.orders[e.orderAB])) + (g(ca) - g(b.orders[e.orderCA])) + (g(bc) - g(b.orders[e.orderBC]))
  {
    hide SimulateFullCycle;
    ExecuteSteps(b, feed, e, sim);
    var (ab, ca, bc) := Fills(b, e, sim.fills);
    hide WellFormed;
    hide Follows;
    hide DropFilled;
    WriteSum(b, ab, g);
    WriteSum(Write(b, ab), ca, g);
    WriteSum(Write(Write(b, ab), ca), bc, g);
  }

  /** Each leg of an execution, seen from token `t`: what the measures of its order gain. */
  lemma ExecuteLegs(b: Book, feed: Feed, e: CycleEntry, sim: CycleSimulation, t: TokenId)
    requires WellFormed(b) && EntryOk(b, e) && Simulates(b, feed, e, sim)
    ensures var (x, y, z, f) := (b.orders[e.orderAB], b.orders[e.orderBC], b.orders[e.orderCA], sim.fills);
      var (ab, ca, bc) := Fills(b, e, f);
      var (ra, rb, rc) := ReleasesOf(x, y, z, f);
      var tri := e.triangle;
      && ReleasedOf(t)(ab) - ReleasedOf(t)(x) >= (if tri.a == t then ra else 0)
      && ReleasedOf(t)(bc) - ReleasedOf(t)(y) >= (if tri.b == t then rb else 0)
      && ReleasedOf(t)(ca) - ReleasedOf(t)(z) >= (if tri.c == t then rc else 0)
      && NetOf(t)(ab) - NetOf(t)(x) >= (if tri.a == t then ra else 0) - (if tri.b == t then f.fillB else 0)
      && NetOf(t)(bc) - NetOf(t)(y) >= (if tri.b == t then rb else 0) - (if tri.c == t then f.fillC else 0)
      && NetOf(t)(ca) - NetOf(t)(z) >= (if tri.c == t then rc else 0) - (if tri.a == t then f.fillA else 0)
  {
    hide SimulateFullCycle;
    hide SimulateCycle;
    hide NetOf;
    hide ReleasedOf;
    hide CalculateOutput;
    ExecutionMatchesSimulation(b, feed, e, sim);
    var (ab, ca, bc) := Fills(b, e, sim.fills);
    WriteLedger(b.orders[e.orderAB], ab, sim.fills.fillB, t);
    WriteLedger(b.orders[e.orderCA], ca, sim.fills.fillA, t);
    WriteLedger(b.orders[e.orderBC], bc, sim.fills.fillC, t);
  }

  /**
   * Over any cycle, credits on a token are covered by what it nets, up to the shortfall on the closing token; they
   * never exceed what it releases.
   */
  lemma ExecuteLedger(b: Book, feed: Feed, e: CycleEntry, sim: CycleSimulation, t: TokenId)
    requires WellFormed(b) && EntryOk(b, e) && Simulates(b, feed, e, sim)
    ensures var b' := Execute(b, e, sim.fills);
      var credited := BalanceAt(b'.balances, t) - BalanceAt(b.balances, t);
      && credited <= SumOver(b'.orders, ReleasedOf(t)) - SumOver(b.orders, ReleasedOf(t))
      && credited <= SumOver(b'.orders, NetOf(t)) - SumOver(b.orders, NetOf(t))
                     + (if t == ClosingToken(e.triangle, sim.bottleneck) then ShortfallOf(b, e, sim) else 0)
  {
    hide SimulateFullCycle;
    hide SimulateCycle;
    hide NetOf;
    hide ReleasedOf;
    hide Execute;
    hide Deposit;
    hide Fills;
    hide CalculateOutput;
    ExecutionMatchesSimulation(b, feed, e, sim);
    hide Simulates;
    ExecuteSum(b, feed, e, sim, ReleasedOf(t));
    ExecuteSum(b, feed, e, sim, NetOf(t));
    ExecuteLegs(b, feed, e, sim, t);
    CycleLedger(b.orders[e.orderAB], b.orders[e.orderBC], b.orders[e.orderCA], sim.bottleneck);
    CreditsSum(b.balances, e.triangle, sim.fills, t);
    ExecuteBalances(b, e, sim.fills);
    hide WellFormed;
  }

  lemma ExecuteBalances(b: Book, e: CycleEntry, f: FillResult)
    requires WellFormed(b) && EntryOk(b, e)
    ensures Execute(b, e, f).balances
      == Deposit(Deposit(Deposit(b.balances, e.triangle.a, f.surplusA), e.triangle.b, f.surplusB), e.triangle.c, f.surplusC)
  {}

  lemma CreditsSum(balances: map<TokenId, nat>, tri: Triangle, f: FillResult, t: TokenId)
    ensures BalanceAt(Deposit(Deposit(Deposit(balances, tri.a, f.surplusA), tri.b, f.surplusB), tri.c, f.surplusC), t)
      == BalanceAt(balances, t) + (if tri.a == t then f.surplusA else 0) + (if tri.b == t then f.surplusB else 0)
         + (if tri.c == t then f.surplusC else 0)
  {}

  /** Executing one entry leaves every other current entry sound and current. */
  lemma ExecuteKeepsCurrent(b: Book, feed: Feed, e: CycleEntry, sim: CycleSimulation, d: CycleEntry)
    requires WellFormed(b) && EntryOk(b, e) && Simulates(b, feed, e, sim)
    requires EntryOk(b, d) && Current(b, d)
    ensures var b' := Execute(b, e, sim.fills); WellFormed(b') && EntryOk(b', d) && Current(b', d)
  {
    ExecuteOk(b, feed, e, sim);
    ExecuteKeepsBest(b, feed, e, sim, d.triangle.AB());
    ExecuteKeepsBest(b, feed, e, sim, d.triangle.BC());
    ExecuteKeepsBest(b, feed, e, sim, d.triangle.CA());
    hide SimulateFullCycle;
    hide Execute;
    hide WellFormed;
    hide Best;
  }

  /** A best order stays best through an execution for as long as it is active. */
  lemma ExecuteKeepsBest(b: Book, feed: Feed, e: CycleEntry, sim: CycleSimulation, p: Pair)
    requires WellFormed(b) && EntryOk(b, e) && Simulates(b, feed, e, sim)
    ensures WellFormed(Execute(b, e, sim.fills))
    ensures var b' := Execute(b, e, sim.fills);
      (Best(b, p).Some? ==> b'.orders[Best(b, p).value].IsActive()) ==> Best(b', p) == Best(b, p)
  {
    hide SimulateFullCycle;
    ExecuteOk(b, feed, e, sim);
    ExecuteSteps(b, feed, e, sim);
    var (ab, ca, bc) := Fills(b, e, sim.fills);
    var (b1, b2) := (Write(b, ab), Write(Write(b, ab), ca));
    WriteKeepsBest(b, ab, p);
    WriteKeepsBest(b1, ca, p);
    WriteKeepsBest(b2, bc, p);
    hide WellFormed;
    hide BestIn;
  }

  /** The best order of a pair outside the executed triangle is untouched. */
  lemma BestUntouched(b: Book, feed: Feed, e: CycleEntry, sim: CycleSimulation, p: Pair)
    requires WellFormed(b) && EntryOk(b, e) && Simulates(b, feed, e, sim)
    requires p !in e.triangle.Pairs()
    ensures WellFormed(Execute(b, e, sim.fills))
    ensures Best(Execute(b, e, sim.fills), p) == Best(b, p)
    ensures Best(b, p).Some? ==> Execute(b, e, sim.fills).orders[Best(b, p).value] == b.orders[Best(b, p).value]
  {
    hide SimulateFullCycle;
    hide Execute;
    hide BestIn;
    ExecuteOk(b, feed, e, sim);
    ExecuteKeepsBest(b, feed, e, sim, p);
  }

  /** A triangle that shares no pair with the executed one is rebuilt exactly as before. */
  lemma ExecuteUnaffected(b: Book, feed: Feed, e: CycleEntry, sim: CycleSimulation, t: Triangle)
    requires WellFormed(b) && EntryOk(b, e) && Simulates(b, feed, e, sim)
    requires t.Pairs() !! e.triangle.Pairs()
    ensures WellFormed(Execute(b, e, sim.fills))
    ensures TryBuild(Execute(b, e, sim.fills), feed, t) == TryBuild(b, feed, t)
  {
    hide SimulateFullCycle;
    hide Execute;
    hide Unprofitable;
    hide BestIn;
    assert t.AB() !in e.triangle.Pairs() && t.BC() !in e.triangle.Pairs() && t.CA() !in e.triangle.Pairs();
    BestUntouched(b, feed, e, sim, t.AB());
    BestUntouched(b, feed, e, sim, t.BC());
    BestUntouched(b, feed, e, sim, t.CA());
  }
}
