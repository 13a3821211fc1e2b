/** When the preferred ceiling is the least cost on the lattice that reaches the target. */
module CeilingCost {
  import opened Wrappers
  import opened Lattice
  import opened Orders

  /** Some lattice size costs exactly this much. */
  ghost predicate IsLatticeCost(p: int, cost: int)
    requires PriceInRange(p)
  {
    exists size :: Divides(SizeMultiple(p), size) && VenueExact(p, size, cost)
  }

  /** The least cost on the whole lattice that reaches the target. */
  ghost predicate IsLeastCoveringCost(inp: BuyInput, cost: int)
    requires PriceInRange(inp.priceTicks)
  {
    && IsLatticeCost(inp.priceTicks, cost) && cost >= inp.targetCents
    && (forall c :: IsLatticeCost(inp.priceTicks, c) && c >= inp.targetCents ==> cost <= c)
  }

  /** Least number of lattice steps whose cost reaches the target. */
  function CoveringSteps(inp: BuyInput): int
    requires PriceInRange(inp.priceTicks)
  {
    StepCost(inp.priceTicks);
    var unit := CostStep(inp.priceTicks);
    inp.targetCents / unit + if inp.targetCents % unit > 0 then 1 else 0
  }

  /** The lattice costs are the multiples of one step's cost. */
  lemma LatticeCosts(p: int, n: int, cost: int)
    requires PriceInRange(p)
    ensures VenueExact(p, n * SizeMultiple(p), n * CostStep(p)) && IsLatticeCost(p, n * CostStep(p))
    ensures IsLatticeCost(p, cost) ==> Divides(CostStep(p), cost)
  {
    StepCost(p);
    ScaledStep(p, SizeMultiple(p), CostStep(p), n);
    assert Divides(SizeMultiple(p), n * SizeMultiple(p));
    if IsLatticeCost(p, cost) {
      var size :| Divides(SizeMultiple(p), size) && VenueExact(p, size, cost);
      var k :| size == k * SizeMultiple(p);
      ScaledStep(p, SizeMultiple(p), CostStep(p), k);
      assert cost == k * CostStep(p);
    }
  }

  /** Ceiling division gives the least factor that reaches a number. */
  lemma LeastFactor(n: int, d: int, k: int)
    requires d > 0
    ensures k * d >= n <==> k >= n / d + if n % d > 0 then 1 else 0
  {
    var q, r := n / d, n % d;
    assert n == q * d + r;
    NoMultipleBetween(k, q, d);
    NoMultipleBetween(q, k, d);
    NoMultipleBetween(k, q + 1, d);
    assert (q + 1) * d == q * d + d;
  }

  lemma LeastCoveringCost(inp: BuyInput)
    requires PriceInRange(inp.priceTicks)
    ensures IsLeastCoveringCost(inp, CoveringSteps(inp) * CostStep(inp.priceTicks))
  {
    var p, n := inp.priceTicks, CoveringSteps(inp);
    StepCost(p);
    LatticeCosts(p, n, 0);
    LeastFactor(inp.targetCents, CostStep(p), n);
    forall c | IsLatticeCost(p, c) && c >= inp.targetCents
      ensures n * CostStep(p) <= c
    {
      LatticeCosts(p, n, c);
      var k :| c == k * CostStep(p);
      LeastFactor(inp.targetCents, CostStep(p), k);
      NoMultipleBetween(n, k, CostStep(p));
    }
  }

  /** On bare lattice points: the ceiling's cost is at most another's exactly when its size is. */
  lemma CostOrder(p: int, s1: int, c1: int, s2: int, c2: int)
    requires p > 0 && VenueExact(p, s1, c1) && VenueExact(p, s2, c2)
    ensures c1 <= c2 <==> s1 <= s2
  {
    CostMonotone(p, s1, c1, s2, c2);
    CostMonotone(p, s2, c2, s1, c1);
  }

  /** A lattice size reaches the raw size exactly when it reaches the ceiling. */
  lemma ReachesCeiling(inp: BuyInput, n: int)
    requires Affordable(inp)
    ensures n * SizeMultiple(inp.priceTicks) >= RawSize(inp) <==> n * SizeMultiple(inp.priceTicks) >= CeilSize(inp)
  {
    RawSizeCovers(inp);
    ReachesCeilingOf(RawSize(inp), SizeMultiple(inp.priceTicks), n);
  }

  lemma ReachesCeilingOf(raw: int, mult: int, n: int)
    requires mult > 0 && raw >= 0
    ensures n * mult >= raw <==> n * mult >= CeilToMultiple(raw, mult)
  {
    SnapNeighbours(raw, mult);
    assert Divides(mult, n * mult);
  }

  /** The ceiling costs the least that reaches the target exactly when the least covering number of
      steps is also large enough for the rounded raw size. */
  lemma CeilingIsLeastCostExactlyWhen(inp: BuyInput) returns (ceilMaker: int)
    requires Affordable(inp)
    ensures MakerCentsFor(inp.priceTicks, CeilSize(inp)) == Some(ceilMaker)
    ensures IsLeastCoveringCost(inp, ceilMaker)
            <==> CoveringSteps(inp) * SizeMultiple(inp.priceTicks) >= RawSize(inp)
  {
    var p, n := inp.priceTicks, CoveringSteps(inp);
    var floorMaker;
    floorMaker, ceilMaker := NeighbourCosts(inp);
    LatticeCosts(p, n, 0);
    LeastCoveringCost(inp);
    CeilingOnLattice(inp, ceilMaker);
    ReachesCeiling(inp, n);
    CostOrder(p, CeilSize(inp), ceilMaker, n * SizeMultiple(p), n * CostStep(p));
    SameLeast(inp, ceilMaker, n * CostStep(p));
  }

  lemma CeilingOnLattice(inp: BuyInput, ceilMaker: int)
    requires Affordable(inp) && VenueExact(inp.priceTicks, CeilSize(inp), ceilMaker)
    ensures IsLatticeCost(inp.priceTicks, ceilMaker)
  {
    RawSizeCovers(inp);
    SnapNeighbours(RawSize(inp), SizeMultiple(inp.priceTicks));
  }

  /** A covering lattice cost is the least exactly when it is at most the least. */
  lemma SameLeast(inp: BuyInput, cost: int, least: int)
    requires PriceInRange(inp.priceTicks) && IsLeastCoveringCost(inp, least)
    requires IsLatticeCost(inp.priceTicks, cost) && cost >= inp.targetCents
    ensures IsLeastCoveringCost(inp, cost) <==> cost <= least
  {
  }

  /** That is so for every target when the size step is whole hundredths of a share. */
  lemma WholeHundredthsSuffice(inp: BuyInput)
    requires PriceInRange(inp.priceTicks) && SizeMultiple(inp.priceTicks) % 100 == 0
    ensures CoveringSteps(inp) * SizeMultiple(inp.priceTicks) >= RawSize(inp)
  {
    var p, n := inp.priceTicks, CoveringSteps(inp);
    var t := n * (SizeMultiple(p) / 100);
    assert n * SizeMultiple(p) == t * 100 by {
      assert SizeMultiple(p) == SizeMultiple(p) / 100 * 100;
      RegroupStep(n, SizeMultiple(p) / 100, 100);
    }
    StepCost(p);
    LatticeCosts(p, n, 0);
    LeastFactor(inp.targetCents, CostStep(p), n);
    CoversTarget(p, t, n * CostStep(p), inp.targetCents);
    LeastFactor(inp.targetCents * 100, p, t);
  }

  lemma CoversTarget(p: int, t: int, cost: int, target: int)
    requires cost >= target && p * (t * 100) == cost * MAKER_DENOM
    ensures t * p >= target * 100
  {
    assert p * (t * 100) == (t * p) * 100;
  }

  lemma Expand(q: int, a: int, k: int, r: int, m: int)
    requires q == a * k + r
    ensures q * m == a * (k * m) + r * m
  {
    assert (a * k) * m == a * (k * m);
  }

  /** Cancelling an odd factor from a multiple of 4. */
  lemma OddCancels(q: int, m: int, t: int)
    requires q % 2 == 1 && q * m == 4 * t
    ensures m % 4 == 0
  {
    var k, r := q / 4, q % 4;
    Expand(q, 4, k, r, m);
    OddStep(r, m, k * m, t, r * m);
  }

  lemma OddStep(r: int, m: int, km: int, t: int, rm: int)
    requires (r == 1 && rm == 1 * m) || (r == 3 && rm == 3 * m)
    requires 4 * km + rm == 4 * t
    ensures m % 4 == 0
  {
    assert m == if r == 1 then 4 * (t - km) else 4 * (m - t + km);
  }

  /** Cancelling a factor prime to 5 from a multiple of 5. */
  lemma FiveStep(q: int, m: int, t: int)
    requires q % 5 != 0 && q * m == 5 * t
    ensures m % 5 == 0
  {
    var k, r := q / 5, q % 5;
    Expand(q, 5, k, r, m);
    FiveResidue(r, m, t - k * m, r * m);
  }

  lemma FiveResidue(r: int, m: int, t: int, rm: int)
    requires (r == 1 && rm == 1 * m) || (r == 2 && rm == 2 * m) || (r == 3 && rm == 3 * m) || (r == 4 && rm == 4 * m)
    requires rm == 5 * t
    ensures m % 5 == 0
  {
    assert m == 5 * if r == 1 then t else if r == 2 then m - 2 * t else if r == 3 then 2 * t - m else m - t;
  }

  lemma FiveCancels(q: int, m: int, t: int)
    requires q % 5 != 0 && q * m == 25 * t
    ensures m % 25 == 0
  {
    FiveStep(q, m, 5 * t);
    Fifth(q, m / 5, 5 * t);
    FiveStep(q, m / 5, t);
  }

  lemma Fifth(q: int, m: int, t: int)
    requires q * (m * 5) == 5 * t
    ensures q * m == t
  {
    assert q * (m * 5) == (q * m) * 5;
  }

  lemma Cancels(c: int, x: int, t: int)
    requires c > 0 && c * x == c * t
    ensures x == t
  {
    assert c * (x - t) == 0;
  }

  lemma TwoPartOf(p: int, c: int, q: int, m: int, n: int)
    requires p == c * q && c > 0 && q % 2 == 1 && p * m == c * (4 * n)
    ensures m % 4 == 0
  {
    RegroupStep(c, q, m);
    Cancels(c, q * m, 4 * n);
    OddCancels(q, m, n);
  }

  /** A price that 8 does not divide leaves two factors of 2 to the size step. */
  lemma TwoPart(p: int, m: int, t: int)
    requires p % 8 != 0 && p * m == 16 * t
    ensures m % 4 == 0
  {
    if p % 2 == 1 {
      OddCancels(p, m, 4 * t);
    } else if p % 4 == 2 {
      TwoPartOf(p, 2, p / 2, m, 2 * t);
    } else {
      TwoPartOf(p, 4, p / 4, m, t);
    }
  }

  /** A price below 125 leaves two factors of 5 to the size step. */
  lemma FivePart(p: int, m: int, t: int)
    requires PriceInRange(p) && p * m == 625 * t
    ensures m % 25 == 0
  {
    if p % 5 != 0 {
      FiveCancels(p, m, 25 * t);
    } else if p % 25 != 0 {
      RegroupStep(5, p / 5, m);
      FiveCancels(p / 5, m, 5 * t);
    } else {
      RegroupStep(25, p / 25, m);
      FiveCancels(p / 25, m, t);
    }
  }

  lemma HundredFactors(m: int, a: int, b: int)
    requires m == 4 * a && m == 25 * b
    ensures m % 100 == 0
  {
    assert m == 100 * (a - 6 * b);
  }

  /** The size step is whole hundredths exactly when 8 does not divide the price. */
  lemma WholeHundredthsExactlyWhen(p: int)
    requires PriceInRange(p)
    ensures SizeMultiple(p) % 100 == 0 <==> p % 8 != 0
  {
    if p % 8 != 0 {
      SizeStepFactors(p, SizeMultiple(p), CostStep(p));
    } else {
      EightInCommon(p);
    }
  }

  lemma SizeStepFactors(p: int, m: int, unit: int)
    requires PriceInRange(p) && p % 8 != 0 && m == SizeMultiple(p) && unit == CostStep(p)
    ensures m % 100 == 0
  {
    StepCost(p);
    TwoPart(p, m, unit * 625);
    FivePart(p, m, unit * 16);
    HundredFactors(m, m / 4, m / 25);
  }

  lemma EightInCommon(p: int)
    requires PriceInRange(p) && p % 8 == 0
    ensures SizeMultiple(p) % 100 != 0
  {
    var g, m := Gcd(p, MAKER_DENOM), SizeMultiple(p);
    GcdIsGreatest(p, MAKER_DENOM);
    assert p == (p / 8) * 8 && MAKER_DENOM == 1_250 * 8;
    assert Divides(8, p) && Divides(8, MAKER_DENOM);
    var j :| g == j * 8;
    assert m % 100 == 0 ==> m == (m / 100) * 100;
    TooManyFactors(m / 100, j);
  }

  lemma TooManyFactors(k: int, j: int)
    ensures (k * 100) * (j * 8) != MAKER_DENOM
  {
    assert (k * 100) * (j * 8) == (k * j) * 800;
  }

  /** So at every price that 8 does not divide, the ceiling costs the least that reaches the target. */
  lemma CeilingIsLeastCostOffEights(inp: BuyInput) returns (ceilMaker: int)
    requires Affordable(inp) && inp.priceTicks % 8 != 0
    ensures MakerCentsFor(inp.priceTicks, CeilSize(inp)) == Some(ceilMaker) && IsLeastCoveringCost(inp, ceilMaker)
  {
    ceilMaker := CeilingIsLeastCostExactlyWhen(inp);
    WholeHundredthsExactlyWhen(inp.priceTicks);
    WholeHundredthsSuffice(inp);
  }

  /** The ceiling is preferred to a lattice size that hits the target exactly: at 16 ticks a
      101-cent target is answered with 102 cents although 101 cents is a venue-valid cost. */
  lemma CeilingIsNotTheNearestCost()
    ensures var inp := BuyInput(16, 101, 100, 100, 1, 0);
            && Affordable(inp)
            && CanonicalBuy(inp) == Ok(BuyTarget(63_750, 102))
            && VenueValid(inp, 63_125, 101)
            && !IsLeastCoveringCost(inp, 102)
  {
    assert Gcd(16, 10_000) == Gcd(10_000, 16) == Gcd(16, 0) == 16;
    assert 63_125 == 101 * SizeMultiple(16);
    assert Divides(SizeMultiple(16), 63_125) && VenueExact(16, 63_125, 101);
    assert IsLatticeCost(16, 101);
  }
}
