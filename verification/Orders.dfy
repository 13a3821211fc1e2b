/** Canonical BUY and SELL parameters: which venue-valid size a target notional becomes. */
module Orders {
  import opened Wrappers
  import opened MachineInt
  import opened Lattice

  datatype BuyInput = BuyInput(
    priceTicks: int,
    targetCents: int,
    minSize: int,
    minMakerCents: int,
    maxOverrunCents: int,
    maxOverrunBps: int)

  datatype BuyTarget = BuyTarget(size: int, makerCents: int)

  datatype BuyError =
    | PriceOutOfRange(ticks: int)
    | RawSizeBelowMin(priceTicks: int, rawSize: int, minSize: int)
    | NoValidSizeWithinNotionalBounds(
        priceTicks: int, targetCents: int, maxAllowedCents: int, minMakerCents: int,
        floor: Option<(int, int)>, ceil: Option<(int, int)>)

  predicate PriceInRange(ticks: int) {
    MIN_PRICE_TICK <= ticks <= MAX_PRICE_TICK
  }

  /** Least number of 0.01-share steps covering the target, in 0.0001-share units. */
  function RawSize(inp: BuyInput): int
    requires PriceInRange(inp.priceTicks)
  {
    var numer := inp.targetCents * 100;
    (numer / inp.priceTicks + if numer % inp.priceTicks > 0 then 1 else 0) * 100
  }

  function MaxAllowedCents(inp: BuyInput): int {
    inp.targetCents
    + Max(inp.maxOverrunCents, TruncDiv(SatMul(inp.targetCents, inp.maxOverrunBps), 10_000))
  }

  /** The inputs on which the 64-bit code neither panics nor overflows, and on which CanonicalBuy
      therefore is the code. A price outside the venue range is rejected before any arithmetic. */
  ghost predicate Representable(inp: BuyInput) {
    PriceInRange(inp.priceTicks) ==>
      && FitsI64(inp.targetCents * 100)
      && FitsI64(RawSize(inp))
      && (RawSize(inp) >= inp.minSize ==> FitsI64(CeilSize(inp)) && FitsI64(MaxAllowedCents(inp)))
  }

  predicate InBand(inp: BuyInput, makerCents: int) {
    inp.minMakerCents <= makerCents <= MaxAllowedCents(inp)
  }

  function FloorSize(inp: BuyInput): int
    requires PriceInRange(inp.priceTicks)
  {
    FloorToMultiple(RawSize(inp), SizeMultiple(inp.priceTicks))
  }

  function CeilSize(inp: BuyInput): int
    requires PriceInRange(inp.priceTicks)
  {
    CeilToMultiple(RawSize(inp), SizeMultiple(inp.priceTicks))
  }

  function WithSize(size: int, maker: Option<int>): Option<(int, int)> {
    match maker
    case None => None
    case Some(m) => Some((size, m))
  }

  /** Ceiling when in band, else floor when in band, else the ceiling that still meets the minima. */
  function CanonicalBuy(inp: BuyInput): Result<BuyTarget, BuyError>
  {
    var p := inp.priceTicks;
    if !PriceInRange(p) then Err(PriceOutOfRange(p))
    else if RawSize(inp) < inp.minSize then Err(RawSizeBelowMin(p, RawSize(inp), inp.minSize))
    else
      var floorMaker := MakerCentsFor(p, FloorSize(inp));
      var ceilMaker := MakerCentsFor(p, CeilSize(inp));
      var ceilOk := ceilMaker.Some? && ceilMaker.value >= inp.minMakerCents && CeilSize(inp) >= inp.minSize;
      if ceilOk && InBand(inp, ceilMaker.value) then
        Ok(BuyTarget(CeilSize(inp), ceilMaker.value))
      else if floorMaker.Some? && InBand(inp, floorMaker.value) && FloorSize(inp) >= inp.minSize then
        Ok(BuyTarget(FloorSize(inp), floorMaker.value))
      else if ceilOk then
        Ok(BuyTarget(CeilSize(inp), ceilMaker.value))
      else
        Err(NoValidSizeWithinNotionalBounds(
              p, inp.targetCents, MaxAllowedCents(inp), inp.minMakerCents,
              WithSize(FloorSize(inp), floorMaker), WithSize(CeilSize(inp), ceilMaker)))
  }

  // --------------------------------------------------- what the choice guarantees

  /** Cents that one step of the size lattice costs. */
  function CostStep(p: int): int
    requires PriceInRange(p)
  {
    GcdPositive(p);
    p / Gcd(p, MAKER_DENOM)
  }

  ghost predicate VenueExact(p: int, size: int, maker: int) {
    maker * MAKER_DENOM == p * size
  }

  /** A venue-valid BUY: on the size lattice, exact whole cents, at least the minimum size. */
  ghost predicate VenueValid(inp: BuyInput, size: int, maker: int)
    requires PriceInRange(inp.priceTicks)
  {
    && Divides(SizeMultiple(inp.priceTicks), size)
    && VenueExact(inp.priceTicks, size, maker)
    && size >= inp.minSize
  }

  /** The documented overrun: so many cents over the target, or so many hundredths of a percent of it,
      whichever allows more; the proportional part is a 64-bit product, rounded toward zero. */
  ghost predicate WithinOverrun(inp: BuyInput, cents: int) {
    var over, part := cents - inp.targetCents, Saturate(inp.targetCents * inp.maxOverrunBps);
    || over <= inp.maxOverrunCents
    || (if part >= 0 then over * 10_000 <= part else (over - 1) * 10_000 < part)
  }

  /** From the maker minimum to the target plus the documented overrun. */
  ghost predicate InRiskBand(inp: BuyInput, makerCents: int) {
    inp.minMakerCents <= makerCents && WithinOverrun(inp, makerCents)
  }

  /** The allowed maximum is the greatest cost within the documented overrun, for every input. */
  lemma AllowedMaximum(inp: BuyInput, cents: int)
    ensures cents <= MaxAllowedCents(inp) <==> WithinOverrun(inp, cents)
    ensures InBand(inp, cents) <==> InRiskBand(inp, cents)
  {
  }

  /** Two percent of two and a half dollars is five cents, so 297 is refused and 198 ordered. */
  lemma OverrunInBasisPoints()
    ensures var inp := BuyInput(99, 250, 100, 100, 1, 200);
            MaxAllowedCents(inp) == 255 && CanonicalBuy(inp) == Ok(BuyTarget(20_000, 198))
  {
    assert Gcd(99, 10_000) == Gcd(10_000, 99) == Gcd(99, 1) == Gcd(1, 0) == 1;
  }

  /** Some venue-valid size, over the whole infinite lattice, has its cost in the risk band. */
  ghost predicate BandReachable(inp: BuyInput)
    requires PriceInRange(inp.priceTicks)
  {
    exists size, maker :: VenueValid(inp, size, maker) && InRiskBand(inp, maker)
  }

  /** A price in range, a target that is not negative, and a price of the covering size and an
      allowed maximum inside 64 bits. */
  predicate Affordable(inp: BuyInput) {
    && PriceInRange(inp.priceTicks) && inp.targetCents >= 0
    && FitsI64(inp.priceTicks * CeilSize(inp)) && FitsI64(MaxAllowedCents(inp))
  }

  /** A target whose ten-thousandfold fits 64 bits with room for one step of rounding: anything up to
      some nine trillion dollars. */
  predicate TargetFits(targetCents: int) {
    0 <= targetCents && FitsI64(targetCents * MAKER_DENOM + 1_000_000)
  }

  /** Ceiling division by a positive price, and what it costs. */
  lemma CeilingDivision(n: int, p: int)
    requires p > 0
    ensures n <= p * (n / p + if n % p > 0 then 1 else 0) < n + p
  {
    assert n == p * (n / p) + n % p;
    assert p * (n / p + 1) == p * (n / p) + p;
  }

  lemma RawSizeCovers(inp: BuyInput)
    requires PriceInRange(inp.priceTicks) && inp.targetCents >= 0
    ensures RawSize(inp) >= 0
    ensures inp.targetCents * MAKER_DENOM <= inp.priceTicks * RawSize(inp)
    ensures inp.priceTicks * RawSize(inp) < inp.targetCents * MAKER_DENOM + inp.priceTicks * 100
  {
    var p, n := inp.priceTicks, inp.targetCents * 100;
    CeilingDivision(n, p);
    RawArithmetic(p, inp.targetCents, n / p + if n % p > 0 then 1 else 0);
  }

  lemma RawArithmetic(p: int, target: int, steps: int)
    requires PriceInRange(p) && target >= 0
    requires target * 100 <= p * steps < target * 100 + p
    ensures steps >= 0
    ensures target * MAKER_DENOM <= p * (steps * 100) < target * MAKER_DENOM + p * 100
  {
    assert steps < 0 ==> p * steps < 0;
    assert p * (steps * 100) == (p * steps) * 100;
  }

  /** Every target that fits, with an allowed maximum that does, is affordable at every price. */
  lemma FittingTargetIsAffordable(inp: BuyInput)
    requires PriceInRange(inp.priceTicks) && TargetFits(inp.targetCents) && FitsI64(MaxAllowedCents(inp))
    ensures Affordable(inp)
  {
    RawSizeCovers(inp);
    SnapNeighbours(RawSize(inp), SizeMultiple(inp.priceTicks));
    RoundingFits(inp.priceTicks, inp.targetCents * MAKER_DENOM, RawSize(inp), CeilSize(inp));
  }

  /** Rounding up by less than one step adds less than a hundred dollars to the product. */
  lemma RoundingFits(p: int, target: int, raw: int, ceil: int)
    requires PriceInRange(p) && p * raw < target + p * 100
    requires 0 <= raw <= ceil < raw + MAKER_DENOM
    ensures 0 <= p * ceil <= target + 1_000_000
  {
    ScaledOrder(p, 0, ceil);
    ScaledOrder(p, ceil, raw + MAKER_DENOM);
    assert p * (raw + MAKER_DENOM) == p * raw + p * MAKER_DENOM;
  }

  /** On an affordable input no checked or unchecked step of the code leaves 64 bits. */
  lemma NeverPanics(inp: BuyInput)
    requires Affordable(inp)
    ensures Representable(inp)
  {
    var p := inp.priceTicks;
    RawSizeCovers(inp);
    SnapNeighbours(RawSize(inp), SizeMultiple(p));
    ScaledOrder(p, RawSize(inp), CeilSize(inp));
    ScaleAtLeast(p, CeilSize(inp));
  }

  /** The arithmetic of the two neighbours, on bare numbers: raw costs at least the target and
      less than a cent more, floor and ceil are less than one step away, and one step costs `unit` cents. */
  lemma NeighbourArithmetic(p: int, target: int, raw: int, mult: int, unit: int,
                            floor: int, ceil: int, floorMaker: int, ceilMaker: int)
    requires PriceInRange(p) && p * mult == unit * MAKER_DENOM
    requires target * MAKER_DENOM <= p * raw < target * MAKER_DENOM + p * 100
    requires floor <= raw <= ceil && raw - floor < mult && ceil - raw < mult
    requires floorMaker * MAKER_DENOM == p * floor && ceilMaker * MAKER_DENOM == p * ceil
    ensures floorMaker <= target <= ceilMaker
    ensures target - floorMaker < unit && ceilMaker - target <= unit
    ensures ceil == floor ==> ceilMaker == target == floorMaker
  {
    ScaledOrder(p, floor, raw);
    ScaledOrder(p, raw, ceil);
    StrictScale(p, raw - mult, floor);
    StrictScale(p, ceil, raw + mult);
    assert p * (raw - mult) == p * raw - p * mult;
    assert p * (raw + mult) == p * raw + p * mult;
  }

  /** Both lattice neighbours of the raw size cost whole cents; the floor costs at most the
      target, the ceiling at least the target, and they are one lattice step apart at most. */
  lemma NeighbourCosts(inp: BuyInput) returns (floorMaker: int, ceilMaker: int)
    requires Affordable(inp)
    ensures MakerCentsFor(inp.priceTicks, FloorSize(inp)) == Some(floorMaker)
    ensures MakerCentsFor(inp.priceTicks, CeilSize(inp)) == Some(ceilMaker)
    ensures VenueExact(inp.priceTicks, FloorSize(inp), floorMaker)
    ensures VenueExact(inp.priceTicks, CeilSize(inp), ceilMaker)
    ensures FloorSize(inp) <= RawSize(inp) <= CeilSize(inp)
    ensures floorMaker <= inp.targetCents <= ceilMaker
    ensures inp.targetCents - floorMaker < CostStep(inp.priceTicks)
    ensures ceilMaker - inp.targetCents <= CostStep(inp.priceTicks)
    ensures CeilSize(inp) == FloorSize(inp) ==> ceilMaker == inp.targetCents == floorMaker
  {
    var p, raw := inp.priceTicks, RawSize(inp);
    var mult := SizeMultiple(p);
    var floor, ceil := FloorSize(inp), CeilSize(inp);
    RawSizeCovers(inp);
    SnapNeighbours(raw, mult);
    ScaledOrder(p, floor, ceil);
    floorMaker := ExactCost(p, floor);
    ceilMaker := ExactCost(p, ceil);
    StepCost(p);
    NeighbourArithmetic(p, inp.targetCents, raw, mult, CostStep(p), floor, ceil, floorMaker, ceilMaker);
  }

  /** A lattice size whose price fits has an exact cost. */
  lemma ExactCost(p: int, size: int) returns (maker: int)
    requires PriceInRange(p) && size >= 0 && p * size <= I64_MAX
    requires Divides(SizeMultiple(p), size)
    ensures MakerCentsFor(p, size) == Some(maker) && VenueExact(p, size, maker)
  {
    ScaledOrder(p, 0, size);
    MakerCentsExactlyOnLattice(p, size);
    maker := MakerCentsFor(p, size).value;
  }

  lemma ScaledOrder(p: int, a: int, b: int)
    requires p >= 0 && a <= b
    ensures p * a <= p * b
  {
    assert p * (b - a) >= 0;
  }

  lemma StrictScale(p: int, a: int, b: int)
    requires p > 0 && a < b
    ensures p * a < p * b
  {
    ScaleAtLeast(b - a, p);
    assert (b - a) * p == p * b - p * a;
  }

  /** One lattice step costs p / gcd(p, 10000) cents: at least one, at most the price itself. */
  lemma StepCost(p: int)
    requires PriceInRange(p)
    ensures p * SizeMultiple(p) == CostStep(p) * MAKER_DENOM
    ensures 1 <= CostStep(p) <= p
  {
    GcdPositive(p);
    RegroupStep(CostStep(p), Gcd(p, MAKER_DENOM), SizeMultiple(p));
  }

  lemma RegroupStep(c: int, g: int, m: int)
    ensures (c * g) * m == c * (m * g) == c * (g * m)
  {
  }

  /** No representable BUY whose target reaches both minima is ever rejected, and its cost is
      within one lattice step, hence within 99 cents, of the target. */
  lemma NotionalBound(inp: BuyInput)
    requires Affordable(inp)
    requires inp.targetCents >= inp.minMakerCents && RawSize(inp) >= inp.minSize
    ensures CanonicalBuy(inp).Ok?
    ensures VenueValid(inp, CanonicalBuy(inp).value.size, CanonicalBuy(inp).value.makerCents)
    ensures CanonicalBuy(inp).value.makerCents >= inp.minMakerCents
    ensures Abs(CanonicalBuy(inp).value.makerCents - inp.targetCents) <= CostStep(inp.priceTicks) <= 99
  {
    var floorMaker, ceilMaker := NeighbourCosts(inp);
    StepCost(inp.priceTicks);
    RawSizeCovers(inp);
    SnapNeighbours(RawSize(inp), SizeMultiple(inp.priceTicks));
  }

  /** Sizes and costs on the lattice order the same way. */
  lemma CostMonotone(p: int, s1: int, m1: int, s2: int, m2: int)
    requires p > 0 && VenueExact(p, s1, m1) && VenueExact(p, s2, m2)
    ensures s1 <= s2 ==> m1 <= m2
    ensures s1 < s2 ==> m1 < m2
  {
    if s1 <= s2 {
      ScaledOrder(p, s1, s2);
    }
    if s1 < s2 {
      StrictScale(p, s1, s2);
    }
  }

  /** When some in-band venue-valid size exists anywhere on the lattice, one of the two
      neighbours of the raw size is in band, unless the ceiling is still below the maker minimum. */
  lemma NeighboursSuffice(inp: BuyInput, floorMaker: int, ceilMaker: int)
    requires Affordable(inp) && SomeOverrun(inp)
    requires RawSize(inp) >= inp.minSize
    requires MakerCentsFor(inp.priceTicks, FloorSize(inp)) == Some(floorMaker)
    requires MakerCentsFor(inp.priceTicks, CeilSize(inp)) == Some(ceilMaker)
    requires BandReachable(inp) && ceilMaker >= inp.minMakerCents
    ensures InRiskBand(inp, ceilMaker) || (InRiskBand(inp, floorMaker) && FloorSize(inp) >= inp.minSize)
  {
    var f, c := NeighbourCosts(inp);
    RawSizeCovers(inp);
    SnapNeighbours(RawSize(inp), SizeMultiple(inp.priceTicks));
    OverrunNonNegative(inp);
    var size, maker :| VenueValid(inp, size, maker) && InRiskBand(inp, maker);
    AllowedMaximum(inp, maker);
    AllowedMaximum(inp, floorMaker);
    AllowedMaximum(inp, ceilMaker);
    CostMonotone(inp.priceTicks, size, maker, FloorSize(inp), floorMaker);
    CostMonotone(inp.priceTicks, CeilSize(inp), ceilMaker, size, maker);
  }

  /** The two overruns are not both negative. */
  predicate SomeOverrun(inp: BuyInput) {
    inp.maxOverrunCents >= 0 || inp.maxOverrunBps >= 0
  }

  lemma OverrunNonNegative(inp: BuyInput)
    requires inp.targetCents >= 0 && SomeOverrun(inp)
    ensures MaxAllowedCents(inp) >= inp.targetCents
  {
    assert inp.maxOverrunBps >= 0 ==> inp.targetCents * inp.maxOverrunBps >= 0;
  }

  /** Band optimality, both directions: the answer is in the risk band exactly when some size
      on the whole lattice is and the ceiling meets the maker minimum. */
  lemma BandOptimality(inp: BuyInput)
    requires Affordable(inp) && SomeOverrun(inp)
    requires RawSize(inp) >= inp.minSize
    ensures (CanonicalBuy(inp).Ok? && InRiskBand(inp, CanonicalBuy(inp).value.makerCents))
            <==> (BandReachable(inp)
                  && MakerCentsFor(inp.priceTicks, CeilSize(inp)).Some?
                  && MakerCentsFor(inp.priceTicks, CeilSize(inp)).value >= inp.minMakerCents)
    ensures CanonicalBuy(inp).Ok? && !InRiskBand(inp, CanonicalBuy(inp).value.makerCents)
            ==> !BandReachable(inp)
  {
    var floorMaker, ceilMaker := NeighbourCosts(inp);
    AllowedMaximum(inp, floorMaker);
    AllowedMaximum(inp, ceilMaker);
    if BandReachable(inp) && ceilMaker >= inp.minMakerCents {
      NeighboursSuffice(inp, floorMaker, ceilMaker);
    }
    if CanonicalBuy(inp).Ok? {
      AnswerIsNeighbour(inp, floorMaker, ceilMaker);
    }
  }

  /** Every answer is one of the two neighbours, venue-valid, and no cheaper ceiling exists. */
  lemma AnswerIsNeighbour(inp: BuyInput, floorMaker: int, ceilMaker: int)
    requires Affordable(inp) && CanonicalBuy(inp).Ok?
    requires MakerCentsFor(inp.priceTicks, FloorSize(inp)) == Some(floorMaker)
    requires MakerCentsFor(inp.priceTicks, CeilSize(inp)) == Some(ceilMaker)
    ensures CanonicalBuy(inp).value == BuyTarget(CeilSize(inp), ceilMaker)
            || CanonicalBuy(inp).value == BuyTarget(FloorSize(inp), floorMaker)
    ensures VenueValid(inp, CanonicalBuy(inp).value.size, CanonicalBuy(inp).value.makerCents)
    ensures CanonicalBuy(inp).value.makerCents >= inp.minMakerCents
    ensures floorMaker <= ceilMaker
  {
    var f, c := NeighbourCosts(inp);
    RawSizeCovers(inp);
    SnapNeighbours(RawSize(inp), SizeMultiple(inp.priceTicks));
  }

  /** With a target at or above the maker minimum, an in-band size anywhere on the lattice
      forces an in-band answer. */
  lemma InBandWheneverPossible(inp: BuyInput)
    requires Affordable(inp) && SomeOverrun(inp)
    requires RawSize(inp) >= inp.minSize && inp.minMakerCents <= inp.targetCents
    ensures BandReachable(inp)
            <==> CanonicalBuy(inp).Ok? && InRiskBand(inp, CanonicalBuy(inp).value.makerCents)
  {
    var floorMaker, ceilMaker := NeighbourCosts(inp);
    BandOptimality(inp);
  }

  /** The least venue-valid size that covers the raw size. */
  ghost predicate IsLeastCovering(inp: BuyInput, size: int)
    requires PriceInRange(inp.priceTicks)
  {
    && size >= RawSize(inp)
    && (forall s, m :: VenueValid(inp, s, m) && s >= RawSize(inp) ==> size <= s)
  }

  /** The greatest venue-valid size that stays within the raw size. */
  ghost predicate IsGreatestWithin(inp: BuyInput, size: int)
    requires PriceInRange(inp.priceTicks)
  {
    && size <= RawSize(inp)
    && (forall s, m :: VenueValid(inp, s, m) && s <= RawSize(inp) ==> s <= size)
  }

  ghost predicate InBandCover(inp: BuyInput)
    requires PriceInRange(inp.priceTicks)
  {
    exists s, m :: VenueValid(inp, s, m) && s >= RawSize(inp) && InRiskBand(inp, m)
  }

  /** The order of preference, over the whole lattice: the least covering size when some covering
      size is in band; else the greatest size below when any in-band size exists; else the least
      covering size although it overshoots the band. */
  lemma PreferenceOrder(inp: BuyInput)
    requires Affordable(inp) && SomeOverrun(inp)
    requires RawSize(inp) >= inp.minSize && inp.minMakerCents <= inp.targetCents
    ensures CanonicalBuy(inp).Ok?
    ensures InBandCover(inp) || !BandReachable(inp) ==> IsLeastCovering(inp, CanonicalBuy(inp).value.size)
    ensures !InBandCover(inp) && BandReachable(inp) ==> IsGreatestWithin(inp, CanonicalBuy(inp).value.size)
  {
    var floorMaker, ceilMaker := NeighbourCosts(inp);
    NeighbourExtremes(inp);
    OverrunNonNegative(inp);
    AllowedMaximum(inp, ceilMaker);
    AllowedMaximum(inp, floorMaker);
    assert InBandCover(inp) <==> InBand(inp, ceilMaker) by {
      if InBandCover(inp) {
        var s, m :| VenueValid(inp, s, m) && s >= RawSize(inp) && InRiskBand(inp, m);
        AllowedMaximum(inp, m);
        CostMonotone(inp.priceTicks, CeilSize(inp), ceilMaker, s, m);
      }
      if InBand(inp, ceilMaker) {
        assert VenueValid(inp, CeilSize(inp), ceilMaker) by {
          RawSizeCovers(inp);
          SnapNeighbours(RawSize(inp), SizeMultiple(inp.priceTicks));
        }
      }
    }
    InBandWheneverPossible(inp);
    if CanonicalBuy(inp).Ok? {
      AnswerIsNeighbour(inp, floorMaker, ceilMaker);
    }
  }

  lemma NeighbourExtremes(inp: BuyInput)
    requires Affordable(inp)
    ensures IsLeastCovering(inp, CeilSize(inp)) && IsGreatestWithin(inp, FloorSize(inp))
  {
    var mult, raw := SizeMultiple(inp.priceTicks), RawSize(inp);
    RawSizeCovers(inp);
    SnapNeighbours(raw, mult);
    forall s | Divides(mult, s)
      ensures (s >= raw ==> CeilSize(inp) <= s) && (s <= raw ==> s <= FloorSize(inp))
    {
      NoneBetween(raw, mult, s);
    }
  }

  lemma NoneBetween(raw: int, mult: int, s: int)
    requires mult > 0 && raw >= 0 && Divides(mult, s)
    ensures s >= raw ==> CeilToMultiple(raw, mult) <= s
    ensures s <= raw ==> s <= FloorToMultiple(raw, mult)
  {
    SnapNeighbours(raw, mult);
  }

  /** A tradeable, representable BUY is rejected exactly when the raw size is below the minimum
      size or the least covering lattice size costs less than the minimum. */
  lemma RejectedExactlyWhen(inp: BuyInput)
    requires Affordable(inp)
    ensures CanonicalBuy(inp).Err?
            <==> (RawSize(inp) < inp.minSize
                  || inp.priceTicks * CeilSize(inp) < inp.minMakerCents * MAKER_DENOM)
    ensures CanonicalBuy(inp).Err?
            ==> (CanonicalBuy(inp).error.RawSizeBelowMin? <==> RawSize(inp) < inp.minSize)
  {
    var floorMaker, ceilMaker := NeighbourCosts(inp);
    CompareCosts(ceilMaker, inp.minMakerCents, inp.priceTicks * CeilSize(inp));
    RejectedByCost(inp, floorMaker, ceilMaker);
  }

  lemma CompareCosts(cost: int, floor: int, product: int)
    requires cost * MAKER_DENOM == product
    ensures cost < floor <==> product < floor * MAKER_DENOM
  {
  }

  lemma RejectedByCost(inp: BuyInput, floorMaker: int, ceilMaker: int)
    requires Affordable(inp)
    requires MakerCentsFor(inp.priceTicks, FloorSize(inp)) == Some(floorMaker)
    requires MakerCentsFor(inp.priceTicks, CeilSize(inp)) == Some(ceilMaker)
    requires floorMaker <= ceilMaker && FloorSize(inp) <= RawSize(inp) <= CeilSize(inp)
    ensures CanonicalBuy(inp).Err? <==> (RawSize(inp) < inp.minSize || ceilMaker < inp.minMakerCents)
    ensures CanonicalBuy(inp).Err?
            ==> (CanonicalBuy(inp).error.RawSizeBelowMin? <==> RawSize(inp) < inp.minSize)
  {
  }

  /** A price is refused as out of range exactly outside one to ninety-nine ticks. */
  lemma PriceRefusedExactlyWhen(inp: BuyInput)
    ensures CanonicalBuy(inp) == Err(PriceOutOfRange(inp.priceTicks)) <==> inp.priceTicks < 1 || inp.priceTicks > 99
  {
  }

  /** The documented rule: no order when no venue-valid size satisfies the risk band. */
  ghost predicate MeetsDocumentedRule(inp: BuyInput)
    requires PriceInRange(inp.priceTicks)
  {
    !BandReachable(inp) ==> CanonicalBuy(inp).Err?
  }

  /** The most lattice steps whose cost stays within the allowed maximum. */
  function MostSteps(inp: BuyInput): int
    requires PriceInRange(inp.priceTicks)
  {
    StepCost(inp.priceTicks);
    MaxAllowedCents(inp) / CostStep(inp.priceTicks)
  }

  /** That many steps cost the maker minimum and reach the minimum size. */
  predicate StepsFitBand(inp: BuyInput)
    requires PriceInRange(inp.priceTicks)
  {
    && MostSteps(inp) * CostStep(inp.priceTicks) >= inp.minMakerCents
    && MostSteps(inp) * SizeMultiple(inp.priceTicks) >= inp.minSize
  }

  lemma ScaledStep(p: int, mult: int, unit: int, k: int)
    requires p * mult == unit * MAKER_DENOM
    ensures p * (k * mult) == (k * unit) * MAKER_DENOM
  {
    assert p * (k * mult) == k * (p * mult);
    assert k * (unit * MAKER_DENOM) == (k * unit) * MAKER_DENOM;
  }

  /** The greatest multiple of d within n is the quotient's. */
  lemma MostWithin(n: int, d: int, k: int)
    requires d > 0
    ensures n / d * d <= n
    ensures k * d <= n ==> k <= n / d
  {
    var q := n / d;
    assert n == q * d + n % d;
    NoMultipleBetween(k, q, d);
    assert (q + 1) * d == q * d + d;
  }

  /** Scanning the infinite lattice comes down to one size. */
  lemma BandReachableExactlyWhen(inp: BuyInput)
    requires PriceInRange(inp.priceTicks)
    ensures BandReachable(inp) <==> StepsFitBand(inp)
  {
    var p, n := inp.priceTicks, MostSteps(inp);
    var mult, unit := SizeMultiple(p), CostStep(p);
    StepCost(p);
    ScaledStep(p, mult, unit, n);
    MostWithin(MaxAllowedCents(inp), unit, n);
    if StepsFitBand(inp) {
      AllowedMaximum(inp, n * unit);
      assert VenueValid(inp, n * mult, n * unit) && InRiskBand(inp, n * unit);
    }
    if BandReachable(inp) {
      var size, maker :| VenueValid(inp, size, maker) && InRiskBand(inp, maker);
      AllowedMaximum(inp, maker);
      var k :| size == k * mult;
      ScaledStep(p, mult, unit, k);
      MostWithin(MaxAllowedCents(inp), unit, k);
      ScaledGap(n, k, unit);
      ScaledGap(n, k, mult);
    }
  }

  /** The code meets the documented rule exactly when the most steps within the allowed maximum fit the
      band, the raw size is below the minimum, or the covering size costs less than the minimum. */
  lemma DocumentedRuleExactlyWhen(inp: BuyInput)
    requires Affordable(inp)
    ensures MeetsDocumentedRule(inp)
            <==> (StepsFitBand(inp) || RawSize(inp) < inp.minSize
                  || inp.priceTicks * CeilSize(inp) < inp.minMakerCents * MAKER_DENOM)
  {
    BandReachableExactlyWhen(inp);
    RejectedExactlyWhen(inp);
  }

  /** Otherwise it orders outside the band: at 99 ticks a dollar with a cent of overrun is answered
      with 198 cents, although no venue-valid size costs 100 or 101. */
  lemma OrdersOutsideTheBand()
    ensures var inp := BuyInput(99, 100, 100, 100, 1, 0);
            && Affordable(inp) && !BandReachable(inp)
            && CanonicalBuy(inp) == Ok(BuyTarget(20_000, 198))
            && !MeetsDocumentedRule(inp)
  {
    var inp := BuyInput(99, 100, 100, 100, 1, 0);
    assert Gcd(99, 10_000) == Gcd(10_000, 99) == Gcd(99, 1) == Gcd(1, 0) == 1;
    forall size, maker | VenueValid(inp, size, maker)
      ensures !InRiskBand(inp, maker)
    {
      assert maker * 10_000 == 99 * size;
    }
  }

  // -------------------------------------------------------- validated configuration

  /** The bounds the configuration loader enforces on what reaches the BUY policy. */
  predicate ValidatedConfig(usdcPerTradeCents: int) {
    usdcPerTradeCents >= 100
  }

  function BuyPolicyInput(usdcPerTradeCents: int, overrunCents: int, overrunBps: int, priceTicks: int): BuyInput {
    BuyInput(priceTicks, usdcPerTradeCents, 100, 100, overrunCents, overrunBps)
  }

  /** A dollar, the venue's floor, is accepted and ordered; a cent less is not accepted. */
  lemma SmallestTrade()
    ensures ValidatedConfig(100) && !ValidatedConfig(99)
    ensures CanonicalBuy(BuyPolicyInput(100, 1, 0, 50)) == Ok(BuyTarget(20_000, 100))
  {
    assert Gcd(50, 10_000) == Gcd(10_000, 50) == Gcd(50, 0) == 50;
  }

  lemma PolicyRawSize(usdc: int, overrunCents: int, overrunBps: int, p: int)
    requires ValidatedConfig(usdc) && PriceInRange(p)
    ensures RawSize(BuyPolicyInput(usdc, overrunCents, overrunBps, p)) >= 100
  {
    var inp := BuyPolicyInput(usdc, overrunCents, overrunBps, p);
    RawSizeCovers(inp);
    var raw := RawSize(inp);
    assert raw < 100 ==> p * raw <= p * 100;
  }

  /** Every validated configuration yields an order at every tradeable price. */
  lemma ValidatedConfigAlwaysOrders(usdc: int, overrunCents: int, overrunBps: int, p: int)
    requires ValidatedConfig(usdc)
    requires Affordable(BuyPolicyInput(usdc, overrunCents, overrunBps, p))
    ensures CanonicalBuy(BuyPolicyInput(usdc, overrunCents, overrunBps, p)).Ok?
    ensures CanonicalBuy(BuyPolicyInput(usdc, overrunCents, overrunBps, p)).value.makerCents >= 100
  {
    PolicyRawSize(usdc, overrunCents, overrunBps, p);
    NotionalBound(BuyPolicyInput(usdc, overrunCents, overrunBps, p));
  }

  /** The exact extent, for any notional the loader accepts on which the arithmetic does not overflow:
      an order comes out if and only if the covering size has a price inside 64 bits, or the size
      below it has one inside the risk band. */
  lemma ValidatedConfigOrdersExactlyWhen(usdc: int, overrunCents: int, overrunBps: int, p: int)
    requires ValidatedConfig(usdc) && PriceInRange(p)
    requires Representable(BuyPolicyInput(usdc, overrunCents, overrunBps, p))
    ensures var inp := BuyPolicyInput(usdc, overrunCents, overrunBps, p);
            CanonicalBuy(inp).Ok?
            <==> (FitsI64(p * CeilSize(inp))
                  || (FitsI64(p * FloorSize(inp))
                      && 100 * MAKER_DENOM <= p * FloorSize(inp) <= MaxAllowedCents(inp) * MAKER_DENOM))
  {
    var inp := BuyPolicyInput(usdc, overrunCents, overrunBps, p);
    PolicyRawSize(usdc, overrunCents, overrunBps, p);
    if FitsI64(p * CeilSize(inp)) {
      NotionalBound(inp);
    } else {
      RawSizeCovers(inp);
      SnapNeighbours(RawSize(inp), SizeMultiple(p));
      LargeSizes(p, CeilSize(inp), FloorSize(inp));
      MakerCentsFloor(p, FloorSize(inp), MaxAllowedCents(inp));
    }
  }

  /** Past 64 bits the covering size is large, and so is the one below it. */
  lemma LargeSizes(p: int, ceil: int, floor: int)
    requires PriceInRange(p) && 0 <= ceil && !FitsI64(p * ceil) && 0 <= floor && ceil - floor < 2 * MAKER_DENOM
    ensures floor >= 100
  {
    if floor < 100 {
      SmallSizeFits(p, ceil);
    }
  }

  lemma SmallSizeFits(p: int, size: int)
    requires PriceInRange(p) && 0 <= size <= 100 + 2 * MAKER_DENOM
    ensures FitsI64(p * size)
  {
    ScaledOrder(p, 0, size);
    ScaledOrder(p, size, 100 + 2 * MAKER_DENOM);
  }

  lemma MakerCentsFloor(p: int, floor: int, max: int)
    requires PriceInRange(p) && floor >= 0 && Divides(SizeMultiple(p), floor)
    ensures (MakerCentsFor(p, floor).Some? && 100 <= MakerCentsFor(p, floor).value <= max)
            <==> (FitsI64(p * floor) && 100 * MAKER_DENOM <= p * floor <= max * MAKER_DENOM)
  {
    if FitsI64(p * floor) {
      var maker := ExactCost(p, floor);
      CompareCosts(maker, 100, p * floor);
      CompareCosts(maker, max + 1, p * floor);
    }
  }

  // ------------------------------------------------------------------------- SELL

  /** Price passes through; size drops to the 0.01-share step. */
  function CanonicalSell(priceTicks: int, rawSize: int): (r: (int, int))
    ensures r.0 == priceTicks && r.1 * 100 <= rawSize < r.1 * 100 + 100
  {
    (priceTicks, rawSize / 100)
  }
}
