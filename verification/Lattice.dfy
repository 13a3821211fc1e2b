/** The BUY size lattice: Euclid's algorithm, the size multiple of a price, and snapping. */
module Lattice {
  import opened Wrappers
  import opened MachineInt

  const MAKER_DENOM: int := 10_000
  const MIN_PRICE_TICK: int := 1
  const MAX_PRICE_TICK: int := 99

  /** d divides a, over all integers. */
  ghost predicate Divides(d: int, a: int) {
    exists q :: a == q * d
  }

  // ---------------------------------------------------------------- Euclid

  /** Euclid's recurrence; the loop of `ComputeGcd` runs it. */
  function Gcd(a: nat, b: nat): nat
    decreases b
  {
    if b == 0 then a else Gcd(b, a % b)
  }

  /** The loop over two mutable variables, on any pair of 64-bit inputs whose negation fits. */
  method ComputeGcd(x: int, y: int) returns (g: nat)
    requires I64_MIN < x <= I64_MAX && I64_MIN < y <= I64_MAX
    ensures g == Gcd(Abs(x), Abs(y))
    ensures Divides(g, x) && Divides(g, y)
    ensures forall d :: Divides(d, x) && Divides(d, y) ==> Divides(d, g)
  {
    var a, b := x, y;
    if a < 0 {
      a := -a;
    }
    if b < 0 {
      b := -b;
    }
    while b != 0
      invariant 0 <= a && 0 <= b
      invariant Gcd(a, b) == Gcd(Abs(x), Abs(y))
      decreases b
    {
      var t := a % b;
      a := b;
      b := t;
    }
    g := a;
    GcdIsGreatest(x, y);
  }

  /** Integers u, v with u*a + v*b == Gcd(a, b). */
  lemma {:induction false} Bezout(a: nat, b: nat) returns (u: int, v: int)
    ensures u * a + v * b == Gcd(a, b)
    decreases b
  {
    if b == 0 {
      u, v := 1, 0;
    } else {
      var u', v' := Bezout(b, a % b);
      u, v := v', u' - v' * (a / b);
      BezoutStep(a, b, a / b, a % b, u', v', Gcd(a, b));
    }
  }

  /** A combination of b and the remainder, rewritten as one of a and b. */
  lemma BezoutStep(a: int, b: int, q: int, r: int, u: int, v: int, g: int)
    requires a == q * b + r && u * b + v * r == g
    ensures v * a + (u - v * q) * b == g
  {
    assert v * (q * b + r) == v * (q * b) + v * r;
    assert (u - v * q) * b == u * b - (v * q) * b;
    assert (v * q) * b == v * (q * b);
  }

  lemma DividesCombination(d: int, a: int, b: int, u: int, v: int)
    requires Divides(d, a) && Divides(d, b)
    ensures Divides(d, u * a + v * b)
  {
    var p :| a == p * d;
    var q :| b == q * d;
    assert u * a + v * b == (u * p + v * q) * d by {
      assert u * (p * d) == (u * p) * d;
      assert v * (q * d) == (v * q) * d;
    }
  }

  lemma {:induction false} GcdDivides(a: nat, b: nat)
    ensures Divides(Gcd(a, b), a) && Divides(Gcd(a, b), b)
    decreases b
  {
    var g := Gcd(a, b);
    if b == 0 {
      assert a == 1 * g;
      assert b == 0 * g;
    } else {
      GcdDivides(b, a % b);
      DividesCombination(g, b, a % b, a / b, 1);
      assert a == (a / b) * b + 1 * (a % b);
    }
  }

  lemma DividesAbs(d: int, x: int)
    ensures Divides(d, x) <==> Divides(d, Abs(x))
  {
    if Divides(d, x) {
      var q: int :| x == q * d;
      assert -x == (-q) * d;
    }
    if Divides(d, Abs(x)) {
      var q: int :| Abs(x) == q * d;
      assert 0 - Abs(x) == (-q) * d;
    }
  }

  /** Gcd is a common divisor that every common divisor divides, whatever the signs. */
  lemma GcdIsGreatest(x: int, y: int)
    ensures Divides(Gcd(Abs(x), Abs(y)), x) && Divides(Gcd(Abs(x), Abs(y)), y)
    ensures forall d :: Divides(d, x) && Divides(d, y) ==> Divides(d, Gcd(Abs(x), Abs(y)))
  {
    var a, b := Abs(x), Abs(y);
    GcdDivides(a, b);
    DividesAbs(Gcd(a, b), x);
    DividesAbs(Gcd(a, b), y);
    var u, v := Bezout(a, b);
    forall d | Divides(d, x) && Divides(d, y)
      ensures Divides(d, Gcd(a, b))
    {
      DividesAbs(d, x);
      DividesAbs(d, y);
      DividesCombination(d, a, b, u, v);
    }
  }

  // ------------------------------------------------------- size lattice of a price

  /** Smallest size step at which price times size is a whole number of cents. */
  function SizeMultiple(priceTicks: int): (m: int)
    requires MIN_PRICE_TICK <= priceTicks <= MAX_PRICE_TICK
    ensures 0 < m <= MAKER_DENOM
    ensures m * Gcd(priceTicks, MAKER_DENOM) == MAKER_DENOM
  {
    var g := Gcd(priceTicks, MAKER_DENOM);
    GcdPositive(priceTicks);
    MAKER_DENOM / g
  }

  /** A positive price has a positive gcd with the denominator, and both divide out exactly. */
  lemma GcdPositive(p: nat)
    requires p > 0
    ensures 0 < Gcd(p, MAKER_DENOM) <= MAKER_DENOM
    ensures MAKER_DENOM / Gcd(p, MAKER_DENOM) * Gcd(p, MAKER_DENOM) == MAKER_DENOM
    ensures 0 < MAKER_DENOM / Gcd(p, MAKER_DENOM) <= MAKER_DENOM
    ensures p / Gcd(p, MAKER_DENOM) * Gcd(p, MAKER_DENOM) == p
    ensures 0 < p / Gcd(p, MAKER_DENOM) <= p
  {
    var g := Gcd(p, MAKER_DENOM);
    GcdDivides(p, MAKER_DENOM);
    var q :| MAKER_DENOM == q * g;
    var r :| p == r * g;
    PositiveFactors(MAKER_DENOM, q, g);
    PositiveFactors(p, r, g);
    ExactQuotient(MAKER_DENOM, q, g);
    ExactQuotient(p, r, g);
  }

  lemma PositiveFactors(n: nat, q: int, g: nat)
    requires n > 0 && n == q * g
    ensures 0 < g <= n && 0 < q <= n
  {
    assert q <= 0 ==> q * g <= 0;
    ScaleAtLeast(q, g);
    ScaleAtLeast(g, q);
  }

  lemma ScaleAtLeast(k: int, n: int)
    requires k >= 1 && n >= 0
    ensures k * n >= n
  {
    assert k * n == n + (k - 1) * n;
    assert (k - 1) * n >= 0;
  }

  lemma ExactQuotient(a: int, q: int, d: int)
    requires d > 0 && a == q * d
    ensures a / d == q && a % d == 0
  {
    var e := q - a / d;
    assert e * d == a % d by {
      assert a == d * (a / d) + a % d;
      assert q * d == e * d + (a / d) * d;
    }
    if e >= 1 {
      ScaleAtLeast(e, d);
    }
    if e <= -1 {
      ScaleAtLeast(-e, d);
    }
  }

  /** From s*p == q*n and u*p + v*n == g with n == m*g: s is a multiple of m. */
  lemma GaussStep(p: int, n: int, s: int, g: int, m: int, u: int, v: int, q: int)
    requires g > 0
    requires p * s == q * n && u * p + v * n == g && n == m * g
    ensures s == (u * q + s * v) * m
  {
    var k := u * q + s * v;
    calc {
      s * g;
      s * (u * p + v * n);
      s * (u * p) + s * (v * n);
      { assert s * (u * p) == u * (p * s); }
      u * (q * n) + (s * v) * n;
      { assert u * (q * n) == (u * q) * n; }
      (u * q) * n + (s * v) * n;
      k * n;
      k * (m * g);
      (k * m) * g;
    }
    CancelFactor(s, k * m, g);
  }

  lemma CancelFactor(a: int, b: int, g: int)
    requires g > 0 && a * g == b * g
    ensures a == b
  {
    if a > b {
      ScaleAtLeast(a - b, g);
    }
    if a < b {
      ScaleAtLeast(b - a, g);
    }
  }

  /** Gauss: if the denominator divides p*s, then its cofactor in gcd(p, denominator) divides s. */
  lemma GaussDivides(p: nat, s: int)
    requires p > 0
    requires Divides(MAKER_DENOM, p * s)
    ensures Gcd(p, MAKER_DENOM) > 0 && Divides(MAKER_DENOM / Gcd(p, MAKER_DENOM), s)
  {
    var g := Gcd(p, MAKER_DENOM);
    GcdPositive(p);
    var u, v := Bezout(p, MAKER_DENOM);
    var q :| p * s == q * MAKER_DENOM;
    GaussStep(p, MAKER_DENOM, s, g, MAKER_DENOM / g, u, v, q);
  }

  lemma RegroupProduct(r: int, g: int, k: int, m: int)
    ensures (r * g) * (k * m) == (r * k) * (m * g)
  {
    assert (r * g) * (k * m) == r * (g * (k * m));
    assert g * (k * m) == k * (m * g);
    assert r * (k * (m * g)) == (r * k) * (m * g);
  }

  /** For every tradeable price, a size gives whole cents exactly when it is on the lattice. */
  lemma LatticeCharacterisation(p: int, s: int)
    requires MIN_PRICE_TICK <= p <= MAX_PRICE_TICK
    ensures Divides(MAKER_DENOM, p * s) <==> Divides(SizeMultiple(p), s)
  {
    if Divides(MAKER_DENOM, p * s) {
      GaussDivides(p, s);
    }
    if Divides(SizeMultiple(p), s) {
      var m, g := SizeMultiple(p), Gcd(p, MAKER_DENOM);
      GcdPositive(p);
      var k :| s == k * m;
      RegroupProduct(p / g, g, k, m);
      assert p * s == (p / g * k) * MAKER_DENOM;
    }
  }

  // --------------------------------------------------------------- snapping

  function FloorToMultiple(raw: int, mult: int): int {
    if mult <= 0 then raw else TruncDiv(raw, mult) * mult
  }

  function CeilToMultiple(raw: int, mult: int): int {
    if mult <= 0 then raw
    else
      var r := TruncMod(raw, mult);
      if r == 0 then raw else raw + (mult - r)
  }

  /** Floor and ceiling are the lattice neighbours of a non-negative raw size: both on the
      lattice, around it, and with no lattice point strictly between. */
  lemma SnapNeighbours(raw: int, mult: int)
    requires mult > 0 && raw >= 0
    ensures Divides(mult, FloorToMultiple(raw, mult)) && Divides(mult, CeilToMultiple(raw, mult))
    ensures 0 <= FloorToMultiple(raw, mult) <= raw <= CeilToMultiple(raw, mult)
    ensures raw - FloorToMultiple(raw, mult) < mult && CeilToMultiple(raw, mult) - raw < mult
    ensures forall s :: Divides(mult, s) ==> s <= FloorToMultiple(raw, mult) || s >= CeilToMultiple(raw, mult)
  {
    var k, r := raw / mult, raw % mult;
    assert raw == k * mult + r && k >= 0;
    var j := if r == 0 then k else k + 1;
    NextMultiple(k, mult);
    assert FloorToMultiple(raw, mult) == k * mult && CeilToMultiple(raw, mult) == j * mult;
    forall s | Divides(mult, s)
      ensures s <= k * mult || s >= j * mult
    {
      OffBetween(s, k, mult);
    }
  }

  lemma NextMultiple(k: int, mult: int)
    requires k >= 0 && mult > 0
    ensures (k + 1) * mult == k * mult + mult && k * mult >= 0
  {
  }

  /** No multiple lies strictly between two neighbours. */
  lemma OffBetween(s: int, k: int, mult: int)
    requires mult > 0 && Divides(mult, s)
    ensures s <= k * mult || s >= (k + 1) * mult
  {
    var i :| s == i * mult;
    NoMultipleBetween(i, k, mult);
  }

  lemma NoMultipleBetween(i: int, k: int, mult: int)
    requires mult > 0
    ensures i <= k ==> i * mult <= k * mult
    ensures i >= k + 1 ==> i * mult >= (k + 1) * mult
  {
    if i <= k {
      ScaledGap(k, i, mult);
    } else {
      ScaledGap(i, k + 1, mult);
    }
  }

  lemma ScaledGap(hi: int, lo: int, mult: int)
    requires lo <= hi && mult > 0
    ensures lo * mult <= hi * mult
  {
    assert (hi - lo) * mult >= 0;
    assert (hi - lo) * mult == hi * mult - lo * mult;
  }

  /** Maker cents of a size, or None when the product leaves 64 bits or is not whole cents. */
  function MakerCentsFor(priceTicks: int, size: int): Option<int> {
    var product := priceTicks * size;
    if !FitsI64(product) then None
    else if TruncMod(product, MAKER_DENOM) != 0 then None
    else Some(TruncDiv(product, MAKER_DENOM))
  }

  /** Whole cents exist exactly on the lattice, and are then the exact quotient. */
  lemma MakerCentsExactlyOnLattice(p: int, s: int)
    requires MIN_PRICE_TICK <= p <= MAX_PRICE_TICK
    requires FitsI64(p * s)
    ensures MakerCentsFor(p, s).Some? <==> Divides(SizeMultiple(p), s)
    ensures forall c :: MakerCentsFor(p, s) == Some(c) <==> c * MAKER_DENOM == p * s
  {
    LatticeCharacterisation(p, s);
    WholeCents(p * s);
  }

  lemma WholeCents(n: int)
    ensures TruncMod(n, MAKER_DENOM) == 0 <==> Divides(MAKER_DENOM, n)
    ensures TruncMod(n, MAKER_DENOM) == 0 ==> TruncDiv(n, MAKER_DENOM) * MAKER_DENOM == n
  {
    var a := Abs(n);
    if a % MAKER_DENOM == 0 {
      assert n == TruncDiv(n, MAKER_DENOM) * MAKER_DENOM;
    }
  }
}
