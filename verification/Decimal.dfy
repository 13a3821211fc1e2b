/** Fixed-point decimal parsing: money, prices and share amounts, never rounded. */
module Decimal {
  import opened Wrappers
  import opened MachineInt
  import opened Text

  /** How many times ten divides the scale down to one; None unless it is a power of ten. */
  function ScaleDigits(scale: int): Option<nat>
    decreases if scale > 0 then scale else 0
  {
    if scale <= 1 then Some(0)
    else if scale % 10 != 0 then None
    else
      match ScaleDigits(scale / 10)
      case None => None
      case Some(k) => Some(k + 1)
  }

  /** The division loop. */
  method DecimalScaleDigits(scale: int) returns (r: Option<nat>)
    ensures r == ScaleDigits(scale)
    ensures scale > 0 ==> forall k: nat :: r == Some(k) <==> scale == Pow10(k)
  {
    ScaleDigitsIsLog(scale);
    var n, digits := scale, 0;
    while n > 1
      invariant ScaleDigits(scale) == DigitsAfter(digits, ScaleDigits(n))
      decreases n
    {
      if n % 10 != 0 {
        return None;
      }
      n := n / 10;
      digits := digits + 1;
    }
    r := Some(digits);
  }

  /** The answer after some divisions. */
  function DigitsAfter(digits: nat, rest: Option<nat>): Option<nat> {
    match rest
    case None => None
    case Some(k) => Some(digits + k)
  }

  lemma {:induction false} ScaleDigitsIsLog(scale: int)
    ensures scale > 0 ==> forall k: nat :: ScaleDigits(scale) == Some(k) <==> scale == Pow10(k)
    decreases if scale > 0 then scale else 0
  {
    if scale > 0 {
      if scale > 1 {
        ScaleDigitsIsLog(scale / 10);
      }
      forall k: nat
        ensures ScaleDigits(scale) == Some(k) <==> scale == Pow10(k)
      {
        if scale == 1 || k == 0 {
          LogEnds(scale, k);
        } else {
          Pow10Step(k - 1);
          assert scale % 10 == 0 ==> (ScaleDigits(scale / 10) == Some(k - 1) <==> scale / 10 == Pow10(k - 1));
          TenfoldExact(scale, Pow10(k), Pow10(k - 1));
        }
      }
    }
  }

  lemma LogEnds(scale: int, k: nat)
    requires scale == 1 || (scale > 1 && k == 0)
    ensures ScaleDigits(scale) == Some(k) <==> scale == Pow10(k)
  {
    if k > 0 {
      Pow10Step(k - 1);
    }
  }

  lemma TenfoldExact(n: int, power: int, tenth: int)
    requires power == 10 * tenth
    ensures n == power <==> n % 10 == 0 && n / 10 == tenth
  {
  }

  lemma {:induction false} ScaleOfPow10(k: nat)
    ensures ScaleDigits(Pow10(k)) == Some(k)
  {
    if k > 0 {
      ScaleOfPow10(k - 1);
      Pow10Step(k - 1);
      ScaleTimesTen(Pow10(k - 1), Pow10(k));
    }
  }

  lemma ScaleTimesTen(n: nat, m: nat)
    requires n >= 1 && m == 10 * n
    ensures ScaleDigits(m) == match ScaleDigits(n) case None => None case Some(k) => Some(k + 1)
  {
    assert m / 10 == n && m % 10 == 0;
  }

  function SignOf(s: string): int {
    if s != [] && s[0] == '-' then -1 else 1
  }

  function Unsigned(s: string): string {
    if s != [] && (s[0] == '-' || s[0] == '+') then s[1..] else s
  }

  function WholePart(s: string): Option<int> {
    if s == [] then Some(0) else ParseI64(s)
  }

  /** The fraction cut or padded to exactly k digits. */
  function FitFraction(frac: string, k: nat): (r: string)
    ensures |r| == k
  {
    if |frac| >= k then frac[..k] else frac + Zeros(k - |frac|)
  }

  /** Sign and parts put together in 64-bit arithmetic that wraps. */
  function Compose(sign: int, whole: int, scale: int, part: int): int {
    Wrap64(sign * Wrap64(Wrap64(whole * scale) + part))
  }

  /** Sign, whole digits and fraction digits put together at a scale. */
  function Assemble(sign: int, whole: string, frac: string, scale: int): Option<int> {
    var digits := ScaleDigits(scale);
    if digits.None? || (|frac| > digits.value && !AllZeros(frac[digits.value..])) then None
    else
      var w, part := WholePart(whole), WholePart(FitFraction(frac, digits.value));
      if w.None? || part.None? || !FitsI64(w.value * scale) then None
      else Some(Compose(sign, w.value, scale, part.value))
  }

  /** The scaled parser: value times scale, or None on bad text, excess precision or overflow. */
  function ParseDecimalScaled(raw: string, scale: int): Option<int> {
    var s := Trim(raw);
    if s == [] || scale <= 0 then None
    else Assemble(SignOf(s), Before(Unsigned(s), '.'), After(Unsigned(s), '.'), scale)
  }

  /** The same with its loops: digits of the scale, then zero padding one character at a time. */
  method ParseScaled(raw: string, scale: int) returns (r: Option<int>)
    ensures r == ParseDecimalScaled(raw, scale)
  {
    var s := Trim(raw);
    if s == [] || scale <= 0 {
      return None;
    }
    var sign, body := 1, s;
    if s[0] == '-' {
      sign, body := -1, s[1..];
    } else if s[0] == '+' {
      body := s[1..];
    }
    var wholeStr, fracStr := Before(body, '.'), After(body, '.');
    r := ParseParts(sign, wholeStr, fracStr, scale);
  }

  method ParseParts(sign: int, wholeStr: string, fracStr: string, scale: int) returns (r: Option<int>)
    ensures r == Assemble(sign, wholeStr, fracStr, scale)
  {
    var whole := if wholeStr == [] then Some(0) else ParseI64(wholeStr);
    if whole.None? {
      return None;
    }
    var scaleDigits := DecimalScaleDigits(scale);
    if scaleDigits.None? {
      return None;
    }
    if |fracStr| > scaleDigits.value && !AllZeros(fracStr[scaleDigits.value..]) {
      return None;
    }
    var padded := PadFraction(fracStr, scaleDigits.value);
    var frac := if padded == [] then Some(0) else ParseI64(padded);
    if frac.None? || !FitsI64(whole.value * scale) {
      return None;
    }
    r := Some(Compose(sign, whole.value, scale, frac.value));
  }

  method PadFraction(frac: string, k: nat) returns (padded: string)
    ensures padded == FitFraction(frac, k)
  {
    var keep := if |frac| < k then |frac| else k;
    padded := frac[..keep];
    while |padded| < k
      invariant keep <= |padded| <= k && padded == frac[..keep] + Zeros(|padded| - keep)
      decreases k - |padded|
    {
      assert Zeros(|padded| - keep) + "0" == Zeros(|padded| + 1 - keep);
      padded := padded + "0";
    }
  }

  /** Cents of a fraction: one digit counts tens, digits past the second must be zeros. */
  function CentsPart(frac: string): Option<int> {
    if |frac| == 0 then Some(0)
    else if |frac| == 1 then (match ParseI64(frac) case None => None case Some(d) => Some(d * 10))
    else if |frac| == 2 then ParseI64(frac)
    else if AllZeros(frac[2..]) then ParseI64(frac[..2])
    else None
  }

  /** The configuration's own parser of money. */
  function ParseDecCents(raw: string): Option<int> {
    if raw == [] then None
    else
      var whole, part := WholePart(Before(Unsigned(raw), '.')), CentsPart(After(Unsigned(raw), '.'));
      if whole.None? || part.None? then None
      else Some(Compose(SignOf(raw), whole.value, 100, part.value))
  }

  // ------------------------------------------------------------- decimal text and value

  /** A decimal numeral: optional sign, digits, optional dot and digits. */
  datatype Numeral = Numeral(negative: bool, plus: bool, whole: string, dotted: bool, frac: string) {
    ghost predicate Valid() {
      && AllDigits(whole) && AllDigits(frac)
      && (!dotted ==> frac == [])
      && !(negative && plus)
      && (negative || plus || whole != [] || dotted)
    }

    function Body(): string {
      if dotted then whole + ['.'] + frac else whole
    }

    function Text(): string {
      if negative then ['-'] + Body() else if plus then ['+'] + Body() else Body()
    }

    /** The value is Numerator() / Pow10(|frac|). */
    function Numerator(): int
      requires AllDigits(whole) && AllDigits(frac)
    {
      if negative then 0 - Magnitude() else Magnitude()
    }

    /** All digits read as one number, the dot ignored. */
    function Magnitude(): nat
      requires AllDigits(whole) && AllDigits(frac)
    {
      DigitsValue(whole + frac)
    }

    /** The scaled value is within 64 bits. */
    ghost predicate InRange(k: nat)
      requires AllDigits(whole) && AllDigits(frac)
    {
      Magnitude() * Pow10(k) <= I64_MAX * Pow10(|frac|)
    }
  }

  /** Reading a numeral apart gives back its pieces. */
  lemma Pieces(d: Numeral)
    requires d.Valid()
    ensures Trim(d.Text()) == d.Text() && d.Text() != []
    ensures SignOf(d.Text()) == SignFactor(d)
    ensures Unsigned(d.Text()) == d.Body()
    ensures Before(d.Body(), '.') == d.whole && After(d.Body(), '.') == d.frac
  {
    CutAt(d.whole, '.', d.frac);
    BodyChars(d);
    TrimKeeps(d.Text());
  }

  lemma BodyChars(d: Numeral)
    requires d.Valid()
    ensures d.Body() != [] ==> var (first, last) := (d.Body()[0], d.Body()[|d.Body()| - 1]);
              (IsDigit(first) || first == '.') && (IsDigit(last) || last == '.')
    ensures !d.negative && !d.plus ==> d.Body() != []
  {
  }

  /** What the scaled parser sees of a numeral. */
  lemma ParsesAsParts(d: Numeral, scale: int)
    requires d.Valid() && scale > 0
    ensures ParseDecimalScaled(d.Text(), scale) == Assemble(SignFactor(d), d.whole, d.frac, scale)
  {
    Pieces(d);
  }

  lemma WholePartOfDigits(s: string)
    requires AllDigits(s) && DigitsValue(s) <= I64_MAX
    ensures WholePart(s) == Some(DigitsValue(s))
  {
    if s != [] {
      ParseDigits(s);
    }
  }

  /** A digit string in two halves: its value, and the size and vanishing of the second half. */
  lemma TwoHalves(head: string, tail: string)
    requires AllDigits(head) && AllDigits(tail)
    ensures AllDigits(head + tail)
    ensures DigitsValue(head + tail) == DigitsValue(head) * Pow10(|tail|) + DigitsValue(tail)
    ensures DigitsValue(tail) < Pow10(|tail|)
    ensures DigitsValue(tail) == 0 <==> AllZeros(tail)
  {
    DigitsConcat(head, tail);
    DigitsBelowPow10(tail);
    ZeroExactlyWhenAllZeros(tail);
  }

  /** Appended zeros multiply by powers of ten. */
  lemma TrailingZeros(head: string, tail: string)
    requires AllDigits(head) && AllZeros(tail)
    ensures AllDigits(head + tail) && DigitsValue(head + tail) == DigitsValue(head) * Pow10(|tail|)
  {
    TwoHalves(head, tail);
  }

  /** Fitting the fraction to k digits scales the number exactly, when no non-zero digit is cut. */
  lemma FittedRatio(whole: string, f: string, k: nat)
    requires AllDigits(whole) && AllDigits(f) && (|f| <= k || AllZeros(f[k..]))
    ensures AllDigits(FitFraction(f, k))
    ensures EqualRatio(DigitsValue(whole + FitFraction(f, k)), Pow10(|f|), DigitsValue(whole + f), Pow10(k))
  {
    if |f| <= k {
      PaddedRatio(whole, f, Zeros(k - |f|), k);
      assert FitFraction(f, k) == f + Zeros(k - |f|);
    } else {
      CutRatio(whole, f[..k], f[k..]);
      assert f == f[..k] + f[k..];
    }
  }

  lemma PaddedRatio(whole: string, f: string, pad: string, k: nat)
    requires AllDigits(whole) && AllDigits(f) && AllZeros(pad) && k == |f| + |pad|
    ensures AllDigits(f + pad)
    ensures EqualRatio(DigitsValue(whole + (f + pad)), Pow10(|f|), DigitsValue(whole + f), Pow10(k))
  {
    assert whole + (f + pad) == (whole + f) + pad;
    TrailingZeros(whole + f, pad);
    Pow10Add(|f|, |pad|);
    ScaleUp(DigitsValue(whole + f), Pow10(|f|), Pow10(|pad|), DigitsValue(whole + (f + pad)), Pow10(k));
  }

  lemma CutRatio(whole: string, head: string, tail: string)
    requires AllDigits(whole) && AllDigits(head + tail) && AllZeros(tail)
    ensures AllDigits(head)
    ensures EqualRatio(DigitsValue(whole + head), Pow10(|head + tail|), DigitsValue(whole + (head + tail)), Pow10(|head|))
  {
    HalvesDigits(head, tail);
    assert whole + (head + tail) == (whole + head) + tail;
    TrailingZeros(whole + head, tail);
    Pow10Add(|head|, |tail|);
    ScaleUp(DigitsValue(whole + head), Pow10(|head|), Pow10(|tail|), DigitsValue(whole + (head + tail)),
            Pow10(|head + tail|));
  }

  lemma HalvesDigits(head: string, tail: string)
    requires AllDigits(head + tail)
    ensures AllDigits(head) && AllDigits(tail)
  {
    var s := head + tail;
    assert forall i :: 0 <= i < |head| ==> head[i] == s[i];
    assert forall i :: 0 <= i < |tail| ==> tail[i] == s[|head| + i];
  }

  /** With y == x*b and ab == a*b: y over ab is x over a. */
  lemma ScaleUp(x: nat, a: nat, b: nat, y: nat, ab: nat)
    requires y == x * b && ab == a * b
    ensures EqualRatio(y, a, x, ab) && EqualRatio(x, ab, y, a)
  {
    assert (x * b) * a == x * (a * b);
  }

  /** With non-zero digits past the k-th the scaled value is not whole. */
  lemma ExcessPrecision(whole: string, head: string, tail: string, n: int)
    requires AllDigits(whole) && AllDigits(head + tail) && !AllZeros(tail)
    ensures !EqualRatio(n, Pow10(|head + tail|), DigitsValue(whole + (head + tail)), Pow10(|head|))
  {
    HalvesDigits(head, tail);
    assert whole + (head + tail) == (whole + head) + tail;
    TwoHalves(whole + head, tail);
    Pow10Add(|head|, |tail|);
    NotMultiple(n, DigitsValue(whole + head), DigitsValue(tail), Pow10(|head|), Pow10(|tail|),
                Pow10(|head + tail|), DigitsValue(whole + (head + tail)));
  }

  lemma NotMultiple(n: int, h: nat, t: nat, a: nat, b: nat, ab: nat, total: int)
    requires 0 < t < b && a > 0 && ab == a * b && total == h * b + t
    ensures !EqualRatio(n, ab, total, a)
  {
    assert total * a == h * ab + t * a by {
      assert (h * b + t) * a == (h * b) * a + t * a;
      assert (h * b) * a == h * (a * b);
    }
    Positive(t, a);
    Positive(b - t, a);
    assert (b - t) * a == ab - t * a;
    Between(n - h, ab, t * a);
    assert (n - h) * ab == n * ab - h * ab;
  }

  lemma Positive(x: int, y: int)
    requires x > 0 && y > 0
    ensures x * y > 0
  {
  }

  lemma Between(q: int, d: int, r: int)
    requires 0 < r < d
    ensures q * d != r
  {
    if q >= 1 {
      assert (q - 1) * d >= 0;
      assert q * d == (q - 1) * d + d;
    } else {
      assert (-q) * d >= 0;
      assert q * d == -((-q) * d);
    }
  }

  /** A magnitude in range bounds the fitted number. */
  lemma RangeBounds(total: nat, u: nat, m: nat, p: nat)
    requires u >= 1 && EqualRatio(total, u, m, p) && m * p <= I64_MAX * u
    ensures total <= I64_MAX
  {
    var excess := total - I64_MAX;
    assert excess * u == total * u - I64_MAX * u;
    assert excess > 0 ==> excess * u > 0;
  }

  lemma SplitBounds(w: nat, p: nat, part: nat, total: nat)
    requires p >= 1 && total == w * p + part
    ensures w <= w * p <= total && part <= total
  {
    assert w * (p - 1) >= 0;
    assert w * p == w * (p - 1) + w;
  }

  /** n over one is value over u, scaled by p. */
  ghost predicate EqualRatio(n: int, u: int, value: int, p: int) {
    n * u == value * p
  }

  /** n is the numeral's value times ten to the k. */
  ghost predicate IsScaledValue(n: int, d: Numeral, k: nat)
    requires d.Valid()
  {
    EqualRatio(n, Pow10(|d.frac|), d.Numerator(), Pow10(k))
  }

  /** Never rounds: on every numeral whose scaled value fits, the parser returns n exactly when value
      times scale is the integer n, and fails exactly when it is no integer. */
  lemma NeverRounds(d: Numeral, k: nat)
    requires d.Valid() && d.InRange(k)
    ensures forall n :: ParseDecimalScaled(d.Text(), Pow10(k)) == Some(n) <==> IsScaledValue(n, d, k)
  {
    ParsesAsParts(d, Pow10(k));
    if |d.frac| <= k || AllZeros(d.frac[k..]) {
      PartsFit(d, k);
      WholeNeverRounds(d, k);
    } else {
      ScaleOfPow10(k);
      ExcessNeverWhole(d, k);
    }
  }

  ghost function SignFactor(d: Numeral): int {
    if d.negative then -1 else 1
  }

  /** No non-zero digit is cut, and what the digits denote at scale fits 64 bits. */
  ghost predicate Fits(d: Numeral, k: nat) {
    && d.Valid() && (|d.frac| <= k || AllZeros(d.frac[k..]))
    && AllDigits(FitFraction(d.frac, k))
    && DigitsValue(d.whole + FitFraction(d.frac, k)) <= I64_MAX
  }

  lemma WholeNeverRounds(d: Numeral, k: nat)
    requires Fits(d, k)
    ensures forall n :: Assemble(SignFactor(d), d.whole, d.frac, Pow10(k)) == Some(n) <==> IsScaledValue(n, d, k)
  {
    AssembledTotal(d, k);
    FittedRatio(d.whole, d.frac, k);
    SignedWhole(d.negative, Assemble(SignFactor(d), d.whole, d.frac, Pow10(k)),
                DigitsValue(d.whole + FitFraction(d.frac, k)), Pow10(|d.frac|), d.Magnitude(), Pow10(k), d.Numerator());
  }

  lemma ExcessNeverWhole(d: Numeral, k: nat)
    requires d.Valid() && |d.frac| > k && !AllZeros(d.frac[k..])
    ensures forall n :: !IsScaledValue(n, d, k)
  {
    assert d.frac == d.frac[..k] + d.frac[k..];
    forall n
      ensures !EqualRatio(n, Pow10(|d.frac|), d.Magnitude(), Pow10(k))
    {
      ExcessPrecision(d.whole, d.frac[..k], d.frac[k..], n);
    }
    SignedFraction(d.negative, Pow10(|d.frac|), d.Magnitude(), Pow10(k), d.Numerator());
  }

  /** Without excess digits the parts assemble to all digits read as one number, with the sign. */
  lemma AssembledTotal(d: Numeral, k: nat)
    requires Fits(d, k)
    ensures Assemble(SignFactor(d), d.whole, d.frac, Pow10(k))
            == Some(SignFactor(d) * DigitsValue(d.whole + FitFraction(d.frac, k)))
  {
    var g := FitFraction(d.frac, k);
    DigitsConcat(d.whole, g);
    SplitBounds(DigitsValue(d.whole), Pow10(k), DigitsValue(g), DigitsValue(d.whole + g));
    WholePartOfDigits(d.whole);
    WholePartOfDigits(g);
    AssembleTotal(SignFactor(d), d.whole, d.frac, k, Pow10(k), DigitsValue(d.whole), DigitsValue(g),
                  DigitsValue(d.whole + g));
  }

  /** In range and with nothing cut, everything fits 64 bits. */
  /** Nothing is read from blank text or at a scale that is not positive. */
  lemma NothingToRead(s: string, scale: int)
    requires scale <= 0 || Trim(s) == []
    ensures ParseDecimalScaled(s, scale) == None
  {
  }

  lemma PartsFit(d: Numeral, k: nat)
    requires d.Valid() && d.InRange(k)
    requires |d.frac| <= k || AllZeros(d.frac[k..])
    ensures Fits(d, k)
  {
    FittedRatio(d.whole, d.frac, k);
    RangeBounds(DigitsValue(d.whole + FitFraction(d.frac, k)), Pow10(|d.frac|), d.Magnitude(), Pow10(k));
  }

  lemma AssembleTotal(sign: int, whole: string, frac: string, k: nat, p: nat, w: nat, part: nat, total: int)
    requires p == Pow10(k) && (sign == 1 || sign == -1) && total == w * p + part
    requires |frac| <= k || AllZeros(frac[k..])
    requires WholePart(whole) == Some(w) && WholePart(FitFraction(frac, k)) == Some(part)
    requires 0 <= w * p <= I64_MAX && 0 <= total <= I64_MAX
    ensures Assemble(sign, whole, frac, p) == Some(sign * total)
  {
    ScaleOfPow10(k);
    ComposedSum(sign, w, p, part, total);
  }

  lemma ComposedSum(sign: int, w: int, p: int, part: int, total: int)
    requires (sign == 1 || sign == -1) && total == w * p + part
    requires FitsI64(w * p) && 0 <= total <= I64_MAX
    ensures Compose(sign, w, p, part) == sign * total
  {
  }

  /** Past 64 bits the last addition wraps, and only minus two to the 63 survives it. */
  lemma WrappedSum(sign: int, w: int, p: int, part: int, total: int)
    requires (sign == 1 || sign == -1) && total == w * p + part
    requires FitsI64(w * p) && I64_MAX < total <= U64_MAX
    ensures Compose(sign, w, p, part) == sign * total <==> FitsI64(sign * total)
  {
    assert Wrap64(total) == total - (U64_MAX + 1);
  }

  lemma ScaleBelow(k: nat)
    requires k <= 18
    ensures Pow10(k) <= 1_000_000_000_000_000_000
  {
    Pow10Add(k, 18 - k);
    EighteenZeros(2, 18);
    ScaledUp(Pow10(k), Pow10(18 - k));
  }

  /** Parameters stand for the literals. */
  lemma EighteenZeros(two: nat, eighteen: nat)
    requires two == 2 && eighteen == 18
    ensures Pow10(eighteen) == 1_000_000_000_000_000_000
  {
    assert Pow10(2) == 100;
    Pow10Add(two, two);
    Pow10Add(two + two, two + two);
    Pow10Add(two + two + two + two, two + two + two + two);
    Pow10Add(eighteen - two, two);
  }

  lemma ScaledUp(x: nat, y: nat)
    requires y >= 1
    ensures x <= x * y
  {
    assert x * (y - 1) >= 0;
    assert x * y == x * (y - 1) + x;
  }

  /** The complete account of a numeral with no digit to cut and a whole part that fits, at any scale
      of a 64-bit integer: an answer is given, and it is the scaled value exactly when that value
      fits 64 bits; otherwise the last addition has wrapped. */
  lemma AnswerIsExactExactlyWhen(d: Numeral, k: nat)
    requires d.Valid() && k <= 18 && (|d.frac| <= k || AllZeros(d.frac[k..]))
    requires DigitsValue(d.whole) * Pow10(k) <= I64_MAX
    ensures AllDigits(FitFraction(d.frac, k))
    ensures var value := SignFactor(d) * DigitsValue(d.whole + FitFraction(d.frac, k));
            && ParseDecimalScaled(d.Text(), Pow10(k)).Some?
            && (ParseDecimalScaled(d.Text(), Pow10(k)) == Some(value) <==> FitsI64(value))
  {
    var g := FitFraction(d.frac, k);
    ParsesAsParts(d, Pow10(k));
    FittedRatio(d.whole, d.frac, k);
    DigitsConcat(d.whole, g);
    DigitsBelowPow10(g);
    ScaleBelow(k);
    EdgeParts(SignFactor(d), d.whole, d.frac, g, k, Pow10(k),
              DigitsValue(d.whole), DigitsValue(g), DigitsValue(d.whole + g));
  }

  lemma EdgeParts(sign: int, whole: string, frac: string, g: string, k: nat, p: nat, w: nat, part: nat, total: int)
    requires AllDigits(whole) && AllDigits(g) && g == FitFraction(frac, k) && p == Pow10(k)
    requires |frac| <= k || AllZeros(frac[k..])
    requires w == DigitsValue(whole) && part == DigitsValue(g) && total == w * p + part
    requires w * p <= I64_MAX && part < p <= 1_000_000_000_000_000_000 && (sign == 1 || sign == -1)
    ensures Assemble(sign, whole, frac, p).Some?
    ensures Assemble(sign, whole, frac, p) == Some(sign * total) <==> FitsI64(sign * total)
  {
    ScaleOfPow10(k);
    ScaledUp(w, p);
    WholePartOfDigits(whole);
    WholePartOfDigits(g);
    assert Assemble(sign, whole, frac, p) == Some(Compose(sign, w, p, part));
    if total <= I64_MAX {
      ComposedSum(sign, w, p, part, total);
    } else {
      WrappedSum(sign, w, p, part, total);
    }
  }

  lemma SignedWhole(negative: bool, r: Option<int>, total: int, u: int, m: int, p: int, value: int)
    requires u > 0 && EqualRatio(total, u, m, p)
    requires r == Some((if negative then -1 else 1) * total) && value == if negative then 0 - m else m
    ensures forall n :: r == Some(n) <==> EqualRatio(n, u, value, p)
  {
    assert (-m) * p == -(m * p);
    assert (-total) * u == -(total * u);
    forall n
      ensures r == Some(n) <==> EqualRatio(n, u, value, p)
    {
      SameProduct(n, r.value, u);
    }
  }

  lemma SignedFraction(negative: bool, u: int, m: int, p: int, value: int)
    requires value == if negative then 0 - m else m
    requires forall n :: !EqualRatio(n, u, m, p)
    ensures forall n :: !EqualRatio(n, u, value, p)
  {
    forall n
      ensures !EqualRatio(n, u, value, p)
    {
      assert !EqualRatio(-n, u, m, p) && !EqualRatio(n, u, m, p);
      assert (-n) * u == -(n * u);
      assert (-m) * p == -(m * p);
    }
  }

  lemma SameProduct(a: int, b: int, u: int)
    requires u > 0
    ensures a * u == b * u <==> a == b
  {
    assert (a - b) * u == a * u - b * u;
    assert a > b ==> (a - b) * u > 0;
    assert a < b ==> (b - a) * u > 0;
    assert (b - a) * u == b * u - a * u;
  }

  /** A whole part whose scaled value leaves 64 bits fails instead of wrapping. */
  lemma OverflowFails(d: Numeral, k: nat)
    requires d.Valid() && DigitsValue(d.whole) * Pow10(k) > I64_MAX
    ensures ParseDecimalScaled(d.Text(), Pow10(k)).None?
  {
    Pieces(d);
    if d.whole != [] {
      ParseDigits(d.whole);
    }
  }

  /** On numerals in range, the configuration's parser is the scaled parser at 100. */
  lemma CentsParsersAgree(d: Numeral)
    requires d.Valid() && d.InRange(2)
    ensures ParseDecCents(d.Text()) == ParseDecimalScaled(d.Text(), 100)
  {
    Pieces(d);
    ParsesAsParts(d, 100);
    CentsFraction(d.frac);
    ScaleOfPow10(2);
    if |d.frac| <= 2 || AllZeros(d.frac[2..]) {
      PartsFit(d, 2);
      WholeFits(d.whole, FitFraction(d.frac, 2));
    }
  }

  /** Two more digits fit only after a whole part that fits, even as cents. */
  lemma WholeFits(whole: string, cents: string)
    requires AllDigits(whole) && AllDigits(cents) && |cents| == 2
    requires DigitsValue(whole + cents) <= I64_MAX
    ensures DigitsValue(whole) * 100 + DigitsValue(cents) <= I64_MAX
    ensures WholePart(whole) == Some(DigitsValue(whole))
  {
    assert Pow10(2) == 100;
    DigitsConcat(whole, cents);
    WholePartOfDigits(whole);
  }

  /** The four fraction lengths the configuration distinguishes are the fraction fitted to two digits. */
  lemma CentsFraction(f: string)
    requires AllDigits(f)
    ensures CentsPart(f) == if |f| <= 2 || AllZeros(f[2..]) then WholePart(FitFraction(f, 2)) else None
  {
    assert Pow10(1) == 10 && Pow10(2) == 100 && I64_MAX > 100;
    var g := FitFraction(f, 2);
    if |f| == 0 {
      TrailingZeros(f, "00");
      assert g == f + "00";
      ParseDigits(g);
    } else if |f| == 1 {
      TrailingZeros(f, "0");
      assert g == f + "0";
      DigitsBelowPow10(f);
      ParseDigits(f);
      ParseDigits(g);
    } else if |f| == 2 {
      assert g == f;
    }
  }

  // --------------------------------------------------------------- display and back

  /** Dollars, dot, two cent digits. */
  function ShowCents(cents: int): string {
    var v := Abs(cents);
    assert v % 100 < Pow10(2) == 100;
    (if cents < 0 then "-" else "") + Show(v / 100) + "." + Padded(v % 100, 2)
  }

  /** A minus sign is shown exactly for a negative amount, and the dot exactly before two digits. */
  lemma ShownForm(cents: int)
    ensures var s := ShowCents(cents);
            && |s| >= 4 && (s[0] == '-' <==> cents < 0)
            && s[|s| - 3] == '.' && IsDigit(s[|s| - 2]) && IsDigit(s[|s| - 1])
            && forall i :: 0 <= i < |s| && s[i] == '.' ==> i == |s| - 3
  {
    var v := Abs(cents);
    assert v % 100 < Pow10(2) == 100;
    var sign, whole, frac := if cents < 0 then "-" else "", Show(v / 100), Padded(v % 100, 2);
    var s := ShowCents(cents);
    assert s == sign + whole + "." + frac;
    assert s[|s| - 2] == frac[0] && s[|s| - 1] == frac[1];
    assert s[|sign|] == whole[0];
  }

  /** Every amount that fits reads back as itself, through either parser. */
  lemma DisplayedCentsReadBack(cents: int)
    requires Abs(cents) <= I64_MAX
    ensures ParseDecCents(ShowCents(cents)) == Some(cents)
    ensures ParseDecimalScaled(ShowCents(cents), 100) == Some(cents)
  {
    var v := Abs(cents);
    assert Pow10(1) == 10 && Pow10(2) == 100;
    var d := Numeral(cents < 0, false, Show(v / 100), true, Padded(v % 100, 2));
    assert d.Text() == ShowCents(cents);
    DigitsConcat(d.whole, d.frac);
    assert d.Numerator() == cents;
    NeverRounds(d, 2);
    CentsParsersAgree(d);
  }

  /** A price in ticks: whole cents within the venue range, or nothing. */
  function ParsePriceTick(raw: string): Option<int> {
    match ParseDecimalScaled(raw, 100)
    case None => None
    case Some(t) => if 1 <= t <= 99 then Some(t) else None
  }

  /** A numeral is accepted as a price exactly when its value is a whole number of cents in 1..99. */
  lemma PriceAcceptedExactlyWhen(d: Numeral)
    requires d.Valid() && d.InRange(2)
    ensures forall t :: ParsePriceTick(d.Text()) == Some(t) <==> (1 <= t <= 99 && IsScaledValue(t, d, 2))
  {
    assert Pow10(2) == 100;
    NeverRounds(d, 2);
  }

  /** A lone sign reads as nothing, but padded with a zero as zero; every other character reads the
      same alone as padded, times ten. */
  lemma OneCharacter(f: string)
    requires |f| == 1
    ensures FitFraction(f, 2) == f + "0"
    ensures f == "+" || f == "-" ==> CentsPart(f) == None && ParseI64(f + "0") == Some(0)
    ensures f != "+" && f != "-" ==> CentsPart(f) == ParseI64(f + "0")
  {
    var g := f + "0";
    assert g[1..] == "0" && "0"[..0] == [] && f[..0] == [] && g[..1] == f;
    assert DigitsValue("0") == 0;
    if IsDigit(f[0]) {
      ParseDigits(f);
      ParseDigits(g);
      assert DigitsValue(g) == 10 * DigitsValue(f);
      assert DigitsValue(f) == DigitValue(f[0]) <= 9;
    } else if f[0] == '+' || f[0] == '-' {
      assert f[1..] == [];
      assert f == if f[0] == '+' then "+" else "-";
    } else {
      assert !AllDigits(f) && !AllDigits(g) by { assert g[0] == f[0]; }
    }
  }

  /** The two parsers read every fraction alike except a lone sign. */
  lemma FractionsAgree(f: string)
    ensures f != "+" && f != "-" ==>
              CentsPart(f) == if |f| <= 2 || AllZeros(f[2..]) then WholePart(FitFraction(f, 2)) else None
  {
    var g := FitFraction(f, 2);
    if |f| == 0 {
      assert g == "00";
      assert DigitsValue("00") == 0 by { TrailingZeros([], "00"); assert [] + "00" == "00"; }
      ParseDigits(g);
    } else if |f| == 1 {
      OneCharacter(f);
    } else if |f| == 2 {
      assert g == f;
    }
  }

  /** On any trimmed text the configuration's parser is the scaled parser at 100, except exactly
      here: the whole part reads, and either it fits and a lone sign stands after the dot, or its
      hundredfold leaves 64 bits, where the one wraps and the other fails, and the fraction reads. */
  lemma ParsersAgreeExactlyWhen(s: string)
    requires s != [] && Trim(s) == s
    ensures var (whole, frac) := (WholePart(Before(Unsigned(s), '.')), After(Unsigned(s), '.'));
            ParseDecCents(s) == ParseDecimalScaled(s, 100)
            <==> !(whole.Some? && if FitsI64(whole.value * 100) then frac in {"+", "-"} else CentsPart(frac).Some?)
  {
    var whole, frac := Before(Unsigned(s), '.'), After(Unsigned(s), '.');
    assert ScaleDigits(100) == Some(2);
    if frac == "+" || frac == "-" {
      OneCharacter(frac);
      assert WholePart(frac + "0") == Some(0);
    } else {
      FractionsAgree(frac);
    }
  }

  /** Off numerals the two parsers part ways: a sign in the fraction is refused by one only. */
  lemma ParsersDisagreeOffNumerals()
    ensures ParseDecCents("1.+") == None && ParseDecimalScaled("1.+", 100) == Some(100)
  {
    var s := "1.+";
    CutAt("1", '.', "+");
    assert s == "1" + ['.'] + "+";
    TrimKeeps(s);
    var g := FitFraction("+", 2);
    assert g == "+0" && g[1..] == "0";
    assert "1"[..0] == [] && "0"[..0] == [];
    assert DigitsValue("1") == 1 && DigitsValue("0") == 0;
    assert ScaleDigits(100) == Some(2);
    assert ParseI64("+") == None;
    assert WholePart(g) == Some(0);
  }
}
