/** Machine-integer behaviour of the runtime, written over unbounded integers:
    ranges, saturating operations and division that truncates toward zero. */
module MachineInt {

  const I64_MAX: int := 0x7FFF_FFFF_FFFF_FFFF
  const I64_MIN: int := -0x8000_0000_0000_0000
  const I32_MAX: int := 0x7FFF_FFFF
  const I32_MIN: int := -0x8000_0000
  const U64_MAX: int := 0xFFFF_FFFF_FFFF_FFFF

  predicate FitsI64(n: int) {
    I64_MIN <= n <= I64_MAX
  }

  predicate FitsI32(n: int) {
    I32_MIN <= n <= I32_MAX
  }

  function Min(a: int, b: int): int {
    if a <= b then a else b
  }

  function Max(a: int, b: int): int {
    if a >= b then a else b
  }

  function Abs(a: int): nat {
    if a >= 0 then a else -a
  }

  /** The nearest 64-bit value. */
  function Saturate(n: int): int {
    if n > I64_MAX then I64_MAX else if n < I64_MIN then I64_MIN else n
  }

  /** Saturating gives a 64-bit value, and none is nearer. */
  lemma SaturatesToNearest(n: int, x: int)
    requires FitsI64(x)
    ensures FitsI64(Saturate(n)) && Abs(Saturate(n) - n) <= Abs(x - n)
  {
  }

  /** Two's complement: the 64-bit value congruent to n. */
  function Wrap64(n: int): int {
    if FitsI64(n) then n else (n - I64_MIN) % (U64_MAX + 1) + I64_MIN
  }

  function SatAdd(a: int, b: int): int {
    Saturate(a + b)
  }

  function SatSub(a: int, b: int): int {
    Saturate(a - b)
  }

  function SatMul(a: int, b: int): int {
    Saturate(a * b)
  }

  /** Quotient and remainder truncated toward zero; the remainder has the sign of the dividend. */
  function TruncDiv(a: int, b: int): int
    requires b > 0
  {
    if a >= 0 then a / b else -((-a) / b)
  }

  function TruncMod(a: int, b: int): int
    requires b > 0
  {
    if a >= 0 then a % b else -((-a) % b)
  }
}
