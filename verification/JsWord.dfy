/**
 The JavaScript bitwise operators the benchmarks use on numbers. They convert
 their operands to 32-bit integers first, so each one is modelled only on
 operands already in that range: discharging its precondition shows that the
 code never loses a bit to the conversion. A shift amount k is passed as the
 power of two `unit == 2^k`.
 */
module JsWord {

  const DOUBLE_LIMIT: int := 0x20_0000_0000_0000  // 2^53, the last exact integer

  predicate Int32(v: int) {
    -0x8000_0000 <= v < 0x8000_0000
  }

  /** v >> k (arithmetic, so it rounds down). */
  function Shr(v: int, unit: int): int
    requires Int32(v) && unit > 0
  {
    v / unit
  }

  /** v >>> k, on what is already an unsigned 32-bit number. */
  function Ushr(v: int, unit: int): int
    requires 0 <= v < 0x1_0000_0000 && unit > 0
  {
    v / unit
  }

  /** v & (2^k - 1) in two's complement. */
  function Mask(v: int, unit: int): int
    requires Int32(v) && unit > 0
  {
    v % unit
  }

  /** v << k. */
  function Shl(v: int, unit: int): int
    requires Int32(v) && unit > 0 && Int32(v * unit)
  {
    v * unit
  }

  /** hi | lo where lo occupies the bits below unit and hi none of them. */
  function Or(hi: int, lo: int, ghost unit: int): int
    requires 0 <= lo < unit && 0 <= hi && hi % unit == 0 && Int32(hi + lo)
  {
    hi + lo
  }

  /** a % b on numbers: the sign follows a. */
  function JsRem(a: int, b: int): int
    requires b > 0 && -DOUBLE_LIMIT < a < DOUBLE_LIMIT
  {
    if a >= 0 then a % b else -((-a) % b)
  }
}
