/** Values shared by every part of the collector: optional values and the
    fixed-width integers of the Rust program, written out over `int`. */
module Primitives {

  /** Rust's `Option`: a reading or field that may be absent. */
  datatype Option<+T> = None | Some(value: T) {

    /** `unwrap_or`: the value when present, otherwise the default. */
    function GetOr(default: T): T {
      match this
      case Some(v) => v
      case None => default
    }
  }

  const U32_LIMIT: int := 0x1_0000_0000
  const U64_LIMIT: int := 0x1_0000_0000_0000_0000
  const U128_LIMIT: int := 0x1_0000_0000_0000_0000_0000_0000_0000_0000
  const I64_MAX: int := 0x7fff_ffff_ffff_ffff

  type u32 = x: int | 0 <= x < U32_LIMIT
  type u64 = x: int | 0 <= x < U64_LIMIT
  type u128 = x: int | 0 <= x < U128_LIMIT
  type i32 = x: int | -0x8000_0000 <= x < 0x8000_0000
  type i64 = x: int | -0x8000_0000_0000_0000 <= x <= I64_MAX

  /** `a * b` on u64 as an optimised build computes it: modulo 2^64. */
  function WrappingMul(a: u64, b: u64): (r: u64)
    ensures a * b < U64_LIMIT ==> r == a * b
    ensures r == a * b % U64_LIMIT
  {
    var p := a * b;
    if p < U64_LIMIT then p else p % U64_LIMIT
  }

  /** `a - b` on u64 as an optimised build computes it: modulo 2^64. */
  function WrappingSub(a: u64, b: u64): (r: u64)
    ensures b <= a ==> r == a - b
    ensures b > a ==> r == a - b + U64_LIMIT
  {
    (a - b) % U64_LIMIT
  }

  /** `a + b` on u64 as an optimised build computes it: modulo 2^64. */
  function WrappingAdd(a: u64, b: u64): (r: u64)
    ensures a + b < U64_LIMIT ==> r == a + b
    ensures a + b >= U64_LIMIT ==> r == a + b - U64_LIMIT
  {
    (a + b) % U64_LIMIT
  }

  /** `a / b` on u64 for a non-zero divisor: the quotient rounded down. */
  function Quotient(a: u64, b: u64): (r: u64)
    requires b > 0
    ensures r * b <= a < (r + 1) * b
  {
    var q := a / b;
    assert a == q * b + a % b;
    q
  }

  /** `x as u32` for a u64: keeps the low 32 bits. */
  function TruncateToU32(x: u64): (r: u32)
    ensures x < U32_LIMIT ==> r == x
    ensures r == x % U32_LIMIT
  {
    x % U32_LIMIT
  }
}
