/**
  Fixed-width integers of the program (Rust's u8, u32, u64, u128 and i64) as
  subset types of `int`, and the `checked_*` / `saturating_*` / `min` operations
  the handlers use. A checked operation returns `None` exactly where Rust's
  returns `None`, i.e. where the mathematical result leaves the type's range.
 */
module Arith {

  datatype Option<+T> = None | Some(value: T)

  const U8_MAX: int := 0xFF
  const U32_MAX: int := 0xFFFF_FFFF
  const U64_MAX: int := 0xFFFF_FFFF_FFFF_FFFF
  const U128_MAX: int := 0xFFFF_FFFF_FFFF_FFFF_FFFF_FFFF_FFFF_FFFF
  const I64_MIN: int := -0x8000_0000_0000_0000
  const I64_MAX: int := 0x7FFF_FFFF_FFFF_FFFF

  type u8 = x: int | 0 <= x <= U8_MAX
  type u32 = x: int | 0 <= x <= U32_MAX
  type u64 = x: int | 0 <= x <= U64_MAX
  type u128 = x: int | 0 <= x <= U128_MAX
  type i64 = x: int | I64_MIN <= x <= I64_MAX

  function CheckedAddU8(a: u8, b: u8): (r: Option<u8>)
    ensures r.Some? <==> a + b <= U8_MAX
    ensures r.Some? ==> r.value == a + b
  {
    if a + b <= U8_MAX then Some(a + b) else None
  }

  function CheckedAddU32(a: u32, b: u32): (r: Option<u32>)
    ensures r.Some? <==> a + b <= U32_MAX
    ensures r.Some? ==> r.value == a + b
  {
    if a + b <= U32_MAX then Some(a + b) else None
  }

  /** `u32::checked_sub`: the u64 subtraction, whose difference never exceeds `a`. */
  function CheckedSubU32(a: u32, b: u32): (r: Option<u32>)
    ensures r.Some? <==> b <= a
    ensures r.Some? ==> r.value == a - b
  {
    match CheckedSubU64(a, b)
    case None => None
    case Some(d) => Some(d)
  }

  function CheckedAddU64(a: u64, b: u64): (r: Option<u64>)
    ensures r.Some? <==> a + b <= U64_MAX
    ensures r.Some? ==> r.value == a + b
  {
    if a + b <= U64_MAX then Some(a + b) else None
  }

  function CheckedSubU64(a: u64, b: u64): (r: Option<u64>)
    ensures r.Some? <==> b <= a
    ensures r.Some? ==> r.value == a - b
  {
    if b <= a then Some(a - b) else None
  }

  function CheckedMulU64(a: u64, b: u64): (r: Option<u64>)
    ensures r.Some? <==> a * b <= U64_MAX
    ensures r.Some? ==> r.value == a * b
  {
    if a * b <= U64_MAX then Some(a * b) else None
  }

  function CheckedAddU128(a: u128, b: u128): (r: Option<u128>)
    ensures r.Some? <==> a + b <= U128_MAX
    ensures r.Some? ==> r.value == a + b
  {
    if a + b <= U128_MAX then Some(a + b) else None
  }

  /** `u128::saturating_mul`: the product, or `u128::MAX` when it does not fit. */
  function SaturatingMulU128(a: u128, b: u128): (r: u128)
    ensures a * b <= U128_MAX ==> r == a * b
    ensures a * b > U128_MAX ==> r == U128_MAX
    ensures r <= a * b
  {
    if a * b <= U128_MAX then a * b else U128_MAX
  }

  function CheckedAddI64(a: i64, b: i64): (r: Option<i64>)
    ensures r.Some? <==> I64_MIN <= a + b <= I64_MAX
    ensures r.Some? ==> r.value == a + b
  {
    if I64_MIN <= a + b <= I64_MAX then Some(a + b) else None
  }

  function CheckedSubI64(a: i64, b: i64): (r: Option<i64>)
    ensures r.Some? <==> I64_MIN <= a - b <= I64_MAX
    ensures r.Some? ==> r.value == a - b
  {
    if I64_MIN <= a - b <= I64_MAX then Some(a - b) else None
  }

  /** `u64::min`. */
  function MinU64(a: u64, b: u64): (r: u64)
    ensures r <= a && r <= b
    ensures r == a || r == b
  {
    if a <= b then a else b
  }
}
