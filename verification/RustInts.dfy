/** The machine integers of the modelled code, and the overflow behaviour it relies on. */
module RustInts {

  const U32_MAX: int := 0xFFFF_FFFF
  const I64_MIN: int := -0x8000_0000_0000_0000
  const I64_MAX: int := 0x7FFF_FFFF_FFFF_FFFF

  type u32 = n: int | 0 <= n <= 0xFFFF_FFFF
  type i64 = n: int | -0x8000_0000_0000_0000 <= n <= 0x7FFF_FFFF_FFFF_FFFF

  function SaturatingIncrement(n: u32): u32 {
    if n == U32_MAX then n else n + 1
  }

  /** `+` on i64 as an optimised build computes it: two's complement, wrapping. */
  function WrappingAdd(a: i64, b: i64): i64 {
    if a + b > I64_MAX then a + b - 0x1_0000_0000_0000_0000
    else if a + b < I64_MIN then a + b + 0x1_0000_0000_0000_0000
    else a + b
  }

  function Min(a: int, b: int): int {
    if a <= b then a else b
  }

  function Max(a: int, b: int): int {
    if a >= b then a else b
  }
}
