/**
 * Fixed-width integer types of the Rust code and the `as` casts between them.
 * Dafny integers are unbounded, so every truncating cast is written out.
 */
module Ints {

  const TWO_16: int := 0x1_0000
  const TWO_32: int := 0x1_0000_0000

  /** `u8` */
  type Byte = x: int | 0 <= x < 0x100

  predicate IsU16(n: int) { 0 <= n < TWO_16 }
  predicate IsU32(n: int) { 0 <= n < TWO_32 }
  predicate IsI16(n: int) { -0x8000 <= n < 0x8000 }

  /** `n as i16`: two's-complement truncation to the low 16 bits. */
  function ToI16(n: int): (r: int)
    ensures IsI16(r)
    ensures (r - n) % TWO_16 == 0
    ensures IsI16(n) ==> r == n
  {
    (n + 0x8000) % TWO_16 - 0x8000
  }

  /** `n as i32`: two's-complement truncation to the low 32 bits. */
  function ToI32(n: int): (r: int)
    ensures -0x8000_0000 <= r < 0x8000_0000
    ensures (r - n) % TWO_32 == 0
    ensures -0x8000_0000 <= n < 0x8000_0000 ==> r == n
  {
    (n + 0x8000_0000) % TWO_32 - 0x8000_0000
  }

  /** Wrapping negation of an `i16` (`i16::wrapping_neg`): -(-32768) stays -32768. */
  function NegI16(x: int): (r: int)
    requires IsI16(x)
    ensures IsI16(r)
    ensures x != -0x8000 ==> r == -x
    ensures x == -0x8000 ==> r == x
  {
    ToI16(-x)
  }
}
