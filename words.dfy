/**
 * Fixed-width integers of the toy VM (uint16, uint32, signed short) and the
 * C conversions between them, written out on unbounded integers.
 */
module Words {
  /** 2^32: every uint32 operation of the VM wraps modulo this value. */
  const Modulus: int := 0x1_0000_0000

  type u8 = x: int | 0 <= x < 0x100
  type u16 = x: int | 0 <= x < 0x1_0000
  type u32 = x: int | 0 <= x < 0x1_0000_0000

  /** `a + b` on uint32: wraps around, never traps. */
  function Add32(a: u32, b: u32): (r: u32)
    ensures a + b < Modulus ==> r == a + b
    ensures a + b >= Modulus ==> r == a + b - Modulus
  {
    (a + b) % Modulus
  }

  /** `a - b` on uint32: borrows around, never traps. */
  function Sub32(a: u32, b: u32): (r: u32)
    ensures b <= a ==> r == a - b
    ensures a < b ==> r == a - b + Modulus
  {
    (a - b) % Modulus
  }

  /** `static_cast<uint16>(x)`: keeps the low 16 bits of a two's-complement int. */
  function Trunc16(x: int): (r: u16)
    ensures 0 <= x < 0x1_0000 ==> r == x
    ensures -0x1_0000 <= x < 0 ==> r == x + 0x1_0000
  {
    x % 0x1_0000
  }

  /** `static_cast<signed short>(x)`: reads a 16-bit pattern as two's complement. */
  function Signed16(x: u16): (r: int)
    ensures -0x8000 <= r < 0x8000
    ensures r < 0 <==> x >= 0x8000
  {
    if x < 0x8000 then x else x - 0x1_0000
  }

  /** A branch offset that fits in 16 bits survives the store as uint16 and the read as signed short. */
  lemma SignedTrunc(offset: int)
    requires -0x8000 <= offset < 0x8000
    ensures Signed16(Trunc16(offset)) == offset
  {
  }

  /** Conversely, every stored 16-bit pattern is the truncation of the offset it is read as. */
  lemma TruncSigned(x: u16)
    ensures Trunc16(Signed16(x)) == x
  {
  }
}
