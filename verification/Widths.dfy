/** Integers of the widths the C programs use, and the little arithmetic they share. */
module Widths {
  type u16 = x: int | 0 <= x < 0x1_0000
  type i16 = x: int | -0x8000 <= x < 0x8000
  type u32 = x: int | 0 <= x < 0x1_0000_0000
  type i32 = x: int | -0x8000_0000 <= x < 0x8000_0000

  /** Conversion to a signed 16-bit integer: the low 16 bits. */
  function Narrow(v: int): i16 {
    if -0x8000 <= v < 0x8000 then v
    else if 0x8000 <= v < 0x1_8000 then v - 0x1_0000
    else if -0x1_8000 <= v < -0x8000 then v + 0x1_0000
    else (v + 0x8000) % 0x1_0000 - 0x8000
  }

  lemma ProductBound(a: nat, b: nat, c: nat)
    requires a <= b
    ensures a * c <= b * c
  {
  }
}
