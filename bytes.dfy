/// Fixed-width integers of the CHIP-8 machine and the bitwise operations on
/// them. Values are unbounded `int`s restricted to their range; the bitwise
/// operators go through `bv8`, exactly as Rust applies `|`, `&`, `^` to `u8`.
module Bytes {

  /** An unsigned byte (Rust `u8`). */
  type U8 = x: int | 0 <= x < 0x100

  /** An unsigned 16-bit word (Rust `u16`). */
  type U16 = x: int | 0 <= x < 0x1_0000

  /** A 4-bit nibble of an opcode. */
  type Nibble = x: int | 0 <= x < 0x10

  /** Bitwise OR of two bytes (Rust `a | b` on `u8`). */
  function Or8(a: U8, b: U8): U8 {
    (a as bv8 | b as bv8) as int
  }

  /** Bitwise AND of two bytes (Rust `a & b` on `u8`). */
  function And8(a: U8, b: U8): U8 {
    (a as bv8 & b as bv8) as int
  }

  /** Bitwise XOR of two bytes (Rust `a ^ b` on `u8`). */
  function Xor8(a: U8, b: U8): U8 {
    (a as bv8 ^ b as bv8) as int
  }

  /** A byte that is 0 or 1: a framebuffer cell or a sprite bit. */
  predicate IsBit(b: U8) {
    b <= 1
  }

  /** Pixel `col` of a sprite row: bit `7 - col` of the byte, so that the
      most significant bit is the leftmost pixel. */
  function SpriteBit(row: U8, col: int): (b: U8)
    requires 0 <= col < 8
    ensures IsBit(b)
  {
    if row as bv8 & (1 as bv8 << (7 - col)) != 0 then 1 else 0
  }

  /** 2 to the power `k`. */
  function Pow2(k: nat): (r: nat)
    ensures r >= 1
  {
    if k == 0 then 1 else 2 * Pow2(k - 1)
  }

  /** The sprite bit read arithmetically: pixel `col` is binary digit
      `7 - col` of the byte, so pixel 0 is the most significant bit
      (big-endian) and pixel 7 the least. */
  lemma SpriteBitBigEndian(row: U8, col: int)
    requires 0 <= col < 8
    ensures SpriteBit(row, col) == (row / Pow2(7 - col)) % 2
    ensures col == 0 ==> (SpriteBit(row, col) == 1 <==> row >= 0x80)
    ensures col == 7 ==> SpriteBit(row, col) == row % 2
  {
    assert Pow2(0) == 1 && Pow2(1) == 2 && Pow2(2) == 4 && Pow2(3) == 8;
    assert Pow2(4) == 16 && Pow2(5) == 32 && Pow2(6) == 64 && Pow2(7) == 128;
  }

  /** XOR on single bits behaves as a toggle: XOR with 1 flips the cell,
      XOR with 0 keeps it, the result is again a bit, and the cell goes from
      1 to 0 exactly when both the cell and the incoming bit are 1. */
  lemma XorBit(cell: U8, bit: U8)
    requires IsBit(cell) && IsBit(bit)
    ensures IsBit(Xor8(cell, bit))
    ensures Xor8(cell, bit) == if bit == 1 then 1 - cell else cell
    ensures (cell == 1 && Xor8(cell, bit) == 0) <==> (cell == 1 && bit == 1)
  {
    if cell == 0 {
      if bit == 0 { assert Xor8(0, 0) == 0; } else { assert Xor8(0, 1) == 1; }
    } else {
      if bit == 0 { assert Xor8(1, 0) == 1; } else { assert Xor8(1, 1) == 0; }
    }
  }

  /** XORing the same bit twice restores the cell. */
  lemma XorBitTwice(cell: U8, bit: U8)
    requires IsBit(cell) && IsBit(bit)
    ensures Xor8(Xor8(cell, bit), bit) == cell
  {
    XorBit(cell, bit);
    XorBit(Xor8(cell, bit), bit);
  }
}
