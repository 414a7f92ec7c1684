/**
 * Single-bit operations on one byte of a shard, most-significant bit first:
 * bit position 0 is the high bit (mask 0x80), bit position 7 the low bit.
 */
module ByteBits {

  /** A bit position within a byte. */
  type BitIndex = i: int | 0 <= i < 8

  /** The mask `1 << (7 - j)` that selects bit position `j`. */
  function Mask(j: BitIndex): (r: bv8)
    ensures r == 0x80 >> j
    ensures r != 0
    ensures r & (r - 1) == 0
  {
    1 << (7 - j)
  }

  /** The bit at position `j`, read as `(b >> (7 - j)) & 1`. */
  function Bit(b: bv8, j: BitIndex): (r: bv8)
    ensures r == 0 || r == 1
    ensures r == 1 <==> b & Mask(j) != 0
  {
    (b >> (7 - j)) & 1
  }

  /** `b | Mask(j)`: sets bit `j` and leaves the other seven bits as they were. */
  function SetBit(b: bv8, j: BitIndex): (r: bv8)
    ensures Bit(r, j) == 1
    ensures forall i: BitIndex :: i != j ==> Bit(r, i) == Bit(b, i)
    ensures Bit(b, j) == 1 ==> r == b
  {
    forall i: BitIndex | i != j
      ensures Bit(b | Mask(j), i) == Bit(b, i)
    {
      OrKeepsOtherBit(b, j, i);
    }
    b | Mask(j)
  }

  /** OR-ing in the mask of bit `j` does not change bit `i != j`. */
  lemma OrKeepsOtherBit(b: bv8, j: BitIndex, i: BitIndex)
    requires i != j
    ensures Bit(b | Mask(j), i) == Bit(b, i)
  {
  }
}
