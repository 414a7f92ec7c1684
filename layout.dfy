/**
 * Where the Bloom filter's bits live: the hash positions of an element and
 * the mapping of a global bit index to a shard, a byte in it and a bit in
 * that byte.
 */
module Layout {
  import opened ByteBits

  /** Number of bits held by each shard file. */
  const MAX_FILE_BITS: nat := 8_000_000

  /** Number of bytes in each shard file. */
  const FILE_BYTES: nat := MAX_FILE_BITS / 8

  const TWO_POW_31: int := 0x8000_0000
  const TWO_POW_256: int := 0x1_0000_0000_0000_0000_0000_0000_0000_0000_0000_0000_0000_0000_0000_0000_0000_0000

  /** A signed 32-bit value, the range of the murmur3 hash. */
  type Int32 = x: int | -TWO_POW_31 <= x < TWO_POW_31

  /** An unsigned 256-bit value, the range of a SHA-256 digest read as an integer. */
  type UInt256 = x: int | 0 <= x < TWO_POW_256

  /**
   * Number of shards made for a filter of `m` bits: `m / MAX_FILE_BITS`
   * rounded up.
   */
  function FileCount(m: nat): (n: nat)
    ensures n * MAX_FILE_BITS >= m
    ensures n == 0 || (n - 1) * MAX_FILE_BITS < m
  {
    (m + MAX_FILE_BITS - 1) / MAX_FILE_BITS
  }

  /**
   * Hash position `i` of an element whose two base hashes are `h1` and `h2`:
   * `(h1 + i*h2) % m`, with the floor modulus Python uses, which for a
   * positive divisor is Dafny's Euclidean `%`.
   */
  function Position(h1: Int32, h2: UInt256, i: nat, m: nat): (p: nat)
    requires m > 0
    ensures p < m
    ensures exists q: int {:trigger q * m} :: h1 + i * h2 == q * m + p
  {
    var raw := h1 + i * h2;
    assert raw == (raw / m) * m + raw % m;
    raw % m
  }

  /** The `k` hash positions of an element, in generation order. */
  function Positions(h1: Int32, h2: UInt256, k: nat, m: nat): (ps: seq<nat>)
    requires m > 0
    ensures |ps| == k
    ensures forall i :: 0 <= i < k ==> ps[i] == Position(h1, h2, i, m)
  {
    seq(k, i requires 0 <= i => Position(h1, h2, i, m))
  }

  /** Where a global bit index lives: shard file, byte in that file, bit in that byte. */
  datatype Address = Address(fileIndex: nat, byteIndex: nat, bitPos: BitIndex)
  {
    predicate Valid() { byteIndex < FILE_BYTES }
  }

  /** The global bit index an address stands for. */
  function GlobalIndex(a: Address): (pos: nat)
  {
    a.fileIndex * MAX_FILE_BITS + a.byteIndex * 8 + a.bitPos
  }

  /** Splits a global bit index into shard, byte and bit. */
  function AddressOf(pos: nat): (a: Address)
    ensures a.Valid()
    ensures GlobalIndex(a) == pos
  {
    var fileBitPos := pos % MAX_FILE_BITS;
    Address(pos / MAX_FILE_BITS, fileBitPos / 8, fileBitPos % 8)
  }

  /** Decomposition is exact both ways: a valid address is recovered from its index. */
  lemma AddressRoundTrip(a: Address)
    requires a.Valid()
    ensures AddressOf(GlobalIndex(a)) == a
  {
  }

  /** Different global indices never share an address. */
  lemma AddressOfInjective(p: nat, q: nat)
    requires AddressOf(p) == AddressOf(q)
    ensures p == q
  {
  }

  /** Every index below `m` addresses one of the `FileCount(m)` shards. */
  lemma AddressInRange(pos: nat, m: nat)
    requires pos < m
    ensures AddressOf(pos).fileIndex < FileCount(m)
  {
  }
}
