/**
 * The Bloom filter engine: a filter of `mSize` bits and `kHash` hash
 * positions per element, whose bits are kept in fixed-size shard buffers.
 */
module Filter {
  import opened ByteBits
  import opened Layout
  import opened ShardStore

  /** What fixes an element's positions: the filter's size, hash count and two base hashes. */
  datatype Params = Params(mSize: nat, kHash: nat, mmh3: string -> Int32, sha256: string -> UInt256)

  /** The positions of `elem`, `(mmh3(elem) + i*sha256(elem)) % mSize` for `i` in `0..kHash`. */
  function ElementPositions(p: Params, elem: string): (ps: seq<nat>)
    requires p.mSize > 0
    ensures |ps| == p.kHash
    ensures InRange(ps, p.mSize)
  {
    Positions(p.mmh3(elem), p.sha256(elem), p.kHash, p.mSize)
  }

  /** The shards after `elem` is added. */
  ghost function Add(p: Params, s: Shards, elem: string): (t: Shards)
    requires p.mSize > 0 && WellFormed(s, p.mSize)
    ensures WellFormed(t, p.mSize)
    ensures Covers(s, t)
    ensures forall q: nat :: q < p.mSize ==>
              BitAt(t, p.mSize, q) == if q in ElementPositions(p, elem) then 1 else BitAt(s, p.mSize, q)
  {
    AddAllFrame(s, p.mSize, ElementPositions(p, elem));
    AddAll(s, p.mSize, ElementPositions(p, elem))
  }

  /** The shards after each of `elems` is added, in order. */
  ghost function AddEach(p: Params, s: Shards, elems: seq<string>): (t: Shards)
    requires p.mSize > 0 && WellFormed(s, p.mSize)
    ensures WellFormed(t, p.mSize)
    ensures Covers(s, t)
    decreases |elems|
  {
    if elems == [] then s
    else
      var u := Add(p, s, elems[0]);
      var t := AddEach(p, u, elems[1..]);
      CoversTransitive(s, u, t);
      t
  }

  /** Whether `elem` tests as probably present. */
  ghost function Member(p: Params, s: Shards, elem: string): (r: bool)
    requires p.mSize > 0 && WellFormed(s, p.mSize)
    ensures r <==> forall i :: 0 <= i < p.kHash ==> BitAt(s, p.mSize, ElementPositions(p, elem)[i]) == 1
  {
    Query(s, p.mSize, ElementPositions(p, elem))
  }

  /** No false negatives: an added element tests present, whatever is added after it. */
  lemma NoFalseNegatives(p: Params, s: Shards, elem: string, later: seq<string>)
    requires p.mSize > 0 && WellFormed(s, p.mSize)
    ensures Member(p, AddEach(p, Add(p, s, elem), later), elem)
  {
  }

  /** Adding an element twice leaves the shards as adding it once. */
  lemma AddIdempotent(p: Params, s: Shards, elem: string)
    requires p.mSize > 0 && WellFormed(s, p.mSize)
    ensures Add(p, Add(p, s, elem), elem) == Add(p, s, elem)
  {
    AddAllIdempotent(s, p.mSize, ElementPositions(p, elem));
  }

  /** On freshly created shards every element tests absent, given at least one hash. */
  lemma FreshFilterIsEmpty(p: Params, elem: string)
    requires p.mSize > 0 && p.kHash >= 1
    ensures !Member(p, ZeroShards(p.mSize), elem)
  {
  }

  class BloomFilter {
    /** Number of bits, `m`. */
    const mSize: nat
    /** Number of hash positions per element, `k`. */
    const kHash: nat
    /** The murmur3 hash of an element, a signed 32-bit value. */
    const mmh3: string -> Int32
    /** The SHA-256 digest of an element's UTF-8 bytes, read as an unsigned integer. */
    const sha256: string -> UInt256
    /** One byte buffer per shard file, indexed by file index. */
    const shards: seq<array<bv8>>
    /** What the shard buffers hold. */
    ghost var Contents: Shards

    ghost function Config(): Params
    {
      Params(mSize, kHash, mmh3, sha256)
    }

    ghost predicate Valid()
      reads this, shards
    {
      mSize > 0 &&
      WellFormed(Contents, mSize) &&
      PaddingClear(Contents, mSize) &&
      |shards| == |Contents| &&
      (forall f :: 0 <= f < |shards| ==> shards[f].Length == FILE_BYTES && shards[f][..] == Contents[f]) &&
      (forall f, g :: 0 <= f < g < |shards| ==> shards[f] != shards[g])
    }

    /** Creates the filter and its `FileCount(m)` zero-filled shards. */
    constructor (m: nat, k: nat, h1: string -> Int32, h2: string -> UInt256)
      requires m > 0
      ensures Valid()
      ensures mSize == m && kHash == k && mmh3 == h1 && sha256 == h2
      ensures |shards| == FileCount(m) && forall f :: 0 <= f < |shards| ==> fresh(shards[f])
      ensures Contents == ZeroShards(m)
    {
      var files: seq<array<bv8>> := [];
      var n := FileCount(m);
      var i := 0;
      while i < n
        invariant 0 <= i <= n && |files| == i
        invariant forall f :: 0 <= f < i ==> fresh(files[f])
        invariant forall f :: 0 <= f < i ==> files[f].Length == FILE_BYTES
        invariant forall f :: 0 <= f < i ==> forall b :: 0 <= b < FILE_BYTES ==> files[f][b] == 0
        invariant forall f, g :: 0 <= f < g < i ==> files[f] != files[g]
      {
        var bits := new bv8[FILE_BYTES](_ => 0);
        files := files + [bits];
        i := i + 1;
      }
      mSize, kHash, mmh3, sha256 := m, k, h1, h2;
      shards := files;
      Contents := ZeroShards(m);
      new;
      ZeroShardsPaddingClear(m);
      forall f | 0 <= f < |shards|
        ensures shards[f][..] == Contents[f]
      {
        assert forall b :: 0 <= b < FILE_BYTES ==> shards[f][..][b] == Contents[f][b];
      }
    }

    /** The `kHash` positions of `elem`, built by appending one per hash index. */
    method ComputePositions(elem: string) returns (positions: seq<nat>)
      requires mSize > 0
      ensures positions == ElementPositions(Config(), elem)
    {
      positions := [];
      var i := 0;
      while i < kHash
        invariant 0 <= i <= kHash
        invariant positions == ElementPositions(Config(), elem)[..i]
      {
        var pos := mmh3(elem) + i * sha256(elem);
        pos := pos % mSize;
        positions := positions + [pos];
        i := i + 1;
      }
    }

    /** Reads one byte of a shard and ORs the bit of `pos` into it. */
    method SetBitAt(pos: nat)
      requires Valid() && pos < mSize
      modifies this, shards
      ensures Valid()
      ensures Contents == SetBitIn(old(Contents), mSize, pos)
      ensures forall f :: 0 <= f < |shards| && f != AddressOf(pos).fileIndex ==> unchanged(shards[f])
    {
      AddressInRange(pos, mSize);
      var a := AddressOf(pos);
      var file := shards[a.fileIndex];
      var byte := file[a.byteIndex];
      byte := byte | Mask(a.bitPos);
      file[a.byteIndex] := byte;
      SetBitInKeepsPadding(Contents, mSize, pos);
      Contents := SetBitIn(Contents, mSize, pos);
    }

    /** Reads the bit of `pos` from its shard byte, as `(byte >> (7 - bitPos)) & 1`. */
    method ReadBit(pos: nat) returns (bit: bv8)
      requires Valid() && pos < mSize
      ensures bit == BitAt(Contents, mSize, pos)
    {
      AddressInRange(pos, mSize);
      var a := AddressOf(pos);
      var byte := shards[a.fileIndex][a.byteIndex];
      bit := (byte >> (7 - a.bitPos)) & 1;
    }

    /** Sets every hash position of `elem`, one read-modify-write per position, in order. */
    method AddElem(elem: string)
      requires Valid()
      modifies this, shards
      ensures Valid()
      ensures Contents == Add(Config(), old(Contents), elem)
    {
      var positions := ComputePositions(elem);
      var i := 0;
      while i < |positions|
        invariant 0 <= i <= |positions|
        invariant Valid()
        invariant Contents == AddAll(old(Contents), mSize, positions[..i])
      {
        SetBitAt(positions[i]);
        assert positions[..i + 1][..i] == positions[..i];
        i := i + 1;
      }
      assert positions[..i] == positions;
    }

    /**
     * Tests `elem`: returns it with false at the first hash position whose
     * bit is 0, and with true when all of them are set.
     */
    method TestMembership(elem: string) returns (e: string, found: bool)
      requires Valid()
      ensures e == elem
      ensures found == Member(Config(), Contents, elem)
      ensures !found <==> exists i :: 0 <= i < kHash && BitAt(Contents, mSize, ElementPositions(Config(), elem)[i]) == 0
    {
      e := elem;
      var positions := ComputePositions(elem);
      var i := 0;
      while i < |positions|
        invariant 0 <= i <= |positions|
        invariant forall j :: 0 <= j < i ==> BitAt(Contents, mSize, positions[j]) == 1
      {
        var bit := ReadBit(positions[i]);
        if bit == 0 {
          return elem, false;
        }
        i := i + 1;
      }
      found := true;
    }
  }

  /** An element added to a filter tests present however many elements are added after it. */
  method AddThenTest(filter: BloomFilter, elem: string, later: seq<string>) returns (found: bool)
    requires filter.Valid()
    modifies filter, filter.shards
    ensures filter.Valid()
    ensures filter.Contents == AddEach(filter.Config(), Add(filter.Config(), old(filter.Contents), elem), later)
    ensures found
  {
    filter.AddElem(elem);
    ghost var afterElem := filter.Contents;
    var i := 0;
    while i < |later|
      invariant 0 <= i <= |later|
      invariant filter.Valid()
      invariant AddEach(filter.Config(), afterElem, later) == AddEach(filter.Config(), filter.Contents, later[i..])
    {
      assert later[i..][1..] == later[i + 1..];
      filter.AddElem(later[i]);
      i := i + 1;
    }
    NoFalseNegatives(filter.Config(), old(filter.Contents), elem, later);
    var e;
    e, found := filter.TestMembership(elem);
  }
}
