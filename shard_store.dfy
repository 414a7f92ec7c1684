/**
 * The abstract state of the filter: the shard files as a sequence of byte
 * sequences, and what setting a bit, adding a list of positions and testing
 * a list of positions do to it.
 */
module ShardStore {
  import opened ByteBits
  import opened Layout

  /** The contents of every shard file, indexed by file index. */
  type Shards = seq<seq<bv8>>

  /** The shards of an `m`-bit filter: `FileCount(m)` files of `FILE_BYTES` bytes each. */
  ghost predicate WellFormed(s: Shards, m: nat)
  {
    |s| == FileCount(m) && forall f :: 0 <= f < |s| ==> |s[f]| == FILE_BYTES
  }

  /** The shards as they are created: every byte zero. */
  ghost function ZeroShards(m: nat): (s: Shards)
    ensures WellFormed(s, m)
    ensures forall f, b :: 0 <= f < |s| && 0 <= b < |s[f]| ==> s[f][b] == 0
  {
    seq(FileCount(m), _ => seq(FILE_BYTES, _ => 0 as bv8))
  }

  /** The byte that holds global bit `pos`, as stored in the shards. */
  ghost function ByteAt(s: Shards, m: nat, pos: nat): bv8
    requires WellFormed(s, m) && pos < m
  {
    AddressInRange(pos, m);
    var a := AddressOf(pos);
    s[a.fileIndex][a.byteIndex]
  }

  /** Global bit `pos` of the filter, 0 or 1. */
  ghost function BitAt(s: Shards, m: nat, pos: nat): (r: bv8)
    requires WellFormed(s, m) && pos < m
    ensures r == 0 || r == 1
    ensures r == 1 <==> ByteAt(s, m, pos) & (0x80 >> AddressOf(pos).bitPos) != 0
  {
    Bit(ByteAt(s, m, pos), AddressOf(pos).bitPos)
  }

  /**
   * Read-modify-write of one byte: the byte holding `pos` gets its bit OR-ed
   * in and every other byte of every shard stays as it was.
   */
  ghost function SetBitIn(s: Shards, m: nat, pos: nat): (t: Shards)
    requires WellFormed(s, m) && pos < m
    ensures WellFormed(t, m)
    ensures ByteAt(t, m, pos) == SetBit(ByteAt(s, m, pos), AddressOf(pos).bitPos)
    ensures forall f, b ::
              0 <= f < |s| && 0 <= b < FILE_BYTES &&
              (f != AddressOf(pos).fileIndex || b != AddressOf(pos).byteIndex)
              ==> t[f][b] == s[f][b]
  {
    AddressInRange(pos, m);
    var a := AddressOf(pos);
    s[a.fileIndex := s[a.fileIndex][a.byteIndex := SetBit(s[a.fileIndex][a.byteIndex], a.bitPos)]]
  }

  /**
   * `t` has every bit that `s` has: same shape, and no bit of any byte,
   * addressed or not, goes from 1 to 0.
   */
  ghost predicate Covers(s: Shards, t: Shards)
  {
    |s| == |t| &&
    (forall f :: 0 <= f < |s| ==> |s[f]| == |t[f]|) &&
    forall f, b, j: BitIndex :: 0 <= f < |s| && 0 <= b < |s[f]| && Bit(s[f][b], j) == 1 ==> Bit(t[f][b], j) == 1
  }

  /** Every position in `ps` is a bit of an `m`-bit filter. */
  ghost predicate InRange(ps: seq<nat>, m: nat)
  {
    forall i :: 0 <= i < |ps| ==> ps[i] < m
  }

  /** Every position in `ps` is set. */
  ghost predicate AllSet(s: Shards, m: nat, ps: seq<nat>)
    requires WellFormed(s, m) && InRange(ps, m)
  {
    forall i :: 0 <= i < |ps| ==> BitAt(s, m, ps[i]) == 1
  }

  /** Sets the bits of `ps` one after the other, in order. */
  ghost function AddAll(s: Shards, m: nat, ps: seq<nat>): (t: Shards)
    requires WellFormed(s, m) && InRange(ps, m)
    ensures WellFormed(t, m)
    ensures Covers(s, t)
    ensures AllSet(t, m, ps)
    decreases |ps|
  {
    if ps == [] then s
    else
      var u := AddAll(s, m, ps[..|ps| - 1]);
      var t := SetBitIn(u, m, ps[|ps| - 1]);
      SetBitInCovers(u, m, ps[|ps| - 1]);
      CoversTransitive(s, u, t);
      CoversKeepsAllSet(u, t, m, ps[..|ps| - 1]);
      t
  }

  /**
   * The membership test over `ps`: checks the positions in order and answers
   * false at the first bit that is 0, true if there is none.
   */
  ghost function Query(s: Shards, m: nat, ps: seq<nat>): (r: bool)
    requires WellFormed(s, m) && InRange(ps, m)
    ensures r <==> AllSet(s, m, ps)
    ensures !r <==> exists i :: 0 <= i < |ps| && BitAt(s, m, ps[i]) == 0
  {
    if ps == [] then true
    else if BitAt(s, m, ps[0]) == 0 then false
    else
      var r := Query(s, m, ps[1..]);
      assert forall i :: 1 <= i < |ps| ==> ps[i] == ps[1..][i - 1];
      r
  }

  /**
   * The bits of the last shard that lie at or beyond `m` are never addressed
   * and are all 0.
   */
  ghost predicate PaddingClear(s: Shards, m: nat)
    requires WellFormed(s, m)
  {
    forall f, b, j: BitIndex ::
      0 <= f < |s| && 0 <= b < FILE_BYTES && GlobalIndex(Address(f, b, j)) >= m
      ==> Bit(s[f][b], j) == 0
  }

  /** Setting a bit below `m` leaves the padding bits 0. */
  lemma SetBitInKeepsPadding(s: Shards, m: nat, pos: nat)
    requires WellFormed(s, m) && pos < m && PaddingClear(s, m)
    ensures PaddingClear(SetBitIn(s, m, pos), m)
  {
  }

  /** Adding positions below `m` leaves the padding bits 0. */
  lemma {:induction false} AddAllKeepsPadding(s: Shards, m: nat, ps: seq<nat>)
    requires WellFormed(s, m) && InRange(ps, m) && PaddingClear(s, m)
    ensures PaddingClear(AddAll(s, m, ps), m)
    decreases |ps|
  {
    if ps != [] {
      AddAllKeepsPadding(s, m, ps[..|ps| - 1]);
      SetBitInKeepsPadding(AddAll(s, m, ps[..|ps| - 1]), m, ps[|ps| - 1]);
    }
  }

  /** Fresh shards have clear padding. */
  lemma ZeroShardsPaddingClear(m: nat)
    ensures PaddingClear(ZeroShards(m), m)
  {
  }

  /** Setting one bit: global bit `q` becomes 1 if it is `pos` and is unchanged otherwise. */
  lemma SetBitInAt(s: Shards, m: nat, pos: nat, q: nat)
    requires WellFormed(s, m) && pos < m && q < m
    ensures BitAt(SetBitIn(s, m, pos), m, q) == if q == pos then 1 else BitAt(s, m, q)
  {
  }

  /** Setting one bit clears none. */
  lemma SetBitInCovers(s: Shards, m: nat, pos: nat)
    requires WellFormed(s, m) && pos < m
    ensures Covers(s, SetBitIn(s, m, pos))
  {
  }

  lemma CoversTransitive(s: Shards, t: Shards, u: Shards)
    requires Covers(s, t) && Covers(t, u)
    ensures Covers(s, u)
  {
  }

  /** Bits that are set stay set, so a list of positions that was all set still is. */
  lemma CoversKeepsAllSet(s: Shards, t: Shards, m: nat, ps: seq<nat>)
    requires WellFormed(s, m) && WellFormed(t, m) && InRange(ps, m)
    requires Covers(s, t) && AllSet(s, m, ps)
    ensures AllSet(t, m, ps)
  {
  }

  /**
   * Adding positions sets exactly those bits: a global bit becomes 1 if it is
   * one of `ps` and keeps its value otherwise.
   */
  lemma {:induction false} AddAllAt(s: Shards, m: nat, ps: seq<nat>, q: nat)
    requires WellFormed(s, m) && InRange(ps, m) && q < m
    ensures BitAt(AddAll(s, m, ps), m, q) == if q in ps then 1 else BitAt(s, m, q)
    decreases |ps|
  {
    if ps != [] {
      var init := ps[..|ps| - 1];
      assert ps == init + [ps[|ps| - 1]];
      AddAllAt(s, m, init, q);
      SetBitInAt(AddAll(s, m, init), m, ps[|ps| - 1], q);
    }
  }

  /** `AddAllAt` for every global bit at once. */
  lemma AddAllFrame(s: Shards, m: nat, ps: seq<nat>)
    requires WellFormed(s, m) && InRange(ps, m)
    ensures forall q: nat :: q < m ==> BitAt(AddAll(s, m, ps), m, q) == if q in ps then 1 else BitAt(s, m, q)
  {
    forall q: nat | q < m
      ensures BitAt(AddAll(s, m, ps), m, q) == if q in ps then 1 else BitAt(s, m, q)
    {
      AddAllAt(s, m, ps, q);
    }
  }

  /** Adding positions that are all set already changes nothing. */
  lemma {:induction false} AddAllWhenSet(s: Shards, m: nat, ps: seq<nat>)
    requires WellFormed(s, m) && InRange(ps, m) && AllSet(s, m, ps)
    ensures AddAll(s, m, ps) == s
    decreases |ps|
  {
    if ps != [] {
      var init := ps[..|ps| - 1];
      assert AllSet(s, m, init) by {
        assert forall i :: 0 <= i < |init| ==> init[i] == ps[i];
      }
      AddAllWhenSet(s, m, init);
      var pos := ps[|ps| - 1];
      var a := AddressOf(pos);
      AddressInRange(pos, m);
      assert BitAt(s, m, pos) == 1;
      assert s[a.fileIndex][a.byteIndex := s[a.fileIndex][a.byteIndex]] == s[a.fileIndex];
    }
  }

  /** Adding the same positions twice leaves the shards as adding them once. */
  lemma AddAllIdempotent(s: Shards, m: nat, ps: seq<nat>)
    requires WellFormed(s, m) && InRange(ps, m)
    ensures AddAll(AddAll(s, m, ps), m, ps) == AddAll(s, m, ps)
  {
    AddAllWhenSet(AddAll(s, m, ps), m, ps);
  }

  /** On freshly created shards every bit is 0, so a non-empty query is false. */
  lemma ZeroShardsQuery(m: nat, ps: seq<nat>)
    requires InRange(ps, m) && |ps| >= 1
    ensures !Query(ZeroShards(m), m, ps)
  {
  }
}
