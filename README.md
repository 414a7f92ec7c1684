# Disk-sharded Bloom filter, modelled in Dafny

This project models the engine of a Bloom filter whose bit array of `m`
bits is split across shard files of `MAX_FILE_BITS` (8,000,000) bits each.
An element gets `k` bit positions by double hashing, `(h1 + i*h2) % m` for
`i` in `0..k`. Here `h1` is the element's murmur3 hash, a signed 32-bit
value, and `h2` is its SHA-256 digest read as an unsigned integer. A
position lives in one shard file, at one byte of that file, at one bit of
that byte, high bit first. Adding an element does a read-modify-write of one
byte per position, OR-ing in a one-bit mask. Testing an element checks its
positions in order and answers "definitely not in the set" at the first bit
that is 0, and "probably in the set" otherwise.

Modules, leaf first:

- `ByteBits` (`byte_bits.dfy`): the mask `1 << (7 - j)`, reading bit `j` of
  a byte as `(b >> (7 - j)) & 1`, and setting it with `b | mask`, on `bv8`.
- `Layout` (`layout.dfy`): the constant `MAX_FILE_BITS`, the number of
  shard files, the hash positions, and the split of a global bit index into
  file, byte and bit.
- `ShardStore` (`shard_store.dfy`): the shard contents as a value
  (`seq<seq<bv8>>`). It defines what setting one bit, adding a list of
  positions and testing a list of positions do. Lemmas here cover
  monotonicity, idempotence and the padding bits.
- `Filter` (`filter.dfy`): the class `BloomFilter`. It holds one `array<bv8>`
  per shard file. A ghost field `Contents` gives their abstract value.
  Methods create the shards, compute positions, set and read bits, add an
  element and test membership. Each is proved against the `ShardStore`
  functions. The module-level lemmas state the filter's guarantees.

The two hash functions are foreign library calls. They are constructor
parameters of type `string -> Int32` and `string -> UInt256`, so nothing
about them is assumed beyond their ranges. Python's `%` with a positive
divisor is a floor modulus, which agrees with Dafny's Euclidean `%`. A
negative murmur3 hash therefore still gives a position in `[0, m)`.

## Model

| member | source | states |
|---|---|---|
| `ByteBits.Mask` | main.py:67 | the mask for bit position `j` is `0x80 >> j`, high bit first, a byte with exactly one bit set |
| `ByteBits.Bit` | main.py:92 | the extracted bit is 0 or 1, and it is 1 exactly when the byte has the bit selected by `Mask(j)` |
| `ByteBits.SetBit` | main.py:67 | OR-ing in the mask makes bit `j` 1, leaves the other seven bits as they were, and leaves a byte whose bit `j` is already 1 unchanged |
| `Layout.FileCount` | main.py:34 | the number of shards is the least `n` with `n * MAX_FILE_BITS >= m`, that is `m / MAX_FILE_BITS` rounded up |
| `Layout.Position` | main.py:52-53 | a hash position lies in `[0, m)` and differs from `h1 + i*h2` by a multiple of `m`, even when `h1` is negative |
| `Layout.Positions` | main.py:48-54 | the position list has exactly `k` entries, and entry `i` is `Position(h1, h2, i, m)` |
| `Layout.AddressOf` | main.py:60-63 | the address of `pos` has `byteIndex < MAX_FILE_BITS/8`, `bitPos < 8` and `fileIndex*MAX_FILE_BITS + byteIndex*8 + bitPos == pos` |
| `Layout.AddressRoundTrip` | main.py:60-63 | every address with an in-file byte index is recovered exactly from its global index |
| `Layout.AddressOfInjective` | main.py:60-63 | two different global indices never map to the same file, byte and bit |
| `Layout.AddressInRange` | main.py:60 | every index below `m` has a file index below `FileCount(m)`, so it names one of the shards that were created |
| `ShardStore.ZeroShards` | main.py:39-43 | the created shards are `FileCount(m)` files of `MAX_FILE_BITS/8` bytes each, and every byte is zero |
| `ShardStore.BitAt` | main.py:85-92 | a global bit is 0 or 1, and it is 1 exactly when its shard byte has the bit `0x80 >> bitPos` set |
| `ShardStore.SetBitIn` | main.py:64-70 | setting a bit writes back the addressed byte OR-ed with its mask and leaves every other byte of every shard unchanged |
| `ShardStore.SetBitInAt` | main.py:64-70 | after setting `pos`, global bit `pos` is 1 and every other global bit below `m` keeps its value |
| `ShardStore.SetBitInCovers` | main.py:67 | setting a bit clears no bit anywhere in the shards |
| `ShardStore.SetBitInKeepsPadding` | main.py:64-70 | setting a bit below `m` leaves every bit at or beyond `m` in the last shard zero |
| `ShardStore.AddAllKeepsPadding` | main.py:59-70 | adding positions below `m` leaves every bit at or beyond `m` zero |
| `ShardStore.ZeroShardsPaddingClear` | main.py:39-43 | on fresh shards the unaddressed bits beyond `m` are zero |
| `ShardStore.AddAll` | main.py:59-70 | setting the positions in order keeps the shard layout, clears no bit, and leaves every listed position set |
| `ShardStore.AddAllAt` | main.py:59-70 | after adding `ps`, a global bit below `m` is 1 if it is in `ps` and keeps its old value otherwise |
| `ShardStore.AddAllFrame` | main.py:59-70 | the same fact as `AddAllAt`, for all bits below `m` at once |
| `ShardStore.CoversKeepsAllSet` | main.py:59-70 | positions that are all set stay set under any later change that clears no bit |
| `ShardStore.AddAllWhenSet` | main.py:64-70 | adding positions that are all set already leaves the shards unchanged |
| `ShardStore.AddAllIdempotent` | main.py:59-70 | adding the same positions twice gives the same shards as adding them once |
| `ShardStore.Query` | main.py:84-95 | the short-circuit test is true exactly when every position's bit is 1, and false exactly when some position's bit is 0 |
| `ShardStore.ZeroShardsQuery` | main.py:89-94 | on freshly created shards, any non-empty list of positions tests false |
| `Filter.ElementPositions` | main.py:48-54 | an element has exactly `k_hash` positions, each in `[0, m_size)` |
| `Filter.Add` | main.py:45-70 | adding an element keeps the layout, clears no bit, and changes exactly the element's bits: each bit below `m_size` is 1 if it is one of the element's positions and keeps its value otherwise |
| `Filter.Member` | main.py:72-95 | an element tests present exactly when the bit at each of its `k_hash` positions is 1 |
| `Filter.AddEach` | main.py:59-70 | adding a sequence of elements in turn clears no bit |
| `Filter.NoFalseNegatives` | main.py:59-95 | after `elem` is added, it tests present, whatever elements are added after it |
| `Filter.AddIdempotent` | main.py:45-70 | adding an element twice leaves the shards identical to adding it once |
| `Filter.FreshFilterIsEmpty` | main.py:32-43 | with `k_hash >= 1`, every element tests absent on freshly created shards |
| `Filter.BloomFilter.constructor` | main.py:21-43 | a new filter keeps `m_size`, `k_hash` and the hashes, and makes `FileCount(m)` fresh, distinct, zero-filled shard buffers |
| `Filter.BloomFilter.ComputePositions` | main.py:48-54 | the append loop builds exactly the list whose entry `i` is `(mmh3(elem) + i*sha256(elem)) % m_size`, the list shared by add and test |
| `Filter.BloomFilter.SetBitAt` | main.py:60-70 | the read-modify-write changes the shards exactly as setting that one bit does, and touches no other shard buffer |
| `Filter.BloomFilter.ReadBit` | main.py:85-92 | the bit read from the shard byte is the filter's global bit at `pos` |
| `Filter.BloomFilter.AddElem` | main.py:45-70 | after the loop, the shards hold the old contents with each of the element's positions set in order, and the object invariant still holds |
| `Filter.BloomFilter.TestMembership` | main.py:72-95 | returns the input element, with false exactly when some position's bit is 0 and true otherwise |
| `Filter.AddThenTest` | main.py:45-95 | adding an element, then any number of other elements, then testing it returns true |

The object invariant `BloomFilter.Valid()` ties each shard buffer to
`Contents`. It also says the buffers are distinct, that there are
`FileCount(m)` of them, each `MAX_FILE_BITS/8` bytes long, and that their
padding bits stay zero. Every state-changing method keeps it.

## Left out

- The sizing formulas for `m_size` and `k_hash` (main.py:24-25) use
  floating-point logarithms. The constructor takes `m` and `k` as given
  integers. It requires `m > 0`. With `m_size == 0` and `k_hash >= 1`, the
  Python `%` raises `ZeroDivisionError` on the first add or test. The case
  `m_size == 0, k_hash == 0`, which an error rate of 1 produces, is excluded
  too. There the loops never reach the `%`, so `add_elem` does nothing and
  `test_membership` returns `(elem, True)`. The requirement `m > 0` also
  excludes a negative `m_size`, which a negative `max_elems` produces
  because only a falsy value is rejected (main.py:129). There no shard is
  created, and the first add or test opens a file that does not exist. An
  error rate above 1 makes `m_size` negative too, so it is excluded the same
  way, although there `k_hash <= 0` and no position is ever computed: add
  does nothing and test returns `(elem, True)`. A loop bound `k_hash <= 0`
  behaves as 0. The model takes `k` as a natural number, and with `m > 0`
  it covers `k == 0`. `n_max_elems` and
  `e_error_rate` are only stored and printed, so they are not fields of the
  model.
- `Layout.FileCount`: the source computes `math.ceil(m_size / MAX_FILE_BITS)`
  with float division. The model uses the exact integer ceiling. The two
  differ only for `m_size` past 2^53.
- `mmh3.hash` and `sha256` are foreign library calls. They are parameters.
  Nothing is assumed about them beyond their ranges.
- `bitarray`, files and folders: `open`, `seek`, `read`, `write`,
  `os.mkdir` and the `bfbits/` paths. Shards are in-memory byte buffers
  indexed by file index. Addressing never leaves the shards that
  `create_files` made. `Layout.AddressInRange` keeps the file index below
  `FileCount(m)`, and `Layout.AddressOf` keeps the byte index below
  `MAX_FILE_BITS/8`. A shard file can still be removed, truncated or made
  unreadable after creation, and other I/O errors can occur. Then `open` or
  `read(1)[0]` raises (main.py:64-70, main.py:89-91). That error path is not
  modelled.
- Elements that are not valid Unicode text. A Python string can hold a
  lone surrogate, for example one decoded from undecodable command-line
  bytes. Then `mmh3.hash(elem)` and `elem.encode('utf-8')` raise
  `UnicodeEncodeError` (main.py:50-51, main.py:76-77). A Dafny `string`
  holds only Unicode scalar values, so it cannot represent such an element,
  and this error path is not modelled.
- Pickle `serialize`/`deserialize` (main.py:97-109) and `__repr__`. This is
  persistence and printing.
- The command-line `main` (main.py:115-156): argument parsing, the
  `DEBUG_MODE` printing, and the `ThreadPoolExecutor` that runs several
  membership tests at once. Concurrency is not modelled, so neither is the
  lost update when two adds race between the read at main.py:64-67 and the
  write at main.py:68-70. Every method runs to completion on its own.
- A crash in the middle of an add, which would leave only some of the
  element's bits set.
- test.py, a false-positive-rate harness driven by a word list and
  `random`. The false-positive rate is a statistical property and is not
  stated.
