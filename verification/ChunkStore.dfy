/** Chunks cut into fixed-size blocks of one file, and tables of packed entries that
    find them again. */
module ChunkStore {
  import opened Zen
  import opened Arithmetic
  import opened Bytes

  // ---------------------------------------------------------- masked alignment

  function Pow2(k: nat): (r: nat)
    ensures r > 0
  {
    if k == 0 then 1 else 2 * Pow2(k - 1)
  }

  /** Bitwise conjunction. */
  function BitAnd(x: nat, y: nat): nat {
    if x == 0 || y == 0 then 0 else (x % 2) * (y % 2) + 2 * BitAnd(x / 2, y / 2)
  }

  /** Bitwise complement in 64 bits. */
  function Not64(x: nat): nat
    requires x < U64_RANGE
  {
    U64_RANGE - 1 - x
  }

  /** Rounds up to a multiple of a power of two by masking; sums stay below 2^64. */
  function Align(value: nat, alignment: nat): nat
    requires 0 < alignment < U64_RANGE
  {
    BitAnd(value + alignment - 1, Not64(alignment - 1))
  }

  lemma {:induction false} Pow2Grows(k: nat, n: nat)
    requires k <= n
    ensures Pow2(k) <= Pow2(n)
    decreases n - k
  {
    if k < n {
      Pow2Grows(k + 1, n);
    }
  }

  lemma {:induction false} ModDouble(x: nat, m: nat)
    requires m > 0
    ensures x % (2 * m) == 2 * (x / 2 % m) + x % 2
  {
    var h := x / 2;
    var q := h / m;
    assert h == m * q + h % m;
    assert x == 2 * m * q + (2 * (h % m) + x % 2);
    ModUnique(x, 2 * m, q, 2 * (h % m) + x % 2);
  }

  lemma {:induction false} RoundDown(x: nat, m: nat)
    requires m > 0
    ensures x - x % m == x / m * m && (x - x % m) % m == 0
  {
    assert x == m * (x / m) + x % m;
    ModUnique(x - x % m, m, x / m, 0);
  }

  lemma {:induction false} HalveMask(a: nat)
    requires a > 0
    ensures (2 * a - 1) / 2 == a - 1 && (2 * a - 1) % 2 == 1
  {
  }

  lemma {:induction false} FullMask(x: nat, n: nat)
    requires x < Pow2(n)
    ensures BitAnd(x, Pow2(n) - 1) == x
  {
    if n > 0 {
      FullMask(x / 2, n - 1);
      HalveMask(Pow2(n - 1));
    }
  }

  lemma {:induction false} BitAndEven(x: nat, y: nat)
    requires y % 2 == 0
    ensures BitAnd(x, y) == 2 * BitAnd(x / 2, y / 2)
  {
  }

  lemma {:induction false} HalveCleared(x: nat, m: nat)
    requires m > 0
    ensures x - x % (2 * m) == 2 * (x / 2 - x / 2 % m)
  {
    ModDouble(x, m);
  }

  lemma {:induction false} HalveDifference(a: nat, b: nat)
    requires b <= a
    ensures (2 * a - 2 * b) / 2 == a - b && (2 * a - 2 * b) % 2 == 0
  {
  }

  lemma {:induction false} MaskDoubles(x: nat, a: nat, b: nat)
    requires 0 < b <= a && BitAnd(x / 2, a - b) == x / 2 - x / 2 % b
    ensures BitAnd(x, 2 * a - 2 * b) == x - x % (2 * b)
  {
    HalveDifference(a, b);
    BitAndEven(x, 2 * a - 2 * b);
    HalveCleared(x, b);
  }

  /** Masking with all bits from the `k`-th up to the `n`-th clears the lower ones. */
  lemma {:induction false} MaskClears(x: nat, k: nat, n: nat)
    requires k <= n && x < Pow2(n)
    ensures Pow2(k) <= Pow2(n) && BitAnd(x, Pow2(n) - Pow2(k)) == x - x % Pow2(k)
    decreases n
  {
    Pow2Grows(k, n);
    if k == 0 {
      FullMask(x, n);
    } else {
      MaskClears(x / 2, k - 1, n - 1);
      MaskDoubles(x, Pow2(n - 1), Pow2(k - 1));
    }
  }

  /** `a` is the least multiple of `m` that is not smaller than `value`. */
  predicate RoundedUp(value: nat, m: nat, a: nat)
    requires m > 0
  {
    a % m == 0 && value <= a < value + m && a == (value + m - 1) / m * m
  }

  lemma {:induction false} RoundUp(value: nat, m: nat)
    requires m > 0
    ensures RoundedUp(value, m, value + m - 1 - (value + m - 1) % m)
  {
    RoundDown(value + m - 1, m);
  }

  lemma {:induction false} MaskOfAlignment(x: nat, m: nat, k: nat, n: nat, range: nat)
    requires k <= n && range == Pow2(n) && x < range && m == Pow2(k)
    ensures m <= range && BitAnd(x, range - 1 - (m - 1)) == x - x % m
  {
    MaskClears(x, k, n);
  }

  lemma {:induction false} Pow2Plus(a: nat, b: nat)
    ensures Pow2(a + b) == Pow2(a) * Pow2(b)
  {
    if b > 0 {
      Pow2Plus(a, b - 1);
    }
  }

  lemma {:induction false} Pow2Of64()
    ensures Pow2(64) == U64_RANGE && Pow2(16) == 0x10000 && Pow2(4) == 16
  {
    assert Pow2(4) == 2 * Pow2(3) == 4 * Pow2(2) == 8 * Pow2(1) == 16;
    Pow2Plus(4, 4);
    Pow2Plus(8, 8);
    Pow2Plus(16, 16);
    Pow2Plus(32, 32);
  }

  /** Masked alignment is rounding up. */
  lemma {:induction false} AlignRoundsUp(value: nat, alignment: nat, k: nat)
    requires k < 64 && alignment == Pow2(k) && value + alignment <= U64_RANGE
    ensures 0 < alignment < U64_RANGE && RoundedUp(value, alignment, Align(value, alignment))
  {
    Pow2Of64();
    Pow2Grows(k, 63);
    MaskOfAlignment(value + alignment - 1, alignment, k, 64, U64_RANGE);
    RoundUp(value, alignment);
  }

  // ------------------------------------------------------------- packed entries

  function EncodeBE(v: nat, n: nat): (r: seq<Byte>)
    ensures |r| == n
  {
    if n == 0 then [] else EncodeBE(v / 256, n - 1) + [v % 256]
  }

  /** The byte `k` places before the last of a big-endian number is its digit of weight
      256 ^ `k`. */
  lemma {:induction false} BigEndianByte(v: nat, n: nat, k: nat)
    requires k < n
    ensures EncodeBE(v, n)[n - 1 - k] == v / Pow256(k) % 256
  {
    if k > 0 {
      BigEndianByte(v / 256, n - 1, k - 1);
      DivideTwice(v, 256, Pow256(k - 1));
    }
  }

  function DecodeBE(s: seq<Byte>): nat {
    if s == [] then 0 else 256 * DecodeBE(s[..|s| - 1]) + s[|s| - 1]
  }

  const FIELD_RANGE := 0x100_0000_0000

  lemma {:induction false} BigEndianRoundTrip(v: nat, n: nat)
    requires v < Pow256(n)
    ensures DecodeBE(EncodeBE(v, n)) == v
  {
    if n > 0 {
      BigEndianRoundTrip(v / 256, n - 1);
      assert EncodeBE(v, n)[..n - 1] == EncodeBE(v / 256, n - 1);
    }
  }

  lemma {:induction false} BigEndianTail(v: nat, m: nat, n: nat)
    requires m <= n
    ensures EncodeBE(v, n)[n - m..] == EncodeBE(v, m)
    decreases m
  {
    if m == 0 {
      assert EncodeBE(v, n)[n..] == [];
    } else {
      BigEndianTail(v / 256, m - 1, n - 1);
      assert EncodeBE(v, n)[n - m..] == EncodeBE(v / 256, n - 1)[n - m..] + [v % 256];
    }
  }

  lemma {:induction false} DecodeZeros(k: nat, s: seq<Byte>)
    ensures DecodeBE(Zeros(k) + s) == DecodeBE(s)
  {
    if s != [] {
      DecodeZeros(k, s[..|s| - 1]);
      assert (Zeros(k) + s)[..k + |s| - 1] == Zeros(k) + s[..|s| - 1];
    } else if k > 0 {
      assert Zeros(k) + s == Zeros(k) && Zeros(k)[..k - 1] == Zeros(k - 1) + [];
      DecodeZeros(k - 1, []);
    } else {
      assert Zeros(0) + s == s;
    }
  }

  /** Offset and length of a chunk: two 40-bit big-endian fields in ten bytes. */
  datatype OffsetAndLength = OffsetAndLength(data: seq<Byte>) {
    predicate Valid() {
      |data| == 10
    }

    function Offset(): nat
      requires Valid()
    {
      DecodeBE(Zeros(3) + data[..5])
    }

    function Length(): nat
      requires Valid()
    {
      DecodeBE(Zeros(3) + data[5..])
    }
  }

  function PackOffsetAndLength(offset: nat, length: nat): (r: OffsetAndLength)
    ensures r.Valid()
  {
    OffsetAndLength(EncodeBE(offset, 8)[3..] + EncodeBE(length, 8)[3..])
  }

  /** The offset stands in the first five bytes and the length in the last five, highest
      digit first. */
  lemma {:induction false} PackedBytes(offset: nat, length: nat, k: nat)
    requires k < 5
    ensures PackOffsetAndLength(offset, length).data[4 - k] == offset / Pow256(k) % 256
    ensures PackOffsetAndLength(offset, length).data[9 - k] == length / Pow256(k) % 256
  {
    BigEndianByte(offset, 8, k);
    BigEndianByte(length, 8, k);
  }

  lemma {:induction false} PackedFieldRoundTrip(v: nat)
    requires v < FIELD_RANGE
    ensures DecodeBE(Zeros(3) + EncodeBE(v, 8)[3..]) == v
  {
    assert Pow256(5) == 256 * Pow256(4) == 65536 * Pow256(3) == 0x1000000 * Pow256(2) == FIELD_RANGE;
    BigEndianTail(v, 5, 8);
    DecodeZeros(3, EncodeBE(v, 5));
    BigEndianRoundTrip(v, 5);
  }

  lemma {:induction false} OffsetAndLengthRoundTrip(offset: nat, length: nat)
    requires offset < FIELD_RANGE && length < FIELD_RANGE
    ensures PackOffsetAndLength(offset, length).Offset() == offset
    ensures PackOffsetAndLength(offset, length).Length() == length
  {
    var p := PackOffsetAndLength(offset, length);
    assert p.data[..5] == EncodeBE(offset, 8)[3..] && p.data[5..] == EncodeBE(length, 8)[3..];
    PackedFieldRoundTrip(offset);
    PackedFieldRoundTrip(length);
  }

  /** A block: a 40-bit offset, two 24-bit sizes, all little-endian, and a compression
      method, in twelve bytes. */
  datatype BlockEntry = BlockEntry(data: seq<Byte>) {
    predicate Valid() {
      |data| == 12
    }

    function Offset(): nat
      requires Valid()
    {
      DecodeLE(data[..5] + Zeros(3))
    }

    function CompressedSize(): nat
      requires Valid()
    {
      DecodeLE(data[5..8] + Zeros(1))
    }

    function UncompressedSize(): nat
      requires Valid()
    {
      DecodeLE(data[8..11] + Zeros(1))
    }

    function Method(): Byte
      requires Valid()
    {
      data[11]
    }
  }

  function PackBlock(offset: nat, compressedSize: nat, uncompressedSize: nat, compressionMethod: Byte): (r: BlockEntry)
    ensures r.Valid()
  {
    BlockEntry(EncodeLE(offset, 8)[..5] + EncodeLE(compressedSize, 4)[..3] + EncodeLE(uncompressedSize, 4)[..3] +
               [compressionMethod])
  }

  /** The offset stands in bytes 0 to 4, the compressed size in bytes 5 to 7 and the
      uncompressed size in bytes 8 to 10, lowest digit first, and the method behind them. */
  lemma {:induction false} BlockBytes(offset: nat, compressedSize: nat, uncompressedSize: nat, compressionMethod: Byte,
                                      k: nat)
    requires k < 5
    ensures var data := PackBlock(offset, compressedSize, uncompressedSize, compressionMethod).data;
            && data[k] == offset / Pow256(k) % 256
            && (k < 3 ==> data[5 + k] == compressedSize / Pow256(k) % 256 &&
                          data[8 + k] == uncompressedSize / Pow256(k) % 256)
            && data[11] == compressionMethod
  {
    LittleEndianByte(offset, 8, k);
    if k < 3 {
      LittleEndianByte(compressedSize, 4, k);
      LittleEndianByte(uncompressedSize, 4, k);
    }
  }

  lemma {:induction false} LittleEndianHead(v: nat, m: nat, n: nat)
    requires m <= n
    ensures EncodeLE(v, n)[..m] == EncodeLE(v, m)
    decreases m
  {
    if m > 0 {
      LittleEndianHead(v / 256, m - 1, n - 1);
    }
  }

  lemma {:induction false} DecodeTrailingZeros(s: seq<Byte>, k: nat)
    ensures DecodeLE(s + Zeros(k)) == DecodeLE(s)
    decreases |s|, k
  {
    if s != [] {
      DecodeTrailingZeros(s[1..], k);
      assert (s + Zeros(k))[1..] == s[1..] + Zeros(k);
    } else if k > 0 {
      assert s + Zeros(k) == Zeros(k) && Zeros(k)[1..] == s + Zeros(k - 1);
      DecodeTrailingZeros(s, k - 1);
    } else {
      assert s + Zeros(0) == s;
    }
  }

  lemma {:induction false} LittleFieldRoundTrip(v: nat, m: nat, n: nat)
    requires m <= n && v < Pow256(m)
    ensures DecodeLE(EncodeLE(v, n)[..m] + Zeros(n - m)) == v
  {
    LittleEndianHead(v, m, n);
    DecodeTrailingZeros(EncodeLE(v, m), n - m);
    LittleEndianRoundTrip(v, m);
  }

  lemma {:induction false} BlockRoundTrip(offset: nat, compressedSize: nat, uncompressedSize: nat,
                                          compressionMethod: Byte)
    requires offset < FIELD_RANGE && compressedSize < 0x100_0000 && uncompressedSize < 0x100_0000
    ensures var e := PackBlock(offset, compressedSize, uncompressedSize, compressionMethod);
            && e.Offset() == offset && e.CompressedSize() == compressedSize
            && e.UncompressedSize() == uncompressedSize && e.Method() == compressionMethod
  {
    assert Pow256(5) == 256 * Pow256(4) == 65536 * Pow256(3) == 0x1000000 * Pow256(2) == FIELD_RANGE;
    assert Pow256(3) == 0x100_0000;
    var e := PackBlock(offset, compressedSize, uncompressedSize, compressionMethod);
    assert e.data[..5] == EncodeLE(offset, 8)[..5];
    assert e.data[5..8] == EncodeLE(compressedSize, 4)[..3];
    assert e.data[8..11] == EncodeLE(uncompressedSize, 4)[..3];
    LittleFieldRoundTrip(offset, 5, 8);
    LittleFieldRoundTrip(compressedSize, 3, 4);
    LittleFieldRoundTrip(uncompressedSize, 3, 4);
  }

  // ------------------------------------------------------------------ the store

  const BLOCK_SIZE := 0x10000

  function BlockCount(n: nat): nat {
    (n + BLOCK_SIZE - 1) / BLOCK_SIZE
  }

  /** Block `j` of a chunk of `n` bytes starts here. */
  function BlockStart(n: nat, j: nat): nat {
    Min(j * BLOCK_SIZE, n)
  }

  ghost predicate BlockOk(e: BlockEntry, offset: nat, size: nat) {
    e.Valid() && e.Offset() == offset && e.CompressedSize() == size && e.UncompressedSize() == size && e.Method() == 0
  }

  /** Where a chunk went: its first block and its place in the file. */
  datatype Location = Location(startBlock: nat, position: nat)

  /** Block `j` of a chunk of `n` bytes. */
  ghost predicate BlockAt(blocks: seq<BlockEntry>, location: Location, n: nat, j: nat) {
    && location.startBlock + j < |blocks|
    && BlockOk(blocks[location.startBlock + j], location.position + BlockStart(n, j),
               BlockStart(n, j + 1) - BlockStart(n, j))
  }

  ghost predicate BlocksOk(blocks: seq<BlockEntry>, location: Location, n: nat, count: nat) {
    && location.startBlock + count <= |blocks|
    && forall j: nat {:trigger BlockAt(blocks, location, n, j)} :: j < count ==> BlockAt(blocks, location, n, j)
  }

  ghost predicate ChunkAt(cas: seq<Byte>, blocks: seq<BlockEntry>, entry: OffsetAndLength, location: Location,
                          data: seq<Byte>)
  {
    && entry.Valid() && entry.Offset() == location.startBlock * BLOCK_SIZE && entry.Length() == |data|
    && location.position + |data| <= |cas| && cas[location.position..location.position + |data|] == data
    && BlocksOk(blocks, location, |data|, BlockCount(|data|))
  }

  class ChunkWriter {
    var cas: seq<Byte>
    var blocks: seq<BlockEntry>
    var offsetLengths: seq<OffsetAndLength>
    ghost var chunks: seq<seq<Byte>>
    ghost var locations: seq<Location>

    ghost predicate Valid()
      reads this
    {
      && |offsetLengths| == |chunks| == |locations|
      && forall i: nat :: i < |chunks| ==> ChunkAt(cas, blocks, offsetLengths[i], locations[i], chunks[i])
    }

    constructor ()
      ensures Valid() && chunks == []
    {
      cas, blocks, offsetLengths, chunks, locations := [], [], [], [], [];
    }

    /** Appends the data as blocks and an entry that finds them. The file, and the
        block count times the block size, stay below 2^40. */
    method WriteChunk(data: seq<Byte>)
      requires Valid() && |cas| + |data| < FIELD_RANGE && |blocks| * BLOCK_SIZE < FIELD_RANGE
      modifies this
      ensures Valid() && chunks == old(chunks) + [data] && cas == old(cas) + data
      ensures |blocks| == |old(blocks)| + BlockCount(|data|) && old(offsetLengths) <= offsetLengths
      ensures locations == old(locations) + [Location(|old(blocks)|, |old(cas)|)]
    {
      ghost var location := Location(|blocks|, |cas|);
      ghost var cas0, blocks0 := cas, blocks;
      var startBlock := |blocks|;
      var newBlocks, offset := CutBlocks(data, |cas|);
      cas := cas + data;
      blocks := blocks + newBlocks;
      OffsetAndLengthRoundTrip(startBlock * BLOCK_SIZE, |data|);
      forall i: nat | i < |chunks|
        ensures ChunkAt(cas, blocks, offsetLengths[i], locations[i], chunks[i])
      {
        ChunkStays(cas0, data, blocks0, newBlocks, offsetLengths[i], locations[i], chunks[i]);
      }
      ChunkPlaced(cas0, data, blocks0, newBlocks, location);
      offsetLengths := offsetLengths + [PackOffsetAndLength(startBlock * BLOCK_SIZE, |data|)];
      chunks := chunks + [data];
      locations := locations + [location];
    }

    /** Reads a chunk through its entry. An empty chunk at the very start of the table
        makes the block range underflow: reading it, and nothing else, aborts. */
    method Read(i: nat) returns (r: Option<seq<Byte>>)
      requires Valid() && i < |offsetLengths| && |cas| < FIELD_RANGE && |blocks| * BLOCK_SIZE < FIELD_RANGE
      ensures r.None? <==> chunks[i] == [] && locations[i].startBlock == 0
      ensures r.Some? ==> r.value == chunks[i]
    {
      ghost var data, location := chunks[i], locations[i];
      var entry := offsetLengths[i];
      assert ChunkAt(cas, blocks, entry, location, data);
      var offset, size := entry.Offset(), entry.Length();
      AlignRange(location.startBlock, size, offset);
      var end := Align(offset + size, BLOCK_SIZE);
      var first := offset / BLOCK_SIZE;
      if end == 0 {
        return None;
      }
      var last := (end - 1) / BLOCK_SIZE;
      assert last + 1 == first + BlockCount(size);
      var buffer := ReadBlocks(first, last, size, location, data);
      r := Some(buffer[..size]);
    }

    method ReadBlocks(first: nat, last: int, size: nat, ghost location: Location, ghost data: seq<Byte>)
      returns (buffer: seq<Byte>)
      requires |data| == size < FIELD_RANGE && first == location.startBlock && last + 1 == first + BlockCount(size)
      requires location.position + |data| <= |cas| && cas[location.position..location.position + |data|] == data
      requires BlocksOk(blocks, location, size, BlockCount(size))
      ensures |buffer| >= size && buffer[..size] == data
    {
      AlignSixteen(size);
      buffer := Zeros(Align(size, 16));
      var cur: nat := 0;
      for k := first to last + 1
        invariant |buffer| >= size && cur == BlockStart(size, k - first)
        invariant Copied(buffer, data, cur)
      {
        BlockStarts(size, k - first);
        assert BlockAt(blocks, location, size, k - first);
        var at, n := blocks[k].Offset(), blocks[k].UncompressedSize();
        var piece := cas[at..at + n];
        assert piece == data[cur..cur + n] by {
          SlicePart(cas, location.position, data, cur, n);
        }
        CopyStep(buffer, data, cur, n);
        buffer := buffer[..cur] + piece + buffer[cur + n..];
        cur := cur + n;
      }
      BlockStartsEnd(size);
    }
  }

  ghost predicate Copied(buffer: seq<Byte>, data: seq<Byte>, cur: nat) {
    cur <= |data| <= |buffer| && buffer[..cur] == data[..cur]
  }

  lemma {:induction false} CopyStep(buffer: seq<Byte>, data: seq<Byte>, cur: nat, n: nat)
    requires Copied(buffer, data, cur) && cur + n <= |data|
    ensures Copied(buffer[..cur] + data[cur..cur + n] + buffer[cur + n..], data, cur + n)
  {
    assert data[..cur + n] == data[..cur] + data[cur..cur + n];
  }

  lemma {:induction false} SlicePart(whole: seq<Byte>, position: nat, part: seq<Byte>, at: nat, n: nat)
    requires position + |part| <= |whole| && whole[position..position + |part|] == part && at + n <= |part|
    ensures whole[position + at..position + at + n] == part[at..at + n]
  {
    var a, b := whole[position + at..position + at + n], part[at..at + n];
    forall k | 0 <= k < n
      ensures a[k] == b[k]
    {
      assert whole[position..position + |part|][at + k] == whole[position + at + k];
    }
  }

  /** Cuts data into blocks and makes an entry for each. */
  method CutBlocks(data: seq<Byte>, position: nat) returns (blocks: seq<BlockEntry>, offset: nat)
    requires position + |data| < FIELD_RANGE
    ensures |blocks| == BlockCount(|data|) && offset == position + |data|
    ensures BlocksOk(blocks, Location(0, position), |data|, BlockCount(|data|))
  {
    blocks, offset := [], position;
    var j := 0;
    while offset - position < |data|
      invariant j == |blocks| && offset == position + BlockStart(|data|, j)
      invariant j > 0 ==> (j - 1) * BLOCK_SIZE < |data|
      invariant BlocksOk(blocks, Location(0, position), |data|, j)
      decreases position + |data| - offset
    {
      var n := Min(BLOCK_SIZE, |data| - (offset - position));
      BlockRoundTrip(offset, n, n, 0);
      BlockStarts(|data|, j);
      BlocksStep(blocks, PackBlock(offset, n, n, 0), position, |data|);
      blocks := blocks + [PackBlock(offset, n, n, 0)];
      offset := offset + n;
      j := j + 1;
    }
    BlockCountIs(|data|, j);
  }

  lemma {:induction false} BlocksStep(blocks: seq<BlockEntry>, entry: BlockEntry, position: nat, n: nat)
    requires BlocksOk(blocks, Location(0, position), n, |blocks|)
    requires BlockOk(entry, position + BlockStart(n, |blocks|), BlockStart(n, |blocks| + 1) - BlockStart(n, |blocks|))
    ensures BlocksOk(blocks + [entry], Location(0, position), n, |blocks| + 1)
  {
    forall j: nat | j <= |blocks|
      ensures BlockAt(blocks + [entry], Location(0, position), n, j)
    {
      assert j < |blocks| ==> BlockAt(blocks, Location(0, position), n, j);
    }
  }

  lemma {:induction false} BlockStarts(n: nat, j: nat)
    ensures BlockStart(n, j) <= BlockStart(n, j + 1) <= n
    ensures j * BLOCK_SIZE < n ==> BlockStart(n, j + 1) - BlockStart(n, j) == Min(BLOCK_SIZE, n - j * BLOCK_SIZE)
  {
  }

  lemma {:induction false} BlockCountIs(n: nat, j: nat)
    requires BlockStart(n, j) == n && (j > 0 ==> (j - 1) * BLOCK_SIZE < n)
    ensures j == BlockCount(n)
  {
  }

  lemma {:induction false} BlockStartsEnd(n: nat)
    ensures BlockStart(n, BlockCount(n)) == n
  {
  }

  lemma {:induction false} AlignSixteen(n: nat)
    requires n < FIELD_RANGE
    ensures Align(n, 16) >= n
  {
    Pow2Of64();
    AlignRoundsUp(n, 16, 4);
  }

  lemma {:induction false} AlignToBlock(n: nat)
    requires n < 2 * FIELD_RANGE
    ensures Align(n, BLOCK_SIZE) == (n + BLOCK_SIZE - 1) / BLOCK_SIZE * BLOCK_SIZE
  {
    Pow2Of64();
    AlignRoundsUp(n, BLOCK_SIZE, 16);
  }

  /** The block range that reading computes is the range the chunk occupies. */
  lemma {:induction false} AlignRange(startBlock: nat, size: nat, offset: nat)
    requires offset == startBlock * BLOCK_SIZE && offset < FIELD_RANGE && size < FIELD_RANGE
    ensures Align(offset + size, BLOCK_SIZE) == (startBlock + BlockCount(size)) * BLOCK_SIZE
    ensures offset / BLOCK_SIZE == startBlock
  {
    AlignToBlock(offset + size);
    WholeBlocks(startBlock, size + BLOCK_SIZE - 1);
    WholeBlocks(startBlock, 0);
  }

  lemma {:induction false} WholeBlocks(blocks: nat, rest: nat)
    ensures (blocks * BLOCK_SIZE + rest) / BLOCK_SIZE == blocks + rest / BLOCK_SIZE
  {
    ModUnique(blocks * BLOCK_SIZE + rest, BLOCK_SIZE, blocks + rest / BLOCK_SIZE, rest % BLOCK_SIZE);
  }

  lemma {:induction false} ChunkStays(cas: seq<Byte>, more: seq<Byte>, blocks: seq<BlockEntry>,
                                      newBlocks: seq<BlockEntry>, entry: OffsetAndLength, location: Location,
                                      data: seq<Byte>)
    requires ChunkAt(cas, blocks, entry, location, data)
    ensures ChunkAt(cas + more, blocks + newBlocks, entry, location, data)
  {
    assert (cas + more)[location.position..location.position + |data|] ==
        cas[location.position..location.position + |data|];
    forall j: nat | j < BlockCount(|data|)
      ensures BlockAt(blocks + newBlocks, location, |data|, j)
    {
      assert BlockAt(blocks, location, |data|, j);
    }
  }

  lemma {:induction false} ChunkPlaced(cas: seq<Byte>, data: seq<Byte>, blocks: seq<BlockEntry>,
                                       newBlocks: seq<BlockEntry>, location: Location)
    requires location == Location(|blocks|, |cas|) && |newBlocks| == BlockCount(|data|)
    requires BlocksOk(newBlocks, Location(0, |cas|), |data|, BlockCount(|data|))
    requires |blocks| * BLOCK_SIZE < FIELD_RANGE && |data| < FIELD_RANGE
    ensures ChunkAt(cas + data, blocks + newBlocks, PackOffsetAndLength(|blocks| * BLOCK_SIZE, |data|), location, data)
  {
    OffsetAndLengthRoundTrip(|blocks| * BLOCK_SIZE, |data|);
    assert (cas + data)[|cas|..|cas| + |data|] == data;
    forall j: nat | j < BlockCount(|data|)
      ensures BlockAt(blocks + newBlocks, location, |data|, j)
    {
      assert BlockAt(newBlocks, Location(0, |cas|), |data|, j);
    }
  }
}
