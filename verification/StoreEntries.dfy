/** The package store of a container header: fixed-size entries followed by the arrays
    they refer to through offsets relative to themselves. */
module StoreEntries {
  import opened Zen
  import opened Bytes

  /** The header versions, oldest first. */
  datatype Version = PreInitial | Initial | LocalizedPackages | OptionalSegmentPackages | NoExportInfo |
      SoftPackageReferences {
    /** Versions after Initial store the shader map hashes. */
    predicate HasHashes() {
      !PreInitial? && !Initial?
    }

    /** Versions before NoExportInfo store the export counts. */
    predicate HasExportInfo() {
      !NoExportInfo? && !SoftPackageReferences?
    }

    /** Offset of the imported packages in an entry. */
    function MemberOffset(): nat {
      if Initial? then 24 else if HasExportInfo() then 8 else 0
    }

    function EntrySize(): nat {
      if Initial? then 32 else if HasHashes() && HasExportInfo() then 24 else 16
    }
  }

  const U32_RANGE := 0x1_0000_0000

  type U64 = v: nat | v < 0x1_0000_0000_0000_0000
  type U32 = v: nat | v < 0x1_0000_0000
  type I32 = v: int | -0x8000_0000 <= v < 0x8000_0000
  type Hash = h: seq<Byte> | |h| == 20 witness seq(20, _ => 0)

  datatype StoreEntry = StoreEntry(
    exportBundlesSize: U64, loadOrder: U32, exportCount: I32, exportBundleCount: I32,
    importedPackages: seq<U64>, shaderMapHashes: seq<Hash>)

  /** What a version keeps of an entry. */
  function Restrict(v: Version, e: StoreEntry): StoreEntry {
    StoreEntry(
      if v.Initial? then e.exportBundlesSize else 0,
      if v.Initial? then e.loadOrder else 0,
      if v.HasExportInfo() then e.exportCount else 0,
      if v.HasExportInfo() then e.exportBundleCount else 0,
      e.importedPackages,
      if v.HasHashes() then e.shaderMapHashes else [])
  }

  // ------------------------------------------------------------- fixed entries

  /** An array as an entry refers to it. */
  datatype View = View(count: U32, offset: U32)

  datatype FileEntry = FileEntry(
    exportBundlesSize: U64, loadOrder: U32, exportCount: I32, exportBundleCount: I32, imports: View, hashes: View)

  function EncodeView(w: View): (r: seq<Byte>)
    ensures |r| == 8
  {
    EncodeLE(w.count, 4) + EncodeLE(w.offset, 4)
  }

  function EncodeEntry(v: Version, f: FileEntry): seq<Byte> {
    (if v.Initial? then EncodeLE(f.exportBundlesSize, 8) else [])
    + (if v.HasExportInfo() then EncodeI32(f.exportCount) + EncodeI32(f.exportBundleCount) else [])
    + (if v.Initial? then EncodeLE(f.loadOrder, 4) + EncodeLE(0, 4) else [])
    + EncodeView(f.imports)
    + (if v.HasHashes() then EncodeView(f.hashes) else [])
  }

  lemma {:induction false} LittleRange()
    ensures Pow256(4) == U32_RANGE && Pow256(8) == U64_RANGE
  {
    assert Pow256(4) == 256 * Pow256(3) == 65536 * Pow256(2) == U32_RANGE;
    assert Pow256(8) == 256 * Pow256(7) == 65536 * Pow256(6) == 0x1000000 * Pow256(5) == U32_RANGE * Pow256(4);
  }

  function DecodeU32(s: seq<Byte>): (r: U32)
    requires |s| == 4
  {
    DecodeBound(s);
    LittleRange();
    DecodeLE(s)
  }

  function DecodeU64(s: seq<Byte>): (r: U64)
    requires |s| == 8
  {
    DecodeBound(s);
    LittleRange();
    DecodeLE(s)
  }

  lemma {:induction false} DecodeBound(s: seq<Byte>)
    ensures DecodeLE(s) < Pow256(|s|)
  {
    if s != [] {
      DecodeBound(s[1..]);
    }
  }

  function DecodeSigned(s: seq<Byte>): (r: I32)
    requires |s| == 4
  {
    DecodeBound(s);
    LittleRange();
    DecodeI32(s)
  }

  function DecodeView(s: seq<Byte>): View
    requires |s| == 8
  {
    View(DecodeU32(s[..4]), DecodeU32(s[4..]))
  }

  /** Reads the fields of a version in order; the others default to zero. */
  function DecodeEntry(v: Version, s: seq<Byte>): FileEntry
    requires |s| == v.EntrySize()
  {
    var a := if v.Initial? then 8 else 0;
    var b := if v.HasExportInfo() then a + 8 else a;
    var c := if v.Initial? then b + 8 else b;
    FileEntry(
      if v.Initial? then DecodeU64(s[..8]) else 0,
      if v.Initial? then DecodeU32(s[b..b + 4]) else 0,
      if v.HasExportInfo() then DecodeSigned(s[a..a + 4]) else 0,
      if v.HasExportInfo() then DecodeSigned(s[a + 4..a + 8]) else 0,
      DecodeView(s[c..c + 8]),
      if v.HasHashes() then DecodeView(s[c + 8..c + 16]) else View(0, 0))
  }

  function Stored(v: Version, f: FileEntry): FileEntry {
    FileEntry(
      if v.Initial? then f.exportBundlesSize else 0,
      if v.Initial? then f.loadOrder else 0,
      if v.HasExportInfo() then f.exportCount else 0,
      if v.HasExportInfo() then f.exportBundleCount else 0,
      f.imports,
      if v.HasHashes() then f.hashes else View(0, 0))
  }

  lemma {:induction false} ViewRoundTrip(w: View)
    ensures DecodeView(EncodeView(w)) == w
  {
    LittleRange();
    assert EncodeView(w)[..4] == EncodeLE(w.count, 4) && EncodeView(w)[4..] == EncodeLE(w.offset, 4);
    LittleEndianRoundTrip(w.count, 4);
    LittleEndianRoundTrip(w.offset, 4);
  }

  lemma {:induction false} Middle(front: seq<Byte>, middle: seq<Byte>, back: seq<Byte>)
    ensures (front + middle + back)[|front|..|front| + |middle|] == middle
  {
  }

  lemma {:induction false} SliceOfSlice(s: seq<Byte>, i: nat, j: nat, x: nat, y: nat)
    requires i <= j <= |s| && x <= y <= j - i
    ensures s[i..j][x..y] == s[i + x..i + y]
  {
    forall k | 0 <= k < y - x
      ensures s[i..j][x..y][k] == s[i + x..i + y][k]
    {
      assert s[i..j][x..y][k] == s[i..j][x + k];
    }
  }

  lemma {:induction false} TwoFields(s: seq<Byte>, at: nat, front: seq<Byte>, back: seq<Byte>)
    requires at + |front + back| <= |s| && s[at..at + |front + back|] == front + back
    ensures s[at..at + |front|] == front && s[at + |front|..at + |front + back|] == back
  {
    SliceOfSlice(s, at, at + |front + back|, 0, |front|);
    SliceOfSlice(s, at, at + |front + back|, |front|, |front + back|);
  }

  lemma {:induction false} Slices(a: seq<Byte>, b: seq<Byte>, c: seq<Byte>, d: seq<Byte>, e: seq<Byte>)
    ensures var s := a + b + c + d + e;
            && s[..|a|] == a && s[|a|..|a + b|] == b && s[|a + b|..|a + b + c|] == c
            && s[|a + b + c|..|a + b + c + d|] == d && s[|a + b + c + d|..] == e
  {
    var s := a + b + c + d + e;
    assert s == a + b + (c + d + e);
    Middle(a, b, c + d + e);
    assert s == (a + b) + c + (d + e);
    Middle(a + b, c, d + e);
    Middle(a + b + c, d, e);
  }

  /** Where the fields of an entry stand. */
  lemma {:induction false} EntryFields(v: Version, f: FileEntry)
    ensures |EncodeEntry(v, f)| == v.EntrySize()
    ensures var s := EncodeEntry(v, f);
            var a := if v.Initial? then 8 else 0;
            var b := if v.HasExportInfo() then a + 8 else a;
            var c := if v.Initial? then b + 8 else b;
            && (v.Initial? ==> s[..8] == EncodeLE(f.exportBundlesSize, 8) && s[b..b + 4] == EncodeLE(f.loadOrder, 4))
            && (v.HasExportInfo() ==>
                  s[a..a + 4] == EncodeI32(f.exportCount) && s[a + 4..a + 8] == EncodeI32(f.exportBundleCount))
            && s[c..c + 8] == EncodeView(f.imports)
            && (v.HasHashes() ==> s[c + 8..c + 16] == EncodeView(f.hashes))
  {
    var a := if v.Initial? then EncodeLE(f.exportBundlesSize, 8) else [];
    var b := if v.HasExportInfo() then EncodeI32(f.exportCount) + EncodeI32(f.exportBundleCount) else [];
    var c := if v.Initial? then EncodeLE(f.loadOrder, 4) + EncodeLE(0, 4) else [];
    var d, e := EncodeView(f.imports), if v.HasHashes() then EncodeView(f.hashes) else [];
    Slices(a, b, c, d, e);
    var s := EncodeEntry(v, f);
    assert s == a + b + c + d + e;
    if v.HasExportInfo() {
      TwoFields(s, |a|, EncodeI32(f.exportCount), EncodeI32(f.exportBundleCount));
    }
    if v.Initial? {
      TwoFields(s, |a + b|, EncodeLE(f.loadOrder, 4), EncodeLE(0, 4));
    }
  }

  /** A count and a relative offset, in four bytes each. */
  ghost predicate HoldsView(s: seq<Byte>, at: nat, w: View) {
    at + 8 <= |s| && s[at..at + 4] == EncodeLE(w.count, 4) && s[at + 4..at + 8] == EncodeLE(w.offset, 4)
  }

  lemma {:induction false} ViewParts(s: seq<Byte>, at: nat, w: View)
    requires at + 8 <= |s| && s[at..at + 8] == EncodeView(w)
    ensures HoldsView(s, at, w)
  {
    TwoFields(s, at, EncodeLE(w.count, 4), EncodeLE(w.offset, 4));
  }

  /** The imports stand at the member offset and the hashes behind them, each as a count
      and a relative offset. */
  lemma {:induction false} ViewFields(v: Version, f: FileEntry)
    ensures |EncodeEntry(v, f)| == v.EntrySize()
    ensures var s, m := EncodeEntry(v, f), v.MemberOffset();
            HoldsView(s, m, f.imports) && (v.HasHashes() ==> HoldsView(s, m + 8, f.hashes))
  {
    EntryFields(v, f);
    MemberInEntry(v);
    ViewParts(EncodeEntry(v, f), v.MemberOffset(), f.imports);
    if v.HasHashes() {
      ViewParts(EncodeEntry(v, f), v.MemberOffset() + 8, f.hashes);
    }
  }

  /** Entries have the advertised size, and every field of the version is read back. */
  lemma {:induction false} EntryRoundTrip(v: Version, f: FileEntry)
    ensures |EncodeEntry(v, f)| == v.EntrySize()
    ensures DecodeEntry(v, EncodeEntry(v, f)) == Stored(v, f)
  {
    EntryFields(v, f);
    LittleRange();
    ViewRoundTrip(f.imports);
    ViewRoundTrip(f.hashes);
    LittleEndianRoundTrip(f.exportBundlesSize, 8);
    LittleEndianRoundTrip(f.loadOrder, 4);
    I32RoundTrip(f.exportCount);
    I32RoundTrip(f.exportBundleCount);
  }

  // ------------------------------------------------------------------- arrays

  function EncodeIds(ids: seq<U64>): (r: seq<Byte>)
    ensures |r| == 8 * |ids|
  {
    if ids == [] then [] else EncodeLE(ids[0], 8) + EncodeIds(ids[1..])
  }

  function DecodeIds(s: seq<Byte>, n: nat): (r: seq<U64>)
    requires |s| == 8 * n
    ensures |r| == n
  {
    if n == 0 then [] else [DecodeU64(s[..8])] + DecodeIds(s[8..], n - 1)
  }

  function EncodeHashes(hashes: seq<Hash>): (r: seq<Byte>)
    ensures |r| == 20 * |hashes|
  {
    if hashes == [] then [] else hashes[0] + EncodeHashes(hashes[1..])
  }

  function DecodeHashes(s: seq<Byte>, n: nat): (r: seq<Hash>)
    requires |s| == 20 * n
    ensures |r| == n
  {
    if n == 0 then [] else [s[..20]] + DecodeHashes(s[20..], n - 1)
  }

  lemma {:induction false} IdsRoundTrip(ids: seq<U64>)
    ensures DecodeIds(EncodeIds(ids), |ids|) == ids
  {
    if ids != [] {
      IdsRoundTrip(ids[1..]);
      LittleRange();
      LittleEndianRoundTrip(ids[0], 8);
      assert EncodeIds(ids)[..8] == EncodeLE(ids[0], 8) && EncodeIds(ids)[8..] == EncodeIds(ids[1..]);
    }
  }

  lemma {:induction false} HashesRoundTrip(hashes: seq<Hash>)
    ensures DecodeHashes(EncodeHashes(hashes), |hashes|) == hashes
  {
    if hashes != [] {
      HashesRoundTrip(hashes[1..]);
      assert EncodeHashes(hashes)[..20] == hashes[0] && EncodeHashes(hashes)[20..] == EncodeHashes(hashes[1..]);
    }
  }

  function ArrayData(v: Version, e: StoreEntry): seq<Byte> {
    EncodeIds(e.importedPackages) + if v.HasHashes() then EncodeHashes(e.shaderMapHashes) else []
  }

  lemma {:induction false} IdAt(ids: seq<U64>, k: nat)
    requires k < |ids|
    ensures EncodeIds(ids)[8 * k..8 * k + 8] == EncodeLE(ids[k], 8)
  {
    var s := EncodeIds(ids);
    assert s[8..] == EncodeIds(ids[1..]);
    if k > 0 {
      IdAt(ids[1..], k - 1);
      assert s[8 * k..8 * k + 8] == s[8..][8 * (k - 1)..8 * (k - 1) + 8];
    }
  }

  lemma {:induction false} HashAt(hashes: seq<Hash>, k: nat)
    requires k < |hashes|
    ensures EncodeHashes(hashes)[20 * k..20 * k + 20] == hashes[k]
  {
    var s := EncodeHashes(hashes);
    assert s[20..] == EncodeHashes(hashes[1..]);
    if k > 0 {
      HashAt(hashes[1..], k - 1);
      assert s[20 * k..20 * k + 20] == s[20..][20 * (k - 1)..20 * (k - 1) + 20];
    }
  }

  /** The arrays of an entry are its package ids in eight bytes each, then its hashes in
      twenty bytes each, in their order. */
  lemma {:induction false} ArraysHold(v: Version, e: StoreEntry, k: nat)
    ensures var data, n := ArrayData(v, e), |e.importedPackages|;
            && |data| == 8 * n + (if v.HasHashes() then 20 * |e.shaderMapHashes| else 0)
            && (k < n ==> data[8 * k..8 * k + 8] == EncodeLE(e.importedPackages[k], 8))
            && (v.HasHashes() && k < |e.shaderMapHashes| ==>
                  data[8 * n + 20 * k..8 * n + 20 * k + 20] == e.shaderMapHashes[k])
  {
    var ids, n := EncodeIds(e.importedPackages), |e.importedPackages|;
    var data := ArrayData(v, e);
    if k < n {
      IdAt(e.importedPackages, k);
      assert data[8 * k..8 * k + 8] == ids[8 * k..8 * k + 8];
    }
    if v.HasHashes() && k < |e.shaderMapHashes| {
      var hashes := EncodeHashes(e.shaderMapHashes);
      HashAt(e.shaderMapHashes, k);
      assert data[8 * n + 20 * k..8 * n + 20 * k + 20] == hashes[20 * k..20 * k + 20];
    }
  }

  /** Where entry `i` begins. */
  function EntryStart(v: Version, i: nat): nat {
    if i == 0 then 0 else EntryStart(v, i - 1) + v.EntrySize()
  }

  /** Where the arrays of entry `i` begin: behind all entries and the arrays before. */
  function ArrayStart(v: Version, es: seq<StoreEntry>, i: nat): nat
    requires i <= |es|
  {
    if i == 0 then EntryStart(v, |es|) else ArrayStart(v, es, i - 1) + |ArrayData(v, es[i - 1])|
  }

  lemma {:induction false} ArrayStartsGrow(v: Version, es: seq<StoreEntry>, i: nat, j: nat)
    requires i <= j <= |es|
    ensures ArrayStart(v, es, i) <= ArrayStart(v, es, j)
    decreases j
  {
    if i < j {
      ArrayStartsGrow(v, es, i, j - 1);
    }
  }

  /** All offsets fit 32 bits. */
  ghost predicate Fits(v: Version, es: seq<StoreEntry>) {
    ArrayStart(v, es, |es|) < U32_RANGE
  }

  lemma {:induction false} EntryEnds(v: Version, n: nat, i: nat)
    requires i < n
    ensures EntryStart(v, i) + v.EntrySize() <= EntryStart(v, n)
    decreases n
  {
    if i < n - 1 {
      EntryEnds(v, n - 1, i);
    }
  }

  lemma {:induction false} MemberInEntry(v: Version)
    ensures v.MemberOffset() + 8 <= v.EntrySize() && (v.HasHashes() ==> v.MemberOffset() + 16 == v.EntrySize())
  {
  }

  lemma {:induction false} ArrayNext(v: Version, es: seq<StoreEntry>, i: nat)
    requires i < |es|
    ensures ArrayStart(v, es, 0) == EntryStart(v, |es|)
    ensures ArrayStart(v, es, i + 1) == ArrayStart(v, es, i) + |ArrayData(v, es[i])|
  {
  }

  lemma {:induction false} ArrayBounds(v: Version, es: seq<StoreEntry>, i: nat)
    requires Fits(v, es) && i < |es|
    ensures EntryStart(v, |es|) <= ArrayStart(v, es, i)
    ensures ArrayStart(v, es, i) + |ArrayData(v, es[i])| < U32_RANGE
  {
    ArrayStartsGrow(v, es, 0, i);
    ArrayNext(v, es, i);
    ArrayStartsGrow(v, es, i + 1, |es|);
  }

  lemma {:induction false} StartBounds(v: Version, es: seq<StoreEntry>, i: nat)
    requires Fits(v, es) && i < |es|
    ensures var start, e := ArrayStart(v, es, i), es[i];
            && EntryStart(v, i) + v.EntrySize() <= EntryStart(v, |es|) <= start
            && start + |ArrayData(v, e)| < U32_RANGE
            && v.MemberOffset() + 8 <= v.EntrySize() && (v.HasHashes() ==> v.MemberOffset() + 16 == v.EntrySize())
  {
    ArrayBounds(v, es, i);
    EntryEnds(v, |es|, i);
    MemberInEntry(v);
  }

  /** The entry that is written for `es[i]`. */
  function FileEntryOf(v: Version, es: seq<StoreEntry>, i: nat): FileEntry
    requires Fits(v, es) && i < |es|
  {
    StartBounds(v, es, i);
    var e := es[i];
    var base := ArrayStart(v, es, i) - EntryStart(v, i) - v.MemberOffset();
    FileEntry(
      e.exportBundlesSize, e.loadOrder, e.exportCount, e.exportBundleCount,
      if e.importedPackages != [] then View(|e.importedPackages|, base) else View(0, 0),
      if v.HasHashes() && e.shaderMapHashes != []
      then View(|e.shaderMapHashes|, base + 8 * |e.importedPackages| - 8) else View(0, 0))
  }

  // --------------------------------------------------------------- the buffer

  ghost predicate Placed(buffer: seq<Byte>, at: nat, data: seq<Byte>) {
    data == [] || (at + |data| <= |buffer| && buffer[at..at + |data|] == data)
  }

  /** A write to `n` bytes at `pos` has left the others alone. */
  ghost predicate OthersKept(before: seq<Byte>, after: seq<Byte>, pos: nat, n: nat) {
    && |before| <= |after|
    && forall k :: 0 <= k < |before| && !(pos <= k < pos + n) ==> after[k] == before[k]
  }

  lemma {:induction false} WriteKeepsOthers(buffer: seq<Byte>, pos: nat, data: seq<Byte>)
    ensures OthersKept(buffer, WriteAt(buffer, pos, data), pos, |data|)
    ensures Placed(WriteAt(buffer, pos, data), pos, data)
  {
  }

  lemma {:induction false} PlacedStays(before: seq<Byte>, after: seq<Byte>, at: nat, data: seq<Byte>, pos: nat, n: nat)
    requires Placed(before, at, data) && OthersKept(before, after, pos, n)
    requires at + |data| <= pos || pos + n <= at
    ensures Placed(after, at, data)
  {
    if data != [] {
      assert forall k :: at <= k < at + |data| ==> after[k] == before[k];
    }
  }

  /** Entry `k` and its arrays are in the buffer. */
  ghost predicate EntryPlaced(v: Version, es: seq<StoreEntry>, buffer: seq<Byte>, k: nat)
    requires Fits(v, es) && k < |es|
  {
    && Placed(buffer, EntryStart(v, k), EncodeEntry(v, FileEntryOf(v, es, k)))
    && Placed(buffer, ArrayStart(v, es, k), ArrayData(v, es[k]))
  }

  ghost predicate Laid(v: Version, es: seq<StoreEntry>, buffer: seq<Byte>, n: nat)
    requires Fits(v, es) && n <= |es|
  {
    forall k: nat {:trigger EntryPlaced(v, es, buffer, k)} :: k < n ==> EntryPlaced(v, es, buffer, k)
  }

  /** Entry `k` lies before entry `i`, which lies before the arrays of `k`, which lie
      before those of `i`. */
  lemma {:induction false} RegionsApart(v: Version, es: seq<StoreEntry>, k: nat, i: nat)
    requires k < i < |es|
    ensures EntryStart(v, k) + v.EntrySize() <= EntryStart(v, i)
    ensures EntryStart(v, i) + v.EntrySize() <= ArrayStart(v, es, k)
    ensures ArrayStart(v, es, k) + |ArrayData(v, es[k])| <= ArrayStart(v, es, i)
  {
    EntryEnds(v, i, k);
    EntryEnds(v, |es|, i);
    ArrayStartsGrow(v, es, 0, k);
    ArrayNext(v, es, k);
    ArrayStartsGrow(v, es, k + 1, i);
  }

  /** Neither the arrays nor the entry written for `i` touch what was written before. */
  lemma {:induction false} EarlierStays(v: Version, es: seq<StoreEntry>, b0: seq<Byte>, b1: seq<Byte>, b2: seq<Byte>,
                                        k: nat, i: nat)
    requires Fits(v, es) && k < i < |es| && EntryPlaced(v, es, b0, k)
    requires OthersKept(b0, b1, ArrayStart(v, es, i), |ArrayData(v, es[i])|)
    requires OthersKept(b1, b2, EntryStart(v, i), v.EntrySize())
    ensures EntryPlaced(v, es, b2, k)
  {
    var entry, at := EncodeEntry(v, FileEntryOf(v, es, k)), EntryStart(v, k);
    EntryRoundTrip(v, FileEntryOf(v, es, k));
    RegionsApart(v, es, k, i);
    PlacedStays(b0, b1, at, entry, ArrayStart(v, es, i), |ArrayData(v, es[i])|);
    PlacedStays(b1, b2, at, entry, EntryStart(v, i), v.EntrySize());
    PlacedStays(b0, b1, ArrayStart(v, es, k), ArrayData(v, es[k]), ArrayStart(v, es, i), |ArrayData(v, es[i])|);
    PlacedStays(b1, b2, ArrayStart(v, es, k), ArrayData(v, es[k]), EntryStart(v, i), v.EntrySize());
  }

  lemma {:induction false} CurrentPlaced(v: Version, es: seq<StoreEntry>, b1: seq<Byte>, b2: seq<Byte>, i: nat)
    requires Fits(v, es) && i < |es| && Placed(b1, ArrayStart(v, es, i), ArrayData(v, es[i]))
    requires OthersKept(b1, b2, EntryStart(v, i), v.EntrySize())
    requires Placed(b2, EntryStart(v, i), EncodeEntry(v, FileEntryOf(v, es, i)))
    ensures EntryPlaced(v, es, b2, i)
  {
    StartBounds(v, es, i);
    PlacedStays(b1, b2, ArrayStart(v, es, i), ArrayData(v, es[i]), EntryStart(v, i), v.EntrySize());
  }

  lemma {:induction false} LaidStep(v: Version, es: seq<StoreEntry>, b0: seq<Byte>, b1: seq<Byte>, b2: seq<Byte>,
                                    i: nat)
    requires Fits(v, es) && i < |es| && Laid(v, es, b0, i)
    requires OthersKept(b0, b1, ArrayStart(v, es, i), |ArrayData(v, es[i])|) &&
               Placed(b1, ArrayStart(v, es, i), ArrayData(v, es[i]))
    requires OthersKept(b1, b2, EntryStart(v, i), v.EntrySize())
    requires Placed(b2, EntryStart(v, i), EncodeEntry(v, FileEntryOf(v, es, i)))
    ensures Laid(v, es, b2, i + 1)
  {
    forall k: nat | k < i
      ensures EntryPlaced(v, es, b2, k)
    {
      EarlierStays(v, es, b0, b1, b2, k, i);
    }
    CurrentPlaced(v, es, b1, b2, i);
  }

  /** Prepares the entry whose arrays go to the array offset, and says where they end. */
  method MakeEntry(v: Version, entry: StoreEntry, entryOffset: nat, arrayOffset: nat,
                   ghost es: seq<StoreEntry>, ghost i: nat)
    returns (fileEntry: FileEntry, position: nat)
    requires Fits(v, es) && i < |es| && entry == es[i]
    requires entryOffset == EntryStart(v, i) && arrayOffset == ArrayStart(v, es, i)
    ensures fileEntry == FileEntryOf(v, es, i) && position == ArrayStart(v, es, i + 1)
  {
    StartBounds(v, es, i);
    var memberOffset := v.MemberOffset();
    var imports, hashes := View(0, 0), View(0, 0);
    position := arrayOffset;
    if entry.importedPackages != [] {
      imports := View(|entry.importedPackages|, position - entryOffset - memberOffset);
      position := position + |EncodeIds(entry.importedPackages)|;
    }
    if v.HasHashes() && entry.shaderMapHashes != [] {
      hashes := View(|entry.shaderMapHashes|, position - entryOffset - memberOffset - 8);
      position := position + |EncodeHashes(entry.shaderMapHashes)|;
    }
    fileEntry := FileEntry(entry.exportBundlesSize, entry.loadOrder, entry.exportCount, entry.exportBundleCount,
                           imports, hashes);
  }

  /** Writes the arrays of one entry at the array offset, then the entry itself. */
  method WriteEntry(v: Version, entry: StoreEntry, buffer0: seq<Byte>, entryOffset: nat, arrayOffset: nat,
                    ghost es: seq<StoreEntry>, ghost i: nat)
    returns (buffer: seq<Byte>, position: nat, ghost arrays: seq<Byte>)
    requires Fits(v, es) && i < |es| && entry == es[i]
    requires entryOffset == EntryStart(v, i) && arrayOffset == ArrayStart(v, es, i)
    ensures position == ArrayStart(v, es, i + 1)
    ensures OthersKept(buffer0, arrays, arrayOffset, |ArrayData(v, entry)|)
    ensures Placed(arrays, arrayOffset, ArrayData(v, entry))
    ensures OthersKept(arrays, buffer, entryOffset, v.EntrySize())
    ensures Placed(buffer, entryOffset, EncodeEntry(v, FileEntryOf(v, es, i)))
  {
    var fileEntry;
    fileEntry, position := MakeEntry(v, entry, entryOffset, arrayOffset, es, i);
    var data, code := ArrayData(v, entry), EncodeEntry(v, fileEntry);
    buffer, arrays := WriteBoth(buffer0, arrayOffset, data, entryOffset, code);
    EntryRoundTrip(v, fileEntry);
  }

  method WriteBoth(buffer0: seq<Byte>, p: nat, x: seq<Byte>, q: nat, y: seq<Byte>)
    returns (buffer: seq<Byte>, ghost between: seq<Byte>)
    ensures OthersKept(buffer0, between, p, |x|) && Placed(between, p, x)
    ensures OthersKept(between, buffer, q, |y|) && Placed(buffer, q, y)
  {
    var first := WriteAt(buffer0, p, x);
    WriteKeepsOthers(buffer0, p, x);
    buffer := WriteAt(first, q, y);
    WriteKeepsOthers(first, q, y);
    between := first;
  }

  /** Writes entry `i` and its arrays. */
  method SerializeNext(v: Version, es: seq<StoreEntry>, i: nat, buffer0: seq<Byte>, entryOffset: nat, arrayOffset0: nat)
    returns (buffer: seq<Byte>, arrayOffset: nat)
    requires Fits(v, es) && i < |es| && Laid(v, es, buffer0, i)
    requires entryOffset == EntryStart(v, i) && arrayOffset0 == ArrayStart(v, es, i)
    ensures Laid(v, es, buffer, i + 1) && arrayOffset == ArrayStart(v, es, i + 1)
  {
    ghost var arrays;
    buffer, arrayOffset, arrays := WriteEntry(v, es[i], buffer0, entryOffset, arrayOffset0, es, i);
    LaidStep(v, es, buffer0, arrays, buffer, i);
  }

  /** Writes the entries and their arrays: for each entry the cursor jumps to the
      arrays, and back to the entry itself. */
  method Serialize(v: Version, es: seq<StoreEntry>) returns (buffer: seq<Byte>)
    requires Fits(v, es)
    ensures Laid(v, es, buffer, |es|)
  {
    buffer := [];
    var arrayOffset, entryOffset: nat := EntryStart(v, |es|), 0;
    for i := 0 to |es|
      invariant entryOffset == EntryStart(v, i) && arrayOffset == ArrayStart(v, es, i)
      invariant Laid(v, es, buffer, i)
    {
      buffer, arrayOffset := SerializeNext(v, es, i, buffer, entryOffset, arrayOffset);
      entryOffset := entryOffset + v.EntrySize();
    }
  }

  // ------------------------------------------------------------------ reading

  function ReadAt(buffer: seq<Byte>, at: nat, n: nat): (r: Option<seq<Byte>>)
    ensures r.Some? ==> |r.value| == n
  {
    if at + n <= |buffer| then Some(buffer[at..at + n]) else None
  }

  /** The arrays of an entry, found through its self-relative offsets. */
  function ReadImports(buffer: seq<Byte>, member: nat, imports: View): Option<seq<U64>> {
    if imports.count == 0 then Some([])
    else
      var data := ReadAt(buffer, member + imports.offset, 8 * imports.count);
      if data.None? then None else Some(DecodeIds(data.value, imports.count))
  }

  function ReadHashes(v: Version, buffer: seq<Byte>, member: nat, hashes: View): Option<seq<Hash>> {
    if !v.HasHashes() || hashes.count == 0 then Some([])
    else
      var data := ReadAt(buffer, member + hashes.offset + 8, 20 * hashes.count);
      if data.None? then None else Some(DecodeHashes(data.value, hashes.count))
  }

  /** Completes an entry with its arrays. */
  function Complete(v: Version, buffer: seq<Byte>, f: FileEntry, member: nat): Option<StoreEntry> {
    var imports, hashes := ReadImports(buffer, member, f.imports), ReadHashes(v, buffer, member, f.hashes);
    if imports.None? || hashes.None? then None
    else Some(StoreEntry(f.exportBundlesSize, f.loadOrder, f.exportCount, f.exportBundleCount, imports.value,
                         hashes.value))
  }

  ghost predicate IsWritten(v: Version, count: nat, buffer: seq<Byte>, es: seq<StoreEntry>) {
    |es| == count && Fits(v, es) && Laid(v, es, buffer, count)
  }

  /** Reads the fixed entries. */
  method ReadEntries(v: Version, count: nat, buffer: seq<Byte>, ghost es: seq<StoreEntry>)
    returns (r: Option<seq<FileEntry>>)
    ensures r.Some? ==> |r.value| == count
    ensures IsWritten(v, count, buffer, es) ==>
              r.Some? && forall k :: 0 <= k < count ==> r.value[k] == Stored(v, FileEntryOf(v, es, k))
  {
    ghost var written := IsWritten(v, count, buffer, es);
    var entries: seq<FileEntry> := [];
    for i := 0 to count
      invariant |entries| == i
      invariant written ==> forall k :: 0 <= k < i ==> entries[k] == Stored(v, FileEntryOf(v, es, k))
    {
      if written {
        ReadEntryBack(v, es, buffer, i);
      }
      var data := ReadAt(buffer, EntryStart(v, i), v.EntrySize());
      if data.None? {
        return None;
      }
      entries := entries + [DecodeEntry(v, data.value)];
    }
    r := Some(entries);
  }

  /** Reads the fixed entries, then the arrays of each. On a buffer that was written
      from `es` the result is `es` as far as the version stores it. */
  method Deserialize(v: Version, count: nat, buffer: seq<Byte>, ghost es: seq<StoreEntry>)
    returns (r: Option<seq<StoreEntry>>)
    ensures IsWritten(v, count, buffer, es) ==> r.Some? && Restricts(v, es, r.value)
  {
    ghost var written := IsWritten(v, count, buffer, es);
    var entries := ReadEntries(v, count, buffer, es);
    if entries.None? {
      return None;
    }
    var result: seq<StoreEntry> := [];
    for i := 0 to count
      invariant |result| == i
      invariant written ==> forall k :: 0 <= k < i ==> result[k] == Restrict(v, es[k])
    {
      if written {
        CompleteBack(v, es, buffer, i);
      }
      var entry := Complete(v, buffer, entries.value[i], EntryStart(v, i) + v.MemberOffset());
      if entry.None? {
        return None;
      }
      result := result + [entry.value];
    }
    r := Some(result);
  }

  ghost predicate Restricts(v: Version, es: seq<StoreEntry>, r: seq<StoreEntry>) {
    |r| == |es| && forall i :: 0 <= i < |es| ==> r[i] == Restrict(v, es[i])
  }

  lemma {:induction false} PlacedRead(buffer: seq<Byte>, at: nat, data: seq<Byte>)
    requires Placed(buffer, at, data) && data != []
    ensures ReadAt(buffer, at, |data|) == Some(data)
  {
  }

  lemma {:induction false} ReadEntryBack(v: Version, es: seq<StoreEntry>, buffer: seq<Byte>, i: nat)
    requires Fits(v, es) && i < |es| && Laid(v, es, buffer, |es|)
    ensures var data := ReadAt(buffer, EntryStart(v, i), v.EntrySize());
            data.Some? && DecodeEntry(v, data.value) == Stored(v, FileEntryOf(v, es, i))
  {
    assert EntryPlaced(v, es, buffer, i);
    var f := FileEntryOf(v, es, i);
    EntryRoundTrip(v, f);
    MemberInEntry(v);
    PlacedRead(buffer, EntryStart(v, i), EncodeEntry(v, f));
  }

  lemma {:induction false} PlacedParts(buffer: seq<Byte>, at: nat, x: seq<Byte>, y: seq<Byte>)
    requires Placed(buffer, at, x + y)
    ensures x != [] ==> ReadAt(buffer, at, |x|) == Some(x)
    ensures y != [] ==> ReadAt(buffer, at + |x|, |y|) == Some(y)
  {
    if x + y != [] {
      assert buffer[at..at + |x|] == buffer[at..at + |x + y|][..|x|];
      assert buffer[at + |x|..at + |x| + |y|] == buffer[at..at + |x + y|][|x|..];
    }
  }

  /** The self-relative offsets of the entry at `member` lead to the arrays at `start`. */
  ghost predicate LeadsTo(v: Version, f: FileEntry, member: nat, start: nat, e: StoreEntry) {
    && f.imports.count == |e.importedPackages| && (f.imports.count != 0 ==> member + f.imports.offset == start)
    && (v.HasHashes() ==> f.hashes.count == |e.shaderMapHashes|)
    && (f.hashes.count != 0 ==> member + f.hashes.offset + 8 == start + 8 * |e.importedPackages|)
  }

  lemma {:induction false} ViewsLead(v: Version, es: seq<StoreEntry>, i: nat)
    requires Fits(v, es) && i < |es|
    ensures LeadsTo(v, FileEntryOf(v, es, i), EntryStart(v, i) + v.MemberOffset(), ArrayStart(v, es, i), es[i])
    ensures SameFixedFields(FileEntryOf(v, es, i), es[i])
  {
    StartBounds(v, es, i);
  }

  lemma {:induction false} ReadImportsBack(buffer: seq<Byte>, at: nat, ids: seq<U64>, rest: seq<Byte>, member: nat,
                                           imports: View)
    requires Placed(buffer, at, EncodeIds(ids) + rest)
    requires imports.count == |ids| && (ids != [] ==> member + imports.offset == at)
    ensures ReadImports(buffer, member, imports) == Some(ids)
  {
    PlacedParts(buffer, at, EncodeIds(ids), rest);
    IdsRoundTrip(ids);
  }

  lemma {:induction false} ReadHashesBack(v: Version, buffer: seq<Byte>, at: nat, front: seq<Byte>, hashes: seq<Hash>,
                                          member: nat, view: View)
    requires v.HasHashes() && Placed(buffer, at, front + EncodeHashes(hashes))
    requires view.count == |hashes| && (hashes != [] ==> member + view.offset + 8 == at + |front|)
    ensures ReadHashes(v, buffer, member, view) == Some(hashes)
  {
    PlacedParts(buffer, at, front, EncodeHashes(hashes));
    HashesRoundTrip(hashes);
  }

  lemma {:induction false} BothArraysBack(v: Version, buffer: seq<Byte>, start: nat, e: StoreEntry, member: nat,
                                          f: FileEntry)
    requires Placed(buffer, start, ArrayData(v, e)) && LeadsTo(v, f, member, start, e)
    ensures ReadImports(buffer, member, f.imports) == Some(e.importedPackages)
    ensures v.HasHashes() ==> ReadHashes(v, buffer, member, f.hashes) == Some(e.shaderMapHashes)
  {
    var ids, hashes := EncodeIds(e.importedPackages), if v.HasHashes() then EncodeHashes(e.shaderMapHashes) else [];
    ReadImportsBack(buffer, start, e.importedPackages, hashes, member, f.imports);
    if v.HasHashes() {
      ReadHashesBack(v, buffer, start, ids, e.shaderMapHashes, member, f.hashes);
    }
  }

  lemma {:induction false} LaidArrays(v: Version, es: seq<StoreEntry>, buffer: seq<Byte>, i: nat)
    requires Fits(v, es) && i < |es| && Laid(v, es, buffer, |es|)
    ensures Placed(buffer, ArrayStart(v, es, i), ArrayData(v, es[i]))
  {
    assert EntryPlaced(v, es, buffer, i);
  }

  ghost predicate SameFixedFields(f: FileEntry, e: StoreEntry) {
    && f.exportBundlesSize == e.exportBundlesSize && f.loadOrder == e.loadOrder
    && f.exportCount == e.exportCount && f.exportBundleCount == e.exportBundleCount
  }

  lemma {:induction false} CompletedEntry(v: Version, buffer: seq<Byte>, f: FileEntry, member: nat, start: nat,
                                          e: StoreEntry)
    requires SameFixedFields(f, e) && Placed(buffer, start, ArrayData(v, e)) && LeadsTo(v, f, member, start, e)
    ensures Complete(v, buffer, Stored(v, f), member) == Some(Restrict(v, e))
  {
    BothArraysBack(v, buffer, start, e, member, f);
  }

  lemma {:induction false} CompleteBack(v: Version, es: seq<StoreEntry>, buffer: seq<Byte>, i: nat)
    requires Fits(v, es) && i < |es| && Laid(v, es, buffer, |es|)
    ensures Complete(v, buffer, Stored(v, FileEntryOf(v, es, i)), EntryStart(v, i) + v.MemberOffset()) ==
              Some(Restrict(v, es[i]))
  {
    LaidArrays(v, es, buffer, i);
    ViewsLead(v, es, i);
    CompletedEntry(v, buffer, FileEntryOf(v, es, i), EntryStart(v, i) + v.MemberOffset(), ArrayStart(v, es, i), es[i]);
  }

  datatype Store = Store(ids: seq<U64>, entries: seq<StoreEntry>) {
    predicate Valid() {
      |ids| == |entries|
    }
  }

  /** Writing a store and reading it back yields the same packages with everything the
      version stores, and nothing else. */
  method WriteAndRead(v: Version, store: Store) returns (r: Option<Store>)
    requires store.Valid() && Fits(v, store.entries)
    ensures r.Some? && r.value.ids == store.ids && Restricts(v, store.entries, r.value.entries)
  {
    var buffer := Serialize(v, store.entries);
    var entries := Deserialize(v, |store.ids|, buffer, store.entries);
    match entries {
      case None =>
        return None;
      case Some(es) =>
        return Some(Store(store.ids, es));
    }
  }
}
