/** Placement of export data: written in bundle order by one converter, moved back to
    export order by the other. */
module ExportData {
  import opened Zen
  import opened Sequences
  import opened Arithmetic
  import opened Bytes
  import opened LoadOrder
  import opened PreloadGraph
  import opened Bundles

  /** Four bytes that end a legacy exports file: 0x9E2A83C1, little-endian. */
  const PACKAGE_FILE_TAG: seq<Byte> := [0xC1, 0x83, 0x2A, 0x9E]

  /** Start of a bundle whose data simply follows the previous bundle. */
  const IMPLICIT_OFFSET: nat := 0xFFFF_FFFF_FFFF_FFFF

  /** Where the data of an export lies in the legacy exports file. */
  datatype Extent = Extent(offset: nat, size: nat)

  ghost function Sizes(exports: seq<Extent>): (r: seq<nat>)
    ensures |r| == |exports|
  {
    seq(|exports|, e requires 0 <= e < |exports| => exports[e].size)
  }

  ghost predicate InFile(exports: seq<Extent>, buf: seq<Byte>) {
    forall e :: 0 <= e < |exports| ==> exports[e].offset + exports[e].size <= |buf|
  }

  function DataOf(exports: seq<Extent>, buf: seq<Byte>, e: nat): (r: seq<Byte>)
    requires e < |exports| && exports[e].offset + exports[e].size <= |buf|
    ensures |r| == exports[e].size
  {
    buf[exports[e].offset..exports[e].offset + exports[e].size]
  }

  /** Every export is serialized exactly once. */
  ghost predicate SerializesOnce(entries: seq<BundleEntry>, exportCount: nat) {
    && InRange(entries, exportCount)
    && forall e :: 0 <= e < exportCount ==> multiset(entries)[BundleEntry(e, Serialize)] == 1
  }

  // ------------------------------------------------------------- bundle order

  /** The data of the Serialize entries, one after the other. */
  ghost function BundleData(entries: seq<BundleEntry>, exports: seq<Extent>, buf: seq<Byte>): (r: seq<Byte>)
    requires InRange(entries, |exports|) && InFile(exports, buf)
    ensures |r| == SerialSize(entries, Sizes(exports))
  {
    if entries == [] then []
    else
      var last := entries[|entries| - 1];
      BundleData(entries[..|entries| - 1], exports, buf)
      + (if last.command.Serialize? then DataOf(exports, buf, last.exportIndex) else [])
  }

  /** End of the last export in the file. */
  ghost function LargestEnd(entries: seq<BundleEntry>, exports: seq<Extent>): nat
    requires InRange(entries, |exports|)
  {
    if entries == [] then 0
    else
      var last := entries[|entries| - 1];
      var r := LargestEnd(entries[..|entries| - 1], exports);
      if last.command.Serialize? then Max(r, exports[last.exportIndex].offset + exports[last.exportIndex].size) else r
  }

  /** The bytes behind the last export, without a closing package tag. */
  function ExtraData(buf: seq<Byte>, from: nat): (r: seq<Byte>)
    requires 4 <= |buf| && from <= |buf|
  {
    if |buf| - from >= 4 && buf[|buf| - 4..] == PACKAGE_FILE_TAG then buf[from..|buf| - 4] else buf[from..]
  }

  /** The file ends with a package tag that stands behind `from`. */
  ghost predicate TaggedBehind(buf: seq<Byte>, from: nat) {
    from + 4 <= |buf| && buf[|buf| - 4] == 0xC1 && buf[|buf| - 3] == 0x83 && buf[|buf| - 2] == 0x2A &&
        buf[|buf| - 1] == 0x9E
  }

  /** Nothing behind the last export is lost but a closing package tag. */
  lemma {:induction false} ExtraDataIsRest(buf: seq<Byte>, from: nat)
    requires 4 <= |buf| && from <= |buf|
    ensures if TaggedBehind(buf, from) then ExtraData(buf, from) == buf[from..|buf| - 4]
            else ExtraData(buf, from) == buf[from..]
  {
    assert buf[|buf| - 4..] == [buf[|buf| - 4], buf[|buf| - 3], buf[|buf| - 2], buf[|buf| - 1]];
  }

  datatype PlacementError = WrongOffset(bundle: nat)

  lemma {:induction false} LargestEndInFile(entries: seq<BundleEntry>, exports: seq<Extent>, buf: seq<Byte>)
    requires InRange(entries, |exports|) && InFile(exports, buf)
    ensures LargestEnd(entries, exports) <= |buf|
  {
    if entries != [] {
      LargestEndInFile(entries[..|entries| - 1], exports, buf);
    }
  }

  ghost predicate EndsAt(entries: seq<BundleEntry>, exports: seq<Extent>, end: nat)
    requires InRange(entries, |exports|)
  {
    exists x :: x in entries && x.command.Serialize? &&
      exports[x.exportIndex].offset + exports[x.exportIndex].size == end
  }

  /** The largest end is the end of some serialized export, and no other ends behind it. */
  lemma {:induction false} LargestEndIsEnd(entries: seq<BundleEntry>, exports: seq<Extent>)
    requires InRange(entries, |exports|)
    ensures forall x :: x in entries && x.command.Serialize? ==>
              exports[x.exportIndex].offset + exports[x.exportIndex].size <= LargestEnd(entries, exports)
    ensures LargestEnd(entries, exports) == 0 || EndsAt(entries, exports, LargestEnd(entries, exports))
  {
    if entries != [] {
      var rest := entries[..|entries| - 1];
      LargestEndIsEnd(rest, exports);
      assert entries == rest + [entries[|entries| - 1]];
    }
  }

  lemma {:induction false} BundleDataStep(entries: seq<BundleEntry>, exports: seq<Extent>, buf: seq<Byte>, i: nat)
    requires InRange(entries, |exports|) && InFile(exports, buf) && i < |entries|
    ensures var x := entries[i];
            && BundleData(entries[..i + 1], exports, buf) ==
                 BundleData(entries[..i], exports, buf)
                 + (if x.command.Serialize? then DataOf(exports, buf, x.exportIndex) else [])
            && LargestEnd(entries[..i + 1], exports) ==
                 (if x.command.Serialize?
                  then Max(LargestEnd(entries[..i], exports),
                           exports[x.exportIndex].offset + exports[x.exportIndex].size)
                  else LargestEnd(entries[..i], exports))
  {
    assert entries[..i + 1][..i] == entries[..i];
  }

  /** Writes the data of entries first to last-1. */
  method WriteBundle(entries: seq<BundleEntry>, first: nat, last: nat, exports: seq<Extent>, buf: seq<Byte>,
                     before: seq<Byte>, endBefore: nat)
    returns (written: seq<Byte>, largestEnd: nat)
    requires InRange(entries, |exports|) && InFile(exports, buf)
    requires first <= last <= |entries|
    requires before == BundleData(entries[..first], exports, buf)
    requires endBefore == LargestEnd(entries[..first], exports)
    ensures written == BundleData(entries[..last], exports, buf)
    ensures largestEnd == LargestEnd(entries[..last], exports)
  {
    written, largestEnd := before, endBefore;
    for i := first to last
      invariant written == BundleData(entries[..i], exports, buf)
      invariant largestEnd == LargestEnd(entries[..i], exports)
    {
      var entry := entries[i];
      BundleDataStep(entries, exports, buf, i);
      if entry.command.Serialize? {
        var x := exports[entry.exportIndex];
        largestEnd := Max(largestEnd, x.offset + x.size);
        written := written + buf[x.offset..x.offset + x.size];
      }
    }
  }

  /** The bytes behind the last export that are worth keeping. */
  method FindExtraData(buf: seq<Byte>, from: nat) returns (r: seq<Byte>)
    requires 4 <= |buf| && from <= |buf|
    ensures r == ExtraData(buf, from)
    ensures r == if TaggedBehind(buf, from) then buf[from..|buf| - 4] else buf[from..]
  {
    ExtraDataIsRest(buf, from);
    r := [];
    var length := |buf| - from;
    if length >= 4 && buf[|buf| - 4..] == PACKAGE_FILE_TAG {
      length := length - 4;
    }
    if length > 0 {
      r := buf[from..from + length];
    }
  }

  /** Writes the export data in bundle order, followed by the extra data of the file. It
      fails exactly when some bundle is not placed where its header says. */
  method WriteExportsInBundleOrder(headers: seq<BundleHeader>, entries: seq<BundleEntry>, exports: seq<Extent>,
                                   buf: seq<Byte>)
    returns (r: Result<seq<Byte>, PlacementError>)
    requires InRange(entries, |exports|) && InFile(exports, buf) && 4 <= |buf|
    requires Tiles(headers, |entries|)
    ensures r.Ok? <==> OffsetsFollow(headers, entries, Sizes(exports))
    ensures r.Ok? ==> LargestEnd(entries, exports) <= |buf| &&
                      r.value == BundleData(entries, exports, buf) + ExtraData(buf, LargestEnd(entries, exports))
    ensures r.Ok? ==> var end := LargestEnd(entries, exports);
                      r.value[SerialSize(entries, Sizes(exports))..] ==
                        if TaggedBehind(buf, end) then buf[end..|buf| - 4] else buf[end..]
  {
    var written: seq<Byte> := [];
    var largestEnd := 0;
    for b := 0 to |headers|
      invariant forall c :: 0 <= c < b ==> OffsetFollows(headers[c], entries, Sizes(exports))
      invariant StartOf(headers, b) <= |entries|
      invariant written == BundleData(entries[..StartOf(headers, b)], exports, buf)
      invariant largestEnd == LargestEnd(entries[..StartOf(headers, b)], exports)
    {
      var h := headers[b];
      assert h.firstEntry == StartOf(headers, b);
      TilesBounds(headers, |entries|, b);
      if h.serialOffset != |written| {
        assert !OffsetFollows(headers[b], entries, Sizes(exports));
        return Err(WrongOffset(b));
      }
      written, largestEnd := WriteBundle(entries, h.firstEntry, BundleEnd(h), exports, buf, written, largestEnd);
    }
    assert entries[..|entries|] == entries;
    LargestEndInFile(entries, exports, buf);
    var extra := FindExtraData(buf, largestEnd);
    assert (written + extra)[|written|..] == extra;
    return Ok(written + extra);
  }

  // -------------------------------------------------------------- export order

  /** The bundles of a package and the size of the header in front of their data. */
  datatype BundleLayout = BundleLayout(headers: seq<BundleHeader>, entries: seq<BundleEntry>, sizes: seq<nat>,
                                       headerSize: nat) {
    ghost predicate Valid() {
      Tiles(headers, |entries|) && SerializesOnce(entries, |sizes|)
    }

    /** The data size of bundle `b` in front of entry `i`. */
    ghost function SizeUpTo(b: nat, i: nat): nat
      requires Valid() && b < |headers| && headers[b].firstEntry <= i <= BundleEnd(headers[b])
    {
      TilesBounds(headers, |entries|, b);
      SerialSize(entries[headers[b].firstEntry..i], sizes)
    }

    /** Where the data of bundle `b` starts: where its header says, else where the bundle
        before it ends. */
    ghost function Start(b: nat): nat
      requires Valid() && b < |headers|
      decreases b, 0
    {
      if headers[b].serialOffset != IMPLICIT_OFFSET then headerSize + headers[b].serialOffset
      else if b == 0 then headerSize
      else Finish(b - 1)
    }

    ghost function Finish(b: nat): nat
      requires Valid() && b < |headers|
      decreases b, 1
    {
      Start(b) + SizeUpTo(b, BundleEnd(headers[b]))
    }

    ghost function Source(b: nat, i: nat): nat
      requires Valid() && InBundle(headers, b, i)
    {
      Start(b) + SizeUpTo(b, i)
    }

    /** The furthest end of the first `n` bundles. */
    ghost function LastEnd(n: nat): nat
      requires Valid() && n <= |headers|
    {
      if n == 0 then 0 else Max(LastEnd(n - 1), Finish(n - 1))
    }

    ghost predicate EndsBy(b: nat, bound: nat)
      requires Valid() && b < |headers|
    {
      Finish(b) <= bound
    }

    /** All bundles end within the raw data. */
    ghost predicate Fits(raw: seq<Byte>)
      requires Valid()
    {
      forall b: nat {:trigger EndsBy(b, |raw|)} :: b < |headers| ==> EndsBy(b, |raw|)
    }
  }

  /** The bytes at `target` are those found at `source` in the raw data. */
  predicate Holds(buf: seq<Byte>, target: nat, raw: seq<Byte>, source: nat, size: nat) {
    size == 0 || (target + size <= |buf| && source + size <= |raw| &&
                  buf[target..target + size] == raw[source..source + size])
  }

  /** The first `k` entries have had their data moved to its place in export order. */
  ghost predicate MovedUpTo(buf: seq<Byte>, raw: seq<Byte>, l: BundleLayout, k: nat)
    requires l.Valid()
  {
    forall b: nat, i: nat {:trigger MovedEntry(buf, raw, l, b, i)} ::
      InBundle(l.headers, b, i) && i < k && i < |l.entries| ==> MovedEntry(buf, raw, l, b, i)
  }

  ghost predicate MovedEntry(buf: seq<Byte>, raw: seq<Byte>, l: BundleLayout, b: nat, i: nat)
    requires l.Valid() && InBundle(l.headers, b, i) && i < |l.entries|
  {
    var e := l.entries[i].exportIndex;
    l.entries[i].command.Serialize? ==> Holds(buf, PrefixSum(l.sizes, e), raw, l.Source(b, i), l.sizes[e])
  }

  /** The outcome of moving the export data of a package: every export at its place in
      export order, then whatever follows the bundles, then the package tag. */
  ghost predicate Rebuilt(result: seq<Byte>, raw: seq<Byte>, l: BundleLayout)
    requires l.Valid()
  {
    var total, end := PrefixSum(l.sizes, |l.sizes|), l.LastEnd(|l.headers|);
    && end <= |raw|
    && MovedUpTo(result, raw, l, |l.entries|)
    && total <= |result| && result[total..] == raw[end..] + PACKAGE_FILE_TAG
  }

  lemma {:induction false} SerialSizeMonotone(entries: seq<BundleEntry>, sizes: seq<nat>, i: nat, j: nat)
    requires InRange(entries, |sizes|) && i <= j <= |entries|
    ensures SerialSize(entries[..i], sizes) <= SerialSize(entries[..j], sizes)
    decreases j
  {
    if i < j {
      assert entries[..j][..j - 1] == entries[..j - 1];
      SerialSizeMonotone(entries, sizes, i, j - 1);
    }
  }

  lemma {:induction false} SerialSizeStep(entries: seq<BundleEntry>, sizes: seq<nat>, i: nat)
    requires InRange(entries, |sizes|) && i < |entries|
    ensures SerialSize(entries[..i + 1], sizes) ==
              SerialSize(entries[..i], sizes)
              + (if entries[i].command.Serialize? then sizes[entries[i].exportIndex] else 0)
    ensures SerialSize(entries[..i + 1], sizes) <= SerialSize(entries, sizes)
  {
    assert entries[..i + 1][..i] == entries[..i];
    SerialSizeMonotone(entries, sizes, i + 1, |entries|);
    assert entries[..|entries|] == entries;
  }

  lemma {:induction false} SizeStep(l: BundleLayout, b: nat, k: nat)
    requires l.Valid() && InBundle(l.headers, b, k)
    ensures k < |l.entries|
    ensures l.SizeUpTo(b, k + 1) ==
              l.SizeUpTo(b, k) + (if l.entries[k].command.Serialize? then l.sizes[l.entries[k].exportIndex] else 0)
    ensures l.Start(b) + l.SizeUpTo(b, k + 1) <= l.Finish(b)
  {
    TilesBounds(l.headers, |l.entries|, b);
    var first, end := l.headers[b].firstEntry, BundleEnd(l.headers[b]);
    var own := l.entries[first..end];
    assert own[..k + 1 - first] == l.entries[first..k + 1] && own[..k - first] == l.entries[first..k];
    SerialSizeStep(own, l.sizes, k - first);
  }

  lemma {:induction false} SerializedOnce(entries: seq<BundleEntry>, exportCount: nat, i: nat, j: nat)
    requires SerializesOnce(entries, exportCount)
    requires i < j < |entries| && entries[i].command.Serialize? && entries[j].command.Serialize?
    ensures entries[i].exportIndex != entries[j].exportIndex
  {
    if entries[i].exportIndex == entries[j].exportIndex {
      TwoOccurrences(entries, i, j);
    }
  }

  /** Moving one export puts it at its place. */
  lemma {:induction false} MovePlaces(buf: seq<Byte>, raw: seq<Byte>, sizes: seq<nat>, e: nat, source: nat)
    requires e < |sizes| && source + sizes[e] <= |raw| && |buf| <= PrefixSum(sizes, |sizes|)
    ensures var after := WriteAt(buf, PrefixSum(sizes, e), raw[source..source + sizes[e]]);
            Holds(after, PrefixSum(sizes, e), raw, source, sizes[e]) && |after| <= PrefixSum(sizes, |sizes|)
  {
    PrefixRangesDisjoint(sizes, e, |sizes|);
    var target := PrefixSum(sizes, e);
    var after := WriteAt(buf, target, raw[source..source + sizes[e]]);
    assert sizes[e] != 0 ==> after[target..target + sizes[e]] == raw[source..source + sizes[e]];
  }

  /** Moving one export disturbs no other. */
  lemma {:induction false} MoveKeepsOthers(buf: seq<Byte>, raw: seq<Byte>, sizes: seq<nat>, e: nat, data: seq<Byte>,
                                           d: nat, source: nat)
    requires d < |sizes| && e < |sizes| && d != e && |data| == sizes[e]
    requires Holds(buf, PrefixSum(sizes, d), raw, source, sizes[d])
    ensures Holds(WriteAt(buf, PrefixSum(sizes, e), data), PrefixSum(sizes, d), raw, source, sizes[d])
  {
    if d < e {
      PrefixRangesDisjoint(sizes, d, e);
    } else {
      PrefixRangesDisjoint(sizes, e, d);
    }
  }

  /** The data of export `e` at its place. */
  function Moved(buf: seq<Byte>, raw: seq<Byte>, sizes: seq<nat>, e: nat, source: nat): seq<Byte>
    requires e < |sizes| && source + sizes[e] <= |raw|
  {
    WriteAt(buf, PrefixSum(sizes, e), raw[source..source + sizes[e]])
  }

  lemma {:induction false} MoveKeepsEntry(buf: seq<Byte>, raw: seq<Byte>, l: BundleLayout, k: nat, e: nat,
                                          data: seq<Byte>, c: nat, i: nat)
    requires l.Valid() && i < k < |l.entries| && l.entries[k] == BundleEntry(e, Serialize) && |data| == l.sizes[e]
    requires InBundle(l.headers, c, i) && MovedEntry(buf, raw, l, c, i)
    ensures MovedEntry(WriteAt(buf, PrefixSum(l.sizes, e), data), raw, l, c, i)
  {
    if l.entries[i].command.Serialize? {
      SerializedOnce(l.entries, |l.sizes|, i, k);
      MoveKeepsOthers(buf, raw, l.sizes, e, data, l.entries[i].exportIndex, l.Source(c, i));
    }
  }

  lemma {:induction false} MoveAdvances(buf: seq<Byte>, raw: seq<Byte>, l: BundleLayout, b: nat, k: nat, e: nat,
                                        source: nat)
    requires l.Valid() && InBundle(l.headers, b, k) && k < |l.entries| && l.entries[k] == BundleEntry(e, Serialize)
    requires source == l.Source(b, k) && source + l.sizes[e] <= |raw|
    requires |buf| <= PrefixSum(l.sizes, |l.sizes|) && MovedUpTo(buf, raw, l, k)
    ensures |Moved(buf, raw, l.sizes, e, source)| <= PrefixSum(l.sizes, |l.sizes|)
    ensures MovedUpTo(Moved(buf, raw, l.sizes, e, source), raw, l, k + 1)
  {
    var after := Moved(buf, raw, l.sizes, e, source);
    MovePlaces(buf, raw, l.sizes, e, source);
    TilesPartition(l.headers, |l.entries|, k);
    assert MovedEntry(after, raw, l, b, k);
    forall c: nat, i: nat | InBundle(l.headers, c, i) && i <= k && i < |l.entries|
      ensures MovedEntry(after, raw, l, c, i)
    {
      if i < k {
        assert MovedEntry(buf, raw, l, c, i);
        MoveKeepsEntry(buf, raw, l, k, e, raw[source..source + l.sizes[e]], c, i);
      }
    }
  }

  /** An entry without data has nothing to move. */
  lemma {:induction false} SkipAdvances(buf: seq<Byte>, raw: seq<Byte>, l: BundleLayout, k: nat)
    requires l.Valid() && k < |l.entries| && !l.entries[k].command.Serialize?
    requires MovedUpTo(buf, raw, l, k)
    ensures MovedUpTo(buf, raw, l, k + 1)
  {
    forall c: nat, i: nat | InBundle(l.headers, c, i) && i <= k && i < |l.entries|
      ensures MovedEntry(buf, raw, l, c, i)
    {
      assert i < k ==> MovedEntry(buf, raw, l, c, i);
    }
  }

  /** The offsets at which the exports follow each other in export order. */
  ghost predicate InExportOrder(targets: seq<nat>, sizes: seq<nat>) {
    |targets| == |sizes| && forall e {:trigger targets[e]} :: 0 <= e < |targets| ==> targets[e] == PrefixSum(sizes, e)
  }

  /** Assigns the serial offsets of a legacy package. */
  method AssignSerialOffsets(sizes: seq<nat>) returns (targets: seq<nat>, total: nat)
    ensures InExportOrder(targets, sizes) && total == PrefixSum(sizes, |sizes|)
  {
    targets, total := [], 0;
    for e := 0 to |sizes|
      invariant |targets| == e && total == PrefixSum(sizes, e)
      invariant forall d :: 0 <= d < e ==> targets[d] == PrefixSum(sizes, d)
    {
      targets := targets + [total];
      total := total + sizes[e];
    }
  }

  /** Moves the data of entry `k`, if it has any. It fails when the data does not lie in
      the raw data. */
  method MoveEntry(l: BundleLayout, ghost b: nat, k: nat, targets: seq<nat>, raw: seq<Byte>, offset: nat,
                   buf0: seq<Byte>)
    returns (ok: bool, buf: seq<Byte>, next: nat)
    requires l.Valid() && InBundle(l.headers, b, k) && InExportOrder(targets, l.sizes)
    requires offset == l.Source(b, k)
    requires |buf0| <= PrefixSum(l.sizes, |l.sizes|) && MovedUpTo(buf0, raw, l, k)
    ensures !ok ==> !l.EndsBy(b, |raw|)
    ensures ok ==> next == l.Start(b) + l.SizeUpTo(b, k + 1)
    ensures ok ==> |buf| <= PrefixSum(l.sizes, |l.sizes|) && MovedUpTo(buf, raw, l, k + 1)
  {
    ok, buf, next := true, buf0, offset;
    SizeStep(l, b, k);
    if l.entries[k].command.Serialize? {
      var e := l.entries[k].exportIndex;
      if offset + l.sizes[e] > |raw| {
        ok := false;
        return;
      }
      MoveAdvances(buf0, raw, l, b, k, e, offset);
      buf := WriteAt(buf0, targets[e], raw[offset..offset + l.sizes[e]]);
      next := offset + l.sizes[e];
    } else {
      SkipAdvances(buf0, raw, l, k);
    }
  }

  lemma {:induction false} NothingUpTo(l: BundleLayout, b: nat)
    requires l.Valid() && b < |l.headers|
    ensures l.SizeUpTo(b, l.headers[b].firstEntry) == 0
  {
    var first := l.headers[b].firstEntry;
    TilesBounds(l.headers, |l.entries|, b);
    assert l.entries[first..first] == [];
  }

  /** Moves the data of bundle `b`, which starts at `offset` in the raw data. */
  method MoveBundle(l: BundleLayout, b: nat, targets: seq<nat>, raw: seq<Byte>, offset: nat, buf0: seq<Byte>)
    returns (ok: bool, buf: seq<Byte>, next: nat)
    requires l.Valid() && b < |l.headers| && InExportOrder(targets, l.sizes) && offset == l.Start(b)
    requires |buf0| <= PrefixSum(l.sizes, |l.sizes|) && MovedUpTo(buf0, raw, l, l.headers[b].firstEntry)
    ensures !ok ==> !l.EndsBy(b, |raw|)
    ensures ok ==> next == l.Finish(b)
    ensures ok ==> |buf| <= PrefixSum(l.sizes, |l.sizes|) && MovedUpTo(buf, raw, l, BundleEnd(l.headers[b]))
  {
    ok, buf, next := true, buf0, offset;
    NothingUpTo(l, b);
    for k := l.headers[b].firstEntry to BundleEnd(l.headers[b])
      invariant next == l.Start(b) + l.SizeUpTo(b, k)
      invariant |buf| <= PrefixSum(l.sizes, |l.sizes|) && MovedUpTo(buf, raw, l, k)
    {
      ok, buf, next := MoveEntry(l, b, k, targets, raw, next, buf);
      if !ok {
        return;
      }
    }
  }

  lemma {:induction false} LastEndWithin(l: BundleLayout, n: nat, bound: nat)
    requires l.Valid() && n <= |l.headers|
    ensures l.LastEnd(n) <= bound <==> forall b: nat {:trigger l.EndsBy(b, bound)} :: b < n ==> l.EndsBy(b, bound)
  {
    if n > 0 {
      LastEndWithin(l, n - 1, bound);
      assert l.LastEnd(n) <= bound <==> l.LastEnd(n - 1) <= bound && l.EndsBy(n - 1, bound);
    }
  }

  /** Moves the data of all bundles to export order. */
  method MoveBundles(l: BundleLayout, targets: seq<nat>, raw: seq<Byte>) returns (ok: bool, buf: seq<Byte>, end: nat)
    requires l.Valid() && InExportOrder(targets, l.sizes)
    ensures ok <==> l.Fits(raw)
    ensures ok ==> end == l.LastEnd(|l.headers|) && end <= |raw|
    ensures ok ==> |buf| <= PrefixSum(l.sizes, |l.sizes|) && MovedUpTo(buf, raw, l, |l.entries|)
  {
    ok, buf, end := true, [], 0;
    var packageOffset := l.headerSize;
    for b := 0 to |l.headers|
      invariant StartOf(l.headers, b) <= |l.entries|
      invariant packageOffset == if b == 0 then l.headerSize else l.Finish(b - 1)
      invariant end == l.LastEnd(b)
      invariant |buf| <= PrefixSum(l.sizes, |l.sizes|) && MovedUpTo(buf, raw, l, StartOf(l.headers, b))
    {
      var h := l.headers[b];
      assert h.firstEntry == StartOf(l.headers, b);
      TilesBounds(l.headers, |l.entries|, b);
      var offset := if h.serialOffset != IMPLICIT_OFFSET then l.headerSize + h.serialOffset else packageOffset;
      ok, buf, packageOffset := MoveBundle(l, b, targets, raw, offset, buf);
      if !ok {
        return;
      }
      end := Max(end, packageOffset);
    }
    LastEndWithin(l, |l.headers|, |raw|);
    ok := end <= |raw|;
  }

  /** Moves the export data of a package from bundle order back to export order, wherever
      the headers say that the bundles start. It fails exactly when a bundle ends behind
      the raw data. */
  method RebuildExportData(l: BundleLayout, targets: seq<nat>, raw: seq<Byte>) returns (r: Option<seq<Byte>>)
    requires l.Valid() && InExportOrder(targets, l.sizes)
    ensures r.Some? <==> l.Fits(raw)
    ensures r.Some? ==> Rebuilt(r.value, raw, l)
  {
    var total := 0;
    for e := 0 to |l.sizes|
      invariant total == PrefixSum(l.sizes, e)
    {
      total := total + l.sizes[e];
    }
    var ok, buf, end := MoveBundles(l, targets, raw);
    if !ok {
      return None;
    }
    FinishKeepsAll(buf, raw, l, total, raw[end..]);
    buf := WriteAt(buf, total, raw[end..]);
    r := Some(WriteAt(buf, total + |raw[end..]|, PACKAGE_FILE_TAG));
  }

  lemma {:induction false} FinishKeepsAll(buf: seq<Byte>, raw: seq<Byte>, l: BundleLayout, total: nat, rest: seq<Byte>)
    requires l.Valid() && total == PrefixSum(l.sizes, |l.sizes|) && |buf| <= total
    requires MovedUpTo(buf, raw, l, |l.entries|)
    ensures var result := WriteAt(WriteAt(buf, total, rest), total + |rest|, PACKAGE_FILE_TAG);
            && MovedUpTo(result, raw, l, |l.entries|)
            && total <= |result| && result[total..] == rest + PACKAGE_FILE_TAG
  {
    var result := WriteAt(WriteAt(buf, total, rest), total + |rest|, PACKAGE_FILE_TAG);
    forall b: nat, i: nat | InBundle(l.headers, b, i) && i < |l.entries|
      ensures MovedEntry(result, raw, l, b, i)
    {
      assert MovedEntry(buf, raw, l, b, i);
      PrefixRangesDisjoint(l.sizes, l.entries[i].exportIndex, |l.sizes|);
    }
  }

  // ---------------------------------------------- bundles that follow each other

  /** Every bundle starts where the previous one ends, whether its header says so or
      leaves it implicit. */
  ghost predicate StartsLocated(headers: seq<BundleHeader>, entries: seq<BundleEntry>, sizes: seq<nat>)
    requires InRange(entries, |sizes|)
  {
    forall b :: 0 <= b < |headers| ==>
      headers[b].serialOffset == IMPLICIT_OFFSET || OffsetFollows(headers[b], entries, sizes)
  }

  lemma {:induction false} SerialSizeSplit(entries: seq<BundleEntry>, sizes: seq<nat>, i: nat, j: nat)
    requires InRange(entries, |sizes|) && i <= j <= |entries|
    ensures SerialSize(entries[..j], sizes) == SerialSize(entries[..i], sizes) + SerialSize(entries[i..j], sizes)
    decreases j
  {
    if i < j {
      SerialSizeSplit(entries, sizes, i, j - 1);
      SerialSizeStep(entries, sizes, j - 1);
      SliceFront(entries, i, j - 1, j);
    }
  }

  /** The data of an entry stands behind that of all entries before it. */
  lemma {:induction false} LocatedSource(l: BundleLayout, b: nat, i: nat)
    requires l.Valid() && StartsLocated(l.headers, l.entries, l.sizes)
    requires b < |l.headers| && l.headers[b].firstEntry <= i <= BundleEnd(l.headers[b]) && i <= |l.entries|
    ensures l.Start(b) + l.SizeUpTo(b, i) == l.headerSize + SerialSize(l.entries[..i], l.sizes)
    decreases b
  {
    assert l.headers[b].firstEntry == StartOf(l.headers, b);
    SerialSizeSplit(l.entries, l.sizes, l.headers[b].firstEntry, i);
    if b > 0 {
      TilesBounds(l.headers, |l.entries|, b - 1);
      LocatedSource(l, b - 1, BundleEnd(l.headers[b - 1]));
    }
  }

  lemma {:induction false} LocatedEnd(l: BundleLayout, n: nat)
    requires l.Valid() && StartsLocated(l.headers, l.entries, l.sizes) && n <= |l.headers|
    ensures StartOf(l.headers, n) <= |l.entries|
    ensures l.LastEnd(n) == if n == 0 then 0 else l.headerSize + SerialSize(l.entries[..StartOf(l.headers, n)], l.sizes)
  {
    if n > 0 {
      LocatedEnd(l, n - 1);
      assert l.headers[n - 1].firstEntry == StartOf(l.headers, n - 1);
      TilesBounds(l.headers, |l.entries|, n - 1);
      LocatedSource(l, n - 1, BundleEnd(l.headers[n - 1]));
      SerialSizeMonotone(l.entries, l.sizes, StartOf(l.headers, n - 1), StartOf(l.headers, n));
    }
  }

  // ---------------------------------------------------------------- round trip

  /** The data of the first `n` exports in export order. */
  ghost function ExportOrderData(exports: seq<Extent>, buf: seq<Byte>, n: nat): (r: seq<Byte>)
    requires n <= |exports| && InFile(exports, buf)
    ensures |r| == PrefixSum(Sizes(exports), n)
  {
    if n == 0 then [] else ExportOrderData(exports, buf, n - 1) + DataOf(exports, buf, n - 1)
  }

  /** A Serialize entry finds its data behind that of the entries before it. */
  lemma {:induction false} BundleDataAt(entries: seq<BundleEntry>, exports: seq<Extent>, buf: seq<Byte>, i: nat)
    requires InRange(entries, |exports|) && InFile(exports, buf)
    requires i < |entries| && entries[i].command.Serialize?
    ensures var start := SerialSize(entries[..i], Sizes(exports));
            var e := entries[i].exportIndex;
            start + exports[e].size <= |BundleData(entries, exports, buf)| &&
            BundleData(entries, exports, buf)[start..start + exports[e].size] == DataOf(exports, buf, e)
  {
    var n := |entries| - 1;
    var start := SerialSize(entries[..i], Sizes(exports));
    var e := entries[i].exportIndex;
    if i < n {
      var rest := entries[..n];
      assert rest[..i] == entries[..i];
      BundleDataAt(rest, exports, buf, i);
      assert BundleData(entries, exports, buf)[start..start + exports[e].size]
          == BundleData(rest, exports, buf)[start..start + exports[e].size];
    }
  }

  /** Buffers that hold every export at its prefix sum agree. */
  lemma {:induction false} ExportOrderDataIs(s: seq<Byte>, exports: seq<Extent>, buf: seq<Byte>, n: nat)
    requires n <= |exports| && InFile(exports, buf) && PrefixSum(Sizes(exports), n) <= |s|
    requires forall e :: 0 <= e < n ==> HoldsExport(s, exports, buf, e)
    ensures s[..PrefixSum(Sizes(exports), n)] == ExportOrderData(exports, buf, n)
  {
    if n > 0 {
      var k := n - 1;
      ExportOrderDataIs(s, exports, buf, k);
      assert HoldsExport(s, exports, buf, k);
      var a, b := PrefixSum(Sizes(exports), k), PrefixSum(Sizes(exports), n);
      assert s[..b] == s[..a] + s[a..b];
    }
  }

  ghost predicate HoldsExport(s: seq<Byte>, exports: seq<Extent>, buf: seq<Byte>, e: nat)
    requires e < |exports| && InFile(exports, buf)
  {
    var a := PrefixSum(Sizes(exports), e);
    exports[e].size == 0 || (a + exports[e].size <= |s| && s[a..a + exports[e].size] == DataOf(exports, buf, e))
  }

  /** Sum of the sizes of the first `n` exports, each weighted by how often it is
      serialized. */
  ghost function WeightedSum(entries: multiset<BundleEntry>, sizes: seq<nat>, n: nat): nat
    requires n <= |sizes|
  {
    if n == 0 then 0 else WeightedSum(entries, sizes, n - 1) + entries[BundleEntry(n - 1, Serialize)] * sizes[n - 1]
  }

  lemma {:induction false} WeightedSumGrows(entries: multiset<BundleEntry>, sizes: seq<nat>, n: nat, x: BundleEntry)
    requires n <= |sizes|
    ensures WeightedSum(entries + multiset{x}, sizes, n) ==
              WeightedSum(entries, sizes, n)
              + (if x.command.Serialize? && x.exportIndex < n then sizes[x.exportIndex] else 0)
  {
    if n > 0 {
      WeightedSumGrows(entries, sizes, n - 1, x);
      var y := BundleEntry(n - 1, Serialize);
      if x == y {
        assert (entries[y] + 1) * sizes[n - 1] == entries[y] * sizes[n - 1] + sizes[n - 1];
      }
    }
  }

  lemma {:induction false} SerialSizeIsWeighted(entries: seq<BundleEntry>, sizes: seq<nat>)
    requires InRange(entries, |sizes|)
    ensures SerialSize(entries, sizes) == WeightedSum(multiset(entries), sizes, |sizes|)
  {
    if entries == [] {
      WeightedSumOfNone(sizes, |sizes|);
    } else {
      var n := |entries| - 1;
      SerialSizeIsWeighted(entries[..n], sizes);
      assert entries == entries[..n] + [entries[n]];
      WeightedSumGrows(multiset(entries[..n]), sizes, |sizes|, entries[n]);
    }
  }

  lemma {:induction false} WeightedSumOfNone(sizes: seq<nat>, n: nat)
    requires n <= |sizes|
    ensures WeightedSum(multiset{}, sizes, n) == 0
  {
    if n > 0 {
      WeightedSumOfNone(sizes, n - 1);
    }
  }

  lemma {:induction false} WeightedSumOfOnce(entries: multiset<BundleEntry>, sizes: seq<nat>, n: nat)
    requires n <= |sizes| && forall e :: 0 <= e < n ==> entries[BundleEntry(e, Serialize)] == 1
    ensures WeightedSum(entries, sizes, n) == PrefixSum(sizes, n)
  {
    if n > 0 {
      WeightedSumOfOnce(entries, sizes, n - 1);
    }
  }

  /** Bundles in any order take as much room as the exports in export order. */
  lemma {:induction false} SerialSizeIsTotal(entries: seq<BundleEntry>, sizes: seq<nat>)
    requires SerializesOnce(entries, |sizes|)
    ensures SerialSize(entries, sizes) == PrefixSum(sizes, |sizes|)
  {
    SerialSizeIsWeighted(entries, sizes);
    WeightedSumOfOnce(multiset(entries), sizes, |sizes|);
  }

  /** What the two conversions make of an exports file: the exports in export order, the
      extra data and the package tag. */
  ghost function Converted(entries: seq<BundleEntry>, exports: seq<Extent>, buf: seq<Byte>): seq<Byte>
    requires InRange(entries, |exports|) && InFile(exports, buf) && 4 <= |buf|
  {
    LargestEndInFile(entries, exports, buf);
    ExportOrderData(exports, buf, |exports|) + ExtraData(buf, LargestEnd(entries, exports)) + PACKAGE_FILE_TAG
  }

  lemma {:induction false} RebuiltHoldsExport(l: BundleLayout, exports: seq<Extent>, buf: seq<Byte>, header: seq<Byte>,
                                              rest: seq<Byte>, raw: seq<Byte>, result: seq<Byte>, e: nat)
    requires l.Valid() && StartsLocated(l.headers, l.entries, l.sizes)
    requires l.sizes == Sizes(exports) && l.headerSize == |header| && InFile(exports, buf) && e < |exports|
    requires raw == header + (BundleData(l.entries, exports, buf) + rest)
    requires MovedUpTo(result, raw, l, |l.entries|)
    ensures HoldsExport(result, exports, buf, e)
  {
    var x := BundleEntry(e, Serialize);
    assert x in multiset(l.entries);
    var i: nat :| i < |l.entries| && l.entries[i] == x;
    EntryData(l.entries, exports, buf, header, rest, raw, i);
    TilesPartition(l.headers, |l.entries|, i);
    var b: nat :| InBundle(l.headers, b, i);
    assert MovedEntry(result, raw, l, b, i);
    LocatedSource(l, b, i);
    HoldsWhatWasMoved(result, exports, buf, e, raw, |header| + SerialSize(l.entries[..i], Sizes(exports)));
  }

  /** Where the raw data of a package holds the data of an entry. */
  lemma {:induction false} EntryData(entries: seq<BundleEntry>, exports: seq<Extent>, buf: seq<Byte>, header: seq<Byte>,
                  rest: seq<Byte>, raw: seq<Byte>, i: nat)
    requires InRange(entries, |exports|) && InFile(exports, buf)
    requires i < |entries| && entries[i].command.Serialize?
    requires raw == header + (BundleData(entries, exports, buf) + rest)
    ensures var source := |header| + SerialSize(entries[..i], Sizes(exports));
            var e := entries[i].exportIndex;
            source + exports[e].size <= |raw| && raw[source..source + exports[e].size] == DataOf(exports, buf, e)
  {
    var start, e := SerialSize(entries[..i], Sizes(exports)), entries[i].exportIndex;
    BundleDataAt(entries, exports, buf, i);
    SliceOfMiddle(raw, header, BundleData(entries, exports, buf), rest, start, exports[e].size);
  }

  lemma {:induction false} HoldsWhatWasMoved(s: seq<Byte>, exports: seq<Extent>, buf: seq<Byte>, e: nat,
                                             raw: seq<Byte>, source: nat)
    requires e < |exports| && InFile(exports, buf) && source + exports[e].size <= |raw|
    requires raw[source..source + exports[e].size] == DataOf(exports, buf, e)
    requires Holds(s, PrefixSum(Sizes(exports), e), raw, source, exports[e].size)
    ensures HoldsExport(s, exports, buf, e)
  {
  }

  /** Writing a package in bundle order and rebuilding it puts the original data of every
      export back at its place in export order, whatever the load order, the header in
      front and the way the bundle starts are recorded. */
  lemma {:induction false} RoundTrip(l: BundleLayout, exports: seq<Extent>, buf: seq<Byte>, header: seq<Byte>,
                                     raw: seq<Byte>, result: seq<Byte>)
    requires l.Valid() && l.headers != [] && StartsLocated(l.headers, l.entries, l.sizes)
    requires l.sizes == Sizes(exports) && l.headerSize == |header| && InFile(exports, buf) && 4 <= |buf|
    requires LargestEnd(l.entries, exports) <= |buf|
    requires raw == header + (BundleData(l.entries, exports, buf) + ExtraData(buf, LargestEnd(l.entries, exports)))
    requires Rebuilt(result, raw, l)
    ensures result == Converted(l.entries, exports, buf)
  {
    var extra := ExtraData(buf, LargestEnd(l.entries, exports));
    RestOfRebuilt(l, exports, buf, header, extra, raw);
    forall e | 0 <= e < |exports|
      ensures HoldsExport(result, exports, buf, e)
    {
      RebuiltHoldsExport(l, exports, buf, header, extra, raw, result, e);
    }
    ExportOrderDataIs(result, exports, buf, |exports|);
    var total := PrefixSum(Sizes(exports), |exports|);
    assert result == result[..total] + result[total..];
  }

  /** What follows the bundles in the raw data. */
  lemma {:induction false} RestOfRebuilt(l: BundleLayout, exports: seq<Extent>, buf: seq<Byte>, header: seq<Byte>,
                                         rest: seq<Byte>, raw: seq<Byte>)
    requires l.Valid() && l.headers != [] && StartsLocated(l.headers, l.entries, l.sizes)
    requires l.sizes == Sizes(exports) && l.headerSize == |header| && InFile(exports, buf)
    requires raw == header + (BundleData(l.entries, exports, buf) + rest)
    ensures l.LastEnd(|l.headers|) <= |raw| && raw[l.LastEnd(|l.headers|)..] == rest
  {
    LocatedEnd(l, |l.headers|);
    assert l.entries[..|l.entries|] == l.entries;
  }

  /** Located bundles end within the raw data that was written for them. */
  lemma {:induction false} WrittenFits(l: BundleLayout, exports: seq<Extent>, buf: seq<Byte>, raw: seq<Byte>)
    requires l.Valid() && StartsLocated(l.headers, l.entries, l.sizes)
    requires l.sizes == Sizes(exports) && InFile(exports, buf)
    requires |raw| >= l.headerSize + |BundleData(l.entries, exports, buf)|
    ensures l.Fits(raw)
  {
    LocatedEnd(l, |l.headers|);
    assert l.entries[..|l.entries|] == l.entries;
    LastEndWithin(l, |l.headers|, |raw|);
  }

  /** The exports follow each other in export order, from the start of the file. */
  ghost predicate Contiguous(entries: seq<BundleEntry>, exports: seq<Extent>)
    requires InRange(entries, |exports|)
  {
    && (forall e :: 0 <= e < |exports| && exports[e].size > 0 ==> exports[e].offset == PrefixSum(Sizes(exports), e))
    && LargestEnd(entries, exports) == PrefixSum(Sizes(exports), |exports|)
  }

  predicate EndsWithTag(buf: seq<Byte>) {
    4 <= |buf| && buf[|buf| - 4..] == PACKAGE_FILE_TAG
  }

  lemma {:induction false} DataContinues(exports: seq<Extent>, buf: seq<Byte>, e: nat, at: nat)
    requires e < |exports| && InFile(exports, buf) && at + exports[e].size <= |buf|
    requires exports[e].size > 0 ==> exports[e].offset == at
    ensures buf[..at] + DataOf(exports, buf, e) == buf[..at + exports[e].size]
  {
  }

  lemma {:induction false} ContiguousIsPrefix(entries: seq<BundleEntry>, exports: seq<Extent>, buf: seq<Byte>, n: nat)
    requires InRange(entries, |exports|) && InFile(exports, buf) && Contiguous(entries, exports) && n <= |exports|
    requires PrefixSum(Sizes(exports), n) <= |buf|
    ensures ExportOrderData(exports, buf, n) == buf[..PrefixSum(Sizes(exports), n)]
  {
    if n > 0 {
      ContiguousIsPrefix(entries, exports, buf, n - 1);
      DataContinues(exports, buf, n - 1, PrefixSum(Sizes(exports), n - 1));
    }
  }

  lemma {:induction false} ExportOrderDataAt(exports: seq<Extent>, buf: seq<Byte>, n: nat, e: nat)
    requires e < n <= |exports| && InFile(exports, buf) && exports[e].size > 0
    ensures PrefixSum(Sizes(exports), e) < |ExportOrderData(exports, buf, n)|
    ensures ExportOrderData(exports, buf, n)[PrefixSum(Sizes(exports), e)] == buf[exports[e].offset]
  {
    if e < n - 1 {
      ExportOrderDataAt(exports, buf, n - 1, e);
    }
  }

  /** A file with a single marked byte and a package tag. */
  ghost function Marked(length: nat, at: nat): (r: seq<Byte>)
    requires at + 4 < length
    ensures |r| == length && EndsWithTag(r)
    ensures forall i :: 0 <= i < length - 4 ==> r[i] == if i == at then 1 else 0
  {
    Zeros(at) + [1] + Zeros(length - 4 - at - 1) + PACKAGE_FILE_TAG
  }

  /** The two conversions give every file of a given length back unchanged if and only if
      its exports follow each other in export order. */
  lemma {:induction false} IdentityIffContiguous(entries: seq<BundleEntry>, exports: seq<Extent>, length: nat)
    requires SerializesOnce(entries, |exports|)
    requires forall e :: 0 <= e < |exports| ==> exports[e].offset + exports[e].size <= length
    requires LargestEnd(entries, exports) + 4 <= length
    ensures (forall buf: seq<Byte> :: |buf| == length && EndsWithTag(buf) ==> Converted(entries, exports, buf) == buf)
       <==> Contiguous(entries, exports)
  {
    if Contiguous(entries, exports) {
      forall buf: seq<Byte> | |buf| == length && EndsWithTag(buf)
        ensures Converted(entries, exports, buf) == buf
      {
        ContiguousIsKept(entries, exports, buf);
      }
    } else {
      var buf := ChangedFile(entries, exports, length);
    }
  }

  lemma {:induction false} ContiguousIsKept(entries: seq<BundleEntry>, exports: seq<Extent>, buf: seq<Byte>)
    requires InRange(entries, |exports|) && InFile(exports, buf) && Contiguous(entries, exports)
    requires EndsWithTag(buf) && LargestEnd(entries, exports) + 4 <= |buf|
    ensures Converted(entries, exports, buf) == buf
  {
    var total := PrefixSum(Sizes(exports), |exports|);
    ContiguousIsPrefix(entries, exports, buf, |exports|);
    assert buf == buf[..total] + buf[total..|buf| - 4] + buf[|buf| - 4..];
  }

  /** A file that does not come back unchanged when the exports are not contiguous. */
  lemma {:induction false} ChangedFile(entries: seq<BundleEntry>, exports: seq<Extent>, length: nat)
    returns (buf: seq<Byte>)
    requires SerializesOnce(entries, |exports|) && !Contiguous(entries, exports)
    requires forall e :: 0 <= e < |exports| ==> exports[e].offset + exports[e].size <= length
    requires LargestEnd(entries, exports) + 4 <= length
    ensures |buf| == length && EndsWithTag(buf) && Converted(entries, exports, buf) != buf
  {
    var total := PrefixSum(Sizes(exports), |exports|);
    if LargestEnd(entries, exports) != total {
      buf := Zeros(length - 4) + PACKAGE_FILE_TAG;
      assert |Converted(entries, exports, buf)| == total + (length - 4 - LargestEnd(entries, exports)) + 4;
    } else {
      var e :| 0 <= e < |exports| && exports[e].size > 0 && exports[e].offset != PrefixSum(Sizes(exports), e);
      ExportEndsBelow(entries, exports, e);
      PrefixRangesDisjoint(Sizes(exports), e, |exports|);
      buf := Marked(length, exports[e].offset);
      ExportOrderDataAt(exports, buf, |exports|, e);
      assert Converted(entries, exports, buf)[PrefixSum(Sizes(exports), e)] == 1;
    }
  }

  lemma {:induction false} ExportEndsBelow(entries: seq<BundleEntry>, exports: seq<Extent>, e: nat)
    requires SerializesOnce(entries, |exports|) && e < |exports|
    ensures exports[e].offset + exports[e].size <= LargestEnd(entries, exports)
  {
    var x := BundleEntry(e, Serialize);
    assert x in multiset(entries);
    EntryEndsBelow(entries, exports, x);
  }

  lemma {:induction false} EntryEndsBelow(entries: seq<BundleEntry>, exports: seq<Extent>, x: BundleEntry)
    requires InRange(entries, |exports|) && x in entries && x.command.Serialize?
    ensures x.exportIndex < |exports| &&
              exports[x.exportIndex].offset + exports[x.exportIndex].size <= LargestEnd(entries, exports)
  {
    var n := |entries| - 1;
    if x in entries[..n] {
      EntryEndsBelow(entries[..n], exports, x);
    }
  }

  lemma {:induction false} OrderEntries(g: Graph, m: DependencyMap, isPublic: seq<bool>, order: seq<GraphNode>)
    requires WellFormed(g) && Represents(g, m, isPublic) && IsLoadOrder(g, order)
    ensures InRange(ExportEntries(order), |isPublic|) && Distinct(ExportEntries(order))
    ensures forall e, c :: 0 <= e < |isPublic| ==> BundleEntry(e, c) in ExportEntries(order)
  {
    var entries := ExportEntries(order);
    OrderHoldsExports(g, m, isPublic, order);
    AllExportEntries(order);
    forall i | 0 <= i < |entries|
      ensures entries[i].exportIndex < |isPublic|
    {
      assert order[i] in order && NodeOf(entries[i]) == order[i].node;
    }
    forall i, j | 0 <= i < j < |entries|
      ensures entries[i] != entries[j]
    {
      if entries[i] == entries[j] {
        EntryIsUnique(g, m, isPublic, order, i, j);
      }
    }
    forall e, c | 0 <= e < |isPublic|
      ensures BundleEntry(e, c) in entries
    {
      var n := GraphNode(ExportNode(e, c), isPublic[e]);
      assert IsExportNode(isPublic, n);
      var i :| 0 <= i < |order| && order[i] == n;
      assert NodeOf(entries[i]) == ExportNode(e, c);
      assert entries[i] == BundleEntry(e, c);
    }
  }

  /** The entries of a load order serialize every export exactly once. */
  lemma {:induction false} LoadOrderSerializesOnce(g: Graph, m: DependencyMap, isPublic: seq<bool>,
                                                   order: seq<GraphNode>)
    requires WellFormed(g) && Represents(g, m, isPublic) && IsLoadOrder(g, order)
    ensures SerializesOnce(ExportEntries(order), |isPublic|)
  {
    OrderEntries(g, m, isPublic, order);
    forall e | 0 <= e < |isPublic|
      ensures multiset(ExportEntries(order))[BundleEntry(e, Serialize)] == 1
    {
      DistinctMultiplicity(ExportEntries(order), BundleEntry(e, Serialize));
    }
  }

  // ------------------------------------------------------------ a built package

  /** The bundle headers as a reader finds them: before UE5 they do not say where the data
      starts. */
  function AsRead(headers: seq<BundleHeader>, implicit: bool): (r: seq<BundleHeader>)
    ensures |r| == |headers|
  {
    if implicit
    then seq(|headers|, b requires 0 <= b < |headers| => headers[b].(serialOffset := IMPLICIT_OFFSET))
    else headers
  }

  lemma {:induction false} StartAsRead(headers: seq<BundleHeader>, implicit: bool, b: nat)
    requires b <= |headers|
    ensures StartOf(AsRead(headers, implicit), b) == StartOf(headers, b)
  {
  }

  lemma {:induction false} TilesAsRead(headers: seq<BundleHeader>, n: nat, implicit: bool)
    requires Tiles(headers, n)
    ensures Tiles(AsRead(headers, implicit), n)
  {
    var r := AsRead(headers, implicit);
    forall b: nat | b < |r|
      ensures r[b].entryCount >= 1 && r[b].firstEntry == StartOf(r, b)
    {
      assert headers[b].firstEntry == StartOf(headers, b);
      StartAsRead(headers, implicit, b);
    }
    StartAsRead(headers, implicit, |headers|);
  }

  lemma {:induction false} BuiltLayout(b: ZenPackageBuilder, m: DependencyMap, g: Graph, order: seq<GraphNode>,
                                       bundleOf: map<DependencyNode, nat>, headerSize: nat, implicit: bool)
    requires b.Consistent() && b.Built(m, g, order, bundleOf)
    ensures var l := BundleLayout(AsRead(b.headers, implicit), b.entries, b.sizes, headerSize);
            l.Valid() && StartsLocated(l.headers, l.entries, l.sizes)
  {
    TilesAsRead(b.headers, |b.entries|, implicit);
    LoadOrderSerializesOnce(g, m, b.isPublic, order);
  }

  /** The exports file of a legacy package: rebuilt if the package has bundles, else what
      stands behind the header. */
  method ExportsFile(l: BundleLayout, targets: seq<nat>, raw: seq<Byte>) returns (r: Option<seq<Byte>>)
    requires l.Valid() && InExportOrder(targets, l.sizes)
    ensures l.headers != [] ==> (r.Some? <==> l.Fits(raw)) && (r.Some? ==> Rebuilt(r.value, raw, l))
    ensures l.headers == [] ==> r == if l.headerSize <= |raw| then Some(raw[l.headerSize..]) else None
  {
    if l.headers != [] {
      r := RebuildExportData(l, targets, raw);
    } else if l.headerSize <= |raw| {
      r := Some(raw[l.headerSize..]);
    } else {
      r := None;
    }
  }

  /** What comes back of an exports file that was written in bundle order. Without bundles
      nothing is rebuilt and no package tag is added again. */
  ghost function RoundTripped(headers: seq<BundleHeader>, entries: seq<BundleEntry>, exports: seq<Extent>,
                              buf: seq<Byte>): seq<Byte>
    requires InRange(entries, |exports|) && InFile(exports, buf) && 4 <= |buf|
  {
    LargestEndInFile(entries, exports, buf);
    if headers == [] then ExtraData(buf, LargestEnd(entries, exports)) else Converted(entries, exports, buf)
  }

  lemma {:induction false} ConvertedBack(l: BundleLayout, exports: seq<Extent>, buf: seq<Byte>, header: seq<Byte>,
                                         raw: seq<Byte>, result: seq<Byte>)
    requires l.Valid() && StartsLocated(l.headers, l.entries, l.sizes)
    requires l.sizes == Sizes(exports) && l.headerSize == |header| && InFile(exports, buf) && 4 <= |buf|
    requires LargestEnd(l.entries, exports) <= |buf|
    requires raw == header + (BundleData(l.entries, exports, buf) + ExtraData(buf, LargestEnd(l.entries, exports)))
    requires if l.headers == [] then result == raw[|header|..] else Rebuilt(result, raw, l)
    ensures result == RoundTripped(l.headers, l.entries, exports, buf)
  {
    if l.headers == [] {
      assert BundleData(l.entries, exports, buf) == [];
    } else {
      RoundTrip(l, exports, buf, header, raw, result);
    }
  }

  /** The exports of a built package are written without fail, and converting what was
      written back puts every export at its place in export order. */
  method WriteAndRebuild(b: ZenPackageBuilder, exports: seq<Extent>, buf: seq<Byte>, header: seq<Byte>,
                         implicit: bool, ghost m: DependencyMap, ghost g: Graph, ghost order: seq<GraphNode>,
                         ghost bundleOf: map<DependencyNode, nat>)
    returns (result: Option<seq<Byte>>)
    requires b.Consistent() && b.Built(m, g, order, bundleOf) && b.sizes == Sizes(exports)
    requires InFile(exports, buf) && 4 <= |buf|
    ensures result == Some(RoundTripped(b.headers, b.entries, exports, buf))
  {
    BuiltLayout(b, m, g, order, bundleOf, |header|, implicit);
    var written := WriteExportsInBundleOrder(b.headers, b.entries, exports, buf);
    if written.Err? {
      return None;
    }
    var raw := header + written.value;
    var l := BundleLayout(AsRead(b.headers, implicit), b.entries, b.sizes, |header|);
    var targets, total := AssignSerialOffsets(b.sizes);
    WrittenFits(l, exports, buf, raw);
    result := ExportsFile(l, targets, raw);
    ConvertedBack(l, exports, buf, header, raw, result.value);
  }
}
