/** Packing shader groups into chunks, and extracting every shader again. */
module ShaderArchive {
  import opened Zen
  import opened Bytes
  import opened Sequences
  import opened Sorting
  import opened ShaderGroups
  import opened ShaderSplit

  // ------------------------------------------------------------- packed entries

  const FREQUENCY_RANGE := 0x10
  const GROUP_RANGE := 0x4000_0000
  const OFFSET_RANGE := 0x4000_0000

  /** Where a shader is: 4 bits of frequency, 30 bits of group index and 30 bits of
      offset in one number; each field is masked to its width. */
  datatype CodeEntry = CodeEntry(packed: nat) {
    function Frequency(): nat {
      packed % FREQUENCY_RANGE
    }

    function GroupIndex(): nat {
      packed / FREQUENCY_RANGE % GROUP_RANGE
    }

    function OffsetInGroup(): nat {
      packed / FREQUENCY_RANGE / GROUP_RANGE % OFFSET_RANGE
    }
  }

  function PackEntry(group: nat, offset: nat, frequency: nat): CodeEntry {
    CodeEntry(frequency % FREQUENCY_RANGE
              + FREQUENCY_RANGE * (group % GROUP_RANGE + GROUP_RANGE * (offset % OFFSET_RANGE)))
  }

  /** The frequency takes the lowest bits, the group index those behind it and the offset
      the highest; of a field that is too wide only the low bits are packed. */
  lemma {:induction false} PackedBits(group: nat, offset: nat, frequency: nat)
    ensures var packed := PackEntry(group, offset, frequency).packed;
            && packed < 0x1_0000_0000_0000_0000 && packed % 0x10 == frequency % 0x10
            && packed / 0x10 % 0x4000_0000 == group % 0x4000_0000
            && packed / 0x4_0000_0000 == offset % 0x4000_0000
  {
    var f, g, o := frequency % 0x10, group % 0x4000_0000, offset % 0x4000_0000;
    var packed := PackEntry(group, offset, frequency).packed;
    assert packed == f + 0x10 * (g + 0x4000_0000 * o);
    assert packed / 0x10 == g + 0x4000_0000 * o;
    assert (g + 0x4000_0000 * o) / 0x4000_0000 == o;
  }

  /** A field is read back exactly when it fits its width. */
  lemma {:induction false} PackRoundTrip(group: nat, offset: nat, frequency: nat)
    ensures var e := PackEntry(group, offset, frequency);
            && (e.Frequency() == frequency <==> frequency < FREQUENCY_RANGE)
            && (e.GroupIndex() == group <==> group < GROUP_RANGE)
            && (e.OffsetInGroup() == offset <==> offset < OFFSET_RANGE)
  {
    var g, o := group % GROUP_RANGE, offset % OFFSET_RANGE;
    var packed := PackEntry(group, offset, frequency).packed;
    assert packed / FREQUENCY_RANGE == g + GROUP_RANGE * o;
    assert (g + GROUP_RANGE * o) / GROUP_RANGE == o;
  }

  // ------------------------------------------------------------------ the header

  datatype GroupEntry = GroupEntry(indicesOffset: nat, count: nat, uncompressedSize: nat, compressedSize: nat)

  datatype Header = Header(entries: seq<CodeEntry>, groups: seq<GroupEntry>, indices: seq<nat>)

  ghost predicate FoundAt(indices: seq<nat>, g: seq<nat>, at: nat) {
    at + |g| <= |indices| && indices[at..at + |g|] == g
  }

  ghost predicate Lists(indices: seq<nat>, g: seq<nat>) {
    exists at :: 0 <= at <= |indices| && FoundAt(indices, g, at)
  }

  /** The index table after the first `n` groups have been listed in it. */
  ghost function IndexTable(indices: seq<nat>, groups: seq<seq<nat>>, n: nat): seq<nat>
    requires n <= |groups|
  {
    if n == 0 then indices
    else
      var before := IndexTable(indices, groups, n - 1);
      if Lists(before, groups[n - 1]) then before else before + groups[n - 1]
  }

  lemma {:induction false} IndexTableGrows(indices: seq<nat>, groups: seq<seq<nat>>, n: nat)
    requires n <= |groups|
    ensures indices <= IndexTable(indices, groups, n)
  {
    if n > 0 {
      IndexTableGrows(indices, groups, n - 1);
    }
  }

  /** Reuses the first place where the index table already lists the group, or else
      appends the group. A group longer than the whole table is not supported. */
  method FindOrAddSequence(indices: seq<nat>, g: seq<nat>) returns (at: nat, more: seq<nat>)
    requires g != [] && |g| <= |indices|
    ensures FoundAt(more, g, at) && more == (if Lists(indices, g) then indices else indices + g)
    ensures at < |indices| ==> more == indices && forall i :: 0 <= i < at ==> !FoundAt(indices, g, i)
    ensures at >= |indices| ==> at == |indices| && more == indices + g && forall i :: 0 <= i <= |indices| ==>
              !FoundAt(indices, g, i)
  {
    var limit := |indices| - |g| + 1;
    for i := 0 to limit
      invariant forall j :: 0 <= j < i ==> !FoundAt(indices, g, j)
    {
      if indices[i] != g[0] {
        assert indices[i..i + |g|][0] != g[0];
        continue;
      }
      var rest := RestMatches(indices, g, i);
      if rest {
        return i, indices;
      }
    }
    at, more := |indices|, indices + g;
  }

  method RestMatches(indices: seq<nat>, g: seq<nat>, at: nat) returns (ok: bool)
    requires g != [] && at + |g| <= |indices| && indices[at] == g[0]
    ensures ok <==> FoundAt(indices, g, at)
  {
    for k := 1 to |g|
      invariant forall j :: 0 <= j < k ==> indices[at + j] == g[j]
    {
      if indices[at + k] != g[k] {
        assert indices[at..at + |g|][k] != g[k];
        return false;
      }
    }
    ok := true;
  }

  /** Shader `g[k]` of group `i` is entered with its group and its offset, the size of
      the shaders before it. */
  ghost predicate EntryOk(lib: Library, entries: seq<CodeEntry>, i: nat, g: seq<nat>, k: nat)
    requires k < |g|
  {
    && g[k] < |entries|
    && entries[g[k]] == PackEntry(i, SizeOf(lib, g[..k]), ShaderAt(lib, g[k]).frequency)
  }

  ghost predicate EntriesOk(lib: Library, entries: seq<CodeEntry>, i: nat, g: seq<nat>, n: nat)
    requires n <= |g|
  {
    forall k {:trigger EntryOk(lib, entries, i, g, k)} :: 0 <= k < n ==> EntryOk(lib, entries, i, g, k)
  }

  ghost predicate GroupEntryOk(lib: Library, e: GroupEntry, indices: seq<nat>, g: seq<nat>) {
    e.count == |g| && FoundAt(indices, g, e.indicesOffset) && e.uncompressedSize == SizeOf(lib, g)
  }

  /** Every shader stands in one group only, once. */
  ghost predicate Disjoint(groups: seq<seq<nat>>) {
    && (forall i :: 0 <= i < |groups| ==> Distinct(groups[i]))
    && forall i, j, x :: 0 <= i < j < |groups| && x in groups[i] ==> x !in groups[j]
  }

  ghost predicate HeaderOk(lib: Library, groups: seq<seq<nat>>, h: Header, n: nat)
    requires n <= |groups|
  {
    && |h.entries| == |lib.shaders| && |h.groups| == n
    && (forall i :: 0 <= i < n ==> GroupEntryOk(lib, h.groups[i], h.indices, groups[i]))
    && (forall i :: 0 <= i < n ==> EntriesOk(lib, h.entries, i, groups[i], |groups[i]|))
  }

  ghost predicate Supported(lib: Library, groups: seq<seq<nat>>) {
    && Disjoint(groups)
    && (forall i :: 0 <= i < |groups| ==> GroupSupported(lib, groups[i]))
    && IndexTableHolds(lib, groups)
  }

  /** No group is longer than the index table it is looked up in. */
  ghost predicate IndexTableHolds(lib: Library, groups: seq<seq<nat>>) {
    forall i :: 0 <= i < |groups| ==> |groups[i]| <= |IndexTable(lib.indices, groups, i)|
  }

  ghost predicate Indices(g: seq<nat>, n: nat) {
    forall k :: 0 <= k < |g| ==> g[k] < n
  }

  ghost predicate GroupSupported(lib: Library, g: seq<nat>) {
    g != [] && Indices(g, |lib.shaders|)
  }

  /** Enters the shaders of one group. */
  method EnterGroup(lib: Library, entries0: seq<CodeEntry>, i: nat, g: seq<nat>)
    returns (entries: seq<CodeEntry>, total: nat)
    requires |entries0| == |lib.shaders| && Distinct(g) && Indices(g, |lib.shaders|)
    ensures |entries| == |entries0| && total == SizeOf(lib, g)
    ensures EntriesOk(lib, entries, i, g, |g|)
    ensures forall x :: 0 <= x < |entries| && x !in g ==> entries[x] == entries0[x]
  {
    entries, total := entries0, 0;
    for k := 0 to |g|
      invariant |entries| == |entries0| && total == SizeOf(lib, g[..k])
      invariant EntriesOk(lib, entries, i, g, k)
      invariant forall x :: 0 <= x < |entries| && x !in g ==> entries[x] == entries0[x]
    {
      var s := g[k];
      assert g[..k + 1][..k] == g[..k];
      ghost var before := entries;
      entries := entries[s := PackEntry(i, total, ShaderAt(lib, s).frequency)];
      total := total + SizeAt(lib, s);
      forall j | 0 <= j <= k
        ensures EntryOk(lib, entries, i, g, j)
      {
        assert j < k ==> EntryOk(lib, before, i, g, j);
      }
    }
    assert g[..|g|] == g;
  }

  /** The archive header for the given groups; compressed sizes are filled in later. */
  method BuildHeader(lib: Library, groups: seq<seq<nat>>) returns (h: Header)
    requires Supported(lib, groups)
    ensures HeaderOk(lib, groups, h, |groups|)
    ensures h.indices == IndexTable(lib.indices, groups, |groups|) && lib.indices <= h.indices
  {
    h := Header(seq(|lib.shaders|, _ => CodeEntry(0)), [], lib.indices);
    for i := 0 to |groups|
      invariant HeaderOk(lib, groups, h, i) && h.indices == IndexTable(lib.indices, groups, i)
    {
      var g := groups[i];
      assert GroupSupported(lib, g);
      var entries, total := EnterGroup(lib, h.entries, i, g);
      var at, indices := FindOrAddSequence(h.indices, g);
      ghost var before := h;
      h := Header(entries, h.groups + [GroupEntry(at, |g|, total, 0)], indices);
      HeaderStep(lib, groups, before, h, i);
    }
    IndexTableGrows(lib.indices, groups, |groups|);
  }

  lemma {:induction false} HeaderStep(lib: Library, groups: seq<seq<nat>>, before: Header, h: Header, n: nat)
    requires Supported(lib, groups) && n < |groups| && HeaderOk(lib, groups, before, n)
    requires |h.entries| == |lib.shaders| && |h.groups| == n + 1 && h.groups[..n] == before.groups
    requires before.indices <= h.indices && GroupEntryOk(lib, h.groups[n], h.indices, groups[n])
    requires EntriesOk(lib, h.entries, n, groups[n], |groups[n]|)
    requires forall x :: 0 <= x < |h.entries| && x !in groups[n] ==> h.entries[x] == before.entries[x]
    ensures HeaderOk(lib, groups, h, n + 1)
  {
    forall i | 0 <= i < n
      ensures GroupEntryOk(lib, h.groups[i], h.indices, groups[i])
      ensures EntriesOk(lib, h.entries, i, groups[i], |groups[i]|)
    {
      assert h.groups[i] == h.groups[..n][i];
      assert GroupEntryOk(lib, before.groups[i], before.indices, groups[i]);
      forall k | 0 <= k < |groups[i]|
        ensures EntryOk(lib, h.entries, i, groups[i], k)
      {
        assert EntryOk(lib, before.entries, i, groups[i], k);
        assert groups[i][k] in groups[i];
      }
    }
  }

  // ------------------------------------------------------------ writing groups

  /** A compression method, known only through its two directions. */
  datatype Codec = Codec(compress: seq<Byte> -> seq<Byte>, decompress: (seq<Byte>, nat) -> Option<seq<Byte>>) {
    /** Decompression undoes compression and yields as many bytes as asked for. */
    ghost predicate Valid() {
      && (forall d :: decompress(compress(d), |d|) == Some(d))
      && (forall d, n :: decompress(d, n).Some? ==> |decompress(d, n).value| == n)
    }
  }

  type ChunkId = nat

  /** A library with its stored shader code, whole or compressed. */
  datatype Source = Source(lib: Library, codec: Codec, stored: seq<seq<Byte>>) {
    ghost predicate Valid() {
      && codec.Valid() && |stored| == |lib.shaders|
      && (forall s :: 0 <= s < |stored| ==> |stored[s]| == lib.shaders[s].size)
      && (forall s :: 0 <= s < |stored| ==> lib.shaders[s].uncompressedSize > 0)
    }

    function CodeOf(s: nat): Option<seq<Byte>>
      requires |stored| == |lib.shaders| && s < |stored|
    {
      if lib.shaders[s].size != lib.shaders[s].uncompressedSize
      then codec.decompress(stored[s], lib.shaders[s].uncompressedSize)
      else Some(stored[s])
    }

    /** The code of every shader, empty where it cannot be decompressed. */
    ghost function Codes(): (r: seq<seq<Byte>>)
      requires Valid()
      ensures |r| == |stored|
    {
      seq(|stored|, s requires 0 <= s < |stored| => if CodeOf(s).Some? then CodeOf(s).value else [])
    }
  }

  /** Shader `s` of the library is stored as it is, or compressed if its sizes differ. */
  ghost predicate StoresShader(src: Source, s: nat, code: seq<Byte>)
    requires |src.stored| == |src.lib.shaders| && s < |src.stored|
  {
    && |code| == src.lib.shaders[s].uncompressedSize
    && src.stored[s] == if src.lib.shaders[s].size == src.lib.shaders[s].uncompressedSize then code
                        else src.codec.compress(code)
  }

  /** The library stores the code of its shaders. */
  ghost predicate StoresCodes(src: Source, codes: seq<seq<Byte>>) {
    && |codes| == |src.stored| == |src.lib.shaders|
    && forall s: nat {:trigger StoresShader(src, s, codes[s])} :: s < |codes| ==> StoresShader(src, s, codes[s])
  }

  /** The code of shader `s` can be recovered from what is stored. */
  ghost predicate Readable(src: Source, s: nat)
    requires |src.stored| == |src.lib.shaders| && s < |src.stored|
  {
    src.lib.shaders[s].size != src.lib.shaders[s].uncompressedSize ==>
      src.codec.decompress(src.stored[s], src.lib.shaders[s].uncompressedSize).Some?
  }

  /** `code` is what is stored for shader `s`, or what that decompresses to. */
  ghost predicate HoldsCode(src: Source, s: nat, code: seq<Byte>)
    requires |src.stored| == |src.lib.shaders| && s < |src.stored|
  {
    if src.lib.shaders[s].size == src.lib.shaders[s].uncompressedSize then code == src.stored[s]
    else src.codec.decompress(src.stored[s], src.lib.shaders[s].uncompressedSize) == Some(code)
  }

  ghost predicate AllReadable(src: Source)
    requires src.Valid()
  {
    forall s: nat {:trigger Readable(src, s)} :: s < |src.stored| ==> Readable(src, s)
  }

  lemma {:induction false} ReadableIff(src: Source)
    requires src.Valid()
    ensures AllReadable(src) <==> forall s: nat {:trigger src.CodeOf(s)} :: s < |src.stored| ==> src.CodeOf(s).Some?
  {
    forall s: nat | s < |src.stored|
      ensures Readable(src, s) <==> src.CodeOf(s).Some?
    {
    }
  }

  /** What is read from a library that stores code is that code. */
  lemma {:induction false} CodesAreStored(src: Source, codes: seq<seq<Byte>>)
    requires src.Valid() && StoresCodes(src, codes)
    ensures src.Codes() == codes && AllReadable(src)
  {
    forall s: nat | s < |codes|
      ensures src.Codes()[s] == codes[s] && Readable(src, s)
    {
      assert StoresShader(src, s, codes[s]);
    }
  }

  /** The code of a group: its shaders' code, one after another. */
  ghost function Join(codes: seq<seq<Byte>>, g: seq<nat>): seq<Byte>
    requires Indices(g, |codes|)
  {
    if g == [] then [] else Join(codes, g[..|g| - 1]) + codes[g[|g| - 1]]
  }

  /** The shaders of a group have their code. */
  ghost predicate Decoded(src: Source, g: seq<nat>)
    requires src.Valid()
  {
    forall k :: 0 <= k < |g| ==> g[k] < |src.stored| && src.CodeOf(g[k]).Some?
  }

  ghost predicate SizesOn(lib: Library, codes: seq<seq<Byte>>, g: seq<nat>) {
    |codes| == |lib.shaders| && forall k :: 0 <= k < |g| ==> g[k] < |codes| && |codes[g[k]]| == SizeAt(lib, g[k])
  }

  lemma {:induction false} DecodedSizes(src: Source, g: seq<nat>)
    requires src.Valid() && Decoded(src, g)
    ensures SizesOn(src.lib, src.Codes(), g)
  {
    forall k | 0 <= k < |g|
      ensures |src.Codes()[g[k]]| == SizeAt(src.lib, g[k])
    {
      var s := g[k];
      assert src.CodeOf(s).Some? && src.Codes()[s] == src.CodeOf(s).value;
    }
  }

  lemma {:induction false} JoinSize(lib: Library, codes: seq<seq<Byte>>, g: seq<nat>)
    requires SizesOn(lib, codes, g)
    ensures |Join(codes, g)| == SizeOf(lib, g)
  {
    if g != [] {
      JoinSize(lib, codes, g[..|g| - 1]);
    }
  }

  lemma {:induction false} PrefixSize(lib: Library, g: seq<nat>, k: nat)
    requires k < |g|
    ensures SizeOf(lib, g[..k]) + SizeAt(lib, g[k]) == SizeOf(lib, g[..k + 1]) <= SizeOf(lib, g)
  {
    assert g[..k + 1][..k] == g[..k];
    assert g == g[..k + 1] + g[k + 1..];
    SizeOfPlus(lib, g[..k + 1], g[k + 1..]);
  }

  lemma {:induction false} JoinPush(lib: Library, codes: seq<seq<Byte>>, g: seq<nat>, x: nat)
    requires SizesOn(lib, codes, g + [x])
    ensures SizesOn(lib, codes, g) && x < |codes| && |codes[x]| == SizeAt(lib, x)
    ensures Join(codes, g + [x]) == Join(codes, g) + codes[x]
    ensures |Join(codes, g)| == SizeOf(lib, g)
  {
    var all := g + [x];
    assert all[..|g|] == g && all[|g|] == x;
    assert forall k :: 0 <= k < |g| ==> all[k] == g[k];
    JoinSize(lib, codes, g);
  }

  lemma {:induction false} SliceOfFront(front: seq<Byte>, back: seq<Byte>, i: nat, j: nat)
    requires i <= j <= |front|
    ensures (front + back)[i..j] == front[i..j]
  {
  }

  /** Each shader's code stands in the group at its entered offset. */
  lemma {:induction false} JoinSlice(lib: Library, codes: seq<seq<Byte>>, g: seq<nat>, k: nat)
    requires SizesOn(lib, codes, g) && k < |g|
    ensures |Join(codes, g)| == SizeOf(lib, g)
    ensures SizeOf(lib, g[..k]) <= SizeOf(lib, g[..k + 1]) <= SizeOf(lib, g)
    ensures Join(codes, g)[SizeOf(lib, g[..k])..SizeOf(lib, g[..k + 1])] == codes[g[k]]
  {
    PrefixSize(lib, g, k);
    JoinSize(lib, codes, g);
    var n := |g| - 1;
    var front, x := g[..n], g[n];
    assert g == front + [x];
    JoinPush(lib, codes, front, x);
    if k < n {
      JoinSlice(lib, codes, front, k);
      assert front[..k] == g[..k] && front[..k + 1] == g[..k + 1];
      SliceOfFront(Join(codes, front), codes[x], SizeOf(lib, g[..k]), SizeOf(lib, g[..k + 1]));
    } else {
      assert g[..k + 1] == g && g[..k] == front;
    }
  }

  /** An archive to be written: the library, its groups with their header, and the
      chunk ids of the groups. Indices and offsets fit their fields. */
  datatype Archive = Archive(src: Source, groups: seq<seq<nat>>, header: Header, ids: seq<ChunkId>) {
    ghost predicate Valid() {
      && src.Valid() && Supported(src.lib, groups)
      && HeaderOk(src.lib, groups, header, |groups|)
      && |ids| == |groups| <= GROUP_RANGE && Distinct(ids)
      && forall i :: 0 <= i < |groups| ==> SizeOf(src.lib, groups[i]) <= OFFSET_RANGE
    }

    ghost function GroupData(i: nat): seq<Byte>
      requires Valid() && i < |groups|
    {
      assert GroupSupported(src.lib, groups[i]);
      Join(src.Codes(), groups[i])
    }
  }

  /** A chunk that holds `data`, compressed if the sizes differ. */
  ghost predicate Stores(codec: Codec, chunk: seq<Byte>, data: seq<Byte>) {
    if |chunk| == |data| then chunk == data else codec.decompress(chunk, |data|) == Some(data)
  }

  datatype ArchiveError = CannotDecompress(shader: nat) | WrongPlacement(shader: nat) | WrongSize(group: nat)
                        | MissingChunk(group: nat) | ConflictingGroup(shader: nat) | MissingShader(shader: nat)

  lemma {:induction false} EntryRead(a: Archive, i: nat, k: nat)
    requires a.Valid() && i < |a.groups| && k < |a.groups[i]|
    ensures var g, e := a.groups[i], a.header.groups[i];
            && e.count == |g| && e.indicesOffset + k < |a.header.indices| &&
                a.header.indices[e.indicesOffset + k] == g[k]
            && g[k] < |a.src.stored| == |a.header.entries|
            && a.header.entries[g[k]].GroupIndex() == i
            && a.header.entries[g[k]].OffsetInGroup() == SizeOf(a.src.lib, g[..k])
  {
    var g, e := a.groups[i], a.header.groups[i];
    var lib := a.src.lib;
    assert GroupSupported(lib, g) && GroupEntryOk(lib, e, a.header.indices, g);
    assert a.header.indices[e.indicesOffset..e.indicesOffset + |g|][k] == g[k];
    assert EntryOk(lib, a.header.entries, i, g, k);
    assert g[k] in g;
    PrefixSize(lib, g, k);
    PackRoundTrip(i, SizeOf(lib, g[..k]), ShaderAt(lib, g[k]).frequency);
  }

  /** The first `k` shaders of a group have been collected. */
  ghost predicate Collected(src: Source, g: seq<nat>, k: nat, buffer: seq<Byte>)
    requires src.Valid() && k <= |g| && Indices(g, |src.stored|)
  {
    && Decoded(src, g[..k])
    && buffer == Join(src.Codes(), g[..k]) && |buffer| == SizeOf(src.lib, g[..k])
  }

  lemma {:induction false} CollectedStep(src: Source, g: seq<nat>, k: nat, buffer: seq<Byte>)
    requires src.Valid() && k < |g| && Indices(g, |src.stored|)
    requires Collected(src, g, k, buffer) && src.CodeOf(g[k]).Some?
    ensures Collected(src, g, k + 1, buffer + src.CodeOf(g[k]).value)
  {
    var next := g[..k + 1];
    assert next == g[..k] + [g[k]];
    DecodedMore(src, g[..k], g[k]);
    DecodedSizes(src, next);
    JoinPush(src.lib, src.Codes(), g[..k], g[k]);
    JoinSize(src.lib, src.Codes(), next);
  }

  lemma {:induction false} DecodedMore(src: Source, front: seq<nat>, s: nat)
    requires src.Valid() && Decoded(src, front) && s < |src.stored| && src.CodeOf(s).Some?
    ensures Decoded(src, front + [s]) && src.Codes()[s] == src.CodeOf(s).value
  {
  }

  lemma {:induction false} GroupFacts(a: Archive, i: nat)
    requires a.Valid() && i < |a.groups|
    ensures var g, e := a.groups[i], a.header.groups[i];
            e.count == |g| && e.uncompressedSize == SizeOf(a.src.lib, g) && Indices(g, |a.src.stored|) && g != []
    ensures |a.header.groups| == |a.groups|
  {
    assert GroupEntryOk(a.src.lib, a.header.groups[i], a.header.indices, a.groups[i]);
    assert GroupSupported(a.src.lib, a.groups[i]);
  }

  lemma {:induction false} CollectedStart(src: Source, g: seq<nat>)
    requires src.Valid() && Indices(g, |src.stored|)
    ensures Collected(src, g, 0, [])
  {
    assert g[..0] == [];
  }

  /** A library that stores code has all groups decoded, and their data is the joined code. */
  lemma {:induction false} GroupOfCodes(a: Archive, i: nat)
    requires a.Valid() && i < |a.groups|
    ensures forall codes :: StoresCodes(a.src, codes) ==>
              Decoded(a.src, a.groups[i]) && Indices(a.groups[i], |codes|) && a.GroupData(i) == Join(codes, a.groups[i])
  {
    assert GroupSupported(a.src.lib, a.groups[i]);
    forall codes | StoresCodes(a.src, codes)
      ensures Decoded(a.src, a.groups[i]) && a.GroupData(i) == Join(codes, a.groups[i])
    {
      CodesAreStored(a.src, codes);
      ReadableIff(a.src);
    }
  }

  /** Collects the decompressed code of one group. Once a compressed shader has been
      seen, the compression method of the library is known. */
  method CollectGroup(ghost a: Archive, src: Source, header: Header, i: nat, known0: bool)
    returns (r: Result<seq<Byte>, ArchiveError>, known: bool)
    requires a.Valid() && a.src == src && a.header == header && i < |a.groups|
    ensures r.Ok? <==> Decoded(src, a.groups[i])
    ensures r.Ok? ==> r.value == a.GroupData(i) && |r.value| == SizeOf(src.lib, a.groups[i])
    ensures forall codes :: StoresCodes(src, codes) ==>
              r.Ok? && Indices(a.groups[i], |codes|) && r.value == Join(codes, a.groups[i])
  {
    GroupOfCodes(a, i);
    ghost var g := a.groups[i];
    var e := header.groups[i];
    var buffer: seq<Byte> := [];
    known := known0;
    GroupFacts(a, i);
    CollectedStart(src, g);
    for k := 0 to e.count
      invariant Collected(src, g, k, buffer)
    {
      EntryRead(a, i, k);
      var s := header.indices[e.indicesOffset + k];
      var code := src.CodeOf(s);
      if code.None? {
        return Err(CannotDecompress(s)), known;
      }
      known := known || src.lib.shaders[s].size != src.lib.shaders[s].uncompressedSize;
      if |buffer| != header.entries[s].OffsetInGroup() {
        return Err(WrongPlacement(s)), known;
      }
      CollectedStep(src, g, k, buffer);
      buffer := buffer + code.value;
    }
    assert g[..|g|] == g;
    if |buffer| != e.uncompressedSize {
      return Err(WrongSize(i)), known;
    }
    r := Ok(buffer);
  }

  // ---------------------------------------------------------- writing the chunks

  /** Group `i` is in the store, and its entry tells how large its chunk is. */
  ghost predicate WrittenGroup(a: Archive, entries: seq<GroupEntry>, store: map<ChunkId, seq<Byte>>, i: nat)
    requires a.Valid() && i < |a.groups| && i < |entries|
  {
    && a.ids[i] in store && Stores(a.src.codec, store[a.ids[i]], a.GroupData(i))
    && entries[i] == a.header.groups[i].(compressedSize := |store[a.ids[i]]|)
  }

  ghost predicate Written(a: Archive, entries: seq<GroupEntry>, store: map<ChunkId, seq<Byte>>, n: nat)
    requires a.Valid() && n <= |a.groups|
  {
    |entries| == n && forall i: nat {:trigger WrittenGroup(a, entries, store, i)} :: i < n ==>
        WrittenGroup(a, entries, store, i)
  }

  ghost predicate AllDecoded(src: Source, groups: seq<seq<nat>>, n: nat)
    requires src.Valid() && n <= |groups|
  {
    forall i: nat {:trigger Decoded(src, groups[i])} :: i < n ==> Decoded(src, groups[i])
  }

  lemma {:induction false} AllDecodedStep(src: Source, groups: seq<seq<nat>>, n: nat)
    requires src.Valid() && n < |groups|
    ensures AllDecoded(src, groups, n + 1) <==> AllDecoded(src, groups, n) && Decoded(src, groups[n])
    ensures AllDecoded(src, groups, |groups|) ==> Decoded(src, groups[n])
  {
  }

  /** Only takes the compressed form when it is smaller. */
  method CompressGroup(codec: Codec, known: bool, data: seq<Byte>) returns (chunk: seq<Byte>)
    requires codec.Valid()
    ensures Stores(codec, chunk, data) && |chunk| <= |data|
  {
    chunk := data;
    if known {
      var compressed := codec.compress(data);
      if |compressed| < |data| {
        chunk := compressed;
      }
    }
  }

  /** Writes group `i`. */
  method WriteGroup(ghost a: Archive, src: Source, header: Header, i: nat, known0: bool)
    returns (r: Result<seq<Byte>, ArchiveError>, known: bool)
    requires a.Valid() && a.src == src && a.header == header && i < |a.groups|
    ensures r.Ok? <==> Decoded(src, a.groups[i])
    ensures r.Ok? ==> Stores(src.codec, r.value, a.GroupData(i))
  {
    r, known := CollectGroup(a, src, header, i, known0);
    if r.Err? {
      return;
    }
    var chunk := CompressGroup(src.codec, known, r.value);
    r := Ok(chunk);
  }

  /** Writes all groups as chunks; fails exactly when some shader cannot be
      decompressed, never over placement or sizes. */
  method WriteLibrary(ghost a: Archive, src: Source, header: Header, ids: seq<ChunkId>)
    returns (r: Result<(seq<GroupEntry>, map<ChunkId, seq<Byte>>), ArchiveError>)
    requires a.Valid() && a.src == src && a.header == header && a.ids == ids
    ensures r.Ok? <==> AllDecoded(src, a.groups, |a.groups|)
    ensures r.Ok? ==> Written(a, r.value.0, r.value.1, |a.groups|)
    ensures forall codes :: StoresCodes(src, codes) ==> r.Ok? && ChunksHold(a, r.value.1, codes)
  {
    AllGroupsDecoded(a);
    var entries: seq<GroupEntry> := [];
    var store: map<ChunkId, seq<Byte>> := map[];
    var known := false;
    for i := 0 to |header.groups|
      invariant AllDecoded(src, a.groups, i)
      invariant Written(a, entries, store, i)
    {
      var chunk;
      chunk, known := WriteGroup(a, src, header, i, known);
      AllDecodedStep(src, a.groups, i);
      if chunk.Err? {
        return Err(chunk.error);
      }
      var e := header.groups[i].(compressedSize := |chunk.value|);
      WrittenStep(a, entries, store, i, e, chunk.value);
      entries := entries + [e];
      store := store[ids[i] := chunk.value];
    }
    r := Ok((entries, store));
    WrittenHolds(a, entries, store);
  }

  /** The chunk of each group holds the code of its shaders, one after another. */
  ghost predicate ChunksHold(a: Archive, store: map<ChunkId, seq<Byte>>, codes: seq<seq<Byte>>) {
    && |a.ids| == |a.groups|
    && forall i: nat {:trigger a.groups[i]} :: i < |a.groups| ==>
         && Indices(a.groups[i], |codes|) && a.ids[i] in store
         && Stores(a.src.codec, store[a.ids[i]], Join(codes, a.groups[i]))
  }

  lemma {:induction false} WrittenHolds(a: Archive, entries: seq<GroupEntry>, store: map<ChunkId, seq<Byte>>)
    requires a.Valid() && Written(a, entries, store, |a.groups|)
    ensures forall codes :: StoresCodes(a.src, codes) ==> ChunksHold(a, store, codes)
  {
    forall codes, i: nat | StoresCodes(a.src, codes) && i < |a.groups|
      ensures Indices(a.groups[i], |codes|) && a.ids[i] in store
      ensures Stores(a.src.codec, store[a.ids[i]], Join(codes, a.groups[i]))
    {
      GroupOfCodes(a, i);
      assert WrittenGroup(a, entries, store, i);
    }
  }

  lemma {:induction false} AllGroupsDecoded(a: Archive)
    requires a.Valid()
    ensures forall codes :: StoresCodes(a.src, codes) ==> AllDecoded(a.src, a.groups, |a.groups|)
  {
    forall codes, i: nat | StoresCodes(a.src, codes) && i < |a.groups|
      ensures Decoded(a.src, a.groups[i])
    {
      GroupOfCodes(a, i);
    }
  }

  lemma {:induction false} WrittenStep(a: Archive, entries: seq<GroupEntry>, store: map<ChunkId, seq<Byte>>, n: nat,
                                       e: GroupEntry, chunk: seq<Byte>)
    requires a.Valid() && n < |a.groups| && Written(a, entries, store, n)
    requires Stores(a.src.codec, chunk, a.GroupData(n)) && e == a.header.groups[n].(compressedSize := |chunk|)
    ensures Written(a, entries + [e], store[a.ids[n] := chunk], n + 1)
  {
    var more, after := entries + [e], store[a.ids[n] := chunk];
    WrittenNew(a, more, after, n, chunk);
    EarlierStay(a, entries, store, n, more, after);
    WrittenAll(a, more, after, n);
  }

  lemma {:induction false} WrittenAll(a: Archive, entries: seq<GroupEntry>, store: map<ChunkId, seq<Byte>>, n: nat)
    requires a.Valid() && n < |a.groups| && |entries| == n + 1 && WrittenGroup(a, entries, store, n)
    requires forall i: nat {:trigger WrittenGroup(a, entries, store, i)} :: i < n ==> WrittenGroup(a, entries, store, i)
    ensures Written(a, entries, store, n + 1)
  {
  }

  lemma {:induction false} EarlierStay(a: Archive, entries: seq<GroupEntry>, store: map<ChunkId, seq<Byte>>, n: nat,
                                       more: seq<GroupEntry>, after: map<ChunkId, seq<Byte>>)
    requires a.Valid() && n < |a.groups| && Written(a, entries, store, n) && entries <= more
    requires forall id :: id in store && id != a.ids[n] ==> id in after && after[id] == store[id]
    ensures forall i: nat {:trigger WrittenGroup(a, more, after, i)} :: i < n ==> WrittenGroup(a, more, after, i)
  {
    forall i: nat | i < n
      ensures WrittenGroup(a, more, after, i)
    {
      assert WrittenGroup(a, entries, store, i);
      OtherId(a.ids, i, n);
      WrittenStays(a, entries, store, more, after, i);
    }
  }

  lemma {:induction false} OtherId(ids: seq<ChunkId>, i: nat, n: nat)
    requires Distinct(ids) && i < n < |ids|
    ensures ids[i] != ids[n]
  {
  }

  lemma {:induction false} WrittenNew(a: Archive, entries: seq<GroupEntry>, store: map<ChunkId, seq<Byte>>, n: nat,
                                      chunk: seq<Byte>)
    requires a.Valid() && n < |a.groups| && n < |entries| && a.ids[n] in store && store[a.ids[n]] == chunk
    requires entries[n] == a.header.groups[n].(compressedSize := |chunk|)
    requires Stores(a.src.codec, chunk, a.GroupData(n))
    ensures WrittenGroup(a, entries, store, n)
  {
  }

  lemma {:induction false} WrittenStays(a: Archive, entries: seq<GroupEntry>, store: map<ChunkId, seq<Byte>>,
                                        more: seq<GroupEntry>, after: map<ChunkId, seq<Byte>>, i: nat)
    requires a.Valid() && i < |a.groups| && i < |entries| && entries <= more
    requires WrittenGroup(a, entries, store, i) && a.ids[i] in after && after[a.ids[i]] == store[a.ids[i]]
    ensures WrittenGroup(a, more, after, i)
  {
  }

  // -------------------------------------------------------------------- reading

  predicate OffsetLe(p: (nat, nat), q: (nat, nat)) {
    p.1 <= q.1
  }

  /** The shaders of a group with their offsets. */
  ghost predicate Offsets(lib: Library, g: seq<nat>, pairs: seq<(nat, nat)>) {
    |pairs| <= |g| && forall k :: 0 <= k < |pairs| ==> pairs[k] == (g[k], SizeOf(lib, g[..k]))
  }

  lemma {:induction false} SizesGrow(lib: Library, g: seq<nat>, i: nat, j: nat)
    requires i <= j <= |g|
    ensures SizeOf(lib, g[..i]) <= SizeOf(lib, g[..j])
  {
    assert g[..j] == g[..i] + g[i..j];
    SizeOfPlus(lib, g[..i], g[i..j]);
  }

  /** Sorting by offset finds the shaders already in order. */
  lemma {:induction false} OffsetsSorted(lib: Library, g: seq<nat>, pairs: seq<(nat, nat)>)
    requires Offsets(lib, g, pairs)
    ensures SortBy(pairs, OffsetLe) == pairs
  {
    forall i, j | 0 <= i < j < |pairs|
      ensures OffsetLe(pairs[i], pairs[j])
    {
      SizesGrow(lib, g, i, j);
    }
    SortByOfSorted(pairs, OffsetLe);
  }

  lemma {:induction false} OffsetsStep(lib: Library, g: seq<nat>, pairs: seq<(nat, nat)>)
    requires Offsets(lib, g, pairs) && |pairs| < |g|
    ensures Offsets(lib, g, pairs + [(g[|pairs|], SizeOf(lib, g[..|pairs|]))])
  {
  }

  /** Lists the shaders of a group with their offsets. */
  method GroupOffsets(ghost a: Archive, header: Header, i: nat) returns (r: Result<seq<(nat, nat)>, ArchiveError>)
    requires a.Valid() && i < |a.groups| && |header.groups| == |a.groups|
    requires header.entries == a.header.entries && header.indices == a.header.indices
    requires header.groups[i].indicesOffset == a.header.groups[i].indicesOffset &&
               header.groups[i].count == a.header.groups[i].count
    ensures r.Ok? && |r.value| == |a.groups[i]| && Offsets(a.src.lib, a.groups[i], r.value)
  {
    var pairs: seq<(nat, nat)> := [];
    var e := header.groups[i];
    assert GroupEntryOk(a.src.lib, a.header.groups[i], a.header.indices, a.groups[i]);
    for k := 0 to e.count
      invariant |pairs| == k && Offsets(a.src.lib, a.groups[i], pairs)
    {
      EntryRead(a, i, k);
      var s := header.indices[e.indicesOffset + k];
      if header.entries[s].GroupIndex() != i {
        return Err(ConflictingGroup(s));
      }
      OffsetsStep(a.src.lib, a.groups[i], pairs);
      pairs := pairs + [(s, header.entries[s].OffsetInGroup())];
    }
    r := Ok(pairs);
  }

  /** The first `n` shaders of a group have been copied out, nothing else changed. */
  ghost predicate Extracted(codes0: seq<seq<Byte>>, codes: seq<seq<Byte>>, all: seq<seq<Byte>>, g: seq<nat>, n: nat)
    requires n <= |g|
  {
    && |codes| == |codes0| == |all|
    && (forall k :: 0 <= k < n ==> g[k] < |codes| && codes[g[k]] == all[g[k]])
    && (forall s: nat :: s < |codes| && s !in g ==> codes[s] == codes0[s])
  }

  lemma {:induction false} ExtractedStep(codes0: seq<seq<Byte>>, codes: seq<seq<Byte>>, all: seq<seq<Byte>>,
                                         g: seq<nat>, n: nat)
    requires n < |g| && g[n] < |all| && Extracted(codes0, codes, all, g, n)
    ensures Extracted(codes0, codes[g[n] := all[g[n]]], all, g, n + 1)
  {
  }

  lemma {:induction false} SliceIsCode(src: Source, g: seq<nat>, pairs: seq<(nat, nat)>, data: seq<Byte>, k: nat)
    requires src.Valid() && Decoded(src, g) && Indices(g, |src.stored|)
    requires |pairs| == |g| && Offsets(src.lib, g, pairs) && data == Join(src.Codes(), g) && k < |pairs|
    ensures var end := if k + 1 < |pairs| then pairs[k + 1].1 else |data|;
            pairs[k].1 <= end <= |data| && data[pairs[k].1..end] == src.Codes()[g[k]]
  {
    DecodedSizes(src, g);
    JoinSlice(src.lib, src.Codes(), g, k);
    assert g[..|g|] == g;
  }

  /** Cuts the data of a group at the offsets of its shaders. */
  method ExtractGroup(ghost src: Source, ghost g: seq<nat>, pairs: seq<(nat, nat)>, data: seq<Byte>,
                      codes0: seq<seq<Byte>>)
    returns (codes: seq<seq<Byte>>)
    requires src.Valid() && Decoded(src, g) && |codes0| == |src.stored| && g != []
    requires |pairs| == |g| && Offsets(src.lib, g, pairs) && Indices(g, |src.stored|)
    requires data == Join(src.Codes(), g)
    ensures Extracted(codes0, codes, src.Codes(), g, |g|)
  {
    codes := codes0;
    ghost var all := src.Codes();
    for k := 0 to |pairs| - 1
      invariant Extracted(codes0, codes, all, g, k)
    {
      SliceIsCode(src, g, pairs, data, k);
      ExtractedStep(codes0, codes, all, g, k);
      var start, end := pairs[k].1, pairs[k + 1].1;
      codes := codes[pairs[k].0 := data[start..end]];
    }
    var k := |pairs| - 1;
    SliceIsCode(src, g, pairs, data, k);
    ExtractedStep(codes0, codes, all, g, k);
    codes := codes[pairs[k].0 := data[pairs[k].1..|data|]];
  }

  ghost predicate GroupRecovered(codes: seq<seq<Byte>>, all: seq<seq<Byte>>, g: seq<nat>)
    requires |codes| == |all|
  {
    forall k :: 0 <= k < |g| ==> g[k] < |codes| && codes[g[k]] == all[g[k]]
  }

  ghost predicate Recovered(codes: seq<seq<Byte>>, all: seq<seq<Byte>>, groups: seq<seq<nat>>, n: nat)
    requires |codes| == |all| && n <= |groups|
  {
    forall i: nat {:trigger GroupRecovered(codes, all, groups[i])} :: i < n ==> GroupRecovered(codes, all, groups[i])
  }

  lemma {:induction false} RecoveredStep(codes0: seq<seq<Byte>>, codes: seq<seq<Byte>>, all: seq<seq<Byte>>,
                                         groups: seq<seq<nat>>, n: nat)
    requires n < |groups| && Disjoint(groups) && |codes0| == |all|
    requires Recovered(codes0, all, groups, n) && Extracted(codes0, codes, all, groups[n], |groups[n]|)
    ensures Recovered(codes, all, groups, n + 1)
  {
    forall i: nat | i < n
      ensures GroupRecovered(codes, all, groups[i])
    {
      assert GroupRecovered(codes0, all, groups[i]);
      assert forall k :: 0 <= k < |groups[i]| ==> groups[i][k] in groups[i];
    }
    assert GroupRecovered(codes, all, groups[n]);
  }

  ghost predicate InSome(groups: seq<seq<nat>>, n: nat, s: nat)
    requires n <= |groups|
  {
    exists i :: 0 <= i < n && s in groups[i]
  }

  /** Every shader is in some group. */
  ghost predicate Complete(lib: Library, groups: seq<seq<nat>>) {
    forall s: nat {:trigger InSome(groups, |groups|, s)} :: s < |lib.shaders| ==> InSome(groups, |groups|, s)
  }

  /** Only shaders of the first `n` groups have code. */
  ghost predicate Untouched(codes: seq<seq<Byte>>, groups: seq<seq<nat>>, n: nat)
    requires n <= |groups|
  {
    forall s: nat {:trigger codes[s]} :: s < |codes| && codes[s] != [] ==> InSome(groups, n, s)
  }

  lemma {:induction false} UntouchedStep(codes0: seq<seq<Byte>>, codes: seq<seq<Byte>>, all: seq<seq<Byte>>,
                                         groups: seq<seq<nat>>, n: nat)
    requires n < |groups| && Untouched(codes0, groups, n) && Extracted(codes0, codes, all, groups[n], |groups[n]|)
    ensures Untouched(codes, groups, n + 1)
  {
    forall s: nat | s < |codes| && codes[s] != []
      ensures InSome(groups, n + 1, s)
    {
      if s !in groups[n] {
        assert codes0[s] == codes[s];
        var i :| 0 <= i < n && s in groups[i];
      }
    }
  }

  /** A shader of some group has its code back, and it is not empty. */
  lemma {:induction false} RecoveredOne(a: Archive, codes: seq<seq<Byte>>, s: nat)
    requires a.Valid() && |codes| == |a.src.stored| && s < |codes| && InSome(a.groups, |a.groups|, s)
    requires AllDecoded(a.src, a.groups, |a.groups|) && Recovered(codes, a.src.Codes(), a.groups, |a.groups|)
    ensures codes[s] == a.src.Codes()[s] && codes[s] != []
  {
    var i :| 0 <= i < |a.groups| && s in a.groups[i];
    var g := a.groups[i];
    var k :| 0 <= k < |g| && g[k] == s;
    assert GroupRecovered(codes, a.src.Codes(), g);
    AllDecodedStep(a.src, a.groups, i);
    DecodedSizes(a.src, g);
    assert |a.src.Codes()[g[k]]| == SizeAt(a.src.lib, s);
  }

  /** Reads one chunk, decompressing it when its sizes differ. */
  method LoadGroup(ghost a: Archive, codec: Codec, e: GroupEntry, chunk: seq<Byte>, i: nat)
    returns (data: Result<seq<Byte>, ArchiveError>)
    requires a.Valid() && i < |a.groups| && codec == a.src.codec && Decoded(a.src, a.groups[i])
    requires Stores(codec, chunk, a.GroupData(i)) && e == a.header.groups[i].(compressedSize := |chunk|)
    ensures data == Ok(a.GroupData(i))
  {
    DecodedSizes(a.src, a.groups[i]);
    JoinSize(a.src.lib, a.src.Codes(), a.groups[i]);
    assert GroupEntryOk(a.src.lib, a.header.groups[i], a.header.indices, a.groups[i]);
    if e.compressedSize == e.uncompressedSize {
      return Ok(chunk);
    }
    var decompressed := codec.decompress(chunk, e.uncompressedSize);
    if decompressed.None? || |decompressed.value| != e.uncompressedSize {
      return Err(WrongSize(i));
    }
    data := Ok(decompressed.value);
  }

  lemma {:induction false} CodesUnique(src: Source)
    requires src.Valid()
    ensures forall codes :: StoresCodes(src, codes) ==> codes == src.Codes() && AllReadable(src)
  {
    forall codes | StoresCodes(src, codes)
      ensures codes == src.Codes() && AllReadable(src)
    {
      CodesAreStored(src, codes);
    }
  }

  /** Reads a written archive back: every shader's code is recovered exactly, and a
      shader is reported missing exactly when no group holds it. */
  method ReadArchive(ghost a: Archive, codec: Codec, header: Header, ids: seq<ChunkId>, store: map<ChunkId, seq<Byte>>)
    returns (r: Result<seq<seq<Byte>>, ArchiveError>)
    requires a.Valid() && AllDecoded(a.src, a.groups, |a.groups|)
    requires codec == a.src.codec && ids == a.ids && header == a.header.(groups := header.groups)
    requires Written(a, header.groups, store, |a.groups|)
    ensures r.Ok? <==> Complete(a.src.lib, a.groups)
    ensures r.Ok? ==> r.value == a.src.Codes()
    ensures r.Ok? ==> forall stored :: StoresCodes(a.src, stored) ==> r.value == stored
  {
    CodesUnique(a.src);
    var codes: seq<seq<Byte>> := seq(|header.entries|, _ => []);
    ghost var all := a.src.Codes();
    for i := 0 to |header.groups|
      invariant |codes| == |all| && Recovered(codes, all, a.groups, i)
      invariant Untouched(codes, a.groups, i)
    {
      assert WrittenGroup(a, header.groups, store, i);
      AllDecodedStep(a.src, a.groups, i);
      assert GroupSupported(a.src.lib, a.groups[i]);
      var data := LoadGroup(a, codec, header.groups[i], store[ids[i]], i);
      var pairs := GroupOffsets(a, header, i);
      match pairs {
        case Err(e) =>
          return Err(e);
        case Ok(list) =>
          OffsetsSorted(a.src.lib, a.groups[i], list);
          ghost var before := codes;
          codes := ExtractGroup(a.src, a.groups[i], SortBy(list, OffsetLe), data.value, codes);
          RecoveredStep(before, codes, all, a.groups, i);
          UntouchedStep(before, codes, all, a.groups, i);
      }
    }
    r := CheckComplete(a, codes);
  }

  ghost predicate FoundCode(codes: seq<seq<Byte>>, all: seq<seq<Byte>>, groups: seq<seq<nat>>, s: nat)
    requires s < |codes| == |all|
  {
    (codes[s] != [] <==> InSome(groups, |groups|, s)) && (codes[s] != [] ==> codes[s] == all[s])
  }

  method CheckComplete(ghost a: Archive, codes: seq<seq<Byte>>) returns (r: Result<seq<seq<Byte>>, ArchiveError>)
    requires a.Valid() && AllDecoded(a.src, a.groups, |a.groups|) && |codes| == |a.src.stored|
    requires Recovered(codes, a.src.Codes(), a.groups, |a.groups|) && Untouched(codes, a.groups, |a.groups|)
    ensures r.Ok? <==> Complete(a.src.lib, a.groups)
    ensures r.Ok? ==> r.value == a.src.Codes()
  {
    ghost var all := a.src.Codes();
    forall s: nat | s < |codes|
      ensures FoundCode(codes, all, a.groups, s)
    {
      if InSome(a.groups, |a.groups|, s) {
        RecoveredOne(a, codes, s);
      }
    }
    var missing := FindMissing(codes, all, a.groups);
    r := if missing.Some? then Err(MissingShader(missing.value)) else Ok(codes);
  }

  method FindMissing(codes: seq<seq<Byte>>, ghost all: seq<seq<Byte>>, ghost groups: seq<seq<nat>>)
    returns (r: Option<nat>)
    requires |codes| == |all|
    requires forall s: nat {:trigger FoundCode(codes, all, groups, s)} :: s < |codes| ==>
               FoundCode(codes, all, groups, s)
    ensures r.Some? ==> r.value < |codes| && !InSome(groups, |groups|, r.value)
    ensures r.None? ==> codes == all && forall s: nat {:trigger InSome(groups, |groups|, s)} :: s < |codes| ==>
              InSome(groups, |groups|, s)
  {
    for s := 0 to |codes|
      invariant forall t: nat :: t < s ==> codes[t] != []
    {
      assert FoundCode(codes, all, groups, s);
      if codes[s] == [] {
        return Some(s);
      }
    }
    forall s: nat | s < |codes|
      ensures codes[s] == all[s] && InSome(groups, |groups|, s)
    {
      assert FoundCode(codes, all, groups, s);
    }
    r := None;
  }

  // ------------------------------------------------------ the whole round trip

  lemma {:induction false} NotInBoth(a: seq<nat>, b: seq<nat>, x: nat)
    requires Distinct(a + b) && x in a
    ensures x !in b
  {
    var i :| 0 <= i < |a| && a[i] == x;
    forall j | 0 <= j < |b|
      ensures b[j] != x
    {
      assert (a + b)[i] == x && (a + b)[|a| + j] == b[j];
    }
  }

  lemma {:induction false} DistinctParts(a: seq<nat>, b: seq<nat>)
    requires Distinct(a + b)
    ensures Distinct(a) && Distinct(b)
  {
    assert forall i :: 0 <= i < |a| ==> (a + b)[i] == a[i];
    assert forall i :: 0 <= i < |b| ==> (a + b)[|a| + i] == b[i];
  }

  lemma {:induction false} DistinctMeansDisjoint(groups: seq<seq<nat>>)
    requires Distinct(Concat(groups))
    ensures Disjoint(groups)
  {
    if groups != [] {
      var n := |groups| - 1;
      var front := Concat(groups[..n]);
      DistinctParts(front, groups[n]);
      DistinctMeansDisjoint(groups[..n]);
      forall i, x | 0 <= i < n && x in groups[i]
        ensures x !in groups[n]
      {
        assert x in groups[..n][i];
        InConcat(groups[..n], x);
        NotInBoth(front, groups[n], x);
      }
      forall i, j, x | 0 <= i < j < |groups| && x in groups[i]
        ensures x !in groups[j]
      {
        assert j < n ==> groups[..n][i] == groups[i] && groups[..n][j] == groups[j];
      }
      forall i | 0 <= i < |groups|
        ensures Distinct(groups[i])
      {
        assert i < n ==> groups[..n][i] == groups[i];
      }
    }
  }

  lemma {:induction false} SetIsDistinct(s: seq<nat>, t: set<nat>)
    requires multiset(s) == multiset(t)
    ensures Distinct(s) && forall x :: x in s <==> x in t
  {
    forall i, j | 0 <= i < j < |s|
      ensures s[i] != s[j]
    {
      if s[i] == s[j] {
        TwoOccurrences(s, i, j);
      }
    }
    assert forall x :: x in s <==> x in multiset(s);
  }

  /** Groups that hold every shader once can be archived, as far as they fit into the
      index table. */
  lemma {:induction false} PartitionSupported(lib: Library, groups: seq<seq<nat>>)
    requires multiset(Concat(groups)) == multiset(Below(|lib.shaders|))
    requires NoneEmpty(groups) && IndexTableHolds(lib, groups)
    ensures Supported(lib, groups) && Complete(lib, groups)
  {
    SetIsDistinct(Concat(groups), Below(|lib.shaders|));
    DistinctMeansDisjoint(groups);
    forall i | 0 <= i < |groups|
      ensures GroupSupported(lib, groups[i])
    {
      forall k | 0 <= k < |groups[i]|
        ensures groups[i][k] < |lib.shaders|
      {
        InConcat(groups, groups[i][k]);
      }
    }
    forall s: nat {:trigger InSome(groups, |groups|, s)} | s < |lib.shaders|
      ensures InSome(groups, |groups|, s)
    {
      InConcat(groups, s);
    }
  }

  /** The group sizes and counts fit their fields and the index table. */
  ghost predicate Fits(lib: Library, groups: seq<seq<nat>>) {
    && |groups| <= GROUP_RANGE && IndexTableHolds(lib, groups)
    && forall i :: 0 <= i < |groups| ==> SizeOf(lib, groups[i]) <= OFFSET_RANGE
  }

  /** Packs a library into group chunks and reads it back. Whatever the grouping, the
      code of every shader comes back unchanged unless some stored shader could not be
      decompressed in the first place. */
  method PackAndRead(src: Source, groups: seq<seq<nat>>, ids: seq<ChunkId>)
    returns (r: Result<seq<seq<Byte>>, ArchiveError>)
    requires src.Valid() && Fits(src.lib, groups) && |ids| == |groups| && Distinct(ids)
    requires multiset(Concat(groups)) == multiset(Below(|src.lib.shaders|))
    requires NoneEmpty(groups)
    ensures r.Ok? <==> AllReadable(src)
    ensures forall codes :: StoresCodes(src, codes) ==> r == Ok(codes)
    ensures r.Ok? ==> |r.value| == |src.stored| && forall s: nat {:trigger HoldsCode(src, s, r.value[s])} ::
              s < |src.stored| ==> HoldsCode(src, s, r.value[s])
  {
    PartitionSupported(src.lib, groups);
    var header := BuildHeader(src.lib, groups);
    ghost var a := Archive(src, groups, header, ids);
    var written := WriteLibrary(a, src, header, ids);
    EveryShaderDecoded(src, groups);
    ReadableIff(src);
    CodesUnique(src);
    match written {
      case Err(e) =>
        return Err(e);
      case Ok(w) =>
        r := ReadArchive(a, src.codec, header.(groups := w.0), ids, w.1);
    }
  }

  lemma {:induction false} EveryShaderDecoded(src: Source, groups: seq<seq<nat>>)
    requires src.Valid() && Supported(src.lib, groups) && Complete(src.lib, groups)
    ensures AllDecoded(src, groups, |groups|) <==> forall s :: 0 <= s < |src.stored| ==> src.CodeOf(s).Some?
  {
    if AllDecoded(src, groups, |groups|) {
      forall s: nat | s < |src.stored|
        ensures src.CodeOf(s).Some?
      {
        assert InSome(groups, |groups|, s);
        var i :| 0 <= i < |groups| && s in groups[i];
        AllDecodedStep(src, groups, i);
      }
    }
    forall i | 0 <= i < |groups|
      ensures GroupSupported(src.lib, groups[i])
    {
    }
  }
}
