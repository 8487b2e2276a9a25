/** From a shader library to its archive and back: grouping, packing and reading. */
module ShaderPacking {
  import opened Zen
  import opened Bytes
  import opened Sequences
  import opened Sorting
  import opened Arithmetic
  import opened ShaderGroups
  import opened ShaderSplit
  import opened ShaderArchive

  // ---------------------------------------------------- groups fit the index table

  lemma {:induction false} ReferenceMeansListed(lib: Library, s: nat, m: nat, n: nat)
    requires lib.Valid() && n <= |lib.maps| && m in References(lib, s, n)
    ensures m < n && s in lib.MapShaders(m)
  {
    if m in References(lib, s, n - 1) {
      ReferenceMeansListed(lib, s, m, n - 1);
    } else {
      assert m == n - 1;
      assert s in multiset(lib.MapShaders(m));
    }
  }

  /** Some shader map lists the shader. */
  ghost predicate Listed(lib: Library, s: nat)
    requires lib.Valid()
  {
    exists m :: 0 <= m < |lib.maps| && s in lib.MapShaders(m)
  }

  lemma {:induction false} ListedMeansReference(lib: Library, s: nat, m: nat, n: nat)
    requires lib.Valid() && m < n <= |lib.maps| && s in lib.MapShaders(m)
    ensures References(lib, s, n) != []
    decreases n
  {
    if m < n - 1 {
      ListedMeansReference(lib, s, m, n - 1);
    } else {
      assert s in multiset(lib.MapShaders(m));
    }
  }

  /** A group of shaders that some map lists always fits into the index table: it is part
      of that map's list. */
  lemma {:induction false} ReferencedGroupFits(lib: Library, g: seq<nat>)
    requires lib.Valid() && Uniform(g, ReferenceKey(lib)) && Distinct(g) && g != [] && Listed(lib, g[0])
    ensures |g| <= |lib.indices|
  {
    var key := ReferenceKey(lib);
    var l :| 0 <= l < |lib.maps| && g[0] in lib.MapShaders(l);
    ListedMeansReference(lib, g[0], l, |lib.maps|);
    var m := key(g[0])[0];
    forall x | x in g
      ensures m < |lib.maps| && x in lib.MapShaders(m)
    {
      assert g[0] in g && key(x) == key(g[0]);
      ReferenceMeansListed(lib, x, m, |lib.maps|);
    }
    assert g[0] in g;
    DistinctCardinality(g);
    ElementsAtMost(lib.MapShaders(m));
    SubsetCardinality(Elements(g), Elements(lib.MapShaders(m)));
  }

  // ------------------------------------------------------------- groups fit their fields

  lemma {:induction false} GroupsAtMost(groups: seq<seq<nat>>)
    requires NoneEmpty(groups)
    ensures |groups| <= |Concat(groups)|
  {
    if groups != [] {
      GroupsAtMost(groups[..|groups| - 1]);
    }
  }

  lemma {:induction false} SameMultisetSize(s: seq<nat>, t: set<nat>)
    requires multiset(s) == multiset(t)
    ensures |s| == |t|
  {
    assert |multiset(s)| == |s| && |multiset(t)| == |t|;
  }

  /** What every shader library that is to be packed has to keep to: each shader is listed
      by some map, and the fields of the archive are wide enough. */
  ghost predicate Packable(src: Source, limit: nat) {
    && src.Valid() && src.lib.Valid() && |src.lib.shaders| <= GROUP_RANGE
    && forall s: nat :: s < |src.lib.shaders| ==>
         Listed(src.lib, s) && limit + src.lib.shaders[s].uncompressedSize <= OFFSET_RANGE
  }

  lemma {:induction false} GroupFits(src: Source, limit: nat, g: seq<nat>)
    requires Packable(src, limit) && limit > 0 && g != [] && Distinct(g) && Indices(g, |src.lib.shaders|)
    requires Uniform(g, ReferenceKey(src.lib)) && Bounded(src.lib, limit, g)
    ensures SizeOf(src.lib, g) <= OFFSET_RANGE && |g| <= |src.lib.indices|
  {
    assert g[0] in g;
    ReferencedGroupFits(src.lib, g);
  }

  lemma {:induction false} GroupsFit(src: Source, limit: nat, groups: seq<seq<nat>>)
    requires Packable(src, limit) && limit > 0 && NoneEmpty(groups)
    requires multiset(Concat(groups)) == multiset(Below(|src.lib.shaders|))
    requires forall g :: g in groups ==> Uniform(g, ReferenceKey(src.lib)) && Bounded(src.lib, limit, g)
    ensures Fits(src.lib, groups) && Disjoint(groups)
  {
    GroupsAtMost(groups);
    SameMultisetSize(Concat(groups), Below(|src.lib.shaders|));
    SetIsDistinct(Concat(groups), Below(|src.lib.shaders|));
    DistinctMeansDisjoint(groups);
    forall i | 0 <= i < |groups|
      ensures SizeOf(src.lib, groups[i]) <= OFFSET_RANGE
      ensures |groups[i]| <= |IndexTable(src.lib.indices, groups, i)|
    {
      forall k | 0 <= k < |groups[i]|
        ensures groups[i][k] < |src.lib.shaders|
      {
        InConcat(groups, groups[i][k]);
      }
      assert groups[i] in groups;
      GroupFits(src, limit, groups[i]);
      IndexTableGrows(src.lib.indices, groups, i);
    }
  }

  // -------------------------------------------------------------- the whole way

  /** The ids of the chunks; different groups have different ids. */
  method ChunkIds(groups: seq<seq<nat>>, idOf: seq<nat> -> ChunkId) returns (ids: seq<ChunkId>)
    requires NoneEmpty(groups) && Disjoint(groups) && forall g, h :: idOf(g) == idOf(h) ==> g == h
    ensures |ids| == |groups| && Distinct(ids)
  {
    ids := seq(|groups|, i requires 0 <= i < |groups| => idOf(groups[i]));
    forall i, j | 0 <= i < j < |groups|
      ensures ids[i] != ids[j]
    {
      assert groups[i][0] in groups[i];
    }
  }

  lemma {:induction false} PartUniform<K(!new)>(lib: Library, limit: nat, key: nat -> K, same: nat -> seq<nat>,
                                                g: seq<nat>)
    requires limit > 0 && PartOk(lib, limit, key, g) && forall x: nat, y: nat :: key(x) == key(y) ==> same(x) == same(y)
    ensures Uniform(g, same) && Bounded(lib, limit, g)
  {
  }

  lemma {:induction false} GroupedFits<K(!new)>(src: Source, limit: nat, key: nat -> K, groups: seq<seq<nat>>)
    requires Packable(src, limit) && limit > 0 && GroupedBy(src.lib, limit, key, groups)
    requires forall x: nat, y: nat :: key(x) == key(y) ==> ReferenceKey(src.lib)(x) == ReferenceKey(src.lib)(y)
    ensures NoneEmpty(groups) && Fits(src.lib, groups) && Disjoint(groups)
    ensures multiset(Concat(groups)) == multiset(Below(|src.lib.shaders|))
  {
    PositiveSizesFill(src.lib, limit, key, groups);
    var classes :| Grouping(src.lib, limit, key, classes, groups);
    forall g | g in groups
      ensures Uniform(g, ReferenceKey(src.lib)) && Bounded(src.lib, limit, g)
    {
      PartUniform(src.lib, limit, key, ReferenceKey(src.lib), g);
    }
    GroupsFit(src, limit, groups);
  }

  /** Groups a library, packs the groups into chunks and reads them back. The code of every
      shader comes back unchanged, unless some stored shader could not be decompressed in
      the first place; nothing else makes it fail. */
  method GroupPackAndRead(src: Source, formatName: string, limit: nat, idOf: seq<nat> -> ChunkId)
    returns (r: Result<seq<seq<Byte>>, ArchiveError>)
    requires Packable(src, limit) && limit > 0 && forall g, h :: idOf(g) == idOf(h) ==> g == h
    ensures r.Ok? <==> AllReadable(src)
    ensures forall codes :: StoresCodes(src, codes) ==> r == Ok(codes)
    ensures r.Ok? ==> |r.value| == |src.stored| && forall s: nat {:trigger HoldsCode(src, s, r.value[s])} ::
              s < |src.stored| ==> HoldsCode(src, s, r.value[s])
  {
    var groups := BuildShaderGroups(src.lib, formatName, limit);
    if formatName == SEPARATED_FORMAT {
      GroupedFits(src, limit, KindKey(src.lib), groups);
    } else {
      GroupedFits(src, limit, ReferenceKey(src.lib), groups);
    }
    var ids := ChunkIds(groups, idOf);
    r := PackAndRead(src, groups, ids);
  }
}
