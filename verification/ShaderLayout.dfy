/** Laying out shader code in one file: shaders shared between maps first, then the
    shaders of each map together, then those of no map; and the preload entries that
    cover each map. */
module ShaderLayout {
  import opened Zen
  import opened Bytes
  import opened Sequences
  import opened ShaderGroups
  import opened ShaderArchive

  // --------------------------------------------------------- reference counts

  /** How often the maps below `m` refer to shader `s`. */
  ghost function RefCount(lib: Library, s: nat, m: nat): nat
    requires lib.Valid() && m <= |lib.maps|
  {
    if m == 0 then 0 else RefCount(lib, s, m - 1) + multiset(lib.MapShaders(m - 1))[s]
  }

  ghost predicate CountsAre(lib: Library, counts: seq<nat>, m: nat, list: seq<nat>)
    requires lib.Valid() && m <= |lib.maps|
  {
    |counts| == |lib.shaders| && forall s: nat :: s < |counts| ==> counts[s] == RefCount(lib, s, m) + multiset(list)[s]
  }

  method CountReferences(lib: Library) returns (counts: seq<nat>)
    requires lib.Valid()
    ensures CountsAre(lib, counts, |lib.maps|, [])
  {
    counts := seq(|lib.shaders|, _ => 0);
    for m := 0 to |lib.maps|
      invariant CountsAre(lib, counts, m, [])
    {
      counts := CountMap(lib, m, counts);
    }
  }

  method CountMap(lib: Library, m: nat, counts0: seq<nat>) returns (counts: seq<nat>)
    requires lib.Valid() && m < |lib.maps| && CountsAre(lib, counts0, m, [])
    ensures CountsAre(lib, counts, m + 1, [])
  {
    counts := counts0;
    var list := lib.MapShaders(m);
    for i := 0 to |list|
      invariant CountsAre(lib, counts, m, list[..i])
    {
      var s := list[i];
      MapShaderInRange(lib, m, i);
      assert list[..i + 1] == list[..i] + [s];
      counts := counts[s := counts[s] + 1];
    }
    assert list[..|list|] == list;
  }

  lemma {:induction false} MapShaderInRange(lib: Library, m: nat, i: nat)
    requires lib.Valid() && m < |lib.maps| && i < |lib.MapShaders(m)|
    ensures lib.MapShaders(m)[i] < |lib.shaders|
  {
    assert lib.MapShaders(m)[i] == lib.indices[lib.maps[m].offset + i];
  }

  lemma {:induction false} RefCountNext(lib: Library, s: nat, m: nat)
    requires lib.Valid() && m < |lib.maps|
    ensures RefCount(lib, s, m + 1) == RefCount(lib, s, m) + multiset(lib.MapShaders(m))[s]
  {
  }

  lemma {:induction false} RefCountGrows(lib: Library, s: nat, m: nat, n: nat)
    requires lib.Valid() && m <= n <= |lib.maps|
    ensures RefCount(lib, s, m) <= RefCount(lib, s, n)
    decreases n - m
  {
    if m < n {
      RefCountGrows(lib, s, m + 1, n);
      RefCountNext(lib, s, m);
    }
  }

  lemma {:induction false} OccursAt(list: seq<nat>, i: nat)
    requires i < |list|
    ensures multiset(list)[list[i]] == multiset(list[..i])[list[i]] + 1 + multiset(list[i + 1..])[list[i]]
  {
    assert list == list[..i] + [list[i]] + list[i + 1..];
  }

  /** A shader referred to once, at place `i` of map `m`, occurs nowhere before. */
  lemma {:induction false} UniqueOccursOnce(lib: Library, m: nat, i: nat)
    requires lib.Valid() && m < |lib.maps| && i < |lib.MapShaders(m)|
    requires RefCount(lib, lib.MapShaders(m)[i], |lib.maps|) == 1
    ensures var list := lib.MapShaders(m);
            RefCount(lib, list[i], m) == 0 && multiset(list[..i])[list[i]] == 0
  {
    var list := lib.MapShaders(m);
    RefCountGrows(lib, list[i], m + 1, |lib.maps|);
    OccursAt(list, i);
    RefCountNext(lib, list[i], m);
  }

  // --------------------------------------------------------------- the layout

  /** Where the code of a shader went; a start of -1 means nowhere yet. */
  datatype Region = Region(start: int, size: nat, unique: bool)

  lemma {:induction false} JoinPlus(codes: seq<seq<Byte>>, a: seq<nat>, b: seq<nat>)
    requires Indices(a + b, |codes|)
    ensures Indices(a, |codes|) && Indices(b, |codes|)
    ensures Join(codes, a + b) == Join(codes, a) + Join(codes, b)
  {
    assert forall k :: 0 <= k < |a| ==> (a + b)[k] == a[k];
    assert forall k :: 0 <= k < |b| ==> (a + b)[|a| + k] == b[k];
    if b == [] {
      assert a + b == a;
    } else {
      var n := |b| - 1;
      assert (a + b)[..|a + b| - 1] == a + b[..n];
      JoinPlus(codes, a, b[..n]);
      assert Join(codes, a) + Join(codes, b[..n]) + codes[b[n]] == Join(codes, a) + (Join(codes, b[..n]) + codes[b[n]]);
    }
  }

  /** The start of the `k`-th shader of a layout. */
  ghost function StartAt(data: seq<seq<Byte>>, order: seq<nat>, k: nat): nat
    requires Indices(order, |data|) && k <= |order|
  {
    |Join(data, order[..k])|
  }

  ghost predicate Placed(data: seq<seq<Byte>>, regions: seq<Region>, order: seq<nat>, k: nat)
    requires Indices(order, |data|) && |regions| == |data| && k < |order|
  {
    regions[order[k]].start == StartAt(data, order, k) && regions[order[k]].size == |data[order[k]]|
  }

  /** The shaders of `order` have been written one after another. */
  ghost predicate Laid(data: seq<seq<Byte>>, buffer: seq<Byte>, regions: seq<Region>, order: seq<nat>) {
    && Indices(order, |data|) && Distinct(order) && |regions| == |data|
    && buffer == Join(data, order)
    && (forall k: nat {:trigger Placed(data, regions, order, k)} :: k < |order| ==> Placed(data, regions, order, k))
    && (forall s: nat :: s < |regions| && s !in order ==> regions[s].start == -1)
  }

  lemma {:induction false} PlacedStep(data: seq<seq<Byte>>, regions: seq<Region>, after: seq<Region>, order: seq<nat>,
                                      more: seq<nat>, k: nat)
    requires Indices(more, |data|) && |regions| == |after| == |data| && k < |order| <= |more| &&
               more[..|order|] == order
    requires after[order[k]] == regions[order[k]] && Indices(order, |data|) && Placed(data, regions, order, k)
    ensures Placed(data, after, more, k)
  {
    assert more[..k] == more[..|order|][..k] == order[..k];
    assert more[k] == more[..|order|][k] == order[k];
  }

  lemma {:induction false} LaidStep(data: seq<seq<Byte>>, buffer: seq<Byte>, regions: seq<Region>, order: seq<nat>,
                                    s: nat, unique: bool)
    requires Laid(data, buffer, regions, order) && s < |data| && s !in order
    ensures Laid(data, buffer + data[s], regions[s := Region(|buffer|, |data[s]|, unique)], order + [s])
  {
    var more, after := order + [s], regions[s := Region(|buffer|, |data[s]|, unique)];
    assert more[..|order|] == order;
    forall k: nat | k < |order|
      ensures Placed(data, after, more, k)
    {
      assert Placed(data, regions, order, k);
      assert order[k] in order;
      PlacedStep(data, regions, after, order, more, k);
    }
    assert Placed(data, after, more, |order|);
    assert Join(data, more) == Join(data, order) + data[s];
  }

  /** The bytes of a laid-out shader. */
  lemma {:induction false} LaidBytes(data: seq<seq<Byte>>, buffer: seq<Byte>, regions: seq<Region>, order: seq<nat>,
                                     k: nat)
    requires Laid(data, buffer, regions, order) && k < |order|
    ensures var r := regions[order[k]];
            0 <= r.start <= r.start + r.size <= |buffer| && buffer[r.start..r.start + r.size] == data[order[k]]
    ensures StartAt(data, order, k + 1) == regions[order[k]].start + regions[order[k]].size
  {
    assert Placed(data, regions, order, k);
    assert order == order[..k + 1] + order[k + 1..] && order[..k + 1][..k] == order[..k];
    JoinPlus(data, order[..k + 1], order[k + 1..]);
  }

  /** What is written for a shader: its compressed form only when that is smaller. */
  function Encoded(compression: Option<Codec>, code: seq<Byte>): seq<Byte> {
    if compression.Some? && |compression.value.compress(code)| < |code| then compression.value.compress(code) else code
  }

  /** The region holds the code itself, or its compressed form where that is smaller. */
  ghost predicate HoldsEither(compression: Option<Codec>, buffer: seq<Byte>, r: Region, code: seq<Byte>) {
    && 0 <= r.start <= r.start + r.size <= |buffer|
    && var data := buffer[r.start..r.start + r.size];
    || (data == code && (compression.None? || |compression.value.compress(code)| >= |code|))
    || (compression.Some? && data == compression.value.compress(code) && |data| < |code|)
  }

  ghost predicate AllHeld(compression: Option<Codec>, buffer: seq<Byte>, regions: seq<Region>, codes: seq<seq<Byte>>) {
    |regions| == |codes| && forall s :: 0 <= s < |codes| ==> HoldsEither(compression, buffer, regions[s], codes[s])
  }

  lemma {:induction false} LaidHolds(compression: Option<Codec>, data: seq<seq<Byte>>, codes: seq<seq<Byte>>,
                                     buffer: seq<Byte>, regions: seq<Region>, order: seq<nat>, s: nat)
    requires Laid(data, buffer, regions, order) && |data| == |codes| && s in order
    requires forall t :: 0 <= t < |codes| ==> data[t] == Encoded(compression, codes[t])
    ensures s < |regions| == |codes| && HoldsEither(compression, buffer, regions[s], codes[s])
  {
    var k :| 0 <= k < |order| && order[k] == s;
    LaidBytes(data, buffer, regions, order, k);
  }

  lemma {:induction false} AllLaidHold(compression: Option<Codec>, data: seq<seq<Byte>>, codes: seq<seq<Byte>>,
                                       buffer: seq<Byte>, regions: seq<Region>, order: seq<nat>)
    requires Laid(data, buffer, regions, order) && |data| == |codes| == |regions|
    requires forall t :: 0 <= t < |codes| ==> data[t] == Encoded(compression, codes[t])
    requires forall s: nat :: s in order <==> s < |codes|
    ensures AllHeld(compression, buffer, regions, codes)
  {
    forall s | 0 <= s < |codes|
      ensures HoldsEither(compression, buffer, regions[s], codes[s])
    {
      LaidHolds(compression, data, codes, buffer, regions, order, s);
    }
  }

  ghost predicate Flagged(regions: seq<Region>, order: seq<nat>, counts: seq<nat>) {
    forall s :: s in order ==> s < |regions| && s < |counts| && (regions[s].unique <==> counts[s] == 1)
  }

  /** The shared shaders below `n` have been written. */
  ghost predicate SharedBelow(counts: seq<nat>, order: seq<nat>, n: nat)
    requires n <= |counts|
  {
    forall s: nat :: s in order <==> s < n && counts[s] > 1
  }

  /** The shared shaders and the unique ones of the maps below `m` and of `list`. */
  ghost predicate UniqueBelow(lib: Library, counts: seq<nat>, order: seq<nat>, m: nat, list: seq<nat>)
    requires lib.Valid() && m <= |lib.maps|
  {
    forall s: nat :: s in order <==>
      s < |counts| && (counts[s] > 1 || (counts[s] == 1 && RefCount(lib, s, m) + multiset(list)[s] > 0))
  }

  /** All shaders but the detached ones from `n` on have been written. */
  ghost predicate DetachedBelow(counts: seq<nat>, order: seq<nat>, n: nat) {
    forall s: nat :: s in order <==> s < |counts| && (counts[s] > 0 || s < n)
  }

  /** Part `p..q` of the order holds exactly the unique shaders of map `m`, and the
      region of the map covers it. */
  datatype Cut = Cut(p: nat, q: nat) {
    ghost predicate Valid(lib: Library, counts: seq<nat>, data: seq<seq<Byte>>, order: seq<nat>, region: (nat, nat),
                          m: nat)
      requires lib.Valid() && m < |lib.maps| && Indices(order, |data|)
    {
      && p <= q <= |order|
      && (forall s: nat :: s in order[p..q] <==> s < |counts| && counts[s] == 1 && s in lib.MapShaders(m))
      && region.0 == StartAt(data, order, p) && region.0 + region.1 == StartAt(data, order, q)
    }
  }

  class ShaderCodeWriter {
    const lib: Library
    const codes: seq<seq<Byte>>
    const compression: Option<Codec>
    var buffer: seq<Byte>
    var regions: seq<Region>
    var mapRegions: seq<(nat, nat)>
    ghost var order: seq<nat>
    ghost var cuts: seq<Cut>

    ghost function Data(): (r: seq<seq<Byte>>)
      ensures |r| == |codes|
    {
      seq(|codes|, s requires 0 <= s < |codes| => Encoded(compression, codes[s]))
    }

    ghost predicate Valid()
      reads this
    {
      lib.Valid() && |codes| == |lib.shaders| && Laid(Data(), buffer, regions, order)
    }

    constructor (lib: Library, codes: seq<seq<Byte>>, compression: Option<Codec>)
      requires lib.Valid() && |codes| == |lib.shaders|
      ensures Valid() && this.lib == lib && this.codes == codes && this.compression == compression
      ensures order == [] && mapRegions == [] && cuts == []
    {
      this.lib, this.codes, this.compression := lib, codes, compression;
      buffer, regions, mapRegions, order, cuts := [], seq(|codes|, _ => Region(-1, 0, false)), [], [], [];
    }

    /** Appends one shader and records where it went. */
    method WriteShader(s: nat, unique: bool, ghost counts: seq<nat>)
      requires Valid() && s < |codes| && s !in order && |counts| == |codes|
      requires Flagged(regions, order, counts) && (unique <==> counts[s] == 1)
      modifies `buffer, `regions, `order
      ensures Valid() && order == old(order) + [s] && Flagged(regions, order, counts)
    {
      LaidStep(Data(), buffer, regions, order, s, unique);
      var data := Encoded(compression, codes[s]);
      regions := regions[s := Region(|buffer|, |data|, unique)];
      buffer := buffer + data;
      order := order + [s];
    }

    /** First, the shaders that several references share. */
    method WriteShared(counts: seq<nat>)
      requires Valid() && order == [] && |counts| == |codes|
      modifies `buffer, `regions, `order
      ensures Valid() && Flagged(regions, order, counts) && SharedBelow(counts, order, |counts|)
    {
      for s := 0 to |counts|
        invariant Valid() && Flagged(regions, order, counts) && SharedBelow(counts, order, s)
      {
        if counts[s] > 1 {
          WriteShader(s, false, counts);
        }
      }
    }

    /** Last, the shaders that no map refers to. */
    method WriteDetached(counts: seq<nat>)
      requires Valid() && |counts| == |codes| && Flagged(regions, order, counts) && DetachedBelow(counts, order, 0)
      modifies `buffer, `regions, `order
      ensures Valid() && Flagged(regions, order, counts) && DetachedBelow(counts, order, |counts|)
      ensures old(order) <= order
    {
      ghost var start := order;
      for s := 0 to |counts|
        invariant Valid() && Flagged(regions, order, counts) && DetachedBelow(counts, order, s)
        invariant start <= order
      {
        if counts[s] == 0 {
          WriteShader(s, false, counts);
        }
      }
    }

    /** The unique shaders of map `m`, one after another. */
    method WriteMap(counts: seq<nat>, m: nat)
      requires Valid() && CountsAre(lib, counts, |lib.maps|, []) && Flagged(regions, order, counts)
      requires m < |lib.maps| && UniqueBelow(lib, counts, order, m, [])
      modifies `buffer, `regions, `order
      ensures Valid() && Flagged(regions, order, counts) && old(order) <= order
      ensures UniqueBelow(lib, counts, order, m + 1, [])
    {
      ghost var start := order;
      var list := lib.MapShaders(m);
      for i := 0 to |list|
        invariant Valid() && Flagged(regions, order, counts) && start <= order
        invariant UniqueBelow(lib, counts, order, m, list[..i])
      {
        var s := list[i];
        MapShaderInRange(lib, m, i);
        assert list[..i + 1] == list[..i] + [s];
        if counts[s] == 1 {
          UniqueOccursOnce(lib, m, i);
          WriteShader(s, true, counts);
        }
      }
      assert list[..|list|] == list;
    }

    /** Writes the unique shaders of map `m` and records their region. */
    method WriteMapRegion(counts: seq<nat>, m: nat)
      requires Valid() && CountsAre(lib, counts, |lib.maps|, []) && Flagged(regions, order, counts)
      requires m < |lib.maps| && UniqueBelow(lib, counts, order, m, [])
      modifies this
      ensures Valid() && Flagged(regions, order, counts) && UniqueBelow(lib, counts, order, m + 1, [])
      ensures old(order) <= order && |mapRegions| == |old(mapRegions)| + 1 && old(mapRegions) <= mapRegions
      ensures cuts == old(cuts) + [Cut(|old(order)|, |order|)]
      ensures Cut(|old(order)|, |order|).Valid(lib, counts, Data(), order, mapRegions[|old(mapRegions)|], m)
    {
      ghost var before := order;
      var start := |buffer|;
      WriteMap(counts, m);
      assert order == before + order[|before|..];
      JoinPlus(Data(), before, order[|before|..]);
      NewShaders(lib, counts, before, order, m);
      mapRegions := mapRegions + [(start, |buffer| - start)];
      cuts := cuts + [Cut(|before|, |order|)];
      assert order[..|before|] == before && order[..|order|] == order && order[|before|..|order|] == order[|before|..];
    }

    /** Writes the unique shaders map by map. */
    method WriteUnique(counts: seq<nat>)
      requires Valid() && CountsAre(lib, counts, |lib.maps|, []) && Flagged(regions, order, counts)
      requires SharedBelow(counts, order, |counts|) && cuts == [] && mapRegions == []
      modifies this
      ensures Valid() && Flagged(regions, order, counts) && DetachedBelow(counts, order, 0)
      ensures CutsValid(lib, counts, Data(), order, mapRegions, cuts, |lib.maps|)
    {
      assert forall s: nat :: RefCount(lib, s, 0) + multiset([])[s] == 0;
      for m := 0 to |lib.maps|
        invariant Valid() && Flagged(regions, order, counts)
        invariant UniqueBelow(lib, counts, order, m, [])
        invariant CutsValid(lib, counts, Data(), order, mapRegions, cuts, m)
      {
        ghost var before, cuts0, regions0 := order, cuts, mapRegions;
        WriteMapRegion(counts, m);
        CutsStep(lib, counts, Data(), before, order, regions0, mapRegions, cuts0, cuts, m);
      }
      UniqueMeansReferenced(lib, counts, order);
    }
  }

  ghost predicate CutsValid(lib: Library, counts: seq<nat>, data: seq<seq<Byte>>, order: seq<nat>,
                            regions: seq<(nat, nat)>, cuts: seq<Cut>, n: nat)
    requires lib.Valid() && n <= |lib.maps| && Indices(order, |data|)
  {
    && |cuts| == |regions| == n
    && forall m: nat {:trigger cuts[m]} :: m < n ==> cuts[m].Valid(lib, counts, data, order, regions[m], m)
  }

  lemma {:induction false} CutsStep(lib: Library, counts: seq<nat>, data: seq<seq<Byte>>, before: seq<nat>,
                                    after: seq<nat>, regions: seq<(nat, nat)>, moreRegions: seq<(nat, nat)>,
                                    cuts: seq<Cut>, moreCuts: seq<Cut>, n: nat)
    requires lib.Valid() && n < |lib.maps| && Indices(before, |data|) && Indices(after, |data|) && before <= after
    requires CutsValid(lib, counts, data, before, regions, cuts, n)
    requires regions <= moreRegions && cuts <= moreCuts && |moreRegions| == |moreCuts| == n + 1
    requires moreCuts[n].Valid(lib, counts, data, after, moreRegions[n], n)
    ensures CutsValid(lib, counts, data, after, moreRegions, moreCuts, n + 1)
  {
    forall m: nat | m < n
      ensures moreCuts[m].Valid(lib, counts, data, after, moreRegions[m], m)
    {
      CutExtends(cuts[m], lib, counts, data, before, after, regions[m], m);
    }
  }

  lemma {:induction false} CutsExtend(lib: Library, counts: seq<nat>, data: seq<seq<Byte>>, before: seq<nat>,
                                      after: seq<nat>, regions: seq<(nat, nat)>, cuts: seq<Cut>, n: nat)
    requires lib.Valid() && n <= |lib.maps| && Indices(before, |data|) && Indices(after, |data|) && before <= after
    requires CutsValid(lib, counts, data, before, regions, cuts, n)
    ensures CutsValid(lib, counts, data, after, regions, cuts, n)
  {
    forall m: nat | m < n
      ensures cuts[m].Valid(lib, counts, data, after, regions[m], m)
    {
      CutExtends(cuts[m], lib, counts, data, before, after, regions[m], m);
    }
  }

  lemma {:induction false} NewShader(lib: Library, counts: seq<nat>, before: seq<nat>, after: seq<nat>, m: nat, s: nat)
    requires lib.Valid() && m < |lib.maps| && CountsAre(lib, counts, |lib.maps|, []) && Distinct(before + after)
    requires UniqueBelow(lib, counts, before, m, []) && UniqueBelow(lib, counts, before + after, m + 1, [])
    ensures s in after <==> s < |counts| && counts[s] == 1 && s in lib.MapShaders(m)
  {
    if s in before {
      NotInBoth(before, after, s);
    }
    RefCountGrows(lib, s, m + 1, |lib.maps|);
    RefCountNext(lib, s, m);
    assert multiset([])[s] == 0;
    assert s in multiset(lib.MapShaders(m)) <==> s in lib.MapShaders(m);
  }

  lemma {:induction false} NewShaders(lib: Library, counts: seq<nat>, before: seq<nat>, after: seq<nat>, m: nat)
    requires lib.Valid() && m < |lib.maps| && CountsAre(lib, counts, |lib.maps|, [])
    requires before <= after && Distinct(after)
    requires UniqueBelow(lib, counts, before, m, []) && UniqueBelow(lib, counts, after, m + 1, [])
    ensures forall s: nat :: s in after[|before|..] <==> s < |counts| && counts[s] == 1 && s in lib.MapShaders(m)
  {
    assert after == before + after[|before|..];
    forall s: nat
      ensures s in after[|before|..] <==> s < |counts| && counts[s] == 1 && s in lib.MapShaders(m)
    {
      NewShader(lib, counts, before, after[|before|..], m, s);
    }
  }

  lemma {:induction false} CutExtends(cut: Cut, lib: Library, counts: seq<nat>, data: seq<seq<Byte>>,
                                      before: seq<nat>, after: seq<nat>, region: (nat, nat), m: nat)
    requires lib.Valid() && m < |lib.maps| && Indices(before, |data|) && Indices(after, |data|) && before <= after
    requires cut.Valid(lib, counts, data, before, region, m)
    ensures cut.Valid(lib, counts, data, after, region, m)
  {
    assert after[cut.p..cut.q] == before[cut.p..cut.q];
    assert after[..cut.p] == before[..cut.p] && after[..cut.q] == before[..cut.q];
  }

  lemma {:induction false} UniqueMeansReferenced(lib: Library, counts: seq<nat>, order: seq<nat>)
    requires lib.Valid() && CountsAre(lib, counts, |lib.maps|, []) && UniqueBelow(lib, counts, order, |lib.maps|, [])
    ensures DetachedBelow(counts, order, 0)
  {
    forall s: nat
      ensures s in order <==> s < |counts| && counts[s] > 0
    {
      assert s < |counts| ==> counts[s] == RefCount(lib, s, |lib.maps|) + multiset([])[s];
    }
  }

  /** Lays out all shaders. */
  method LayoutShaderCode(lib: Library, codes: seq<seq<Byte>>, compression: Option<Codec>)
    returns (w: ShaderCodeWriter, ghost counts: seq<nat>)
    requires lib.Valid() && |codes| == |lib.shaders|
    ensures w.lib == lib && w.codes == codes && w.compression == compression
    ensures w.Valid() && CountsAre(lib, counts, |lib.maps|, []) && Flagged(w.regions, w.order, counts)
    ensures forall s: nat :: s in w.order <==> s < |codes|
    ensures CutsValid(lib, counts, w.Data(), w.order, w.mapRegions, w.cuts, |lib.maps|)
    ensures AllHeld(compression, w.buffer, w.regions, codes)
  {
    var references := CountReferences(lib);
    counts := references;
    w := new ShaderCodeWriter(lib, codes, compression);
    w.WriteShared(references);
    w.WriteUnique(references);
    ghost var before := w.order;
    w.WriteDetached(references);
    CutsExtend(lib, counts, w.Data(), before, w.order, w.mapRegions, w.cuts, |lib.maps|);
    AllLaidHold(compression, w.Data(), codes, w.buffer, w.regions, w.order);
  }

  /** Every shader is written exactly once, in a region of its own; the regions tile
      the file. */
  lemma {:induction false} LayoutTiles(data: seq<seq<Byte>>, buffer: seq<Byte>, regions: seq<Region>, order: seq<nat>,
                                       b: nat) returns (s: nat)
    requires Laid(data, buffer, regions, order) && b < |buffer|
    requires forall t: nat :: t in order <==> t < |data|
    ensures s < |data| && InRegion(regions, s, b)
    ensures forall t: nat :: t < |data| && InRegion(regions, t, b) ==> t == s
    ensures forall t: nat :: t < |data| ==>
              0 <= regions[t].start && regions[t].start + regions[t].size <= |buffer|
              && buffer[regions[t].start..regions[t].start + regions[t].size] == data[t]
  {
    assert order[..|order|] == order && order[..0] == [];
    var k := RangeFinds(data, order, 0, |order|, b);
    s := order[k];
    LaidBytes(data, buffer, regions, order, k);
    assert s in order && Placed(data, regions, order, k);
    forall t: nat | t < |data|
      ensures 0 <= regions[t].start && regions[t].start + regions[t].size <= |buffer|
      ensures buffer[regions[t].start..regions[t].start + regions[t].size] == data[t]
      ensures InRegion(regions, t, b) ==> t == s
    {
      assert t in order;
      var j :| 0 <= j < |order| && order[j] == t;
      LaidBytes(data, buffer, regions, order, j);
      assert Placed(data, regions, order, j) && Placed(data, regions, order, k);
      if j < k {
        StartsGrow(data, order, j + 1, k);
      } else if k < j {
        StartsGrow(data, order, k + 1, j);
      }
    }
  }

  ghost predicate InRegion(regions: seq<Region>, s: nat, b: nat) {
    s < |regions| && regions[s].start <= b < regions[s].start + regions[s].size
  }

  lemma {:induction false} StartsGrow(data: seq<seq<Byte>>, order: seq<nat>, p: nat, q: nat)
    requires Indices(order, |data|) && p <= q <= |order|
    ensures StartAt(data, order, p) <= StartAt(data, order, q)
  {
    assert order[..q] == order[..p] + order[p..q];
    JoinPlus(data, order[..p], order[p..q]);
  }

  /** A byte between two starts belongs to a shader between them. */
  lemma {:induction false} RangeFinds(data: seq<seq<Byte>>, order: seq<nat>, p: nat, q: nat, b: nat) returns (k: nat)
    requires Indices(order, |data|) && p <= q <= |order|
    requires StartAt(data, order, p) <= b < StartAt(data, order, q)
    ensures p <= k < q && StartAt(data, order, k) <= b < StartAt(data, order, k + 1)
  {
    if b >= StartAt(data, order, q - 1) {
      k := q - 1;
    } else {
      k := RangeFinds(data, order, p, q - 1, b);
    }
  }

  // ------------------------------------------------------------ preload entries

  datatype PreloadEntry = PreloadEntry(offset: int, size: nat)

  datatype PreloadRange = PreloadRange(first: nat, count: nat)

  /** The entries for the shaders of a list that are not unique to their map. */
  function SharedEntries(regions: seq<Region>, list: seq<nat>): seq<PreloadEntry>
    requires Indices(list, |regions|)
  {
    if list == [] then []
    else
      var r := regions[list[|list| - 1]];
      SharedEntries(regions, list[..|list| - 1]) + if r.unique then [] else [PreloadEntry(r.start, r.size)]
  }

  function MapEntries(region: (nat, nat)): seq<PreloadEntry> {
    if region.1 > 0 then [PreloadEntry(region.0, region.1)] else []
  }

  ghost predicate PreloadsAre(lib: Library, regions: seq<Region>, mapRegions: seq<(nat, nat)>,
                              entries: seq<PreloadEntry>, range: PreloadRange, m: nat)
    requires lib.Valid() && m < |lib.maps| && m < |mapRegions| && Indices(lib.MapShaders(m), |regions|)
  {
    && range.first + range.count <= |entries|
    && entries[range.first..range.first + range.count] ==
        MapEntries(mapRegions[m]) + SharedEntries(regions, lib.MapShaders(m))
  }

  lemma {:induction false} MapIndices(lib: Library, m: nat)
    requires lib.Valid() && m < |lib.maps|
    ensures Indices(lib.MapShaders(m), |lib.shaders|)
  {
    forall i | 0 <= i < |lib.MapShaders(m)|
      ensures lib.MapShaders(m)[i] < |lib.shaders|
    {
      MapShaderInRange(lib, m, i);
    }
  }

  /** The preload entries of one map: its unique shaders as one region, and each shared
      shader by itself. */
  method BuildMapPreload(lib: Library, regions: seq<Region>, mapRegion: (nat, nat), m: nat)
    returns (entries: seq<PreloadEntry>)
    requires lib.Valid() && m < |lib.maps| && |regions| == |lib.shaders| && Indices(lib.MapShaders(m), |regions|)
    ensures entries == MapEntries(mapRegion) + SharedEntries(regions, lib.MapShaders(m))
  {
    entries := [];
    if mapRegion.1 > 0 {
      entries := [PreloadEntry(mapRegion.0, mapRegion.1)];
    }
    var list := lib.MapShaders(m);
    for i := 0 to |list|
      invariant entries == MapEntries(mapRegion) + SharedEntries(regions, list[..i])
    {
      var r := regions[list[i]];
      assert list[..i + 1][..i] == list[..i];
      if !r.unique {
        entries := entries + [PreloadEntry(r.start, r.size)];
      }
    }
    assert list[..|list|] == list;
  }

  method BuildPreload(lib: Library, regions: seq<Region>, mapRegions: seq<(nat, nat)>)
    returns (entries: seq<PreloadEntry>, ranges: seq<PreloadRange>)
    requires lib.Valid() && |regions| == |lib.shaders| && |mapRegions| == |lib.maps|
    ensures |ranges| == |lib.maps|
    ensures forall m: nat :: m < |lib.maps| ==>
              Indices(lib.MapShaders(m), |regions|) && PreloadsAre(lib, regions, mapRegions, entries, ranges[m], m)
  {
    entries, ranges := [], [];
    forall m: nat | m < |lib.maps|
      ensures Indices(lib.MapShaders(m), |regions|)
    {
      MapIndices(lib, m);
    }
    for m := 0 to |lib.maps|
      invariant |ranges| == m
      invariant forall k: nat :: k < m ==> PreloadsAre(lib, regions, mapRegions, entries, ranges[k], k)
    {
      var more := BuildMapPreload(lib, regions, mapRegions[m], m);
      ghost var before := entries;
      ranges := ranges + [PreloadRange(|entries|, |more|)];
      entries := entries + more;
      forall k: nat | k <= m
        ensures PreloadsAre(lib, regions, mapRegions, entries, ranges[k], k)
      {
        if k < m {
          assert PreloadsAre(lib, regions, mapRegions, before, ranges[k], k);
          assert entries[ranges[k].first..ranges[k].first + ranges[k].count] ==
              before[ranges[k].first..ranges[k].first + ranges[k].count];
        }
      }
    }
  }

  // ----------------------------------------------------------------- coverage

  ghost predicate Covers(entries: seq<PreloadEntry>, b: nat) {
    exists i :: 0 <= i < |entries| && entries[i].offset <= b < entries[i].offset + entries[i].size
  }

  ghost predicate InShaders(regions: seq<Region>, list: seq<nat>, b: nat) {
    exists s :: s in list && InRegion(regions, s, b)
  }

  lemma {:induction false} SharedEntriesCover(regions: seq<Region>, list: seq<nat>, b: nat)
    requires Indices(list, |regions|)
    ensures Covers(SharedEntries(regions, list), b) <==>
              exists s :: s in list && !regions[s].unique && InRegion(regions, s, b)
  {
    if list != [] {
      var n, s := |list| - 1, list[|list| - 1];
      SharedEntriesCover(regions, list[..n], b);
      assert list == list[..n] + [s];
      var front, all := SharedEntries(regions, list[..n]), SharedEntries(regions, list);
      CoversPlus(front, if regions[s].unique then [] else [PreloadEntry(regions[s].start, regions[s].size)], b);
      assert Covers(all, b) <==> Covers(front, b) || (!regions[s].unique && InRegion(regions, s, b));
    }
  }

  lemma {:induction false} CoversPlus(x: seq<PreloadEntry>, y: seq<PreloadEntry>, b: nat)
    ensures Covers(x + y, b) <==> Covers(x, b) || Covers(y, b)
    ensures |y| == 1 ==> (Covers(y, b) <==> y[0].offset <= b < y[0].offset + y[0].size)
  {
    if Covers(x, b) {
      var i :| 0 <= i < |x| && x[i].offset <= b < x[i].offset + x[i].size;
      assert (x + y)[i] == x[i];
    }
    if Covers(y, b) {
      var i :| 0 <= i < |y| && y[i].offset <= b < y[i].offset + y[i].size;
      assert (x + y)[|x| + i] == y[i];
    }
  }

  ghost predicate UniqueHolds(counts: seq<nat>, regions: seq<Region>, list: seq<nat>, s: nat, b: nat) {
    s in list && s < |counts| && counts[s] == 1 && InRegion(regions, s, b)
  }

  lemma {:induction false} RegionByteIsUnique(lib: Library, counts: seq<nat>, data: seq<seq<Byte>>, buffer: seq<Byte>,
                                              regions: seq<Region>, order: seq<nat>, cut: Cut, region: (nat, nat),
                                              m: nat, b: nat) returns (s: nat)
    requires lib.Valid() && m < |lib.maps| && |data| == |counts| && Laid(data, buffer, regions, order)
    requires cut.Valid(lib, counts, data, order, region, m) && region.0 <= b < region.0 + region.1
    ensures UniqueHolds(counts, regions, lib.MapShaders(m), s, b)
  {
    var k := RangeFinds(data, order, cut.p, cut.q, b);
    LaidBytes(data, buffer, regions, order, k);
    assert Placed(data, regions, order, k);
    s := order[k];
    assert s == order[cut.p..cut.q][k - cut.p];
  }

  lemma {:induction false} UniqueByteIsInRegion(lib: Library, counts: seq<nat>, data: seq<seq<Byte>>,
                                                buffer: seq<Byte>, regions: seq<Region>, order: seq<nat>, cut: Cut,
                                                region: (nat, nat), m: nat, b: nat, s: nat)
    requires lib.Valid() && m < |lib.maps| && |data| == |counts| && Laid(data, buffer, regions, order)
    requires cut.Valid(lib, counts, data, order, region, m) && UniqueHolds(counts, regions, lib.MapShaders(m), s, b)
    ensures region.0 <= b < region.0 + region.1
  {
    var part := order[cut.p..cut.q];
    assert s in part;
    var j :| 0 <= j < |part| && part[j] == s;
    var k := cut.p + j;
    LaidBytes(data, buffer, regions, order, k);
    assert Placed(data, regions, order, k);
    StartsGrow(data, order, cut.p, k);
    StartsGrow(data, order, k + 1, cut.q);
  }

  /** The region of a map holds exactly the bytes of its unique shaders. */
  lemma {:induction false} MapRegionCovers(lib: Library, counts: seq<nat>, data: seq<seq<Byte>>, buffer: seq<Byte>,
                                           regions: seq<Region>, order: seq<nat>, cut: Cut, region: (nat, nat),
                                           m: nat, b: nat)
    requires lib.Valid() && m < |lib.maps| && |data| == |counts| && Laid(data, buffer, regions, order)
    requires cut.Valid(lib, counts, data, order, region, m)
    ensures Covers(MapEntries(region), b) <==> exists s :: UniqueHolds(counts, regions, lib.MapShaders(m), s, b)
  {
    var entries := MapEntries(region);
    assert region.1 > 0 ==> entries[0] == PreloadEntry(region.0, region.1);
    assert Covers(entries, b) <==> region.0 <= b < region.0 + region.1;
    if region.0 <= b < region.0 + region.1 {
      var s := RegionByteIsUnique(lib, counts, data, buffer, regions, order, cut, region, m, b);
    } else if s :| UniqueHolds(counts, regions, lib.MapShaders(m), s, b) {
      UniqueByteIsInRegion(lib, counts, data, buffer, regions, order, cut, region, m, b, s);
    }
  }

  /** The preload entries of a map cover every byte of every shader of the map, and no
      byte of any other shader. */
  lemma {:induction false} PreloadCoversExactly(lib: Library, counts: seq<nat>, data: seq<seq<Byte>>,
                                                buffer: seq<Byte>, regions: seq<Region>, order: seq<nat>, cut: Cut,
                                                region: (nat, nat), m: nat, b: nat)
    requires lib.Valid() && m < |lib.maps| && |data| == |counts| == |lib.shaders| && Laid(data, buffer, regions, order)
    requires Flagged(regions, order, counts) && forall s: nat :: s in order <==> s < |data|
    requires cut.Valid(lib, counts, data, order, region, m)
    ensures Indices(lib.MapShaders(m), |regions|)
    ensures Covers(MapEntries(region) + SharedEntries(regions, lib.MapShaders(m)), b) <==>
              InShaders(regions, lib.MapShaders(m), b)
  {
    var list := lib.MapShaders(m);
    MapIndices(lib, m);
    forall s | s in list
      ensures s < |counts| && (regions[s].unique <==> counts[s] == 1)
    {
      var i :| 0 <= i < |list| && list[i] == s;
      MapShaderInRange(lib, m, i);
      assert s in order;
    }
    CoversPlus(MapEntries(region), SharedEntries(regions, list), b);
    MapRegionCovers(lib, counts, data, buffer, regions, order, cut, region, m, b);
    SharedEntriesCover(regions, list, b);
    forall s | s in list && InRegion(regions, s, b) && regions[s].unique
      ensures UniqueHolds(counts, regions, list, s, b)
    {
    }
  }
}
