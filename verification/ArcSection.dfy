/** The section of a package from before UE5 that lists its arcs from other packages. */
module ArcSection {
  import opened Zen
  import opened Bytes
  import opened Bundles

  predicate FitsI32(v: int) {
    -0x8000_0000 <= v < 0x8000_0000
  }

  predicate ArcFits(a: InternalArc) {
    FitsI32(a.fromBundle) && FitsI32(a.toBundle)
  }

  /** Everything in the dependency fits its serialized field. */
  ghost predicate DependencyFits(d: ExternalDependency) {
    && d.packageId < Pow256(8) && |d.legacyArcs| < 0x8000_0000
    && forall k :: 0 <= k < |d.legacyArcs| ==> ArcFits(d.legacyArcs[k])
  }

  ghost predicate DependenciesFit(deps: seq<ExternalDependency>) {
    |deps| < 0x8000_0000 && forall p :: 0 <= p < |deps| ==> DependencyFits(deps[p])
  }

  // --------------------------------------------------------------- serialization

  function ArcBytes(a: InternalArc): (r: seq<Byte>)
    requires ArcFits(a)
    ensures |r| == 8
  {
    EncodeI32(a.fromBundle) + EncodeI32(a.toBundle)
  }

  /** The arcs in the order in which they are serialized. */
  ghost function SerializedArcs(deps: seq<ExternalDependency>): seq<InternalArc> {
    if deps == [] then []
    else SerializedArcs(deps[..|deps| - 1]) + deps[|deps| - 1].legacyArcs
  }

  /** Each offset holds the bytes of its arc, and the arcs do not overlap. */
  ghost predicate ArcsAt(buffer: seq<Byte>, arcs: seq<InternalArc>, offsets: seq<nat>) {
    && |offsets| == |arcs|
    && (forall k :: 0 <= k < |arcs| ==> ArcFits(arcs[k]) && ArcAt(buffer, arcs[k], offsets[k]))
    && (forall k, l :: 0 <= k < l < |offsets| ==> offsets[k] + 8 <= offsets[l])
  }

  predicate ArcAt(buffer: seq<Byte>, a: InternalArc, offset: nat)
    requires ArcFits(a)
  {
    offset + 8 <= |buffer|
    && buffer[offset..offset + 4] == EncodeI32(a.fromBundle)
    && buffer[offset + 4..offset + 8] == EncodeI32(a.toBundle)
  }

  lemma {:induction false} ArcsAtExtend(buffer: seq<Byte>, more: seq<Byte>, arcs: seq<InternalArc>, offsets: seq<nat>)
    requires ArcsAt(buffer, arcs, offsets)
    ensures ArcsAt(buffer + more, arcs, offsets)
  {
    forall k | 0 <= k < |arcs|
      ensures ArcAt(buffer + more, arcs[k], offsets[k])
    {
      var o := offsets[k];
      assert ArcAt(buffer, arcs[k], o);
      assert (buffer + more)[o..o + 4] == buffer[o..o + 4];
      assert (buffer + more)[o + 4..o + 8] == buffer[o + 4..o + 8];
    }
  }

  lemma {:induction false} ArcsAtAppend(buffer: seq<Byte>, arcs: seq<InternalArc>, offsets: seq<nat>, a: InternalArc)
    requires ArcsAt(buffer, arcs, offsets) && ArcFits(a)
    ensures ArcsAt(buffer + ArcBytes(a), arcs + [a], offsets + [|buffer|])
  {
    ArcsAtExtend(buffer, ArcBytes(a), arcs, offsets);
    var after := buffer + ArcBytes(a);
    assert after[|buffer|..|buffer| + 4] == EncodeI32(a.fromBundle);
    assert after[|buffer| + 4..|buffer| + 8] == EncodeI32(a.toBundle);
    forall k, l | 0 <= k < l < |offsets| + 1
      ensures (offsets + [|buffer|])[k] + 8 <= (offsets + [|buffer|])[l]
    {
      assert ArcAt(buffer, arcs[k], offsets[k]);
    }
  }

  // ------------------------------------------------------------- the whole section

  /** What is written of the external dependencies: packages without arcs are left out. */
  ghost function Stored(deps: seq<ExternalDependency>): seq<ExternalDependency> {
    if deps == [] then []
    else
      var d := deps[|deps| - 1];
      var rest := Stored(deps[..|deps| - 1]);
      if d.legacyArcs == [] then rest else rest + [ExternalDependency(d.packageId, [], d.legacyArcs)]
  }

  ghost function StoredSize(stored: seq<ExternalDependency>): nat {
    if stored == [] then 0 else StoredSize(stored[..|stored| - 1]) + 12 + 8 * |stored[|stored| - 1].legacyArcs|
  }

  function IntAt(buffer: seq<Byte>, position: nat): int
    requires position + 4 <= |buffer|
  {
    DecodeI32(buffer[position..position + 4])
  }

  function WordAt(buffer: seq<Byte>, position: nat, n: nat): nat
    requires position + n <= |buffer|
  {
    DecodeLE(buffer[position..position + n])
  }

  /** The arcs stand one behind the other from `position` on. */
  ghost predicate ArcListAt(buffer: seq<Byte>, position: nat, arcs: seq<InternalArc>) {
    && position + 8 * |arcs| <= |buffer|
    && forall k :: 0 <= k < |arcs| ==>
         arcs[k] == InternalArc(IntAt(buffer, position + 8 * k), IntAt(buffer, position + 8 * k + 4))
  }

  /** The id of a package, the number of its arcs and the arcs. */
  ghost predicate DependencyAt(buffer: seq<Byte>, position: nat, d: ExternalDependency) {
    && position + 12 <= |buffer| && d.externalArcs == []
    && WordAt(buffer, position, 8) == d.packageId && WordAt(buffer, position + 8, 4) == |d.legacyArcs|
    && ArcListAt(buffer, position + 12, d.legacyArcs)
  }

  ghost predicate DependenciesAt(buffer: seq<Byte>, position: nat, stored: seq<ExternalDependency>) {
    stored == [] ||
    (&& DependenciesAt(buffer, position, stored[..|stored| - 1])
     && DependencyAt(buffer, position + StoredSize(stored[..|stored| - 1]), stored[|stored| - 1]))
  }

  /** The section at `position` lists exactly these dependencies; a negative count means
      none. */
  ghost predicate SectionAt(buffer: seq<Byte>, position: nat, stored: seq<ExternalDependency>) {
    && position + 4 <= |buffer|
    && |stored| == (if IntAt(buffer, position) < 0 then 0 else IntAt(buffer, position))
    && DependenciesAt(buffer, position + 4, stored)
  }

  lemma {:induction false} ArcListStays(buffer: seq<Byte>, more: seq<Byte>, position: nat, arcs: seq<InternalArc>)
    requires buffer <= more && ArcListAt(buffer, position, arcs)
    ensures ArcListAt(more, position, arcs)
  {
    forall k | 0 <= k < |arcs|
      ensures arcs[k] == InternalArc(IntAt(more, position + 8 * k), IntAt(more, position + 8 * k + 4))
    {
      var p := position + 8 * k;
      assert more[p..p + 4] == buffer[p..p + 4] && more[p + 4..p + 8] == buffer[p + 4..p + 8];
    }
  }

  lemma {:induction false} DependencyStays(buffer: seq<Byte>, more: seq<Byte>, position: nat, d: ExternalDependency)
    requires buffer <= more && DependencyAt(buffer, position, d)
    ensures DependencyAt(more, position, d)
  {
    ArcListStays(buffer, more, position + 12, d.legacyArcs);
    assert more[position..position + 8] == buffer[position..position + 8];
    assert more[position + 8..position + 12] == buffer[position + 8..position + 12];
  }

  lemma {:induction false} DependenciesStay(buffer: seq<Byte>, more: seq<Byte>, position: nat,
                                            stored: seq<ExternalDependency>)
    requires buffer <= more && DependenciesAt(buffer, position, stored)
    ensures DependenciesAt(more, position, stored)
  {
    if stored != [] {
      var rest := stored[..|stored| - 1];
      DependenciesStay(buffer, more, position, rest);
      DependencyStays(buffer, more, position + StoredSize(rest), stored[|stored| - 1]);
    }
  }

  lemma {:induction false} SectionStays(buffer: seq<Byte>, more: seq<Byte>, position: nat,
                                        stored: seq<ExternalDependency>)
    requires buffer <= more && SectionAt(buffer, position, stored)
    ensures SectionAt(more, position, stored)
  {
    DependenciesStay(buffer, more, position + 4, stored);
    assert more[position..position + 4] == buffer[position..position + 4];
  }

  lemma {:induction false} DependenciesStep(buffer: seq<Byte>, position: nat, stored: seq<ExternalDependency>,
                                            d: ExternalDependency)
    requires DependenciesAt(buffer, position, stored) && DependencyAt(buffer, position + StoredSize(stored), d)
    ensures DependenciesAt(buffer, position, stored + [d])
    ensures StoredSize(stored + [d]) == StoredSize(stored) + 12 + 8 * |d.legacyArcs|
  {
    assert (stored + [d])[..|stored|] == stored;
  }

  lemma {:induction false} DependenciesPrefix(buffer: seq<Byte>, position: nat, stored: seq<ExternalDependency>, n: nat)
    requires n <= |stored| && DependenciesAt(buffer, position, stored)
    ensures DependenciesAt(buffer, position, stored[..n])
  {
    if n < |stored| {
      var rest := stored[..|stored| - 1];
      DependenciesPrefix(buffer, position, rest, n);
      assert rest[..n] == stored[..n];
    } else {
      assert stored[..n] == stored;
    }
  }

  lemma {:induction false} DependencyUnique(buffer: seq<Byte>, position: nat, c: ExternalDependency,
                                            d: ExternalDependency)
    requires DependencyAt(buffer, position, c) && DependencyAt(buffer, position, d)
    ensures c == d
  {
    assert c.legacyArcs == d.legacyArcs;
  }

  lemma {:induction false} DependenciesUnique(buffer: seq<Byte>, position: nat, s: seq<ExternalDependency>,
                                              t: seq<ExternalDependency>)
    requires DependenciesAt(buffer, position, s) && DependenciesAt(buffer, position, t) && |s| == |t|
    ensures s == t
  {
    if s != [] {
      var n := |s| - 1;
      DependenciesUnique(buffer, position, s[..n], t[..n]);
      DependencyUnique(buffer, position + StoredSize(s[..n]), s[n], t[n]);
      assert s == s[..n] + [s[n]] && t == t[..n] + [t[n]];
    }
  }

  /** The offsets of `n` arcs that stand one behind the other. */
  ghost function Spaced(start: nat, n: nat): (r: seq<nat>)
    ensures |r| == n
  {
    seq(n, k requires 0 <= k < n => start + 8 * k)
  }

  /** The offsets of all arcs of a list of dependencies at `position`. */
  ghost function ArcPlaces(position: nat, stored: seq<ExternalDependency>): seq<nat> {
    if stored == [] then []
    else
      var rest := stored[..|stored| - 1];
      ArcPlaces(position, rest) + Spaced(position + StoredSize(rest) + 12, |stored[|stored| - 1].legacyArcs|)
  }

  lemma {:induction false} ArcPlacesStep(position: nat, stored: seq<ExternalDependency>, d: ExternalDependency)
    ensures ArcPlaces(position, stored + [d]) ==
            ArcPlaces(position, stored) + Spaced(position + StoredSize(stored) + 12, |d.legacyArcs|)
  {
    assert (stored + [d])[..|stored|] == stored;
  }

  // ---------------------------------------------------------------------- writing

  lemma {:induction false} ArcListPush(buffer: seq<Byte>, position: nat, arcs: seq<InternalArc>, a: InternalArc)
    requires ArcListAt(buffer, position, arcs) && |buffer| == position + 8 * |arcs| && ArcFits(a)
    ensures ArcListAt(buffer + ArcBytes(a), position, arcs + [a])
  {
    var more, p := buffer + ArcBytes(a), |buffer|;
    ArcListStays(buffer, more, position, arcs);
    assert more[p..p + 4] == EncodeI32(a.fromBundle) && more[p + 4..p + 8] == EncodeI32(a.toBundle);
    I32RoundTrip(a.fromBundle);
    I32RoundTrip(a.toBundle);
  }

  /** Writes arcs behind `front` and remembers where each was put. */
  method WriteArcs(front: seq<Byte>, arcs: seq<InternalArc>, ghost written: seq<InternalArc>, offsets0: seq<nat>)
    returns (buffer: seq<Byte>, offsets: seq<nat>)
    requires forall k :: 0 <= k < |arcs| ==> ArcFits(arcs[k])
    requires ArcsAt(front, written, offsets0)
    ensures front <= buffer && |buffer| == |front| + 8 * |arcs|
    ensures ArcListAt(buffer, |front|, arcs) && ArcsAt(buffer, written + arcs, offsets)
    ensures offsets == offsets0 + Spaced(|front|, |arcs|)
  {
    buffer, offsets := front, offsets0;
    assert written + arcs[..0] == written;
    for k := 0 to |arcs|
      invariant front <= buffer && |buffer| == |front| + 8 * k
      invariant ArcListAt(buffer, |front|, arcs[..k]) && ArcsAt(buffer, written + arcs[..k], offsets)
      invariant offsets == offsets0 + Spaced(|front|, k)
    {
      ArcsAtAppend(buffer, written + arcs[..k], offsets, arcs[k]);
      ArcListPush(buffer, |front|, arcs[..k], arcs[k]);
      assert arcs[..k + 1] == arcs[..k] + [arcs[k]];
      assert written + arcs[..k + 1] == written + arcs[..k] + [arcs[k]];
      offsets := offsets + [|buffer|];
      buffer := buffer + ArcBytes(arcs[k]);
    }
    assert arcs[..|arcs|] == arcs;
  }

  lemma {:induction false} HeadRoundTrip(front: seq<Byte>, id: nat, count: nat)
    requires id < Pow256(8) && count < 0x8000_0000
    ensures var more := front + EncodeLE(id, 8) + EncodeI32(count);
            WordAt(more, |front|, 8) == id && WordAt(more, |front| + 8, 4) == count
  {
    var more := front + EncodeLE(id, 8) + EncodeI32(count);
    assert more[|front|..|front| + 8] == EncodeLE(id, 8) && more[|front| + 8..|front| + 12] == EncodeI32(count);
    LittleEndianRoundTrip(id, 8);
    assert Pow256(4) == 256 * Pow256(3) == 65536 * Pow256(2) == 0x1_0000_0000;
    LittleEndianRoundTrip(count, 4);
  }

  /** Writes the arcs from one package, behind its id and their number. */
  method WriteDependency(front: seq<Byte>, d: ExternalDependency, ghost written: seq<InternalArc>, offsets0: seq<nat>)
    returns (buffer: seq<Byte>, offsets: seq<nat>)
    requires DependencyFits(d) && ArcsAt(front, written, offsets0)
    ensures front <= buffer && |buffer| == |front| + 12 + 8 * |d.legacyArcs|
    ensures DependencyAt(buffer, |front|, d.(externalArcs := [])) && ArcsAt(buffer, written + d.legacyArcs, offsets)
    ensures offsets == offsets0 + Spaced(|front| + 12, |d.legacyArcs|)
  {
    var head := front + EncodeLE(d.packageId, 8) + EncodeI32(|d.legacyArcs|);
    HeadRoundTrip(front, d.packageId, |d.legacyArcs|);
    assert head == front + (EncodeLE(d.packageId, 8) + EncodeI32(|d.legacyArcs|));
    ArcsAtExtend(front, EncodeLE(d.packageId, 8) + EncodeI32(|d.legacyArcs|), written, offsets0);
    buffer, offsets := WriteArcs(head, d.legacyArcs, written, offsets0);
    assert buffer[|front|..|front| + 8] == head[|front|..|front| + 8];
    assert buffer[|front| + 8..|front| + 12] == head[|front| + 8..|front| + 12];
  }

  method CountStored(deps: seq<ExternalDependency>) returns (count: nat)
    ensures count == |Stored(deps)| && count <= |deps|
  {
    count := 0;
    for p := 0 to |deps|
      invariant count == |Stored(deps[..p])| && count <= p
    {
      assert deps[..p + 1][..p] == deps[..p];
      if deps[p].legacyArcs != [] {
        count := count + 1;
      }
    }
    assert deps[..|deps|] == deps;
  }

  lemma {:induction false} StoredStep(deps: seq<ExternalDependency>, p: nat)
    requires p < |deps|
    ensures if deps[p].legacyArcs == [] then Stored(deps[..p + 1]) == Stored(deps[..p])
            else Stored(deps[..p + 1]) == Stored(deps[..p]) + [deps[p].(externalArcs := [])]
    ensures SerializedArcs(deps[..p + 1]) == SerializedArcs(deps[..p]) + deps[p].legacyArcs
    ensures deps[p].legacyArcs == [] ==> SerializedArcs(deps[..p + 1]) == SerializedArcs(deps[..p])
  {
    assert deps[..p + 1][..p] == deps[..p];
  }

  /** The dependencies in `stored` have been written behind `front`, with their arcs. */
  ghost predicate WrittenUpTo(front: seq<Byte>, buffer: seq<Byte>, stored: seq<ExternalDependency>,
                              arcs: seq<InternalArc>, offsets: seq<nat>)
  {
    && front <= buffer && |buffer| == |front| + StoredSize(stored)
    && DependenciesAt(buffer, |front|, stored) && ArcsAt(buffer, arcs, offsets)
    && offsets == ArcPlaces(|front|, stored)
  }

  method WriteNext(front: seq<Byte>, buffer0: seq<Byte>, d: ExternalDependency, ghost stored: seq<ExternalDependency>,
                   ghost arcs: seq<InternalArc>, offsets0: seq<nat>)
    returns (buffer: seq<Byte>, offsets: seq<nat>)
    requires DependencyFits(d) && WrittenUpTo(front, buffer0, stored, arcs, offsets0)
    ensures WrittenUpTo(front, buffer, stored + [d.(externalArcs := [])], arcs + d.legacyArcs, offsets)
  {
    buffer, offsets := WriteDependency(buffer0, d, arcs, offsets0);
    DependenciesStay(buffer0, buffer, |front|, stored);
    DependenciesStep(buffer, |front|, stored, d.(externalArcs := []));
    ArcPlacesStep(|front|, stored, d.(externalArcs := []));
  }

  method WriteDependencies(front: seq<Byte>, deps: seq<ExternalDependency>)
    returns (buffer: seq<Byte>, offsets: seq<nat>)
    requires DependenciesFit(deps)
    ensures WrittenUpTo(front, buffer, Stored(deps), SerializedArcs(deps), offsets)
  {
    buffer, offsets := front, [];
    for p := 0 to |deps|
      invariant WrittenUpTo(front, buffer, Stored(deps[..p]), SerializedArcs(deps[..p]), offsets)
    {
      StoredStep(deps, p);
      if deps[p].legacyArcs != [] {
        buffer, offsets :=
          WriteNext(front, buffer, deps[p], Stored(deps[..p]), SerializedArcs(deps[..p]), offsets);
      }
    }
    assert deps[..|deps|] == deps;
  }

  /** Writes the external arcs of a package behind `front` and remembers where each arc was
      put: the number of packages that have arcs and, for each of them, its id, the number
      of its arcs and the arcs. */
  method SerializeLegacyArcs(front: seq<Byte>, deps: seq<ExternalDependency>)
    returns (buffer: seq<Byte>, offsets: seq<nat>)
    requires DependenciesFit(deps)
    ensures front <= buffer && |buffer| == |front| + 4 + StoredSize(Stored(deps))
    ensures SectionAt(buffer, |front|, Stored(deps)) && ArcsAt(buffer, SerializedArcs(deps), offsets)
    ensures offsets == ArcPlaces(|front| + 4, Stored(deps))
  {
    var count := CountStored(deps);
    var start := front + EncodeI32(count);
    I32RoundTrip(count);
    assert start[|front|..|front| + 4] == EncodeI32(count);
    buffer, offsets := WriteDependencies(start, deps);
    assert buffer[|front|..|front| + 4] == start[|front|..|front| + 4];
  }

  // ---------------------------------------------------------------------- reading

  /** Reads `count` arcs; none is a section that ends too early. */
  method ReadArcs(buffer: seq<Byte>, position: nat, count: nat) returns (r: Option<seq<InternalArc>>)
    requires position <= |buffer|
    ensures r.Some? <==> position + 8 * count <= |buffer|
    ensures r.Some? ==> |r.value| == count && ArcListAt(buffer, position, r.value)
  {
    var arcs := [];
    for k := 0 to count
      invariant |arcs| == k && ArcListAt(buffer, position, arcs)
    {
      if position + 8 * k + 8 > |buffer| {
        return None;
      }
      arcs := arcs + [InternalArc(IntAt(buffer, position + 8 * k), IntAt(buffer, position + 8 * k + 4))];
    }
    r := Some(arcs);
  }

  /** Reads the arcs from one package. */
  method ReadDependency(buffer: seq<Byte>, position: nat) returns (r: Option<ExternalDependency>)
    ensures r.Some? ==> DependencyAt(buffer, position, r.value)
    ensures forall d :: DependencyAt(buffer, position, d) ==> r == Some(d)
  {
    if position + 12 > |buffer| {
      return None;
    }
    var count := WordAt(buffer, position + 8, 4);
    var arcs := ReadArcs(buffer, position + 12, count);
    if arcs.None? {
      return None;
    }
    r := Some(ExternalDependency(WordAt(buffer, position, 8), [], arcs.value));
    forall d | DependencyAt(buffer, position, d)
      ensures r == Some(d)
    {
      DependencyUnique(buffer, position, r.value, d);
    }
  }

  /** A longer list continues where a shorter one ends. */
  lemma {:induction false} NextDependency(buffer: seq<Byte>, position: nat, read: seq<ExternalDependency>,
                                          stored: seq<ExternalDependency>)
    returns (d: ExternalDependency)
    requires DependenciesAt(buffer, position, read) && DependenciesAt(buffer, position, stored) && |read| < |stored|
    ensures DependencyAt(buffer, position + StoredSize(read), d)
  {
    var n := |read|;
    DependenciesPrefix(buffer, position, stored, n);
    DependenciesPrefix(buffer, position, stored, n + 1);
    DependenciesUnique(buffer, position, read, stored[..n]);
    assert stored[..n + 1][..n] == stored[..n];
    d := stored[n];
  }

  lemma {:induction false} NothingListed(buffer: seq<Byte>, position: nat, read: seq<ExternalDependency>, next: nat)
    requires position + 4 <= |buffer| && DependenciesAt(buffer, position + 4, read) && |read| < IntAt(buffer, position)
    requires next == position + 4 + StoredSize(read) && forall d :: !DependencyAt(buffer, next, d)
    ensures forall stored :: !SectionAt(buffer, position, stored)
  {
    forall stored
      ensures !SectionAt(buffer, position, stored)
    {
      if SectionAt(buffer, position, stored) {
        var d := NextDependency(buffer, position + 4, read, stored);
      }
    }
  }

  /** Reads the section back. It accepts exactly the sections that list dependencies, and
      returns what they list. */
  method ReadLegacyArcs(buffer: seq<Byte>, position: nat) returns (r: Option<seq<ExternalDependency>>)
    ensures r.Some? ==> SectionAt(buffer, position, r.value)
    ensures forall stored :: SectionAt(buffer, position, stored) ==> r == Some(stored)
  {
    if position + 4 > |buffer| {
      return None;
    }
    var count := IntAt(buffer, position);
    var read, next := [], position + 4;
    while |read| < count
      invariant |read| <= (if count < 0 then 0 else count) && next == position + 4 + StoredSize(read)
      invariant DependenciesAt(buffer, position + 4, read)
    {
      var d := ReadDependency(buffer, next);
      if d.None? {
        NothingListed(buffer, position, read, next);
        return None;
      }
      DependenciesStep(buffer, position + 4, read, d.value);
      read, next := read + [d.value], next + 12 + 8 * |d.value.legacyArcs|;
    }
    r := Some(read);
    forall stored | SectionAt(buffer, position, stored)
      ensures stored == read
    {
      DependenciesUnique(buffer, position + 4, read, stored);
    }
  }
}
