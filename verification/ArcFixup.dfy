/** External arcs of packages from before UE5: written with placeholders, and patched in
    the serialized package once the bundles of all packages are known. */
module ArcFixup {
  import opened Zen
  import opened Sequences
  import opened Bytes
  import opened Bundles
  import opened ArcSection

  // --------------------------------------------------------------------- fix-up

  datatype FixupError = UnknownPlaceholder(id: int) | ExportNotFound(placeholder: Placeholder)

  /** The mappings of the packages that are converted together. */
  type PackageLookup = map<nat, seq<BundleMapping>>

  ghost predicate FirstPlaceholder(placeholders: seq<Placeholder>, id: int, j: nat) {
    && j < |placeholders| && placeholders[j].id == id
    && forall i :: 0 <= i < j ==> placeholders[i].id != id
  }

  ghost predicate FirstMapping(mapping: seq<BundleMapping>, objectId: nat, command: CommandType, j: nat) {
    && j < |mapping| && mapping[j].objectId == objectId && mapping[j].command == command
    && forall i :: 0 <= i < j ==> mapping[i].objectId != objectId || mapping[i].command != command
  }

  ghost predicate MapsTo(mapping: seq<BundleMapping>, objectId: nat, command: CommandType, bundle: int) {
    exists j: nat :: FirstMapping(mapping, objectId, command, j) && mapping[j].bundle == bundle
  }

  /** `value` names the bundle in which package `q` runs a command of its export: the one it
      maps the command to, and -1 when the package is not converted along. */
  ghost predicate NamesBundle(lookup: PackageLookup, q: nat, objectId: nat, command: CommandType, value: int) {
    if q in lookup then MapsTo(lookup[q], objectId, command, value) else value == -1
  }

  /** Package `q` maps the command of the export, unless it is not converted along. */
  ghost predicate ExportKnown(lookup: PackageLookup, q: nat, objectId: nat, command: CommandType) {
    q in lookup ==> exists x :: x in lookup[q] && x.objectId == objectId && x.command == command
  }

  function FindPlaceholder(placeholders: seq<Placeholder>, id: int): (r: Option<nat>)
    ensures r.Some? ==> FirstPlaceholder(placeholders, id, r.value)
    ensures r.None? ==> forall j: nat :: !FirstPlaceholder(placeholders, id, j)
  {
    if placeholders == [] then None
    else if placeholders[0].id == id then Some(0)
    else
      match FindPlaceholder(placeholders[1..], id)
      case Some(j) => Some(j + 1)
      case None =>
        assert forall j: nat :: 0 < j && FirstPlaceholder(placeholders, id, j) ==>
          FirstPlaceholder(placeholders[1..], id, j - 1);
        None
  }

  function FindMapping(mapping: seq<BundleMapping>, objectId: nat, command: CommandType): (r: Option<nat>)
    ensures r.Some? ==> FirstMapping(mapping, objectId, command, r.value)
    ensures r.None? ==> forall x :: x in mapping ==> x.objectId != objectId || x.command != command
  {
    if mapping == [] then None
    else if mapping[0].objectId == objectId && mapping[0].command == command then Some(0)
    else
      match FindMapping(mapping[1..], objectId, command)
      case Some(j) => Some(j + 1)
      case None => None
  }

  /** The bundle an arc comes from: that of the referenced export, or -1 when its package
      is not converted along. */
  function FromBundle(x: Placeholder, lookup: PackageLookup): (r: Result<int, FixupError>)
    ensures r.Ok? <==> ExportKnown(lookup, x.packageId, x.objectId, x.command)
    ensures r.Ok? ==> NamesBundle(lookup, x.packageId, x.objectId, x.command, r.value)
    ensures r.Err? ==> r.error == ExportNotFound(x)
  {
    if x.packageId !in lookup then Ok(-1)
    else
      match FindMapping(lookup[x.packageId], x.objectId, x.command)
      case Some(j) => Ok(lookup[x.packageId][j].bundle)
      case None => Err(ExportNotFound(x))
  }

  /** The placeholder with number `id` stands for a command that its package maps. */
  ghost predicate Resolvable(placeholders: seq<Placeholder>, lookup: PackageLookup, id: int) {
    exists j: nat :: FirstPlaceholder(placeholders, id, j) &&
      ExportKnown(lookup, placeholders[j].packageId, placeholders[j].objectId, placeholders[j].command)
  }

  ghost predicate ResolvesTo(placeholders: seq<Placeholder>, lookup: PackageLookup, id: int, value: int) {
    exists j: nat :: FirstPlaceholder(placeholders, id, j) &&
      NamesBundle(lookup, placeholders[j].packageId, placeholders[j].objectId, placeholders[j].command, value)
  }

  function ResolveArc(placeholders: seq<Placeholder>, lookup: PackageLookup, id: int): (r: Result<int, FixupError>)
    ensures r.Ok? <==> Resolvable(placeholders, lookup, id)
    ensures r.Ok? ==> ResolvesTo(placeholders, lookup, id, r.value)
  {
    match FindPlaceholder(placeholders, id)
    case None => Err(UnknownPlaceholder(id))
    case Some(j) =>
      assert forall k: nat :: FirstPlaceholder(placeholders, id, k) ==> k == j;
      FromBundle(placeholders[j], lookup)
  }

  ghost predicate MappingsFit(lookup: PackageLookup) {
    forall p, x :: p in lookup && x in lookup[p] ==> FitsI32(x.bundle)
  }

  /** The four bytes at each offset lie in the buffer and apart from each other. */
  ghost predicate SlotsApart(offsets: seq<nat>, length: nat) {
    && (forall k :: 0 <= k < |offsets| ==> offsets[k] + 4 <= length)
    && (forall k, l :: 0 <= k < l < |offsets| ==> offsets[k] + 4 <= offsets[l])
  }

  /** Byte `i` belongs to one of the first `n` slots. */
  ghost predicate InSlot(offsets: seq<nat>, n: nat, i: int)
    requires n <= |offsets|
  {
    exists k :: 0 <= k < n && offsets[k] <= i < offsets[k] + 4
  }

  function SlotValue(buffer: seq<Byte>, offset: nat): int
    requires offset + 4 <= |buffer|
  {
    DecodeI32(buffer[offset..offset + 4])
  }

  class ConvertedZenAssetBundle {
    var buffer: seq<Byte>
    const offsets: seq<nat>
    const placeholders: seq<Placeholder>

    constructor (buffer: seq<Byte>, offsets: seq<nat>, placeholders: seq<Placeholder>)
      requires SlotsApart(offsets, |buffer|)
      ensures Valid() && this.buffer == buffer && this.offsets == offsets && this.placeholders == placeholders
    {
      this.buffer, this.offsets, this.placeholders := buffer, offsets, placeholders;
    }

    ghost predicate Valid()
      reads this
    {
      SlotsApart(offsets, |buffer|)
    }

    /** The first `k` slots have been patched, and nothing else has changed. */
    ghost predicate PatchedUpTo(before: seq<Byte>, lookup: PackageLookup, k: nat)
      requires k <= |offsets| && SlotsApart(offsets, |before|)
      reads this
    {
      && |buffer| == |before| && OthersKept(before, buffer, offsets, k)
      && forall j: nat :: j < k ==>
           ResolvesTo(placeholders, lookup, SlotValue(before, offsets[j]), SlotValue(buffer, offsets[j]))
    }

    /** Patches slot `k`. */
    method FixupArc(lookup: PackageLookup, k: nat, ghost before: seq<Byte>) returns (r: Result<(), FixupError>)
      requires Valid() && MappingsFit(lookup) && k < |offsets| && |before| == |buffer|
      requires PatchedUpTo(before, lookup, k)
      modifies this`buffer
      ensures r.Ok? <==> Resolvable(placeholders, lookup, SlotValue(before, offsets[k]))
      ensures |buffer| == |before| && (r.Err? ==> buffer == old(buffer))
      ensures r.Ok? ==> PatchedUpTo(before, lookup, k + 1)
    {
      var offset := offsets[k];
      UntouchedSlot(before, buffer, offsets, k);
      var id := DecodeI32(buffer[offset..offset + 4]);
      var resolved := ResolveArc(placeholders, lookup, id);
      if resolved.Err? {
        return Err(resolved.error);
      }
      ResolvedFits(placeholders, lookup, id, resolved.value);
      I32RoundTrip(resolved.value);
      ghost var now := buffer;
      buffer := WriteAt(buffer, offset, EncodeI32(resolved.value));
      PatchedSlot(before, now, buffer, offsets, k, resolved.value);
      return Ok(());
    }

    /** Replaces every placeholder by the bundle it stands for and changes no other byte.
        It stops at the first arc that cannot be resolved. */
    method FixupLegacyExternalArcs(lookup: PackageLookup) returns (r: Result<(), FixupError>)
      requires Valid() && MappingsFit(lookup)
      modifies this`buffer
      ensures Valid() && |buffer| == |old(buffer)|
      ensures r.Ok? ==> Fixed(old(buffer), buffer, offsets, placeholders, lookup)
      ensures forall i :: 0 <= i < |buffer| && !InSlot(offsets, |offsets|, i) ==> buffer[i] == old(buffer)[i]
      ensures r.Ok? <==> forall k :: 0 <= k < |offsets| ==>
                Resolvable(placeholders, lookup, SlotValue(old(buffer), offsets[k]))
    {
      ghost var before := buffer;
      for k := 0 to |offsets|
        invariant Valid() && |buffer| == |before|
        invariant PatchedUpTo(before, lookup, k)
        invariant forall j :: 0 <= j < k ==> Resolvable(placeholders, lookup, SlotValue(before, offsets[j]))
      {
        var fixed := FixupArc(lookup, k, before);
        if fixed.Err? {
          FewerSlots(before, buffer, offsets, k);
          return fixed;
        }
      }
      return Ok(());
    }
  }

  /** Outside the first `k` slots the buffers agree. */
  ghost predicate OthersKept(before: seq<Byte>, after: seq<Byte>, offsets: seq<nat>, k: nat)
    requires |before| == |after| && k <= |offsets|
  {
    forall i :: 0 <= i < |after| && !InSlot(offsets, k, i) ==> after[i] == before[i]
  }

  lemma {:induction false} FewerSlots(before: seq<Byte>, after: seq<Byte>, offsets: seq<nat>, k: nat)
    requires |before| == |after| && k <= |offsets| && OthersKept(before, after, offsets, k)
    ensures OthersKept(before, after, offsets, |offsets|)
  {
    forall i | 0 <= i < |after| && !InSlot(offsets, |offsets|, i)
      ensures after[i] == before[i]
    {
      assert !InSlot(offsets, k, i);
    }
  }

  lemma {:induction false} UntouchedSlot(original: seq<Byte>, buffer: seq<Byte>, offsets: seq<nat>, k: nat)
    requires |buffer| == |original| && SlotsApart(offsets, |buffer|) && k < |offsets|
    requires OthersKept(original, buffer, offsets, k)
    ensures buffer[offsets[k]..offsets[k] + 4] == original[offsets[k]..offsets[k] + 4]
  {
    forall i | offsets[k] <= i < offsets[k] + 4
      ensures buffer[i] == original[i]
    {
      assert !InSlot(offsets, k, i);
    }
  }

  lemma {:induction false} ResolvedFits(placeholders: seq<Placeholder>, lookup: PackageLookup, id: int, value: int)
    requires MappingsFit(lookup) && ResolvesTo(placeholders, lookup, id, value)
    ensures FitsI32(value)
  {
  }

  /** Patching one slot leaves the bytes outside it alone. */
  lemma {:induction false} PatchedSlot(before: seq<Byte>, now: seq<Byte>, after: seq<Byte>, offsets: seq<nat>, k: nat,
                                       v: int)
    requires |now| == |before| && SlotsApart(offsets, |before|) && k < |offsets| && FitsI32(v)
    requires OthersKept(before, now, offsets, k) && after == WriteAt(now, offsets[k], EncodeI32(v))
    ensures |after| == |before| && OthersKept(before, after, offsets, k + 1)
    ensures after[offsets[k]..offsets[k] + 4] == EncodeI32(v)
    ensures forall j :: 0 <= j < k ==> after[offsets[j]..offsets[j] + 4] == now[offsets[j]..offsets[j] + 4]
  {
    forall i | 0 <= i < |after| && !InSlot(offsets, k + 1, i)
      ensures after[i] == before[i]
    {
      assert !(offsets[k] <= i < offsets[k] + 4) && !InSlot(offsets, k, i);
    }
  }

  // ------------------------------------------- what the patched arcs stand for

  lemma {:induction false} PlaceholderArcsAscend(visits: seq<Visit>, imports: seq<Option<ImportTarget>>,
                                                 packages: seq<nat>, p: nat, i: nat, j: nat)
    requires SlotsInRange(imports, packages)
    requires i < j < |PlaceholderArcs(visits, imports, packages, p)|
    ensures PlaceholderArcs(visits, imports, packages, p)[i].fromBundle <
              PlaceholderArcs(visits, imports, packages, p)[j].fromBundle
  {
    var rest := visits[..|visits| - 1];
    var arcs := PlaceholderArcs(rest, imports, packages, p);
    if j < |arcs| {
      PlaceholderArcsAscend(rest, imports, packages, p, i, j);
    } else {
      PlaceholderArcsAreNumbered(rest, imports, packages, p, arcs[i]);
    }
  }

  /** The external dependencies of a package whose arcs are placeholders. */
  ghost predicate HoldPlaceholders(deps: seq<ExternalDependency>, visits: seq<Visit>,
                                   imports: seq<Option<ImportTarget>>, packages: seq<nat>)
  {
    && SlotsInRange(imports, packages) && |deps| == |packages| && Distinct(packages)
    && forall p :: 0 <= p < |packages| ==> deps[p].legacyArcs == PlaceholderArcs(visits, imports, packages, p)
  }

  lemma {:induction false} SerializedFrom(deps: seq<ExternalDependency>, a: InternalArc) returns (p: nat)
    requires a in SerializedArcs(deps)
    ensures p < |deps| && a in deps[p].legacyArcs
  {
    var n := |deps| - 1;
    if a in SerializedArcs(deps[..n]) {
      p := SerializedFrom(deps[..n], a);
    } else {
      p := n;
    }
  }

  lemma {:induction false} SerializedContains(deps: seq<ExternalDependency>, p: nat, a: InternalArc)
    requires p < |deps| && a in deps[p].legacyArcs
    ensures a in SerializedArcs(deps)
  {
    if p < |deps| - 1 {
      SerializedContains(deps[..|deps| - 1], p, a);
    }
  }

  ghost predicate HasArcFrom(arcs: seq<InternalArc>, id: int) {
    exists a :: a in arcs && a.fromBundle == id
  }

  /** The placeholder numbers in the serialized arcs are pairwise distinct and exhaust the
      placeholders of the package. */
  lemma {:induction false} PlaceholdersBijectWithArcs(deps: seq<ExternalDependency>, visits: seq<Visit>,
                                                      imports: seq<Option<ImportTarget>>, packages: seq<nat>)
    requires HoldPlaceholders(deps, visits, imports, packages)
    ensures forall i, j :: 0 <= i < j < |SerializedArcs(deps)| ==>
              SerializedArcs(deps)[i].fromBundle != SerializedArcs(deps)[j].fromBundle
    ensures forall id :: HasArcFrom(SerializedArcs(deps), id) <==> 0 <= id < |PlaceholdersOf(visits, imports, packages)|
  {
    assert deps[..|deps|] == deps;
    forall i, j | 0 <= i < j < |SerializedArcs(deps)|
      ensures SerializedArcs(deps)[i].fromBundle != SerializedArcs(deps)[j].fromBundle
    {
      DistinctPlaceholders(deps, visits, imports, packages, |deps|, i, j);
    }
    forall id
      ensures HasArcFrom(SerializedArcs(deps), id) <==> 0 <= id < |PlaceholdersOf(visits, imports, packages)|
    {
      if 0 <= id < |PlaceholdersOf(visits, imports, packages)| {
        var p, a := PlaceholderHasArc(visits, imports, packages, id);
        SerializedContains(deps, p, a);
      }
      if HasArcFrom(SerializedArcs(deps), id) {
        var a :| a in SerializedArcs(deps) && a.fromBundle == id;
        var p := SerializedFrom(deps, a);
        PlaceholderArcsAreNumbered(visits, imports, packages, p, a);
      }
    }
  }

  lemma {:induction false} DistinctPlaceholders(deps: seq<ExternalDependency>, visits: seq<Visit>,
                                                imports: seq<Option<ImportTarget>>, packages: seq<nat>, n: nat,
                                                i: nat, j: nat)
    requires HoldPlaceholders(deps, visits, imports, packages) && n <= |deps|
    requires i < j < |SerializedArcs(deps[..n])|
    ensures SerializedArcs(deps[..n])[i].fromBundle != SerializedArcs(deps[..n])[j].fromBundle
  {
    var m := n - 1;
    assert deps[..n][..m] == deps[..m] && deps[..n][m] == deps[m];
    var before := SerializedArcs(deps[..m]);
    var own := PlaceholderArcs(visits, imports, packages, m);
    if j < |before| {
      DistinctPlaceholders(deps, visits, imports, packages, m, i, j);
    } else if i >= |before| {
      PlaceholderArcsAscend(visits, imports, packages, m, i - |before|, j - |before|);
    } else {
      var a, b := before[i], own[j - |before|];
      var p := SerializedFrom(deps[..m], a);
      var v := ArcHasDependency(visits, imports, packages, p, a);
      var w := ArcHasDependency(visits, imports, packages, m, b);
      assert packages[p] != packages[m];
    }
  }

  /** Arc `k` of the patched buffer leads from the bundle in which the other package
      provides what `v` depends on to the bundle that needs it. */
  ghost predicate ServesDependency(buffer: seq<Byte>, offset: nat, v: Visit, imports: seq<Option<ImportTarget>>,
                                   packages: seq<nat>, p: nat, lookup: PackageLookup)
    requires p < |packages| && TargetOf(imports, v.node).Some?
  {
    && offset + 8 <= |buffer|
    && NamesBundle(lookup, packages[p], TargetOf(imports, v.node).value.objectId, v.node.command,
                   SlotValue(buffer, offset))
    && SlotValue(buffer, offset + 4) == v.to
  }

  ghost predicate ServesSomeDependency(buffer: seq<Byte>, offset: nat, visits: seq<Visit>,
                                       imports: seq<Option<ImportTarget>>, packages: seq<nat>, lookup: PackageLookup)
  {
    exists v, p: nat :: v in visits && p < |packages| && Reaches(v, imports, p) &&
      ServesDependency(buffer, offset, v, imports, packages, p, lookup)
  }

  /** Every dependency on another package has an arc, and every arc serves such a
      dependency. */
  ghost predicate ServedByArcs(buffer: seq<Byte>, offsets: seq<nat>, visits: seq<Visit>,
                               imports: seq<Option<ImportTarget>>, packages: seq<nat>, lookup: PackageLookup)
  {
    && (forall v, p: nat :: v in visits && p < |packages| && Reaches(v, imports, p) ==>
          exists k :: 0 <= k < |offsets| && ServesDependency(buffer, offsets[k], v, imports, packages, p, lookup))
    && (forall k :: 0 <= k < |offsets| ==> ServesSomeDependency(buffer, offsets[k], visits, imports, packages, lookup))
  }

  /** What the fix-up of a serialized package leaves behind. */
  ghost predicate Fixed(before: seq<Byte>, after: seq<Byte>, offsets: seq<nat>, placeholders: seq<Placeholder>,
                        lookup: PackageLookup)
  {
    && |after| == |before| && SlotsApart(offsets, |after|)
    && OthersKept(before, after, offsets, |offsets|)
    && (forall k :: 0 <= k < |offsets| ==>
          ResolvesTo(placeholders, lookup, SlotValue(before, offsets[k]), SlotValue(after, offsets[k])))
  }

  lemma {:induction false} FindNumbered(placeholders: seq<Placeholder>, id: nat)
    requires forall k :: 0 <= k < |placeholders| ==> placeholders[k].id == k
    requires id < |placeholders|
    ensures forall j: nat :: FirstPlaceholder(placeholders, id, j) <==> j == id
  {
  }

  /** In a successfully patched package every dependency on another package is served by
      an arc, and every arc serves such a dependency. */
  lemma {:induction false} FixedArcsServeDependencies(before: seq<Byte>, after: seq<Byte>, offsets: seq<nat>,
                                                      deps: seq<ExternalDependency>, visits: seq<Visit>,
                                                      imports: seq<Option<ImportTarget>>, packages: seq<nat>,
                                                      lookup: PackageLookup)
    requires HoldPlaceholders(deps, visits, imports, packages)
    requires ArcsAt(before, SerializedArcs(deps), offsets)
    requires Fixed(before, after, offsets, PlaceholdersOf(visits, imports, packages), lookup)
    ensures ServedByArcs(after, offsets, visits, imports, packages, lookup)
  {
    var arcs := SerializedArcs(deps);
    forall v, p: nat | v in visits && p < |packages| && Reaches(v, imports, p)
      ensures exists k :: 0 <= k < |offsets| && ServesDependency(after, offsets[k], v, imports, packages, p, lookup)
    {
      var a := DependencyHasArc(visits, imports, packages, p, v);
      SerializedContains(deps, p, a);
      var k :| 0 <= k < |arcs| && arcs[k] == a;
      FixedArcServes(before, after, offsets, arcs, visits, imports, packages, lookup, k, v, p);
    }
    forall k | 0 <= k < |offsets|
      ensures ServesSomeDependency(after, offsets[k], visits, imports, packages, lookup)
    {
      var p := SerializedFrom(deps, arcs[k]);
      var v := ArcHasDependency(visits, imports, packages, p, arcs[k]);
      FixedArcServes(before, after, offsets, arcs, visits, imports, packages, lookup, k, v, p);
    }
  }

  lemma {:induction false} FixedArcServes(before: seq<Byte>, after: seq<Byte>, offsets: seq<nat>,
                                          arcs: seq<InternalArc>, visits: seq<Visit>,
                                          imports: seq<Option<ImportTarget>>, packages: seq<nat>,
                                          lookup: PackageLookup, k: nat, v: Visit, p: nat)
    requires SlotsInRange(imports, packages) && p < |packages| && ArcsAt(before, arcs, offsets) && k < |arcs|
    requires Fixed(before, after, offsets, PlaceholdersOf(visits, imports, packages), lookup)
    requires 0 <= arcs[k].fromBundle < |PlaceholdersOf(visits, imports, packages)|
    requires MadeFor(PlaceholdersOf(visits, imports, packages)[arcs[k].fromBundle], arcs[k], v, imports, packages, p)
    ensures ServesDependency(after, offsets[k], v, imports, packages, p, lookup)
  {
    var placeholders := PlaceholdersOf(visits, imports, packages);
    var id, offset := arcs[k].fromBundle, offsets[k];
    forall i | 0 <= i < |placeholders|
      ensures placeholders[i].id == i
    {
      PlaceholdersNumbered(visits, imports, packages, i);
    }
    FindNumbered(placeholders, id);
    assert ArcAt(before, arcs[k], offset);
    I32RoundTrip(id);
    I32RoundTrip(v.to);
    assert SlotValue(before, offset) == id && ResolvesTo(placeholders, lookup, id, SlotValue(after, offset));
    assert after[offset + 4..offset + 8] == before[offset + 4..offset + 8] by {
      forall i | offset + 4 <= i < offset + 8
        ensures after[i] == before[i]
      {
        assert !InSlot(offsets, |offsets|, i);
      }
    }
  }

  // --------------------------------------------- where the mappings come from

  /** The bundles of the package that built a mapping, and its public exports. */
  datatype Provider = Provider(
    headers: seq<BundleHeader>, entries: seq<BundleEntry>, isPublic: seq<bool>, publicIds: seq<nat>) {

    ghost predicate Describes(mapping: seq<BundleMapping>) {
      && |publicIds| == |isPublic| && InRange(entries, |isPublic|)
      && MapsPublicExports(mapping, headers, entries, isPublic, publicIds)
    }

    /** Entry `i` lies in bundle `b` and is the command of a public export with that id. */
    ghost predicate Runs(b: int, i: int, objectId: nat, command: CommandType) {
      && 0 <= b < |headers| && 0 <= i < |entries|
      && headers[b].firstEntry <= i < headers[b].firstEntry + headers[b].entryCount
      && entries[i].command == command && entries[i].exportIndex < |isPublic| && entries[i].exportIndex < |publicIds|
      && isPublic[entries[i].exportIndex] && publicIds[entries[i].exportIndex] == objectId
    }
  }

  /** What a mapping names is a bundle of the package that built it, and this bundle holds
      the command of the export. */
  lemma {:induction false} MappedBundleRuns(x: Provider, mapping: seq<BundleMapping>, objectId: nat,
                                            command: CommandType, bundle: int)
    requires x.Describes(mapping) && MapsTo(mapping, objectId, command, bundle)
    ensures exists i :: x.Runs(bundle, i, objectId, command)
  {
    var y := BundleMapping(objectId, command, bundle);
    var j: nat :| FirstMapping(mapping, objectId, command, j) && mapping[j].bundle == bundle;
    assert y == mapping[j] && y in mapping;
    var b, i :| InBundle(x.headers, b, i) && i < |x.entries| &&
      PublicMapping(x.entries[i], b, x.isPublic, x.publicIds, y);
    assert x.Runs(bundle, i, objectId, command);
  }

  /** The mapping of a package leads to the bundle that holds the command of the export. */
  lemma {:induction false} MappingFindsBundle(mapping: seq<BundleMapping>, headers: seq<BundleHeader>,
                                              entries: seq<BundleEntry>, isPublic: seq<bool>, publicIds: seq<nat>,
                                              e: nat, command: CommandType, b: int, i: nat)
    requires |publicIds| == |isPublic| && InRange(entries, |isPublic|) && Tiles(headers, |entries|) && Distinct(entries)
    requires MapsPublicExports(mapping, headers, entries, isPublic, publicIds)
    requires forall x, y :: 0 <= x < y < |publicIds| && isPublic[x] && isPublic[y] ==> publicIds[x] != publicIds[y]
    requires i < |entries| && entries[i] == BundleEntry(e, command) && isPublic[e] && InBundle(headers, b, i)
    ensures MapsTo(mapping, publicIds[e], command, b)
  {
    var x := BundleMapping(publicIds[e], command, b);
    assert PublicMapping(entries[i], b, isPublic, publicIds, x);
    assert x in mapping;
    var found := FindMapping(mapping, publicIds[e], command);
    var y := mapping[found.value];
    assert y in mapping;
    var c, j :| InBundle(headers, c, j) && j < |entries| && PublicMapping(entries[j], c, isPublic, publicIds, y);
    assert entries[j] == entries[i];
    TilesPartition(headers, |entries|, i);
  }
}
