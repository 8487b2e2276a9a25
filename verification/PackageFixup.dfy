/** From the dependencies of a package from before UE5 to its patched arcs: building,
    serializing and fixing up, in the order in which the converter runs them. */
module PackageFixup {
  import opened Zen
  import opened LoadOrder
  import opened Sequences
  import opened PreloadGraph
  import opened Bytes
  import opened Bundles
  import opened ArcSection
  import opened ArcFixup
  import opened PatchedSection

  // ------------------------------------------------------ everything fits its field

  /** How many dependencies the commands of the exports have: those the preload list holds,
      and every Serialize waits for its Create. */
  function DependencyCount(exports: seq<ObjectExport>): nat {
    if exports == [] then 0
    else
      var ex := exports[|exports| - 1];
      DependencyCount(exports[..|exports| - 1]) + 1 +
      if ex.firstDependency == -1 then 0
      else ex.serializeBeforeSerialize + ex.createBeforeSerialize + ex.serializeBeforeCreate + ex.createBeforeCreate
  }

  lemma {:induction false} CommandCount(ex: ObjectExport, preload: seq<PackageIndex>, e: nat)
    requires InBounds(ex, preload)
    ensures |DependenciesOf(e, Create, Listed(ex, preload))| + |DependenciesOf(e, Serialize, Listed(ex, preload))| ==
            DependencyCount([ex])
  {
    assert [ex][..0] == [];
  }

  lemma {:induction false} CountStep(exports: seq<ObjectExport>, n: nat)
    requires n < |exports|
    ensures DependencyCount(exports[..n + 1]) == DependencyCount(exports[..n]) + DependencyCount([exports[n]])
  {
    assert exports[..n + 1][..n] == exports[..n] && [exports[n]][..0] == [];
  }

  lemma {:induction false} DescribesCommand(m: DependencyMap, exports: seq<ObjectExport>, preload: seq<PackageIndex>,
                                            e: nat, c: CommandType)
    requires forall e :: 0 <= e < |exports| ==> InBounds(exports[e], preload)
    requires DescribesExports(m, AllListed(exports, preload)) && e < |exports|
    ensures ExportNode(e, c) in m && m[ExportNode(e, c)] == DependenciesOf(e, c, Listed(exports[e], preload))
  {
    assert AllListed(exports, preload)[e] == Listed(exports[e], preload);
  }

  ghost predicate CommandsCount(m: DependencyMap, ex: ObjectExport, e: nat)
    requires ExportNode(e, Create) in m && ExportNode(e, Serialize) in m
  {
    |m[ExportNode(e, Create)]| + |m[ExportNode(e, Serialize)]| == DependencyCount([ex])
  }

  lemma {:induction false} VisitsSum(m: DependencyMap, bundleOf: map<DependencyNode, nat>, exports: seq<ObjectExport>,
                                     n: nat)
    requires Covers(m, bundleOf, n) && n <= |exports|
    requires forall e: nat {:trigger CommandsCount(m, exports[e], e)} :: e < n ==> CommandsCount(m, exports[e], e)
    ensures |AllVisits(m, bundleOf, n)| == DependencyCount(exports[..n])
  {
    if n > 0 {
      VisitsSum(m, bundleOf, exports, n - 1);
      assert CommandsCount(m, exports[n - 1], n - 1);
      CountStep(exports, n - 1);
    }
  }

  /** The preload list says how many dependencies are visited. */
  lemma {:induction false} VisitCount(m: DependencyMap, bundleOf: map<DependencyNode, nat>, exports: seq<ObjectExport>,
                                      preload: seq<PackageIndex>)
    requires forall e :: 0 <= e < |exports| ==> InBounds(exports[e], preload)
    requires DescribesExports(m, AllListed(exports, preload)) && Covers(m, bundleOf, |exports|)
    ensures |AllVisits(m, bundleOf, |exports|)| == DependencyCount(exports)
  {
    forall e: nat | e < |exports|
      ensures CommandsCount(m, exports[e], e)
    {
      DescribesCommand(m, exports, preload, e, Create);
      DescribesCommand(m, exports, preload, e, Serialize);
      CommandCount(exports[e], preload, e);
    }
    VisitsSum(m, bundleOf, exports, |exports|);
    assert exports[..|exports|] == exports;
  }

  lemma {:induction false} BundleBeforeEntry(headers: seq<BundleHeader>, n: nat, b: nat)
    requires Tiles(headers, n) && b < |headers|
    ensures b <= headers[b].firstEntry
  {
    assert headers[b].firstEntry == StartOf(headers, b);
    if b > 0 {
      BundleBeforeEntry(headers, n, b - 1);
    }
  }

  lemma {:induction false} VisitBound(g: Graph, m: DependencyMap, isPublic: seq<bool>, sizes: seq<nat>,
                                      order: seq<GraphNode>, headers: seq<BundleHeader>, entries: seq<BundleEntry>,
                                      bundleOf: map<DependencyNode, nat>, arcs: seq<InternalArc>, v: Visit)
    requires SortedPackage(g, m, isPublic, sizes, order, headers, entries, bundleOf, arcs)
    requires v in AllVisits(m, bundleOf, |isPublic|)
    ensures 0 <= v.to < 2 * |isPublic|
  {
    var e, c := AllVisitsSound(m, bundleOf, |isPublic|, v);
    var i := LocatedEntry(g, m, isPublic, sizes, order, headers, entries, bundleOf, arcs, ExportNode(e, c));
    BundleBeforeEntry(headers, |entries|, bundleOf[ExportNode(e, c)]);
  }

  lemma {:induction false} ArcsFollowVisits(visits: seq<Visit>, imports: seq<Option<ImportTarget>>,
                                            packages: seq<nat>, p: nat)
    requires SlotsInRange(imports, packages)
    ensures |PlaceholdersOf(visits, imports, packages)| <= |visits| &&
              |PlaceholderArcs(visits, imports, packages, p)| <= |visits|
  {
    if visits != [] {
      ArcsFollowVisits(visits[..|visits| - 1], imports, packages, p);
    }
  }

  lemma {:induction false} PlaceholdersFit(visits: seq<Visit>, imports: seq<Option<ImportTarget>>, packages: seq<nat>,
                                           p: nat)
    requires SlotsInRange(imports, packages) && p < |packages| && |visits| < 0x8000_0000
    requires forall v :: v in visits ==> FitsI32(v.to)
    ensures |PlaceholderArcs(visits, imports, packages, p)| < 0x8000_0000
    ensures forall a :: a in PlaceholderArcs(visits, imports, packages, p) ==> ArcFits(a)
  {
    ArcsFollowVisits(visits, imports, packages, p);
    forall a | a in PlaceholderArcs(visits, imports, packages, p)
      ensures ArcFits(a)
    {
      var v := ArcHasDependency(visits, imports, packages, p, a);
    }
  }

  /** What a package may hold so that everything fits its field. */
  ghost predicate FieldsFit(exports: seq<ObjectExport>, packages: seq<nat>) {
    && 2 * |exports| <= 0x8000_0000 && DependencyCount(exports) < 0x8000_0000 && |packages| < 0x8000_0000
    && forall p :: 0 <= p < |packages| ==> packages[p] < Pow256(8)
  }

  lemma {:induction false} BuiltFits(deps: seq<ExternalDependency>, visits: seq<Visit>,
                                     imports: seq<Option<ImportTarget>>, packages: seq<nat>)
    requires HoldPlaceholders(deps, visits, imports, packages) && |packages| < 0x8000_0000 && |visits| < 0x8000_0000
    requires forall p :: 0 <= p < |packages| ==> deps[p].packageId < Pow256(8)
    requires forall v :: v in visits ==> FitsI32(v.to)
    ensures DependenciesFit(deps)
  {
    forall p | 0 <= p < |deps|
      ensures DependencyFits(deps[p])
    {
      PlaceholdersFit(visits, imports, packages, p);
    }
  }

  // ---------------------------------------------------------- when the fix-up succeeds

  /** The package that `v` depends on is converted along and knows the export, or it is
      not converted. */
  ghost predicate ProviderKnown(v: Visit, imports: seq<Option<ImportTarget>>, packages: seq<nat>, lookup: PackageLookup)
    requires SlotsInRange(imports, packages)
  {
    match TargetOf(imports, v.node)
    case None => true
    case Some(t) => ExportKnown(lookup, packages[t.slot], t.objectId, v.node.command)
  }

  lemma {:induction false} ArcResolvesIff(visits: seq<Visit>, imports: seq<Option<ImportTarget>>, packages: seq<nat>,
                                          lookup: PackageLookup, p: nat, a: InternalArc, v: Visit)
    requires SlotsInRange(imports, packages) && p < |packages|
    requires 0 <= a.fromBundle < |PlaceholdersOf(visits, imports, packages)|
    requires MadeFor(PlaceholdersOf(visits, imports, packages)[a.fromBundle], a, v, imports, packages, p)
    ensures Resolvable(PlaceholdersOf(visits, imports, packages), lookup, a.fromBundle) <==>
            ProviderKnown(v, imports, packages, lookup)
  {
    var placeholders := PlaceholdersOf(visits, imports, packages);
    forall i | 0 <= i < |placeholders|
      ensures placeholders[i].id == i
    {
      PlaceholdersNumbered(visits, imports, packages, i);
    }
    FindNumbered(placeholders, a.fromBundle);
  }

  ghost predicate AllProvidersKnown(visits: seq<Visit>, imports: seq<Option<ImportTarget>>, packages: seq<nat>,
                                    lookup: PackageLookup)
    requires SlotsInRange(imports, packages)
  {
    forall v :: v in visits ==> ProviderKnown(v, imports, packages, lookup)
  }

  ghost predicate AllArcsResolve(buffer: seq<Byte>, offsets: seq<nat>, placeholders: seq<Placeholder>,
                                 lookup: PackageLookup)
    requires SlotsApart(offsets, |buffer|)
  {
    forall k :: 0 <= k < |offsets| ==> Resolvable(placeholders, lookup, SlotValue(buffer, offsets[k]))
  }

  lemma {:induction false} SlotHoldsPlaceholder(buffer: seq<Byte>, arcs: seq<InternalArc>, offsets: seq<nat>, k: nat)
    requires ArcsAt(buffer, arcs, offsets) && k < |arcs|
    ensures offsets[k] + 4 <= |buffer| && SlotValue(buffer, offsets[k]) == arcs[k].fromBundle
  {
    assert ArcAt(buffer, arcs[k], offsets[k]);
    I32RoundTrip(arcs[k].fromBundle);
  }

  lemma {:induction false} ArcsAreApart(buffer: seq<Byte>, arcs: seq<InternalArc>, offsets: seq<nat>)
    requires ArcsAt(buffer, arcs, offsets)
    ensures SlotsApart(offsets, |buffer|)
  {
    forall k | 0 <= k < |offsets|
      ensures offsets[k] + 4 <= |buffer|
    {
      SlotHoldsPlaceholder(buffer, arcs, offsets, k);
    }
  }

  /** All arcs resolve exactly when every other package that is converted along knows the
      exports this one depends on. */
  lemma {:induction false} ArcsResolveIff(buffer: seq<Byte>, offsets: seq<nat>, deps: seq<ExternalDependency>,
                                          visits: seq<Visit>, imports: seq<Option<ImportTarget>>, packages: seq<nat>,
                                          lookup: PackageLookup)
    requires HoldPlaceholders(deps, visits, imports, packages) && ArcsAt(buffer, SerializedArcs(deps), offsets)
    requires SlotsApart(offsets, |buffer|)
    ensures AllArcsResolve(buffer, offsets, PlaceholdersOf(visits, imports, packages), lookup) <==>
            AllProvidersKnown(visits, imports, packages, lookup)
  {
    var arcs, placeholders := SerializedArcs(deps), PlaceholdersOf(visits, imports, packages);
    if AllProvidersKnown(visits, imports, packages, lookup) {
      forall k | 0 <= k < |offsets|
        ensures Resolvable(placeholders, lookup, SlotValue(buffer, offsets[k]))
      {
        SlotHoldsPlaceholder(buffer, arcs, offsets, k);
        var p := SerializedFrom(deps, arcs[k]);
        var v := ArcHasDependency(visits, imports, packages, p, arcs[k]);
        ArcResolvesIff(visits, imports, packages, lookup, p, arcs[k], v);
      }
    }
    if AllArcsResolve(buffer, offsets, placeholders, lookup) {
      forall v | v in visits
        ensures ProviderKnown(v, imports, packages, lookup)
      {
        if TargetOf(imports, v.node).Some? {
          var p := TargetOf(imports, v.node).value.slot;
          var a := DependencyHasArc(visits, imports, packages, p, v);
          SerializedContains(deps, p, a);
          var k :| 0 <= k < |arcs| && arcs[k] == a;
          SlotHoldsPlaceholder(buffer, arcs, offsets, k);
          ArcResolvesIff(visits, imports, packages, lookup, p, a, v);
        }
      }
    }
  }

  // -------------------------------------------------------------- the whole way

  /** The package is serialized and waits for its arcs to be patched. */
  ghost predicate AwaitsFixup(bundle: ConvertedZenAssetBundle, deps: seq<ExternalDependency>, visits: seq<Visit>,
                              imports: seq<Option<ImportTarget>>, packages: seq<nat>)
    reads bundle
  {
    && HoldPlaceholders(deps, visits, imports, packages)
    && bundle.Valid() && bundle.placeholders == PlaceholdersOf(visits, imports, packages)
    && ArcsAt(bundle.buffer, SerializedArcs(deps), bundle.offsets)
  }

  lemma {:induction false} ArcsHoldPlaceholders(b: ZenPackageBuilder, bundleOf: map<DependencyNode, nat>)
    requires b.Consistent() && b.ArcsOf(bundleOf) && b.legacy && b.fixup && Distinct(b.importedPackages)
    ensures HoldPlaceholders(b.externalDependencies, b.visits, b.imports, b.importedPackages)
    ensures b.placeholders == PlaceholdersOf(b.visits, b.imports, b.importedPackages)
    ensures forall p :: 0 <= p < |b.importedPackages| ==> b.externalDependencies[p].packageId == b.importedPackages[p]
  {
    forall p | 0 <= p < |b.importedPackages|
      ensures b.externalDependencies[p].legacyArcs == PlaceholderArcs(b.visits, b.imports, b.importedPackages, p)
    {
      assert DependencyOf(b.externalDependencies[p], b.visits, b.imports, b.importedPackages, p, true, true);
    }
  }

  lemma {:induction false} VisitsFit(g: Graph, m: DependencyMap, isPublic: seq<bool>, sizes: seq<nat>,
                                     order: seq<GraphNode>, headers: seq<BundleHeader>, entries: seq<BundleEntry>,
                                     bundleOf: map<DependencyNode, nat>, arcs: seq<InternalArc>, visits: seq<Visit>)
    requires SortedPackage(g, m, isPublic, sizes, order, headers, entries, bundleOf, arcs)
    requires visits == AllVisits(m, bundleOf, |isPublic|) && 2 * |isPublic| <= 0x8000_0000
    ensures forall v :: v in visits ==> FitsI32(v.to)
  {
    forall v | v in visits
      ensures FitsI32(v.to)
    {
      VisitBound(g, m, isPublic, sizes, order, headers, entries, bundleOf, arcs, v);
    }
  }

  lemma {:induction false} BuiltHoldsPlaceholders(b: ZenPackageBuilder, m: DependencyMap, g: Graph,
                                                  order: seq<GraphNode>, bundleOf: map<DependencyNode, nat>,
                                                  exports: seq<ObjectExport>, preload: seq<PackageIndex>)
    requires b.Consistent() && b.Built(m, g, order, bundleOf) && b.legacy && b.fixup
    requires |exports| == |b.isPublic| && forall e :: 0 <= e < |exports| ==> InBounds(exports[e], preload)
    requires DescribesExports(m, AllListed(exports, preload))
    requires Distinct(b.importedPackages) && FieldsFit(exports, b.importedPackages)
    ensures HoldPlaceholders(b.externalDependencies, b.visits, b.imports, b.importedPackages)
    ensures b.placeholders == PlaceholdersOf(b.visits, b.imports, b.importedPackages)
    ensures DependenciesFit(b.externalDependencies)
  {
    ArcsHoldPlaceholders(b, bundleOf);
    VisitCount(m, bundleOf, exports, preload);
    VisitsFit(g, m, b.isPublic, b.sizes, order, b.headers, b.entries, bundleOf, b.internalArcs, b.visits);
    BuiltFits(b.externalDependencies, b.visits, b.imports, b.importedPackages);
  }

  /** Writes the arcs of a package between the rest of its data. */
  method SerializePackage(deps: seq<ExternalDependency>, placeholders: seq<Placeholder>, front: seq<Byte>,
                          rest: seq<Byte>)
    returns (bundle: ConvertedZenAssetBundle)
    requires DependenciesFit(deps)
    ensures fresh(bundle) && bundle.Valid() && bundle.placeholders == placeholders
    ensures ArcsAt(bundle.buffer, SerializedArcs(deps), bundle.offsets)
    ensures SectionAt(bundle.buffer, |front|, Stored(deps)) && bundle.offsets == ArcPlaces(|front| + 4, Stored(deps))
  {
    var buffer, offsets := SerializeLegacyArcs(front, deps);
    ArcsAtExtend(buffer, rest, SerializedArcs(deps), offsets);
    SectionStays(buffer, buffer + rest, |front|, Stored(deps));
    ArcsAreApart(buffer + rest, SerializedArcs(deps), offsets);
    bundle := new ConvertedZenAssetBundle(buffer + rest, offsets, placeholders);
  }

  /** Builds the dependencies of a package and serializes its arcs. */
  method ConvertPackage(b: ZenPackageBuilder, exports: seq<ObjectExport>, preload: seq<PackageIndex>,
                        front: seq<Byte>, rest: seq<Byte>)
    returns (ghost m: DependencyMap, ghost g: Graph, r: Result<seq<GraphNode>, SortError>,
             ghost bundleOf: map<DependencyNode, nat>, bundle: Option<ConvertedZenAssetBundle>)
    requires b.Consistent() && b.Empty() && b.legacy && b.fixup && |b.isPublic| == |exports|
    requires ReferencesResolve(exports, preload, |b.imports|)
    requires Distinct(b.importedPackages) && FieldsFit(exports, b.importedPackages)
    modifies b
    ensures forall e :: 0 <= e < |exports| ==> InBounds(exports[e], preload)
    ensures DescribesExports(m, AllListed(exports, preload))
    ensures WellFormed(g) && Represents(g, m, b.isPublic) && SortOutcome(g, r)
    ensures bundle.Some? <==> r.Ok?
    ensures r.Ok? ==> b.Built(m, g, r.value, bundleOf) && b.ServesAll(m, bundleOf) && fresh(bundle.value)
    ensures r.Ok? ==> Provider(b.headers, b.entries, b.isPublic, b.publicIds).Describes(b.mapping)
    ensures r.Ok? ==> AwaitsFixup(bundle.value, b.externalDependencies, b.visits, b.imports, b.importedPackages)
    ensures r.Ok? ==> SectionAt(bundle.value.buffer, |front|, Stored(b.externalDependencies))
    ensures r.Ok? ==> bundle.value.offsets == ArcPlaces(|front| + 4, Stored(b.externalDependencies))
  {
    var map0;
    map0, g, r, bundleOf := BuildPreloadDependencies(b, exports, preload);
    m, bundle := map0, None;
    if r.Ok? {
      BuiltHoldsPlaceholders(b, m, g, r.value, bundleOf, exports, preload);
      var serialized := SerializePackage(b.externalDependencies, b.placeholders, front, rest);
      bundle := Some(serialized);
    }
  }

  /** Patches the arcs of a serialized package. It succeeds exactly when the packages that
      are converted along know the exports this one depends on; then every dependency on
      another package is served by an arc, and every arc serves such a dependency. */
  method FixupPackage(bundle: ConvertedZenAssetBundle, ghost deps: seq<ExternalDependency>, ghost visits: seq<Visit>,
                      ghost imports: seq<Option<ImportTarget>>, ghost packages: seq<nat>, lookup: PackageLookup)
    returns (r: Result<(), FixupError>)
    requires AwaitsFixup(bundle, deps, visits, imports, packages) && MappingsFit(lookup)
    modifies bundle`buffer
    ensures bundle.Valid() && |bundle.buffer| == |old(bundle.buffer)|
    ensures r.Ok? <==> AllProvidersKnown(visits, imports, packages, lookup)
    ensures r.Ok? ==> Fixed(old(bundle.buffer), bundle.buffer, bundle.offsets, bundle.placeholders, lookup)
    ensures r.Ok? ==> ServedByArcs(bundle.buffer, bundle.offsets, visits, imports, packages, lookup)
  {
    ghost var before := bundle.buffer;
    ArcsResolveIff(before, bundle.offsets, deps, visits, imports, packages, lookup);
    r := bundle.FixupLegacyExternalArcs(lookup);
    if r.Ok? {
      FixedArcsServeDependencies(before, bundle.buffer, bundle.offsets, deps, visits, imports, packages, lookup);
    }
  }

  /** The arc is what a dependency on a command of an object of package `q` calls for. Where
      the package that built the mapping of `q` is known, the arc comes from its bundle that
      holds the command. */
  ghost predicate ArcServes(a: InternalArc, lookup: PackageLookup, q: nat, objectId: nat, command: CommandType,
                            to: int)
  {
    && NamesBundle(lookup, q, objectId, command, a.fromBundle)
    && (q in lookup ==> forall x: Provider {:trigger x.Describes(lookup[q])} :: x.Describes(lookup[q]) ==>
          exists i :: x.Runs(a.fromBundle, i, objectId, command))
    && a.toBundle == to
  }

  /** The arc is listed among those from package `q`. */
  ghost predicate ListedFrom(read: seq<ExternalDependency>, q: nat, a: InternalArc) {
    exists p :: 0 <= p < |read| && read[p].packageId == q && a in read[p].legacyArcs
  }

  ghost predicate SomeArcServes(read: seq<ExternalDependency>, lookup: PackageLookup, q: nat, objectId: nat,
                                command: CommandType, to: int)
  {
    exists a :: ListedFrom(read, q, a) && ArcServes(a, lookup, q, objectId, command, to)
  }

  ghost predicate ServesWaiting(q: nat, a: InternalArc, m: DependencyMap, n: nat, bundleOf: map<DependencyNode, nat>,
                                imports: seq<Option<ImportTarget>>, packages: seq<nat>, lookup: PackageLookup)
    requires Covers(m, bundleOf, n)
  {
    exists e, c, d, t :: WaitsFor(m, n, imports, e, c, d, t) && t.slot < |packages| && packages[t.slot] == q &&
      ArcServes(a, lookup, q, t.objectId, d.command, bundleOf[ExportNode(e, c)])
  }

  /** Every wait for a command of another package is served by an arc listed for that
      package, and every listed arc serves such a wait. */
  ghost predicate ArcsServeExactly(read: seq<ExternalDependency>, m: DependencyMap, n: nat,
                                   bundleOf: map<DependencyNode, nat>, imports: seq<Option<ImportTarget>>,
                                   packages: seq<nat>, lookup: PackageLookup)
    requires Covers(m, bundleOf, n)
  {
    && (forall e, c, d, t {:trigger WaitsFor(m, n, imports, e, c, d, t)} :: WaitsFor(m, n, imports, e, c, d, t) ==>
          t.slot < |packages| &&
          SomeArcServes(read, lookup, packages[t.slot], t.objectId, d.command, bundleOf[ExportNode(e, c)]))
    && (forall q: nat, a {:trigger ListedFrom(read, q, a)} :: ListedFrom(read, q, a) ==>
          ServesWaiting(q, a, m, n, bundleOf, imports, packages, lookup))
  }

  /** What a reader finds in the section at `position` serves the waits. */
  ghost predicate SectionServes(buffer: seq<Byte>, position: nat, m: DependencyMap, n: nat,
                                bundleOf: map<DependencyNode, nat>, imports: seq<Option<ImportTarget>>,
                                packages: seq<nat>, lookup: PackageLookup)
    requires Covers(m, bundleOf, n)
  {
    exists read :: SectionAt(buffer, position, read) &&
      ArcsServeExactly(read, m, n, bundleOf, imports, packages, lookup)
  }

  /** The packages that are converted along map the commands that are waited for. */
  ghost predicate ProvidersKnow(m: DependencyMap, n: nat, imports: seq<Option<ImportTarget>>, packages: seq<nat>,
                                lookup: PackageLookup)
  {
    forall e, c, d, t {:trigger WaitsFor(m, n, imports, e, c, d, t)} :: WaitsFor(m, n, imports, e, c, d, t) ==>
      t.slot < |packages| && ExportKnown(lookup, packages[t.slot], t.objectId, d.command)
  }

  lemma {:induction false} ArcServesVisit(buffer: seq<Byte>, offset: nat, v: Visit, imports: seq<Option<ImportTarget>>,
                                          packages: seq<nat>, t: ImportTarget, lookup: PackageLookup)
    requires t.slot < |packages| && TargetOf(imports, v.node) == Some(t)
    requires ServesDependency(buffer, offset, v, imports, packages, t.slot, lookup)
    ensures offset + 8 <= |buffer|
    ensures ArcServes(ArcIn(buffer, offset), lookup, packages[t.slot], t.objectId, v.node.command, v.to)
  {
    var q, value := packages[t.slot], SlotValue(buffer, offset);
    if q in lookup {
      forall x: Provider | x.Describes(lookup[q])
        ensures exists i :: x.Runs(value, i, t.objectId, v.node.command)
      {
        MappedBundleRuns(x, lookup[q], t.objectId, v.node.command, value);
      }
    }
  }

  /** The section of a package at `position` has been written and then patched. */
  ghost predicate Patched(before: seq<Byte>, after: seq<Byte>, position: nat, offsets: seq<nat>,
                          deps: seq<ExternalDependency>, visits: seq<Visit>, imports: seq<Option<ImportTarget>>,
                          packages: seq<nat>, lookup: PackageLookup)
  {
    && HoldPlaceholders(deps, visits, imports, packages)
    && (forall p :: 0 <= p < |packages| ==> deps[p].packageId == packages[p])
    && SectionAt(before, position, Stored(deps)) && ArcsAt(before, SerializedArcs(deps), offsets)
    && offsets == ArcPlaces(position + 4, Stored(deps))
    && Fixed(before, after, offsets, PlaceholdersOf(visits, imports, packages), lookup)
  }

  /** The patched section as a reader finds it. */
  ghost function ReadBack(after: seq<Byte>, position: nat, deps: seq<ExternalDependency>): seq<ExternalDependency>
    requires position + 4 + StoredSize(Stored(deps)) <= |after|
  {
    Reread(after, position + 4, Stored(deps))
  }

  lemma {:induction false} PatchedIsRead(before: seq<Byte>, after: seq<Byte>, position: nat, offsets: seq<nat>,
                                         deps: seq<ExternalDependency>, visits: seq<Visit>,
                                         imports: seq<Option<ImportTarget>>, packages: seq<nat>, lookup: PackageLookup)
    requires Patched(before, after, position, offsets, deps, visits, imports, packages, lookup)
    ensures position + 4 + StoredSize(Stored(deps)) <= |after|
    ensures SectionAt(after, position, ReadBack(after, position, deps))
  {
    SectionReread(before, after, position, Stored(deps));
  }

  /** Arc `k` of the `i`-th listed package, which was written for `v`, serves it. */
  lemma {:induction false} ReadArcServes(before: seq<Byte>, after: seq<Byte>, position: nat, offsets: seq<nat>,
                                         deps: seq<ExternalDependency>, visits: seq<Visit>,
                                         imports: seq<Option<ImportTarget>>, packages: seq<nat>, lookup: PackageLookup,
                                         i: nat, k: nat, v: Visit, t: ImportTarget)
    requires Patched(before, after, position, offsets, deps, visits, imports, packages, lookup)
    requires t.slot < |packages| && TargetOf(imports, v.node) == Some(t)
    requires i < |Stored(deps)| && k < |Stored(deps)[i].legacyArcs|
    requires WrittenFor(Stored(deps)[i].legacyArcs[k], v, visits, imports, packages, t.slot)
    ensures position + 4 + StoredSize(Stored(deps)) <= |after|
    ensures var r := ReadBack(after, position, deps)[i];
            r.packageId == Stored(deps)[i].packageId && k < |r.legacyArcs|
            && ArcServes(r.legacyArcs[k], lookup, packages[t.slot], t.objectId, v.node.command, v.to)
  {
    var stored, start := Stored(deps), position + 4;
    PatchedIsRead(before, after, position, offsets, deps, visits, imports, packages, lookup);
    PatchedServes(before, after, start, stored, SerializedArcs(deps), offsets, visits, imports, packages, lookup, i, k,
                  v, t.slot);
    ArcServesVisit(after, DependencyPlace(start, stored, i) + 12 + 8 * k, v, imports, packages, t, lookup);
    RereadArc(after, start, stored, i, k);
  }

  lemma {:induction false} VisitIsListed(before: seq<Byte>, after: seq<Byte>, position: nat, offsets: seq<nat>,
                                         deps: seq<ExternalDependency>, visits: seq<Visit>,
                                         imports: seq<Option<ImportTarget>>, packages: seq<nat>, lookup: PackageLookup,
                                         v: Visit, t: ImportTarget)
    requires Patched(before, after, position, offsets, deps, visits, imports, packages, lookup)
    requires v in visits && TargetOf(imports, v.node) == Some(t) && t.slot < |packages|
    ensures position + 4 + StoredSize(Stored(deps)) <= |after|
    ensures SomeArcServes(ReadBack(after, position, deps), lookup, packages[t.slot], t.objectId, v.node.command, v.to)
  {
    var a := DependencyHasArc(visits, imports, packages, t.slot, v);
    var i := StoredHas(deps, t.slot);
    var k :| 0 <= k < |Stored(deps)[i].legacyArcs| && Stored(deps)[i].legacyArcs[k] == a;
    ReadArcServes(before, after, position, offsets, deps, visits, imports, packages, lookup, i, k, v, t);
    assert ListedFrom(ReadBack(after, position, deps), packages[t.slot],
                      ReadBack(after, position, deps)[i].legacyArcs[k]);
  }

  lemma {:induction false} ListedIsVisited(before: seq<Byte>, after: seq<Byte>, position: nat, offsets: seq<nat>,
                                           deps: seq<ExternalDependency>, visits: seq<Visit>,
                                           imports: seq<Option<ImportTarget>>, packages: seq<nat>,
                                           lookup: PackageLookup, i: nat, k: nat)
    returns (v: Visit, t: ImportTarget)
    requires Patched(before, after, position, offsets, deps, visits, imports, packages, lookup)
    requires i < |Stored(deps)| && k < |Stored(deps)[i].legacyArcs|
    ensures v in visits && TargetOf(imports, v.node) == Some(t) && t.slot < |packages|
    ensures position + 4 + StoredSize(Stored(deps)) <= |after|
    ensures var r := ReadBack(after, position, deps)[i];
            r.packageId == packages[t.slot] && k < |r.legacyArcs|
            && ArcServes(r.legacyArcs[k], lookup, packages[t.slot], t.objectId, v.node.command, v.to)
  {
    var p := StoredFrom(deps, i);
    v := ArcHasDependency(visits, imports, packages, p, Stored(deps)[i].legacyArcs[k]);
    t := TargetOf(imports, v.node).value;
    ReadArcServes(before, after, position, offsets, deps, visits, imports, packages, lookup, i, k, v, t);
  }

  lemma {:induction false} ListedServesWait(before: seq<Byte>, after: seq<Byte>, position: nat, offsets: seq<nat>,
                                            deps: seq<ExternalDependency>, m: DependencyMap, n: nat,
                                            bundleOf: map<DependencyNode, nat>, imports: seq<Option<ImportTarget>>,
                                            packages: seq<nat>, lookup: PackageLookup, q: nat, a: InternalArc)
    requires Covers(m, bundleOf, n)
    requires Patched(before, after, position, offsets, deps, AllVisits(m, bundleOf, n), imports, packages, lookup)
    requires position + 4 + StoredSize(Stored(deps)) <= |after| && ListedFrom(ReadBack(after, position, deps), q, a)
    ensures ServesWaiting(q, a, m, n, bundleOf, imports, packages, lookup)
  {
    var read := ReadBack(after, position, deps);
    var i :| 0 <= i < |read| && read[i].packageId == q && a in read[i].legacyArcs;
    var k :| 0 <= k < |read[i].legacyArcs| && read[i].legacyArcs[k] == a;
    RereadAt(after, position + 4, Stored(deps), i);
    var v, t := ListedIsVisited(before, after, position, offsets, deps, AllVisits(m, bundleOf, n), imports, packages,
                                lookup, i, k);
    var e, c, u := VisitIsWait(m, n, bundleOf, imports, t.slot, v);
  }

  /** What a reader finds in the patched section serves exactly the waits of the dependency
      map for commands of other packages. */
  lemma {:induction false} ServedExactly(before: seq<Byte>, after: seq<Byte>, position: nat, offsets: seq<nat>,
                                         deps: seq<ExternalDependency>, m: DependencyMap, n: nat,
                                         bundleOf: map<DependencyNode, nat>, imports: seq<Option<ImportTarget>>,
                                         packages: seq<nat>, lookup: PackageLookup)
    requires Covers(m, bundleOf, n)
    requires Patched(before, after, position, offsets, deps, AllVisits(m, bundleOf, n), imports, packages, lookup)
    ensures SectionServes(after, position, m, n, bundleOf, imports, packages, lookup)
  {
    var visits := AllVisits(m, bundleOf, n);
    PatchedIsRead(before, after, position, offsets, deps, visits, imports, packages, lookup);
    var read := ReadBack(after, position, deps);
    forall e, c, d, t | WaitsFor(m, n, imports, e, c, d, t)
      ensures t.slot < |packages|
      ensures SomeArcServes(read, lookup, packages[t.slot], t.objectId, d.command, bundleOf[ExportNode(e, c)])
    {
      WaitIsVisited(m, n, bundleOf, imports, e, c, d, t);
      VisitIsListed(before, after, position, offsets, deps, visits, imports, packages, lookup,
                    Visit(bundleOf[ExportNode(e, c)], d), t);
    }
    forall q: nat, a | ListedFrom(read, q, a)
      ensures ServesWaiting(q, a, m, n, bundleOf, imports, packages, lookup)
    {
      ListedServesWait(before, after, position, offsets, deps, m, n, bundleOf, imports, packages, lookup, q, a);
    }
  }

  lemma {:induction false} ProvidersKnowIff(m: DependencyMap, n: nat, bundleOf: map<DependencyNode, nat>,
                                            imports: seq<Option<ImportTarget>>, packages: seq<nat>,
                                            lookup: PackageLookup)
    requires Covers(m, bundleOf, n) && SlotsInRange(imports, packages)
    ensures AllProvidersKnown(AllVisits(m, bundleOf, n), imports, packages, lookup) <==>
            ProvidersKnow(m, n, imports, packages, lookup)
  {
    var visits := AllVisits(m, bundleOf, n);
    if AllProvidersKnown(visits, imports, packages, lookup) {
      forall e, c, d, t | WaitsFor(m, n, imports, e, c, d, t)
        ensures t.slot < |packages| && ExportKnown(lookup, packages[t.slot], t.objectId, d.command)
      {
        WaitIsVisited(m, n, bundleOf, imports, e, c, d, t);
        assert ProviderKnown(Visit(bundleOf[ExportNode(e, c)], d), imports, packages, lookup);
      }
    }
    if ProvidersKnow(m, n, imports, packages, lookup) {
      forall v | v in visits
        ensures ProviderKnown(v, imports, packages, lookup)
      {
        if TargetOf(imports, v.node).Some? {
          var e, c, t := VisitIsWait(m, n, bundleOf, imports, TargetOf(imports, v.node).value.slot, v);
        }
      }
    }
  }

  /** The lookup gives the bundles into which the load order is cut. */
  ghost predicate LocatesOrder(bundleOf: map<DependencyNode, nat>, order: seq<GraphNode>, isPublic: seq<bool>,
                               sizes: seq<nat>)
  {
    exists headers :: Bundled(headers, ExportEntries(order), isPublic, sizes) &&
      LocatesEntries(bundleOf, headers, ExportEntries(order))
  }

  /** A package from its preload list to its patched arcs. Sorting fails exactly when the
      dependencies are circular, and the fix-up exactly when a package that is converted
      along does not know an export that is depended on. */
  method ConvertAndFixup(exports: seq<ObjectExport>, preload: seq<PackageIndex>, isPublic: seq<bool>, sizes: seq<nat>,
                         publicIds: seq<nat>, imports: seq<Option<ImportTarget>>, packages: seq<nat>,
                         front: seq<Byte>, rest: seq<Byte>, lookup: PackageLookup)
    returns (ghost m: DependencyMap, ghost g: Graph, r: Result<seq<GraphNode>, SortError>,
             ghost bundleOf: map<DependencyNode, nat>, bundle: Option<ConvertedZenAssetBundle>, ok: bool)
    requires |exports| == |isPublic| == |sizes| == |publicIds| && ReferencesResolve(exports, preload, |imports|)
    requires SlotsInRange(imports, packages) && Distinct(packages) && FieldsFit(exports, packages) &&
               MappingsFit(lookup)
    ensures forall e :: 0 <= e < |exports| ==> InBounds(exports[e], preload)
    ensures DescribesExports(m, AllListed(exports, preload))
    ensures WellFormed(g) && Represents(g, m, isPublic) && SortOutcome(g, r)
    ensures r.Ok? ==> Covers(m, bundleOf, |exports|) && bundle.Some?
    ensures r.Ok? ==> LocatesOrder(bundleOf, r.value, isPublic, sizes)
    ensures ok <==> r.Ok? && ProvidersKnow(m, |exports|, imports, packages, lookup)
    ensures ok ==> SectionServes(bundle.value.buffer, |front|, m, |exports|, bundleOf, imports, packages, lookup)
  {
    var b := new ZenPackageBuilder(isPublic, sizes, publicIds, true, true, imports, packages);
    m, g, r, bundleOf, bundle := ConvertPackage(b, exports, preload, front, rest);
    ok := false;
    if r.Ok? {
      ghost var before := bundle.value.buffer;
      var fixed := FixupPackage(bundle.value, b.externalDependencies, b.visits, imports, packages, lookup);
      ok := fixed.Ok?;
      ProvidersKnowIff(m, |exports|, bundleOf, imports, packages, lookup);
      if ok {
        ServedExactly(before, bundle.value.buffer, |front|, bundle.value.offsets, b.externalDependencies, m, |exports|,
                      bundleOf, imports, packages, lookup);
      }
    }
  }
}
