/** From a zen package to its legacy form: imports, exports and dependencies are resolved
    in a temporary numbering and then finalized. */
module AssetBuild {
  import opened Zen
  import opened Arithmetic
  import opened ImportTable
  import opened FinalizeImports
  import opened Sequences

  ghost function NeededImports(mentioned: set<PackageObject>, resolution: Resolution): set<ResolvedImport> {
    set p, r | p in mentioned && p in resolution && r in Chain(resolution[p]) :: r
  }

  ghost function Unresolved(mentioned: set<PackageObject>, resolution: Resolution): set<PackageObject> {
    set p | p in mentioned && p !in resolution
  }

  ghost function Targets(mentioned: set<PackageObject>, resolution: Resolution): set<ResolvedImport> {
    set p | p in mentioned && p in resolution :: resolution[p]
  }

  datatype ZenPackage = ZenPackage(
    names: seq<string>, imports: seq<PackageObject>, exports: seq<ZenExport>, dependencies: seq<PackageIndex>) {

    /** Dependencies on imports name positions that are not holes. */
    ghost predicate Valid() {
      forall d :: d in dependencies && d.IsImport() ==>
        d.ToImportIndex() < |imports| && !imports[d.ToImportIndex()].Null?
    }

    ghost predicate ListsExport() {
      exists i :: 0 <= i < |imports| && imports[i].Export?
    }

    /** The import map lists imports only, and the export map refers only to imports that
        can be resolved or are listed. */
    ghost predicate Convertible(resolution: Resolution) {
      !ListsExport() && AllResolvable(exports, resolution, set p | p in imports)
    }

    /** The imports that the import map lists. */
    ghost function Listed(): set<PackageObject> {
      ImportsAmong(imports, |imports|)
    }

    /** The positions of the import map that are not holes. */
    ghost function Positions(): set<nat> {
      set i: nat | i < |imports| && imports[i].IsImport()
    }

    /** All imports of the package: those the import map lists and those the exports refer
        to. */
    ghost function Mentioned(): set<PackageObject> {
      Listed() + ImportsOfExports(exports)
    }

    /** How many imports the legacy package needs: everything that resolved imports are or
        lie in, and two for each import that has to be replaced. */
    ghost function EntryCount(resolution: Resolution): nat {
      |NeededImports(Mentioned(), resolution)| + 2 * |Unresolved(Mentioned(), resolution)|
    }

    /** How many different imports the import map lists. */
    ghost function DistinctCount(resolution: Resolution): nat {
      |Targets(Listed(), resolution)| + |Unresolved(Listed(), resolution)|
    }

    /** The positions that repeat an import leave enough others for all entries. */
    ghost predicate HasRoom(resolution: Resolution) {
      EntryCount(resolution) + |Positions()| <= Max(EntryCount(resolution), |imports|) + DistinctCount(resolution)
    }

    function DependencyTarget(d: PackageIndex): PackageObject
      requires d.IsImport() ==> d.ToImportIndex() < |imports|
    {
      if d.IsImport() then imports[d.ToImportIndex()] else if d.IsExport() then Export(d.ToExportIndex()) else Null
    }
  }

  /** The temporary tables describe the imports of the package. */
  ghost predicate TablesBuilt(t: Tables, order: map<nat, nat>, exports: seq<NamedExport>, z: ZenPackage,
                              resolution: Resolution)
  {
    && TablesValid(t, resolution) && OutersFirst(t.imports) && OutersKnown(t.imports, t.known)
    && (forall r :: r in t.known ==> Points(t.meanings, t.known[r], Imported(r)))
    && !z.ListsExport() && OrderIs(order, t.lookup, z.imports, |z.imports|)
    && ExportsLookUp(t.lookup, exports, z.exports) && t.lookup.Keys == z.Mentioned()
  }

  /** The state before finalization. */
  ghost predicate Prepared(builder: LegacyAssetBuilder, z: ZenPackage, resolution: Resolution)
    reads builder`imports, builder`meanings, builder`resolvedImportLookup, builder`zenImportLookup
    reads builder`originalImportOrder, builder`exports, builder.nameMap
  {
    && builder.Valid()
    && TablesBuilt(TablesOf(builder), builder.originalImportOrder, builder.exports, z, resolution)
    && ExportsMean(builder.nameMap.names, builder.meanings, builder.exports, z.exports, resolution)
  }

  ghost predicate DependenciesTranslated(order: map<nat, nat>, dependencies: seq<PackageIndex>,
                                         preload: seq<PackageIndex>)
  {
    && |preload| == |dependencies|
    && forall k :: 0 <= k < |dependencies| ==>
         && (dependencies[k].IsImport() ==> dependencies[k].ToImportIndex() in order)
         && preload[k] == ToTemporary(order, dependencies[k])
  }

  method StartBuild(z: ZenPackage, resolution: Resolution) returns (builder: LegacyAssetBuilder)
    ensures fresh(builder) && fresh(builder.nameMap)
    ensures Consistent(builder, resolution) && builder.exports == []
    ensures OrderBuilt(builder.originalImportOrder, builder.zenImportLookup, z.imports, 0)
  {
    builder := new LegacyAssetBuilder(z.names);
    assert Replaced(builder.zenImportLookup, resolution) == {};
    assert ImportsAmong(z.imports, 0) == {};
  }

  lemma {:induction false} BuiltTables(t: Tables, order: map<nat, nat>, start: Start, now: Start,
                                       exports: seq<NamedExport>, z: ZenPackage, resolution: Resolution)
    requires OrderBuilt(order, start.lookup, z.imports, |z.imports|) && !z.ListsExport()
    requires ExportsBuilt(start, now, exports, z.exports, resolution) && now.lookup == t.lookup
    requires TablesValid(t, resolution) && OutersFirst(t.imports) && OutersKnown(t.imports, t.known)
    requires forall r :: r in t.known ==> Points(t.meanings, t.known[r], Imported(r))
    ensures TablesBuilt(t, order, exports, z, resolution)
  {
    OrderStays(order, start.lookup, t.lookup, z.imports);
  }

  method PrepareImports(z: ZenPackage, resolution: Resolution) returns (builder: LegacyAssetBuilder, ok: bool)
    ensures fresh(builder) && fresh(builder.nameMap)
    ensures Consistent(builder, resolution) && builder.exports == []
    ensures ok <==> !z.ListsExport()
    ensures ok ==> OrderBuilt(builder.originalImportOrder, builder.zenImportLookup, z.imports, |z.imports|)
  {
    builder := StartBuild(z, resolution);
    ok := BuildImportMap(builder, z.imports, resolution);
  }

  /** Resolves imports and exports in the temporary numbering. */
  method PrepareTables(z: ZenPackage, resolution: Resolution) returns (builder: LegacyAssetBuilder, ok: bool)
    ensures fresh(builder) && fresh(builder.nameMap)
    ensures ok ==> Prepared(builder, z, resolution)
    ensures ok <==> z.Convertible(resolution)
  {
    builder, ok := PrepareImports(z, resolution);
    if !ok {
      return;
    }
    ghost var start := StartOf(builder);
    KnownResolvable(z, resolution);
    ok := BuildExportMap(builder, z.exports, resolution, start);
    if ok {
      BuiltTables(TablesOf(builder), builder.originalImportOrder, start, StartOf(builder), builder.exports, z,
                  resolution);
    }
  }

  /** Resolves imports, exports and dependencies in the temporary numbering. */
  method PrepareAsset(z: ZenPackage, resolution: Resolution) returns (builder: LegacyAssetBuilder, ok: bool)
    requires z.Valid()
    ensures fresh(builder) && fresh(builder.nameMap)
    ensures ok ==> Prepared(builder, z, resolution)
    ensures ok ==> DependenciesTranslated(builder.originalImportOrder, z.dependencies, builder.preloadDependencies)
    ensures ok <==> z.Convertible(resolution)
  {
    builder, ok := PrepareTables(z, resolution);
    if ok {
      TranslateDependencies(builder, z.dependencies);
    }
  }

  /** The positions recorded for the import map stay right when more imports become known. */
  lemma {:induction false} OrderStays(order: map<nat, nat>, lookup: map<PackageObject, PackageIndex>,
                                      more: map<PackageObject, PackageIndex>, zenImports: seq<PackageObject>)
    requires OrderIs(order, lookup, zenImports, |zenImports|) && Extends(lookup, more)
    ensures OrderIs(order, more, zenImports, |zenImports|)
  {
  }

  /** The imports that the export map may refer to are those that can be resolved and
      those that the import map lists. */
  lemma {:induction false} KnownResolvable(z: ZenPackage, resolution: Resolution)
    ensures AllResolvable(z.exports, resolution, set p | p in z.imports) <==>
              AllResolvable(z.exports, resolution, z.Listed())
  {
    var listed := set p | p in z.imports;
    forall p: PackageObject
      ensures Resolvable(p, resolution, listed) <==> Resolvable(p, resolution, z.Listed())
    {
      if p.IsImport() && p in z.imports {
        var i :| 0 <= i < |z.imports| && z.imports[i] == p;
        assert z.imports[i] in z.Listed();
      }
    }
    forall e | e in z.exports
      ensures ExportResolvable(e, resolution, listed) <==> ExportResolvable(e, resolution, z.Listed())
    {
    }
  }

  /** Everything the finished package says, read through its own tables, is what the
      zen package said. */
  ghost predicate Rehydrated(builder: LegacyAssetBuilder, z: ZenPackage, resolution: Resolution)
    requires z.Valid()
    reads builder, builder.nameMap
  {
    && (forall i: nat :: i < |z.imports| && z.imports[i].IsImport() ==>
          RefersTo(builder.nameMap.names, builder.imports, CreateImport(i), Meaning(z.imports[i], resolution)))
    && |builder.exports| == |z.exports|
    && (forall e :: 0 <= e < |z.exports| ==>
          ExportRefersTo(builder.nameMap.names, builder.imports, builder.exports[e], z.exports[e], resolution))
    && |builder.preloadDependencies| == |z.dependencies|
    && (forall k :: 0 <= k < |z.dependencies| ==>
          z.dependencies[k] in z.dependencies
          && RefersTo(builder.nameMap.names, builder.imports, builder.preloadDependencies[k],
                      Meaning(z.DependencyTarget(z.dependencies[k]), resolution)))
  }

  lemma {:induction false} OrderPoints(builder: LegacyAssetBuilder, z: ZenPackage, resolution: Resolution, i: nat)
    requires Prepared(builder, z, resolution) && i in builder.originalImportOrder
    ensures i < |z.imports| && z.imports[i].IsImport()
    ensures Points(builder.meanings, CreateImport(builder.originalImportOrder[i]), Meaning(z.imports[i], resolution))
  {
    var t := TablesOf(builder);
    assert Mapped(t, resolution, z.imports[i], t.lookup[z.imports[i]]);
  }

  lemma {:induction false} OrderPointsAll(builder: LegacyAssetBuilder, z: ZenPackage, resolution: Resolution)
    requires Prepared(builder, z, resolution)
    ensures OrderInRange(builder.originalImportOrder, |builder.imports|, |z.imports|)
  {
    forall i | i in builder.originalImportOrder
      ensures i < |z.imports| && builder.originalImportOrder[i] < |builder.imports|
    {
      OrderPoints(builder, z, resolution, i);
    }
  }

  lemma {:induction false} TemporaryPoints(builder: LegacyAssetBuilder, z: ZenPackage, resolution: Resolution,
                                           d: PackageIndex)
    requires z.Valid() && Prepared(builder, z, resolution) && d in z.dependencies
    requires d.IsImport() ==> d.ToImportIndex() in builder.originalImportOrder
    ensures Points(builder.meanings, ToTemporary(builder.originalImportOrder, d),
                   Meaning(z.DependencyTarget(d), resolution))
  {
    if d.IsImport() {
      OrderPoints(builder, z, resolution, d.ToImportIndex());
    }
  }

  ghost predicate OrderMeans(order: map<nat, nat>, meanings: seq<ResolvedImport>, z: ZenPackage,
                             resolution: Resolution)
  {
    && (forall i: nat :: i < |z.imports| && z.imports[i].IsImport() ==> i in order)
    && forall i :: i in order ==>
         i < |z.imports| && Points(meanings, CreateImport(order[i]), Meaning(z.imports[i], resolution))
  }

  ghost predicate PreloadMeans(preload: seq<PackageIndex>, meanings: seq<ResolvedImport>, z: ZenPackage,
                               resolution: Resolution)
    requires z.Valid()
  {
    && |preload| == |z.dependencies|
    && forall k :: 0 <= k < |preload| ==>
         z.dependencies[k] in z.dependencies
         && Points(meanings, preload[k], Meaning(z.DependencyTarget(z.dependencies[k]), resolution))
  }

  /** The tables before finalization. */
  datatype Temporary = Temporary(names: seq<string>, imports: seq<ObjectImport>, meanings: seq<ResolvedImport>,
                                 exports: seq<NamedExport>, preload: seq<PackageIndex>) {
    ghost predicate Valid(z: ZenPackage, resolution: Resolution)
      requires z.Valid()
    {
      && Table(names, imports, meanings)
      && ExportsMean(names, meanings, exports, z.exports, resolution)
      && PreloadMeans(preload, meanings, z, resolution)
    }
  }

  lemma {:induction false} NothingAborts(t: Temporary, z: ZenPackage, resolution: Resolution, names: seq<string>,
                                         p: Placement, placed: seq<ObjectImport>)
    requires z.Valid() && t.Valid(z, resolution) && t.names <= names
    requires p.Total() && p.count == |t.imports| && Entries(names, t.imports, placed, p.origin)
    ensures EveryMapped(p.remap, placed, t.exports, t.preload)
  {
    TableExtends(t.names, names, t.imports, t.meanings);
    forall e | e in t.exports
      ensures RemapExport(p.remap, e).Some?
    {
      var i :| 0 <= i < |t.exports| && t.exports[i] == e;
      assert ExportMeans(t.names, t.meanings, t.exports[i], z.exports[i], resolution);
      ExportMapped(t.names, p, t.meanings, e, z.exports[i], resolution);
    }
    forall e | e in placed
      ensures RemapImport(p.remap, e).Some?
    {
      var i :| 0 <= i < |placed| && placed[i] == e;
      EntryMapped(names, t.imports, t.meanings, p, placed, i);
    }
    forall d | d in t.preload
      ensures RemapIndex(p.remap, d).Some?
    {
      var k :| 0 <= k < |t.preload| && t.preload[k] == d;
      PointsMapped(p, t.meanings, d, Meaning(z.DependencyTarget(z.dependencies[k]), resolution));
    }
  }

  lemma {:induction false} PreparedMeans(builder: LegacyAssetBuilder, z: ZenPackage, resolution: Resolution)
    requires z.Valid() && Prepared(builder, z, resolution)
    requires DependenciesTranslated(builder.originalImportOrder, z.dependencies, builder.preloadDependencies)
    ensures OrderInRange(builder.originalImportOrder, |builder.imports|, |z.imports|)
    ensures OrderMeans(builder.originalImportOrder, builder.meanings, z, resolution)
    ensures PreloadMeans(builder.preloadDependencies, builder.meanings, z, resolution)
    ensures Injective(builder.originalImportOrder) <==> ImportsDiffer(z.imports, resolution)
  {
    OrderPointsAll(builder, z, resolution);
    OrderInjectiveIff(builder, z.imports, resolution);
    forall i | i in builder.originalImportOrder
      ensures i < |z.imports| && Points(builder.meanings, CreateImport(builder.originalImportOrder[i]),
                                        Meaning(z.imports[i], resolution))
    {
      OrderPoints(builder, z, resolution, i);
    }
    forall k | 0 <= k < |z.dependencies|
      ensures z.dependencies[k] in z.dependencies
      ensures Points(builder.meanings, builder.preloadDependencies[k],
                     Meaning(z.DependencyTarget(z.dependencies[k]), resolution))
    {
      assert z.dependencies[k] in z.dependencies;
      TemporaryPoints(builder, z, resolution, z.dependencies[k]);
    }
  }

  /** What finalization did to the tables. */
  datatype Finalization = Finalization(p: Placement, meanings: seq<ResolvedImport>, names: seq<string>,
                                       imports: seq<ObjectImport>) {
    ghost predicate Valid() {
      p.Consistent() && p.count == |meanings| && Table(names, imports, FinalMeanings(p, meanings))
    }
  }

  lemma {:induction false} ImportsRefer(f: Finalization, z: ZenPackage, resolution: Resolution)
    requires f.Valid() && OrderInRange(f.p.order, f.p.count, |f.p.origin|)
    requires OrderMeans(f.p.order, f.meanings, z, resolution)
    ensures forall i: nat :: i < |z.imports| && z.imports[i].IsImport() ==>
              RefersTo(f.names, f.imports, CreateImport(i), Meaning(z.imports[i], resolution))
  {
    forall i: nat | i < |z.imports| && z.imports[i].IsImport()
      ensures RefersTo(f.names, f.imports, CreateImport(i), Meaning(z.imports[i], resolution))
    {
      PredefinedRefers(f.names, f.imports, f.meanings, f.p, i, Meaning(z.imports[i], resolution));
    }
  }

  lemma {:induction false} ExportsRefer(f: Finalization, names: seq<string>, before: seq<NamedExport>,
                                        exports: seq<NamedExport>, z: ZenPackage, resolution: Resolution)
    requires f.Valid() && names <= f.names
    requires ExportsMean(names, f.meanings, before, z.exports, resolution)
    requires Maps((e: NamedExport) => RemapExport(f.p.remap, e), before, exports)
    ensures |exports| == |z.exports|
    ensures forall e :: 0 <= e < |z.exports| ==>
              ExportRefersTo(f.names, f.imports, exports[e], z.exports[e], resolution)
  {
    forall e | 0 <= e < |z.exports|
      ensures ExportRefersTo(f.names, f.imports, exports[e], z.exports[e], resolution)
    {
      assert ExportMeans(names, f.meanings, before[e], z.exports[e], resolution);
      assert RemapExport(f.p.remap, before[e]) == Some(exports[e]);
      RemappedExportRefers(names, f.names, f.imports, f.meanings, f.p, before[e], z.exports[e], resolution);
    }
  }

  lemma {:induction false} DependenciesRefer(f: Finalization, before: seq<PackageIndex>, preload: seq<PackageIndex>,
                                             z: ZenPackage, resolution: Resolution)
    requires f.Valid() && z.Valid() && PreloadMeans(before, f.meanings, z, resolution)
    requires Maps((d: PackageIndex) => RemapIndex(f.p.remap, d), before, preload)
    ensures |preload| == |z.dependencies|
    ensures forall k :: 0 <= k < |z.dependencies| ==>
              z.dependencies[k] in z.dependencies
              && RefersTo(f.names, f.imports, preload[k], Meaning(z.DependencyTarget(z.dependencies[k]), resolution))
  {
    forall k | 0 <= k < |z.dependencies|
      ensures z.dependencies[k] in z.dependencies
      ensures RefersTo(f.names, f.imports, preload[k], Meaning(z.DependencyTarget(z.dependencies[k]), resolution))
    {
      assert z.dependencies[k] in z.dependencies;
      assert Points(f.meanings, before[k], Meaning(z.DependencyTarget(z.dependencies[k]), resolution));
      assert RemapIndex(f.p.remap, before[k]) == Some(preload[k]);
      RemappedRefers(f.names, f.imports, f.meanings, f.p, before[k],
                     Meaning(z.DependencyTarget(z.dependencies[k]), resolution));
    }
  }

  /** Dependencies keep their zen numbering. */
  lemma {:induction false} DependenciesUnchanged(p: Placement, last: nat, dependencies: seq<PackageIndex>,
                                                 before: seq<PackageIndex>, preload: seq<PackageIndex>)
    requires Placed(p, last) && OrderInRange(p.order, p.count, |p.origin|) && p.count <= |p.origin|
    requires Injective(p.order) && DependenciesTranslated(p.order, dependencies, before)
    requires Maps((d: PackageIndex) => RemapIndex(p.remap, d), before, preload)
    ensures preload == dependencies
  {
    forall k | 0 <= k < |dependencies|
      ensures preload[k] == dependencies[k]
    {
      assert RemapIndex(p.remap, before[k]) == Some(preload[k]);
      DependencyRoundTrip(p, last, dependencies[k]);
    }
  }

  // ------------------------------------------------------- how many entries

  lemma {:induction false} ChainIsClosed(imports: seq<ObjectImport>, known: map<ResolvedImport, PackageIndex>,
                                         r: ResolvedImport)
    requires OutersKnown(imports, known) && r in known
    ensures Chain(r) <= known.Keys
    decreases r
  {
    if r.outer.Some? {
      assert OuterKnown(imports, known, r);
      ChainIsClosed(imports, known, r.outer.value);
    }
  }

  lemma {:induction false} KnownIsNeeded(t: Tables, z: ZenPackage, resolution: Resolution)
    requires TablesValid(t, resolution) && t.lookup.Keys == z.Mentioned() && OutersKnown(t.imports, t.known)
    ensures t.known.Keys == NeededImports(z.Mentioned(), resolution)
  {
    var needed := NeededImports(z.Mentioned(), resolution);
    forall r | r in t.known
      ensures r in needed
    {
      assert Needed(t.lookup, resolution, r);
    }
    forall p, r | p in z.Mentioned() && p in resolution && r in Chain(resolution[p])
      ensures r in t.known
    {
      assert Mapped(t, resolution, p, t.lookup[p]);
      ChainIsClosed(t.imports, t.known, resolution[p]);
    }
  }

  /** The temporary import map holds what the package needs, each import once. */
  lemma {:induction false} EntryCountIs(t: Tables, order: map<nat, nat>, exports: seq<NamedExport>, z: ZenPackage,
                                        resolution: Resolution)
    requires TablesBuilt(t, order, exports, z, resolution)
    ensures |t.imports| == z.EntryCount(resolution)
  {
    KnownIsNeeded(t, z, resolution);
    KeysCount(t.known);
    ReplacedIsUnresolved(t.lookup, z.Mentioned(), resolution);
  }

  lemma {:induction false} KeysCount<K, V>(m: map<K, V>)
    ensures |m| == |m.Keys|
  {
  }

  lemma {:induction false} ReplacedIsUnresolved(lookup: map<PackageObject, PackageIndex>, mentioned: set<PackageObject>,
                                                resolution: Resolution)
    requires lookup.Keys == mentioned
    ensures Replaced(lookup, resolution) == Unresolved(mentioned, resolution)
  {
  }

  // ------------------------------------------------ how many are predefined

  function EntryAt(index: PackageIndex): nat {
    if index.IsImport() then index.ToImportIndex() else 0
  }

  lemma {:induction false} OrderEntry(t: Tables, order: map<nat, nat>, z: ZenPackage, resolution: Resolution, i: nat)
    requires TablesValid(t, resolution) && !z.ListsExport() && OrderIs(order, t.lookup, z.imports, |z.imports|)
    requires i in order
    ensures i < |z.imports| && z.imports[i] in z.Listed() && z.imports[i] in t.lookup
    ensures order[i] == EntryAt(t.lookup[z.imports[i]])
    ensures z.imports[i] in resolution ==>
              resolution[z.imports[i]] in t.known && order[i] == EntryAt(t.known[resolution[z.imports[i]]])
  {
    var p := z.imports[i];
    assert Mapped(t, resolution, p, t.lookup[p]);
  }

  lemma {:induction false} ListedHasOrder(t: Tables, order: map<nat, nat>, z: ZenPackage, resolution: Resolution,
                                          p: PackageObject)
    requires TablesValid(t, resolution) && !z.ListsExport() && OrderIs(order, t.lookup, z.imports, |z.imports|)
    requires p in z.Listed()
    ensures p in t.lookup && EntryAt(t.lookup[p]) in order.Values
    ensures p in resolution ==> resolution[p] in t.known && t.known[resolution[p]] == t.lookup[p]
  {
    var i := ListedPosition(order, t.lookup, z, p);
    if p in resolution {
      MappedKnown(t, resolution, p);
    }
  }

  lemma {:induction false} ListedPosition(order: map<nat, nat>, lookup: map<PackageObject, PackageIndex>, z: ZenPackage,
                                          p: PackageObject)
    returns (i: nat)
    requires OrderIs(order, lookup, z.imports, |z.imports|) && p in z.Listed()
    ensures p in lookup && i in order && order[i] == EntryAt(lookup[p]) && order[i] in order.Values
  {
    i :| 0 <= i < |z.imports| && z.imports[i].IsImport() && z.imports[i] == p;
    assert i in order;
  }

  lemma {:induction false} MappedKnown(t: Tables, resolution: Resolution, p: PackageObject)
    requires TablesValid(t, resolution) && p in t.lookup && p in resolution
    ensures resolution[p] in t.known && t.known[resolution[p]] == t.lookup[p]
  {
    assert Mapped(t, resolution, p, t.lookup[p]);
  }

  ghost function EntriesOf<T>(objects: set<T>, lookup: map<T, PackageIndex>): set<nat>
    requires objects <= lookup.Keys
  {
    set x | x in objects :: EntryAt(lookup[x])
  }

  /** Objects that have entries of their own take as many entries as there are objects. */
  lemma {:induction false} OwnEntries<T(!new)>(objects: set<T>, lookup: map<T, PackageIndex>)
    requires objects <= lookup.Keys
    requires forall x, y :: x in objects && y in objects && EntryAt(lookup[x]) == EntryAt(lookup[y]) ==> x == y
    ensures |EntriesOf(objects, lookup)| == |objects|
  {
    var f := map x | x in objects :: EntryAt(lookup[x]);
    BijectionCardinality(objects, EntriesOf(objects, lookup), f);
  }

  lemma {:induction false} TargetEntries(t: Tables, order: map<nat, nat>, z: ZenPackage, resolution: Resolution)
    requires TablesValid(t, resolution) && !z.ListsExport() && OrderIs(order, t.lookup, z.imports, |z.imports|)
    requires forall r :: r in t.known ==> Points(t.meanings, t.known[r], Imported(r))
    ensures Targets(z.Listed(), resolution) <= t.known.Keys
    ensures |EntriesOf(Targets(z.Listed(), resolution), t.known)| == |Targets(z.Listed(), resolution)|
  {
    forall p | p in z.Listed() && p in resolution
      ensures resolution[p] in t.known
    {
      ListedHasOrder(t, order, z, resolution, p);
    }
    OwnEntries(Targets(z.Listed(), resolution), t.known);
  }

  lemma {:induction false} PlaceholderEntries(t: Tables, order: map<nat, nat>, z: ZenPackage, resolution: Resolution)
    requires TablesValid(t, resolution) && !z.ListsExport() && OrderIs(order, t.lookup, z.imports, |z.imports|)
    ensures Unresolved(z.Listed(), resolution) <= t.lookup.Keys
    ensures |EntriesOf(Unresolved(z.Listed(), resolution), t.lookup)| == |Unresolved(z.Listed(), resolution)|
  {
    forall p | p in Unresolved(z.Listed(), resolution)
      ensures p in t.lookup && t.lookup[p].IsImport()
    {
      ListedHasOrder(t, order, z, resolution, p);
      assert Mapped(t, resolution, p, t.lookup[p]);
    }
    OwnEntries(Unresolved(z.Listed(), resolution), t.lookup);
  }

  lemma {:induction false} PredefinedEntries(t: Tables, order: map<nat, nat>, z: ZenPackage, resolution: Resolution)
    requires TablesValid(t, resolution) && !z.ListsExport() && OrderIs(order, t.lookup, z.imports, |z.imports|)
    requires Targets(z.Listed(), resolution) <= t.known.Keys && Unresolved(z.Listed(), resolution) <= t.lookup.Keys
    ensures order.Values == EntriesOf(Targets(z.Listed(), resolution), t.known) +
              EntriesOf(Unresolved(z.Listed(), resolution), t.lookup)
  {
    var targets, unresolved := Targets(z.Listed(), resolution), Unresolved(z.Listed(), resolution);
    forall i | i in order
      ensures order[i] in EntriesOf(targets, t.known) + EntriesOf(unresolved, t.lookup)
    {
      OrderEntry(t, order, z, resolution, i);
      var p := z.imports[i];
      assert if p in resolution then resolution[p] in targets else p in unresolved;
    }
    forall p | p in z.Listed()
      ensures p in t.lookup && EntryAt(t.lookup[p]) in order.Values
      ensures p in resolution ==> resolution[p] in t.known && EntryAt(t.known[resolution[p]]) in order.Values
    {
      ListedHasOrder(t, order, z, resolution, p);
    }
  }

  lemma {:induction false} PlaceholdersApart(t: Tables, order: map<nat, nat>, z: ZenPackage, resolution: Resolution)
    requires TablesValid(t, resolution)
    requires Targets(z.Listed(), resolution) <= t.known.Keys && Unresolved(z.Listed(), resolution) <= t.lookup.Keys
    requires forall r :: r in t.known ==> Points(t.meanings, t.known[r], Imported(r))
    ensures EntriesOf(Targets(z.Listed(), resolution), t.known) !!
              EntriesOf(Unresolved(z.Listed(), resolution), t.lookup)
  {
    forall r, p | r in Targets(z.Listed(), resolution) && p in Unresolved(z.Listed(), resolution)
      ensures EntryAt(t.known[r]) != EntryAt(t.lookup[p])
    {
      assert Mapped(t, resolution, p, t.lookup[p]);
      assert CanonicalIn(t.meanings, t.known, EntryAt(t.known[r]));
    }
  }

  /** As many entries have predefined positions as the import map lists different imports. */
  lemma {:induction false} PredefinedCount(t: Tables, order: map<nat, nat>, exports: seq<NamedExport>, z: ZenPackage,
                                           resolution: Resolution)
    requires TablesBuilt(t, order, exports, z, resolution)
    ensures |order| == |z.Positions()| && |order.Values| == z.DistinctCount(resolution)
  {
    KeysCount(order);
    PositionsOrdered(order, t.lookup, z);
    TargetEntries(t, order, z, resolution);
    PlaceholderEntries(t, order, z, resolution);
    PredefinedEntries(t, order, z, resolution);
    PlaceholdersApart(t, order, z, resolution);
    DisjointCardinality(EntriesOf(Targets(z.Listed(), resolution), t.known),
                        EntriesOf(Unresolved(z.Listed(), resolution), t.lookup));
  }

  lemma {:induction false} DisjointCardinality<T>(a: set<T>, b: set<T>)
    requires a !! b
    ensures |a + b| == |a| + |b|
  {
  }

  lemma {:induction false} PositionsOrdered(order: map<nat, nat>, lookup: map<PackageObject, PackageIndex>,
                                            z: ZenPackage)
    requires !z.ListsExport() && OrderIs(order, lookup, z.imports, |z.imports|)
    ensures order.Keys == z.Positions()
  {
  }

  // --------------------------------------------------- every entry is referred to

  ghost predicate ExportRefers(exports: seq<NamedExport>, index: PackageIndex) {
    exists e :: e in exports && index in IndicesIn(e)
  }

  ghost predicate IsOuter(imports: seq<ObjectImport>, i: nat, j: nat) {
    i < j < |imports| && imports[j].outerIndex == CreateImport(i)
  }

  /** Entry `i` has a predefined position, an export refers to it or it is the outer of a
      later entry. */
  ghost predicate Referred(imports: seq<ObjectImport>, order: map<nat, nat>, exports: seq<NamedExport>, i: nat) {
    i in order.Values || ExportRefers(exports, CreateImport(i)) || exists j :: IsOuter(imports, i, j)
  }

  lemma {:induction false} ImportOfSomeExport(zenExports: seq<ZenExport>, p: PackageObject) returns (e: nat, k: nat)
    requires p in ImportsOfExports(zenExports)
    ensures e < |zenExports| && k < 4 && ReferencesIn(zenExports[e])[k] == p && p.IsImport()
  {
    var last := |zenExports| - 1;
    if p in ImportsOf(ReferencesIn(zenExports[last])) {
      e := last;
      k :| 0 <= k < 4 && ReferencesIn(zenExports[e])[k] == p;
    } else {
      e, k := ImportOfSomeExport(zenExports[..last], p);
    }
  }

  /** What the package mentions is listed or referred to by an export. */
  lemma {:induction false} MentionedIsReferred(t: Tables, order: map<nat, nat>, exports: seq<NamedExport>,
                                               z: ZenPackage, resolution: Resolution, p: PackageObject)
    requires TablesBuilt(t, order, exports, z, resolution) && p in t.lookup
    ensures EntryAt(t.lookup[p]) in order.Values || ExportRefers(exports, t.lookup[p])
  {
    if p in z.Listed() {
      ListedHasOrder(t, order, z, resolution, p);
    } else {
      var e, k := ImportOfSomeExport(z.exports, p);
      assert AllLookUp(t.lookup, IndicesIn(exports[e]), ReferencesIn(z.exports[e]));
      assert LooksUp(t.lookup, IndicesIn(exports[e])[k], p);
      assert exports[e] in exports && t.lookup[p] in IndicesIn(exports[e]);
    }
  }

  lemma {:induction false} ChainInner(r: ResolvedImport, s: ResolvedImport) returns (inner: ResolvedImport)
    requires s in Chain(r) && s != r
    ensures inner in Chain(r) && inner.outer == Some(s)
  {
    if r.outer.value == s {
      inner := r;
    } else {
      inner := ChainInner(r.outer.value, s);
    }
  }

  lemma {:induction false} NeededIsReferred(t: Tables, order: map<nat, nat>, exports: seq<NamedExport>, z: ZenPackage,
                                            resolution: Resolution, i: nat)
    requires TablesBuilt(t, order, exports, z, resolution) && CanonicalIn(t.meanings, t.known, i)
    ensures Referred(t.imports, order, exports, i)
  {
    var r := t.meanings[i];
    assert Needed(t.lookup, resolution, r);
    var p :| p in t.lookup && p in resolution && r in Chain(resolution[p]);
    assert Mapped(t, resolution, p, t.lookup[p]);
    if resolution[p] == r {
      MentionedIsReferred(t, order, exports, z, resolution, p);
    } else {
      var inner := ChainInner(resolution[p], r);
      ChainIsClosed(t.imports, t.known, resolution[p]);
      assert OuterKnown(t.imports, t.known, inner);
      assert IsOuter(t.imports, i, t.known[inner].ToImportIndex());
    }
  }

  lemma {:induction false} PlaceholderIsReferred(t: Tables, order: map<nat, nat>, exports: seq<NamedExport>,
                                                 z: ZenPackage, resolution: Resolution, i: nat)
    requires TablesBuilt(t, order, exports, z, resolution) && HoldsPlaceholder(t.imports, t.lookup, resolution, i)
    ensures Referred(t.imports, order, exports, i)
  {
    var p := ReplacedAt(t.imports, t.lookup, resolution, i);
    if t.lookup[p] == CreateImport(i) {
      MentionedIsReferred(t, order, exports, z, resolution, p);
    }
  }

  lemma {:induction false} ReplacedAt(imports: seq<ObjectImport>, lookup: map<PackageObject, PackageIndex>,
                                      resolution: Resolution, i: nat)
    returns (p: PackageObject)
    requires HoldsPlaceholder(imports, lookup, resolution, i)
    ensures p in lookup && (lookup[p] == CreateImport(i) || IsOuter(imports, i, EntryAt(lookup[p])))
  {
    p :| p in Replaced(lookup, resolution) && PlaceholderEntry(imports, lookup[p], i);
  }

  lemma {:induction false} EntryIsReferred(t: Tables, order: map<nat, nat>, exports: seq<NamedExport>, z: ZenPackage,
                                           resolution: Resolution, i: nat)
    requires TablesBuilt(t, order, exports, z, resolution) && i < |t.imports|
    ensures Referred(t.imports, order, exports, i)
  {
    assert EntryAccounted(t, resolution, i);
    if CanonicalIn(t.meanings, t.known, i) {
      NeededIsReferred(t, order, exports, z, resolution, i);
    } else {
      PlaceholderIsReferred(t, order, exports, z, resolution, i);
    }
  }

  // ------------------------------------------------- a lost entry makes it abort

  lemma {:induction false} LostReference(remap: map<nat, nat>, exports: seq<NamedExport>, c: nat)
    requires c !in remap && ExportRefers(exports, CreateImport(c))
    ensures exists e :: e in exports && RemapExport(remap, e).None?
  {
    var e :| e in exports && CreateImport(c) in IndicesIn(e);
    assert RemapIndex(remap, CreateImport(c)).None?;
    assert RemapExport(remap, e).None?;
  }

  lemma {:induction false} LostOuter(names: seq<string>, imports: seq<ObjectImport>, p: Placement,
                                     placed: seq<ObjectImport>, c: nat, j: nat)
    requires p.Consistent() && Entries(names, imports, placed, p.origin)
    requires c !in p.remap && IsOuter(imports, c, j) && j in p.remap
    ensures exists e :: e in placed && RemapImport(p.remap, e).None?
  {
    assert p.InverseOk(j);
    var i := p.remap[j];
    assert EntryOk(names, imports, placed, p.origin, i);
    assert placed[i] in placed && RemapImport(p.remap, placed[i]).None?;
  }

  /** An entry that found no place is missed: by an export, by an entry that lies in it,
      or it takes that entry along. */
  lemma {:induction false} LostIsMissed(names: seq<string>, imports: seq<ObjectImport>, exports: seq<NamedExport>,
                                        preload: seq<PackageIndex>, p: Placement, placed: seq<ObjectImport>, c: nat)
    requires p.Consistent() && OrderInRange(p.order, p.count, |p.origin|) && p.count == |imports|
    requires Entries(names, imports, placed, p.origin)
    requires forall i: nat :: i < |imports| ==> Referred(imports, p.order, exports, i)
    requires c < |imports| && c !in p.remap
    ensures !EveryMapped(p.remap, placed, exports, preload)
    decreases |imports| - c
  {
    assert Referred(imports, p.order, exports, c);
    if c in p.order.Values {
      PredefinedIsMapped(p, c);
    } else if ExportRefers(exports, CreateImport(c)) {
      LostReference(p.remap, exports, c);
    } else {
      var j :| IsOuter(imports, c, j);
      if j in p.remap {
        LostOuter(names, imports, p, placed, c, j);
      } else {
        LostIsMissed(names, imports, exports, preload, p, placed, j);
      }
    }
  }

  /** Finalization aborts exactly when there is no room for all entries. */
  lemma {:induction false} AbortsWithoutRoom(t: Tables, exports: seq<NamedExport>, preload: seq<PackageIndex>,
                                             z: ZenPackage, resolution: Resolution, names: seq<string>, p: Placement,
                                             last: nat, placed: seq<ObjectImport>)
    requires TablesBuilt(t, p.order, exports, z, resolution)
    requires Placed(p, last) && OrderInRange(p.order, p.count, |p.origin|)
    requires p.count == |t.imports| && |p.origin| == Max(p.count, |z.imports|)
    requires Entries(names, t.imports, placed, p.origin)
    ensures p.Total() <==> z.HasRoom(resolution)
    ensures !p.Total() ==> !EveryMapped(p.remap, placed, exports, preload)
  {
    EntryCountIs(t, p.order, exports, z, resolution);
    PredefinedCount(t, p.order, exports, z, resolution);
    TotalIffRoom(p, last);
    if !p.Total() {
      var c: nat :| c < p.count && c !in p.remap;
      forall i: nat | i < |t.imports|
        ensures Referred(t.imports, p.order, exports, i)
      {
        EntryIsReferred(t, p.order, exports, z, resolution, i);
      }
      LostIsMissed(names, t.imports, exports, preload, p, placed, c);
    }
  }

  lemma {:induction false} ChainHoldsOuter(r: ResolvedImport)
    requires r.outer.Some?
    ensures |Chain(r)| >= 2
  {
    OuterIsNotInner(r);
    assert r.outer.value in Chain(r.outer.value);
    assert |Chain(r)| == 1 + |Chain(r.outer.value)|;
  }

  lemma {:induction false} RepeatedImportMentions(z: ZenPackage, p: PackageObject)
    requires z.imports == [p, p] && z.exports == [] && p.IsImport()
    ensures z.Listed() == {p} && z.Mentioned() == {p} && z.Positions() == {0, 1}
  {
    assert z.imports[0] in z.Listed();
  }

  /** An import map that names an object of another package twice is convertible but has no
      room: the second position takes the one that the package of the object would need. */
  lemma {:induction false} RepeatedImportHasNoRoom(z: ZenPackage, p: PackageObject, resolution: Resolution)
    requires z.imports == [p, p] && z.exports == [] && z.dependencies == []
    requires p.IsImport() && p in resolution && resolution[p].outer.Some?
    ensures z.Valid() && z.Convertible(resolution) && !z.HasRoom(resolution)
  {
    RepeatedImportMentions(z, p);
    ChainHoldsOuter(resolution[p]);
    assert NeededImports({p}, resolution) == Chain(resolution[p]);
    assert Targets({p}, resolution) == {resolution[p]} && Unresolved({p}, resolution) == {};
  }

  /** From a zen package to its legacy form. Whatever the numbering went through in
      between, the finished package refers to the same objects everywhere. The build goes
      through exactly when the package is convertible and has room for all imports; when
      the import map names no import twice, dependencies even keep their numbering. */
  method BuildAsset(z: ZenPackage, resolution: Resolution) returns (builder: LegacyAssetBuilder, ok: bool)
    requires z.Valid()
    ensures ok <==> z.Convertible(resolution) && z.HasRoom(resolution)
    ensures ok ==> Rehydrated(builder, z, resolution)
    ensures ok && ImportsDiffer(z.imports, resolution) ==> builder.preloadDependencies == z.dependencies
    ensures ImportsDiffer(z.imports, resolution) ==> (ok <==> z.Convertible(resolution))
  {
    builder, ok := PrepareAsset(z, resolution);
    if !ok {
      return;
    }
    PreparedMeans(builder, z, resolution);
    ghost var tables := TablesOf(builder);
    ghost var t := Temporary(builder.nameMap.names, builder.imports, builder.meanings, builder.exports,
                             builder.preloadDependencies);
    ghost var order := builder.originalImportOrder;
    assert t.Valid(z, resolution);
    ghost var p, last, placed;
    ok, p, last, placed := FinalizeAsset(builder, |z.imports|);
    AbortsWithoutRoom(tables, t.exports, t.preload, z, resolution, builder.nameMap.names, p, last, placed);
    if Injective(order) {
      InjectiveOrderUndone(p, last);
    }
    if p.Total() {
      NothingAborts(t, z, resolution, builder.nameMap.names, p, placed);
    }
    if ok {
      ghost var f := Finalization(p, t.meanings, builder.nameMap.names, builder.imports);
      ImportsRefer(f, z, resolution);
      ExportsRefer(f, t.names, t.exports, builder.exports, z, resolution);
      DependenciesRefer(f, t.preload, builder.preloadDependencies, z, resolution);
      if Injective(order) {
        DependenciesUnchanged(p, last, z.dependencies, t.preload, builder.preloadDependencies);
      }
    }
  }
}
