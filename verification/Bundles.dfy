/** Cutting a load order into export bundles, and the dependency arcs between them. */
module Bundles {
  import opened Zen
  import opened Sequences
  import opened LoadOrder
  import opened PreloadGraph

  // ------------------------------------------------------------ what bundles are

  function NodeOf(e: BundleEntry): DependencyNode {
    ExportNode(e.exportIndex, e.command)
  }

  /** The export commands of a load order. */
  ghost function ExportEntries(order: seq<GraphNode>): (r: seq<BundleEntry>)
    ensures |r| <= |order|
  {
    if order == [] then []
    else
      var last := order[|order| - 1];
      var r := ExportEntries(order[..|order| - 1]);
      if last.node.packageIndex.IsExport() then
        r + [BundleEntry(last.node.packageIndex.ToExportIndex(), last.node.command)]
      else r
  }

  predicate InRange(entries: seq<BundleEntry>, exportCount: nat) {
    forall i :: 0 <= i < |entries| ==> entries[i].exportIndex < exportCount
  }

  /** Bytes taken by the Serialize commands of the entries. */
  ghost function SerialSize(entries: seq<BundleEntry>, sizes: seq<nat>): nat
    requires InRange(entries, |sizes|)
  {
    if entries == [] then 0
    else
      var last := entries[|entries| - 1];
      SerialSize(entries[..|entries| - 1], sizes) + (if last.command.Serialize? then sizes[last.exportIndex] else 0)
  }

  function BundleEnd(h: BundleHeader): nat {
    h.firstEntry + h.entryCount
  }

  /** Entry `i` belongs to bundle `b`. */
  predicate InBundle(headers: seq<BundleHeader>, b: int, i: int) {
    0 <= b < |headers| && headers[b].firstEntry <= i < BundleEnd(headers[b])
  }

  /** Where the first `b` bundles end. */
  function StartOf(headers: seq<BundleHeader>, b: nat): nat
    requires b <= |headers|
  {
    if b == 0 then 0 else BundleEnd(headers[b - 1])
  }

  /** The bundles are nonempty and cover the entries 0 to n-1 without gap or overlap. */
  ghost predicate Tiles(headers: seq<BundleHeader>, n: nat) {
    && (forall b :: 0 <= b < |headers| ==> headers[b].entryCount >= 1)
    && (forall b {:trigger StartOf(headers, b)} :: 0 <= b < |headers| ==> headers[b].firstEntry == StartOf(headers, b))
    && n == StartOf(headers, |headers|)
  }

  /** Only the last entry of a bundle may be a public export, and in every bundle but
      the last it is one. */
  ghost predicate ClosedByPublic(headers: seq<BundleHeader>, entries: seq<BundleEntry>, isPublic: seq<bool>)
    requires InRange(entries, |isPublic|)
    requires Tiles(headers, |entries|)
  {
    && (forall b, i :: InBundle(headers, b, i) && i < BundleEnd(headers[b]) - 1 ==>
        0 <= i < |entries| && !isPublic[entries[i].exportIndex])
    && (forall b :: 0 <= b < |headers| - 1 ==>
        BundleEnd(headers[b]) <= |entries| && isPublic[entries[BundleEnd(headers[b]) - 1].exportIndex])
  }

  /** Bundle data follows the bundles in order. */
  ghost predicate OffsetsFollow(headers: seq<BundleHeader>, entries: seq<BundleEntry>, sizes: seq<nat>)
    requires InRange(entries, |sizes|)
  {
    forall b :: 0 <= b < |headers| ==> OffsetFollows(headers[b], entries, sizes)
  }

  ghost predicate OffsetFollows(h: BundleHeader, entries: seq<BundleEntry>, sizes: seq<nat>)
    requires InRange(entries, |sizes|)
  {
    h.firstEntry <= |entries| && h.serialOffset == SerialSize(entries[..h.firstEntry], sizes)
  }

  /** How the entries of a package are bundled. */
  ghost predicate Bundled(headers: seq<BundleHeader>, entries: seq<BundleEntry>, isPublic: seq<bool>, sizes: seq<nat>) {
    && |isPublic| == |sizes|
    && InRange(entries, |sizes|)
    && Tiles(headers, |entries|)
    && ClosedByPublic(headers, entries, isPublic)
    && OffsetsFollow(headers, entries, sizes)
  }

  lemma {:induction false} TilesBounds(headers: seq<BundleHeader>, n: nat, b: nat)
    requires Tiles(headers, n) && b < |headers|
    ensures BundleEnd(headers[b]) <= n
    ensures b < |headers| - 1 ==> BundleEnd(headers[b]) < n
    decreases |headers| - b
  {
    if b < |headers| - 1 {
      assert headers[b + 1].firstEntry == StartOf(headers, b + 1);
      TilesBounds(headers, n, b + 1);
    }
  }

  /** Bundles with a smaller index hold smaller entries. */
  lemma {:induction false} TilesAscend(headers: seq<BundleHeader>, n: nat, b: nat, c: nat)
    requires Tiles(headers, n) && b < c < |headers|
    ensures BundleEnd(headers[b]) <= headers[c].firstEntry
    decreases c
  {
    assert headers[c].firstEntry == StartOf(headers, c);
    if b < c - 1 {
      TilesAscend(headers, n, b, c - 1);
    }
  }

  /** Every entry belongs to exactly one bundle. */
  lemma {:induction false} TilesPartition(headers: seq<BundleHeader>, n: nat, i: nat)
    requires Tiles(headers, n) && i < n
    ensures exists b :: InBundle(headers, b, i)
    ensures forall b, c :: InBundle(headers, b, i) && InBundle(headers, c, i) ==> b == c
  {
    var b := |headers| - 1;
    while i < headers[b].firstEntry
      invariant 0 <= b < |headers| && i < BundleEnd(headers[b])
    {
      assert headers[b].firstEntry == StartOf(headers, b);
      b := b - 1;
    }
    assert InBundle(headers, b, i);
    forall c, d | InBundle(headers, c, i) && InBundle(headers, d, i)
      ensures c == d
    {
      if c < d {
        TilesAscend(headers, n, c, d);
      } else if d < c {
        TilesAscend(headers, n, d, c);
      }
    }
  }

  /** There is only one way to bundle a sequence of entries. */
  lemma {:induction false} BundledIsUnique(g: seq<BundleHeader>, h: seq<BundleHeader>, entries: seq<BundleEntry>,
                                           isPublic: seq<bool>, sizes: seq<nat>)
    requires Bundled(g, entries, isPublic, sizes) && Bundled(h, entries, isPublic, sizes)
    ensures g == h
  {
    var b := if |g| < |h| then |g| else |h|;
    LeadingBundlesAgree(g, h, entries, isPublic, sizes, b);
    assert g[..|g|] == g && h[..|h|] == h;
    if |h| <= |g| {
      MoreBundlesMoreEntries(g, h, |entries|);
    } else {
      MoreBundlesMoreEntries(h, g, |entries|);
    }
  }

  lemma {:induction false} LeadingBundlesAgree(g: seq<BundleHeader>, h: seq<BundleHeader>, entries: seq<BundleEntry>,
                                               isPublic: seq<bool>, sizes: seq<nat>, b: nat)
    requires Bundled(g, entries, isPublic, sizes) && Bundled(h, entries, isPublic, sizes)
    requires b <= |g| && b <= |h|
    ensures g[..b] == h[..b]
  {
    if b > 0 {
      var a := b - 1;
      LeadingBundlesAgree(g, h, entries, isPublic, sizes, a);
      assert a > 0 ==> g[a - 1] == g[..a][a - 1] && h[a - 1] == h[..a][a - 1];
      assert g[a].firstEntry == StartOf(g, a) && h[a].firstEntry == StartOf(h, a);
      BundleEndsAgree(g, h, entries, isPublic, sizes, a);
      BundleEndsAgree(h, g, entries, isPublic, sizes, a);
      assert g[a] == h[a];
      assert g[..b] == g[..a] + [g[a]] && h[..b] == h[..a] + [h[a]];
    }
  }

  lemma {:induction false} MoreBundlesMoreEntries(g: seq<BundleHeader>, h: seq<BundleHeader>, n: nat)
    requires Tiles(g, n) && Tiles(h, n) && |h| <= |g| && g[..|h|] == h
    ensures |g| == |h|
  {
    if |h| < |g| {
      assert |h| > 0 ==> g[|h| - 1] == g[..|h|][|h| - 1];
      assert g[|h|].firstEntry == StartOf(g, |h|);
      TilesBounds(g, n, |h|);
      assert false;
    }
  }

  lemma {:induction false} BundleEndsAgree(g: seq<BundleHeader>, h: seq<BundleHeader>, entries: seq<BundleEntry>,
                                           isPublic: seq<bool>, sizes: seq<nat>, b: nat)
    requires Bundled(g, entries, isPublic, sizes) && Bundled(h, entries, isPublic, sizes)
    requires b < |g| && b < |h| && g[b].firstEntry == h[b].firstEntry
    ensures g[b].entryCount <= h[b].entryCount
  {
    TilesBounds(g, |entries|, b);
    TilesBounds(h, |entries|, b);
    var i := BundleEnd(h[b]) - 1;
    var closes := isPublic[entries[i].exportIndex];
    assert InBundle(g, b, i) && i < BundleEnd(g[b]) - 1 ==> !closes;
  }

  // ------------------------------------------------------------ growing bundles

  /** The last bundle still accepts entries. */
  ghost predicate IsOpen(entries: seq<BundleEntry>, isPublic: seq<bool>)
    requires InRange(entries, |isPublic|)
  {
    entries != [] && !isPublic[entries[|entries| - 1].exportIndex]
  }

  function Grow(last: BundleHeader): BundleHeader {
    last.(entryCount := last.entryCount + 1)
  }

  lemma {:induction false} SerialSizeGrows(entries: seq<BundleEntry>, e: BundleEntry, sizes: seq<nat>)
    requires InRange(entries, |sizes|) && e.exportIndex < |sizes|
    ensures InRange(entries + [e], |sizes|)
    ensures SerialSize(entries + [e], sizes) ==
              SerialSize(entries, sizes) + (if e.command.Serialize? then sizes[e.exportIndex] else 0)
  {
    assert (entries + [e])[..|entries + [e]| - 1] == entries;
  }

  lemma {:induction false} TilesOpen(headers: seq<BundleHeader>, n: nat, offset: nat)
    requires Tiles(headers, n)
    ensures Tiles(headers + [BundleHeader(offset, n, 1)], n + 1)
  {
    var h := headers + [BundleHeader(offset, n, 1)];
    forall b | 0 <= b < |h|
      ensures h[b].firstEntry == StartOf(h, b)
    {
      assert b > 0 ==> h[b - 1] == headers[b - 1];
      assert b < |headers| ==> headers[b].firstEntry == StartOf(headers, b);
    }
  }

  lemma {:induction false} TilesExtend(headers: seq<BundleHeader>, n: nat)
    requires Tiles(headers, n) && headers != []
    ensures Tiles(headers[|headers| - 1 := Grow(headers[|headers| - 1])], n + 1)
  {
    var last := |headers| - 1;
    var h := headers[last := Grow(headers[last])];
    forall b | 0 <= b < |h|
      ensures h[b].firstEntry == StartOf(h, b)
    {
      assert headers[b].firstEntry == StartOf(headers, b);
      assert b > 0 ==> h[b - 1] == headers[b - 1];
    }
  }

  lemma {:induction false} OffsetsGrow(headers: seq<BundleHeader>, entries: seq<BundleEntry>, sizes: seq<nat>,
                                       e: BundleEntry)
    requires InRange(entries, |sizes|) && e.exportIndex < |sizes| && OffsetsFollow(headers, entries, sizes)
    ensures OffsetsFollow(headers + [BundleHeader(SerialSize(entries, sizes), |entries|, 1)], entries + [e], sizes)
    ensures headers != [] ==> OffsetsFollow(headers[|headers| - 1 := Grow(headers[|headers| - 1])], entries + [e],
                                            sizes)
  {
    assert (entries + [e])[..|entries|] == entries;
    forall b | 0 <= b < |headers|
      ensures (entries + [e])[..headers[b].firstEntry] == entries[..headers[b].firstEntry]
    {
    }
  }

  lemma {:induction false} EndsPublic(headers: seq<BundleHeader>, entries: seq<BundleEntry>, isPublic: seq<bool>,
                                      b: nat)
    requires InRange(entries, |isPublic|) && Tiles(headers, |entries|) && ClosedByPublic(headers, entries, isPublic)
    requires !IsOpen(entries, isPublic) && b < |headers|
    ensures 1 <= BundleEnd(headers[b]) <= |entries| && isPublic[entries[BundleEnd(headers[b]) - 1].exportIndex]
  {
    if b == |headers| - 1 {
      assert BundleEnd(headers[b]) == StartOf(headers, |headers|);
    }
  }

  /** Opening a bundle for a new entry keeps the entries bundled. */
  lemma {:induction false} BundledOpens(headers: seq<BundleHeader>, entries: seq<BundleEntry>, isPublic: seq<bool>,
                                        sizes: seq<nat>, e: BundleEntry)
    requires Bundled(headers, entries, isPublic, sizes) && !IsOpen(entries, isPublic) && e.exportIndex < |sizes|
    ensures Bundled(headers + [BundleHeader(SerialSize(entries, sizes), |entries|, 1)], entries + [e], isPublic, sizes)
  {
    var h := headers + [BundleHeader(SerialSize(entries, sizes), |entries|, 1)];
    var es := entries + [e];
    TilesOpen(headers, |entries|, SerialSize(entries, sizes));
    OffsetsGrow(headers, entries, sizes, e);
    assert ClosedByPublic(h, es, isPublic) by {
      forall b, i | InBundle(h, b, i) && i < BundleEnd(h[b]) - 1
        ensures 0 <= i < |es| && !isPublic[es[i].exportIndex]
      {
        assert InBundle(headers, b, i);
      }
      forall b | 0 <= b < |headers|
        ensures BundleEnd(h[b]) <= |es| && isPublic[es[BundleEnd(h[b]) - 1].exportIndex]
      {
        EndsPublic(headers, entries, isPublic, b);
        assert h[b] == headers[b] && es[BundleEnd(h[b]) - 1] == entries[BundleEnd(headers[b]) - 1];
      }
    }
  }

  /** Extending the open bundle with a new entry keeps the entries bundled. */
  lemma {:induction false} BundledExtends(headers: seq<BundleHeader>, entries: seq<BundleEntry>, isPublic: seq<bool>,
                                          sizes: seq<nat>, e: BundleEntry)
    requires Bundled(headers, entries, isPublic, sizes) && IsOpen(entries, isPublic) && e.exportIndex < |sizes|
    ensures headers != []
    ensures Bundled(headers[|headers| - 1 := Grow(headers[|headers| - 1])], entries + [e], isPublic, sizes)
  {
    assert headers != [];
    var h := headers[|headers| - 1 := Grow(headers[|headers| - 1])];
    var es := entries + [e];
    TilesExtend(headers, |entries|);
    forall b | 0 <= b < |headers|
      ensures BundleEnd(headers[b]) <= |entries|
    {
      TilesBounds(headers, |entries|, b);
    }
    OffsetsGrow(headers, entries, sizes, e);
    assert ClosedByPublic(h, es, isPublic) by {
      forall b, i | InBundle(h, b, i) && i < BundleEnd(h[b]) - 1
        ensures 0 <= i < |es| && !isPublic[es[i].exportIndex]
      {
        assert InBundle(headers, b, i);
      }
      forall b | 0 <= b < |h| - 1
        ensures BundleEnd(h[b]) <= |es| && isPublic[es[BundleEnd(h[b]) - 1].exportIndex]
      {
        assert es[BundleEnd(h[b]) - 1] == entries[BundleEnd(headers[b]) - 1];
      }
    }
  }

  /** The bundle headers after one more entry. */
  ghost function Appended(headers: seq<BundleHeader>, entries: seq<BundleEntry>, isPublic: seq<bool>,
                          offset: nat): seq<BundleHeader>
    requires InRange(entries, |isPublic|)
    requires IsOpen(entries, isPublic) ==> headers != []
  {
    if IsOpen(entries, isPublic) then headers[|headers| - 1 := Grow(headers[|headers| - 1])]
    else headers + [BundleHeader(offset, |entries|, 1)]
  }

  lemma {:induction false} AppendedIsBundled(headers: seq<BundleHeader>, entries: seq<BundleEntry>,
                                             isPublic: seq<bool>, sizes: seq<nat>, e: BundleEntry)
    requires Bundled(headers, entries, isPublic, sizes) && e.exportIndex < |sizes|
    ensures IsOpen(entries, isPublic) ==> headers != []
    ensures var h := Appended(headers, entries, isPublic, SerialSize(entries, sizes));
            h != [] && Bundled(h, entries + [e], isPublic, sizes) && GrewByOne(headers, h, |entries|, |h| - 1)
  {
    if IsOpen(entries, isPublic) {
      BundledExtends(headers, entries, isPublic, sizes, e);
    } else {
      BundledOpens(headers, entries, isPublic, sizes, e);
    }
    GrownInBundle(headers, |entries|, Appended(headers, entries, isPublic, SerialSize(entries, sizes)));
  }

  // ---------------------------------------------------------------- the builder

  /** What an import of another package's export resolves to: the position of the
      package among the imported packages and the global id of the export. Script
      imports and removed package imports resolve to nothing. */
  datatype ImportTarget = ImportTarget(slot: nat, objectId: nat)

  datatype InternalArc = InternalArc(fromBundle: int, toBundle: int)

  datatype ExternalArc = ExternalArc(fromImport: nat, fromCommand: CommandType, toBundle: int)

  datatype ExternalDependency = ExternalDependency(packageId: nat, externalArcs: seq<ExternalArc>,
                                                   legacyArcs: seq<InternalArc>)

  /** Remembers which export a placeholder arc stands for. */
  datatype Placeholder = Placeholder(id: int, packageId: nat, objectId: nat, command: CommandType)

  /** Where another package finds a command of a public export. */
  datatype BundleMapping = BundleMapping(objectId: nat, command: CommandType, bundle: int)

  /** One dependency of a bundle: `node` has to complete before bundle `to`. */
  datatype Visit = Visit(to: int, node: DependencyNode)

  function TargetOf(imports: seq<Option<ImportTarget>>, n: DependencyNode): Option<ImportTarget> {
    if n.packageIndex.IsImport() && n.packageIndex.ToImportIndex() < |imports|
    then imports[n.packageIndex.ToImportIndex()]
    else None
  }

  /** A dependency on an export in another bundle. */
  predicate CrossesBundles(v: Visit, bundleOf: map<DependencyNode, nat>) {
    v.node.packageIndex.IsExport() && v.node in bundleOf && bundleOf[v.node] != v.to
  }

  /** A dependency on an export of the imported package `slot`. */
  predicate Reaches(v: Visit, imports: seq<Option<ImportTarget>>, slot: nat) {
    TargetOf(imports, v.node).Some? && TargetOf(imports, v.node).value.slot == slot
  }

  ghost predicate Internal(v: Visit, bundleOf: map<DependencyNode, nat>, a: InternalArc) {
    CrossesBundles(v, bundleOf) && a == InternalArc(bundleOf[v.node], v.to)
  }

  ghost predicate External(v: Visit, imports: seq<Option<ImportTarget>>, slot: nat, a: ExternalArc) {
    Reaches(v, imports, slot) && a == ExternalArc(v.node.packageIndex.ToImportIndex(), v.node.command, v.to)
  }

  ghost predicate Unresolved(v: Visit, imports: seq<Option<ImportTarget>>, slot: nat, a: InternalArc) {
    Reaches(v, imports, slot) && a == InternalArc(-1, v.to)
  }

  /** One internal arc for each pair of bundles with a dependency between them. */
  ghost predicate InternalArcsOf(arcs: seq<InternalArc>, visits: seq<Visit>, bundleOf: map<DependencyNode, nat>) {
    && Distinct(arcs)
    && (forall a :: a in arcs <==> exists v :: v in visits && Internal(v, bundleOf, a))
  }

  ghost predicate ExternalArcsOf(arcs: seq<ExternalArc>, visits: seq<Visit>, imports: seq<Option<ImportTarget>>,
                                 slot: nat)
  {
    && Distinct(arcs)
    && (forall a :: a in arcs <==> exists v :: v in visits && External(v, imports, slot, a))
  }

  ghost predicate UnresolvedArcsOf(arcs: seq<InternalArc>, visits: seq<Visit>, imports: seq<Option<ImportTarget>>,
                                   slot: nat)
  {
    && Distinct(arcs)
    && (forall a :: a in arcs <==> exists v :: v in visits && Unresolved(v, imports, slot, a))
  }

  /** The placeholders are numbered in the order of the dependencies on other packages. */
  ghost function PlaceholdersOf(visits: seq<Visit>, imports: seq<Option<ImportTarget>>,
                                packages: seq<nat>): seq<Placeholder>
    requires SlotsInRange(imports, packages)
  {
    if visits == [] then []
    else
      var v := visits[|visits| - 1];
      var r := PlaceholdersOf(visits[..|visits| - 1], imports, packages);
      match TargetOf(imports, v.node)
      case None => r
      case Some(t) => r + [Placeholder(|r|, packages[t.slot], t.objectId, v.node.command)]
  }

  /** The arcs from one imported package; each stands for its own placeholder. */
  ghost function PlaceholderArcs(visits: seq<Visit>, imports: seq<Option<ImportTarget>>, packages: seq<nat>,
                                 slot: nat): seq<InternalArc>
    requires SlotsInRange(imports, packages)
  {
    if visits == [] then []
    else
      var v := visits[|visits| - 1];
      var rest := visits[..|visits| - 1];
      PlaceholderArcs(rest, imports, packages, slot)
      + (if Reaches(v, imports, slot) then [InternalArc(|PlaceholdersOf(rest, imports, packages)|, v.to)] else [])
  }

  ghost predicate SlotsInRange(imports: seq<Option<ImportTarget>>, packages: seq<nat>) {
    forall i :: 0 <= i < |imports| ==> imports[i].None? || imports[i].value.slot < |packages|
  }

  /** The arcs from one imported package, in the form the container version calls for. */
  ghost predicate DependencyOf(d: ExternalDependency, visits: seq<Visit>, imports: seq<Option<ImportTarget>>,
                               packages: seq<nat>, p: nat, legacy: bool, fixup: bool)
    requires SlotsInRange(imports, packages)
  {
    && (if legacy then d.externalArcs == [] else ExternalArcsOf(d.externalArcs, visits, imports, p))
    && (if !legacy then d.legacyArcs == []
        else if fixup then d.legacyArcs == PlaceholderArcs(visits, imports, packages, p)
        else UnresolvedArcsOf(d.legacyArcs, visits, imports, p))
  }

  lemma {:induction false} PlaceholderArcsAreNumbered(visits: seq<Visit>, imports: seq<Option<ImportTarget>>,
                                                      packages: seq<nat>, slot: nat, a: InternalArc)
    requires SlotsInRange(imports, packages) && a in PlaceholderArcs(visits, imports, packages, slot)
    ensures 0 <= a.fromBundle < |PlaceholdersOf(visits, imports, packages)|
  {
    var rest := visits[..|visits| - 1];
    if a in PlaceholderArcs(rest, imports, packages, slot) {
      PlaceholderArcsAreNumbered(rest, imports, packages, slot, a);
    }
  }

  lemma {:induction false} MembershipAfter(visits: seq<Visit>, v: Visit)
    ensures forall x :: x in visits + [v] <==> x in visits || x == v
  {
  }

  /** A dependency that does not reach the package leaves its arcs alone. */
  lemma {:induction false} DependencyUnchanged(d: ExternalDependency, visits: seq<Visit>, v: Visit,
                                               imports: seq<Option<ImportTarget>>, packages: seq<nat>, p: nat,
                                               legacy: bool, fixup: bool)
    requires SlotsInRange(imports, packages) && !Reaches(v, imports, p)
    requires DependencyOf(d, visits, imports, packages, p, legacy, fixup)
    ensures DependencyOf(d, visits + [v], imports, packages, p, legacy, fixup)
  {
    MembershipAfter(visits, v);
    assert (visits + [v])[..|visits|] == visits;
  }

  lemma {:induction false} ExternalArcsGrow(arcs: seq<ExternalArc>, visits: seq<Visit>, v: Visit,
                                            imports: seq<Option<ImportTarget>>, p: nat)
    requires ExternalArcsOf(arcs, visits, imports, p) && Reaches(v, imports, p)
    ensures var a := ExternalArc(v.node.packageIndex.ToImportIndex(), v.node.command, v.to);
            ExternalArcsOf(if a in arcs then arcs else arcs + [a], visits + [v], imports, p)
  {
    MembershipAfter(visits, v);
    assert v in visits + [v] &&
        External(v, imports, p, ExternalArc(v.node.packageIndex.ToImportIndex(), v.node.command, v.to));
  }

  lemma {:induction false} UnresolvedArcsGrow(arcs: seq<InternalArc>, visits: seq<Visit>, v: Visit,
                                              imports: seq<Option<ImportTarget>>, p: nat)
    requires UnresolvedArcsOf(arcs, visits, imports, p) && Reaches(v, imports, p)
    ensures var a := InternalArc(-1, v.to);
            UnresolvedArcsOf(if a in arcs then arcs else arcs + [a], visits + [v], imports, p)
  {
    MembershipAfter(visits, v);
    assert v in visits + [v] && Unresolved(v, imports, p, InternalArc(-1, v.to));
  }

  lemma {:induction false} InternalArcsGrow(arcs: seq<InternalArc>, visits: seq<Visit>, v: Visit,
                                            bundleOf: map<DependencyNode, nat>)
    requires InternalArcsOf(arcs, visits, bundleOf)
    ensures if CrossesBundles(v, bundleOf)
            then var a := InternalArc(bundleOf[v.node], v.to);
                 InternalArcsOf(if a in arcs then arcs else arcs + [a], visits + [v], bundleOf)
            else InternalArcsOf(arcs, visits + [v], bundleOf)
  {
    MembershipAfter(visits, v);
    if CrossesBundles(v, bundleOf) {
      assert v in visits + [v] && Internal(v, bundleOf, InternalArc(bundleOf[v.node], v.to));
    }
  }

  // ------------------------------------------- placeholders and their arcs

  /** Placeholder `x` and arc `a` were made for dependency `v` on the package in slot `p`. */
  ghost predicate MadeFor(x: Placeholder, a: InternalArc, v: Visit, imports: seq<Option<ImportTarget>>,
                          packages: seq<nat>, p: nat)
    requires p < |packages|
  {
    && Reaches(v, imports, p)
    && x == Placeholder(a.fromBundle, packages[p], TargetOf(imports, v.node).value.objectId, v.node.command)
    && a.toBundle == v.to
  }

  lemma {:induction false} PlaceholdersNumbered(visits: seq<Visit>, imports: seq<Option<ImportTarget>>,
                                                packages: seq<nat>, k: nat)
    requires SlotsInRange(imports, packages) && k < |PlaceholdersOf(visits, imports, packages)|
    ensures PlaceholdersOf(visits, imports, packages)[k].id == k
    ensures |visits| > 0 && k < |PlaceholdersOf(visits[..|visits| - 1], imports, packages)| ==>
              PlaceholdersOf(visits, imports, packages)[k] ==
                  PlaceholdersOf(visits[..|visits| - 1], imports, packages)[k]
  {
    var rest := visits[..|visits| - 1];
    if k < |PlaceholdersOf(rest, imports, packages)| {
      PlaceholdersNumbered(rest, imports, packages, k);
    }
  }

  /** Every serialized placeholder arc was made for a dependency. */
  lemma {:induction false} ArcHasDependency(visits: seq<Visit>, imports: seq<Option<ImportTarget>>,
                                            packages: seq<nat>, p: nat, a: InternalArc)
    returns (v: Visit)
    requires SlotsInRange(imports, packages) && p < |packages|
    requires a in PlaceholderArcs(visits, imports, packages, p)
    ensures 0 <= a.fromBundle < |PlaceholdersOf(visits, imports, packages)|
    ensures v in visits && MadeFor(PlaceholdersOf(visits, imports, packages)[a.fromBundle], a, v, imports, packages, p)
  {
    var last, rest := visits[|visits| - 1], visits[..|visits| - 1];
    if a in PlaceholderArcs(rest, imports, packages, p) {
      v := ArcHasDependency(rest, imports, packages, p, a);
      PlaceholdersNumbered(visits, imports, packages, a.fromBundle);
    } else {
      v := last;
    }
  }

  /** Every dependency on another package has an arc and a placeholder. */
  lemma {:induction false} DependencyHasArc(visits: seq<Visit>, imports: seq<Option<ImportTarget>>,
                                            packages: seq<nat>, p: nat, v: Visit)
    returns (a: InternalArc)
    requires SlotsInRange(imports, packages) && p < |packages| && v in visits && Reaches(v, imports, p)
    ensures a in PlaceholderArcs(visits, imports, packages, p)
    ensures 0 <= a.fromBundle < |PlaceholdersOf(visits, imports, packages)|
    ensures MadeFor(PlaceholdersOf(visits, imports, packages)[a.fromBundle], a, v, imports, packages, p)
  {
    var last, rest := visits[|visits| - 1], visits[..|visits| - 1];
    if v == last {
      a := InternalArc(|PlaceholdersOf(rest, imports, packages)|, v.to);
    } else {
      a := DependencyHasArc(rest, imports, packages, p, v);
      PlaceholdersNumbered(visits, imports, packages, a.fromBundle);
    }
  }

  /** Every placeholder has an arc. */
  lemma {:induction false} PlaceholderHasArc(visits: seq<Visit>, imports: seq<Option<ImportTarget>>,
                                             packages: seq<nat>, id: nat)
    returns (p: nat, a: InternalArc)
    requires SlotsInRange(imports, packages) && id < |PlaceholdersOf(visits, imports, packages)|
    ensures p < |packages| && a in PlaceholderArcs(visits, imports, packages, p) && a.fromBundle == id
  {
    var last, rest := visits[|visits| - 1], visits[..|visits| - 1];
    if id < |PlaceholdersOf(rest, imports, packages)| {
      p, a := PlaceholderHasArc(rest, imports, packages, id);
    } else {
      p := TargetOf(imports, last.node).value.slot;
      a := InternalArc(id, last.to);
    }
  }

  ghost function VisitsTo(list: seq<DependencyNode>, to: int): seq<Visit> {
    seq(|list|, i requires 0 <= i < |list| => Visit(to, list[i]))
  }

  lemma {:induction false} VisitsStep(before: seq<Visit>, list: seq<DependencyNode>, to: int, i: nat)
    requires i < |list|
    ensures before + VisitsTo(list[..i + 1], to) == before + VisitsTo(list[..i], to) + [Visit(to, list[i])]
  {
  }

  /** Both commands of the first n exports are described and located. */
  ghost predicate Covers(m: DependencyMap, bundleOf: map<DependencyNode, nat>, n: nat) {
    forall e, c :: 0 <= e < n ==> ExportNode(e, c) in m && ExportNode(e, c) in bundleOf
  }

  /** All dependencies of the first n exports. */
  ghost function AllVisits(m: DependencyMap, bundleOf: map<DependencyNode, nat>, n: nat): seq<Visit>
    requires Covers(m, bundleOf, n)
  {
    if n == 0 then []
    else
      var create, serialize := ExportNode(n - 1, Create), ExportNode(n - 1, Serialize);
      AllVisits(m, bundleOf, n - 1) + VisitsTo(m[create], bundleOf[create]) +
          VisitsTo(m[serialize], bundleOf[serialize])
  }

  /** Every dependency of an export is visited, for the bundle of its command. */
  lemma {:induction false} AllVisitsComplete(m: DependencyMap, bundleOf: map<DependencyNode, nat>, n: nat, e: nat,
                                             c: CommandType, d: DependencyNode)
    requires Covers(m, bundleOf, n) && e < n && d in m[ExportNode(e, c)]
    ensures Visit(bundleOf[ExportNode(e, c)], d) in AllVisits(m, bundleOf, n)
  {
    if e < n - 1 {
      AllVisitsComplete(m, bundleOf, n - 1, e, c, d);
    } else {
      var list := m[ExportNode(e, c)];
      var k :| 0 <= k < |list| && list[k] == d;
      assert VisitsTo(list, bundleOf[ExportNode(e, c)])[k] == Visit(bundleOf[ExportNode(e, c)], d);
    }
  }

  /** Every visit comes from such a dependency. */
  lemma {:induction false} AllVisitsSound(m: DependencyMap, bundleOf: map<DependencyNode, nat>, n: nat, v: Visit)
    returns (e: nat, c: CommandType)
    requires Covers(m, bundleOf, n) && v in AllVisits(m, bundleOf, n)
    ensures e < n && v.node in m[ExportNode(e, c)] && v.to == bundleOf[ExportNode(e, c)]
  {
    if v in AllVisits(m, bundleOf, n - 1) {
      e, c := AllVisitsSound(m, bundleOf, n - 1, v);
    } else {
      e := n - 1;
      c := if v in VisitsTo(m[ExportNode(e, Create)], bundleOf[ExportNode(e, Create)]) then Create else Serialize;
    }
  }

  // ------------------------------------ what the arcs are for, in terms of the exports

  /** Command `c` of export `e` waits for `d`, a command of the object `t` of another package. */
  ghost predicate WaitsFor(m: DependencyMap, exportCount: nat, imports: seq<Option<ImportTarget>>, e: nat,
                           c: CommandType, d: DependencyNode, t: ImportTarget)
  {
    && e < exportCount && ExportNode(e, c) in m && d in m[ExportNode(e, c)]
    && d.packageIndex.index < 0 && -1 - d.packageIndex.index < |imports|
    && imports[-1 - d.packageIndex.index] == Some(t)
  }

  /** Placeholder `k` records the command of the object, and an arc from its package carries
      its number to bundle `to`. */
  ghost predicate HasPlaceholder(deps: seq<ExternalDependency>, placeholders: seq<Placeholder>, packages: seq<nat>,
                                 t: ImportTarget, command: CommandType, to: int, k: nat)
  {
    && k < |placeholders| && t.slot < |packages| && t.slot < |deps|
    && placeholders[k] == Placeholder(k, packages[t.slot], t.objectId, command)
    && InternalArc(k, to) in deps[t.slot].legacyArcs
  }

  /** Bundle `to` has the arc that a dependency on import `i` calls for: from UE5 on one that
      names the import and the command, before an arc from an unknown bundle or a placeholder. */
  ghost predicate Served(deps: seq<ExternalDependency>, placeholders: seq<Placeholder>, packages: seq<nat>,
                         legacy: bool, fixup: bool, i: nat, t: ImportTarget, command: CommandType, to: int)
  {
    && t.slot < |deps|
    && if !legacy then ExternalArc(i, command, to) in deps[t.slot].externalArcs
       else if !fixup then InternalArc(-1, to) in deps[t.slot].legacyArcs
       else exists k :: HasPlaceholder(deps, placeholders, packages, t, command, to, k)
  }

  /** Every dependency on another package has its arc. */
  ghost predicate AllServed(m: DependencyMap, n: nat, bundleOf: map<DependencyNode, nat>,
                            imports: seq<Option<ImportTarget>>, packages: seq<nat>, legacy: bool, fixup: bool,
                            deps: seq<ExternalDependency>, placeholders: seq<Placeholder>)
    requires Covers(m, bundleOf, n)
  {
    forall e, c, d, t {:trigger WaitsFor(m, n, imports, e, c, d, t)} :: WaitsFor(m, n, imports, e, c, d, t) ==>
      Served(deps, placeholders, packages, legacy, fixup, -1 - d.packageIndex.index, t, d.command,
             bundleOf[ExportNode(e, c)])
  }

  ghost predicate ExternalFrom(m: DependencyMap, n: nat, bundleOf: map<DependencyNode, nat>,
                               imports: seq<Option<ImportTarget>>, p: nat, a: ExternalArc)
    requires Covers(m, bundleOf, n)
  {
    exists e, c, d, t :: WaitsFor(m, n, imports, e, c, d, t) && t.slot == p &&
      a == ExternalArc(-1 - d.packageIndex.index, d.command, bundleOf[ExportNode(e, c)])
  }

  ghost predicate UnknownFrom(m: DependencyMap, n: nat, bundleOf: map<DependencyNode, nat>,
                              imports: seq<Option<ImportTarget>>, p: nat, a: InternalArc)
    requires Covers(m, bundleOf, n)
  {
    exists e, c, d, t :: WaitsFor(m, n, imports, e, c, d, t) && t.slot == p &&
      a == InternalArc(-1, bundleOf[ExportNode(e, c)])
  }

  ghost predicate PlaceholderFrom(m: DependencyMap, n: nat, bundleOf: map<DependencyNode, nat>,
                                  imports: seq<Option<ImportTarget>>, packages: seq<nat>,
                                  placeholders: seq<Placeholder>, p: nat, a: InternalArc)
    requires Covers(m, bundleOf, n)
  {
    exists e, c, d, t :: WaitsFor(m, n, imports, e, c, d, t) && t.slot == p < |packages| &&
      0 <= a.fromBundle < |placeholders| && a.toBundle == bundleOf[ExportNode(e, c)] &&
      placeholders[a.fromBundle] == Placeholder(a.fromBundle, packages[p], t.objectId, d.command)
  }

  ghost predicate PlaceholderUsed(deps: seq<ExternalDependency>, k: nat) {
    exists p, a :: 0 <= p < |deps| && a in deps[p].legacyArcs && a.fromBundle == k
  }

  /** Every arc from another package, and every placeholder, is there for a dependency. */
  ghost predicate NoneSuperfluous(m: DependencyMap, n: nat, bundleOf: map<DependencyNode, nat>,
                                  imports: seq<Option<ImportTarget>>, packages: seq<nat>, legacy: bool, fixup: bool,
                                  deps: seq<ExternalDependency>, placeholders: seq<Placeholder>)
    requires Covers(m, bundleOf, n)
  {
    && (forall p: nat, a {:trigger a in deps[p].externalArcs} :: p < |deps| && a in deps[p].externalArcs ==>
          !legacy && ExternalFrom(m, n, bundleOf, imports, p, a))
    && (forall p: nat, a {:trigger a in deps[p].legacyArcs} :: p < |deps| && a in deps[p].legacyArcs ==>
          && legacy
          && if fixup then PlaceholderFrom(m, n, bundleOf, imports, packages, placeholders, p, a)
             else UnknownFrom(m, n, bundleOf, imports, p, a))
    && (forall k: nat :: k < |placeholders| ==> legacy && fixup && PlaceholderUsed(deps, k))
  }

  /** An internal arc joins two bundles if and only if a command in the one waits for a
      command in the other. */
  ghost predicate InternalArcsJoin(m: DependencyMap, n: nat, bundleOf: map<DependencyNode, nat>, arcs: seq<InternalArc>)
    requires Covers(m, bundleOf, n)
  {
    forall a :: a in arcs <==> Joins(m, n, bundleOf, a)
  }

  ghost predicate Joins(m: DependencyMap, n: nat, bundleOf: map<DependencyNode, nat>, a: InternalArc)
    requires Covers(m, bundleOf, n)
  {
    exists e: nat, c, d :: e < n && d in m[ExportNode(e, c)] && d.packageIndex.index > 0 && d in bundleOf &&
      bundleOf[d] != bundleOf[ExportNode(e, c)] && a == InternalArc(bundleOf[d], bundleOf[ExportNode(e, c)])
  }

  lemma {:induction false} WaitIsVisited(m: DependencyMap, n: nat, bundleOf: map<DependencyNode, nat>,
                                         imports: seq<Option<ImportTarget>>, e: nat, c: CommandType,
                                         d: DependencyNode, t: ImportTarget)
    requires Covers(m, bundleOf, n) && WaitsFor(m, n, imports, e, c, d, t)
    ensures var v := Visit(bundleOf[ExportNode(e, c)], d);
            v in AllVisits(m, bundleOf, n) && Reaches(v, imports, t.slot) && TargetOf(imports, d) == Some(t)
  {
    AllVisitsComplete(m, bundleOf, n, e, c, d);
  }

  lemma {:induction false} VisitIsWait(m: DependencyMap, n: nat, bundleOf: map<DependencyNode, nat>,
                                       imports: seq<Option<ImportTarget>>, p: nat, v: Visit)
    returns (e: nat, c: CommandType, t: ImportTarget)
    requires Covers(m, bundleOf, n) && v in AllVisits(m, bundleOf, n) && Reaches(v, imports, p)
    ensures WaitsFor(m, n, imports, e, c, v.node, t) && t.slot == p && TargetOf(imports, v.node) == Some(t)
    ensures v.to == bundleOf[ExportNode(e, c)]
  {
    e, c := AllVisitsSound(m, bundleOf, n, v);
    t := TargetOf(imports, v.node).value;
  }

  /** A visit that reaches another package has its arc. */
  lemma {:induction false} VisitIsServed(deps: seq<ExternalDependency>, placeholders: seq<Placeholder>,
                                         visits: seq<Visit>, imports: seq<Option<ImportTarget>>, packages: seq<nat>,
                                         legacy: bool, fixup: bool, v: Visit, t: ImportTarget)
    requires SlotsInRange(imports, packages) && |deps| == |packages| && t.slot < |packages|
    requires DependencyOf(deps[t.slot], visits, imports, packages, t.slot, legacy, fixup)
    requires placeholders == if legacy && fixup then PlaceholdersOf(visits, imports, packages) else []
    requires v in visits && TargetOf(imports, v.node) == Some(t) && v.node.packageIndex.IsImport()
    ensures Served(deps, placeholders, packages, legacy, fixup, v.node.packageIndex.ToImportIndex(), t,
                   v.node.command, v.to)
  {
    if !legacy {
      assert External(v, imports, t.slot, ExternalArc(v.node.packageIndex.ToImportIndex(), v.node.command, v.to));
    } else if !fixup {
      assert Unresolved(v, imports, t.slot, InternalArc(-1, v.to));
    } else {
      var a := DependencyHasArc(visits, imports, packages, t.slot, v);
      assert HasPlaceholder(deps, placeholders, packages, t, v.node.command, v.to, a.fromBundle);
    }
  }

  lemma {:induction false} BuiltServes(m: DependencyMap, n: nat, bundleOf: map<DependencyNode, nat>,
                                       imports: seq<Option<ImportTarget>>, packages: seq<nat>, legacy: bool,
                                       fixup: bool, deps: seq<ExternalDependency>, placeholders: seq<Placeholder>,
                                       visits: seq<Visit>)
    requires Covers(m, bundleOf, n) && visits == AllVisits(m, bundleOf, n)
    requires ExternalsOf(deps, placeholders, visits, imports, packages, legacy, fixup)
    ensures AllServed(m, n, bundleOf, imports, packages, legacy, fixup, deps, placeholders)
  {
    forall e, c, d, t | WaitsFor(m, n, imports, e, c, d, t)
      ensures Served(deps, placeholders, packages, legacy, fixup, -1 - d.packageIndex.index, t, d.command,
                     bundleOf[ExportNode(e, c)])
    {
      WaitIsVisited(m, n, bundleOf, imports, e, c, d, t);
      VisitIsServed(deps, placeholders, visits, imports, packages, legacy, fixup,
                    Visit(bundleOf[ExportNode(e, c)], d), t);
    }
  }

  lemma {:induction false} ExternalArcFrom(m: DependencyMap, n: nat, bundleOf: map<DependencyNode, nat>,
                                           imports: seq<Option<ImportTarget>>, visits: seq<Visit>,
                                           arcs: seq<ExternalArc>, p: nat, a: ExternalArc)
    requires Covers(m, bundleOf, n) && visits == AllVisits(m, bundleOf, n)
    requires ExternalArcsOf(arcs, visits, imports, p) && a in arcs
    ensures ExternalFrom(m, n, bundleOf, imports, p, a)
  {
    var v :| v in visits && External(v, imports, p, a);
    var e, c, t := VisitIsWait(m, n, bundleOf, imports, p, v);
  }

  lemma {:induction false} UnknownArcFrom(m: DependencyMap, n: nat, bundleOf: map<DependencyNode, nat>,
                                          imports: seq<Option<ImportTarget>>, visits: seq<Visit>,
                                          arcs: seq<InternalArc>, p: nat, a: InternalArc)
    requires Covers(m, bundleOf, n) && visits == AllVisits(m, bundleOf, n)
    requires UnresolvedArcsOf(arcs, visits, imports, p) && a in arcs
    ensures UnknownFrom(m, n, bundleOf, imports, p, a)
  {
    var v :| v in visits && Unresolved(v, imports, p, a);
    var e, c, t := VisitIsWait(m, n, bundleOf, imports, p, v);
  }

  lemma {:induction false} PlaceholderArcFrom(m: DependencyMap, n: nat, bundleOf: map<DependencyNode, nat>,
                                              imports: seq<Option<ImportTarget>>, packages: seq<nat>,
                                              visits: seq<Visit>, p: nat, a: InternalArc)
    requires Covers(m, bundleOf, n) && visits == AllVisits(m, bundleOf, n)
    requires SlotsInRange(imports, packages) && p < |packages| && a in PlaceholderArcs(visits, imports, packages, p)
    ensures PlaceholderFrom(m, n, bundleOf, imports, packages, PlaceholdersOf(visits, imports, packages), p, a)
  {
    var v := ArcHasDependency(visits, imports, packages, p, a);
    var e, c, t := VisitIsWait(m, n, bundleOf, imports, p, v);
  }

  lemma {:induction false} BuiltNotSuperfluous(m: DependencyMap, n: nat, bundleOf: map<DependencyNode, nat>,
                                               imports: seq<Option<ImportTarget>>, packages: seq<nat>, legacy: bool,
                                               fixup: bool, deps: seq<ExternalDependency>,
                                               placeholders: seq<Placeholder>, visits: seq<Visit>)
    requires Covers(m, bundleOf, n) && visits == AllVisits(m, bundleOf, n)
    requires ExternalsOf(deps, placeholders, visits, imports, packages, legacy, fixup)
    ensures NoneSuperfluous(m, n, bundleOf, imports, packages, legacy, fixup, deps, placeholders)
  {
    forall p: nat, a | p < |deps| && a in deps[p].externalArcs
      ensures !legacy && ExternalFrom(m, n, bundleOf, imports, p, a)
    {
      assert DependencyOf(deps[p], visits, imports, packages, p, legacy, fixup);
      ExternalArcFrom(m, n, bundleOf, imports, visits, deps[p].externalArcs, p, a);
    }
    forall p: nat, a | p < |deps| && a in deps[p].legacyArcs
      ensures legacy
      ensures if fixup then PlaceholderFrom(m, n, bundleOf, imports, packages, placeholders, p, a)
              else UnknownFrom(m, n, bundleOf, imports, p, a)
    {
      assert DependencyOf(deps[p], visits, imports, packages, p, legacy, fixup);
      if fixup {
        PlaceholderArcFrom(m, n, bundleOf, imports, packages, visits, p, a);
      } else {
        UnknownArcFrom(m, n, bundleOf, imports, visits, deps[p].legacyArcs, p, a);
      }
    }
    forall k: nat | k < |placeholders|
      ensures PlaceholderUsed(deps, k)
    {
      var p, a := PlaceholderHasArc(visits, imports, packages, k);
      assert DependencyOf(deps[p], visits, imports, packages, p, legacy, fixup);
    }
  }

  lemma {:induction false} BuiltJoins(m: DependencyMap, n: nat, bundleOf: map<DependencyNode, nat>,
                                      arcs: seq<InternalArc>)
    requires Covers(m, bundleOf, n) && InternalArcsOf(arcs, AllVisits(m, bundleOf, n), bundleOf)
    ensures InternalArcsJoin(m, n, bundleOf, arcs)
  {
    forall a
      ensures a in arcs <==> Joins(m, n, bundleOf, a)
    {
      if a in arcs {
        var v :| v in AllVisits(m, bundleOf, n) && Internal(v, bundleOf, a);
        var e, c := AllVisitsSound(m, bundleOf, n, v);
      }
      if Joins(m, n, bundleOf, a) {
        var e: nat, c, d :| e < n && d in m[ExportNode(e, c)] && d.packageIndex.index > 0 && d in bundleOf &&
          bundleOf[d] != bundleOf[ExportNode(e, c)] && a == InternalArc(bundleOf[d], bundleOf[ExportNode(e, c)]);
        AllVisitsComplete(m, bundleOf, n, e, c, d);
        assert Internal(Visit(bundleOf[ExportNode(e, c)], d), bundleOf, a);
      }
    }
  }

  /** The arcs from other packages are those that the visits call for. */
  ghost predicate ExternalsOf(deps: seq<ExternalDependency>, placeholders: seq<Placeholder>, visits: seq<Visit>,
                              imports: seq<Option<ImportTarget>>, packages: seq<nat>, legacy: bool, fixup: bool)
  {
    && SlotsInRange(imports, packages) && |deps| == |packages|
    && (forall p :: 0 <= p < |packages| ==>
          deps[p].packageId == packages[p] && DependencyOf(deps[p], visits, imports, packages, p, legacy, fixup))
    && placeholders == if legacy && fixup then PlaceholdersOf(visits, imports, packages) else []
  }

  /** The mapping lists the bundle of every command of every public export. */
  ghost predicate MapsPublicExports(mapping: seq<BundleMapping>, headers: seq<BundleHeader>, entries: seq<BundleEntry>,
                                    isPublic: seq<bool>, publicIds: seq<nat>)
    requires |publicIds| == |isPublic| && InRange(entries, |isPublic|)
  {
    forall x :: x in mapping <==>
      exists b, i :: InBundle(headers, b, i) && i < |entries| && PublicMapping(entries[i], b, isPublic, publicIds, x)
  }

  predicate PublicMapping(e: BundleEntry, b: int, isPublic: seq<bool>, publicIds: seq<nat>, x: BundleMapping)
    requires |publicIds| == |isPublic| && e.exportIndex < |isPublic|
  {
    isPublic[e.exportIndex] && x == BundleMapping(publicIds[e.exportIndex], e.command, b)
  }

  /** The lookup gives the bundle of every entry. */
  ghost predicate LocatesEntries(bundleOf: map<DependencyNode, nat>, headers: seq<BundleHeader>,
                                 entries: seq<BundleEntry>)
  {
    && (forall n :: n in bundleOf ==> exists i :: 0 <= i < |entries| && NodeOf(entries[i]) == n)
    && (forall b, i :: InBundle(headers, b, i) && i < |entries| ==>
          NodeOf(entries[i]) in bundleOf && bundleOf[NodeOf(entries[i])] == b)
  }

  class ZenPackageBuilder {
    const isPublic: seq<bool>
    const sizes: seq<nat>
    const publicIds: seq<nat>
    /** Arcs between bundles of different packages (before UE5). */
    const legacy: bool
    /** Legacy arcs are written as placeholders that are patched later. */
    const fixup: bool
    const imports: seq<Option<ImportTarget>>
    const importedPackages: seq<nat>

    var headers: seq<BundleHeader>
    var entries: seq<BundleEntry>
    var mapping: seq<BundleMapping>
    var internalArcs: seq<InternalArc>
    var externalDependencies: seq<ExternalDependency>
    var placeholders: seq<Placeholder>
    ghost var visits: seq<Visit>

    constructor (isPublic: seq<bool>, sizes: seq<nat>, publicIds: seq<nat>, legacy: bool, fixup: bool,
                 imports: seq<Option<ImportTarget>>, importedPackages: seq<nat>)
      requires |isPublic| == |sizes| == |publicIds| && SlotsInRange(imports, importedPackages)
      ensures Consistent() && Empty()
      ensures this.isPublic == isPublic && this.sizes == sizes && this.publicIds == publicIds
      ensures this.legacy == legacy && this.fixup == fixup
      ensures this.imports == imports && this.importedPackages == importedPackages
    {
      this.isPublic, this.sizes, this.publicIds := isPublic, sizes, publicIds;
      this.legacy, this.fixup := legacy, fixup;
      this.imports, this.importedPackages := imports, importedPackages;
      headers, entries, mapping := [], [], [];
      internalArcs, externalDependencies, placeholders, visits := [], [], [], [];
    }

    ghost predicate Consistent() {
      && |isPublic| == |sizes| == |publicIds|
      && SlotsInRange(imports, importedPackages)
    }

    /** Cuts the load order into bundles. */
    method BuildBundles(order: seq<GraphNode>) returns (bundleOf: map<DependencyNode, nat>)
      requires Consistent()
      requires headers == [] && entries == [] && mapping == []
      requires Distinct(order)
      requires forall n :: n in order && n.node.packageIndex.IsExport() ==> IsExportNode(isPublic, n)
      modifies this`headers, this`entries, this`mapping
      ensures entries == ExportEntries(order)
      ensures Bundled(headers, entries, isPublic, sizes)
      ensures LocatesEntries(bundleOf, headers, entries)
      ensures if legacy && fixup then MapsPublicExports(mapping, headers, entries, isPublic, publicIds)
                else mapping == []
    {
      bundleOf := map[];
      var current := -1;
      var offset := 0;
      for k := 0 to |order|
        invariant BundledUpTo(order[..k], bundleOf, current, offset)
      {
        bundleOf, current, offset := AppendNode(order, k, bundleOf, current, offset);
      }
      assert order[..|order|] == order;
    }

    /** The export commands among the given nodes are in their bundles. */
    ghost predicate BundledUpTo(nodes: seq<GraphNode>, bundleOf: map<DependencyNode, nat>, current: int, offset: int)
      requires Consistent()
      reads `headers, `entries, `mapping
    {
      && entries == ExportEntries(nodes)
      && Bundled(headers, entries, isPublic, sizes)
      && current == (if IsOpen(entries, isPublic) then |headers| - 1 else -1)
      && offset == SerialSize(entries, sizes)
      && LocatesEntries(bundleOf, headers, entries)
      && (if legacy && fixup then MapsPublicExports(mapping, headers, entries, isPublic, publicIds) else mapping == [])
    }

    /** Bundles node `k` of the load order, unless it belongs to another package. */
    method AppendNode(order: seq<GraphNode>, k: nat, bundleOf0: map<DependencyNode, nat>, current0: int, offset0: nat)
      returns (bundleOf: map<DependencyNode, nat>, current: int, offset: nat)
      requires Consistent() && k < |order| && Distinct(order)
      requires forall n :: n in order && n.node.packageIndex.IsExport() ==> IsExportNode(isPublic, n)
      requires BundledUpTo(order[..k], bundleOf0, current0, offset0)
      modifies this`headers, this`entries, this`mapping
      ensures BundledUpTo(order[..k + 1], bundleOf, current, offset)
    {
      var node := order[k].node;
      bundleOf, current, offset := bundleOf0, current0, offset0;
      assert order[..k + 1][..k] == order[..k];
      if node.packageIndex.IsExport() {
        assert order[k] in order;
        NewEntryIsNew(order, isPublic, k);
        bundleOf, current, offset :=
          AppendEntry(BundleEntry(node.packageIndex.ToExportIndex(), node.command), bundleOf0, current0, offset0);
      }
    }

    /** Adds one entry to the open bundle, opening one if needed and closing it behind a
        public export. */
    method AppendEntry(e: BundleEntry, bundleOf0: map<DependencyNode, nat>, current0: int, offset0: nat)
      returns (bundleOf: map<DependencyNode, nat>, current: int, offset: nat)
      requires Consistent() && e.exportIndex < |isPublic|
      requires forall i :: 0 <= i < |entries| ==> NodeOf(entries[i]) != NodeOf(e)
      requires Bundled(headers, entries, isPublic, sizes)
      requires current0 == if IsOpen(entries, isPublic) then |headers| - 1 else -1
      requires offset0 == SerialSize(entries, sizes)
      requires LocatesEntries(bundleOf0, headers, entries)
      requires if legacy && fixup then MapsPublicExports(mapping, headers, entries, isPublic, publicIds)
                 else mapping == []
      modifies this`headers, this`entries, this`mapping
      ensures entries == old(entries) + [e]
      ensures Bundled(headers, entries, isPublic, sizes)
      ensures current == if IsOpen(entries, isPublic) then |headers| - 1 else -1
      ensures offset == SerialSize(entries, sizes)
      ensures LocatesEntries(bundleOf, headers, entries)
      ensures if legacy && fixup then MapsPublicExports(mapping, headers, entries, isPublic, publicIds)
                else mapping == []
    {
      current := PlaceEntry(e, current0, offset0);
      SerialSizeGrows(old(entries), e, sizes);
      LocatesGrown(bundleOf0, old(headers), old(entries), headers, e, current);
      bundleOf := bundleOf0[NodeOf(e) := current];
      offset := offset0 + (if e.command.Serialize? then sizes[e.exportIndex] else 0);
      if isPublic[e.exportIndex] && fixup && legacy {
        mapping := mapping + [BundleMapping(publicIds[e.exportIndex], e.command, current)];
      }
      if legacy && fixup {
        MapsGrown(old(mapping), old(headers), old(entries), headers, e, current, isPublic, publicIds, mapping);
      }
      if isPublic[e.exportIndex] {
        current := -1;
      }
    }

    /** Puts an entry into the open bundle or into a new one, and says which. */
    method PlaceEntry(e: BundleEntry, current0: int, offset: nat) returns (current: nat)
      requires Consistent() && e.exportIndex < |isPublic|
      requires Bundled(headers, entries, isPublic, sizes)
      requires current0 == if IsOpen(entries, isPublic) then |headers| - 1 else -1
      requires offset == SerialSize(entries, sizes)
      modifies this`headers, this`entries
      ensures entries == old(entries) + [e]
      ensures Bundled(headers, entries, isPublic, sizes)
      ensures current == |headers| - 1
      ensures GrewByOne(old(headers), headers, |old(entries)|, current)
    {
      AppendedIsBundled(headers, entries, isPublic, sizes, e);
      if current0 == -1 {
        current := |headers|;
        headers := headers + [BundleHeader(offset, |entries|, 1)];
      } else {
        current := current0;
        headers := headers[current := Grow(headers[current])];
      }
      entries := entries + [e];
    }

    /** What the arcs say once the dependencies in `visits` have been seen. */
    ghost predicate ArcsOf(bundleOf: map<DependencyNode, nat>)
      requires Consistent()
      reads this
    {
      && InternalArcsOf(internalArcs, visits, bundleOf)
      && ExternalsOf(externalDependencies, placeholders, visits, imports, importedPackages, legacy, fixup)
    }

    /** The arcs are those that the dependencies of the exports call for: all of them and no
        others. */
    ghost predicate ServesAll(m: DependencyMap, bundleOf: map<DependencyNode, nat>)
      requires Covers(m, bundleOf, |isPublic|)
      reads this
    {
      && InternalArcsJoin(m, |isPublic|, bundleOf, internalArcs)
      && |externalDependencies| == |importedPackages|
      && (forall p :: 0 <= p < |importedPackages| ==> externalDependencies[p].packageId == importedPackages[p])
      && AllServed(m, |isPublic|, bundleOf, imports, importedPackages, legacy, fixup, externalDependencies,
                   placeholders)
      && NoneSuperfluous(m, |isPublic|, bundleOf, imports, importedPackages, legacy, fixup, externalDependencies,
                         placeholders)
    }

    lemma {:induction false} ArcsServeAll(m: DependencyMap, bundleOf: map<DependencyNode, nat>)
      requires Consistent() && Covers(m, bundleOf, |isPublic|)
      requires ArcsOf(bundleOf) && visits == AllVisits(m, bundleOf, |isPublic|)
      ensures ServesAll(m, bundleOf)
    {
      BuiltJoins(m, |isPublic|, bundleOf, internalArcs);
      BuiltServes(m, |isPublic|, bundleOf, imports, importedPackages, legacy, fixup, externalDependencies, placeholders,
                  visits);
      BuiltNotSuperfluous(m, |isPublic|, bundleOf, imports, importedPackages, legacy, fixup, externalDependencies,
                          placeholders, visits);
    }

    /** Records one dependency of bundle `to`. */
    method CreateDependencyArc(to: int, node: DependencyNode, bundleOf: map<DependencyNode, nat>)
      requires Consistent() && ArcsOf(bundleOf)
      requires node.packageIndex.IsExport() ==> node in bundleOf
      requires node.packageIndex.IsImport() ==> node.packageIndex.ToImportIndex() < |imports|
      modifies this`internalArcs, this`externalDependencies, this`placeholders, this`visits
      ensures ArcsOf(bundleOf)
      ensures visits == old(visits) + [Visit(to, node)]
      ensures forall t :: node.packageIndex.index < 0 && imports[-1 - node.packageIndex.index] == Some(t) ==>
                Served(externalDependencies, placeholders, importedPackages, legacy, fixup,
                       -1 - node.packageIndex.index, t, node.command, to)
    {
      ghost var v := Visit(to, node);
      assert (visits + [v])[..|visits|] == visits;
      InternalArcsGrow(internalArcs, visits, v, bundleOf);
      forall p | 0 <= p < |importedPackages| && !Reaches(v, imports, p)
        ensures DependencyOf(externalDependencies[p], visits + [v], imports, importedPackages, p, legacy, fixup)
      {
        DependencyUnchanged(externalDependencies[p], visits, v, imports, importedPackages, p, legacy, fixup);
      }
      if node.packageIndex.IsExport() {
        var a := InternalArc(bundleOf[node], to);
        if bundleOf[node] != to && a !in internalArcs {
          internalArcs := internalArcs + [a];
        }
      } else if node.packageIndex.IsImport() {
        var target := imports[node.packageIndex.ToImportIndex()];
        if target.Some? {
          AddExternalArc(to, node, target.value);
        }
      }
      visits := visits + [v];
      if TargetOf(imports, node).Some? {
        VisitIsServed(externalDependencies, placeholders, visits, imports, importedPackages, legacy, fixup, v,
                      TargetOf(imports, node).value);
      }
    }

    /** Records a dependency on another package. */
    method AddExternalArc(to: int, node: DependencyNode, target: ImportTarget)
      requires Consistent() && TargetOf(imports, node) == Some(target)
      requires |externalDependencies| == |importedPackages|
      requires DependencyOf(externalDependencies[target.slot], visits, imports, importedPackages, target.slot, legacy,
                            fixup)
      requires placeholders == if legacy && fixup then PlaceholdersOf(visits, imports, importedPackages) else []
      modifies this`externalDependencies, this`placeholders
      ensures |externalDependencies| == |importedPackages|
      ensures forall p :: 0 <= p < |importedPackages| && p != target.slot ==>
                externalDependencies[p] == old(externalDependencies[p])
      ensures externalDependencies[target.slot].packageId == old(externalDependencies[target.slot].packageId)
      ensures DependencyOf(externalDependencies[target.slot], visits + [Visit(to, node)], imports, importedPackages,
                           target.slot, legacy, fixup)
      ensures placeholders ==
                if legacy && fixup then PlaceholdersOf(visits + [Visit(to, node)], imports, importedPackages) else []
    {
      var p := target.slot;
      var d := externalDependencies[p];
      ghost var v := Visit(to, node);
      assert (visits + [v])[..|visits|] == visits;
      if !legacy {
        ExternalArcsGrow(d.externalArcs, visits, v, imports, p);
        var a := ExternalArc(node.packageIndex.ToImportIndex(), node.command, to);
        if a !in d.externalArcs {
          externalDependencies := externalDependencies[p := d.(externalArcs := d.externalArcs + [a])];
        }
      } else {
        var from := -1;
        if fixup {
          from := |placeholders|;
          placeholders := placeholders + [Placeholder(from, importedPackages[p], target.objectId, node.command)];
          if InternalArc(from, to) in d.legacyArcs {
            PlaceholderArcsAreNumbered(visits, imports, importedPackages, p, InternalArc(from, to));
          }
        } else {
          UnresolvedArcsGrow(d.legacyArcs, visits, v, imports, p);
        }
        var a := InternalArc(from, to);
        if a !in d.legacyArcs {
          externalDependencies := externalDependencies[p := d.(legacyArcs := d.legacyArcs + [a])];
        }
      }
    }

    /** Records the dependencies of one command of an export. */
    method CreateDependencyArcs(to: int, list: seq<DependencyNode>, bundleOf: map<DependencyNode, nat>)
      requires Consistent() && ArcsOf(bundleOf)
      requires DependenciesResolve(list, bundleOf)
      modifies this`internalArcs, this`externalDependencies, this`placeholders, this`visits
      ensures ArcsOf(bundleOf)
      ensures visits == old(visits) + VisitsTo(list, to)
    {
      ghost var before := visits;
      for i := 0 to |list|
        invariant ArcsOf(bundleOf)
        invariant visits == before + VisitsTo(list[..i], to)
      {
        VisitsStep(before, list, to, i);
        CreateDependencyArc(to, list[i], bundleOf);
      }
      assert list[..|list|] == list;
    }

    /** Every dependency on an export is in a bundle, and every dependency on an import is
        in the import map. */
    ghost predicate DependenciesResolve(list: seq<DependencyNode>, bundleOf: map<DependencyNode, nat>) {
      forall d :: d in list ==>
        (d.packageIndex.IsExport() ==> d in bundleOf) &&
        (d.packageIndex.IsImport() ==> d.packageIndex.ToImportIndex() < |imports|)
    }

    /** Builds the arcs of all exports. */
    method BuildArcs(m: DependencyMap, bundleOf: map<DependencyNode, nat>)
      requires Consistent()
      requires internalArcs == [] && externalDependencies == [] && placeholders == [] && visits == []
      requires Covers(m, bundleOf, |isPublic|)
      requires forall n :: n in m ==> DependenciesResolve(m[n], bundleOf)
      modifies this`internalArcs, this`externalDependencies, this`placeholders, this`visits
      ensures ArcsOf(bundleOf) && ServesAll(m, bundleOf)
      ensures visits == AllVisits(m, bundleOf, |isPublic|)
    {
      externalDependencies := seq(|importedPackages|, p requires 0 <= p < |importedPackages| =>
        ExternalDependency(importedPackages[p], [], []));
      for e := 0 to |isPublic|
        invariant ArcsOf(bundleOf)
        invariant visits == AllVisits(m, bundleOf, e)
      {
        var create, serialize := ExportNode(e, Create), ExportNode(e, Serialize);
        CreateDependencyArcs(bundleOf[create], m[create], bundleOf);
        CreateDependencyArcs(bundleOf[serialize], m[serialize], bundleOf);
      }
      ArcsServeAll(m, bundleOf);
    }

    /** Nothing has been built yet. */
    ghost predicate Empty()
      reads this
    {
      && headers == [] && entries == [] && mapping == []
      && internalArcs == [] && externalDependencies == [] && placeholders == [] && visits == []
    }

    /** The package is bundled in its load order and all its arcs are in place. */
    ghost predicate Built(m: DependencyMap, g: Graph, order: seq<GraphNode>, bundleOf: map<DependencyNode, nat>)
      requires Consistent()
      reads this
    {
      && SortedPackage(g, m, isPublic, sizes, order, headers, entries, bundleOf, internalArcs)
      && visits == AllVisits(m, bundleOf, |isPublic|)
      && ArcsOf(bundleOf)
      && (if legacy && fixup then MapsPublicExports(mapping, headers, entries, isPublic, publicIds) else mapping == [])
    }

    method BundleSortedExports(m: DependencyMap, ghost g: Graph, order: seq<GraphNode>)
      returns (bundleOf: map<DependencyNode, nat>)
      requires Consistent() && Empty()
      requires WellFormed(g) && Represents(g, m, isPublic) && IsLoadOrder(g, order)
      requires forall e, c :: 0 <= e < |isPublic| ==> ExportNode(e, c) in m
      requires forall n :: n in m ==> n.packageIndex.IsExport()
      requires MapResolves(m, |isPublic|, |imports|)
      modifies this
      ensures Built(m, g, order, bundleOf) && ServesAll(m, bundleOf)
    {
      GreedyDistinct(g, order);
      OrderHoldsExports(g, m, isPublic, order);
      bundleOf := BuildBundles(order);
      EverythingLocated(g, m, isPublic, order, headers, entries, bundleOf);
      forall n | n in m
        ensures DependenciesResolve(m[n], bundleOf)
      {
        DependenciesLocated(m, n, bundleOf);
      }
      BuildArcs(m, bundleOf);
    }

    lemma {:induction false} DependenciesLocated(m: DependencyMap, n: DependencyNode,
                                                 bundleOf: map<DependencyNode, nat>)
      requires n in m && MapResolves(m, |isPublic|, |imports|)
      requires forall e, c :: 0 <= e < |isPublic| ==> ExportNode(e, c) in bundleOf
      ensures DependenciesResolve(m[n], bundleOf)
    {
      forall d | d in m[n]
        ensures d.packageIndex.IsExport() ==> d in bundleOf
        ensures d.packageIndex.IsImport() ==> d.packageIndex.ToImportIndex() < |imports|
      {
        assert DependsOn(m, n, d);
        assert d.packageIndex.IsExport() ==> d == ExportNode(d.packageIndex.ToExportIndex(), d.command);
      }
    }
  }

  lemma {:induction false} EntryComesFromOrder(order: seq<GraphNode>, e: BundleEntry) returns (n: GraphNode)
    requires e in ExportEntries(order)
    ensures n in order && n.node == NodeOf(e)
  {
    var rest := order[..|order| - 1];
    if e in ExportEntries(rest) {
      n := EntryComesFromOrder(rest, e);
    } else {
      n := order[|order| - 1];
    }
  }

  lemma {:induction false} NewEntryIsNew(order: seq<GraphNode>, isPublic: seq<bool>, k: nat)
    requires Distinct(order) && k < |order|
    requires forall n :: n in order && n.node.packageIndex.IsExport() ==> IsExportNode(isPublic, n)
    requires order[k].node.packageIndex.IsExport()
    ensures forall e :: e in ExportEntries(order[..k]) ==> NodeOf(e) != order[k].node
  {
    forall e | e in ExportEntries(order[..k])
      ensures NodeOf(e) != order[k].node
    {
      var n := EntryComesFromOrder(order[..k], e);
      assert n in order && order[k] in order;
    }
  }

  /** Adding an entry moves no other entry to another bundle. */
  ghost predicate GrewByOne(headers0: seq<BundleHeader>, headers: seq<BundleHeader>, n: nat, current: int) {
    forall b, i :: InBundle(headers, b, i) <==> InBundle(headers0, b, i) || (b == current && i == n)
  }

  lemma {:induction false} GrownInBundle(headers0: seq<BundleHeader>, n: nat, headers: seq<BundleHeader>)
    requires Tiles(headers0, n)
    requires || (exists offset :: headers == headers0 + [BundleHeader(offset, n, 1)])
             || (headers0 != [] && headers == headers0[|headers0| - 1 := Grow(headers0[|headers0| - 1])])
    ensures GrewByOne(headers0, headers, n, |headers| - 1)
  {
  }

  lemma {:induction false} LocatesGrown(bundleOf0: map<DependencyNode, nat>, headers0: seq<BundleHeader>,
                                        entries0: seq<BundleEntry>, headers: seq<BundleHeader>, e: BundleEntry,
                                        current: nat)
    requires LocatesEntries(bundleOf0, headers0, entries0)
    requires Tiles(headers0, |entries0|)
    requires GrewByOne(headers0, headers, |entries0|, current)
    requires forall i :: 0 <= i < |entries0| ==> NodeOf(entries0[i]) != NodeOf(e)
    ensures LocatesEntries(bundleOf0[NodeOf(e) := current], headers, entries0 + [e])
  {
    var entries := entries0 + [e];
    var bundleOf := bundleOf0[NodeOf(e) := current];
    forall n | n in bundleOf
      ensures exists i :: 0 <= i < |entries| && NodeOf(entries[i]) == n
    {
      if n in bundleOf0 {
        var i :| 0 <= i < |entries0| && NodeOf(entries0[i]) == n;
        assert entries[i] == entries0[i];
      } else {
        assert NodeOf(entries[|entries0|]) == n;
      }
    }
    forall b, i | InBundle(headers, b, i) && i < |entries|
      ensures NodeOf(entries[i]) in bundleOf && bundleOf[NodeOf(entries[i])] == b
    {
      if InBundle(headers0, b, i) {
        TilesBounds(headers0, |entries0|, b);
      }
    }
  }

  lemma {:induction false} MapsGrown(mapping0: seq<BundleMapping>, headers0: seq<BundleHeader>,
                                     entries0: seq<BundleEntry>, headers: seq<BundleHeader>, e: BundleEntry,
                                     current: nat, isPublic: seq<bool>, publicIds: seq<nat>,
                                     mapping: seq<BundleMapping>)
    requires |publicIds| == |isPublic| && InRange(entries0 + [e], |isPublic|) && InRange(entries0, |isPublic|)
    requires MapsPublicExports(mapping0, headers0, entries0, isPublic, publicIds)
    requires Tiles(headers0, |entries0|)
    requires e.exportIndex < |isPublic|
    requires GrewByOne(headers0, headers, |entries0|, current)
    requires mapping ==
               mapping0 + (if isPublic[e.exportIndex]
                           then [BundleMapping(publicIds[e.exportIndex], e.command, current)] else [])
    ensures MapsPublicExports(mapping, headers, entries0 + [e], isPublic, publicIds)
  {
    var entries := entries0 + [e];
    forall x
      ensures x in mapping <==>
        exists b, i :: InBundle(headers, b, i) && i < |entries| && PublicMapping(entries[i], b, isPublic, publicIds, x)
    {
      if x in mapping0 {
        var b, i :| InBundle(headers0, b, i) && i < |entries0| && PublicMapping(entries0[i], b, isPublic, publicIds, x);
        assert InBundle(headers, b, i) && entries[i] == entries0[i];
      } else if x in mapping {
        assert InBundle(headers, current, |entries0|) &&
            PublicMapping(entries[|entries0|], current, isPublic, publicIds, x);
      }
      if exists b, i :: InBundle(headers, b, i) && i < |entries| &&
          PublicMapping(entries[i], b, isPublic, publicIds, x) {
        var b, i :| InBundle(headers, b, i) && i < |entries| && PublicMapping(entries[i], b, isPublic, publicIds, x);
        if InBundle(headers0, b, i) {
          TilesBounds(headers0, |entries0|, b);
          assert PublicMapping(entries0[i], b, isPublic, publicIds, x);
        }
      }
    }
  }

  // ----------------------------------------------- bundles of a sorted package

  lemma {:induction false} AllExportEntries(order: seq<GraphNode>)
    requires forall n :: n in order ==> n.node.packageIndex.IsExport()
    ensures |ExportEntries(order)| == |order|
    ensures forall i :: 0 <= i < |order| ==> NodeOf(ExportEntries(order)[i]) == order[i].node
  {
    if order != [] {
      AllExportEntries(order[..|order| - 1]);
    }
  }

  /** A sorted package: its dependencies, its load order, and the bundles and arcs made
      from them. */
  ghost predicate SortedPackage(g: Graph, m: DependencyMap, isPublic: seq<bool>, sizes: seq<nat>, order: seq<GraphNode>,
                                headers: seq<BundleHeader>, entries: seq<BundleEntry>,
                                bundleOf: map<DependencyNode, nat>, arcs: seq<InternalArc>)
  {
    && WellFormed(g) && Represents(g, m, isPublic) && IsLoadOrder(g, order)
    && entries == ExportEntries(order)
    && Bundled(headers, entries, isPublic, sizes)
    && LocatesEntries(bundleOf, headers, entries)
    && Covers(m, bundleOf, |isPublic|)
    && InternalArcsOf(arcs, AllVisits(m, bundleOf, |isPublic|), bundleOf)
  }

  /** The entry of a located command, and its place in the load order. */
  lemma {:induction false} LocatedEntry(g: Graph, m: DependencyMap, isPublic: seq<bool>, sizes: seq<nat>,
                                        order: seq<GraphNode>, headers: seq<BundleHeader>, entries: seq<BundleEntry>,
                                        bundleOf: map<DependencyNode, nat>, arcs: seq<InternalArc>, n: DependencyNode)
    returns (i: nat)
    requires SortedPackage(g, m, isPublic, sizes, order, headers, entries, bundleOf, arcs) && n in bundleOf
    ensures |entries| == |order| && i < |entries| && NodeOf(entries[i]) == n == order[i].node
    ensures InBundle(headers, bundleOf[n], i)
    ensures IsExportNode(isPublic, order[i]) && order[i].node.packageIndex.IsExport()
  {
    OrderHoldsExports(g, m, isPublic, order);
    AllExportEntries(order);
    i :| 0 <= i < |entries| && NodeOf(entries[i]) == n;
    TilesPartition(headers, |entries|, i);
  }

  lemma {:induction false} OrderHoldsExports(g: Graph, m: DependencyMap, isPublic: seq<bool>, order: seq<GraphNode>)
    requires WellFormed(g) && Represents(g, m, isPublic) && IsLoadOrder(g, order)
    ensures Topological(g, order)
    ensures forall n :: n in order <==> IsExportNode(isPublic, n)
  {
    LoadOrderIsTopological(g, order);
    PermutationDistinct(order, g.nodes);
    forall n
      ensures n in order <==> IsExportNode(isPublic, n)
    {
      ExportNodesAre(isPublic, n);
    }
  }

  /** In the load order a dependency comes first. */
  lemma {:induction false} DependencyComesFirst(g: Graph, m: DependencyMap, isPublic: seq<bool>, sizes: seq<nat>,
                                                order: seq<GraphNode>, headers: seq<BundleHeader>,
                                                entries: seq<BundleEntry>, bundleOf: map<DependencyNode, nat>,
                                                arcs: seq<InternalArc>, d: DependencyNode, n: DependencyNode)
    returns (i: nat, j: nat)
    requires SortedPackage(g, m, isPublic, sizes, order, headers, entries, bundleOf, arcs)
    requires d in bundleOf && n in bundleOf && DependsOn(m, n, d)
    ensures i < j < |entries| && NodeOf(entries[i]) == d && NodeOf(entries[j]) == n
    ensures InBundle(headers, bundleOf[d], i) && InBundle(headers, bundleOf[n], j)
  {
    i := LocatedEntry(g, m, isPublic, sizes, order, headers, entries, bundleOf, arcs, d);
    j := LocatedEntry(g, m, isPublic, sizes, order, headers, entries, bundleOf, arcs, n);
    LoadOrderIsTopological(g, order);
    assert Edge(g, order[i], order[j]);
  }

  /** Internal arcs lead from a bundle to a later one. */
  lemma {:induction false} ArcsGoForward(g: Graph, m: DependencyMap, isPublic: seq<bool>, sizes: seq<nat>,
                                         order: seq<GraphNode>, headers: seq<BundleHeader>, entries: seq<BundleEntry>,
                                         bundleOf: map<DependencyNode, nat>, arcs: seq<InternalArc>, a: InternalArc)
    requires SortedPackage(g, m, isPublic, sizes, order, headers, entries, bundleOf, arcs) && a in arcs
    ensures 0 <= a.fromBundle < a.toBundle < |headers|
  {
    var v :| v in AllVisits(m, bundleOf, |isPublic|) && Internal(v, bundleOf, a);
    var e, c := AllVisitsSound(m, bundleOf, |isPublic|, v);
    var i, j := DependencyComesFirst(g, m, isPublic, sizes, order, headers, entries, bundleOf, arcs, v.node,
                                     ExportNode(e, c));
    if a.toBundle < a.fromBundle {
      TilesAscend(headers, |entries|, a.toBundle, a.fromBundle);
    }
  }

  /** Entry `i` has run when entry `j` starts, if bundle `b` runs at time `time[b]` and
      the entries of a bundle run in order. */
  ghost predicate RunsBefore(headers: seq<BundleHeader>, time: seq<int>, i: nat, j: nat)
    requires |time| == |headers|
  {
    forall b, c :: InBundle(headers, b, i) && InBundle(headers, c, j) ==> time[b] < time[c] || (b == c && i < j)
  }

  /** Running the bundles in any order that respects the internal arcs completes every
      dependency between exports in time. */
  lemma {:induction false} ArcsAreSufficient(g: Graph, m: DependencyMap, isPublic: seq<bool>, sizes: seq<nat>,
                                             order: seq<GraphNode>, headers: seq<BundleHeader>,
                                             entries: seq<BundleEntry>, bundleOf: map<DependencyNode, nat>,
                                             arcs: seq<InternalArc>, time: seq<int>, e: nat, c: CommandType,
                                             d: DependencyNode, i: nat, j: nat)
    requires SortedPackage(g, m, isPublic, sizes, order, headers, entries, bundleOf, arcs)
    requires |time| == |headers|
    requires forall a :: a in arcs && 0 <= a.fromBundle < |time| && 0 <= a.toBundle < |time| ==>
               time[a.fromBundle] < time[a.toBundle]
    requires e < |isPublic| && d in m[ExportNode(e, c)] && d in bundleOf
    requires i < |entries| && NodeOf(entries[i]) == d
    requires j < |entries| && NodeOf(entries[j]) == ExportNode(e, c)
    ensures RunsBefore(headers, time, i, j)
  {
    var n := ExportNode(e, c);
    var k, l := DependencyComesFirst(g, m, isPublic, sizes, order, headers, entries, bundleOf, arcs, d, n);
    EntryIsUnique(g, m, isPublic, order, i, k);
    EntryIsUnique(g, m, isPublic, order, j, l);
    TilesPartition(headers, |entries|, i);
    TilesPartition(headers, |entries|, j);
    if bundleOf[d] != bundleOf[n] {
      AllVisitsComplete(m, bundleOf, |isPublic|, e, c, d);
      var a := InternalArc(bundleOf[d], bundleOf[n]);
      assert Internal(Visit(bundleOf[n], d), bundleOf, a);
      assert a in arcs;
      ArcsGoForward(g, m, isPublic, sizes, order, headers, entries, bundleOf, arcs, a);
    }
  }

  lemma {:induction false} EntryIsUnique(g: Graph, m: DependencyMap, isPublic: seq<bool>, order: seq<GraphNode>,
                                         i: nat, k: nat)
    requires WellFormed(g) && Represents(g, m, isPublic) && IsLoadOrder(g, order)
    requires i < |ExportEntries(order)| && k < |ExportEntries(order)|
    requires NodeOf(ExportEntries(order)[i]) == NodeOf(ExportEntries(order)[k])
    ensures i == k
  {
    OrderHoldsExports(g, m, isPublic, order);
    AllExportEntries(order);
    GreedyDistinct(g, order);
    assert order[i] in order && order[k] in order;
    assert order[i] == order[k];
  }

  /** In particular the bundles can simply run one after the other. */
  lemma {:induction false} SequentialRunRespectsArcs(g: Graph, m: DependencyMap, isPublic: seq<bool>, sizes: seq<nat>,
                                                     order: seq<GraphNode>, headers: seq<BundleHeader>,
                                                     entries: seq<BundleEntry>, bundleOf: map<DependencyNode, nat>,
                                                     arcs: seq<InternalArc>, time: seq<int>)
    requires SortedPackage(g, m, isPublic, sizes, order, headers, entries, bundleOf, arcs)
    requires |time| == |headers| && forall b :: 0 <= b < |time| ==> time[b] == b
    ensures forall a :: a in arcs ==>
              0 <= a.fromBundle < |time| && 0 <= a.toBundle < |time| && time[a.fromBundle] < time[a.toBundle]
  {
    forall a | a in arcs
      ensures 0 <= a.fromBundle < a.toBundle < |headers|
    {
      ArcsGoForward(g, m, isPublic, sizes, order, headers, entries, bundleOf, arcs, a);
    }
  }

  // -------------------------------------------------------------- the whole step

  /** Every reference of a legacy package points into its tables. */
  ghost predicate ReferencesResolve(exports: seq<ObjectExport>, preload: seq<PackageIndex>, importCount: nat) {
    && (forall e :: 0 <= e < |exports| ==> InBounds(exports[e], preload))
    && (forall e, c, d :: 0 <= e < |exports| && d in DependenciesOf(e, c, Listed(exports[e], preload)) ==>
          0 <= d.packageIndex.index + importCount && d.packageIndex.index <= |exports|)
  }

  /** Sorts a package, bundles it and links the bundles. Nothing is bundled when the
      dependencies are circular. */
  method BuildPreloadDependencies(b: ZenPackageBuilder, exports: seq<ObjectExport>, preload: seq<PackageIndex>)
    returns (m: DependencyMap, ghost g: Graph, r: Result<seq<GraphNode>, SortError>,
             ghost bundleOf: map<DependencyNode, nat>)
    requires b.Consistent() && b.Empty() && |b.isPublic| == |exports|
    requires ReferencesResolve(exports, preload, |b.imports|)
    modifies b
    ensures forall e :: 0 <= e < |exports| ==> InBounds(exports[e], preload)
    ensures DescribesExports(m, AllListed(exports, preload))
    ensures WellFormed(g) && Represents(g, m, b.isPublic) && SortOutcome(g, r)
    ensures if r.Ok? then b.Built(m, g, r.value, bundleOf) else b.Empty()
    ensures r.Ok? ==> b.ServesAll(m, bundleOf)
  {
    bundleOf := map[];
    m, g, r := SortExports(exports, preload, b.isPublic);
    if r.Ok? {
      DependenciesResolveToo(m, exports, preload, |b.imports|);
      bundleOf := b.BundleSortedExports(m, g, r.value);
    }
  }

  /** The references in a dependency map point into the tables of the package. */
  ghost predicate MapResolves(m: DependencyMap, exportCount: nat, importCount: nat) {
    forall n, d :: DependsOn(m, n, d) ==> 0 <= d.packageIndex.index + importCount && d.packageIndex.index <= exportCount
  }

  lemma {:induction false} DependenciesResolveToo(m: DependencyMap, exports: seq<ObjectExport>,
                                                  preload: seq<PackageIndex>, importCount: nat)
    requires ReferencesResolve(exports, preload, importCount)
    requires DescribesExports(m, AllListed(exports, preload))
    ensures MapResolves(m, |exports|, importCount)
  {
    forall n, d | DependsOn(m, n, d)
      ensures 0 <= d.packageIndex.index + importCount && d.packageIndex.index <= |exports|
    {
      var e :| 0 <= e < |exports| && n.packageIndex == CreateExport(e);
      assert n == ExportNode(e, n.command);
    }
  }

  lemma {:induction false} EverythingLocated(g: Graph, m: DependencyMap, isPublic: seq<bool>, order: seq<GraphNode>,
                          headers: seq<BundleHeader>, entries: seq<BundleEntry>, bundleOf: map<DependencyNode, nat>)
    requires WellFormed(g) && Represents(g, m, isPublic) && IsLoadOrder(g, order)
    requires entries == ExportEntries(order) && Tiles(headers, |entries|) && LocatesEntries(bundleOf, headers, entries)
    ensures forall e, c :: 0 <= e < |isPublic| ==> ExportNode(e, c) in bundleOf
  {
    OrderHoldsExports(g, m, isPublic, order);
    AllExportEntries(order);
    forall e, c | 0 <= e < |isPublic|
      ensures ExportNode(e, c) in bundleOf
    {
      var n := GraphNode(ExportNode(e, c), isPublic[e]);
      assert IsExportNode(isPublic, n);
      var i :| 0 <= i < |order| && order[i] == n;
      TilesPartition(headers, |entries|, i);
    }
  }
}
