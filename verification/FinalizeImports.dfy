/** Moving the rebuilt imports to the positions they had in the zen package, and
    every reference along with them. */
module FinalizeImports {
  import opened Zen
  import opened Arithmetic
  import opened Names
  import opened ImportTable
  import opened Sequences

  // ---------------------------------------------------------------- placement

  /** An import without a predefined position. */
  ghost predicate Free(order: map<nat, nat>, c: nat) {
    c !in order.Values
  }

  /** The final import map filled up to some position: `origin` names the current
      import placed at each position (none for a filler), `remap` is its inverse, and
      the free imports below `current` have been used up in order. */
  datatype Placement = Placement(order: map<nat, nat>, count: nat, origin: seq<Option<nat>>, remap: map<nat, nat>) {

    ghost predicate PositionOk(i: nat)
      requires i < |origin|
    {
      && (i in order ==> origin[i] == Some(order[i]))
      && (origin[i].Some? ==> origin[i].value < count && origin[i].value in remap)
      && (i !in order && origin[i].Some? ==> Free(order, origin[i].value))
    }

    ghost predicate InverseOk(c: nat) {
      c in remap ==> remap[c] < |origin| && origin[remap[c]] == Some(c)
    }

    /** Predefined imports stand where they belong and no import stands twice in the
        remapping. */
    ghost predicate Consistent() {
      && (forall i: nat {:trigger PositionOk(i)} :: i < |origin| ==> PositionOk(i))
      && (forall c: nat {:trigger InverseOk(c)} :: InverseOk(c))
    }

    /** Position `i` holds a free import. */
    ghost predicate HoldsFree(i: nat) {
      i < |origin| && i !in order && origin[i].Some?
    }

    /** Free imports keep their relative order. */
    ghost predicate Stable() {
      forall i: nat, j: nat {:trigger HoldsFree(i), HoldsFree(j)} ::
        i < j && HoldsFree(i) && HoldsFree(j) ==> origin[i].value < origin[j].value
    }

    /** The free imports used so far are those below `current`, and fillers appear
        only after all of them. */
    ghost predicate UsedUpTo(current: nat) {
      && (forall c: nat :: c < count && Free(order, c) ==> (c in remap <==> c < current))
      && (forall i: nat {:trigger HoldsFree(i)} :: HoldsFree(i) ==> origin[i].value < current)
      && (forall i: nat :: i < |origin| && origin[i].None? ==> current >= count)
    }

    ghost predicate Total() {
      forall c: nat :: c < count ==> c in remap
    }

    function Place(c: nat): Placement {
      this.(origin := origin + [Some(c)], remap := remap[c := |origin|])
    }

    function Fill(): Placement {
      this.(origin := origin + [None])
    }
  }

  ghost predicate OrderInRange(order: map<nat, nat>, count: nat, size: nat) {
    forall i :: i in order ==> i < size && order[i] < count
  }

  lemma {:induction false} PlacePredefined(p: Placement, current: nat)
    requires p.Consistent() && p.Stable() && p.UsedUpTo(current)
    requires |p.origin| in p.order && p.order[|p.origin|] < p.count
    ensures var q := p.Place(p.order[|p.origin|]); q.Consistent() && q.Stable() && q.UsedUpTo(current)
  {
    var n := |p.origin|;
    var q := p.Place(p.order[n]);
    PlaceConsistent(p, p.order[n]);
    assert !Free(p.order, p.order[n]);
    assert forall i: nat :: q.HoldsFree(i) ==> p.HoldsFree(i) && q.origin[i] == p.origin[i];
  }

  lemma {:induction false} PlaceConsistent(p: Placement, c: nat)
    requires p.Consistent() && c < p.count
    requires if |p.origin| in p.order then c == p.order[|p.origin|] else Free(p.order, c)
    ensures p.Place(c).Consistent()
  {
    var q := p.Place(c);
    forall i: nat | i < |q.origin|
      ensures q.PositionOk(i)
    {
      assert i < |p.origin| ==> p.PositionOk(i);
    }
    forall d: nat
      ensures q.InverseOk(d)
    {
      assert p.InverseOk(d);
    }
  }

  lemma {:induction false} PlaceFree(p: Placement, current: nat)
    requires p.Consistent() && p.Stable() && p.UsedUpTo(current)
    requires |p.origin| !in p.order && current < p.count && Free(p.order, current)
    ensures var q := p.Place(current); q.Consistent() && q.Stable() && q.UsedUpTo(current + 1)
  {
    var q := p.Place(current);
    PlaceConsistent(p, current);
    assert forall i: nat :: i < |p.origin| && q.HoldsFree(i) ==> p.HoldsFree(i) && q.origin[i] == p.origin[i];
  }

  lemma {:induction false} PlaceFiller(p: Placement, current: nat)
    requires p.Consistent() && p.Stable() && p.UsedUpTo(current)
    requires |p.origin| !in p.order && current >= p.count
    ensures var q := p.Fill(); q.Consistent() && q.Stable() && q.UsedUpTo(current)
  {
    var q := p.Fill();
    forall i: nat | i < |q.origin|
      ensures q.PositionOk(i)
    {
      assert i < |p.origin| ==> p.PositionOk(i);
    }
    forall d: nat
      ensures q.InverseOk(d)
    {
      assert p.InverseOk(d);
    }
    assert forall i: nat :: q.HoldsFree(i) ==> p.HoldsFree(i) && q.origin[i] == p.origin[i];
  }

  lemma {:induction false} SkipPredefined(p: Placement, current: nat)
    requires p.UsedUpTo(current) && !Free(p.order, current)
    ensures p.UsedUpTo(current + 1)
  {
  }

  // ----------------------------------------------------- when nothing is lost

  lemma {:induction false} InjectionCardinality<A, B>(a: set<A>, b: set<B>, f: map<A, B>)
    requires forall x :: x in a ==> x in f && f[x] in b
    requires forall x, y :: x in a && y in a && f[x] == f[y] ==> x == y
    ensures |a| <= |b|
  {
    if a != {} {
      var x :| x in a;
      InjectionCardinality(a - {x}, b - {f[x]}, f);
    }
  }

  lemma {:induction false} BijectionCardinality<A, B>(a: set<A>, b: set<B>, f: map<A, B>)
    requires forall x :: x in a ==> x in f && f[x] in b
    requires forall x, y :: x in a && y in a && f[x] == f[y] ==> x == y
    requires forall y :: y in b ==> exists x :: x in a && f[x] == y
    ensures |a| == |b|
  {
    if a == {} {
      assert b == {};
    } else {
      var x :| x in a;
      forall y | y in b - {f[x]}
        ensures exists w :: w in a - {x} && f[w] == y
      {
        var w :| w in a && f[w] == y;
        assert w in a - {x};
      }
      BijectionCardinality(a - {x}, b - {f[x]}, f);
    }
  }

  lemma {:induction false} ComplementCardinality(n: nat, s: set<nat>)
    requires forall x :: x in s ==> x < n
    ensures |set i: nat | i < n && i !in s| == n - |s|
  {
    assert Below(n) == (set i: nat | i < n && i !in s) + s;
  }

  ghost function FreeImports(p: Placement): set<nat> {
    set c: nat | c < p.count && c !in p.order.Values
  }

  ghost function FreePositions(p: Placement): set<nat> {
    set i: nat | i < |p.origin| && i !in p.order.Keys
  }

  lemma {:induction false} TotalNeedsRoom(p: Placement)
    requires p.Consistent() && p.Total()
    ensures |FreeImports(p)| <= |FreePositions(p)|
  {
    forall c | c in FreeImports(p)
      ensures c in p.remap && p.remap[c] in FreePositions(p) && p.origin[p.remap[c]] == Some(c)
    {
      assert p.InverseOk(c) && p.PositionOk(p.remap[c]);
    }
    InjectionCardinality(FreeImports(p), FreePositions(p), p.remap);
  }

  lemma {:induction false} LostMeansNoRoom(p: Placement, current: nat, c: nat)
    requires p.Consistent() && p.Stable() && p.UsedUpTo(current)
    requires c < p.count && Free(p.order, c) && c !in p.remap
    ensures |FreePositions(p)| < |FreeImports(p)|
  {
    var back := map i: nat | i < |p.origin| && p.HoldsFree(i) :: p.origin[i].value;
    forall i | i in FreePositions(p)
      ensures i in back && back[i] in FreeImports(p) - {c}
    {
      assert p.PositionOk(i);
      assert p.origin[i].Some?;
      assert p.HoldsFree(i);
    }
    InjectionCardinality(FreePositions(p), FreeImports(p) - {c}, back);
  }

  lemma {:induction false} PredefinedIsMapped(p: Placement, c: nat)
    requires p.Consistent() && OrderInRange(p.order, p.count, |p.origin|) && !Free(p.order, c)
    ensures c in p.remap
  {
    var i :| i in p.order && p.order[i] == c;
    assert p.PositionOk(i);
  }

  /** Every current import finds a place if and only if there is room for the free
      ones: positions may be predefined for one import more than once. */
  lemma {:induction false} TotalIffRoom(p: Placement, current: nat)
    requires p.Consistent() && p.Stable() && p.UsedUpTo(current)
    requires OrderInRange(p.order, p.count, |p.origin|)
    ensures p.Total() <==> p.count + |p.order| <= |p.origin| + |p.order.Values|
  {
    ComplementCardinality(p.count, p.order.Values);
    ComplementCardinality(|p.origin|, p.order.Keys);
    assert |p.order| == |p.order.Keys|;
    if p.Total() {
      TotalNeedsRoom(p);
    } else {
      var c: nat :| c < p.count && c !in p.remap;
      if !Free(p.order, c) {
        PredefinedIsMapped(p, c);
      }
      LostMeansNoRoom(p, current, c);
    }
  }

  lemma {:induction false} InjectiveValues(order: map<nat, nat>)
    requires Injective(order)
    ensures |order.Values| >= |order|
  {
    InjectionCardinality(order.Keys, order.Values, order);
  }

  /** With an injective order nothing is lost, and remapping undoes the order. */
  lemma {:induction false} InjectiveOrderUndone(p: Placement, current: nat)
    requires p.Consistent() && p.Stable() && p.UsedUpTo(current)
    requires OrderInRange(p.order, p.count, |p.origin|) && p.count <= |p.origin|
    requires Injective(p.order)
    ensures p.Total()
    ensures forall i :: i in p.order ==> p.order[i] in p.remap && p.remap[p.order[i]] == i
  {
    InjectiveValues(p.order);
    TotalIffRoom(p, current);
    forall i | i in p.order
      ensures p.order[i] in p.remap && p.remap[p.order[i]] == i
    {
      var c := p.order[i];
      assert p.PositionOk(i) && p.InverseOk(c);
      var j := p.remap[c];
      assert p.PositionOk(j);
    }
  }

  // ------------------------------------------------------ the placement loop

  /** The entries of the new map before their outers are remapped. */
  ghost predicate Entries(names: seq<string>, imports: seq<ObjectImport>, placed: seq<ObjectImport>,
                          origin: seq<Option<nat>>)
  {
    && |placed| == |origin|
    && forall i: nat {:trigger EntryOk(names, imports, placed, origin, i)} ::
         i < |origin| ==> EntryOk(names, imports, placed, origin, i)
  }

  ghost predicate EntryOk(names: seq<string>, imports: seq<ObjectImport>, placed: seq<ObjectImport>,
                          origin: seq<Option<nat>>, i: nat)
    requires i < |origin| == |placed|
  {
    match origin[i]
    case Some(c) => c < |imports| && placed[i] == imports[c]
    case None => Reads(names, placed[i], UNKNOWN_PACKAGE)
  }

  lemma {:induction false} EntriesStep(names: seq<string>, more: seq<string>, imports: seq<ObjectImport>,
                                       placed: seq<ObjectImport>, origin: seq<Option<nat>>, entry: ObjectImport,
                                       from: Option<nat>)
    requires names <= more && Entries(names, imports, placed, origin)
    requires EntryOk(more, imports, placed + [entry], origin + [from], |origin|)
    ensures Entries(more, imports, placed + [entry], origin + [from])
  {
    forall i: nat | i <= |origin|
      ensures EntryOk(more, imports, placed + [entry], origin + [from], i)
    {
      assert i < |origin| ==> EntryOk(names, imports, placed, origin, i);
    }
  }

  ghost predicate Placed(p: Placement, current: nat) {
    p.Consistent() && p.Stable() && p.UsedUpTo(current)
  }

  /** Passes over the imports whose positions are predefined. */
  method SkipToFree(ghost p: Placement, predefined: set<nat>, from: nat) returns (current: nat)
    requires p.UsedUpTo(from) && predefined == p.order.Values
    requires forall c :: c in predefined ==> c < p.count
    ensures p.UsedUpTo(current) && Free(p.order, current)
  {
    current := from;
    while current in predefined
      invariant p.UsedUpTo(current)
      decreases p.count - current
    {
      SkipPredefined(p, current);
      current := current + 1;
    }
  }

  /** Fills the final import map position by position: a predefined import where there
      is one, else the next free import, else a filler. */
  method PlaceImports(builder: LegacyAssetBuilder, size: nat)
    returns (placed: seq<ObjectImport>, remap: map<nat, nat>, ghost p: Placement, ghost last: nat)
    requires builder.Valid() && OrderInRange(builder.originalImportOrder, |builder.imports|, size)
    modifies builder.nameMap
    ensures builder.Valid() && old(builder.nameMap.names) <= builder.nameMap.names
    ensures p.order == builder.originalImportOrder && p.count == |builder.imports| && |p.origin| == size
    ensures Placed(p, last) && remap == p.remap
    ensures Entries(builder.nameMap.names, builder.imports, placed, p.origin)
  {
    var order := builder.originalImportOrder;
    var predefined := order.Values;
    placed, remap := [], map[];
    p := Placement(order, |builder.imports|, [], map[]);
    var current: nat := 0;
    for position := 0 to size
      invariant builder.Valid() && old(builder.nameMap.names) <= builder.nameMap.names
      invariant p.order == order && p.count == |builder.imports| && |p.origin| == position
      invariant Placed(p, current) && remap == p.remap
      invariant Entries(builder.nameMap.names, builder.imports, placed, p.origin)
    {
      ghost var names := builder.nameMap.names;
      if position in order {
        var c := order[position];
        PlacePredefined(p, current);
        EntriesStep(names, names, builder.imports, placed, p.origin, builder.imports[c], Some(c));
        remap := remap[c := position];
        placed := placed + [builder.imports[c]];
        p := p.Place(c);
        continue;
      }
      current := SkipToFree(p, predefined, current);
      if current >= |builder.imports| {
        var filler := SpellFiller(builder);
        PlaceFiller(p, current);
        EntriesStep(names, builder.nameMap.names, builder.imports, placed, p.origin, filler, None);
        placed := placed + [filler];
        p := p.Fill();
        continue;
      }
      PlaceFree(p, current);
      EntriesStep(names, names, builder.imports, placed, p.origin, builder.imports[current], Some(current));
      remap := remap[current := position];
      placed := placed + [builder.imports[current]];
      p := p.Place(current);
      current := current + 1;
    }
    last := current;
  }

  method SpellFiller(builder: LegacyAssetBuilder) returns (filler: ObjectImport)
    requires builder.Valid()
    modifies builder.nameMap
    ensures builder.Valid() && old(builder.nameMap.names) <= builder.nameMap.names
    ensures Reads(builder.nameMap.names, filler, UNKNOWN_PACKAGE)
  {
    filler := builder.SpellImport(UNKNOWN_PACKAGE, NULL_INDEX);
    TableExtends(old(builder.nameMap.names), builder.nameMap.names, builder.imports, builder.meanings);
  }

  // --------------------------------------------------------------- remapping

  /** None is an import that has no place in the final map. */
  function RemapIndex(remap: map<nat, nat>, index: PackageIndex): Option<PackageIndex> {
    if !index.IsImport() then Some(index)
    else if index.ToImportIndex() in remap then Some(CreateImport(remap[index.ToImportIndex()]))
    else None
  }

  function RemapExport(remap: map<nat, nat>, e: NamedExport): Option<NamedExport> {
    var classIndex := RemapIndex(remap, e.classIndex);
    var superIndex := RemapIndex(remap, e.superIndex);
    var templateIndex := RemapIndex(remap, e.templateIndex);
    var outerIndex := RemapIndex(remap, e.outerIndex);
    if classIndex.Some? && superIndex.Some? && templateIndex.Some? && outerIndex.Some?
    then Some(NamedExport(classIndex.value, superIndex.value, templateIndex.value, outerIndex.value, e.objectName))
    else None
  }

  function RemapImport(remap: map<nat, nat>, e: ObjectImport): Option<ObjectImport> {
    var outerIndex := RemapIndex(remap, e.outerIndex);
    if outerIndex.Some? then Some(e.(outerIndex := outerIndex.value)) else None
  }

  ghost predicate Maps<T(!new)>(f: T -> Option<T>, s: seq<T>, t: seq<T>) {
    |s| == |t| && forall i :: 0 <= i < |s| ==> f(s[i]) == Some(t[i])
  }

  method RemapEach<T(!new)>(s: seq<T>, f: T -> Option<T>) returns (r: Option<seq<T>>)
    ensures r.Some? <==> forall x :: x in s ==> f(x).Some?
    ensures r.Some? ==> Maps(f, s, r.value)
  {
    var t := [];
    for i := 0 to |s|
      invariant |t| == i && forall j :: 0 <= j < i ==> f(s[j]) == Some(t[j])
    {
      var x := f(s[i]);
      if x.None? {
        return None;
      }
      t := t + [x.value];
    }
    r := Some(t);
  }

  function FinalMeaning(p: Placement, meanings: seq<ResolvedImport>, i: nat): ResolvedImport
    requires i < |p.origin|
  {
    if p.origin[i].Some? && p.origin[i].value < |meanings| then meanings[p.origin[i].value] else UNKNOWN_PACKAGE
  }

  ghost function FinalMeanings(p: Placement, meanings: seq<ResolvedImport>): (r: seq<ResolvedImport>)
    ensures |r| == |p.origin|
  {
    seq(|p.origin|, i requires 0 <= i < |p.origin| => FinalMeaning(p, meanings, i))
  }

  /** A remapped reference stands for what the original reference stood for. */
  lemma {:induction false} RemapKeepsMeaning(p: Placement, meanings: seq<ResolvedImport>, index: PackageIndex,
                                             reference: Reference)
    requires p.Consistent() && p.count == |meanings|
    requires Points(meanings, index, reference) && RemapIndex(p.remap, index).Some?
    ensures Points(FinalMeanings(p, meanings), RemapIndex(p.remap, index).value, reference)
  {
    if index.IsImport() {
      assert p.InverseOk(index.ToImportIndex());
    }
  }

  lemma {:induction false} RemappedEntryMeans(names: seq<string>, p: Placement, meanings: seq<ResolvedImport>,
                                              e: ObjectImport, r: ResolvedImport)
    requires p.Consistent() && p.count == |meanings|
    requires Means(names, e, r, meanings) && RemapImport(p.remap, e).Some?
    ensures Means(names, RemapImport(p.remap, e).value, r, FinalMeanings(p, meanings))
  {
    if r.outer.Some? {
      RemapKeepsMeaning(p, meanings, e.outerIndex, Imported(r.outer.value));
    }
  }

  /** Every final entry denotes the import it was copied from, outer chain included. */
  lemma {:induction false} FinalTable(names: seq<string>, imports: seq<ObjectImport>, meanings: seq<ResolvedImport>,
                                      p: Placement, placed: seq<ObjectImport>, final: seq<ObjectImport>)
    requires p.Consistent() && p.count == |meanings| && Table(names, imports, meanings)
    requires Entries(names, imports, placed, p.origin)
    requires Maps((e: ObjectImport) => RemapImport(p.remap, e), placed, final)
    ensures Table(names, final, FinalMeanings(p, meanings))
  {
    var m := FinalMeanings(p, meanings);
    forall i: nat | i < |final|
      ensures Means(names, final[i], m[i], m)
    {
      assert EntryOk(names, imports, placed, p.origin, i);
      if p.origin[i].Some? {
        var c := p.origin[i].value;
        assert Means(names, imports[c], meanings[c], meanings);
        RemappedEntryMeans(names, p, meanings, placed[i], m[i]);
      }
    }
  }

  ghost predicate EveryMapped(remap: map<nat, nat>, placed: seq<ObjectImport>, exports: seq<NamedExport>,
                              preload: seq<PackageIndex>)
  {
    && (forall e :: e in exports ==> RemapExport(remap, e).Some?)
    && (forall e :: e in placed ==> RemapImport(remap, e).Some?)
    && (forall d :: d in preload ==> RemapIndex(remap, d).Some?)
  }

  /** Puts the imports in their final order and remaps all references. It aborts
      exactly when a reference names an import that found no place. */
  method FinalizeAsset(builder: LegacyAssetBuilder, zenImportCount: nat)
    returns (ok: bool, ghost p: Placement, ghost last: nat, ghost placed: seq<ObjectImport>)
    requires builder.Valid()
    requires OrderInRange(builder.originalImportOrder, |builder.imports|, zenImportCount)
    modifies builder`imports, builder`exports, builder`preloadDependencies, builder`meanings, builder.nameMap
    ensures p.order == builder.originalImportOrder && p.count == |old(builder.imports)|
    ensures |p.origin| == Max(p.count, zenImportCount)
    ensures Placed(p, last) && old(builder.nameMap.names) <= builder.nameMap.names
    ensures Entries(builder.nameMap.names, old(builder.imports), placed, p.origin)
    ensures ok <==> EveryMapped(p.remap, placed, old(builder.exports), old(builder.preloadDependencies))
    ensures ok ==> builder.meanings == FinalMeanings(p, old(builder.meanings))
    ensures ok ==> Table(builder.nameMap.names, builder.imports, builder.meanings)
    ensures ok ==> Maps((e: NamedExport) => RemapExport(p.remap, e), old(builder.exports), builder.exports)
    ensures ok ==> Maps((d: PackageIndex) => RemapIndex(p.remap, d), old(builder.preloadDependencies),
                        builder.preloadDependencies)
  {
    var newImports, remap, placement, current := PlaceImports(builder, Max(|builder.imports|, zenImportCount));
    p, last, placed := placement, current, newImports;
    var exports := RemapEach(builder.exports, (e: NamedExport) => RemapExport(remap, e));
    var imports := RemapEach(newImports, (e: ObjectImport) => RemapImport(remap, e));
    var preload := RemapEach(builder.preloadDependencies, (d: PackageIndex) => RemapIndex(remap, d));
    ok := exports.Some? && imports.Some? && preload.Some?;
    if ok {
      FinalTable(builder.nameMap.names, builder.imports, builder.meanings, p, newImports, imports.value);
      builder.meanings := FinalMeanings(p, builder.meanings);
      builder.imports, builder.exports := imports.value, exports.value;
      builder.preloadDependencies := preload.value;
    }
  }

  // ------------------------------------------------- from zen package to legacy

  /** Zen dependencies number imports as the zen package does; they are translated to
      the temporary numbering first. */
  function ToTemporary(order: map<nat, nat>, d: PackageIndex): PackageIndex
    requires d.IsImport() ==> d.ToImportIndex() in order
  {
    if d.IsImport() then CreateImport(order[d.ToImportIndex()]) else d
  }

  ghost predicate DependenciesListed(dependencies: seq<PackageIndex>, order: map<nat, nat>) {
    forall d :: d in dependencies && d.IsImport() ==> d.ToImportIndex() in order
  }

  method TranslateDependencies(builder: LegacyAssetBuilder, dependencies: seq<PackageIndex>)
    requires DependenciesListed(dependencies, builder.originalImportOrder)
    modifies builder`preloadDependencies
    ensures |builder.preloadDependencies| == |dependencies|
    ensures forall k :: 0 <= k < |dependencies| ==>
              dependencies[k] in dependencies
              && builder.preloadDependencies[k] == ToTemporary(builder.originalImportOrder, dependencies[k])
  {
    var translated := [];
    for k := 0 to |dependencies|
      invariant |translated| == k
      invariant forall j :: 0 <= j < k ==>
                  && dependencies[j] in dependencies
                  && translated[j] == ToTemporary(builder.originalImportOrder, dependencies[j])
    {
      assert dependencies[k] in dependencies;
      translated := translated + [ToTemporary(builder.originalImportOrder, dependencies[k])];
    }
    builder.preloadDependencies := translated;
  }

  /** With an injective order, translating a zen dependency to the temporary numbering
      and finalizing it is the identity. */
  lemma {:induction false} DependencyRoundTrip(p: Placement, last: nat, d: PackageIndex)
    requires Placed(p, last) && OrderInRange(p.order, p.count, |p.origin|) && p.count <= |p.origin|
    requires Injective(p.order)
    requires d.IsImport() ==> d.ToImportIndex() in p.order
    ensures RemapIndex(p.remap, ToTemporary(p.order, d)) == Some(d)
  {
    InjectiveOrderUndone(p, last);
  }

  /** What a reference of the finished package stands for. */
  ghost predicate RefersTo(names: seq<string>, imports: seq<ObjectImport>, index: PackageIndex, reference: Reference) {
    match reference
    case NoObject => index.IsNull()
    case LocalExport(e) => index == CreateExport(e)
    case Imported(r) => index.IsImport() && Denotes(names, imports, index.ToImportIndex(), r)
  }

  ghost predicate ExportRefersTo(names: seq<string>, imports: seq<ObjectImport>, e: NamedExport, z: ZenExport,
                                 resolution: Resolution)
  {
    && RefersTo(names, imports, e.classIndex, Meaning(z.classIndex, resolution))
    && RefersTo(names, imports, e.superIndex, Meaning(z.superIndex, resolution))
    && RefersTo(names, imports, e.templateIndex, Meaning(z.templateIndex, resolution))
    && RefersTo(names, imports, e.outerIndex, Meaning(z.outerIndex, resolution))
    && Spells(names, e.objectName, z.objectName)
  }

  lemma {:induction false} PointsRefers(names: seq<string>, imports: seq<ObjectImport>, meanings: seq<ResolvedImport>,
                                        index: PackageIndex, reference: Reference)
    requires Table(names, imports, meanings) && Points(meanings, index, reference)
    ensures RefersTo(names, imports, index, reference)
  {
    if reference.Imported? {
      TableDenotes(names, imports, meanings, index.ToImportIndex());
    }
  }

  /** A final reference that came from a temporary one refers to the same thing. */
  lemma {:induction false} RemappedRefers(names: seq<string>, imports: seq<ObjectImport>,
                                          meanings: seq<ResolvedImport>, p: Placement, index: PackageIndex,
                                          reference: Reference)
    requires p.Consistent() && p.count == |meanings| && Table(names, imports, FinalMeanings(p, meanings))
    requires Points(meanings, index, reference) && RemapIndex(p.remap, index).Some?
    ensures RefersTo(names, imports, RemapIndex(p.remap, index).value, reference)
  {
    RemapKeepsMeaning(p, meanings, index, reference);
    PointsRefers(names, imports, FinalMeanings(p, meanings), RemapIndex(p.remap, index).value, reference);
  }

  lemma {:induction false} RemappedExportRefers(names: seq<string>, more: seq<string>, imports: seq<ObjectImport>,
                                                meanings: seq<ResolvedImport>, p: Placement, e: NamedExport,
                                                z: ZenExport, resolution: Resolution)
    requires names <= more && p.Consistent() && p.count == |meanings| &&
               Table(more, imports, FinalMeanings(p, meanings))
    requires ExportMeans(names, meanings, e, z, resolution) && RemapExport(p.remap, e).Some?
    ensures ExportRefersTo(more, imports, RemapExport(p.remap, e).value, z, resolution)
  {
    RemappedRefers(more, imports, meanings, p, e.classIndex, Meaning(z.classIndex, resolution));
    RemappedRefers(more, imports, meanings, p, e.superIndex, Meaning(z.superIndex, resolution));
    RemappedRefers(more, imports, meanings, p, e.templateIndex, Meaning(z.templateIndex, resolution));
    RemappedRefers(more, imports, meanings, p, e.outerIndex, Meaning(z.outerIndex, resolution));
  }

  /** The import at a predefined position is the one the zen package listed there. */
  lemma {:induction false} PredefinedRefers(names: seq<string>, imports: seq<ObjectImport>,
                                            meanings: seq<ResolvedImport>, p: Placement, i: nat, reference: Reference)
    requires p.Consistent() && p.count == |meanings| && Table(names, imports, FinalMeanings(p, meanings))
    requires OrderInRange(p.order, p.count, |p.origin|) && i in p.order
    requires Points(meanings, CreateImport(p.order[i]), reference)
    ensures RefersTo(names, imports, CreateImport(i), reference)
  {
    assert p.PositionOk(i);
    PointsRefers(names, imports, FinalMeanings(p, meanings), CreateImport(i), reference);
  }

  // ------------------------------------------------- nothing aborts when total

  lemma {:induction false} PointsMapped(p: Placement, meanings: seq<ResolvedImport>, index: PackageIndex,
                                        reference: Reference)
    requires p.Total() && p.count == |meanings| && Points(meanings, index, reference)
    ensures RemapIndex(p.remap, index).Some?
  {
  }

  lemma {:induction false} ExportMapped(names: seq<string>, p: Placement, meanings: seq<ResolvedImport>,
                                        e: NamedExport, z: ZenExport, resolution: Resolution)
    requires p.Total() && p.count == |meanings| && ExportMeans(names, meanings, e, z, resolution)
    ensures RemapExport(p.remap, e).Some?
  {
    PointsMapped(p, meanings, e.classIndex, Meaning(z.classIndex, resolution));
    PointsMapped(p, meanings, e.superIndex, Meaning(z.superIndex, resolution));
    PointsMapped(p, meanings, e.templateIndex, Meaning(z.templateIndex, resolution));
    PointsMapped(p, meanings, e.outerIndex, Meaning(z.outerIndex, resolution));
  }

  lemma {:induction false} EntryMapped(names: seq<string>, imports: seq<ObjectImport>, meanings: seq<ResolvedImport>,
                                       p: Placement, placed: seq<ObjectImport>, i: nat)
    requires p.Total() && p.count == |meanings| && Table(names, imports, meanings)
    requires Entries(names, imports, placed, p.origin) && i < |placed|
    ensures RemapImport(p.remap, placed[i]).Some?
  {
    assert EntryOk(names, imports, placed, p.origin, i);
    if p.origin[i].Some? {
      var c := p.origin[i].value;
      assert Means(names, imports[c], meanings[c], meanings);
    }
  }
}
