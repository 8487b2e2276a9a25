/** Rebuilding the import map of a legacy package. Every resolved import is stored
    once, behind its outer, and spelled through the name table. */
module ImportTable {
  import opened Zen
  import opened Names

  const CORE_OBJECT_PACKAGE_NAME := "/Script/CoreUObject"
  const PACKAGE_CLASS_NAME := "Package"
  const OBJECT_CLASS_NAME := "Object"

  /** An import in full: its class, its name and the object that contains it. */
  datatype ResolvedImport = ResolvedImport(
    classPackage: string, className: string, objectName: string, outer: Option<ResolvedImport>)

  /** An import map entry; the outer is a reference into the same map. */
  datatype ObjectImport = ObjectImport(
    classPackage: MinimalName, className: MinimalName, outerIndex: PackageIndex, objectName: MinimalName)

  /** An export map entry, reduced to its references and its name. */
  datatype NamedExport = NamedExport(
    classIndex: PackageIndex, superIndex: PackageIndex, templateIndex: PackageIndex, outerIndex: PackageIndex,
    objectName: MinimalName)

  /** A reference as a zen package states it. */
  datatype PackageObject = Null | Export(index: nat) | ScriptImport(id: nat) | PackageImport(id: nat) {
    predicate IsImport() { ScriptImport? || PackageImport? }
  }

  datatype ZenExport = ZenExport(
    classIndex: PackageObject, superIndex: PackageObject, templateIndex: PackageObject, outerIndex: PackageObject,
    objectName: string)

  /** What an import that cannot be resolved is replaced by. */
  const UNKNOWN_PACKAGE := ResolvedImport(CORE_OBJECT_PACKAGE_NAME, PACKAGE_CLASS_NAME, "/Engine/UnknownPackage", None)
  const UNKNOWN_OBJECT := ResolvedImport(CORE_OBJECT_PACKAGE_NAME, OBJECT_CLASS_NAME, "UnknownExport",
                                         Some(UNKNOWN_PACKAGE))

  /** What a reference stands for. */
  datatype Reference = NoObject | LocalExport(index: nat) | Imported(target: ResolvedImport)

  /** The imports that the loader can resolve, and what to. */
  type Resolution = map<PackageObject, ResolvedImport>

  function Meaning(zenObject: PackageObject, resolution: Resolution): Reference {
    match zenObject
    case Null => NoObject
    case Export(e) => LocalExport(e)
    case _ => Imported(if zenObject in resolution then resolution[zenObject] else UNKNOWN_OBJECT)
  }

  // ----------------------------------------------------- what an entry denotes

  ghost predicate Spells(names: seq<string>, name: MinimalName, text: string) {
    Named(names, name) && NameText(names, name) == text
  }

  /** The texts of an entry, and whether it has an outer. */
  ghost predicate Reads(names: seq<string>, e: ObjectImport, r: ResolvedImport) {
    && Spells(names, e.classPackage, r.classPackage)
    && Spells(names, e.className, r.className)
    && Spells(names, e.objectName, r.objectName)
    && (r.outer.None? <==> e.outerIndex.IsNull())
  }

  /** Entry `i` of the import map, followed through its chain of outers, is exactly
      the import `r`. */
  ghost predicate Denotes(names: seq<string>, imports: seq<ObjectImport>, i: nat, r: ResolvedImport)
    decreases r
  {
    && i < |imports|
    && Reads(names, imports[i], r)
    && (r.outer.Some? ==>
          && imports[i].outerIndex.IsImport()
          && Denotes(names, imports, imports[i].outerIndex.ToImportIndex(), r.outer.value))
  }

  lemma {:induction false} DenotesUnique(names: seq<string>, imports: seq<ObjectImport>, i: nat, r: ResolvedImport,
                                         s: ResolvedImport)
    requires Denotes(names, imports, i, r) && Denotes(names, imports, i, s)
    ensures r == s
    decreases r
  {
    if r.outer.Some? {
      DenotesUnique(names, imports, imports[i].outerIndex.ToImportIndex(), r.outer.value, s.outer.value);
    }
  }

  /** `e` has the outer that `r` names, looked up in a table of meanings. */
  ghost predicate Linked(e: ObjectImport, r: ResolvedImport, meanings: seq<ResolvedImport>) {
    || e.outerIndex.IsNull()
    || (&& e.outerIndex.IsImport() && e.outerIndex.ToImportIndex() < |meanings|
        && r.outer == Some(meanings[e.outerIndex.ToImportIndex()]))
  }

  ghost predicate Means(names: seq<string>, e: ObjectImport, r: ResolvedImport, meanings: seq<ResolvedImport>) {
    Reads(names, e, r) && Linked(e, r, meanings)
  }

  /** A table of what every entry of an import map denotes. */
  ghost predicate Table(names: seq<string>, imports: seq<ObjectImport>, meanings: seq<ResolvedImport>) {
    && |imports| == |meanings|
    && forall i {:trigger Means(names, imports[i], meanings[i], meanings)} ::
         0 <= i < |imports| ==> Means(names, imports[i], meanings[i], meanings)
  }

  lemma {:induction false} TableDenotes(names: seq<string>, imports: seq<ObjectImport>, meanings: seq<ResolvedImport>,
                                        i: nat)
    requires Table(names, imports, meanings) && i < |imports|
    ensures Denotes(names, imports, i, meanings[i])
    decreases meanings[i]
  {
    assert Means(names, imports[i], meanings[i], meanings);
    if meanings[i].outer.Some? {
      TableDenotes(names, imports, meanings, imports[i].outerIndex.ToImportIndex());
    }
  }

  /** Meanings survive when names and meanings are appended. */
  lemma {:induction false} MeansExtends(names: seq<string>, moreNames: seq<string>, e: ObjectImport, r: ResolvedImport,
                                        meanings: seq<ResolvedImport>, more: seq<ResolvedImport>)
    requires names <= moreNames && meanings <= more && Means(names, e, r, meanings)
    ensures Means(moreNames, e, r, more)
  {
  }

  lemma {:induction false} TableExtends(names: seq<string>, moreNames: seq<string>, imports: seq<ObjectImport>,
                                        meanings: seq<ResolvedImport>)
    requires names <= moreNames && Table(names, imports, meanings)
    ensures Table(moreNames, imports, meanings)
  {
    forall i | 0 <= i < |imports|
      ensures Means(moreNames, imports[i], meanings[i], meanings)
    {
      MeansExtends(names, moreNames, imports[i], meanings[i], meanings, meanings);
    }
  }

  lemma {:induction false} TablePush(names: seq<string>, imports: seq<ObjectImport>, meanings: seq<ResolvedImport>,
                                     e: ObjectImport, r: ResolvedImport)
    requires Table(names, imports, meanings) && Means(names, e, r, meanings)
    ensures Table(names, imports + [e], meanings + [r])
  {
    forall i | 0 <= i < |imports| + 1
      ensures Means(names, (imports + [e])[i], (meanings + [r])[i], meanings + [r])
    {
      if i < |imports| {
        MeansExtends(names, names, imports[i], meanings[i], meanings, meanings + [r]);
      } else {
        MeansExtends(names, names, e, r, meanings, meanings + [r]);
      }
    }
  }

  /** What a reference stands for, given what the imports denote. */
  ghost predicate Points(meanings: seq<ResolvedImport>, index: PackageIndex, reference: Reference) {
    match reference
    case NoObject => index.IsNull()
    case LocalExport(e) => index == CreateExport(e)
    case Imported(r) => index.IsImport() && index.ToImportIndex() < |meanings| && meanings[index.ToImportIndex()] == r
  }

  /** Outers stand before the imports they contain. */
  ghost predicate OutersFirst(imports: seq<ObjectImport>) {
    forall i :: 0 <= i < |imports| ==>
      var o := imports[i].outerIndex; o.IsNull() || (o.IsImport() && o.ToImportIndex() < i)
  }

  // ---------------------------------------------------------------- the builder

  /** The import together with everything that contains it. */
  ghost function Chain(r: ResolvedImport): set<ResolvedImport> {
    {r} + if r.outer.Some? then Chain(r.outer.value) else {}
  }

  ghost predicate Extends<K, V>(m: map<K, V>, more: map<K, V>) {
    forall k :: k in m ==> k in more && more[k] == m[k]
  }

  function Depth(r: ResolvedImport): nat {
    if r.outer.Some? then Depth(r.outer.value) + 1 else 0
  }

  lemma {:induction false} ChainIsShallow(r: ResolvedImport, s: ResolvedImport)
    requires s in Chain(r)
    ensures Depth(s) <= Depth(r)
  {
    if s != r {
      ChainIsShallow(r.outer.value, s);
    }
  }

  /** The entry of `r` has the entry of its outer as outer. */
  ghost predicate OuterKnown(imports: seq<ObjectImport>, lookup: map<ResolvedImport, PackageIndex>, r: ResolvedImport) {
    r in lookup && r.outer.Some? ==>
      && r.outer.value in lookup && lookup[r].IsImport() && lookup[r].ToImportIndex() < |imports|
      && imports[lookup[r].ToImportIndex()].outerIndex == lookup[r.outer.value]
  }

  ghost predicate OutersKnown(imports: seq<ObjectImport>, lookup: map<ResolvedImport, PackageIndex>) {
    forall r {:trigger OuterKnown(imports, lookup, r)} :: OuterKnown(imports, lookup, r)
  }

  lemma {:induction false} OutersKnownPush(imports: seq<ObjectImport>, lookup: map<ResolvedImport, PackageIndex>,
                                           entry: ObjectImport)
    requires OutersKnown(imports, lookup)
    ensures OutersKnown(imports + [entry], lookup)
  {
    forall r: ResolvedImport
      ensures OuterKnown(imports + [entry], lookup, r)
    {
      assert OuterKnown(imports, lookup, r);
    }
  }

  lemma {:induction false} OutersKnownAdd(imports: seq<ObjectImport>, lookup: map<ResolvedImport, PackageIndex>,
                                          r: ResolvedImport, i: nat)
    requires OutersKnown(imports, lookup) && r !in lookup && i < |imports|
    requires r.outer.Some? ==> r.outer.value in lookup && imports[i].outerIndex == lookup[r.outer.value]
    ensures OutersKnown(imports, lookup[r := CreateImport(i)])
  {
    var more := lookup[r := CreateImport(i)];
    forall s: ResolvedImport
      ensures OuterKnown(imports, more, s)
    {
      assert OuterKnown(imports, lookup, s);
    }
  }

  /** Entry `i` is the one entry the lookup knows for its meaning. */
  ghost predicate CanonicalIn(meanings: seq<ResolvedImport>, lookup: map<ResolvedImport, PackageIndex>, i: nat) {
    i < |meanings| && meanings[i] in lookup && lookup[meanings[i]] == CreateImport(i)
  }

  ghost predicate CanonicalFrom(meanings: seq<ResolvedImport>, lookup: map<ResolvedImport, PackageIndex>, from: nat) {
    forall i: nat :: from <= i < |meanings| ==> CanonicalIn(meanings, lookup, i)
  }

  lemma {:induction false} CanonicalPush(meanings: seq<ResolvedImport>, lookup: map<ResolvedImport, PackageIndex>,
                                         from: nat, r: ResolvedImport)
    requires CanonicalFrom(meanings, lookup, from) && r !in lookup
    ensures CanonicalFrom(meanings + [r], lookup[r := CreateImport(|meanings|)], from)
  {
    var table, more := meanings + [r], lookup[r := CreateImport(|meanings|)];
    forall i: nat | from <= i < |table|
      ensures CanonicalIn(table, more, i)
    {
      if i < |meanings| {
        assert table[i] == meanings[i] && CanonicalIn(meanings, lookup, i);
      }
    }
  }

  /** The imports in `chain` became known; new ones got the entries from `from` on. */
  ghost predicate Learned(before: map<ResolvedImport, PackageIndex>, after: map<ResolvedImport, PackageIndex>,
                          from: nat, chain: set<ResolvedImport>)
  {
    && (forall s :: s in before ==> s in after && after[s] == before[s])
    && (forall s :: s in after <==> s in before || s in chain)
    && (forall s :: s in after && s !in before ==> after[s].index <= CreateImport(from).index)
  }

  lemma {:induction false} LearnOne(before: map<ResolvedImport, PackageIndex>, after: map<ResolvedImport, PackageIndex>,
                                    from: nat, chain: set<ResolvedImport>, r: ResolvedImport, i: nat)
    requires Learned(before, after, from, chain) && r !in after && from <= i
    ensures Learned(before, after[r := CreateImport(i)], from, chain + {r})
    ensures |after[r := CreateImport(i)]| == |after| + 1
  {
    var more := after[r := CreateImport(i)];
    assert more.Keys == after.Keys + {r} && |more| == |more.Keys| && |after| == |after.Keys|;
  }

  lemma {:induction false} OuterIsNotInner(r: ResolvedImport)
    requires r.outer.Some?
    ensures r !in Chain(r.outer.value)
  {
    if r in Chain(r.outer.value) {
      ChainIsShallow(r.outer.value, r);
    }
  }

  class LegacyAssetBuilder {
    const nameMap: NameMap
    var imports: seq<ObjectImport>
    var exports: seq<NamedExport>
    var preloadDependencies: seq<PackageIndex>
    var resolvedImportLookup: map<ResolvedImport, PackageIndex>
    var zenImportLookup: map<PackageObject, PackageIndex>
    /** From the position an import had in the zen package to its temporary one. */
    var originalImportOrder: map<nat, nat>
    ghost var meanings: seq<ResolvedImport>

    ghost predicate Valid()
      reads `imports, `meanings, `resolvedImportLookup, nameMap
    {
      && nameMap.Valid()
      && Table(nameMap.names, imports, meanings)
      && OutersFirst(imports)
      && (forall r :: r in resolvedImportLookup ==> Points(meanings, resolvedImportLookup[r], Imported(r)))
      && OutersKnown(imports, resolvedImportLookup)
    }

    constructor (names: seq<string>)
      ensures Valid() && fresh(nameMap) && nameMap.names == names
      ensures imports == [] && resolvedImportLookup == map[] && zenImportLookup == map[]
      ensures originalImportOrder == map[] && exports == [] && preloadDependencies == []
    {
      nameMap := new NameMap.FromNames(names);
      imports, exports, preloadDependencies, meanings := [], [], [], [];
      resolvedImportLookup, zenImportLookup, originalImportOrder := map[], map[], map[];
    }

    /** Spells an import through the name table. */
    method SpellImport(r: ResolvedImport, outerIndex: PackageIndex) returns (entry: ObjectImport)
      requires nameMap.Valid() && (r.outer.None? <==> outerIndex.IsNull())
      modifies nameMap
      ensures nameMap.Valid() && old(nameMap.names) <= nameMap.names
      ensures Reads(nameMap.names, entry, r) && entry.outerIndex == outerIndex
    {
      var classPackage := nameMap.Store(r.classPackage);
      ghost var names1 := nameMap.names;
      var className := nameMap.Store(r.className);
      ghost var names2 := nameMap.names;
      var objectName := nameMap.Store(r.objectName);
      assert names1 <= names2 <= nameMap.names;
      assert Spells(nameMap.names, classPackage, r.classPackage);
      assert Spells(nameMap.names, className, r.className);
      entry := ObjectImport(classPackage, className, outerIndex, objectName);
    }

    method PushImport(r: ResolvedImport, outerIndex: PackageIndex) returns (index: PackageIndex)
      requires Valid()
      requires if r.outer.Some? then Points(meanings, outerIndex, Imported(r.outer.value)) else outerIndex.IsNull()
      modifies `imports, `meanings, nameMap
      ensures Valid() && index == CreateImport(|old(imports)|)
      ensures old(nameMap.names) <= nameMap.names
      ensures |imports| == |old(imports)| + 1 && old(imports) <= imports
      ensures imports[|old(imports)|].outerIndex == outerIndex
      ensures meanings == old(meanings) + [r]
    {
      var entry := SpellImport(r, outerIndex);
      index := CreateImport(|imports|);
      TableExtends(old(nameMap.names), nameMap.names, imports, meanings);
      TablePush(nameMap.names, imports, meanings, entry, r);
      OutersKnownPush(imports, resolvedImportLookup, entry);
      imports := imports + [entry];
      meanings := meanings + [r];
    }

    method AddResolvedImport(r: ResolvedImport, outerIndex: PackageIndex) returns (index: PackageIndex)
      requires Valid() && r !in resolvedImportLookup
      requires if r.outer.Some? then r.outer.value in resolvedImportLookup &&
                 resolvedImportLookup[r.outer.value] == outerIndex
               else outerIndex.IsNull()
      modifies `imports, `meanings, `resolvedImportLookup, nameMap
      ensures Valid() && index == CreateImport(|old(imports)|)
      ensures resolvedImportLookup == old(resolvedImportLookup)[r := index]
      ensures |imports| == |old(imports)| + 1 && old(imports) <= imports
      ensures old(nameMap.names) <= nameMap.names && meanings == old(meanings) + [r]
    {
      index := PushImport(r, outerIndex);
      OutersKnownAdd(imports, resolvedImportLookup, r, |imports| - 1);
      resolvedImportLookup := resolvedImportLookup[r := index];
    }

    /** Hash-consing: the result denotes exactly the requested import, an import asked
        for again gives the same index, and only the members of its outer chain that
        were missing are added, each once. */
    method FindOrAddResolvedImport(r: ResolvedImport) returns (index: PackageIndex)
      requires Valid()
      modifies `imports, `meanings, `resolvedImportLookup, nameMap
      ensures Valid() && r in resolvedImportLookup && index == resolvedImportLookup[r]
      ensures Learned(old(resolvedImportLookup), resolvedImportLookup, |old(meanings)|, Chain(r))
      ensures |meanings| - |old(meanings)| == |resolvedImportLookup| - |old(resolvedImportLookup)|
      ensures CanonicalFrom(meanings, resolvedImportLookup, |old(meanings)|)
      ensures old(nameMap.names) <= nameMap.names && old(imports) <= imports && old(meanings) <= meanings
      decreases r, 1
    {
      if r in resolvedImportLookup {
        ChainIsKnown(r);
        return resolvedImportLookup[r];
      }
      index := AddMissingImport(r);
    }

    /** Adds an import behind its outer. */
    method AddMissingImport(r: ResolvedImport) returns (index: PackageIndex)
      requires Valid() && r !in resolvedImportLookup
      modifies `imports, `meanings, `resolvedImportLookup, nameMap
      ensures Valid() && r in resolvedImportLookup && index == resolvedImportLookup[r]
      ensures Learned(old(resolvedImportLookup), resolvedImportLookup, |old(meanings)|, Chain(r))
      ensures |meanings| - |old(meanings)| == |resolvedImportLookup| - |old(resolvedImportLookup)|
      ensures CanonicalFrom(meanings, resolvedImportLookup, |old(meanings)|)
      ensures old(nameMap.names) <= nameMap.names && old(imports) <= imports && old(meanings) <= meanings
      decreases r, 0
    {
      ghost var before, from := resolvedImportLookup, |meanings|;
      ghost var outers: set<ResolvedImport> := {};
      var outerIndex := NULL_INDEX;
      if r.outer.Some? {
        outerIndex := FindOrAddResolvedImport(r.outer.value);
        outers := Chain(r.outer.value);
        OuterIsNotInner(r);
      }
      LearnOne(before, resolvedImportLookup, from, outers, r, |meanings|);
      CanonicalPush(meanings, resolvedImportLookup, from, r);
      index := AddResolvedImport(r, outerIndex);
    }

    lemma {:induction false} ChainIsKnown(r: ResolvedImport)
      requires Valid() && r in resolvedImportLookup
      ensures Chain(r) <= resolvedImportLookup.Keys
      decreases r
    {
      if r.outer.Some? {
        assert OuterKnown(imports, resolvedImportLookup, r);
        ChainIsKnown(r.outer.value);
      }
    }
  }

  // ----------------------------------------------------------- the import map

  /** What the builder knows about imports: the entries with their meanings, and the
      entries of resolved imports and of objects of the zen package. */
  datatype Tables = Tables(
    imports: seq<ObjectImport>, meanings: seq<ResolvedImport>,
    known: map<ResolvedImport, PackageIndex>, lookup: map<PackageObject, PackageIndex>)

  ghost function TablesOf(builder: LegacyAssetBuilder): Tables
    reads builder`imports, builder`meanings, builder`resolvedImportLookup, builder`zenImportLookup
  {
    Tables(builder.imports, builder.meanings, builder.resolvedImportLookup, builder.zenImportLookup)
  }

  /** Resolved objects share the entry of their import; every unresolved object has a
      placeholder of its own. */
  ghost predicate Mapped(t: Tables, resolution: Resolution, p: PackageObject, index: PackageIndex) {
    && p.IsImport() && Points(t.meanings, index, Meaning(p, resolution))
    && (p in resolution ==> resolution[p] in t.known && t.known[resolution[p]] == index)
    && (p !in resolution ==> !CanonicalIn(t.meanings, t.known, index.ToImportIndex()))
  }

  ghost predicate PlaceholdersDistinct(lookup: map<PackageObject, PackageIndex>, resolution: Resolution) {
    forall p, q | p in lookup && q in lookup && p !in resolution && q !in resolution ::
      lookup[p] == lookup[q] ==> p == q
  }

  ghost predicate TablesValid(t: Tables, resolution: Resolution) {
    && (forall p {:trigger t.lookup[p]} :: p in t.lookup ==> Mapped(t, resolution, p, t.lookup[p]))
    && PlaceholdersDistinct(t.lookup, resolution)
    && Accounted(t, resolution)
  }

  ghost predicate ZenLookupValid(builder: LegacyAssetBuilder, resolution: Resolution)
    reads builder`imports, builder`meanings, builder`resolvedImportLookup, builder`zenImportLookup
  {
    TablesValid(TablesOf(builder), resolution)
  }

  // ------------------------------------------------- where the entries come from

  /** The objects that were replaced by placeholders. */
  ghost function Replaced(lookup: map<PackageObject, PackageIndex>, resolution: Resolution): set<PackageObject> {
    set p | p in lookup && p !in resolution
  }

  /** Entry `i` is the placeholder at `index`, or the unknown package it lies in. */
  predicate PlaceholderEntry(imports: seq<ObjectImport>, index: PackageIndex, i: nat) {
    || index == CreateImport(i)
    || (index.IsImport() && i < index.ToImportIndex() < |imports|
        && imports[index.ToImportIndex()].outerIndex == CreateImport(i))
  }

  ghost predicate HoldsPlaceholder(imports: seq<ObjectImport>, lookup: map<PackageObject, PackageIndex>,
                                   resolution: Resolution, i: nat)
  {
    exists p :: p in Replaced(lookup, resolution) && PlaceholderEntry(imports, lookup[p], i)
  }

  /** The import was asked for, or contains one that was. */
  ghost predicate Needed(lookup: map<PackageObject, PackageIndex>, resolution: Resolution, r: ResolvedImport) {
    exists p :: p in lookup && p in resolution && r in Chain(resolution[p])
  }

  ghost predicate EntryAccounted(t: Tables, resolution: Resolution, i: nat) {
    CanonicalIn(t.meanings, t.known, i) || HoldsPlaceholder(t.imports, t.lookup, resolution, i)
  }

  /** Every entry belongs to an import that was asked for, as itself or as an outer, or to
      a placeholder; a placeholder takes two entries. */
  ghost predicate Accounted(t: Tables, resolution: Resolution) {
    && |t.imports| == |t.meanings| == |t.known| + 2 * |Replaced(t.lookup, resolution)|
    && (forall i: nat {:trigger EntryAccounted(t, resolution, i)} :: i < |t.imports| ==>
        EntryAccounted(t, resolution, i))
    && (forall r {:trigger Needed(t.lookup, resolution, r)} :: r in t.known ==> Needed(t.lookup, resolution, r))
  }

  lemma {:induction false} PlaceholderStays(imports: seq<ObjectImport>, more: seq<ObjectImport>,
                                            lookup: map<PackageObject, PackageIndex>,
                                            moreLookup: map<PackageObject, PackageIndex>, resolution: Resolution,
                                            i: nat)
    requires imports <= more && HoldsPlaceholder(imports, lookup, resolution, i)
    requires forall p :: p in Replaced(lookup, resolution) ==> p in moreLookup && moreLookup[p] == lookup[p]
    ensures HoldsPlaceholder(more, moreLookup, resolution, i)
  {
    var q :| q in Replaced(lookup, resolution) && PlaceholderEntry(imports, lookup[q], i);
    assert q in Replaced(moreLookup, resolution) && PlaceholderEntry(more, moreLookup[q], i);
  }

  lemma {:induction false} NeededStays(lookup: map<PackageObject, PackageIndex>, p: PackageObject, index: PackageIndex,
                                       resolution: Resolution, r: ResolvedImport)
    requires Needed(lookup, resolution, r) || (p in resolution && r in Chain(resolution[p]))
    ensures Needed(lookup[p := index], resolution, r)
  {
    if Needed(lookup, resolution, r) {
      var q :| q in lookup && q in resolution && r in Chain(resolution[q]);
      assert q in lookup[p := index];
    } else {
      assert p in lookup[p := index];
    }
  }

  /** What adding a resolved import does to the tables. */
  ghost predicate ResolvedAdded(t: Tables, u: Tables, resolution: Resolution, p: PackageObject) {
    && p.IsImport() && p in resolution && resolution[p] in u.known
    && t.imports <= u.imports && t.meanings <= u.meanings && |u.imports| == |u.meanings|
    && |t.imports| == |t.meanings| && |u.meanings| - |t.meanings| == |u.known| - |t.known|
    && Learned(t.known, u.known, |t.meanings|, Chain(resolution[p]))
    && CanonicalFrom(u.meanings, u.known, |t.meanings|)
    && Points(u.meanings, u.known[resolution[p]], Imported(resolution[p]))
    && u.lookup == t.lookup[p := u.known[resolution[p]]]
  }

  lemma {:induction false} CanonicalBack(t: Tables, u: Tables, resolution: Resolution, p: PackageObject, i: nat)
    requires ResolvedAdded(t, u, resolution, p) && i < |t.meanings|
    ensures CanonicalIn(t.meanings, t.known, i) <==> CanonicalIn(u.meanings, u.known, i)
  {
    assert t.meanings[i] == u.meanings[i];
  }

  lemma {:induction false} ResolvedKeepsMapped(t: Tables, u: Tables, resolution: Resolution, p: PackageObject,
                                               q: PackageObject)
    requires TablesValid(t, resolution) && ResolvedAdded(t, u, resolution, p) && q in u.lookup
    ensures Mapped(u, resolution, q, u.lookup[q])
  {
    if q != p {
      var index := t.lookup[q];
      assert Mapped(t, resolution, q, index);
      CanonicalBack(t, u, resolution, p, index.ToImportIndex());
    }
  }

  lemma {:induction false} ResolvedKeepsAccounted(t: Tables, u: Tables, resolution: Resolution, p: PackageObject)
    requires Accounted(t, resolution) && ResolvedAdded(t, u, resolution, p)
    ensures Accounted(u, resolution)
  {
    assert Replaced(u.lookup, resolution) == Replaced(t.lookup, resolution);
    forall i: nat | i < |u.imports|
      ensures EntryAccounted(u, resolution, i)
    {
      if i < |t.imports| {
        assert EntryAccounted(t, resolution, i);
        CanonicalBack(t, u, resolution, p, i);
        if HoldsPlaceholder(t.imports, t.lookup, resolution, i) {
          PlaceholderStays(t.imports, u.imports, t.lookup, u.lookup, resolution, i);
        }
      }
    }
    forall r | r in u.known
      ensures Needed(u.lookup, resolution, r)
    {
      NeededStays(t.lookup, p, u.lookup[p], resolution, r);
    }
  }

  lemma {:induction false} ResolvedKeepsTables(t: Tables, u: Tables, resolution: Resolution, p: PackageObject)
    requires TablesValid(t, resolution) && ResolvedAdded(t, u, resolution, p)
    ensures TablesValid(u, resolution)
  {
    forall q | q in u.lookup
      ensures Mapped(u, resolution, q, u.lookup[q])
    {
      ResolvedKeepsMapped(t, u, resolution, p, q);
    }
    PlaceholdersStayDistinct(t.lookup, resolution, p, u.lookup[p]);
    ResolvedKeepsAccounted(t, u, resolution, p);
  }

  /** What adding a placeholder does to the tables. */
  ghost predicate PlaceholderAdded(t: Tables, u: Tables, resolution: Resolution, p: PackageObject) {
    && p.IsImport() && p !in resolution && p !in t.lookup
    && t.imports <= u.imports && t.meanings <= u.meanings
    && |u.imports| == |u.meanings| == |t.imports| + 2 && |t.imports| == |t.meanings|
    && u.imports[|t.imports| + 1].outerIndex == CreateImport(|t.imports|)
    && Points(u.meanings, CreateImport(|t.imports| + 1), Imported(UNKNOWN_OBJECT))
    && u.known == t.known && (forall r :: r in t.known ==> t.known[r].index >= -|t.imports|)
    && u.lookup == t.lookup[p := CreateImport(|t.imports| + 1)]
  }

  lemma {:induction false} PlaceholderKeepsMapped(t: Tables, u: Tables, resolution: Resolution, p: PackageObject,
                                                  q: PackageObject)
    requires TablesValid(t, resolution) && PlaceholderAdded(t, u, resolution, p) && q in u.lookup
    ensures Mapped(u, resolution, q, u.lookup[q])
    ensures q != p ==> u.lookup[q] != u.lookup[p]
  {
    if q != p {
      var index := t.lookup[q];
      assert Mapped(t, resolution, q, index);
      assert t.meanings[index.ToImportIndex()] == u.meanings[index.ToImportIndex()];
    }
  }

  lemma {:induction false} PlaceholderKeepsEntry(t: Tables, u: Tables, resolution: Resolution, p: PackageObject, i: nat)
    requires Accounted(t, resolution) && PlaceholderAdded(t, u, resolution, p) && i < |u.imports|
    ensures EntryAccounted(u, resolution, i)
  {
    if i < |t.imports| {
      assert EntryAccounted(t, resolution, i) && t.meanings[i] == u.meanings[i];
      if HoldsPlaceholder(t.imports, t.lookup, resolution, i) {
        PlaceholderStays(t.imports, u.imports, t.lookup, u.lookup, resolution, i);
      }
    } else {
      assert p in Replaced(u.lookup, resolution) && PlaceholderEntry(u.imports, u.lookup[p], i);
    }
  }

  lemma {:induction false} ReplacedCount(lookup: map<PackageObject, PackageIndex>, resolution: Resolution,
                                         p: PackageObject, index: PackageIndex)
    requires p !in lookup && p !in resolution
    ensures |Replaced(lookup[p := index], resolution)| == |Replaced(lookup, resolution)| + 1
  {
    assert Replaced(lookup[p := index], resolution) == Replaced(lookup, resolution) + {p};
  }

  lemma {:induction false} PlaceholderKeepsAccounted(t: Tables, u: Tables, resolution: Resolution, p: PackageObject)
    requires Accounted(t, resolution) && PlaceholderAdded(t, u, resolution, p)
    ensures Accounted(u, resolution)
  {
    ReplacedCount(t.lookup, resolution, p, u.lookup[p]);
    forall i: nat | i < |u.imports|
      ensures EntryAccounted(u, resolution, i)
    {
      PlaceholderKeepsEntry(t, u, resolution, p, i);
    }
    forall r | r in u.known
      ensures Needed(u.lookup, resolution, r)
    {
      assert Needed(t.lookup, resolution, r);
      NeededStays(t.lookup, p, u.lookup[p], resolution, r);
    }
  }

  lemma {:induction false} PlaceholderKeepsTables(t: Tables, u: Tables, resolution: Resolution, p: PackageObject)
    requires TablesValid(t, resolution) && PlaceholderAdded(t, u, resolution, p)
    ensures TablesValid(u, resolution)
  {
    forall q | q in u.lookup
      ensures Mapped(u, resolution, q, u.lookup[q])
      ensures q != p ==> u.lookup[q] != u.lookup[p]
    {
      PlaceholderKeepsMapped(t, u, resolution, p, q);
    }
    PlaceholdersStayDistinct(t.lookup, resolution, p, u.lookup[p]);
    PlaceholderKeepsAccounted(t, u, resolution, p);
  }

  lemma {:induction false} PlaceholdersStayDistinct(lookup: map<PackageObject, PackageIndex>, resolution: Resolution,
                                                    p: PackageObject, index: PackageIndex)
    requires PlaceholdersDistinct(lookup, resolution)
    requires p in resolution || forall q :: q in lookup && q != p ==> lookup[q] != index
    ensures PlaceholdersDistinct(lookup[p := index], resolution)
  {
  }

  method AddResolved(builder: LegacyAssetBuilder, zenObject: PackageObject, resolution: Resolution)
    returns (index: PackageIndex)
    requires builder.Valid() && ZenLookupValid(builder, resolution)
    requires zenObject.IsImport() && zenObject in resolution
    modifies builder`imports, builder`meanings, builder`resolvedImportLookup, builder`zenImportLookup, builder.nameMap
    ensures builder.Valid() && ZenLookupValid(builder, resolution)
    ensures old(builder.nameMap.names) <= builder.nameMap.names
    ensures old(builder.imports) <= builder.imports && old(builder.meanings) <= builder.meanings
    ensures builder.zenImportLookup == old(builder.zenImportLookup)[zenObject := index]
    ensures Points(builder.meanings, index, Imported(resolution[zenObject]))
  {
    ghost var t := TablesOf(builder);
    index := builder.FindOrAddResolvedImport(resolution[zenObject]);
    builder.zenImportLookup := builder.zenImportLookup[zenObject := index];
    ResolvedKeepsTables(t, TablesOf(builder), resolution, zenObject);
  }

  /** Resolves a reference of the zen package; an import that the loader cannot
      resolve is an error unless it already has a placeholder. */
  method ResolveLocalPackageObject(builder: LegacyAssetBuilder, zenObject: PackageObject, resolution: Resolution)
    returns (index: Option<PackageIndex>)
    requires builder.Valid() && ZenLookupValid(builder, resolution)
    modifies builder`imports, builder`meanings, builder`resolvedImportLookup, builder`zenImportLookup, builder.nameMap
    ensures builder.Valid() && ZenLookupValid(builder, resolution)
    ensures old(builder.nameMap.names) <= builder.nameMap.names
    ensures old(builder.imports) <= builder.imports && old(builder.meanings) <= builder.meanings
    ensures Extends(old(builder.zenImportLookup), builder.zenImportLookup)
    ensures index.None? <==>
              zenObject.IsImport() && zenObject !in resolution && zenObject !in old(builder.zenImportLookup)
    ensures index.Some? ==> Points(builder.meanings, index.value, Meaning(zenObject, resolution))
    ensures index.Some? && zenObject.IsImport() ==>
              zenObject in builder.zenImportLookup && builder.zenImportLookup[zenObject] == index.value
    ensures index.None? ==> builder.zenImportLookup == old(builder.zenImportLookup)
    ensures builder.zenImportLookup.Keys ==
            old(builder.zenImportLookup).Keys + if index.Some? && zenObject.IsImport() then {zenObject} else {}
  {
    if zenObject.Null? {
      return Some(NULL_INDEX);
    }
    if zenObject.Export? {
      return Some(CreateExport(zenObject.index));
    }
    if zenObject in builder.zenImportLookup {
      return Some(builder.zenImportLookup[zenObject]);
    }
    if zenObject !in resolution {
      return None;
    }
    var i := AddResolved(builder, zenObject, resolution);
    index := Some(i);
  }

  /** A placeholder for an import that cannot be resolved: an unknown package and an
      unknown object in it, which no other import will ever share. */
  method AddUnknownImport(builder: LegacyAssetBuilder) returns (index: PackageIndex)
    requires builder.Valid()
    modifies builder`imports, builder`meanings, builder.nameMap
    ensures builder.Valid() && Points(builder.meanings, index, Imported(UNKNOWN_OBJECT))
    ensures old(builder.nameMap.names) <= builder.nameMap.names
    ensures old(builder.imports) <= builder.imports && old(builder.meanings) <= builder.meanings
    ensures |builder.imports| == |old(builder.imports)| + 2 && index == CreateImport(|old(builder.imports)| + 1)
    ensures builder.imports[|old(builder.imports)| + 1].outerIndex == CreateImport(|old(builder.imports)|)
  {
    var unknownPackage := builder.PushImport(UNKNOWN_PACKAGE, NULL_INDEX);
    index := builder.PushImport(UNKNOWN_OBJECT, unknownPackage);
  }

  method AddPlaceholder(builder: LegacyAssetBuilder, zenObject: PackageObject, resolution: Resolution)
    returns (index: PackageIndex)
    requires builder.Valid() && ZenLookupValid(builder, resolution)
    requires zenObject.IsImport() && zenObject !in resolution && zenObject !in builder.zenImportLookup
    modifies builder`imports, builder`meanings, builder`zenImportLookup, builder.nameMap
    ensures builder.Valid() && ZenLookupValid(builder, resolution)
    ensures Points(builder.meanings, index, Imported(UNKNOWN_OBJECT))
    ensures builder.zenImportLookup == old(builder.zenImportLookup)[zenObject := index]
  {
    ghost var t := TablesOf(builder);
    index := AddUnknownImport(builder);
    builder.zenImportLookup := builder.zenImportLookup[zenObject := index];
    PlaceholderKeepsTables(t, TablesOf(builder), resolution, zenObject);
  }

  /** Resolves an entry of the import map, or gives it a placeholder. */
  method ResolveOrReplace(builder: LegacyAssetBuilder, zenObject: PackageObject, resolution: Resolution)
    returns (index: PackageIndex)
    requires builder.Valid() && ZenLookupValid(builder, resolution)
    modifies builder`imports, builder`meanings, builder`resolvedImportLookup, builder`zenImportLookup, builder.nameMap
    ensures builder.Valid() && ZenLookupValid(builder, resolution)
    ensures Entered(old(builder.zenImportLookup), builder.zenImportLookup, builder.meanings, resolution, zenObject,
                    index)
  {
    ghost var lookup := builder.zenImportLookup;
    var resolved := ResolveLocalPackageObject(builder, zenObject, resolution);
    if resolved.Some? {
      return resolved.value;
    }
    index := AddPlaceholder(builder, zenObject, resolution);
    PlaceholderEntered(lookup, builder.meanings, resolution, zenObject, index);
  }

  /** The object stands for what it means, and is known if it is an import. */
  ghost predicate Entered(lookup: map<PackageObject, PackageIndex>, more: map<PackageObject, PackageIndex>,
                          meanings: seq<ResolvedImport>, resolution: Resolution, p: PackageObject, index: PackageIndex)
  {
    && Extends(lookup, more) && Points(meanings, index, Meaning(p, resolution)) && LooksUp(more, index, p)
    && more.Keys == lookup.Keys + if p.IsImport() then {p} else {}
  }

  lemma {:induction false} PlaceholderEntered(lookup: map<PackageObject, PackageIndex>, meanings: seq<ResolvedImport>,
                                              resolution: Resolution, p: PackageObject, index: PackageIndex)
    requires p.IsImport() && p !in resolution && p !in lookup && Points(meanings, index, Imported(UNKNOWN_OBJECT))
    ensures Entered(lookup, lookup[p := index], meanings, resolution, p, index)
  {
  }

  /** The position of every import the zen package lists, holes left out. */
  ghost predicate OrderIs(order: map<nat, nat>, lookup: map<PackageObject, PackageIndex>,
                          zenImports: seq<PackageObject>, n: nat)
    requires n <= |zenImports|
  {
    && (forall i: nat :: i in order <==> i < n && !zenImports[i].Null?)
    && forall i :: i in order ==> zenImports[i] in lookup && lookup[zenImports[i]] == CreateImport(order[i])
  }

  lemma {:induction false} OrderStep(order: map<nat, nat>, lookup: map<PackageObject, PackageIndex>,
                                     more: map<PackageObject, PackageIndex>, zenImports: seq<PackageObject>, n: nat)
    requires n < |zenImports| && OrderIs(order, lookup, zenImports, n) && Extends(lookup, more)
    requires zenImports[n].IsImport() && zenImports[n] in more && more[zenImports[n]].IsImport()
    ensures OrderIs(order[n := more[zenImports[n]].ToImportIndex()], more, zenImports, n + 1)
  {
  }

  /** The imports among the first `n` entries of the import map. */
  ghost function ImportsAmong(zenImports: seq<PackageObject>, n: nat): set<PackageObject>
    requires n <= |zenImports|
  {
    set i: nat | i < n && zenImports[i].IsImport() :: zenImports[i]
  }

  /** The first `n` entries of the import map have been resolved. */
  ghost predicate OrderBuilt(order: map<nat, nat>, lookup: map<PackageObject, PackageIndex>,
                             zenImports: seq<PackageObject>, n: nat)
    requires n <= |zenImports|
  {
    lookup.Keys == ImportsAmong(zenImports, n) && OrderIs(order, lookup, zenImports, n)
  }

  lemma {:induction false} OrderBuiltStep(order: map<nat, nat>, lookup: map<PackageObject, PackageIndex>,
                                          more: map<PackageObject, PackageIndex>, zenImports: seq<PackageObject>,
                                          n: nat, index: PackageIndex)
    requires n < |zenImports| && OrderBuilt(order, lookup, zenImports, n) && Extends(lookup, more)
    requires zenImports[n].IsImport() && more.Keys == lookup.Keys + {zenImports[n]}
    requires LooksUp(more, index, zenImports[n]) && index.IsImport()
    ensures OrderBuilt(order[n := index.ToImportIndex()], more, zenImports, n + 1)
  {
    OrderStep(order, lookup, more, zenImports, n);
    assert ImportsAmong(zenImports, n + 1) == ImportsAmong(zenImports, n) + {zenImports[n]};
  }

  lemma {:induction false} OrderBuiltHole(order: map<nat, nat>, lookup: map<PackageObject, PackageIndex>,
                                          zenImports: seq<PackageObject>, n: nat)
    requires n < |zenImports| && OrderBuilt(order, lookup, zenImports, n) && zenImports[n].Null?
    ensures OrderBuilt(order, lookup, zenImports, n + 1)
  {
    assert ImportsAmong(zenImports, n + 1) == ImportsAmong(zenImports, n);
  }

  lemma {:induction false} EnteredKind(lookup: map<PackageObject, PackageIndex>,
                                       more: map<PackageObject, PackageIndex>, meanings: seq<ResolvedImport>,
                                       resolution: Resolution, p: PackageObject, index: PackageIndex)
    requires Entered(lookup, more, meanings, resolution, p, index) && !p.Null?
    ensures index.IsImport() <==> p.IsImport()
  {
  }

  /** Resolves entry `n` of the import map, unless it is a hole. */
  method BuildImport(builder: LegacyAssetBuilder, zenImports: seq<PackageObject>, resolution: Resolution, n: nat)
    returns (ok: bool)
    requires n < |zenImports| && Consistent(builder, resolution)
    requires OrderBuilt(builder.originalImportOrder, builder.zenImportLookup, zenImports, n)
    modifies builder`imports, builder`meanings, builder`resolvedImportLookup, builder`zenImportLookup
    modifies builder`originalImportOrder, builder.nameMap
    ensures Consistent(builder, resolution)
    ensures ok <==> !zenImports[n].Export?
    ensures ok ==> OrderBuilt(builder.originalImportOrder, builder.zenImportLookup, zenImports, n + 1)
  {
    if zenImports[n].Null? {
      OrderBuiltHole(builder.originalImportOrder, builder.zenImportLookup, zenImports, n);
      return true;
    }
    ghost var lookup := builder.zenImportLookup;
    var index := ResolveOrReplace(builder, zenImports[n], resolution);
    EnteredKind(lookup, builder.zenImportLookup, builder.meanings, resolution, zenImports[n], index);
    if !index.IsImport() {
      return false;
    }
    OrderBuiltStep(builder.originalImportOrder, lookup, builder.zenImportLookup, zenImports, n, index);
    builder.originalImportOrder := builder.originalImportOrder[n := index.ToImportIndex()];
    ok := true;
  }

  /** Resolves the import map of the zen package, in its order and skipping holes. It
      fails exactly when the map lists an export. */
  method BuildImportMap(builder: LegacyAssetBuilder, zenImports: seq<PackageObject>, resolution: Resolution)
    returns (ok: bool)
    requires Consistent(builder, resolution)
    requires OrderBuilt(builder.originalImportOrder, builder.zenImportLookup, zenImports, 0)
    modifies builder`imports, builder`meanings, builder`resolvedImportLookup, builder`zenImportLookup
    modifies builder`originalImportOrder, builder.nameMap
    ensures Consistent(builder, resolution)
    ensures ok <==> forall i :: 0 <= i < |zenImports| ==> !zenImports[i].Export?
    ensures ok ==> OrderBuilt(builder.originalImportOrder, builder.zenImportLookup, zenImports, |zenImports|)
  {
    for i := 0 to |zenImports|
      invariant forall j :: 0 <= j < i ==> !zenImports[j].Export?
      invariant Consistent(builder, resolution)
      invariant OrderBuilt(builder.originalImportOrder, builder.zenImportLookup, zenImports, i)
    {
      var built := BuildImport(builder, zenImports, resolution, i);
      if !built {
        return false;
      }
    }
    ok := true;
  }

  /** Two objects have one entry exactly when they are the same object or resolve to
      the same import. */
  ghost predicate SameImport(p: PackageObject, q: PackageObject, resolution: Resolution) {
    p == q || (p in resolution && q in resolution && resolution[p] == resolution[q])
  }

  lemma {:induction false} SharedEntry(builder: LegacyAssetBuilder, resolution: Resolution, p: PackageObject,
                                       q: PackageObject)
    requires builder.Valid() && ZenLookupValid(builder, resolution)
    requires p in builder.zenImportLookup && q in builder.zenImportLookup
    ensures builder.zenImportLookup[p] == builder.zenImportLookup[q] <==> SameImport(p, q, resolution)
  {
    var t := TablesOf(builder);
    assert Mapped(t, resolution, p, t.lookup[p]) && Mapped(t, resolution, q, t.lookup[q]);
  }

  /** No two positions of the zen import map name the same import. */
  ghost predicate ImportsDiffer(zenImports: seq<PackageObject>, resolution: Resolution) {
    forall i, j :: 0 <= i < j < |zenImports| && zenImports[i].IsImport() && zenImports[j].IsImport() ==>
      !SameImport(zenImports[i], zenImports[j], resolution)
  }

  ghost predicate Injective(order: map<nat, nat>) {
    forall i, j :: i in order && j in order && order[i] == order[j] ==> i == j
  }

  /** The recorded order is injective exactly when the zen import map names no import
      twice. */
  lemma {:induction false} OrderInjectiveIff(builder: LegacyAssetBuilder, zenImports: seq<PackageObject>,
                                             resolution: Resolution)
    requires builder.Valid() && ZenLookupValid(builder, resolution)
    requires forall i :: 0 <= i < |zenImports| ==> !zenImports[i].Export?
    requires OrderIs(builder.originalImportOrder, builder.zenImportLookup, zenImports, |zenImports|)
    ensures Injective(builder.originalImportOrder) <==> ImportsDiffer(zenImports, resolution)
  {
    var order := builder.originalImportOrder;
    forall i: nat, j: nat | i in order && j in order
      ensures order[i] == order[j] <==> SameImport(zenImports[i], zenImports[j], resolution)
    {
      SharedEntry(builder, resolution, zenImports[i], zenImports[j]);
    }
  }

  // ----------------------------------------------------------- the export map

  ghost predicate ExportMeans(names: seq<string>, meanings: seq<ResolvedImport>, e: NamedExport, z: ZenExport,
                              resolution: Resolution)
  {
    && Points(meanings, e.classIndex, Meaning(z.classIndex, resolution))
    && Points(meanings, e.superIndex, Meaning(z.superIndex, resolution))
    && Points(meanings, e.templateIndex, Meaning(z.templateIndex, resolution))
    && Points(meanings, e.outerIndex, Meaning(z.outerIndex, resolution))
    && Spells(names, e.objectName, z.objectName)
  }

  ghost predicate ExportsMean(names: seq<string>, meanings: seq<ResolvedImport>, exports: seq<NamedExport>,
                              zenExports: seq<ZenExport>, resolution: Resolution)
  {
    && |exports| == |zenExports|
    && forall e {:trigger ExportMeans(names, meanings, exports[e], zenExports[e], resolution)} :: 0 <= e < |exports| ==>
         ExportMeans(names, meanings, exports[e], zenExports[e], resolution)
  }

  lemma {:induction false} ExportsMeanStep(names: seq<string>, moreNames: seq<string>, meanings: seq<ResolvedImport>,
                                           more: seq<ResolvedImport>, exports: seq<NamedExport>,
                                           zenExports: seq<ZenExport>, resolution: Resolution, e: NamedExport)
    requires names <= moreNames && meanings <= more && |exports| < |zenExports|
    requires ExportsMean(names, meanings, exports, zenExports[..|exports|], resolution)
    requires ExportMeans(moreNames, more, e, zenExports[|exports|], resolution)
    ensures ExportsMean(moreNames, more, exports + [e], zenExports[..|exports| + 1], resolution)
  {
    forall i | 0 <= i <= |exports|
      ensures ExportMeans(moreNames, more, (exports + [e])[i], zenExports[..|exports| + 1][i], resolution)
    {
      if i < |exports| {
        assert ExportMeans(names, meanings, exports[i], zenExports[..|exports|][i], resolution);
      }
    }
  }

  ghost predicate Resolvable(p: PackageObject, resolution: Resolution, known: set<PackageObject>) {
    p.IsImport() ==> p in resolution || p in known
  }

  ghost predicate ReferencesResolvable(references: seq<PackageObject>, n: nat, resolution: Resolution,
                                       known: set<PackageObject>)
    requires n <= |references|
  {
    forall i :: 0 <= i < n ==> Resolvable(references[i], resolution, known)
  }

  ghost predicate ExportResolvable(z: ZenExport, resolution: Resolution, known: set<PackageObject>) {
    && Resolvable(z.classIndex, resolution, known) && Resolvable(z.superIndex, resolution, known)
    && Resolvable(z.templateIndex, resolution, known) && Resolvable(z.outerIndex, resolution, known)
  }

  lemma {:induction false} SameResolvable(z: ZenExport, resolution: Resolution, known: set<PackageObject>,
                                          more: set<PackageObject>)
    requires known <= more && forall p :: p in more && p !in resolution ==> p in known
    ensures ExportResolvable(z, resolution, known) <==> ExportResolvable(z, resolution, more)
  {
  }

  ghost predicate AllPoint(meanings: seq<ResolvedImport>, indices: seq<PackageIndex>, references: seq<PackageObject>,
                           resolution: Resolution)
    requires |indices| <= |references|
  {
    forall i :: 0 <= i < |indices| ==> Points(meanings, indices[i], Meaning(references[i], resolution))
  }

  lemma {:induction false} AllPointStep(meanings: seq<ResolvedImport>, more: seq<ResolvedImport>,
                                        indices: seq<PackageIndex>, references: seq<PackageObject>,
                                        resolution: Resolution, index: PackageIndex)
    requires meanings <= more && |indices| < |references|
    requires AllPoint(meanings, indices, references, resolution)
    requires Points(more, index, Meaning(references[|indices|], resolution))
    ensures AllPoint(more, indices + [index], references, resolution)
  {
    forall i | 0 <= i <= |indices|
      ensures Points(more, (indices + [index])[i], Meaning(references[i], resolution))
    {
      if i < |indices| {
        assert Points(meanings, indices[i], Meaning(references[i], resolution));
      }
    }
  }

  /** Import references are the entries that the lookup knows for them. */
  ghost predicate LooksUp(lookup: map<PackageObject, PackageIndex>, index: PackageIndex, reference: PackageObject) {
    reference.IsImport() ==> reference in lookup && lookup[reference] == index
  }

  ghost predicate AllLookUp(lookup: map<PackageObject, PackageIndex>, indices: seq<PackageIndex>,
                            references: seq<PackageObject>)
    requires |indices| <= |references|
  {
    forall i {:trigger indices[i]} :: 0 <= i < |indices| ==> LooksUp(lookup, indices[i], references[i])
  }

  lemma {:induction false} AllLookUpStep(lookup: map<PackageObject, PackageIndex>,
                                         more: map<PackageObject, PackageIndex>, indices: seq<PackageIndex>,
                                         references: seq<PackageObject>, index: PackageIndex)
    requires Extends(lookup, more) && |indices| < |references| && AllLookUp(lookup, indices, references)
    requires LooksUp(more, index, references[|indices|])
    ensures AllLookUp(more, indices + [index], references)
  {
    forall i | 0 <= i <= |indices|
      ensures LooksUp(more, (indices + [index])[i], references[i])
    {
      if i < |indices| {
        assert LooksUp(lookup, indices[i], references[i]);
      }
    }
  }

  /** The imports among references. */
  ghost function ImportsOf(references: seq<PackageObject>): set<PackageObject> {
    set p | p in references && p.IsImport()
  }

  /** What a call that resolves references may change: entries and names are only added,
      and unresolvable imports are known only if they were before. */
  ghost predicate Grown(names: seq<string>, moreNames: seq<string>, meanings: seq<ResolvedImport>,
                        more: seq<ResolvedImport>, lookup: map<PackageObject, PackageIndex>,
                        moreLookup: map<PackageObject, PackageIndex>, resolution: Resolution)
  {
    && names <= moreNames && meanings <= more && Extends(lookup, moreLookup)
    && forall p :: p in moreLookup && p !in resolution ==> p in lookup
  }

  /** The state before references are resolved. */
  datatype Start = Start(names: seq<string>, meanings: seq<ResolvedImport>, lookup: map<PackageObject, PackageIndex>)

  ghost function StartOf(builder: LegacyAssetBuilder): Start
    reads builder, builder.nameMap
  {
    Start(builder.nameMap.names, builder.meanings, builder.zenImportLookup)
  }

  ghost predicate GrownFrom(start: Start, now: Start, resolution: Resolution) {
    Grown(start.names, now.names, start.meanings, now.meanings, start.lookup, now.lookup, resolution)
  }

  ghost predicate Consistent(builder: LegacyAssetBuilder, resolution: Resolution)
    reads builder, builder.nameMap
  {
    builder.Valid() && ZenLookupValid(builder, resolution)
  }

  /** The references in front of the list are resolved to `r`. */
  ghost predicate InOrder(start: Start, now: Start, references: seq<PackageObject>, resolution: Resolution,
                          r: seq<PackageIndex>)
  {
    && GrownFrom(start, now, resolution) && |r| <= |references|
    && AllPoint(now.meanings, r, references, resolution)
    && AllLookUp(now.lookup, r, references)
    && now.lookup.Keys == start.lookup.Keys + ImportsOf(references[..|r|])
    && ReferencesResolvable(references, |r|, resolution, start.lookup.Keys)
  }

  lemma {:induction false} InOrderNone(start: Start, references: seq<PackageObject>, resolution: Resolution)
    ensures InOrder(start, start, references, resolution, [])
  {
  }

  lemma {:induction false} InOrderStep(start: Start, now: Start, next: Start, references: seq<PackageObject>,
                                       resolution: Resolution, r: seq<PackageIndex>, index: PackageIndex)
    requires InOrder(start, now, references, resolution, r) && |r| < |references|
    requires GrownFrom(now, next, resolution) && Resolvable(references[|r|], resolution, start.lookup.Keys)
    requires Points(next.meanings, index, Meaning(references[|r|], resolution))
    requires LooksUp(next.lookup, index, references[|r|])
    requires next.lookup.Keys == now.lookup.Keys + if references[|r|].IsImport() then {references[|r|]} else {}
    ensures InOrder(start, next, references, resolution, r + [index])
  {
    AllPointStep(now.meanings, next.meanings, r, references, resolution, index);
    AllLookUpStep(now.lookup, next.lookup, r, references, index);
    ImportsOfStep(references, |r|);
    assert |r + [index]| == |r| + 1;
  }

  /** Resolves the reference behind those in `r`. */
  method ResolveNext(builder: LegacyAssetBuilder, references: seq<PackageObject>, resolution: Resolution,
                     r: seq<PackageIndex>, ghost start: Start)
    returns (index: Option<PackageIndex>)
    requires Consistent(builder, resolution) && |r| < |references|
    requires InOrder(start, StartOf(builder), references, resolution, r)
    modifies builder`imports, builder`meanings, builder`resolvedImportLookup, builder`zenImportLookup, builder.nameMap
    ensures Consistent(builder, resolution) && GrownFrom(start, StartOf(builder), resolution)
    ensures index.Some? <==> Resolvable(references[|r|], resolution, start.lookup.Keys)
    ensures index.Some? ==> InOrder(start, StartOf(builder), references, resolution, r + [index.value])
  {
    ghost var now := StartOf(builder);
    index := ResolveLocalPackageObject(builder, references[|r|], resolution);
    if index.Some? {
      InOrderStep(start, now, StartOf(builder), references, resolution, r, index.value);
    }
  }

  lemma {:induction false} ImportsOfStep(references: seq<PackageObject>, n: nat)
    requires n < |references|
    ensures ImportsOf(references[..n + 1]) ==
            ImportsOf(references[..n]) + if references[n].IsImport() then {references[n]} else {}
  {
    assert references[..n + 1] == references[..n] + [references[n]];
  }

  /** Resolves references one after another, up to the first failure. */
  method ResolveInOrder(builder: LegacyAssetBuilder, references: seq<PackageObject>, resolution: Resolution,
                        ghost start: Start)
    returns (indices: Option<seq<PackageIndex>>)
    requires Consistent(builder, resolution) && InOrder(start, StartOf(builder), references, resolution, [])
    modifies builder`imports, builder`meanings, builder`resolvedImportLookup, builder`zenImportLookup, builder.nameMap
    ensures Consistent(builder, resolution) && GrownFrom(start, StartOf(builder), resolution)
    ensures indices.Some? <==> ReferencesResolvable(references, |references|, resolution, start.lookup.Keys)
    ensures indices.Some? ==>
              |indices.value| == |references| && InOrder(start, StartOf(builder), references, resolution, indices.value)
  {
    var r := [];
    while |r| < |references|
      invariant Consistent(builder, resolution)
      invariant InOrder(start, StartOf(builder), references, resolution, r)
    {
      var index := ResolveNext(builder, references, resolution, r, start);
      if index.None? {
        assert !Resolvable(references[|r|], resolution, start.lookup.Keys);
        return None;
      }
      r := r + [index.value];
    }
    indices := Some(r);
  }

  ghost predicate AllResolvable(exports: seq<ZenExport>, resolution: Resolution, known: set<PackageObject>) {
    forall z :: z in exports ==> ExportResolvable(z, resolution, known)
  }

  /** The references of an export, in the order in which they are resolved. */
  function ReferencesIn(z: ZenExport): (r: seq<PackageObject>)
    ensures |r| == 4
  {
    [z.classIndex, z.superIndex, z.templateIndex, z.outerIndex]
  }

  function IndicesIn(e: NamedExport): (r: seq<PackageIndex>)
    ensures |r| == 4
  {
    [e.classIndex, e.superIndex, e.templateIndex, e.outerIndex]
  }

  lemma {:induction false} ExportResolvableIs(z: ZenExport, resolution: Resolution, known: set<PackageObject>)
    ensures ReferencesResolvable(ReferencesIn(z), 4, resolution, known) <==> ExportResolvable(z, resolution, known)
  {
    var r := ReferencesIn(z);
    assert r[0] == z.classIndex && r[1] == z.superIndex && r[2] == z.templateIndex && r[3] == z.outerIndex;
  }

  lemma {:induction false} ResolvedExportMeans(names: seq<string>, meanings: seq<ResolvedImport>, e: NamedExport,
                                               z: ZenExport, resolution: Resolution)
    requires AllPoint(meanings, IndicesIn(e), ReferencesIn(z), resolution) && Spells(names, e.objectName, z.objectName)
    ensures ExportMeans(names, meanings, e, z, resolution)
  {
    var i, r := IndicesIn(e), ReferencesIn(z);
    assert Points(meanings, i[0], Meaning(r[0], resolution)) && Points(meanings, i[1], Meaning(r[1], resolution));
    assert Points(meanings, i[2], Meaning(r[2], resolution)) && Points(meanings, i[3], Meaning(r[3], resolution));
  }

  lemma {:induction false} ResolvedExportAdded(start: Start, now: Start, next: Start, e: NamedExport, z: ZenExport,
                                               resolution: Resolution, indices: seq<PackageIndex>)
    requires |indices| == 4 && InOrder(start, now, ReferencesIn(z), resolution, indices) && IndicesIn(e) == indices
    requires next == now.(names := next.names) && now.names <= next.names
    requires Spells(next.names, e.objectName, z.objectName)
    ensures GrownFrom(start, next, resolution) && ExportAdded(start, next, e, z, resolution)
  {
    assert ReferencesIn(z)[..4] == ReferencesIn(z);
    ResolvedExportMeans(next.names, next.meanings, e, z, resolution);
  }

  /** The export means what the zen export says, and its imports became known. */
  ghost predicate ExportAdded(before: Start, after: Start, e: NamedExport, z: ZenExport, resolution: Resolution) {
    && ExportMeans(after.names, after.meanings, e, z, resolution)
    && AllLookUp(after.lookup, IndicesIn(e), ReferencesIn(z))
    && after.lookup.Keys == before.lookup.Keys + ImportsOf(ReferencesIn(z))
  }

  /** Resolves one export; its references may name imports the import map left out. */
  method BuildExport(builder: LegacyAssetBuilder, z: ZenExport, resolution: Resolution) returns (e: Option<NamedExport>)
    requires Consistent(builder, resolution)
    modifies builder`imports, builder`meanings, builder`resolvedImportLookup, builder`zenImportLookup, builder.nameMap
    ensures Consistent(builder, resolution) && GrownFrom(old(StartOf(builder)), StartOf(builder), resolution)
    ensures e.Some? <==> ExportResolvable(z, resolution, old(builder.zenImportLookup).Keys)
    ensures e.Some? ==> ExportAdded(old(StartOf(builder)), StartOf(builder), e.value, z, resolution)
  {
    ghost var start := StartOf(builder);
    var references := ReferencesIn(z);
    InOrderNone(start, references, resolution);
    ExportResolvableIs(z, resolution, start.lookup.Keys);
    var indices := ResolveInOrder(builder, references, resolution, start);
    if indices.None? {
      return None;
    }
    ghost var now := StartOf(builder);
    var objectName := StoreName(builder, z.objectName);
    var i := indices.value;
    e := Some(NamedExport(i[0], i[1], i[2], i[3], objectName));
    ResolvedExportAdded(start, now, StartOf(builder), e.value, z, resolution, i);
  }

  method StoreName(builder: LegacyAssetBuilder, name: string) returns (r: MinimalName)
    requires builder.Valid()
    modifies builder.nameMap
    ensures builder.Valid() && old(builder.nameMap.names) <= builder.nameMap.names
    ensures Spells(builder.nameMap.names, r, name)
  {
    r := builder.nameMap.Store(name);
    TableExtends(old(builder.nameMap.names), builder.nameMap.names, builder.imports, builder.meanings);
  }

  /** The references of the exports are the entries the lookup knows for them. */
  ghost predicate ExportsLookUp(lookup: map<PackageObject, PackageIndex>, exports: seq<NamedExport>,
                                zenExports: seq<ZenExport>)
  {
    && |exports| == |zenExports|
    && forall e {:trigger exports[e]} :: 0 <= e < |exports| ==>
         AllLookUp(lookup, IndicesIn(exports[e]), ReferencesIn(zenExports[e]))
  }

  /** All imports that the exports refer to. */
  ghost function ImportsOfExports(zenExports: seq<ZenExport>): set<PackageObject> {
    if zenExports == [] then {}
    else ImportsOfExports(zenExports[..|zenExports| - 1]) + ImportsOf(ReferencesIn(zenExports[|zenExports| - 1]))
  }

  lemma {:induction false} ExportsLookUpStep(lookup: map<PackageObject, PackageIndex>,
                                             more: map<PackageObject, PackageIndex>, exports: seq<NamedExport>,
                                             zenExports: seq<ZenExport>, e: NamedExport, z: ZenExport)
    requires Extends(lookup, more) && ExportsLookUp(lookup, exports, zenExports)
    requires AllLookUp(more, IndicesIn(e), ReferencesIn(z))
    ensures ExportsLookUp(more, exports + [e], zenExports + [z])
  {
    forall k | 0 <= k <= |exports|
      ensures AllLookUp(more, IndicesIn((exports + [e])[k]), ReferencesIn((zenExports + [z])[k]))
    {
      if k < |exports| {
        assert AllLookUp(lookup, IndicesIn(exports[k]), ReferencesIn(zenExports[k]));
        AllLookUpExtends(lookup, more, IndicesIn(exports[k]), ReferencesIn(zenExports[k]));
      }
    }
  }

  lemma {:induction false} AllLookUpExtends(lookup: map<PackageObject, PackageIndex>,
                                            more: map<PackageObject, PackageIndex>, indices: seq<PackageIndex>,
                                            references: seq<PackageObject>)
    requires Extends(lookup, more) && |indices| <= |references| && AllLookUp(lookup, indices, references)
    ensures AllLookUp(more, indices, references)
  {
    forall i | 0 <= i < |indices|
      ensures LooksUp(more, indices[i], references[i])
    {
      assert LooksUp(lookup, indices[i], references[i]);
    }
  }

  /** The exports in front of the export map have been resolved. */
  ghost predicate ExportsBuilt(start: Start, now: Start, exports: seq<NamedExport>, zenExports: seq<ZenExport>,
                               resolution: Resolution)
  {
    && GrownFrom(start, now, resolution)
    && AllResolvable(zenExports, resolution, start.lookup.Keys)
    && ExportsMean(now.names, now.meanings, exports, zenExports, resolution)
    && ExportsLookUp(now.lookup, exports, zenExports)
    && now.lookup.Keys == start.lookup.Keys + ImportsOfExports(zenExports)
  }

  lemma {:induction false} ExportsBuiltStep(start: Start, now: Start, next: Start, exports: seq<NamedExport>,
                                            zenExports: seq<ZenExport>, resolution: Resolution, e: NamedExport,
                                            z: ZenExport)
    requires ExportsBuilt(start, now, exports, zenExports, resolution) && GrownFrom(now, next, resolution)
    requires ExportResolvable(z, resolution, start.lookup.Keys) && ExportAdded(now, next, e, z, resolution)
    ensures ExportsBuilt(start, next, exports + [e], zenExports + [z], resolution)
  {
    var all := zenExports + [z];
    assert all[..|zenExports|] == zenExports && all[..|zenExports| + 1] == all;
    ExportsMeanStep(now.names, next.names, now.meanings, next.meanings, exports, all, resolution, e);
    ExportsLookUpStep(now.lookup, next.lookup, exports, zenExports, e, z);
    assert ImportsOfExports(all) == ImportsOfExports(zenExports) + ImportsOf(ReferencesIn(z));
  }

  method AppendExport(builder: LegacyAssetBuilder, zenExports: seq<ZenExport>, resolution: Resolution, n: nat,
                      ghost start: Start)
    returns (ok: bool)
    requires n < |zenExports| && Consistent(builder, resolution)
    requires ExportsBuilt(start, StartOf(builder), builder.exports, zenExports[..n], resolution)
    modifies builder`imports, builder`meanings, builder`resolvedImportLookup, builder`zenImportLookup
    modifies builder`exports, builder.nameMap
    ensures ok <==> ExportResolvable(zenExports[n], resolution, start.lookup.Keys)
    ensures ok ==> Consistent(builder, resolution)
    ensures ok ==> ExportsBuilt(start, StartOf(builder), builder.exports, zenExports[..n + 1], resolution)
  {
    ghost var now := StartOf(builder);
    var z := zenExports[n];
    assert zenExports[..n + 1] == zenExports[..n] + [z];
    SameResolvable(z, resolution, start.lookup.Keys, now.lookup.Keys);
    var built := BuildExport(builder, z, resolution);
    if built.None? {
      return false;
    }
    ExportsBuiltStep(start, now, StartOf(builder), builder.exports, zenExports[..n], resolution, built.value, z);
    builder.exports := builder.exports + [built.value];
    ok := true;
  }

  /** Resolves the export map; an unresolvable reference that the import map does not
      list either makes the package fail. */
  method BuildExportMap(builder: LegacyAssetBuilder, zenExports: seq<ZenExport>, resolution: Resolution,
                        ghost start: Start)
    returns (ok: bool)
    requires Consistent(builder, resolution)
    requires ExportsBuilt(start, StartOf(builder), builder.exports, [], resolution)
    modifies builder`imports, builder`meanings, builder`resolvedImportLookup, builder`zenImportLookup
    modifies builder`exports, builder.nameMap
    ensures ok <==> AllResolvable(zenExports, resolution, start.lookup.Keys)
    ensures ok ==> Consistent(builder, resolution)
    ensures ok ==> ExportsBuilt(start, StartOf(builder), builder.exports, zenExports, resolution)
  {
    for e := 0 to |zenExports|
      invariant Consistent(builder, resolution)
      invariant ExportsBuilt(start, StartOf(builder), builder.exports, zenExports[..e], resolution)
    {
      assert zenExports[e] in zenExports;
      var added := AppendExport(builder, zenExports, resolution, e, start);
      if !added {
        return false;
      }
    }
    assert zenExports[..|zenExports|] == zenExports;
    ok := true;
  }
}
