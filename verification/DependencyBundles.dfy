/** Dependency bundles, the newer form of preload dependencies: per export a header
    with four counts into one flat entry list. */
module DependencyBundles {
  import opened Zen
  import opened PreloadGraph

  datatype DependencyHeader = DependencyHeader(
    first: nat, createBeforeCreate: nat, serializeBeforeCreate: nat, createBeforeSerialize: nat,
    serializeBeforeSerialize: nat)

  // ----------------------------------------------------------- what is stored

  /** Dependencies that are stored for export `e`: on other exports, and on imports of
      package exports. */
  predicate Stored(e: nat, packageImports: seq<bool>, p: PackageIndex) {
    && p != CreateExport(e)
    && (p.IsExport() || (p.IsImport() && p.ToImportIndex() < |packageImports| && packageImports[p.ToImportIndex()]))
  }

  function Keep(e: nat, packageImports: seq<bool>, list: seq<PackageIndex>): seq<PackageIndex> {
    if list == [] then []
    else
      var n := |list| - 1;
      var front := Keep(e, packageImports, list[..n]);
      if Stored(e, packageImports, list[n]) then front + [list[n]] else front
  }

  lemma {:induction false} KeepPush(e: nat, packageImports: seq<bool>, list: seq<PackageIndex>, x: PackageIndex)
    ensures Keep(e, packageImports, list + [x])
         == if Stored(e, packageImports, x) then Keep(e, packageImports, list) + [x] else Keep(e, packageImports, list)
  {
    assert (list + [x])[..|list|] == list;
  }

  lemma {:induction false} KeepPlus(e: nat, packageImports: seq<bool>, a: seq<PackageIndex>, b: seq<PackageIndex>)
    ensures Keep(e, packageImports, a + b) == Keep(e, packageImports, a) + Keep(e, packageImports, b)
  {
    if b == [] {
      assert a + b == a;
    } else {
      var n := |b| - 1;
      KeepPlus(e, packageImports, a, b[..n]);
      KeepPush(e, packageImports, a + b[..n], b[n]);
      assert a + b == a + b[..n] + [b[n]];
    }
  }

  /** Exactly the other exports and the imports of package exports are kept. */
  lemma {:induction false} KeepMembers(e: nat, packageImports: seq<bool>, list: seq<PackageIndex>, p: PackageIndex)
    ensures p in Keep(e, packageImports, list) <==>
              && p in list && p.index != e + 1
              && (p.index > 0 || (p.index < 0 && -1 - p.index < |packageImports| && packageImports[-1 - p.index]))
  {
    if list != [] {
      var n := |list| - 1;
      KeepMembers(e, packageImports, list[..n], p);
      assert p in list <==> p in list[..n] || p == list[n];
    }
  }

  /** What is kept stays in its order: a list that needs nothing dropped is kept as it is,
      and parts are kept one after the other. */
  lemma {:induction false} KeepsOrder(e: nat, packageImports: seq<bool>, a: seq<PackageIndex>, b: seq<PackageIndex>)
    ensures Keep(e, packageImports, a + b) == Keep(e, packageImports, a) + Keep(e, packageImports, b)
    ensures |Keep(e, packageImports, a)| == |a| ==> Keep(e, packageImports, a) == a
  {
    KeepPlus(e, packageImports, a, b);
    KeptWhole(e, packageImports, a);
  }

  lemma {:induction false} KeptWhole(e: nat, packageImports: seq<bool>, list: seq<PackageIndex>)
    ensures |Keep(e, packageImports, list)| <= |list|
    ensures |Keep(e, packageImports, list)| == |list| ==> Keep(e, packageImports, list) == list
  {
    if list != [] {
      KeptWhole(e, packageImports, list[..|list| - 1]);
      assert list == list[..|list| - 1] + [list[|list| - 1]];
    }
  }

  /** Keeping twice keeps the same. */
  lemma {:induction false} KeepIdempotent(e: nat, packageImports: seq<bool>, list: seq<PackageIndex>)
    ensures Keep(e, packageImports, Keep(e, packageImports, list)) == Keep(e, packageImports, list)
  {
    if list != [] {
      var n := |list| - 1;
      KeepIdempotent(e, packageImports, list[..n]);
      KeepPush(e, packageImports, Keep(e, packageImports, list[..n]), list[n]);
    }
  }

  function KeepAll(e: nat, packageImports: seq<bool>, d: ExportDependencies): ExportDependencies {
    ExportDependencies(
      Keep(e, packageImports, d.serializeBeforeSerialize), Keep(e, packageImports, d.createBeforeSerialize),
      Keep(e, packageImports, d.serializeBeforeCreate), Keep(e, packageImports, d.createBeforeCreate))
  }

  // ------------------------------------------------------------------ building

  /** The package indices of the nodes with one command. */
  function WithCommand(nodes: seq<DependencyNode>, command: CommandType): seq<PackageIndex> {
    if nodes == [] then []
    else
      var n := |nodes| - 1;
      var front := WithCommand(nodes[..n], command);
      if nodes[n].command == command then front + [nodes[n].packageIndex] else front
  }

  /** Collects the stored dependencies of export `e` that wait for one command. */
  method CollectDependencies(e: nat, nodes: seq<DependencyNode>, command: CommandType, packageImports: seq<bool>)
    returns (r: seq<PackageIndex>)
    ensures r == Keep(e, packageImports, WithCommand(nodes, command))
  {
    r := [];
    for i := 0 to |nodes|
      invariant r == Keep(e, packageImports, WithCommand(nodes[..i], command))
    {
      var node := nodes[i];
      assert nodes[..i + 1][..i] == nodes[..i];
      if node.command == command {
        KeepPush(e, packageImports, WithCommand(nodes[..i], command), node.packageIndex);
        if Stored(e, packageImports, node.packageIndex) {
          r := r + [node.packageIndex];
        }
      }
    }
    assert nodes[..|nodes|] == nodes;
  }

  lemma {:induction false} WithCommandPlus(a: seq<DependencyNode>, b: seq<DependencyNode>, command: CommandType)
    ensures WithCommand(a + b, command) == WithCommand(a, command) + WithCommand(b, command)
  {
    if b == [] {
      assert a + b == a;
    } else {
      var n := |b| - 1;
      WithCommandPlus(a, b[..n], command);
      assert (a + b)[..|a + b| - 1] == a + b[..n];
    }
  }

  lemma {:induction false} WithCommandTagged(list: seq<PackageIndex>, tag: CommandType, command: CommandType)
    ensures WithCommand(Tagged(list, tag), command) == if tag == command then list else []
  {
    if list != [] {
      var n := |list| - 1;
      WithCommandTagged(list[..n], tag, command);
      assert Tagged(list, tag)[..n] == Tagged(list[..n], tag);
      assert list == list[..n] + [list[n]];
    }
  }

  /** The four lists that are collected for an export are its dependencies by kind; the
      implied wait of Serialize for Create of the same export is not stored. */
  lemma {:induction false} CollectedByKind(e: nat, packageImports: seq<bool>, d: ExportDependencies)
    ensures var create, serialize := DependenciesOf(e, Create, d), DependenciesOf(e, Serialize, d);
            && Keep(e, packageImports, WithCommand(create, Create)) == Keep(e, packageImports, d.createBeforeCreate)
            && Keep(e, packageImports, WithCommand(create, Serialize)) ==
                Keep(e, packageImports, d.serializeBeforeCreate)
            && Keep(e, packageImports, WithCommand(serialize, Create)) ==
                Keep(e, packageImports, d.createBeforeSerialize)
            && Keep(e, packageImports, WithCommand(serialize, Serialize)) ==
                Keep(e, packageImports, d.serializeBeforeSerialize)
  {
    TaggedKind(d.createBeforeCreate, d.serializeBeforeCreate, Create);
    TaggedKind(d.createBeforeCreate, d.serializeBeforeCreate, Serialize);
    KindOfSerialize(e, packageImports, d, Create);
    KindOfSerialize(e, packageImports, d, Serialize);
    assert DependenciesOf(e, Create, d) ==
        Tagged(d.createBeforeCreate, Create) + Tagged(d.serializeBeforeCreate, Serialize);
  }

  lemma {:induction false} TaggedKind(x: seq<PackageIndex>, y: seq<PackageIndex>, command: CommandType)
    ensures WithCommand(Tagged(x, Create) + Tagged(y, Serialize), command) == if command == Create then x else y
  {
    WithCommandPlus(Tagged(x, Create), Tagged(y, Serialize), command);
    WithCommandTagged(x, Create, command);
    WithCommandTagged(y, Serialize, command);
  }

  lemma {:induction false} OwnCreateDropped(e: nat, packageImports: seq<bool>, command: CommandType)
    ensures Keep(e, packageImports, WithCommand([ExportNode(e, Create)], command)) == []
  {
    WithCommandTagged([CreateExport(e)], Create, command);
    assert Tagged([CreateExport(e)], Create) == [ExportNode(e, Create)];
    KeepPush(e, packageImports, [], CreateExport(e));
    assert [] + [CreateExport(e)] == [CreateExport(e)];
  }

  lemma {:induction false} KindOfSerialize(e: nat, packageImports: seq<bool>, d: ExportDependencies,
                                           command: CommandType)
    ensures Keep(e, packageImports, WithCommand(DependenciesOf(e, Serialize, d), command))
         == Keep(e, packageImports, if command == Create then d.createBeforeSerialize else d.serializeBeforeSerialize)
  {
    var own := [ExportNode(e, Create)];
    var rest := Tagged(d.createBeforeSerialize, Create) + Tagged(d.serializeBeforeSerialize, Serialize);
    assert DependenciesOf(e, Serialize, d) == own + rest;
    WithCommandPlus(own, rest, command);
    TaggedKind(d.createBeforeSerialize, d.serializeBeforeSerialize, command);
    KeepPlus(e, packageImports, WithCommand(own, command), WithCommand(rest, command));
    OwnCreateDropped(e, packageImports, command);
  }

  // ------------------------------------------------------------------ the layout

  function HeaderOf(first: nat, d: ExportDependencies): DependencyHeader {
    DependencyHeader(first, |d.createBeforeCreate|, |d.serializeBeforeCreate|, |d.createBeforeSerialize|,
                     |d.serializeBeforeSerialize|)
  }

  function EntriesOf(d: ExportDependencies): seq<PackageIndex> {
    d.createBeforeCreate + d.serializeBeforeCreate + d.createBeforeSerialize + d.serializeBeforeSerialize
  }

  /** The entries of the first `n` exports. */
  ghost function EntriesBelow(kept: seq<ExportDependencies>, n: nat): seq<PackageIndex>
    requires n <= |kept|
  {
    if n == 0 then [] else EntriesBelow(kept, n - 1) + EntriesOf(kept[n - 1])
  }

  ghost predicate LaidOut(kept: seq<ExportDependencies>, headers: seq<DependencyHeader>, entries: seq<PackageIndex>) {
    && |headers| == |kept| && entries == EntriesBelow(kept, |kept|)
    && HeadersOk(kept, headers, |kept|)
  }

  ghost predicate HeaderOk(kept: seq<ExportDependencies>, header: DependencyHeader, e: nat)
    requires e < |kept|
  {
    header == HeaderOf(|EntriesBelow(kept, e)|, kept[e])
  }

  ghost predicate HeadersOk(kept: seq<ExportDependencies>, headers: seq<DependencyHeader>, n: nat)
    requires n <= |kept| && n <= |headers|
  {
    forall e: nat {:trigger HeaderOk(kept, headers[e], e)} :: e < n ==> HeaderOk(kept, headers[e], e)
  }

  ghost function KeptLists(lists: seq<ExportDependencies>, packageImports: seq<bool>): (r: seq<ExportDependencies>)
    ensures |r| == |lists| && forall e :: 0 <= e < |r| ==> r[e] == KeepAll(e, packageImports, lists[e])
  {
    seq(|lists|, e requires 0 <= e < |lists| => KeepAll(e, packageImports, lists[e]))
  }

  lemma {:induction false} HeadersStep(kept: seq<ExportDependencies>, headers: seq<DependencyHeader>,
                                       header: DependencyHeader)
    requires |headers| < |kept| && HeadersOk(kept, headers, |headers|) && HeaderOk(kept, header, |headers|)
    ensures HeadersOk(kept, headers + [header], |headers| + 1)
  {
    forall e: nat | e <= |headers|
      ensures HeaderOk(kept, (headers + [header])[e], e)
    {
      assert e < |headers| ==> HeaderOk(kept, headers[e], e);
    }
  }

  /** The four runs that a header counts stand one behind the other from its first entry on. */
  ghost predicate RunsAt(entries: seq<PackageIndex>, h: DependencyHeader, createBeforeCreate: seq<PackageIndex>,
                         serializeBeforeCreate: seq<PackageIndex>, createBeforeSerialize: seq<PackageIndex>,
                         serializeBeforeSerialize: seq<PackageIndex>)
  {
    var a := h.first + h.createBeforeCreate;
    var b := a + h.serializeBeforeCreate;
    var c := b + h.createBeforeSerialize;
    var d := c + h.serializeBeforeSerialize;
    && d <= |entries|
    && entries[h.first..a] == createBeforeCreate && entries[a..b] == serializeBeforeCreate
    && entries[b..c] == createBeforeSerialize && entries[c..d] == serializeBeforeSerialize
  }

  /** The runs of an export start where those of the export before it end, and the last ones
      end the entries. */
  ghost predicate RunsFollow(headers: seq<DependencyHeader>, entries: seq<PackageIndex>) {
    && (forall e: nat {:trigger headers[e]} :: e < |headers| ==>
          headers[e].first == if e == 0 then 0 else RunsEnd(headers[e - 1]))
    && |entries| == if headers == [] then 0 else RunsEnd(headers[|headers| - 1])
  }

  ghost function RunsEnd(h: DependencyHeader): nat {
    h.first + h.createBeforeCreate + h.serializeBeforeCreate + h.createBeforeSerialize + h.serializeBeforeSerialize
  }

  lemma {:induction false} LaidOutRuns(kept: seq<ExportDependencies>, headers: seq<DependencyHeader>,
                                       entries: seq<PackageIndex>, e: nat)
    requires LaidOut(kept, headers, entries) && e < |kept|
    ensures RunsAt(entries, headers[e], kept[e].createBeforeCreate, kept[e].serializeBeforeCreate,
                   kept[e].createBeforeSerialize, kept[e].serializeBeforeSerialize)
  {
    assert HeaderOk(kept, headers[e], e);
    HeaderResolves(kept, entries, e);
  }

  lemma {:induction false} LaidOutFollows(kept: seq<ExportDependencies>, headers: seq<DependencyHeader>,
                                          entries: seq<PackageIndex>)
    requires LaidOut(kept, headers, entries)
    ensures RunsFollow(headers, entries)
  {
    forall e: nat | e < |headers|
      ensures headers[e].first == if e == 0 then 0 else RunsEnd(headers[e - 1])
      ensures RunsEnd(headers[e]) == |EntriesBelow(kept, e + 1)|
    {
      assert HeaderOk(kept, headers[e], e);
      assert e > 0 ==> HeaderOk(kept, headers[e - 1], e - 1);
    }
  }

  /** Builds the headers and entries of all exports. */
  method BuildDependencyBundles(m: DependencyMap, exportCount: nat, packageImports: seq<bool>,
                                ghost lists: seq<ExportDependencies>)
    returns (headers: seq<DependencyHeader>, entries: seq<PackageIndex>)
    requires |lists| == exportCount && DescribesExports(m, lists)
    ensures LaidOut(KeptLists(lists, packageImports), headers, entries)
    ensures |headers| == exportCount && RunsFollow(headers, entries)
    ensures forall e: nat {:trigger headers[e]} :: e < exportCount ==>
              RunsAt(entries, headers[e],
                     Keep(e, packageImports, lists[e].createBeforeCreate),
                     Keep(e, packageImports, lists[e].serializeBeforeCreate),
                     Keep(e, packageImports, lists[e].createBeforeSerialize),
                     Keep(e, packageImports, lists[e].serializeBeforeSerialize))
  {
    headers, entries := [], [];
    ghost var kept := KeptLists(lists, packageImports);
    for e := 0 to exportCount
      invariant |headers| == e && entries == EntriesBelow(kept, e) && HeadersOk(kept, headers, e)
    {
      var d := CollectExport(e, m, packageImports, lists[e]);
      HeadersStep(kept, headers, HeaderOf(|entries|, d));
      headers := headers + [HeaderOf(|entries|, d)];
      entries := entries + EntriesOf(d);
    }
    LaidOutFollows(kept, headers, entries);
    forall e: nat | e < exportCount
      ensures RunsAt(entries, headers[e], kept[e].createBeforeCreate, kept[e].serializeBeforeCreate,
                     kept[e].createBeforeSerialize, kept[e].serializeBeforeSerialize)
    {
      LaidOutRuns(kept, headers, entries, e);
    }
  }

  method CollectExport(e: nat, m: DependencyMap, packageImports: seq<bool>, ghost d: ExportDependencies)
    returns (kept: ExportDependencies)
    requires ExportNode(e, Create) in m && m[ExportNode(e, Create)] == DependenciesOf(e, Create, d)
    requires ExportNode(e, Serialize) in m && m[ExportNode(e, Serialize)] == DependenciesOf(e, Serialize, d)
    ensures kept == KeepAll(e, packageImports, d)
  {
    CollectedByKind(e, packageImports, d);
    var create, serialize := m[ExportNode(e, Create)], m[ExportNode(e, Serialize)];
    var cbc := CollectDependencies(e, create, Create, packageImports);
    var sbc := CollectDependencies(e, create, Serialize, packageImports);
    var cbs := CollectDependencies(e, serialize, Create, packageImports);
    var sbs := CollectDependencies(e, serialize, Serialize, packageImports);
    kept := ExportDependencies(sbs, cbs, sbc, cbc);
  }

  // ------------------------------------------------------------------ resolving

  predicate HeaderInRange(h: DependencyHeader, entries: seq<PackageIndex>) {
    h.first + h.createBeforeCreate + h.serializeBeforeCreate + h.createBeforeSerialize + h.serializeBeforeSerialize <=
        |entries|
  }

  /** Cuts the entries of one export into its four kinds. */
  function ResolveHeader(h: DependencyHeader, entries: seq<PackageIndex>): ExportDependencies
    requires HeaderInRange(h, entries)
  {
    var a := h.first + h.createBeforeCreate;
    var b := a + h.serializeBeforeCreate;
    var c := b + h.createBeforeSerialize;
    ExportDependencies(entries[c..c + h.serializeBeforeSerialize], entries[b..c], entries[a..b], entries[h.first..a])
  }

  /** Reads the dependencies of all exports; the headers may name any runs of the entries. */
  method ResolveDependencyBundles(headers: seq<DependencyHeader>, entries: seq<PackageIndex>)
    returns (lists: seq<ExportDependencies>)
    requires forall e :: 0 <= e < |headers| ==> HeaderInRange(headers[e], entries)
    ensures |lists| == |headers|
    ensures forall e: nat {:trigger lists[e]} :: e < |headers| ==>
              RunsAt(entries, headers[e], lists[e].createBeforeCreate, lists[e].serializeBeforeCreate,
                     lists[e].createBeforeSerialize, lists[e].serializeBeforeSerialize)
  {
    lists := [];
    for e := 0 to |headers|
      invariant |lists| == e
      invariant forall k: nat {:trigger lists[k]} :: k < e ==>
                  RunsAt(entries, headers[k], lists[k].createBeforeCreate, lists[k].serializeBeforeCreate,
                         lists[k].createBeforeSerialize, lists[k].serializeBeforeSerialize)
    {
      lists := lists + [ResolveHeader(headers[e], entries)];
    }
  }

  lemma {:induction false} LaidOutInRange(kept: seq<ExportDependencies>, headers: seq<DependencyHeader>,
                                          entries: seq<PackageIndex>)
    requires LaidOut(kept, headers, entries)
    ensures forall e :: 0 <= e < |headers| ==> HeaderInRange(headers[e], entries)
  {
    forall e: nat | e < |headers|
      ensures HeaderInRange(headers[e], entries)
    {
      LaidOutRuns(kept, headers, entries, e);
    }
  }

  /** What was laid out is what is read. */
  lemma {:induction false} RunsAreKept(kept: seq<ExportDependencies>, headers: seq<DependencyHeader>,
                                       entries: seq<PackageIndex>, lists: seq<ExportDependencies>)
    requires LaidOut(kept, headers, entries) && |lists| == |headers|
    requires forall e: nat {:trigger lists[e]} :: e < |headers| ==>
               RunsAt(entries, headers[e], lists[e].createBeforeCreate, lists[e].serializeBeforeCreate,
                      lists[e].createBeforeSerialize, lists[e].serializeBeforeSerialize)
    ensures lists == kept
  {
    forall e: nat | e < |headers|
      ensures lists[e] == kept[e]
    {
      LaidOutRuns(kept, headers, entries, e);
    }
  }

  lemma {:induction false} BelowIsPrefix(kept: seq<ExportDependencies>, e: nat, n: nat)
    requires e <= n <= |kept|
    ensures EntriesBelow(kept, e) <= EntriesBelow(kept, n)
    decreases n
  {
    if e < n {
      BelowIsPrefix(kept, e, n - 1);
    }
  }

  lemma {:induction false} HeaderResolves(kept: seq<ExportDependencies>, entries: seq<PackageIndex>, e: nat)
    requires e < |kept| && entries == EntriesBelow(kept, |kept|)
    ensures var h := HeaderOf(|EntriesBelow(kept, e)|, kept[e]);
            HeaderInRange(h, entries) && ResolveHeader(h, entries) == kept[e]
  {
    BelowIsPrefix(kept, e + 1, |kept|);
    var front, d := EntriesBelow(kept, e), kept[e];
    assert entries[..|front + EntriesOf(d)|] == front + EntriesOf(d);
    CutAgain(front, d, entries[|front + EntriesOf(d)|..]);
    assert entries == front + EntriesOf(d) + entries[|front + EntriesOf(d)|..];
  }

  lemma {:induction false} CutAgain(front: seq<PackageIndex>, d: ExportDependencies, back: seq<PackageIndex>)
    ensures var entries, h := front + EntriesOf(d) + back, HeaderOf(|front|, d);
            HeaderInRange(h, entries) && ResolveHeader(h, entries) == d
  {
    var entries, h := front + EntriesOf(d) + back, HeaderOf(|front|, d);
    var r := ResolveHeader(h, entries);
    assert r.createBeforeCreate == d.createBeforeCreate;
    assert r.serializeBeforeCreate == d.serializeBeforeCreate;
    assert r.createBeforeSerialize == d.createBeforeSerialize;
    assert r.serializeBeforeSerialize == d.serializeBeforeSerialize;
  }

  // ------------------------------------------------------------------ round trip

  /** From preload dependencies to bundles and back: every stored dependency comes back
      under its kind and in its order, and nothing else does. Building the bundles a
      second time from what came back gives the same bundles. */
  method RoundTrip(m: DependencyMap, exportCount: nat, packageImports: seq<bool>, ghost lists: seq<ExportDependencies>)
    returns (headers: seq<DependencyHeader>, entries: seq<PackageIndex>, resolved: seq<ExportDependencies>)
    requires |lists| == exportCount && DescribesExports(m, lists)
    ensures |resolved| == exportCount && forall e :: 0 <= e < exportCount ==>
              resolved[e] == KeepAll(e, packageImports, lists[e])
    ensures |headers| == exportCount && RunsFollow(headers, entries)
    ensures forall e: nat {:trigger headers[e]} :: e < exportCount ==>
              RunsAt(entries, headers[e], resolved[e].createBeforeCreate, resolved[e].serializeBeforeCreate,
                     resolved[e].createBeforeSerialize, resolved[e].serializeBeforeSerialize)
    ensures forall h, x :: LaidOut(KeptLists(resolved, packageImports), h, x) ==> h == headers && x == entries
  {
    headers, entries := BuildDependencyBundles(m, exportCount, packageImports, lists);
    LaidOutInRange(KeptLists(lists, packageImports), headers, entries);
    resolved := ResolveDependencyBundles(headers, entries);
    RunsAreKept(KeptLists(lists, packageImports), headers, entries, resolved);
    forall e | 0 <= e < exportCount
      ensures KeepAll(e, packageImports, resolved[e]) == resolved[e]
    {
      KeepAllIdempotent(e, packageImports, lists[e]);
    }
    assert KeptLists(resolved, packageImports) == resolved;
    forall h, x | LaidOut(KeptLists(resolved, packageImports), h, x)
      ensures h == headers && x == entries
    {
      LayoutUnique(resolved, headers, entries, h, x);
    }
  }

  lemma {:induction false} LayoutUnique(kept: seq<ExportDependencies>, h: seq<DependencyHeader>, x: seq<PackageIndex>,
                                        h2: seq<DependencyHeader>, x2: seq<PackageIndex>)
    requires LaidOut(kept, h, x) && LaidOut(kept, h2, x2)
    ensures h == h2 && x == x2
  {
    forall e: nat | e < |kept|
      ensures h[e] == h2[e]
    {
      assert HeaderOk(kept, h[e], e) && HeaderOk(kept, h2[e], e);
    }
  }

  lemma {:induction false} KeepAllIdempotent(e: nat, packageImports: seq<bool>, d: ExportDependencies)
    ensures KeepAll(e, packageImports, KeepAll(e, packageImports, d)) == KeepAll(e, packageImports, d)
  {
    KeepIdempotent(e, packageImports, d.serializeBeforeSerialize);
    KeepIdempotent(e, packageImports, d.createBeforeSerialize);
    KeepIdempotent(e, packageImports, d.serializeBeforeCreate);
    KeepIdempotent(e, packageImports, d.createBeforeCreate);
  }
}
