/** Preload dependencies of a legacy package: the flat list written next to the
    export table, and the dependency graph read back from it. */
module PreloadGraph {
  import opened Zen
  import opened LoadOrder

  /** Dependencies of one export, by kind. */
  datatype ExportDependencies = ExportDependencies(
    serializeBeforeSerialize: seq<PackageIndex>,
    createBeforeSerialize: seq<PackageIndex>,
    serializeBeforeCreate: seq<PackageIndex>,
    createBeforeCreate: seq<PackageIndex>)

  const NO_DEPENDENCIES := ExportDependencies([], [], [], [])

  /** The part of an export table entry that concerns dependencies. The counts say how
      much of the flat preload list belongs to the export, from `firstDependency` on;
      -1 means that it has none. */
  datatype ObjectExport = ObjectExport(
    classIndex: PackageIndex, superIndex: PackageIndex, templateIndex: PackageIndex, outerIndex: PackageIndex,
    firstDependency: int,
    serializeBeforeSerialize: nat, createBeforeSerialize: nat, serializeBeforeCreate: nat, createBeforeCreate: nat)

  // ------------------------------------------------- writing the preload list

  function AppendUnlessListed(list: seq<PackageIndex>, listed: seq<PackageIndex>, x: PackageIndex): seq<PackageIndex> {
    if x.IsNull() || x in listed then list else list + [x]
  }

  /** The dependencies that are written for an export: the given ones, completed with
      its outer, super, class and template. The super is looked up among the
      create-before-create dependencies but added to the serialize-before-serialize
      ones. */
  function Completed(ex: ObjectExport, d: ExportDependencies): ExportDependencies {
    var cbc := AppendUnlessListed(d.createBeforeCreate, d.createBeforeCreate, ex.outerIndex);
    var sbs := AppendUnlessListed(d.serializeBeforeSerialize, cbc, ex.superIndex);
    var sbc := AppendUnlessListed(d.serializeBeforeCreate, d.serializeBeforeCreate, ex.classIndex);
    ExportDependencies(sbs, d.createBeforeSerialize, AppendUnlessListed(sbc, sbc, ex.templateIndex), cbc)
  }

  ghost predicate InBounds(ex: ObjectExport, preload: seq<PackageIndex>) {
    ex.firstDependency == -1 ||
    (0 <= ex.firstDependency &&
     ex.firstDependency + ex.serializeBeforeSerialize + ex.createBeforeSerialize
     + ex.serializeBeforeCreate + ex.createBeforeCreate <= |preload|)
  }

  /** The dependencies an export table entry stands for. */
  ghost function Listed(ex: ObjectExport, preload: seq<PackageIndex>): ExportDependencies
    requires InBounds(ex, preload)
  {
    if ex.firstDependency == -1 then NO_DEPENDENCIES
    else
      var a := ex.firstDependency;
      var b := a + ex.serializeBeforeSerialize;
      var c := b + ex.createBeforeSerialize;
      var d := c + ex.serializeBeforeCreate;
      ExportDependencies(preload[a..b], preload[b..c], preload[c..d], preload[d..d + ex.createBeforeCreate])
  }

  /** The `count` entries of the flat list that start `from` places behind the first
      dependency of the export are `list`. */
  ghost predicate RunIs(ex: ObjectExport, preload: seq<PackageIndex>, from: nat, count: nat, list: seq<PackageIndex>) {
    if ex.firstDependency == -1 then list == []
    else
      var start := ex.firstDependency + from;
      0 <= start <= start + count <= |preload| && preload[start..start + count] == list
  }

  /** The dependencies of an export stand in the flat list kind by kind. */
  ghost predicate HoldsRuns(ex: ObjectExport, preload: seq<PackageIndex>, d: ExportDependencies) {
    var a, b, c := ex.serializeBeforeSerialize, ex.createBeforeSerialize, ex.serializeBeforeCreate;
    && RunIs(ex, preload, 0, a, d.serializeBeforeSerialize)
    && RunIs(ex, preload, a, b, d.createBeforeSerialize)
    && RunIs(ex, preload, a + b, c, d.serializeBeforeCreate)
    && RunIs(ex, preload, a + b + c, ex.createBeforeCreate, d.createBeforeCreate)
  }

  lemma {:induction false} ListedRuns(ex: ObjectExport, preload: seq<PackageIndex>)
    requires InBounds(ex, preload)
    ensures HoldsRuns(ex, preload, Listed(ex, preload))
  {
  }

  /** `more` goes on where `list` ends, and holds `x` and `y` besides unless they are null. */
  ghost predicate ExtendedBy(list: seq<PackageIndex>, more: seq<PackageIndex>, x: PackageIndex, y: PackageIndex) {
    && list <= more
    && forall p :: p in more <==> p in list || (p == x && !x.IsNull()) || (p == y && !y.IsNull())
  }

  /** `c` are the dependencies `d` and, unless they are missing, the outer among those to
      create before creating, the class and the template among those to serialize before
      creating, and the super among those to serialize before serializing, except when
      it is created before creating anyway. */
  ghost predicate Completes(ex: ObjectExport, d: ExportDependencies, c: ExportDependencies) {
    && ExtendedBy(d.createBeforeCreate, c.createBeforeCreate, ex.outerIndex, ex.outerIndex)
    && ExtendedBy(d.serializeBeforeCreate, c.serializeBeforeCreate, ex.classIndex, ex.templateIndex)
    && c.createBeforeSerialize == d.createBeforeSerialize
    && (if ex.superIndex.IsNull() || ex.superIndex in c.createBeforeCreate
        then c.serializeBeforeSerialize == d.serializeBeforeSerialize
        else c.serializeBeforeSerialize == d.serializeBeforeSerialize + [ex.superIndex])
  }

  lemma {:induction false} CompletedCompletes(ex: ObjectExport, d: ExportDependencies)
    ensures Completes(ex, d, Completed(ex, d))
  {
  }

  /** A longer preload list does not change what is already listed. */
  lemma {:induction false} ListedIsStable(ex: ObjectExport, preload: seq<PackageIndex>, more: seq<PackageIndex>)
    requires InBounds(ex, preload)
    ensures InBounds(ex, preload + more) && Listed(ex, preload + more) == Listed(ex, preload)
  {
    if ex.firstDependency != -1 {
      var a := ex.firstDependency;
      var b := a + ex.serializeBeforeSerialize;
      var c := b + ex.createBeforeSerialize;
      var d := c + ex.serializeBeforeCreate;
      var e := d + ex.createBeforeCreate;
      assert forall i, j | 0 <= i <= j <= |preload| :: (preload + more)[i..j] == preload[i..j];
    }
  }

  /** The runs of the written export `ex` are the completed dependencies of `was`. */
  ghost predicate IsCompleted(was: ObjectExport, d: ExportDependencies, ex: ObjectExport, preload: seq<PackageIndex>) {
    exists c :: HoldsRuns(ex, preload, c) && Completes(was, d, c)
  }

  lemma {:induction false} ListedIsCompleted(was: ObjectExport, d: ExportDependencies, ex: ObjectExport,
                                             preload: seq<PackageIndex>)
    requires InBounds(ex, preload) && Listed(ex, preload) == Completed(was, d)
    ensures IsCompleted(was, d, ex, preload)
  {
    ListedRuns(ex, preload);
    CompletedCompletes(was, d);
  }

  class LegacyPackage {
    var exports: seq<ObjectExport>
    var preloadDependencies: seq<PackageIndex>

    constructor (exports: seq<ObjectExport>, preloadDependencies: seq<PackageIndex>)
      ensures this.exports == exports && this.preloadDependencies == preloadDependencies
    {
      this.exports, this.preloadDependencies := exports, preloadDependencies;
    }

    /** Writes the dependencies of every export behind the flat preload list. Reading an
        export back yields its completed dependencies; everything else about the exports
        and the preload entries that were already there stay as they were. */
    method ApplyStandaloneDependencies(dependencies: seq<ExportDependencies>)
      requires |dependencies| == |exports|
      requires forall e :: 0 <= e < |exports| ==> exports[e].firstDependency == -1
      modifies this
      ensures |exports| == |dependencies|
      ensures old(preloadDependencies) <= preloadDependencies
      ensures forall e :: 0 <= e < |exports| ==>
                InBounds(exports[e], preloadDependencies) &&
                Listed(exports[e], preloadDependencies) == Completed(old(exports[e]), dependencies[e]) &&
                SameReferences(exports[e], old(exports[e]))
      ensures forall e :: 0 <= e < |exports| ==>
                IsCompleted(old(exports[e]), dependencies[e], exports[e], preloadDependencies)
    {
      for e := 0 to |exports|
        invariant |exports| == |dependencies|
        invariant old(preloadDependencies) <= preloadDependencies
        invariant forall k :: e <= k < |exports| ==> exports[k] == old(exports[k])
        invariant forall k :: 0 <= k < e ==>
                    InBounds(exports[k], preloadDependencies) &&
                    Listed(exports[k], preloadDependencies) == Completed(old(exports[k]), dependencies[k]) &&
                    SameReferences(exports[k], old(exports[k]))
      {
        var d := Completed(exports[e], dependencies[e]);
        if d != NO_DEPENDENCIES {
          var more := d.serializeBeforeSerialize + d.createBeforeSerialize + d.serializeBeforeCreate +
              d.createBeforeCreate;
          var ex := exports[e].(
            firstDependency := |preloadDependencies|,
            serializeBeforeSerialize := |d.serializeBeforeSerialize|,
            createBeforeSerialize := |d.createBeforeSerialize|,
            serializeBeforeCreate := |d.serializeBeforeCreate|,
            createBeforeCreate := |d.createBeforeCreate|);
          WrittenIsListed(ex, preloadDependencies, d);
          forall k | 0 <= k < e
            ensures InBounds(exports[k], preloadDependencies + more) &&
                    Listed(exports[k], preloadDependencies + more) == Listed(exports[k], preloadDependencies)
          {
            ListedIsStable(exports[k], preloadDependencies, more);
          }
          exports := exports[e := ex];
          preloadDependencies := preloadDependencies + more;
        }
      }
      forall e | 0 <= e < |exports|
        ensures IsCompleted(old(exports[e]), dependencies[e], exports[e], preloadDependencies)
      {
        ListedIsCompleted(old(exports[e]), dependencies[e], exports[e], preloadDependencies);
      }
    }
  }

  predicate SameReferences(a: ObjectExport, b: ObjectExport) {
    a.classIndex == b.classIndex && a.superIndex == b.superIndex && a.templateIndex == b.templateIndex
    && a.outerIndex == b.outerIndex
  }

  lemma {:induction false} WrittenIsListed(ex: ObjectExport, preload: seq<PackageIndex>, d: ExportDependencies)
    requires ex.firstDependency == |preload|
    requires ex.serializeBeforeSerialize == |d.serializeBeforeSerialize|
    requires ex.createBeforeSerialize == |d.createBeforeSerialize|
    requires ex.serializeBeforeCreate == |d.serializeBeforeCreate|
    requires ex.createBeforeCreate == |d.createBeforeCreate|
    ensures var all := preload + (d.serializeBeforeSerialize + d.createBeforeSerialize + d.serializeBeforeCreate +
                                  d.createBeforeCreate);
            InBounds(ex, all) && Listed(ex, all) == d
  {
    var all := preload + (d.serializeBeforeSerialize + d.createBeforeSerialize + d.serializeBeforeCreate +
                          d.createBeforeCreate);
    var l := Listed(ex, all);
    assert l.serializeBeforeSerialize == d.serializeBeforeSerialize;
    assert l.createBeforeSerialize == d.createBeforeSerialize;
    assert l.serializeBeforeCreate == d.serializeBeforeCreate;
    assert l.createBeforeCreate == d.createBeforeCreate;
  }

  // ------------------------------------------------- reading the preload list

  ghost function Tagged(list: seq<PackageIndex>, command: CommandType): seq<DependencyNode> {
    seq(|list|, i requires 0 <= i < |list| => DependencyNode(list[i], command))
  }

  /** What the Create and the Serialize command of export `e` wait for, in the order
      in which the package store writes it. */
  ghost function DependenciesOf(e: nat, command: CommandType, d: ExportDependencies): seq<DependencyNode> {
    match command
    case Create => Tagged(d.createBeforeCreate, Create) + Tagged(d.serializeBeforeCreate, Serialize)
    case Serialize =>
      [ExportNode(e, Create)] + Tagged(d.createBeforeSerialize, Create) + Tagged(d.serializeBeforeSerialize, Serialize)
  }

  /** `p` is one of the `count` entries of the flat list that start `from` places behind
      the first dependency of the export. */
  ghost predicate InRun(ex: ObjectExport, preload: seq<PackageIndex>, from: nat, count: nat, p: PackageIndex) {
    && ex.firstDependency != -1
    && exists k :: 0 <= k < |preload| && from <= k - ex.firstDependency < from + count && preload[k] == p
  }

  /** Command `c` of export `e` waits for `x`: an export is created before it is
      serialized, and the entries of each kind are waited for as their kind says. */
  ghost predicate WaitsOn(e: nat, ex: ObjectExport, preload: seq<PackageIndex>, c: CommandType, x: DependencyNode) {
    var cbs := ex.serializeBeforeSerialize;
    var sbc := cbs + ex.createBeforeSerialize;
    var cbc := sbc + ex.serializeBeforeCreate;
    match (c, x.command)
    case (Create, Create) => InRun(ex, preload, cbc, ex.createBeforeCreate, x.packageIndex)
    case (Create, Serialize) => InRun(ex, preload, sbc, ex.serializeBeforeCreate, x.packageIndex)
    case (Serialize, Create) =>
      x == ExportNode(e, Create) || InRun(ex, preload, cbs, ex.createBeforeSerialize, x.packageIndex)
    case (Serialize, Serialize) => InRun(ex, preload, 0, ex.serializeBeforeSerialize, x.packageIndex)
  }

  lemma {:induction false} InTagged(list: seq<PackageIndex>, command: CommandType, x: DependencyNode)
    ensures x in Tagged(list, command) <==> x.command == command && x.packageIndex in list
  {
    if x.command == command && x.packageIndex in list {
      var i :| 0 <= i < |list| && list[i] == x.packageIndex;
      assert Tagged(list, command)[i] == x;
    }
  }

  lemma {:induction false} InRunIff(ex: ObjectExport, preload: seq<PackageIndex>, from: nat, count: nat,
                                    list: seq<PackageIndex>, p: PackageIndex)
    requires RunIs(ex, preload, from, count, list)
    ensures p in list <==> InRun(ex, preload, from, count, p)
  {
    if ex.firstDependency != -1 {
      var start := ex.firstDependency + from;
      if p in list {
        var i :| 0 <= i < |list| && list[i] == p;
        assert preload[start + i] == preload[start..start + count][i];
      }
      if InRun(ex, preload, from, count, p) {
        var k :| from <= k - ex.firstDependency < from + count && 0 <= k < |preload| && preload[k] == p;
        assert preload[start..start + count][k - start] == p;
      }
    }
  }

  lemma {:induction false} ListedWaits(e: nat, ex: ObjectExport, preload: seq<PackageIndex>, c: CommandType,
                                       x: DependencyNode)
    requires InBounds(ex, preload)
    ensures x in DependenciesOf(e, c, Listed(ex, preload)) <==> WaitsOn(e, ex, preload, c, x)
  {
    var d, p := Listed(ex, preload), x.packageIndex;
    var cbs := ex.serializeBeforeSerialize;
    var sbc := cbs + ex.createBeforeSerialize;
    var cbc := sbc + ex.serializeBeforeCreate;
    InTagged(d.createBeforeCreate, Create, x);
    InTagged(d.serializeBeforeCreate, Serialize, x);
    InTagged(d.createBeforeSerialize, Create, x);
    InTagged(d.serializeBeforeSerialize, Serialize, x);
    InRunIff(ex, preload, 0, ex.serializeBeforeSerialize, d.serializeBeforeSerialize, p);
    InRunIff(ex, preload, cbs, ex.createBeforeSerialize, d.createBeforeSerialize, p);
    InRunIff(ex, preload, sbc, ex.serializeBeforeCreate, d.serializeBeforeCreate, p);
    InRunIff(ex, preload, cbc, ex.createBeforeCreate, d.createBeforeCreate, p);
  }

  type DependencyMap = map<DependencyNode, seq<DependencyNode>>

  /** The dependency map holds the dependencies of exactly the two commands of every
      export. */
  ghost predicate DescribesExports(m: DependencyMap, lists: seq<ExportDependencies>) {
    && (forall n :: n in m ==> exists e :: 0 <= e < |lists| && n.packageIndex == CreateExport(e))
    && (forall e, c :: 0 <= e < |lists| ==>
          ExportNode(e, c) in m && m[ExportNode(e, c)] == DependenciesOf(e, c, lists[e]))
  }

  /** Both commands of every export, in export order, Create first. */
  ghost function ExportNodes(isPublic: seq<bool>): seq<GraphNode> {
    seq(2 * |isPublic|, i requires 0 <= i < 2 * |isPublic| =>
      GraphNode(ExportNode(i / 2, if i % 2 == 0 then Create else Serialize), isPublic[i / 2]))
  }

  /** `n` is one of the commands of the exports described by `isPublic`. */
  ghost predicate IsExportNode(isPublic: seq<bool>, n: GraphNode) {
    n.node.packageIndex.IsExport() && n.node.packageIndex.ToExportIndex() < |isPublic|
    && n.isPublic == isPublic[n.node.packageIndex.ToExportIndex()]
  }

  /** `a` has to complete before `b`. */
  predicate DependsOn(m: DependencyMap, b: DependencyNode, a: DependencyNode) {
    b in m && a in m[b]
  }

  /** The graph has the commands of the exports as nodes, and an edge for each
      dependency between two of them. Dependencies on imports make no edge. */
  ghost predicate Represents(g: Graph, m: DependencyMap, isPublic: seq<bool>) {
    && g.nodes == ExportNodes(isPublic)
    && (forall a, b :: Edge(g, a, b) <==>
          IsExportNode(isPublic, a) && IsExportNode(isPublic, b) && DependsOn(m, b.node, a.node))
  }

  lemma {:induction false} ExportNodesAre(isPublic: seq<bool>, n: GraphNode)
    ensures n in ExportNodes(isPublic) <==> IsExportNode(isPublic, n)
  {
    if IsExportNode(isPublic, n) {
      var e := n.node.packageIndex.ToExportIndex();
      var i := 2 * e + (if n.node.command.Create? then 0 else 1);
      assert ExportNodes(isPublic)[i] == n;
    }
  }

  lemma {:induction false} RepresentsIsWellFormed(g: Graph, m: DependencyMap, isPublic: seq<bool>)
    requires Represents(g, m, isPublic)
    requires forall a :: a in g.dependants ==> g.dependants[a] != []
    ensures WellFormed(g)
  {
    forall i, j | 0 <= i < j < |g.nodes|
      ensures g.nodes[i] != g.nodes[j]
    {
      if i / 2 == j / 2 {
        assert i % 2 == 0 && j % 2 == 1;
      }
    }
    forall n
      ensures n in g.nodes <==> IsExportNode(isPublic, n)
    {
      ExportNodesAre(isPublic, n);
    }
    forall a | a in g.dependants
      ensures a in g.nodes
    {
      assert Edge(g, a, g.dependants[a][0]);
    }
  }

  /** Reads `count` preload entries from `start` on as dependencies on `command`. */
  method ReadDependencies(preload: seq<PackageIndex>, start: nat, count: nat, command: CommandType,
                          before: seq<DependencyNode>)
    returns (r: seq<DependencyNode>)
    requires start + count <= |preload|
    ensures r == before + Tagged(preload[start..start + count], command)
  {
    r := before;
    for i := 0 to count
      invariant r == before + Tagged(preload[start..start + i], command)
    {
      r := r + [DependencyNode(preload[start + i], command)];
    }
  }

  /** Reads the dependencies of export `e`. */
  method ReadExport(e: nat, ex: ObjectExport, preload: seq<PackageIndex>)
    returns (create: seq<DependencyNode>, serialize: seq<DependencyNode>)
    requires InBounds(ex, preload)
    ensures create == DependenciesOf(e, Create, Listed(ex, preload))
    ensures serialize == DependenciesOf(e, Serialize, Listed(ex, preload))
  {
    create, serialize := [], [ExportNode(e, Create)];
    if ex.firstDependency != -1 {
      var a := ex.firstDependency;
      var b := a + ex.serializeBeforeSerialize;
      var c := b + ex.createBeforeSerialize;
      var d := c + ex.serializeBeforeCreate;
      create := ReadDependencies(preload, d, ex.createBeforeCreate, Create, create);
      create := ReadDependencies(preload, c, ex.serializeBeforeCreate, Serialize, create);
      serialize := ReadDependencies(preload, b, ex.createBeforeSerialize, Create, serialize);
      serialize := ReadDependencies(preload, a, ex.serializeBeforeSerialize, Serialize, serialize);
    }
  }

  ghost function AllListed(exports: seq<ObjectExport>, preload: seq<PackageIndex>): (r: seq<ExportDependencies>)
    requires forall e :: 0 <= e < |exports| ==> InBounds(exports[e], preload)
    ensures |r| == |exports|
  {
    seq(|exports|, e requires 0 <= e < |exports| => Listed(exports[e], preload))
  }

  /** Every command of every export is listed with exactly what the export table and the
      flat list make it wait for. */
  ghost predicate ListsWaits(m: DependencyMap, exports: seq<ObjectExport>, preload: seq<PackageIndex>) {
    forall e: nat, c, x {:trigger WaitsOn(e, exports[e], preload, c, x)} :: e < |exports| ==>
      ExportNode(e, c) in m && (x in m[ExportNode(e, c)] <==> WaitsOn(e, exports[e], preload, c, x))
  }

  lemma {:induction false} DescribedWaits(m: DependencyMap, exports: seq<ObjectExport>, preload: seq<PackageIndex>)
    requires forall e :: 0 <= e < |exports| ==> InBounds(exports[e], preload)
    requires DescribesExports(m, AllListed(exports, preload))
    ensures ListsWaits(m, exports, preload)
  {
    var lists := AllListed(exports, preload);
    forall e: nat, c, x | e < |exports|
      ensures ExportNode(e, c) in m && (x in m[ExportNode(e, c)] <==> WaitsOn(e, exports[e], preload, c, x))
    {
      assert m[ExportNode(e, c)] == DependenciesOf(e, c, lists[e]);
      ListedWaits(e, exports[e], preload, c, x);
    }
  }

  /** Dependencies on exports name exports of this package. */
  ghost predicate ReferencesInRange(m: DependencyMap, exportCount: nat) {
    forall n, d :: DependsOn(m, n, d) ==> d.packageIndex.index <= exportCount
  }

  /** Builds the dependency map and the nodes of the graph from the preload list. */
  method BuildExportDependencies(exports: seq<ObjectExport>, preload: seq<PackageIndex>, isPublic: seq<bool>)
    returns (m: DependencyMap, nodes: seq<GraphNode>)
    requires |isPublic| == |exports|
    requires forall e :: 0 <= e < |exports| ==> InBounds(exports[e], preload)
    ensures DescribesExports(m, AllListed(exports, preload))
    ensures nodes == ExportNodes(isPublic)
    ensures ListsWaits(m, exports, preload)
  {
    m, nodes := map[], [];
    ghost var lists := AllListed(exports, preload);
    for e := 0 to |exports|
      invariant DescribesExports(m, lists[..e])
      invariant nodes == ExportNodes(isPublic[..e])
    {
      var create, serialize := ReadExport(e, exports[e], preload);
      nodes := nodes +
          [GraphNode(ExportNode(e, Create), isPublic[e]), GraphNode(ExportNode(e, Serialize), isPublic[e])];
      assert nodes == ExportNodes(isPublic[..e + 1]);
      ghost var before := m;
      m := m[ExportNode(e, Create) := create][ExportNode(e, Serialize) := serialize];
      DescribesOneMore(before, lists, e, m);
    }
    assert lists[..|exports|] == lists && isPublic[..|exports|] == isPublic;
    DescribedWaits(m, exports, preload);
  }

  lemma {:induction false} DescribesOneMore(before: DependencyMap, lists: seq<ExportDependencies>, e: nat,
                                            m: DependencyMap)
    requires e < |lists| && DescribesExports(before, lists[..e])
    requires m == before[ExportNode(e, Create) := DependenciesOf(e, Create, lists[e])]
                        [ExportNode(e, Serialize) := DependenciesOf(e, Serialize, lists[e])]
    ensures DescribesExports(m, lists[..e + 1])
  {
    var l := lists[..e + 1];
    forall n | n in m
      ensures exists k :: 0 <= k < |l| && n.packageIndex == CreateExport(k)
    {
      if n in before {
        var k :| 0 <= k < |lists[..e]| && n.packageIndex == CreateExport(k);
        assert 0 <= k < |l|;
      } else {
        assert n.packageIndex == CreateExport(e);
      }
    }
    forall k, c | 0 <= k < |l|
      ensures ExportNode(k, c) in m && m[ExportNode(k, c)] == DependenciesOf(k, c, l[k])
    {
      if k < e {
        assert l[k] == lists[..e][k];
      } else {
        assert c == Create || c == Serialize;
      }
    }
  }

  /** Reverses the dependency map into the lists of dependants. */
  method BuildDependants(m: DependencyMap, nodes: seq<GraphNode>, isPublic: seq<bool>) returns (g: Graph)
    requires nodes == ExportNodes(isPublic)
    requires ReferencesInRange(m, |isPublic|)
    ensures WellFormed(g) && Represents(g, m, isPublic)
  {
    var dependants: map<GraphNode, seq<GraphNode>> := map[];
    for i := 0 to |nodes|
      invariant forall a :: a in dependants ==> dependants[a] != []
      invariant forall a, b :: Edge(Graph(nodes, dependants), a, b) <==>
                  IsExportNode(isPublic, a) && b in nodes[..i] && DependsOn(m, b.node, a.node)
    {
      var dependant := nodes[i];
      assert nodes[..i + 1] == nodes[..i] + [dependant];
      ghost var before := dependants;
      if dependant.node in m {
        var list := m[dependant.node];
        for k := 0 to |list|
          invariant forall a :: a in dependants ==> dependants[a] != []
          invariant forall a, b :: Edge(Graph(nodes, dependants), a, b) <==>
                      Edge(Graph(nodes, before), a, b) ||
                      (IsExportNode(isPublic, a) && b == dependant && a.node in list[..k])
        {
          var p := list[k].packageIndex;
          assert list[..k + 1] == list[..k] + [list[k]];
          if p.IsExport() {
            assert DependsOn(m, dependant.node, list[k]);
            var dependency := GraphNode(list[k], isPublic[p.ToExportIndex()]);
            var others := if dependency in dependants then dependants[dependency] else [];
            dependants := dependants[dependency := others + [dependant]];
          }
        }
        assert list[..|list|] == list;
      }
    }
    g := Graph(nodes, dependants);
    forall n
      ensures n in nodes <==> IsExportNode(isPublic, n)
    {
      ExportNodesAre(isPublic, n);
    }
    assert nodes[..|nodes|] == nodes;
    RepresentsIsWellFormed(g, m, isPublic);
  }

  /** Sorts the export commands of a package by its preload list. */
  method SortExports(exports: seq<ObjectExport>, preload: seq<PackageIndex>, isPublic: seq<bool>)
    returns (m: DependencyMap, ghost g: Graph, r: Result<seq<GraphNode>, SortError>)
    requires |isPublic| == |exports|
    requires forall e :: 0 <= e < |exports| ==> InBounds(exports[e], preload)
    requires forall e, c, d :: 0 <= e < |exports| && d in DependenciesOf(e, c, Listed(exports[e], preload)) ==>
               d.packageIndex.index <= |exports|
    ensures DescribesExports(m, AllListed(exports, preload)) && ListsWaits(m, exports, preload)
    ensures WellFormed(g) && Represents(g, m, isPublic) && SortOutcome(g, r)
  {
    var nodes;
    m, nodes := BuildExportDependencies(exports, preload, isPublic);
    forall n, d | DependsOn(m, n, d)
      ensures d.packageIndex.index <= |exports|
    {
      var e :| 0 <= e < |exports| && n.packageIndex == CreateExport(e);
      assert n == ExportNode(e, n.command);
    }
    var graph := BuildDependants(m, nodes, isPublic);
    r := SortDependenciesInLoadOrder(graph);
    g := graph;
  }
}
