/** The load order of a package: a priority-queue topological sort of its export
    commands. */
module LoadOrder {
  import opened Zen
  import opened Sequences

  /** A node of the export graph. Public exports are marked because they close
      export bundles and are therefore scheduled early. */
  datatype GraphNode = GraphNode(node: DependencyNode, isPublic: bool)

  // ---------------------------------------------------------------- priority

  datatype Ordering = Less | Equal | Greater {
    function Then(next: Ordering): Ordering {
      if this == Equal then next else this
    }

    function Reverse(): Ordering {
      match this
      case Less => Greater
      case Equal => Equal
      case Greater => Less
    }
  }

  function CompareInt(a: int, b: int): Ordering {
    if a < b then Less else if a == b then Equal else Greater
  }

  function CompareBool(a: bool, b: bool): Ordering {
    CompareInt(if a then 1 else 0, if b then 1 else 0)
  }

  function CompareCommand(a: CommandType, b: CommandType): Ordering {
    CompareInt(if a.Create? then 0 else 1, if b.Create? then 0 else 1)
  }

  /** The heap order of two graph nodes. Export indices are compared through their
      sign encoding, which is one more than the index itself. */
  function Compare(a: GraphNode, b: GraphNode): Ordering {
    CompareBool(b.isPublic, a.isPublic)
    .Then(CompareCommand(a.node.command, b.node.command))
    .Then(CompareInt(a.node.packageIndex.index, b.node.packageIndex.index))
    .Reverse()
  }

  /** What the heap order means: public exports first, then Create before
      Serialize, then the lower export index. */
  predicate Before(a: GraphNode, b: GraphNode) {
    || (a.isPublic && !b.isPublic)
    || (a.isPublic == b.isPublic && a.node.command.Create? && b.node.command.Serialize?)
    || (a.isPublic == b.isPublic && a.node.command == b.node.command
        && a.node.packageIndex.index < b.node.packageIndex.index)
  }

  /** A max-heap ordered by Compare pops exactly the node that comes Before all
      others, and Before is a strict total order. */
  lemma {:induction false} CompareIsPriority(a: GraphNode, b: GraphNode, c: GraphNode)
    ensures Compare(a, b) == Greater <==> Before(a, b)
    ensures Compare(a, b) == Equal <==> a == b
    ensures !(Before(a, b) && Before(b, a))
    ensures a == b || Before(a, b) || Before(b, a)
    ensures Before(a, b) && Before(b, c) ==> Before(a, c)
  {
  }

  /** Every nonempty multiset has a greatest element under Compare. */
  lemma {:induction false} GreatestExists(heap: multiset<GraphNode>)
    requires heap != multiset{}
    ensures exists x :: x in heap && forall y :: y in heap ==> y == x || Before(x, y)
    decreases |heap|
  {
    var x :| x in heap;
    var rest := heap - multiset{x};
    if rest == multiset{} {
      assert heap == multiset{x};
      assert x in heap && forall y :: y in heap ==> y == x || Before(x, y);
    } else {
      GreatestExists(rest);
      var m :| m in rest && forall y :: y in rest ==> y == m || Before(m, y);
      assert forall y :: y in heap ==> y == x || y in rest;
      var best := if Before(x, m) then x else m;
      forall y | y in heap
        ensures y == best || Before(best, y)
      {
        CompareIsPriority(x, m, y);
      }
      assert best in heap;
    }
  }

  // ------------------------------------------------------------------- graph

  /** `dependants[a]` lists the nodes that depend on `a`; a dependency stated twice
      is listed twice. */
  datatype Graph = Graph(nodes: seq<GraphNode>, dependants: map<GraphNode, seq<GraphNode>>)

  predicate Edge(g: Graph, a: GraphNode, b: GraphNode) {
    a in g.dependants && b in g.dependants[a]
  }

  /** The listed nodes are distinct and every edge joins two of them. */
  ghost predicate WellFormed(g: Graph) {
    && Distinct(g.nodes)
    && (forall a :: a in g.dependants ==> a in g.nodes)
    && (forall a, b :: Edge(g, a, b) ==> b in g.nodes)
  }

  /** `n` has not been placed yet and everything it depends on has. */
  ghost predicate Ready(g: Graph, done: seq<GraphNode>, n: GraphNode) {
    && n in g.nodes && n !in done
    && forall a :: Edge(g, a, n) ==> a in done
  }

  ghost predicate LeastReady(g: Graph, done: seq<GraphNode>, n: GraphNode) {
    && Ready(g, done, n)
    && forall m :: Ready(g, done, m) ==> m == n || Before(n, m)
  }

  /** Every element was the least ready node when it was placed. */
  ghost predicate Greedy(g: Graph, order: seq<GraphNode>) {
    forall i :: 0 <= i < |order| ==> LeastReady(g, order[..i], order[i])
  }

  ghost predicate IsLoadOrder(g: Graph, order: seq<GraphNode>) {
    |order| == |g.nodes| && Greedy(g, order)
  }

  /** A permutation of the nodes that respects every edge. */
  ghost predicate Topological(g: Graph, order: seq<GraphNode>) {
    && multiset(order) == multiset(g.nodes)
    && forall i, j :: 0 <= i < |order| && 0 <= j < |order| && Edge(g, order[i], order[j]) ==> i < j
  }

  ghost predicate Path(g: Graph, p: seq<GraphNode>) {
    forall i :: 0 <= i < |p| - 1 ==> Edge(g, p[i], p[i + 1])
  }

  ghost predicate Cycle(g: Graph, p: seq<GraphNode>) {
    |p| >= 2 && Path(g, p) && p[0] == p[|p| - 1]
  }

  ghost predicate Acyclic(g: Graph) {
    forall p :: !Cycle(g, p)
  }

  // ------------------------------------------------- what a load order provides

  lemma {:induction false} GreedyDistinct(g: Graph, order: seq<GraphNode>)
    requires Greedy(g, order)
    ensures Distinct(order)
    ensures forall x :: x in order ==> x in g.nodes
  {
    forall i, j | 0 <= i < j < |order|
      ensures order[i] != order[j]
    {
      assert LeastReady(g, order[..j], order[j]);
      assert order[..j][i] == order[i];
    }
    forall x | x in order
      ensures x in g.nodes
    {
      var i :| 0 <= i < |order| && order[i] == x;
      assert LeastReady(g, order[..i], order[i]);
    }
  }

  /** A load order is a permutation of the nodes that respects every edge. */
  lemma {:induction false} LoadOrderIsTopological(g: Graph, order: seq<GraphNode>)
    requires WellFormed(g) && IsLoadOrder(g, order)
    ensures Topological(g, order)
  {
    GreedyDistinct(g, order);
    DistinctFits(order, g.nodes);
    forall i, j | 0 <= i < |order| && 0 <= j < |order| && Edge(g, order[i], order[j])
      ensures i < j
    {
      assert LeastReady(g, order[..j], order[j]);
      var k :| 0 <= k < j && order[..j][k] == order[i];
      assert order[k] == order[i];
    }
  }

  /** The load order does not depend on heap or map iteration order. */
  lemma {:induction false} LoadOrderUnique(g: Graph, a: seq<GraphNode>, b: seq<GraphNode>)
    requires WellFormed(g) && IsLoadOrder(g, a) && IsLoadOrder(g, b)
    ensures a == b
  {
    if a != b {
      var k := FirstDifference(a, b);
      assert LeastReady(g, a[..k], a[k]);
      assert LeastReady(g, b[..k], b[k]);
      CompareIsPriority(a[k], b[k], a[k]);
    }
  }

  /** The load order is the lexicographically least topological order: where another
      topological order first differs from it, the load order has the node of higher
      priority. */
  lemma {:induction false} LoadOrderIsLexicographicallyLeast(g: Graph, order: seq<GraphNode>, other: seq<GraphNode>)
    requires WellFormed(g) && IsLoadOrder(g, order) && Topological(g, other)
    ensures order == other ||
            exists k :: 0 <= k < |order| && k < |other| && order[..k] == other[..k] && Before(order[k], other[k])
  {
    PermutationDistinct(other, g.nodes);
    if order != other {
      var k := FirstDifference(order, other);
      TopologicalStepIsReady(g, other, k);
      assert LeastReady(g, order[..k], order[k]);
      assert order[..k] == other[..k] && Before(order[k], other[k]);
    }
  }

  /** In a topological order every node is ready when its turn comes. */
  lemma {:induction false} TopologicalStepIsReady(g: Graph, order: seq<GraphNode>, k: nat)
    requires WellFormed(g) && Topological(g, order) && k < |order|
    ensures Ready(g, order[..k], order[k])
  {
    PermutationDistinct(order, g.nodes);
    forall a | Edge(g, a, order[k])
      ensures a in order[..k]
    {
      assert a in order;
      var i :| 0 <= i < |order| && order[i] == a;
      assert order[..k][i] == a;
    }
  }

  // ---------------------------------------------------------------- acyclicity

  lemma {:induction false} PathClimbs(g: Graph, order: seq<GraphNode>, p: seq<GraphNode>, i: nat, j: nat)
    requires WellFormed(g) && Topological(g, order)
    requires |p| >= 2 && Path(g, p)
    requires i < |order| && j < |order| && order[i] == p[0] && order[j] == p[|p| - 1]
    ensures i < j
    decreases |p|
  {
    PermutationDistinct(order, g.nodes);
    assert Edge(g, p[0], p[1]);
    var m :| 0 <= m < |order| && order[m] == p[1];
    if |p| > 2 {
      assert Path(g, p[1..]) by {
        forall x | 0 <= x < |p[1..]| - 1
          ensures Edge(g, p[1..][x], p[1..][x + 1])
        {
          assert Edge(g, p[x + 1], p[x + 1 + 1]);
        }
      }
      PathClimbs(g, order, p[1..], m, j);
    } else {
      assert order[m] == order[j];
    }
  }

  lemma {:induction false} TopologicalImpliesAcyclic(g: Graph, order: seq<GraphNode>)
    requires WellFormed(g) && Topological(g, order)
    ensures Acyclic(g)
  {
    PermutationDistinct(order, g.nodes);
    forall p
      ensures !Cycle(g, p)
    {
      if Cycle(g, p) {
        assert Edge(g, p[0], p[1]);
        assert p[0] in g.nodes;
        var i :| 0 <= i < |order| && order[i] == p[0];
        PathClimbs(g, order, p, i, i);
      }
    }
  }

  ghost predicate HasPredecessorIn(g: Graph, stuck: set<GraphNode>, b: GraphNode) {
    exists a :: a in stuck && Edge(g, a, b)
  }

  ghost predicate Stuck(g: Graph, stuck: set<GraphNode>) {
    forall b {:trigger HasPredecessorIn(g, stuck, b)} :: b in stuck ==> HasPredecessorIn(g, stuck, b)
  }

  /** Walk backwards along edges inside a set where every node has a predecessor. */
  lemma {:induction false} BackwardWalk(g: Graph, stuck: set<GraphNode>, n: nat) returns (p: seq<GraphNode>)
    requires stuck != {} && Stuck(g, stuck)
    ensures |p| == n + 1 && Path(g, p)
    ensures forall x :: x in p ==> x in stuck
  {
    if n == 0 {
      var b :| b in stuck;
      p := [b];
    } else {
      var q := BackwardWalk(g, stuck, n - 1);
      assert q[0] in stuck && HasPredecessorIn(g, stuck, q[0]);
      var a :| a in stuck && Edge(g, a, q[0]);
      p := [a] + q;
      forall i | 0 <= i < |p| - 1
        ensures Edge(g, p[i], p[i + 1])
      {
        if i > 0 {
          assert p[i] == q[i - 1] && p[i + 1] == q[i];
        }
      }
    }
  }

  /** If every node of a nonempty set has a predecessor in the set there is a cycle. */
  lemma {:induction false} StuckImpliesCycle(g: Graph, stuck: set<GraphNode>)
    requires stuck != {} && Stuck(g, stuck)
    ensures !Acyclic(g)
  {
    var p := BackwardWalk(g, stuck, |stuck|);
    if Distinct(p) {
      DistinctCardinality(p);
      SubsetCardinality(Elements(p), stuck);
      assert false;
    }
    var i, j :| 0 <= i < j < |p| && p[i] == p[j];
    var c := p[i..j + 1];
    forall k | 0 <= k < |c| - 1
      ensures Edge(g, c[k], c[k + 1])
    {
      assert c[k] == p[i + k] && c[k + 1] == p[i + k + 1];
    }
    assert Cycle(g, c);
  }

  /** A greedy prefix that has no ready node left is either complete or leaves a cycle
      behind. */
  lemma {:induction false} NoReadyNodeLeft(g: Graph, order: seq<GraphNode>)
    requires WellFormed(g) && Greedy(g, order)
    requires forall n :: !Ready(g, order, n)
    ensures if |order| == |g.nodes| then Acyclic(g) else !Acyclic(g)
  {
    GreedyDistinct(g, order);
    if |order| == |g.nodes| {
      LoadOrderIsTopological(g, order);
      TopologicalImpliesAcyclic(g, order);
    } else {
      var stuck := Elements(g.nodes) - Elements(order);
      DistinctFits(order, g.nodes);
      if forall x :: x in g.nodes ==> x in order {
        DistinctFits(g.nodes, order);
        assert false;
      }
      var left :| left in g.nodes && left !in order;
      assert left in stuck;
      forall b | b in stuck
        ensures HasPredecessorIn(g, stuck, b)
      {
        assert !Ready(g, order, b);
        var a :| Edge(g, a, b) && a !in order;
        assert a in stuck;
      }
      StuckImpliesCycle(g, stuck);
    }
  }

  // --------------------------------------------------------------- edge counts

  /** All edge targets of the sources in `from`, with multiplicity, summed over the
      listed nodes. */
  ghost function Targets(g: Graph, nodes: seq<GraphNode>, from: set<GraphNode>): multiset<GraphNode> {
    if nodes == [] then multiset{}
    else
      Targets(g, nodes[1..], from) +
      (if nodes[0] in from && nodes[0] in g.dependants then multiset(g.dependants[nodes[0]]) else multiset{})
  }

  lemma {:induction false} TargetsOfOthers(g: Graph, nodes: seq<GraphNode>, from: set<GraphNode>, x: GraphNode)
    requires x !in nodes
    ensures Targets(g, nodes, from + {x}) == Targets(g, nodes, from)
  {
    if nodes != [] {
      TargetsOfOthers(g, nodes[1..], from, x);
    }
  }

  /** Adding a source adds exactly its own edges. */
  lemma {:induction false} TargetsAdd(g: Graph, nodes: seq<GraphNode>, from: set<GraphNode>, x: GraphNode)
    requires Distinct(nodes) && x in nodes && x !in from && x in g.dependants
    ensures Targets(g, nodes, from + {x}) == Targets(g, nodes, from) + multiset(g.dependants[x])
  {
    if nodes[0] == x {
      assert forall i :: 0 <= i < |nodes[1..]| ==> nodes[1..][i] == nodes[i + 1];
      TargetsOfOthers(g, nodes[1..], from, x);
    } else {
      TargetsAdd(g, nodes[1..], from, x);
    }
  }

  lemma {:induction false} TargetsOfNone(g: Graph, nodes: seq<GraphNode>)
    ensures Targets(g, nodes, {}) == multiset{}
  {
    if nodes != [] {
      TargetsOfNone(g, nodes[1..]);
    }
  }

  /** A node is counted exactly when some source in the set has an edge to it. */
  lemma {:induction false} TargetsCount(g: Graph, nodes: seq<GraphNode>, from: set<GraphNode>, n: GraphNode)
    ensures n in Targets(g, nodes, from) <==> exists a :: a in nodes && a in from && Edge(g, a, n)
  {
    if nodes != [] {
      TargetsCount(g, nodes[1..], from, n);
      assert nodes == [nodes[0]] + nodes[1..];
      var own := nodes[0] in from && Edge(g, nodes[0], n);
      assert n in Targets(g, nodes, from) <==> n in Targets(g, nodes[1..], from) || own;
      if exists a :: a in nodes && a in from && Edge(g, a, n) {
        var a :| a in nodes && a in from && Edge(g, a, n);
        assert a == nodes[0] || a in nodes[1..];
      }
    }
  }

  // ------------------------------------------------------------------ the sort

  function CountOf(counts: map<GraphNode, nat>, n: GraphNode): nat {
    if n in counts then counts[n] else 0
  }

  datatype SortError = CircularDependencies

  /** What sorting a graph yields: its load order when it is acyclic, an error
      otherwise. */
  ghost predicate SortOutcome(g: Graph, r: Result<seq<GraphNode>, SortError>) {
    match r
    case Ok(order) => Acyclic(g) && IsLoadOrder(g, order)
    case Err(e) => !Acyclic(g)
  }

  /** Two graphs with the same nodes and the same edges sort alike, whatever the
      multiplicity and the listing order of their edges. */
  lemma {:induction false} SortOutcomeUnique(g: Graph, h: Graph, r: Result<seq<GraphNode>, SortError>,
                                             q: Result<seq<GraphNode>, SortError>)
    requires WellFormed(g) && g.nodes == h.nodes
    requires forall a, b :: Edge(g, a, b) <==> Edge(h, a, b)
    requires SortOutcome(g, r) && SortOutcome(h, q)
    ensures r == q
  {
    forall p
      ensures Cycle(g, p) <==> Cycle(h, p)
    {
    }
    assert Acyclic(g) <==> Acyclic(h);
    assert r.Ok? <==> q.Ok?;
    if r.Ok? {
      SameEdgesSameOrder(g, h, q.value);
      LoadOrderUnique(g, r.value, q.value);
    } else {
      assert r.error.CircularDependencies? && q.error.CircularDependencies?;
    }
  }

  lemma {:induction false} SameEdgesSameOrder(g: Graph, h: Graph, order: seq<GraphNode>)
    requires g.nodes == h.nodes
    requires forall a, b :: Edge(g, a, b) <==> Edge(h, a, b)
    requires IsLoadOrder(h, order)
    ensures IsLoadOrder(g, order)
  {
    forall i | 0 <= i < |order|
      ensures LeastReady(g, order[..i], order[i])
    {
      assert LeastReady(h, order[..i], order[i]);
      forall m | Ready(g, order[..i], m)
        ensures Ready(h, order[..i], m)
      {
      }
    }
  }

  method CountTargets(before: map<GraphNode, nat>, targets: seq<GraphNode>) returns (counts: map<GraphNode, nat>)
    ensures forall n :: CountOf(counts, n) == CountOf(before, n) + multiset(targets)[n]
  {
    counts := before;
    for i := 0 to |targets|
      invariant forall n :: CountOf(counts, n) == CountOf(before, n) + multiset(targets[..i])[n]
    {
      var to := targets[i];
      assert targets[..i + 1] == targets[..i] + [to];
      counts := counts[to := CountOf(counts, to) + 1];
    }
    assert targets[..|targets|] == targets;
  }

  /** Counts, for every node, how many times it is listed as a dependant. The order
      in which the map is walked is left open. */
  method CountIncomingEdges(g: Graph) returns (counts: map<GraphNode, nat>)
    requires WellFormed(g)
    ensures forall n :: CountOf(counts, n) == Targets(g, g.nodes, g.dependants.Keys)[n]
  {
    counts := map[];
    var left := g.dependants.Keys;
    ghost var seen: set<GraphNode> := {};
    TargetsOfNone(g, g.nodes);
    while left != {}
      invariant left !! seen && left + seen == g.dependants.Keys
      invariant forall n :: CountOf(counts, n) == Targets(g, g.nodes, seen)[n]
      decreases left
    {
      var from :| from in left;
      counts := CountTargets(counts, g.dependants[from]);
      TargetsAdd(g, g.nodes, seen, from);
      left := left - {from};
      seen := seen + {from};
    }
    assert seen == g.dependants.Keys;
  }

  /** What the counters and the heap know between two pops. `pending` holds the
      sources whose edges are still counted. */
  ghost predicate Counted(g: Graph, order: seq<GraphNode>, counts: map<GraphNode, nat>,
                          heap: multiset<GraphNode>, pending: set<GraphNode>)
  {
    && (forall n :: n in pending <==> n in g.dependants && n !in order)
    && (forall n :: CountOf(counts, n) == Targets(g, g.nodes, pending)[n])
    && (forall n :: n in order ==> CountOf(counts, n) == 0)
    && (forall n :: heap[n] == if n in g.nodes && n !in order && CountOf(counts, n) == 0 then 1 else 0)
  }

  /** The heap holds exactly the ready nodes. */
  lemma {:induction false} HeapHoldsReady(g: Graph, order: seq<GraphNode>, counts: map<GraphNode, nat>,
                       heap: multiset<GraphNode>, pending: set<GraphNode>, n: GraphNode)
    requires WellFormed(g) && Counted(g, order, counts, heap, pending)
    ensures n in heap <==> Ready(g, order, n)
  {
    TargetsCount(g, g.nodes, pending, n);
    if CountOf(counts, n) != 0 {
      var a :| a in g.nodes && a in pending && Edge(g, a, n);
      assert !Ready(g, order, n);
    } else if n in g.nodes && n !in order {
      assert forall a :: Edge(g, a, n) ==> a in g.nodes && a !in pending;
      assert Ready(g, order, n);
    }
  }

  /** Sorts the export commands in load order. The result is the load order whenever
      the graph is acyclic, and an error exactly when it is not. */
  method SortDependenciesInLoadOrder(g: Graph) returns (r: Result<seq<GraphNode>, SortError>)
    requires WellFormed(g)
    ensures SortOutcome(g, r)
  {
    var counts := CountIncomingEdges(g);
    var heap := InitialHeap(g, counts);
    var order: seq<GraphNode> := [];
    ghost var pending := g.dependants.Keys;
    while heap != multiset{}
      invariant Greedy(g, order)
      invariant Counted(g, order, counts, heap, pending)
      decreases |g.nodes| - |order|
    {
      GreatestExists(heap);
      var next :| next in heap && forall y | y in heap :: y == next || Before(next, y);
      forall m
        ensures m in heap <==> Ready(g, order, m)
      {
        HeapHoldsReady(g, order, counts, heap, pending, m);
      }
      GreedyExtends(g, order, next);
      counts, heap := ReleaseDependants(g, order, counts, heap - multiset{next}, pending, next);
      order := order + [next];
      pending := pending - {next};
    }
    forall n
      ensures !Ready(g, order, n)
    {
      HeapHoldsReady(g, order, counts, heap, pending, n);
    }
    NoReadyNodeLeft(g, order);
    if |order| != |g.nodes| {
      return Err(CircularDependencies);
    }
    return Ok(order);
  }

  lemma {:induction false} GreedyExtends(g: Graph, order: seq<GraphNode>, next: GraphNode)
    requires WellFormed(g) && Greedy(g, order) && LeastReady(g, order, next)
    ensures Greedy(g, order + [next])
    ensures |order| < |g.nodes|
  {
    var longer := order + [next];
    forall i | 0 <= i < |longer|
      ensures LeastReady(g, longer[..i], longer[i])
    {
      assert longer[..i] == if i < |order| then order[..i] else order;
      if i < |order| {
        assert LeastReady(g, order[..i], order[i]);
      }
    }
    GreedyDistinct(g, longer);
    DistinctFits(longer, g.nodes);
  }

  /** Collects the nodes that depend on nothing. */
  method InitialHeap(g: Graph, counts: map<GraphNode, nat>) returns (heap: multiset<GraphNode>)
    requires WellFormed(g)
    ensures forall n :: heap[n] == if n in g.nodes && CountOf(counts, n) == 0 then 1 else 0
  {
    heap := multiset{};
    for i := 0 to |g.nodes|
      invariant forall n :: heap[n] == if n in g.nodes[..i] && CountOf(counts, n) == 0 then 1 else 0
    {
      var n := g.nodes[i];
      assert n !in g.nodes[..i];
      assert g.nodes[..i + 1] == g.nodes[..i] + [n];
      if CountOf(counts, n) == 0 {
        heap := heap + multiset{n};
      }
    }
    assert g.nodes[..|g.nodes|] == g.nodes;
  }

  /** Takes back the edges of a popped node and pushes the dependants that became
      ready. The counters never go below zero. */
  method ReleaseDependants(g: Graph, ghost order: seq<GraphNode>, counts0: map<GraphNode, nat>,
                           heap0: multiset<GraphNode>, ghost pending: set<GraphNode>, popped: GraphNode)
    returns (counts: map<GraphNode, nat>, heap: multiset<GraphNode>)
    requires WellFormed(g) && Counted(g, order, counts0, heap0 + multiset{popped}, pending)
    ensures Counted(g, order + [popped], counts, heap, pending - {popped})
  {
    counts, heap := counts0, heap0;
    ghost var rest := pending - {popped};
    ghost var waiting := Elements(g.nodes) - Elements(order) - {popped};
    PoppedEdges(g, order, counts0, heap0, pending, popped);
    forall n | n in EdgesOf(g, popped)
      ensures n in waiting
    {
      PoppedTargetsWait(g, order, counts0, heap0, pending, popped, n);
    }
    if popped in g.dependants {
      counts, heap := RemoveEdges(g.dependants[popped], counts, heap, Targets(g, g.nodes, rest), waiting);
    }
    StillCounted(g, order, counts, heap, pending, popped);
  }

  ghost function EdgesOf(g: Graph, n: GraphNode): multiset<GraphNode> {
    if n in g.dependants then multiset(g.dependants[n]) else multiset{}
  }

  lemma {:induction false} PendingSplits(g: Graph, pending: set<GraphNode>, popped: GraphNode)
    requires WellFormed(g) && popped in g.nodes
    requires popped in pending <==> popped in g.dependants
    ensures Targets(g, g.nodes, pending) == Targets(g, g.nodes, pending - {popped}) + EdgesOf(g, popped)
  {
    if popped in g.dependants {
      TargetsAdd(g, g.nodes, pending - {popped}, popped);
      assert pending - {popped} + {popped} == pending;
    } else {
      assert pending - {popped} == pending;
    }
  }

  /** What is counted when a node is popped: its own edges and those of the other
      pending sources. */
  lemma {:induction false} PoppedEdges(g: Graph, order: seq<GraphNode>, counts: map<GraphNode, nat>,
                                       heap: multiset<GraphNode>, pending: set<GraphNode>, popped: GraphNode)
    requires WellFormed(g) && Counted(g, order, counts, heap + multiset{popped}, pending)
    ensures Balanced(counts, heap, Targets(g, g.nodes, pending - {popped}), EdgesOf(g, popped),
                     Elements(g.nodes) - Elements(order) - {popped})
  {
    assert (heap + multiset{popped})[popped] == heap[popped] + 1;
    assert forall n :: n != popped ==> (heap + multiset{popped})[n] == heap[n];
    PendingSplits(g, pending, popped);
  }

  /** All edges of the popped node lead to nodes that wait. */
  lemma {:induction false} PoppedTargetsWait(g: Graph, order: seq<GraphNode>, counts: map<GraphNode, nat>,
                                             heap: multiset<GraphNode>, pending: set<GraphNode>, popped: GraphNode,
                                             n: GraphNode)
    requires WellFormed(g) && Counted(g, order, counts, heap + multiset{popped}, pending)
    requires n in EdgesOf(g, popped)
    ensures n in Elements(g.nodes) - Elements(order) - {popped}
  {
    assert (heap + multiset{popped})[popped] >= 1;
    PendingSplits(g, pending, popped);
    assert CountOf(counts, n) > 0;
    assert Edge(g, popped, n);
  }

  lemma {:induction false} StillCounted(g: Graph, order: seq<GraphNode>, counts: map<GraphNode, nat>,
                                        heap: multiset<GraphNode>, pending: set<GraphNode>, popped: GraphNode)
    requires forall n :: n in pending <==> n in g.dependants && n !in order
    requires forall n :: n in order + [popped] ==> CountOf(counts, n) == 0
    requires Balanced(counts, heap, Targets(g, g.nodes, pending - {popped}), multiset{},
                      Elements(g.nodes) - Elements(order) - {popped})
    ensures Counted(g, order + [popped], counts, heap, pending - {popped})
  {
  }

  /** The counters cover the edges in `rest` and those in `other`, and the heap holds
      the waiting nodes whose counter is zero. */
  ghost predicate Balanced(counts: map<GraphNode, nat>, heap: multiset<GraphNode>, other: multiset<GraphNode>,
                           rest: multiset<GraphNode>, waiting: set<GraphNode>)
  {
    && (forall n :: CountOf(counts, n) == other[n] + rest[n])
    && (forall n :: heap[n] == if n in waiting && CountOf(counts, n) == 0 then 1 else 0)
  }

  lemma {:induction false} BalancedStep(counts: map<GraphNode, nat>, heap: multiset<GraphNode>,
                                        other: multiset<GraphNode>, rest: multiset<GraphNode>,
                                        waiting: set<GraphNode>, to: GraphNode)
    requires Balanced(counts, heap, other, rest + multiset{to}, waiting) && to in waiting
    ensures CountOf(counts, to) > 0 && to in counts
    ensures var less := counts[to := CountOf(counts, to) - 1];
            Balanced(less, if less[to] == 0 then heap + multiset{to} else heap, other, rest, waiting)
  {
    assert (rest + multiset{to})[to] == rest[to] + 1;
    assert forall n :: n != to ==> (rest + multiset{to})[n] == rest[n];
  }

  /** Removes one edge to each of the targets. `other` counts the edges that stay. */
  method RemoveEdges(targets: seq<GraphNode>, counts0: map<GraphNode, nat>, heap0: multiset<GraphNode>,
                     ghost other: multiset<GraphNode>, ghost waiting: set<GraphNode>)
    returns (counts: map<GraphNode, nat>, heap: multiset<GraphNode>)
    requires Balanced(counts0, heap0, other, multiset(targets), waiting)
    requires forall n :: n in targets ==> n in waiting
    ensures Balanced(counts, heap, other, multiset{}, waiting)
  {
    counts, heap := counts0, heap0;
    assert targets[0..] == targets;
    for i := 0 to |targets|
      invariant Balanced(counts, heap, other, multiset(targets[i..]), waiting)
    {
      var to := targets[i];
      assert targets[i..] == [to] + targets[i + 1..];
      assert multiset(targets[i..]) == multiset(targets[i + 1..]) + multiset{to};
      BalancedStep(counts, heap, other, multiset(targets[i + 1..]), waiting, to);
      counts := counts[to := CountOf(counts, to) - 1];
      if counts[to] == 0 {
        heap := heap + multiset{to};
      }
    }
  }
}
