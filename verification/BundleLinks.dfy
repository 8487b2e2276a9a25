/** Turning export bundles back into preload dependencies, and the load order that comes
    out when the result is sorted again. */
module BundleLinks {
  import opened Zen
  import opened Sequences
  import opened LoadOrder
  import opened PreloadGraph
  import opened Bundles

  // ------------------------------------------------------ collecting dependencies

  /** `from` has to complete before the entry `to`. */
  datatype Link = Link(from: DependencyNode, to: BundleEntry)

  predicate IsSelfLink(l: Link) {
    l.from.packageIndex == CreateExport(l.to.exportIndex)
  }

  /** An export may wait for itself only to be created before it is serialized. */
  predicate IsAllowed(l: Link) {
    IsSelfLink(l) ==> l.from.command.Create? && l.to.command.Serialize?
  }

  /** What export `e` collects from the links for one kind of dependency. */
  ghost function Collect(links: seq<Link>, e: nat, from: CommandType, to: CommandType): seq<PackageIndex> {
    if links == [] then []
    else
      var l := links[|links| - 1];
      Collect(links[..|links| - 1], e, from, to)
      + (if l.to == BundleEntry(e, to) && l.from.command == from && !IsSelfLink(l) then [l.from.packageIndex] else [])
  }

  ghost function Collected(links: seq<Link>, e: nat): ExportDependencies {
    ExportDependencies(Collect(links, e, Serialize, Serialize), Collect(links, e, Create, Serialize),
                       Collect(links, e, Serialize, Create), Collect(links, e, Create, Create))
  }

  lemma {:induction false} CollectContains(links: seq<Link>, e: nat, from: CommandType, to: CommandType,
                                           p: PackageIndex)
    ensures p in Collect(links, e, from, to) <==>
              p != CreateExport(e) && Link(DependencyNode(p, from), BundleEntry(e, to)) in links
  {
    if links != [] {
      var n := |links| - 1;
      CollectContains(links[..n], e, from, to, p);
      assert links == links[..n] + [links[n]];
    }
  }

  datatype ResolveError = InvalidBundleComposition

  /** The exports' dependencies hold exactly what the links say. */
  ghost predicate Collects(deps: seq<ExportDependencies>, links: seq<Link>) {
    forall e :: 0 <= e < |deps| ==> deps[e] == Collected(links, e)
  }

  /** Adds one dependency. */
  method AddExportDependency(deps: seq<ExportDependencies>, l: Link, ghost links: seq<Link>)
    returns (r: Result<seq<ExportDependencies>, ResolveError>)
    requires l.to.exportIndex < |deps| && Collects(deps, links)
    ensures r.Ok? <==> IsAllowed(l)
    ensures r.Ok? ==> |r.value| == |deps| && Collects(r.value, links + [l])
  {
    var e := l.to.exportIndex;
    var d, p := deps[e], l.from.packageIndex;
    assert (links + [l])[..|links|] == links;
    if IsSelfLink(l) {
      if !l.from.command.Create? || !l.to.command.Serialize? {
        return Err(InvalidBundleComposition);
      }
      return Ok(deps);
    }
    match (l.to.command, l.from.command) {
    case (Create, Create) => d := d.(createBeforeCreate := d.createBeforeCreate + [p]);
    case (Create, Serialize) => d := d.(serializeBeforeCreate := d.serializeBeforeCreate + [p]);
    case (Serialize, Create) => d := d.(createBeforeSerialize := d.createBeforeSerialize + [p]);
    case (Serialize, Serialize) => d := d.(serializeBeforeSerialize := d.serializeBeforeSerialize + [p]);
    }
    return Ok(deps[e := d]);
  }

  // --------------------------------------------------------- the links of a package

  /** Entries first+1 to last-1 each follow the entry before them. */
  ghost function Successions(entries: seq<BundleEntry>, first: nat, last: nat): (r: seq<Link>)
    requires first < last <= |entries|
    ensures |r| == last - 1 - first
    ensures forall k :: 0 <= k < |r| ==> r[k] == Link(NodeOf(entries[first + k]), entries[first + k + 1])
  {
    seq(last - 1 - first, k requires 0 <= k < last - 1 - first =>
        Link(NodeOf(entries[first + k]), entries[first + k + 1]))
  }

  ghost function BundleSuccessions(headers: seq<BundleHeader>, entries: seq<BundleEntry>, n: nat): seq<Link>
    requires Tiles(headers, |entries|) && n <= |headers|
  {
    if n == 0 then []
    else
      TilesBounds(headers, |entries|, n - 1);
      BundleSuccessions(headers, entries, n - 1) +
          Successions(entries, headers[n - 1].firstEntry, BundleEnd(headers[n - 1]))
  }

  predicate ArcInRange(a: InternalArc, count: nat) {
    0 <= a.fromBundle < count && 0 <= a.toBundle < count
  }

  /** The last entry of a bundle comes before the first entry of another. */
  function ArcLink(headers: seq<BundleHeader>, entries: seq<BundleEntry>, a: InternalArc): Link
    requires ArcInRange(a, |headers|)
    requires 0 < BundleEnd(headers[a.fromBundle]) <= |entries| && headers[a.toBundle].firstEntry < |entries|
  {
    Link(NodeOf(entries[BundleEnd(headers[a.fromBundle]) - 1]), entries[headers[a.toBundle].firstEntry])
  }

  /** A dependency of a bundle on an object of another package. */
  datatype OuterArc = OuterArc(from: DependencyNode, toBundle: nat)

  /** The arcs that are processed: before UE5 each bundle also follows the previous one. */
  ghost function AllArcs(arcs: seq<InternalArc>, legacy: bool, bundleCount: nat): seq<InternalArc> {
    if legacy && bundleCount > 1 then
      arcs + seq(bundleCount - 1, k requires 0 <= k < bundleCount - 1 => InternalArc(k, k + 1))
    else arcs
  }

  ghost predicate ArcsInRange(headers: seq<BundleHeader>, arcs: seq<InternalArc>, outer: seq<OuterArc>) {
    && (forall k :: 0 <= k < |arcs| ==> ArcInRange(arcs[k], |headers|))
    && (forall k :: 0 <= k < |outer| ==> outer[k].toBundle < |headers| && outer[k].from.packageIndex.IsImport())
  }

  ghost function ArcLinks(headers: seq<BundleHeader>, entries: seq<BundleEntry>, arcs: seq<InternalArc>): (r: seq<Link>)
    requires Tiles(headers, |entries|)
    requires forall k :: 0 <= k < |arcs| ==> ArcInRange(arcs[k], |headers|)
    ensures |r| == |arcs|
  {
    BundlesInRange(headers, |entries|);
    seq(|arcs|, k requires 0 <= k < |arcs| => ArcLink(headers, entries, arcs[k]))
  }

  ghost function OuterLinks(headers: seq<BundleHeader>, entries: seq<BundleEntry>, outer: seq<OuterArc>): (r: seq<Link>)
    requires Tiles(headers, |entries|)
    requires forall k :: 0 <= k < |outer| ==> outer[k].toBundle < |headers|
    ensures |r| == |outer|
  {
    BundlesInRange(headers, |entries|);
    seq(|outer|, k requires 0 <= k < |outer| => Link(outer[k].from, entries[headers[outer[k].toBundle].firstEntry]))
  }

  ghost function AllLinks(headers: seq<BundleHeader>, entries: seq<BundleEntry>, arcs: seq<InternalArc>, legacy: bool,
                          outer: seq<OuterArc>): seq<Link>
    requires Tiles(headers, |entries|) && ArcsInRange(headers, arcs, outer)
  {
    BundleSuccessions(headers, entries, |headers|)
    + ArcLinks(headers, entries, AllArcs(arcs, legacy, |headers|))
    + OuterLinks(headers, entries, outer)
  }

  lemma {:induction false} BundlesInRange(headers: seq<BundleHeader>, n: nat)
    requires Tiles(headers, n)
    ensures forall b :: 0 <= b < |headers| ==> headers[b].firstEntry < BundleEnd(headers[b]) <= n
  {
    forall b | 0 <= b < |headers|
      ensures BundleEnd(headers[b]) <= n
    {
      TilesBounds(headers, n, b);
    }
  }

  ghost predicate AllAllowed(links: seq<Link>) {
    forall k :: 0 <= k < |links| ==> IsAllowed(links[k])
  }

  /** Adds a run of links, stopping at one that is not allowed. */
  method AddLinks(deps0: seq<ExportDependencies>, added: seq<Link>, ghost links: seq<Link>)
    returns (r: Result<seq<ExportDependencies>, ResolveError>)
    requires forall k :: 0 <= k < |added| ==> added[k].to.exportIndex < |deps0|
    requires Collects(deps0, links)
    ensures r.Ok? <==> AllAllowed(added)
    ensures r.Ok? ==> |r.value| == |deps0| && Collects(r.value, links + added)
  {
    var deps := deps0;
    assert links + added[..0] == links;
    for k := 0 to |added|
      invariant |deps| == |deps0| && Collects(deps, links + added[..k])
      invariant forall j :: 0 <= j < k ==> IsAllowed(added[j])
    {
      var next := AddExportDependency(deps, added[k], links + added[..k]);
      if next.Err? {
        return Err(next.error);
      }
      deps := next.value;
      assert links + added[..k + 1] == links + added[..k] + [added[k]];
    }
    assert added[..|added|] == added;
    return Ok(deps);
  }

  lemma {:induction false} EarlierSuccessions(headers: seq<BundleHeader>, entries: seq<BundleEntry>, m: nat, n: nat)
    requires Tiles(headers, |entries|) && m <= n <= |headers|
    requires AllAllowed(BundleSuccessions(headers, entries, n))
    ensures AllAllowed(BundleSuccessions(headers, entries, m))
    decreases n
  {
    if m < n {
      var before := BundleSuccessions(headers, entries, n - 1);
      assert forall k :: 0 <= k < |before| ==> before[k] == BundleSuccessions(headers, entries, n)[k];
      EarlierSuccessions(headers, entries, m, n - 1);
    }
  }

  /** Links the entries inside each bundle. */
  method LinkBundles(headers: seq<BundleHeader>, entries: seq<BundleEntry>, exportCount: nat)
    returns (r: Result<seq<ExportDependencies>, ResolveError>)
    requires Tiles(headers, |entries|) && InRange(entries, exportCount)
    ensures r.Ok? <==> AllAllowed(BundleSuccessions(headers, entries, |headers|))
    ensures r.Ok? ==> |r.value| == exportCount && Collects(r.value, BundleSuccessions(headers, entries, |headers|))
  {
    var deps := seq(exportCount, _ => NO_DEPENDENCIES);
    for b := 0 to |headers|
      invariant |deps| == exportCount && Collects(deps, BundleSuccessions(headers, entries, b))
      invariant AllAllowed(BundleSuccessions(headers, entries, b))
    {
      TilesBounds(headers, |entries|, b);
      var added := LinkEntries(entries, headers[b].firstEntry, BundleEnd(headers[b]));
      var next := AddLinks(deps, added, BundleSuccessions(headers, entries, b));
      AllowedPair(BundleSuccessions(headers, entries, b), added);
      if next.Err? {
        if AllAllowed(BundleSuccessions(headers, entries, |headers|)) {
          EarlierSuccessions(headers, entries, b + 1, |headers|);
          assert false;
        }
        return Err(next.error);
      }
      deps := next.value;
    }
    return Ok(deps);
  }

  lemma {:induction false} AllowedPair(a: seq<Link>, b: seq<Link>)
    ensures AllAllowed(a + b) <==> AllAllowed(a) && AllAllowed(b)
  {
    assert forall k :: 0 <= k < |a| ==> (a + b)[k] == a[k];
    assert forall k :: 0 <= k < |b| ==> (a + b)[|a| + k] == b[k];
  }

  /** The successions in entries first to last-1. */
  method LinkEntries(entries: seq<BundleEntry>, first: nat, last: nat) returns (added: seq<Link>)
    requires first < last <= |entries|
    ensures added == Successions(entries, first, last)
  {
    added := [];
    for i := first + 1 to last
      invariant |added| == i - 1 - first
      invariant forall k :: 0 <= k < |added| ==> added[k] == Link(NodeOf(entries[first + k]), entries[first + k + 1])
    {
      added := added + [Link(NodeOf(entries[i - 1]), entries[i])];
    }
  }

  /** The arcs to process. */
  method CompleteArcs(arcs: seq<InternalArc>, legacy: bool, bundleCount: nat) returns (all: seq<InternalArc>)
    ensures all == AllArcs(arcs, legacy, bundleCount)
    ensures forall a :: a in all <==>
              a in arcs || (legacy && 0 <= a.fromBundle && a.toBundle == a.fromBundle + 1 < bundleCount)
  {
    all := arcs;
    if legacy && bundleCount > 1 {
      for b := 1 to bundleCount
        invariant all == arcs + seq(b - 1, k requires 0 <= k < b - 1 => InternalArc(k, k + 1))
      {
        all := all + [InternalArc(b - 1, b)];
      }
    }
    forall a
      ensures a in AllArcs(arcs, legacy, bundleCount) <==>
                a in arcs || (legacy && 0 <= a.fromBundle && a.toBundle == a.fromBundle + 1 < bundleCount)
    {
      AllArcsContain(arcs, legacy, bundleCount, a);
    }
  }

  // ------------------------------------------ what has to come before an entry

  ghost predicate IsCommand(from: DependencyNode, x: BundleEntry) {
    from.packageIndex.index == x.exportIndex + 1 && from.command == x.command
  }

  /** Entries i and i + 1 of bundle `b` are `from` and `to`. */
  ghost predicate NextAt(headers: seq<BundleHeader>, entries: seq<BundleEntry>, b: nat, i: nat, from: DependencyNode,
                         to: BundleEntry)
  {
    && b < |headers| && headers[b].firstEntry <= i && i + 1 < headers[b].firstEntry + headers[b].entryCount
    && i + 1 < |entries| && IsCommand(from, entries[i]) && to == entries[i + 1]
  }

  /** `from` is the last entry of bundle `x` and `to` the first entry of bundle `y`. */
  ghost predicate Joined(headers: seq<BundleHeader>, entries: seq<BundleEntry>, x: int, y: int, from: DependencyNode,
                         to: BundleEntry)
  {
    && 0 <= x < |headers| && 0 <= y < |headers|
    && 0 < headers[x].firstEntry + headers[x].entryCount <= |entries| && headers[y].firstEntry < |entries|
    && IsCommand(from, entries[headers[x].firstEntry + headers[x].entryCount - 1])
    && to == entries[headers[y].firstEntry]
  }

  ghost predicate JoinedByArc(headers: seq<BundleHeader>, entries: seq<BundleEntry>, arcs: seq<InternalArc>,
                              from: DependencyNode, to: BundleEntry)
  {
    exists a :: a in arcs && Joined(headers, entries, a.fromBundle, a.toBundle, from, to)
  }

  ghost predicate JoinedInTurn(headers: seq<BundleHeader>, entries: seq<BundleEntry>, from: DependencyNode,
                               to: BundleEntry)
  {
    exists x, y :: y == x + 1 && Joined(headers, entries, x, y, from, to)
  }

  ghost predicate FromOutside(headers: seq<BundleHeader>, entries: seq<BundleEntry>, outer: seq<OuterArc>,
                              from: DependencyNode, to: BundleEntry)
  {
    exists o :: o in outer && o.from == from && o.toBundle < |headers| && headers[o.toBundle].firstEntry < |entries|
      && to == entries[headers[o.toBundle].firstEntry]
  }

  /** `from` has to complete before entry `to`: because it is the entry before it in a bundle,
      because of an arc between their bundles, before UE5 because the one bundle follows the
      other, or because a dependency on another package says so. */
  ghost predicate MustPrecede(headers: seq<BundleHeader>, entries: seq<BundleEntry>, arcs: seq<InternalArc>,
                              legacy: bool, outer: seq<OuterArc>, from: DependencyNode, to: BundleEntry)
  {
    || (exists b: nat, i: nat :: NextAt(headers, entries, b, i, from, to))
    || JoinedByArc(headers, entries, arcs, from, to)
    || (legacy && JoinedInTurn(headers, entries, from, to))
    || FromOutside(headers, entries, outer, from, to)
  }

  /** The exports wait for what has to precede their commands, except for themselves, and for
      nothing else. */
  ghost predicate WaitsAreThose(deps: seq<ExportDependencies>, headers: seq<BundleHeader>, entries: seq<BundleEntry>,
                                arcs: seq<InternalArc>, legacy: bool, outer: seq<OuterArc>)
  {
    forall p, from, e: nat, to {:trigger Waits(deps, p, from, e, to)} :: e < |deps| ==>
      (Waits(deps, p, from, e, to) <==>
         p.index != e + 1
         && MustPrecede(headers, entries, arcs, legacy, outer, DependencyNode(p, from), BundleEntry(e, to)))
  }

  /** Command `to` of export `e` waits for command `from` of the object. */
  ghost predicate Waits(deps: seq<ExportDependencies>, p: PackageIndex, from: CommandType, e: nat, to: CommandType)
    requires e < |deps|
  {
    match (from, to)
    case (Create, Create) => p in deps[e].createBeforeCreate
    case (Serialize, Create) => p in deps[e].serializeBeforeCreate
    case (Create, Serialize) => p in deps[e].createBeforeSerialize
    case (Serialize, Serialize) => p in deps[e].serializeBeforeSerialize
  }

  /** No export has to precede itself, unless to be created before it is serialized. */
  ghost predicate NoneBeforeItself(headers: seq<BundleHeader>, entries: seq<BundleEntry>, arcs: seq<InternalArc>,
                                   legacy: bool, outer: seq<OuterArc>)
  {
    forall from, to :: MustPrecede(headers, entries, arcs, legacy, outer, from, to) ==>
      from.packageIndex.index != to.exportIndex + 1 || (from.command == Create && to.command == Serialize)
  }

  lemma {:induction false} SuccessionIff(headers: seq<BundleHeader>, entries: seq<BundleEntry>, l: Link)
    requires Tiles(headers, |entries|)
    ensures l in BundleSuccessions(headers, entries, |headers|) <==>
              exists b: nat, i: nat :: NextAt(headers, entries, b, i, l.from, l.to)
  {
    if l in BundleSuccessions(headers, entries, |headers|) {
      var b, i := SuccessionAt(headers, entries, |headers|, l);
    }
    if exists b: nat, i: nat :: NextAt(headers, entries, b, i, l.from, l.to) {
      var b: nat, i: nat :| NextAt(headers, entries, b, i, l.from, l.to);
      SuccessionIsLinked(headers, entries, |headers|, b, i);
      assert l == Link(NodeOf(entries[i]), entries[i + 1]);
    }
  }

  lemma {:induction false} SuccessionAt(headers: seq<BundleHeader>, entries: seq<BundleEntry>, n: nat, l: Link)
    returns (b: nat, i: nat)
    requires Tiles(headers, |entries|) && n <= |headers| && l in BundleSuccessions(headers, entries, n)
    ensures NextAt(headers, entries, b, i, l.from, l.to)
  {
    if l in BundleSuccessions(headers, entries, n - 1) {
      b, i := SuccessionAt(headers, entries, n - 1, l);
    } else {
      b := n - 1;
      TilesBounds(headers, |entries|, b);
      var s := Successions(entries, headers[b].firstEntry, BundleEnd(headers[b]));
      var k :| 0 <= k < |s| && s[k] == l;
      i := headers[b].firstEntry + k;
    }
  }

  lemma {:induction false} ArcLinkIff(headers: seq<BundleHeader>, entries: seq<BundleEntry>, a: InternalArc, l: Link)
    requires Tiles(headers, |entries|) && ArcInRange(a, |headers|)
    ensures 0 < BundleEnd(headers[a.fromBundle]) <= |entries| && headers[a.toBundle].firstEntry < |entries|
    ensures l == ArcLink(headers, entries, a) <==> Joined(headers, entries, a.fromBundle, a.toBundle, l.from, l.to)
  {
    BundlesInRange(headers, |entries|);
  }

  lemma {:induction false} ArcLinksIff(headers: seq<BundleHeader>, entries: seq<BundleEntry>, arcs: seq<InternalArc>,
                                       l: Link)
    requires Tiles(headers, |entries|) && forall k :: 0 <= k < |arcs| ==> ArcInRange(arcs[k], |headers|)
    ensures l in ArcLinks(headers, entries, arcs) <==> JoinedByArc(headers, entries, arcs, l.from, l.to)
  {
    var links := ArcLinks(headers, entries, arcs);
    forall k | 0 <= k < |arcs|
      ensures links[k] == l <==> Joined(headers, entries, arcs[k].fromBundle, arcs[k].toBundle, l.from, l.to)
    {
      ArcLinkIff(headers, entries, arcs[k], l);
    }
  }

  lemma {:induction false} JoinedByAll(headers: seq<BundleHeader>, entries: seq<BundleEntry>, arcs: seq<InternalArc>,
                                       legacy: bool, l: Link)
    ensures JoinedByArc(headers, entries, AllArcs(arcs, legacy, |headers|), l.from, l.to) <==>
              JoinedByArc(headers, entries, arcs, l.from, l.to) ||
              (legacy && JoinedInTurn(headers, entries, l.from, l.to))
  {
    var all := AllArcs(arcs, legacy, |headers|);
    forall a
      ensures a in all <==>
                a in arcs || (legacy && 0 <= a.fromBundle && a.toBundle == a.fromBundle + 1 < |headers|)
    {
      AllArcsContain(arcs, legacy, |headers|, a);
    }
    if legacy && JoinedInTurn(headers, entries, l.from, l.to) {
      var x, y :| y == x + 1 && Joined(headers, entries, x, y, l.from, l.to);
      assert InternalArc(x, y) in all;
    }
  }

  lemma {:induction false} AllArcsContain(arcs: seq<InternalArc>, legacy: bool, n: nat, a: InternalArc)
    ensures a in AllArcs(arcs, legacy, n) <==>
              a in arcs || (legacy && 0 <= a.fromBundle && a.toBundle == a.fromBundle + 1 < n)
  {
    if legacy && n > 1 {
      var chain := seq(n - 1, k requires 0 <= k < n - 1 => InternalArc(k, k + 1));
      if 0 <= a.fromBundle && a.toBundle == a.fromBundle + 1 < n {
        assert chain[a.fromBundle] == a;
      }
      assert a in AllArcs(arcs, legacy, n) <==> a in arcs || a in chain;
    }
  }

  lemma {:induction false} OuterLinksIff(headers: seq<BundleHeader>, entries: seq<BundleEntry>, outer: seq<OuterArc>,
                                         l: Link)
    requires Tiles(headers, |entries|) && forall k :: 0 <= k < |outer| ==> outer[k].toBundle < |headers|
    ensures l in OuterLinks(headers, entries, outer) <==> FromOutside(headers, entries, outer, l.from, l.to)
  {
    BundlesInRange(headers, |entries|);
    var links := OuterLinks(headers, entries, outer);
    if FromOutside(headers, entries, outer, l.from, l.to) {
      var k :| 0 <= k < |outer| && outer[k].from == l.from && l.to == entries[headers[outer[k].toBundle].firstEntry];
      assert links[k] == l;
    }
  }

  /** The links that are processed are those between what has to precede and what follows. */
  lemma {:induction false} LinkIff(headers: seq<BundleHeader>, entries: seq<BundleEntry>, arcs: seq<InternalArc>,
                                   legacy: bool, outer: seq<OuterArc>, l: Link)
    requires Tiles(headers, |entries|) && ArcsInRange(headers, arcs, outer)
    ensures l in AllLinks(headers, entries, arcs, legacy, outer) <==>
              MustPrecede(headers, entries, arcs, legacy, outer, l.from, l.to)
  {
    SuccessionIff(headers, entries, l);
    ArcLinksIff(headers, entries, AllArcs(arcs, legacy, |headers|), l);
    JoinedByAll(headers, entries, arcs, legacy, l);
    OuterLinksIff(headers, entries, outer, l);
  }

  /** Whatever was collected from the links is what the exports have to wait for. */
  lemma {:induction false} CollectedWaits(headers: seq<BundleHeader>, entries: seq<BundleEntry>, arcs: seq<InternalArc>,
                                          legacy: bool, outer: seq<OuterArc>, deps: seq<ExportDependencies>)
    requires Tiles(headers, |entries|) && ArcsInRange(headers, arcs, outer)
    requires Collects(deps, AllLinks(headers, entries, arcs, legacy, outer))
    ensures WaitsAreThose(deps, headers, entries, arcs, legacy, outer)
  {
    var links := AllLinks(headers, entries, arcs, legacy, outer);
    forall p, from, e: nat, to | e < |deps|
      ensures Waits(deps, p, from, e, to) <==>
                p.index != e + 1
                && MustPrecede(headers, entries, arcs, legacy, outer, DependencyNode(p, from), BundleEntry(e, to))
    {
      LinkIff(headers, entries, arcs, legacy, outer, Link(DependencyNode(p, from), BundleEntry(e, to)));
      CollectedWait(deps, links, p, from, e, to);
    }
  }

  lemma {:induction false} CollectedWait(deps: seq<ExportDependencies>, links: seq<Link>, p: PackageIndex,
                                         from: CommandType, e: nat, to: CommandType)
    requires e < |deps| && Collects(deps, links)
    ensures Waits(deps, p, from, e, to) <==>
              p.index != e + 1 && Link(DependencyNode(p, from), BundleEntry(e, to)) in links
  {
    CollectContains(links, e, from, to, p);
    assert deps[e] == Collected(links, e);
  }

  lemma {:induction false} AllowedIff(headers: seq<BundleHeader>, entries: seq<BundleEntry>, arcs: seq<InternalArc>,
                                      legacy: bool, outer: seq<OuterArc>)
    requires Tiles(headers, |entries|) && ArcsInRange(headers, arcs, outer)
    ensures AllAllowed(AllLinks(headers, entries, arcs, legacy, outer)) <==>
              NoneBeforeItself(headers, entries, arcs, legacy, outer)
  {
    var links := AllLinks(headers, entries, arcs, legacy, outer);
    if AllAllowed(links) {
      forall from, to | MustPrecede(headers, entries, arcs, legacy, outer, from, to)
        ensures from.packageIndex.index != to.exportIndex + 1 || (from.command == Create && to.command == Serialize)
      {
        LinkIff(headers, entries, arcs, legacy, outer, Link(from, to));
        var k :| 0 <= k < |links| && links[k] == Link(from, to);
        assert IsAllowed(links[k]);
      }
    }
    if NoneBeforeItself(headers, entries, arcs, legacy, outer) {
      forall k | 0 <= k < |links|
        ensures IsAllowed(links[k])
      {
        LinkIff(headers, entries, arcs, legacy, outer, links[k]);
      }
    }
  }

  /** Turns the bundles of a package into the dependencies of its exports. It fails exactly
      when the bundles make an export wait for itself in an impossible way. */
  method ResolveExportDependencies(headers: seq<BundleHeader>, entries: seq<BundleEntry>, arcs: seq<InternalArc>,
                                   legacy: bool, outer: seq<OuterArc>, exportCount: nat)
    returns (r: Result<seq<ExportDependencies>, ResolveError>)
    requires Tiles(headers, |entries|) && InRange(entries, exportCount) && ArcsInRange(headers, arcs, outer)
    ensures r.Ok? <==> AllAllowed(AllLinks(headers, entries, arcs, legacy, outer))
    ensures r.Ok? ==> |r.value| == exportCount && Collects(r.value, AllLinks(headers, entries, arcs, legacy, outer))
    ensures r.Ok? <==> NoneBeforeItself(headers, entries, arcs, legacy, outer)
    ensures r.Ok? ==> WaitsAreThose(r.value, headers, entries, arcs, legacy, outer)
  {
    BundlesInRange(headers, |entries|);
    AllowedIff(headers, entries, arcs, legacy, outer);
    ghost var a := BundleSuccessions(headers, entries, |headers|);
    ghost var b := ArcLinks(headers, entries, AllArcs(arcs, legacy, |headers|));
    ghost var c := OuterLinks(headers, entries, outer);
    AllowedPair(a, b);
    AllowedPair(a + b, c);
    r := LinkBundles(headers, entries, exportCount);
    if r.Ok? {
      var all := CompleteArcs(arcs, legacy, |headers|);
      var arcLinks := seq(|all|, k requires 0 <= k < |all| => ArcLink(headers, entries, all[k]));
      r := AddLinks(r.value, arcLinks, a);
    }
    if r.Ok? {
      var outerLinks := seq(|outer|, k requires 0 <= k < |outer| =>
        Link(outer[k].from, entries[headers[outer[k].toBundle].firstEntry]));
      r := AddLinks(r.value, outerLinks, a + b);
    }
    if r.Ok? {
      CollectedWaits(headers, entries, arcs, legacy, outer, r.value);
    }
  }

  // --------------------------------------------------- what depends on what

  function Kind(d: ExportDependencies, from: CommandType, to: CommandType): seq<PackageIndex> {
    match (from, to)
    case (Create, Create) => d.createBeforeCreate
    case (Serialize, Create) => d.serializeBeforeCreate
    case (Create, Serialize) => d.createBeforeSerialize
    case (Serialize, Serialize) => d.serializeBeforeSerialize
  }

  lemma {:induction false} TaggedContains(list: seq<PackageIndex>, c: CommandType, d: DependencyNode)
    ensures d in Tagged(list, c) <==> d.command == c && d.packageIndex in list
  {
    if d.command == c && d.packageIndex in list {
      var i :| 0 <= i < |list| && list[i] == d.packageIndex;
      assert Tagged(list, c)[i] == d;
    }
  }

  lemma {:induction false} DependencyKind(e: nat, to: CommandType, l: ExportDependencies, d: DependencyNode)
    ensures d in DependenciesOf(e, to, l) <==>
              d.packageIndex in Kind(l, d.command, to) || (to.Serialize? && d == ExportNode(e, Create))
  {
    TaggedContains(l.createBeforeCreate, Create, d);
    TaggedContains(l.serializeBeforeCreate, Serialize, d);
    TaggedContains(l.createBeforeSerialize, Create, d);
    TaggedContains(l.serializeBeforeSerialize, Serialize, d);
  }

  /** The dependency map in terms of the dependency lists. */
  lemma {:induction false} DependsOnIs(m: DependencyMap, lists: seq<ExportDependencies>, e: nat, to: CommandType,
                                       d: DependencyNode)
    requires DescribesExports(m, lists) && e < |lists|
    ensures DependsOn(m, ExportNode(e, to), d) <==>
              d.packageIndex in Kind(lists[e], d.command, to) || (to.Serialize? && d == ExportNode(e, Create))
  {
    assert m[ExportNode(e, to)] == DependenciesOf(e, to, lists[e]);
    DependencyKind(e, to, lists[e], d);
  }

  /** The references of an export that completing its dependencies adds. */
  predicate AddedReference(ex: ObjectExport, createBeforeCreate: seq<PackageIndex>, from: CommandType,
                           to: CommandType, p: PackageIndex)
  {
    !p.IsNull() &&
    match (from, to)
    case (Create, Create) => p == ex.outerIndex
    case (Serialize, Create) => p == ex.classIndex || p == ex.templateIndex
    case (Create, Serialize) => false
    case (Serialize, Serialize) => p == ex.superIndex && p !in createBeforeCreate && p != ex.outerIndex
  }

  lemma {:induction false} CompletedIs(ex: ObjectExport, d: ExportDependencies, from: CommandType, to: CommandType,
                                       p: PackageIndex)
    ensures p in Kind(Completed(ex, d), from, to) <==>
              p in Kind(d, from, to) || AddedReference(ex, d.createBeforeCreate, from, to, p)
  {
  }

  /** Every export has both its commands among the entries, once. */
  ghost predicate Complete(entries: seq<BundleEntry>, exportCount: nat) {
    && InRange(entries, exportCount) && Distinct(entries)
    && forall e, c :: 0 <= e < exportCount ==> BundleEntry(e, c) in entries
  }

  ghost predicate Precedes(entries: seq<BundleEntry>, a: BundleEntry, b: BundleEntry) {
    exists i, j :: 0 <= i < j < |entries| && entries[i] == a && entries[j] == b
  }

  ghost predicate Follows(entries: seq<BundleEntry>, a: BundleEntry, b: BundleEntry) {
    exists i, j :: 0 <= i < |entries| - 1 && j == i + 1 && entries[i] == a && entries[j] == b
  }

  /** `p` refers to an export whose command `c` is loaded before `x`, or to no export. */
  ghost predicate ReferenceFirst(entries: seq<BundleEntry>, p: PackageIndex, c: CommandType, x: BundleEntry) {
    p.IsExport() ==> Precedes(entries, BundleEntry(p.ToExportIndex(), c), x)
  }

  /** The entries create every export before serializing it and load its outer, class,
      template and super in time. The super is exempt when it is also the outer or is
      created just before the export. */
  ghost predicate LoadsInOrder(entries: seq<BundleEntry>, exports: seq<ObjectExport>) {
    forall e :: 0 <= e < |exports| ==> LoadsExportInOrder(entries, exports[e], e)
  }

  ghost predicate LoadsExportInOrder(entries: seq<BundleEntry>, ex: ObjectExport, e: nat) {
    var create, serialize := BundleEntry(e, Create), BundleEntry(e, Serialize);
    && Precedes(entries, create, serialize)
    && ReferenceFirst(entries, ex.outerIndex, Create, create)
    && ReferenceFirst(entries, ex.classIndex, Serialize, create)
    && ReferenceFirst(entries, ex.templateIndex, Serialize, create)
    && SuperFirst(entries, ex, e)
  }

  ghost predicate SuperFirst(entries: seq<BundleEntry>, ex: ObjectExport, e: nat) {
    || ReferenceFirst(entries, ex.superIndex, Serialize, BundleEntry(e, Serialize))
    || ex.superIndex == ex.outerIndex
    || (ex.superIndex.ToExportIndex() != e &&
        Follows(entries, BundleEntry(ex.superIndex.ToExportIndex(), Create), BundleEntry(e, Create)))
  }

  /** The links of a package from before UE5: every entry follows the one before it, and
      the objects of other packages come before the bundles that need them. */
  lemma {:induction false} LegacyLinksAre(headers: seq<BundleHeader>, entries: seq<BundleEntry>, outer: seq<OuterArc>,
                                          l: Link)
    requires Tiles(headers, |entries|) && ArcsInRange(headers, [], outer)
    requires l.from.packageIndex.IsExport()
    ensures l in AllLinks(headers, entries, [], true, outer) <==>
              Follows(entries, BundleEntry(l.from.packageIndex.ToExportIndex(), l.from.command), l.to)
  {
    if l in AllLinks(headers, entries, [], true, outer) {
      LegacyLinkFollows(headers, entries, outer, l);
    }
    if Follows(entries, BundleEntry(l.from.packageIndex.ToExportIndex(), l.from.command), l.to) {
      var i :| 0 <= i < |entries| - 1 && NodeOf(entries[i]) == l.from && entries[i + 1] == l.to;
      FollowerIsLinked(headers, entries, outer, i);
    }
  }

  lemma {:induction false} LegacyLinkFollows(headers: seq<BundleHeader>, entries: seq<BundleEntry>,
                                             outer: seq<OuterArc>, l: Link)
    requires Tiles(headers, |entries|) && ArcsInRange(headers, [], outer)
    requires l.from.packageIndex.IsExport() && l in AllLinks(headers, entries, [], true, outer)
    ensures Follows(entries, BundleEntry(l.from.packageIndex.ToExportIndex(), l.from.command), l.to)
  {
    BundlesInRange(headers, |entries|);
    var b := ArcLinks(headers, entries, AllArcs([], true, |headers|));
    assert l !in OuterLinks(headers, entries, outer);
    if l in BundleSuccessions(headers, entries, |headers|) {
      SuccessionFollows(headers, entries, |headers|, l);
    } else {
      var k :| 0 <= k < |b| && b[k] == l;
      assert headers[k + 1].firstEntry == StartOf(headers, k + 1);
      var i, j := BundleEnd(headers[k]) - 1, BundleEnd(headers[k]);
      assert NodeOf(entries[i]) == l.from && entries[j] == l.to;
      assert entries[i] == BundleEntry(l.from.packageIndex.ToExportIndex(), l.from.command);
    }
  }

  lemma {:induction false} FollowerIsLinked(headers: seq<BundleHeader>, entries: seq<BundleEntry>,
                                            outer: seq<OuterArc>, i: nat)
    requires Tiles(headers, |entries|) && ArcsInRange(headers, [], outer) && i < |entries| - 1
    ensures Link(NodeOf(entries[i]), entries[i + 1]) in AllLinks(headers, entries, [], true, outer)
  {
    TilesPartition(headers, |entries|, i);
    var k :| InBundle(headers, k, i);
    if i + 1 < BundleEnd(headers[k]) {
      SuccessionIsLinked(headers, entries, |headers|, k, i);
    } else {
      assert StartOf(headers, k + 1) == BundleEnd(headers[k]) == i + 1;
      assert k < |headers| - 1;
      assert headers[k + 1].firstEntry == StartOf(headers, k + 1);
      BundlesInRange(headers, |entries|);
      var b := ArcLinks(headers, entries, AllArcs([], true, |headers|));
      assert b[k] == Link(NodeOf(entries[i]), entries[i + 1]);
    }
  }

  lemma {:induction false} SuccessionFollows(headers: seq<BundleHeader>, entries: seq<BundleEntry>, n: nat, l: Link)
    requires Tiles(headers, |entries|) && n <= |headers| && l in BundleSuccessions(headers, entries, n)
    ensures l.from.packageIndex.IsExport()
    ensures Follows(entries, BundleEntry(l.from.packageIndex.ToExportIndex(), l.from.command), l.to)
  {
    if l in BundleSuccessions(headers, entries, n - 1) {
      SuccessionFollows(headers, entries, n - 1, l);
    } else {
      TilesBounds(headers, |entries|, n - 1);
      var first := headers[n - 1].firstEntry;
      var s := Successions(entries, first, BundleEnd(headers[n - 1]));
      var k :| 0 <= k < |s| && s[k] == l;
      var i, j := first + k, first + k + 1;
      assert entries[i] == BundleEntry(l.from.packageIndex.ToExportIndex(), l.from.command) && entries[j] == l.to;
    }
  }

  lemma {:induction false} SuccessionIsLinked(headers: seq<BundleHeader>, entries: seq<BundleEntry>, n: nat, b: nat,
                                              i: nat)
    requires Tiles(headers, |entries|) && b < n <= |headers|
    requires InBundle(headers, b, i) && InBundle(headers, b, i + 1)
    ensures i + 1 < |entries| && Link(NodeOf(entries[i]), entries[i + 1]) in BundleSuccessions(headers, entries, n)
  {
    TilesBounds(headers, |entries|, b);
    if b < n - 1 {
      SuccessionIsLinked(headers, entries, n - 1, b, i);
    } else {
      var first := headers[b].firstEntry;
      assert Successions(entries, first, BundleEnd(headers[b]))[i - first] == Link(NodeOf(entries[i]), entries[i + 1]);
    }
  }

  // ------------------------------------------------------------- the round trip

  /** The dependencies written for the exports. */
  ghost predicate CompletesAll(lists: seq<ExportDependencies>, exports: seq<ObjectExport>,
                               deps: seq<ExportDependencies>)
  {
    && |lists| == |exports| == |deps|
    && forall e :: 0 <= e < |exports| ==> lists[e] == Completed(exports[e], deps[e])
  }

  /** Every dependency between exports goes forward in the entries. */
  ghost predicate Forward(m: DependencyMap, entries: seq<BundleEntry>) {
    forall a, b :: DependsOn(m, NodeOf(b), NodeOf(a)) ==> Precedes(entries, a, b)
  }

  /** Each export lists exactly what directly precedes its commands among the entries. */
  ghost predicate LinksSuccessors(deps: seq<ExportDependencies>, entries: seq<BundleEntry>) {
    forall a: BundleEntry, b: BundleEntry {:trigger ListsSuccessor(deps, entries, a, b)} ::
      b.exportIndex < |deps| ==> ListsSuccessor(deps, entries, a, b)
  }

  ghost predicate ListsSuccessor(deps: seq<ExportDependencies>, entries: seq<BundleEntry>, a: BundleEntry,
                                 b: BundleEntry)
    requires b.exportIndex < |deps|
  {
    CreateExport(a.exportIndex) in Kind(deps[b.exportIndex], a.command, b.command) <==>
      a.exportIndex != b.exportIndex && Follows(entries, a, b)
  }

  /** The dependencies resolved from the bundles of a package from before UE5. */
  lemma {:induction false} ResolvedLinksSuccessors(headers: seq<BundleHeader>, entries: seq<BundleEntry>,
                                                   outer: seq<OuterArc>, deps: seq<ExportDependencies>)
    requires Tiles(headers, |entries|) && ArcsInRange(headers, [], outer)
    requires Collects(deps, AllLinks(headers, entries, [], true, outer))
    ensures LinksSuccessors(deps, entries)
  {
    var links := AllLinks(headers, entries, [], true, outer);
    forall a: BundleEntry, b: BundleEntry | b.exportIndex < |deps|
      ensures ListsSuccessor(deps, entries, a, b)
    {
      assert deps[b.exportIndex] == Collected(links, b.exportIndex);
      CollectContains(links, b.exportIndex, a.command, b.command, CreateExport(a.exportIndex));
      LegacyLinksAre(headers, entries, outer, Link(NodeOf(a), b));
    }
  }

  /** A package from before UE5 on its way to a legacy package: the entries of its bundles,
      the dependencies `deps` resolved from them, the `lists` in which they are completed
      with the references of the exports, and the dependency map read back from those. */
  datatype Conversion = Conversion(
    entries: seq<BundleEntry>, exports: seq<ObjectExport>,
    deps: seq<ExportDependencies>, lists: seq<ExportDependencies>, m: DependencyMap)
  {
    ghost predicate Valid() {
      && Complete(entries, |exports|)
      && CompletesAll(lists, exports, deps)
      && LinksSuccessors(deps, entries)
      && DescribesExports(m, lists)
    }
  }

  predicate Completes(c: Conversion, a: BundleEntry, b: BundleEntry)
    requires b.exportIndex < |c.exports| && b.exportIndex < |c.deps|
  {
    AddedReference(c.exports[b.exportIndex], c.deps[b.exportIndex].createBeforeCreate, a.command, b.command,
                   CreateExport(a.exportIndex))
  }

  /** What the dependencies of a converted package are: those of the bundles, those that
      complete an export, and creation before serialization. */
  lemma {:induction false} ConvertedDependsOn(c: Conversion, a: BundleEntry, b: BundleEntry)
    requires c.Valid() && b.exportIndex < |c.exports|
    ensures DependsOn(c.m, NodeOf(b), NodeOf(a)) <==>
              || (a.exportIndex != b.exportIndex && Follows(c.entries, a, b))
              || Completes(c, a, b)
              || (b.command.Serialize? && a == BundleEntry(b.exportIndex, Create))
  {
    assert ListsSuccessor(c.deps, c.entries, a, b);
    var e := b.exportIndex;
    DependsOnIs(c.m, c.lists, e, b.command, NodeOf(a));
    CompletedIs(c.exports[e], c.deps[e], a.command, b.command, CreateExport(a.exportIndex));
  }

  lemma {:induction false} FollowsPrecedes(entries: seq<BundleEntry>, a: BundleEntry, b: BundleEntry)
    requires Follows(entries, a, b)
    ensures Precedes(entries, a, b)
  {
  }

  lemma {:induction false} ForwardReference(c: Conversion, a: BundleEntry, b: BundleEntry)
    requires c.Valid() && b.exportIndex < |c.exports| && Forward(c.m, c.entries)
    requires Completes(c, a, b) || (b.command.Serialize? && a == BundleEntry(b.exportIndex, Create))
    ensures Precedes(c.entries, a, b)
  {
    ConvertedDependsOn(c, a, b);
  }

  lemma {:induction false} ForwardLoadsExport(c: Conversion, e: nat)
    requires c.Valid() && e < |c.exports| && Forward(c.m, c.entries)
    ensures LoadsExportInOrder(c.entries, c.exports[e], e)
  {
    var ex := c.exports[e];
    var create, serialize := BundleEntry(e, Create), BundleEntry(e, Serialize);
    ForwardReference(c, create, serialize);
    if ex.outerIndex.IsExport() {
      ForwardReference(c, BundleEntry(ex.outerIndex.ToExportIndex(), Create), create);
    }
    if ex.classIndex.IsExport() {
      ForwardReference(c, BundleEntry(ex.classIndex.ToExportIndex(), Serialize), create);
    }
    if ex.templateIndex.IsExport() {
      ForwardReference(c, BundleEntry(ex.templateIndex.ToExportIndex(), Serialize), create);
    }
    ForwardLoadsSuper(c, e);
  }

  lemma {:induction false} ForwardLoadsSuper(c: Conversion, e: nat)
    requires c.Valid() && e < |c.exports| && Forward(c.m, c.entries)
    ensures SuperFirst(c.entries, c.exports[e], e)
  {
    var ex := c.exports[e];
    if ex.superIndex.IsExport() && ex.superIndex != ex.outerIndex {
      var p := ex.superIndex.ToExportIndex();
      assert ListsSuccessor(c.deps, c.entries, BundleEntry(p, Create), BundleEntry(e, Create));
      if ex.superIndex !in c.deps[e].createBeforeCreate {
        ForwardReference(c, BundleEntry(p, Serialize), BundleEntry(e, Serialize));
      }
    }
  }

  lemma {:induction false} LoadsInOrderForward(c: Conversion, a: BundleEntry, b: BundleEntry)
    requires c.Valid() && b.exportIndex < |c.exports|
    requires LoadsExportInOrder(c.entries, c.exports[b.exportIndex], b.exportIndex)
    requires DependsOn(c.m, NodeOf(b), NodeOf(a))
    ensures Precedes(c.entries, a, b)
  {
    ConvertedDependsOn(c, a, b);
    if Follows(c.entries, a, b) {
      FollowsPrecedes(c.entries, a, b);
    } else if Completes(c, a, b) {
      CompletesLoadsFirst(c, a, b);
    }
  }

  lemma {:induction false} CompletesLoadsFirst(c: Conversion, a: BundleEntry, b: BundleEntry)
    requires b.exportIndex < |c.exports| == |c.deps| && LinksSuccessors(c.deps, c.entries)
    requires LoadsExportInOrder(c.entries, c.exports[b.exportIndex], b.exportIndex)
    requires Completes(c, a, b)
    ensures Precedes(c.entries, a, b)
  {
    assert CreateExport(a.exportIndex).ToExportIndex() == a.exportIndex;
    if a.command.Serialize? && b.command.Serialize? {
      assert ListsSuccessor(c.deps, c.entries, BundleEntry(a.exportIndex, Create), BundleEntry(b.exportIndex, Create));
    }
  }

  lemma {:induction false} DependantInRange(m: DependencyMap, lists: seq<ExportDependencies>, n: DependencyNode)
    requires DescribesExports(m, lists) && n in m && n.packageIndex.IsExport()
    ensures n.packageIndex.ToExportIndex() < |lists|
  {
  }

  /** The dependencies of a converted package all go forward exactly when its bundles load
      every reference in time. */
  lemma {:induction false} ForwardIffLoadsInOrder(c: Conversion)
    requires c.Valid()
    ensures Forward(c.m, c.entries) <==> LoadsInOrder(c.entries, c.exports)
  {
    if Forward(c.m, c.entries) {
      forall e | 0 <= e < |c.exports|
        ensures LoadsExportInOrder(c.entries, c.exports[e], e)
      {
        ForwardLoadsExport(c, e);
      }
    }
    if LoadsInOrder(c.entries, c.exports) {
      forall a, b | DependsOn(c.m, NodeOf(b), NodeOf(a))
        ensures Precedes(c.entries, a, b)
      {
        DependantInRange(c.m, c.lists, NodeOf(b));
        LoadsInOrderForward(c, a, b);
      }
    }
  }

  /** The entries as graph nodes. */
  ghost function NodesOf(entries: seq<BundleEntry>, isPublic: seq<bool>): (r: seq<GraphNode>)
    requires InRange(entries, |isPublic|)
    ensures |r| == |entries|
    ensures forall i :: 0 <= i < |r| ==> r[i] == GraphNode(NodeOf(entries[i]), isPublic[entries[i].exportIndex])
  {
    seq(|entries|, i requires 0 <= i < |entries| => GraphNode(NodeOf(entries[i]), isPublic[entries[i].exportIndex]))
  }

  lemma {:induction false} NodesAreExportNodes(entries: seq<BundleEntry>, isPublic: seq<bool>)
    requires Complete(entries, |isPublic|)
    ensures Distinct(NodesOf(entries, isPublic))
    ensures forall n :: n in NodesOf(entries, isPublic) <==> IsExportNode(isPublic, n)
    ensures multiset(NodesOf(entries, isPublic)) == multiset(ExportNodes(isPublic))
  {
    var nodes := NodesOf(entries, isPublic);
    forall n
      ensures n in nodes <==> IsExportNode(isPublic, n)
      ensures n in ExportNodes(isPublic) <==> IsExportNode(isPublic, n)
    {
      ExportNodesAre(isPublic, n);
      if IsExportNode(isPublic, n) {
        var x := BundleEntry(n.node.packageIndex.ToExportIndex(), n.node.command);
        assert x in entries && NodeOf(x) == n.node;
        var i :| 0 <= i < |entries| && entries[i] == x;
        assert nodes[i] == n;
      }
    }
    ExportNodesDistinct(isPublic);
    DistinctFits(nodes, ExportNodes(isPublic));
    DistinctFits(ExportNodes(isPublic), nodes);
  }

  lemma {:induction false} ExportNodesDistinct(isPublic: seq<bool>)
    ensures Distinct(ExportNodes(isPublic))
  {
    var nodes := ExportNodes(isPublic);
    forall i, j | 0 <= i < j < |nodes|
      ensures nodes[i] != nodes[j]
    {
      if i / 2 == j / 2 {
        assert i % 2 == 0 && j % 2 == 1;
      }
    }
  }

  /** Entries in which all dependencies go forward are a topological order. */
  lemma {:induction false} ForwardIsTopological(g: Graph, m: DependencyMap, entries: seq<BundleEntry>,
                                                isPublic: seq<bool>)
    requires WellFormed(g) && Represents(g, m, isPublic) && Complete(entries, |isPublic|)
    ensures Forward(m, entries) ==> Topological(g, NodesOf(entries, isPublic))
  {
    var nodes := NodesOf(entries, isPublic);
    NodesAreExportNodes(entries, isPublic);
    if Forward(m, entries) {
      forall i, j | 0 <= i < |nodes| && 0 <= j < |nodes| && Edge(g, nodes[i], nodes[j])
        ensures i < j
      {
        assert Precedes(entries, entries[i], entries[j]);
        var k, l :| 0 <= k < l < |entries| && entries[k] == entries[i] && entries[l] == entries[j];
      }
    }
  }

  /** Strictly increasing positions below n are the positions themselves. */
  lemma {:induction false} IncreasingIsIdentity(at: seq<nat>, i: nat)
    requires i < |at| && forall k, l :: 0 <= k < |at| - 1 && l == k + 1 ==> at[k] < at[l]
    requires at[|at| - 1] < |at|
    ensures at[i] == i
  {
    IncreasingAtLeast(at, i);
    IncreasingAtMost(at, i);
  }

  lemma {:induction false} IncreasingAtLeast(at: seq<nat>, i: nat)
    requires i < |at| && forall k, l :: 0 <= k < |at| - 1 && l == k + 1 ==> at[k] < at[l]
    ensures i <= at[i]
  {
    if i > 0 {
      IncreasingAtLeast(at, i - 1);
    }
  }

  lemma {:induction false} IncreasingAtMost(at: seq<nat>, i: nat)
    requires i < |at| && forall k, l :: 0 <= k < |at| - 1 && l == k + 1 ==> at[k] < at[l]
    requires at[|at| - 1] < |at|
    ensures at[i] <= i
    decreases |at| - i
  {
    if i < |at| - 1 {
      IncreasingAtMost(at, i + 1);
    }
  }

  function PositionOf<T(==)>(s: seq<T>, x: T): (i: nat)
    requires x in s
    ensures i < |s| && s[i] == x
  {
    if s[0] == x then 0 else 1 + PositionOf(s[1..], x)
  }

  /** A topological order of a graph in which each node has an edge to the next one of a
      chain through all nodes is that chain. */
  lemma {:induction false} ChainDeterminesOrder(g: Graph, order: seq<GraphNode>, chain: seq<GraphNode>)
    requires WellFormed(g) && Topological(g, order)
    requires multiset(chain) == multiset(g.nodes)
    requires forall k, l :: 0 <= k < |chain| - 1 && l == k + 1 ==> Edge(g, chain[k], chain[l])
    ensures order == chain
  {
    PermutationDistinct(order, g.nodes);
    PermutationDistinct(chain, g.nodes);
    var at := seq(|chain|, k requires 0 <= k < |chain| => PositionOf(order, chain[k]));
    forall k, l | 0 <= k < |at| - 1 && l == k + 1
      ensures at[k] < at[l]
    {
      assert Edge(g, order[at[k]], order[at[l]]);
    }
    forall i | 0 <= i < |chain|
      ensures order[i] == chain[i]
    {
      IncreasingIsIdentity(at, i);
    }
  }

  /** Where both commands of an export are adjacent, it is created first. */
  ghost predicate SelfSuccessionsAllowed(entries: seq<BundleEntry>) {
    forall a, b :: Follows(entries, a, b) ==> IsAllowed(Link(NodeOf(a), b))
  }

  /** Sorting a converted package succeeds exactly when its bundles load every reference in
      time, and then it returns the original entries in their original order. */
  lemma {:induction false} LoadOrderRoundTrip(c: Conversion, g: Graph, isPublic: seq<bool>,
                                              r: Result<seq<GraphNode>, SortError>)
    requires c.Valid() && SelfSuccessionsAllowed(c.entries) && |isPublic| == |c.exports|
    requires DependenciesInRange(c.m, |isPublic|)
    requires WellFormed(g) && Represents(g, c.m, isPublic) && SortOutcome(g, r)
    ensures r.Ok? <==> LoadsInOrder(c.entries, c.exports)
    ensures r.Ok? ==> ExportEntries(r.value) == c.entries
  {
    var nodes := NodesOf(c.entries, isPublic);
    NodesAreExportNodes(c.entries, isPublic);
    ForwardIffLoadsInOrder(c);
    ForwardIsTopological(g, c.m, c.entries, isPublic);
    if Forward(c.m, c.entries) {
      TopologicalImpliesAcyclic(g, nodes);
    }
    if r.Ok? {
      LoadOrderIsTopological(g, r.value);
      EntriesAreChained(c, g, isPublic);
      ChainDeterminesOrder(g, r.value, nodes);
      EntriesOfNodes(c.entries, isPublic);
      TopologicalIsForward(g, c.m, c.entries, isPublic);
    }
  }

  /** Each entry depends on the one before it. */
  lemma {:induction false} EntriesAreChained(c: Conversion, g: Graph, isPublic: seq<bool>)
    requires c.Valid() && SelfSuccessionsAllowed(c.entries) && |isPublic| == |c.exports|
    requires Represents(g, c.m, isPublic)
    ensures forall k, l :: 0 <= k < |c.entries| - 1 && l == k + 1 ==>
              Edge(g, NodesOf(c.entries, isPublic)[k], NodesOf(c.entries, isPublic)[l])
  {
    forall k, l | 0 <= k < |c.entries| - 1 && l == k + 1
      ensures Edge(g, NodesOf(c.entries, isPublic)[k], NodesOf(c.entries, isPublic)[l])
    {
      SuccessorDepends(c, c.entries[k], c.entries[l]);
      DependencyIsEdge(g, c.m, isPublic, c.entries[k], c.entries[l]);
    }
  }

  lemma {:induction false} DependencyIsEdge(g: Graph, m: DependencyMap, isPublic: seq<bool>, a: BundleEntry,
                                            b: BundleEntry)
    requires Represents(g, m, isPublic) && a.exportIndex < |isPublic| && b.exportIndex < |isPublic|
    requires DependsOn(m, NodeOf(b), NodeOf(a))
    ensures Edge(g, GraphNode(NodeOf(a), isPublic[a.exportIndex]), GraphNode(NodeOf(b), isPublic[b.exportIndex]))
  {
  }

  lemma {:induction false} SuccessorDepends(c: Conversion, a: BundleEntry, b: BundleEntry)
    requires c.Valid() && SelfSuccessionsAllowed(c.entries)
    requires a.exportIndex < |c.exports| && b.exportIndex < |c.exports| && Follows(c.entries, a, b)
    ensures DependsOn(c.m, NodeOf(b), NodeOf(a))
  {
    ConvertedDependsOn(c, a, b);
    assert IsAllowed(Link(NodeOf(a), b));
  }

  ghost predicate DependenciesInRange(m: DependencyMap, exportCount: nat) {
    forall a: BundleEntry, b: BundleEntry :: DependsOn(m, NodeOf(b), NodeOf(a)) ==>
      a.exportIndex < exportCount && b.exportIndex < exportCount
  }

  lemma {:induction false} TopologicalIsForward(g: Graph, m: DependencyMap, entries: seq<BundleEntry>,
                                                isPublic: seq<bool>)
    requires Represents(g, m, isPublic) && Complete(entries, |isPublic|) && Topological(g, NodesOf(entries, isPublic))
    requires DependenciesInRange(m, |isPublic|)
    ensures Forward(m, entries)
  {
    var nodes := NodesOf(entries, isPublic);
    forall a, b | DependsOn(m, NodeOf(b), NodeOf(a))
      ensures Precedes(entries, a, b)
    {
      var i, j := PositionOf(entries, a), PositionOf(entries, b);
      assert Edge(g, nodes[i], nodes[j]);
    }
  }

  lemma {:induction false} EntriesOfNodes(entries: seq<BundleEntry>, isPublic: seq<bool>)
    requires InRange(entries, |isPublic|)
    ensures ExportEntries(NodesOf(entries, isPublic)) == entries
  {
    AllExportEntries(NodesOf(entries, isPublic));
    forall i | 0 <= i < |entries|
      ensures ExportEntries(NodesOf(entries, isPublic))[i] == entries[i]
    {
      assert NodeOf(ExportEntries(NodesOf(entries, isPublic))[i]) == NodeOf(entries[i]);
    }
  }

  /** Bundling the sorted package again gives back the original bundles, if those were cut
      at the public exports. */
  lemma {:induction false} BundlesRoundTrip(c: Conversion, g: Graph, isPublic: seq<bool>, sizes: seq<nat>,
                                            r: Result<seq<GraphNode>, SortError>, headers: seq<BundleHeader>,
                                            again: seq<BundleHeader>)
    requires c.Valid() && SelfSuccessionsAllowed(c.entries) && |isPublic| == |c.exports|
    requires DependenciesInRange(c.m, |isPublic|)
    requires WellFormed(g) && Represents(g, c.m, isPublic) && SortOutcome(g, r)
    requires LoadsInOrder(c.entries, c.exports)
    requires Bundled(headers, c.entries, isPublic, sizes)
    requires r.Ok? ==> Bundled(again, ExportEntries(r.value), isPublic, sizes)
    ensures r.Ok? && again == headers
  {
    LoadOrderRoundTrip(c, g, isPublic, r);
    BundledIsUnique(again, headers, c.entries, isPublic, sizes);
  }

  /** The references of the exports stay within the export table. */
  ghost predicate RefersInRange(ex: ObjectExport, exportCount: nat) {
    && ex.outerIndex.index <= exportCount && ex.classIndex.index <= exportCount
    && ex.templateIndex.index <= exportCount && ex.superIndex.index <= exportCount
  }

  lemma {:induction false} CollectInRange(links: seq<Link>, e: nat, from: CommandType, to: CommandType, n: nat,
                                          p: PackageIndex)
    requires forall k :: 0 <= k < |links| ==> links[k].from.packageIndex.index <= n
    requires p in Collect(links, e, from, to)
    ensures p.index <= n
  {
    var last := |links| - 1;
    if p in Collect(links[..last], e, from, to) {
      CollectInRange(links[..last], e, from, to, n, p);
    }
  }

  lemma {:induction false} LinksInRange(headers: seq<BundleHeader>, entries: seq<BundleEntry>, outer: seq<OuterArc>,
                                        n: nat)
    requires Tiles(headers, |entries|) && InRange(entries, n) && ArcsInRange(headers, [], outer)
    ensures var links := AllLinks(headers, entries, [], true, outer);
            forall k :: 0 <= k < |links| ==> links[k].from.packageIndex.index <= n
  {
    var links := AllLinks(headers, entries, [], true, outer);
    forall k | 0 <= k < |links|
      ensures links[k].from.packageIndex.index <= n
    {
      var l := links[k];
      if l.from.packageIndex.IsExport() {
        assert l in links;
        LegacyLinksAre(headers, entries, outer, l);
        var from := BundleEntry(l.from.packageIndex.ToExportIndex(), l.from.command);
        var i :| 0 <= i < |entries| - 1 && entries[i] == from;
      }
    }
  }

  /** A bundle layout that makes an export wait for itself does not load in order. */
  lemma {:induction false} RejectedDoesNotLoad(headers: seq<BundleHeader>, entries: seq<BundleEntry>,
                                               outer: seq<OuterArc>, exports: seq<ObjectExport>)
    requires Tiles(headers, |entries|) && ArcsInRange(headers, [], outer) && Complete(entries, |exports|)
    ensures if AllAllowed(AllLinks(headers, entries, [], true, outer)) then SelfSuccessionsAllowed(entries)
            else !LoadsInOrder(entries, exports)
  {
    var links := AllLinks(headers, entries, [], true, outer);
    if AllAllowed(links) {
      forall a, b | Follows(entries, a, b)
        ensures IsAllowed(Link(NodeOf(a), b))
      {
        LegacyLinksAre(headers, entries, outer, Link(NodeOf(a), b));
      }
    } else {
      var k :| 0 <= k < |links| && !IsAllowed(links[k]);
      var l := links[k];
      assert l in links;
      LegacyLinksAre(headers, entries, outer, l);
      var e := l.to.exportIndex;
      SelfSuccessionFails(entries, exports, BundleEntry(e, l.from.command), l.to);
    }
  }

  lemma {:induction false} SelfSuccessionFails(entries: seq<BundleEntry>, exports: seq<ObjectExport>, a: BundleEntry,
                                               b: BundleEntry)
    requires Complete(entries, |exports|) && Follows(entries, a, b)
    requires a.exportIndex == b.exportIndex && !(a.command.Create? && b.command.Serialize?)
    ensures !LoadsInOrder(entries, exports)
  {
    var i :| 0 <= i < |entries| - 1 && entries[i] == a && entries[i + 1] == b;
    var e := a.exportIndex;
    assert entries[i] != entries[i + 1];
    assert a == BundleEntry(e, Serialize) && b == BundleEntry(e, Create);
    forall k, l | 0 <= k < l < |entries|
      ensures !(entries[k] == b && entries[l] == a)
    {
      assert entries[k] == b ==> k == i + 1;
      assert entries[l] == a ==> l == i;
    }
    assert !LoadsExportInOrder(entries, exports[e], e);
  }

  datatype ConvertError = InvalidBundles | CannotSort

  /** Takes the bundles of a package from before UE5 through the legacy form and sorts them
      again. The original entries come back in their original order exactly when they load
      every reference in time; otherwise the package is rejected. */
  method ConvertAndSort(package: LegacyPackage, headers: seq<BundleHeader>, entries: seq<BundleEntry>,
                        outer: seq<OuterArc>, isPublic: seq<bool>)
    returns (r: Result<seq<GraphNode>, ConvertError>)
    requires Tiles(headers, |entries|) && Complete(entries, |package.exports|) && ArcsInRange(headers, [], outer)
    requires |isPublic| == |package.exports|
    requires forall e :: 0 <= e < |package.exports| ==> package.exports[e].firstDependency == -1
    requires forall e :: 0 <= e < |package.exports| ==> RefersInRange(package.exports[e], |package.exports|)
    modifies package
    ensures r.Ok? <==> LoadsInOrder(entries, old(package.exports))
    ensures r.Ok? ==> ExportEntries(r.value) == entries
  {
    ghost var exports := package.exports;
    RejectedDoesNotLoad(headers, entries, outer, exports);
    var resolved := ResolveExportDependencies(headers, entries, [], true, outer, |package.exports|);
    if resolved.Err? {
      return Err(InvalidBundles);
    }
    var deps := resolved.value;
    package.ApplyStandaloneDependencies(deps);
    ghost var lists := AllListed(package.exports, package.preloadDependencies);
    assert CompletesAll(lists, exports, deps);
    ListsInRange(headers, entries, outer, exports, deps, lists);
    var m, g, sorted := SortExports(package.exports, package.preloadDependencies, isPublic);
    ResolvedLinksSuccessors(headers, entries, outer, deps);
    ghost var c := Conversion(entries, exports, deps, lists, m);
    MapInRange(m, lists, |exports|);
    LoadOrderRoundTrip(c, g, isPublic, sorted);
    if sorted.Err? {
      return Err(CannotSort);
    }
    return Ok(sorted.value);
  }

  ghost predicate ListInRange(d: ExportDependencies, n: nat) {
    forall from, to, p :: p in Kind(d, from, to) ==> p.index <= n
  }

  lemma {:induction false} ListsInRange(headers: seq<BundleHeader>, entries: seq<BundleEntry>, outer: seq<OuterArc>,
                     exports: seq<ObjectExport>, deps: seq<ExportDependencies>, lists: seq<ExportDependencies>)
    requires Tiles(headers, |entries|) && InRange(entries, |exports|) && ArcsInRange(headers, [], outer)
    requires Collects(deps, AllLinks(headers, entries, [], true, outer)) && CompletesAll(lists, exports, deps)
    requires forall e :: 0 <= e < |exports| ==> RefersInRange(exports[e], |exports|)
    ensures forall e :: 0 <= e < |exports| ==> ListInRange(lists[e], |exports|)
    ensures forall e, c, d :: 0 <= e < |exports| && d in DependenciesOf(e, c, lists[e]) ==>
              d.packageIndex.index <= |exports|
  {
    var links := AllLinks(headers, entries, [], true, outer);
    LinksInRange(headers, entries, outer, |exports|);
    forall e | 0 <= e < |exports|
      ensures ListInRange(lists[e], |exports|)
    {
      assert deps[e] == Collected(links, e) && lists[e] == Completed(exports[e], deps[e]);
      CompletedInRange(links, e, exports[e], |exports|);
    }
    forall e, c, d | 0 <= e < |exports| && d in DependenciesOf(e, c, lists[e])
      ensures d.packageIndex.index <= |exports|
    {
      DependencyKind(e, c, lists[e], d);
    }
  }

  lemma {:induction false} CompletedInRange(links: seq<Link>, e: nat, ex: ObjectExport, n: nat)
    requires forall k :: 0 <= k < |links| ==> links[k].from.packageIndex.index <= n
    requires RefersInRange(ex, n)
    ensures ListInRange(Completed(ex, Collected(links, e)), n)
  {
    forall from, to, p | p in Kind(Completed(ex, Collected(links, e)), from, to)
      ensures p.index <= n
    {
      CompletedIs(ex, Collected(links, e), from, to, p);
      if p in Kind(Collected(links, e), from, to) {
        CollectInRange(links, e, from, to, n, p);
      }
    }
  }

  lemma {:induction false} MapInRange(m: DependencyMap, lists: seq<ExportDependencies>, n: nat)
    requires DescribesExports(m, lists) && |lists| == n
    requires forall e :: 0 <= e < n ==> ListInRange(lists[e], n)
    ensures DependenciesInRange(m, n)
  {
    forall a: BundleEntry, b: BundleEntry | DependsOn(m, NodeOf(b), NodeOf(a))
      ensures a.exportIndex < n && b.exportIndex < n
    {
      var e :| 0 <= e < n && NodeOf(b).packageIndex == CreateExport(e);
      DependsOnIs(m, lists, e, b.command, NodeOf(a));
      assert NodeOf(b) == ExportNode(e, b.command);
    }
  }
}
