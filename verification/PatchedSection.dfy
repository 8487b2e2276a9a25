/** What the arc section lists once its arcs have been patched. */
module PatchedSection {
  import opened Zen
  import opened Bytes
  import opened Bundles
  import opened ArcSection
  import opened ArcFixup

  // -------------------------------------------------------- where the arcs stand

  /** Where dependency `p` of a list at `position` begins. */
  ghost function DependencyPlace(position: nat, stored: seq<ExternalDependency>, p: nat): nat
    requires p <= |stored|
  {
    position + StoredSize(stored[..p])
  }

  lemma {:induction false} PlaceNext(position: nat, stored: seq<ExternalDependency>, p: nat)
    requires p < |stored|
    ensures DependencyPlace(position, stored, p + 1) ==
            DependencyPlace(position, stored, p) + 12 + 8 * |stored[p].legacyArcs|
  {
    assert stored[..p + 1][..p] == stored[..p];
  }

  lemma {:induction false} PlacesGrow(position: nat, stored: seq<ExternalDependency>, p: nat, q: nat)
    requires p <= q <= |stored|
    ensures DependencyPlace(position, stored, p) <= DependencyPlace(position, stored, q)
    decreases q
  {
    if p < q {
      PlaceNext(position, stored, q - 1);
      PlacesGrow(position, stored, p, q - 1);
    }
  }

  /** The offset of every arc is in the list of offsets. */
  lemma {:induction false} PlaceListed(position: nat, stored: seq<ExternalDependency>, p: nat, k: nat)
    requires p < |stored| && k < |stored[p].legacyArcs|
    ensures DependencyPlace(position, stored, p) + 12 + 8 * k in ArcPlaces(position, stored)
  {
    var n := |stored| - 1;
    var own := Spaced(position + StoredSize(stored[..n]) + 12, |stored[n].legacyArcs|);
    if p < n {
      PlaceListed(position, stored[..n], p, k);
      assert stored[..n][..p] == stored[..p];
    } else {
      assert own[k] in own;
    }
  }

  /** Every offset in the list is that of an arc. */
  lemma {:induction false} ListedPlace(position: nat, stored: seq<ExternalDependency>, x: nat) returns (p: nat, k: nat)
    requires x in ArcPlaces(position, stored)
    ensures p < |stored| && k < |stored[p].legacyArcs| && x == DependencyPlace(position, stored, p) + 12 + 8 * k
  {
    var n := |stored| - 1;
    var own := Spaced(position + StoredSize(stored[..n]) + 12, |stored[n].legacyArcs|);
    if x in ArcPlaces(position, stored[..n]) {
      p, k := ListedPlace(position, stored[..n], x);
      assert stored[..n][..p] == stored[..p];
    } else {
      p := n;
      k :| 0 <= k < |own| && own[k] == x;
    }
  }

  /** No arc covers the id of a package or the number of its arcs. */
  lemma {:induction false} HeadApart(position: nat, stored: seq<ExternalDependency>, p: nat, x: nat)
    requires p < |stored| && x in ArcPlaces(position, stored)
    ensures x + 8 <= DependencyPlace(position, stored, p) || DependencyPlace(position, stored, p) + 12 <= x
  {
    var q, k := ListedPlace(position, stored, x);
    if q < p {
      PlaceNext(position, stored, q);
      PlacesGrow(position, stored, q + 1, p);
    } else {
      PlacesGrow(position, stored, p, q);
    }
  }

  /** Both buffers have the same id and number of arcs at `h`. */
  ghost predicate HeadSame(before: seq<Byte>, after: seq<Byte>, h: nat)
    requires |after| == |before|
  {
    h + 12 <= |after| ==> after[h..h + 12] == before[h..h + 12]
  }

  ghost predicate HeadsSame(before: seq<Byte>, after: seq<Byte>, position: nat, stored: seq<ExternalDependency>)
    requires |after| == |before|
  {
    forall p :: 0 <= p < |stored| ==> HeadSame(before, after, DependencyPlace(position, stored, p))
  }

  /** Patching the arcs keeps the ids and numbers of arcs. */
  lemma {:induction false} HeadsKept(before: seq<Byte>, after: seq<Byte>, position: nat,
                                     stored: seq<ExternalDependency>)
    requires |after| == |before|
    requires OthersKept(before, after, ArcPlaces(position, stored), |ArcPlaces(position, stored)|)
    ensures HeadsSame(before, after, position, stored)
  {
    var offsets := ArcPlaces(position, stored);
    forall p | 0 <= p < |stored|
      ensures HeadSame(before, after, DependencyPlace(position, stored, p))
    {
      var h := DependencyPlace(position, stored, p);
      forall i | h <= i < h + 12 <= |after|
        ensures after[i] == before[i]
      {
        if InSlot(offsets, |offsets|, i) {
          var k :| 0 <= k < |offsets| && offsets[k] <= i < offsets[k] + 4;
          HeadApart(position, stored, p, offsets[k]);
        }
      }
    }
  }

  // ------------------------------------------------------------ reading them again

  ghost function ArcIn(buffer: seq<Byte>, at: nat): InternalArc
    requires at + 8 <= |buffer|
  {
    InternalArc(IntAt(buffer, at), IntAt(buffer, at + 4))
  }

  /** The dependency at `at` with the arcs that are in the buffer now. */
  ghost function RereadOne(buffer: seq<Byte>, at: nat, d: ExternalDependency): (r: ExternalDependency)
    requires at + 12 + 8 * |d.legacyArcs| <= |buffer|
    ensures |r.legacyArcs| == |d.legacyArcs|
  {
    var n := |d.legacyArcs|;
    ExternalDependency(d.packageId, [], seq(n, k requires 0 <= k < n => ArcIn(buffer, at + 12 + 8 * k)))
  }

  ghost function Reread(buffer: seq<Byte>, position: nat, stored: seq<ExternalDependency>): (r: seq<ExternalDependency>)
    requires position + StoredSize(stored) <= |buffer|
    ensures |r| == |stored| && StoredSize(r) == StoredSize(stored)
  {
    if stored == [] then []
    else
      var n := |stored| - 1;
      var r := Reread(buffer, position, stored[..n]) +
          [RereadOne(buffer, position + StoredSize(stored[..n]), stored[n])];
      assert r[..n] == Reread(buffer, position, stored[..n]);
      r
  }

  lemma {:induction false} RereadAt(buffer: seq<Byte>, position: nat, stored: seq<ExternalDependency>, p: nat)
    requires position + StoredSize(stored) <= |buffer| && p < |stored|
    ensures DependencyPlace(position, stored, p) + 12 + 8 * |stored[p].legacyArcs| <= |buffer|
    ensures Reread(buffer, position, stored)[p] ==
            RereadOne(buffer, DependencyPlace(position, stored, p), stored[p])
  {
    var n := |stored| - 1;
    if p < n {
      RereadAt(buffer, position, stored[..n], p);
      assert stored[..n][..p] == stored[..p];
    }
  }

  lemma {:induction false} ListedFits(buffer: seq<Byte>, position: nat, stored: seq<ExternalDependency>)
    requires position <= |buffer| && DependenciesAt(buffer, position, stored)
    ensures position + StoredSize(stored) <= |buffer|
  {
  }

  lemma {:induction false} RereadIsThere(before: seq<Byte>, after: seq<Byte>, at: nat, d: ExternalDependency)
    requires |after| == |before| && DependencyAt(before, at, d) && after[at..at + 12] == before[at..at + 12]
    ensures DependencyAt(after, at, RereadOne(after, at, d))
  {
    assert after[at..at + 8] == after[at..at + 12][..8] && before[at..at + 8] == before[at..at + 12][..8];
    assert after[at + 8..at + 12] == after[at..at + 12][8..] && before[at + 8..at + 12] == before[at..at + 12][8..];
  }

  lemma {:induction false} RereadPush(buffer: seq<Byte>, position: nat, front: seq<ExternalDependency>,
                                      d: ExternalDependency)
    requires position + StoredSize(front + [d]) <= |buffer|
    ensures position + StoredSize(front) + 12 + 8 * |d.legacyArcs| <= |buffer|
    ensures Reread(buffer, position, front + [d]) ==
            Reread(buffer, position, front) + [RereadOne(buffer, position + StoredSize(front), d)]
  {
    assert (front + [d])[..|front|] == front;
  }

  lemma {:induction false} ListedLast(buffer: seq<Byte>, position: nat, front: seq<ExternalDependency>,
                                      d: ExternalDependency)
    requires DependenciesAt(buffer, position, front + [d])
    ensures DependenciesAt(buffer, position, front) && DependencyAt(buffer, position + StoredSize(front), d)
  {
    assert (front + [d])[..|front|] == front;
  }

  lemma {:induction false} RereadStep(before: seq<Byte>, after: seq<Byte>, position: nat,
                                      front: seq<ExternalDependency>, d: ExternalDependency)
    requires |after| == |before| && DependencyAt(before, position + StoredSize(front), d)
    requires position + StoredSize(front + [d]) <= |after|
    requires HeadSame(before, after, position + StoredSize(front))
    requires DependenciesAt(after, position, Reread(after, position, front))
    ensures DependenciesAt(after, position, Reread(after, position, front + [d]))
  {
    var h, rest := position + StoredSize(front), Reread(after, position, front);
    RereadIsThere(before, after, h, d);
    DependenciesStep(after, position, rest, RereadOne(after, h, d));
    RereadPush(after, position, front, d);
  }

  lemma {:induction false} HeadsPrefix(before: seq<Byte>, after: seq<Byte>, position: nat,
                                       front: seq<ExternalDependency>, d: ExternalDependency)
    requires |after| == |before| && HeadsSame(before, after, position, front + [d])
    ensures HeadsSame(before, after, position, front) && HeadSame(before, after, position + StoredSize(front))
  {
    var stored := front + [d];
    assert stored[..|front|] == front;
    assert HeadSame(before, after, DependencyPlace(position, stored, |front|));
    forall p | 0 <= p < |front|
      ensures HeadSame(before, after, DependencyPlace(position, front, p))
    {
      assert stored[..p] == front[..p];
      assert HeadSame(before, after, DependencyPlace(position, stored, p));
    }
  }

  /** The patched buffer lists the same packages, with the arcs that are in it now. */
  lemma {:induction false} RereadListed(before: seq<Byte>, after: seq<Byte>, position: nat,
                                        stored: seq<ExternalDependency>)
    requires |after| == |before| && position <= |before| && HeadsSame(before, after, position, stored)
    requires DependenciesAt(before, position, stored)
    ensures position + StoredSize(stored) <= |after|
    ensures DependenciesAt(after, position, Reread(after, position, stored))
  {
    ListedFits(before, position, stored);
    if stored != [] {
      var front, d := stored[..|stored| - 1], stored[|stored| - 1];
      assert stored == front + [d];
      ListedLast(before, position, front, d);
      HeadsPrefix(before, after, position, front, d);
      RereadListed(before, after, position, front);
      RereadStep(before, after, position, front, d);
    }
  }

  lemma {:induction false} CountKept(before: seq<Byte>, after: seq<Byte>, position: nat,
                                     stored: seq<ExternalDependency>)
    requires |after| == |before| && position + 4 <= |before|
    requires OthersKept(before, after, ArcPlaces(position + 4, stored), |ArcPlaces(position + 4, stored)|)
    ensures after[position..position + 4] == before[position..position + 4]
  {
    var offsets := ArcPlaces(position + 4, stored);
    forall i | position <= i < position + 4
      ensures after[i] == before[i]
    {
      if InSlot(offsets, |offsets|, i) {
        var k :| 0 <= k < |offsets| && offsets[k] <= i < offsets[k] + 4;
        var q, l := ListedPlace(position + 4, stored, offsets[k]);
      }
    }
  }

  /** After the fix-up the section lists the packages it listed before, each with as many
      arcs as before. */
  lemma {:induction false} SectionReread(before: seq<Byte>, after: seq<Byte>, position: nat,
                                         stored: seq<ExternalDependency>)
    requires |after| == |before| && SectionAt(before, position, stored)
    requires OthersKept(before, after, ArcPlaces(position + 4, stored), |ArcPlaces(position + 4, stored)|)
    ensures position + 4 + StoredSize(stored) <= |after|
    ensures SectionAt(after, position, Reread(after, position + 4, stored))
  {
    HeadsKept(before, after, position + 4, stored);
    RereadListed(before, after, position + 4, stored);
    CountKept(before, after, position, stored);
  }

  // ------------------------------------------------------- what the arcs are now

  lemma {:induction false} DependencyListed(buffer: seq<Byte>, position: nat, stored: seq<ExternalDependency>, q: nat)
    requires q < |stored| && DependenciesAt(buffer, position, stored)
    ensures DependencyAt(buffer, DependencyPlace(position, stored, q), stored[q])
  {
    DependenciesPrefix(buffer, position, stored, q + 1);
    assert stored[..q + 1][..q] == stored[..q];
  }

  lemma {:induction false} ArcAtIsArc(buffer: seq<Byte>, a: InternalArc, offset: nat)
    requires ArcFits(a) && ArcAt(buffer, a, offset)
    ensures offset + 8 <= |buffer| && ArcIn(buffer, offset) == a
  {
    I32RoundTrip(a.fromBundle);
    I32RoundTrip(a.toBundle);
  }

  /** The offset at which arc `k` of dependency `q` was put. */
  lemma {:induction false} OffsetOf(buffer: seq<Byte>, position: nat, stored: seq<ExternalDependency>,
                                    arcs: seq<InternalArc>, offsets: seq<nat>, q: nat, k: nat)
    returns (j: nat)
    requires ArcsAt(buffer, arcs, offsets) && offsets == ArcPlaces(position, stored)
    requires DependenciesAt(buffer, position, stored) && q < |stored| && k < |stored[q].legacyArcs|
    ensures j < |arcs| && offsets[j] == DependencyPlace(position, stored, q) + 12 + 8 * k
    ensures arcs[j] == stored[q].legacyArcs[k]
  {
    PlaceListed(position, stored, q, k);
    DependencyListed(buffer, position, stored, q);
    var place := DependencyPlace(position, stored, q) + 12 + 8 * k;
    j :| 0 <= j < |offsets| && offsets[j] == place;
    assert ArcFits(arcs[j]) && ArcAt(buffer, arcs[j], offsets[j]);
    ArcAtIsArc(buffer, arcs[j], place);
  }

  /** The arc carries the number of the placeholder that was made for `v`. */
  ghost predicate WrittenFor(a: InternalArc, v: Visit, visits: seq<Visit>, imports: seq<Option<ImportTarget>>,
                             packages: seq<nat>, p: nat)
    requires SlotsInRange(imports, packages) && p < |packages|
  {
    var placeholders := PlaceholdersOf(visits, imports, packages);
    0 <= a.fromBundle < |placeholders| && MadeFor(placeholders[a.fromBundle], a, v, imports, packages, p)
  }

  lemma {:induction false} OneArc(buffer: seq<Byte>, at: nat, d: ExternalDependency, k: nat)
    requires at + 12 + 8 * |d.legacyArcs| <= |buffer| && k < |d.legacyArcs|
    ensures RereadOne(buffer, at, d).legacyArcs[k] == ArcIn(buffer, at + 12 + 8 * k)
  {
  }

  lemma {:induction false} RereadArc(buffer: seq<Byte>, position: nat, stored: seq<ExternalDependency>, q: nat, k: nat)
    requires position + StoredSize(stored) <= |buffer| && q < |stored| && k < |stored[q].legacyArcs|
    ensures var r, offset := Reread(buffer, position, stored)[q], DependencyPlace(position, stored, q) + 12 + 8 * k;
            r.packageId == stored[q].packageId && offset + 8 <= |buffer| && k < |r.legacyArcs|
            && r.legacyArcs[k] == ArcIn(buffer, offset)
  {
    RereadAt(buffer, position, stored, q);
    OneArc(buffer, DependencyPlace(position, stored, q), stored[q], k);
  }

  /** The patched arc that was written for `v` serves it. */
  lemma {:induction false} PatchedServes(before: seq<Byte>, after: seq<Byte>, position: nat,
                                         stored: seq<ExternalDependency>, arcs: seq<InternalArc>, offsets: seq<nat>,
                                         visits: seq<Visit>, imports: seq<Option<ImportTarget>>, packages: seq<nat>,
                                         lookup: PackageLookup, q: nat, k: nat, v: Visit, p: nat)
    requires SlotsInRange(imports, packages) && p < |packages|
    requires ArcsAt(before, arcs, offsets) && offsets == ArcPlaces(position, stored)
    requires DependenciesAt(before, position, stored) && q < |stored| && k < |stored[q].legacyArcs|
    requires Fixed(before, after, offsets, PlaceholdersOf(visits, imports, packages), lookup)
    requires WrittenFor(stored[q].legacyArcs[k], v, visits, imports, packages, p)
    ensures ServesDependency(after, DependencyPlace(position, stored, q) + 12 + 8 * k, v, imports, packages, p, lookup)
  {
    var j := OffsetOf(before, position, stored, arcs, offsets, q, k);
    FixedArcServes(before, after, offsets, arcs, visits, imports, packages, lookup, j, v, p);
  }

  lemma {:induction false} StoredFrom(deps: seq<ExternalDependency>, q: nat) returns (p: nat)
    requires q < |Stored(deps)|
    ensures p < |deps| && Stored(deps)[q] == deps[p].(externalArcs := [])
  {
    var n := |deps| - 1;
    if q < |Stored(deps[..n])| {
      p := StoredFrom(deps[..n], q);
    } else {
      p := n;
    }
  }

  lemma {:induction false} StoredHas(deps: seq<ExternalDependency>, p: nat) returns (q: nat)
    requires p < |deps| && deps[p].legacyArcs != []
    ensures q < |Stored(deps)| && Stored(deps)[q] == deps[p].(externalArcs := [])
  {
    var n := |deps| - 1;
    if p < n {
      q := StoredHas(deps[..n], p);
    } else {
      q := |Stored(deps)| - 1;
    }
  }
}
