/** Splitting the shaders of a library into groups: by the shader maps that refer to
    them, then by their kind. */
module ShaderGroups {
  import opened Sorting

  datatype Shader = Shader(uncompressedSize: nat, size: nat, frequency: nat, offset: nat)

  datatype MapEntry = MapEntry(offset: nat, count: nat)

  /** A shader library; every shader map names a range of the index table. */
  datatype Library = Library(shaders: seq<Shader>, maps: seq<MapEntry>, indices: seq<nat>) {
    ghost predicate Valid() {
      && (forall m :: 0 <= m < |maps| ==> maps[m].offset + maps[m].count <= |indices|)
      && (forall i :: 0 <= i < |indices| ==> indices[i] < |shaders|)
    }

    function MapShaders(m: nat): seq<nat>
      requires m < |maps| && maps[m].offset + maps[m].count <= |indices|
    {
      indices[maps[m].offset..maps[m].offset + maps[m].count]
    }
  }

  // --------------------------------------------------------------- references

  function Repeat(x: nat, n: nat): (r: seq<nat>)
    ensures |r| == n && forall y :: y in r ==> y == x
  {
    if n == 0 then [] else Repeat(x, n - 1) + [x]
  }

  /** The maps below `m` that refer to shader `s`, once for every reference. */
  ghost function References(lib: Library, s: nat, m: nat): seq<nat>
    requires lib.Valid() && m <= |lib.maps|
  {
    if m == 0 then [] else References(lib, s, m - 1) + Repeat(m - 1, multiset(lib.MapShaders(m - 1))[s])
  }

  predicate AtMost(a: nat, b: nat) {
    a <= b
  }

  lemma {:induction false} ReferencesSorted(lib: Library, s: nat, m: nat)
    requires lib.Valid() && m <= |lib.maps|
    ensures SortedBy(References(lib, s, m), AtMost)
    ensures forall x :: x in References(lib, s, m) ==> x < m
  {
    if m > 0 {
      ReferencesSorted(lib, s, m - 1);
      var a, b := References(lib, s, m - 1), Repeat(m - 1, multiset(lib.MapShaders(m - 1))[s]);
      SortedAppend(a, b, m - 1);
    }
  }

  lemma {:induction false} SortedAppend(a: seq<nat>, b: seq<nat>, x: nat)
    requires SortedBy(a, AtMost) && (forall y :: y in a ==> y < x) && forall y :: y in b ==> y == x
    ensures SortedBy(a + b, AtMost)
  {
    forall i, j | 0 <= i < j < |a + b|
      ensures AtMost((a + b)[i], (a + b)[j])
    {
      if j < |a| {
        assert AtMost(a[i], a[j]);
      } else {
        assert b[j - |a|] in b;
        assert if i < |a| then a[i] in a else b[i - |a|] in b;
      }
    }
  }

  function Lookup(refs: map<nat, seq<nat>>, s: nat): seq<nat> {
    if s in refs then refs[s] else []
  }

  /** `refs` lists map `m` once more for every occurrence of shader `s` in `list`. */
  ghost predicate AddedTo(before: map<nat, seq<nat>>, refs: map<nat, seq<nat>>, m: nat, list: seq<nat>, s: nat) {
    Lookup(refs, s) == Lookup(before, s) + Repeat(m, multiset(list)[s])
  }

  ghost predicate Added(before: map<nat, seq<nat>>, refs: map<nat, seq<nat>>, m: nat, list: seq<nat>) {
    forall s {:trigger AddedTo(before, refs, m, list, s)} :: AddedTo(before, refs, m, list, s)
  }

  lemma {:induction false} RepeatPush(x: nat, n: nat, front: seq<nat>)
    ensures front + Repeat(x, n) + [x] == front + Repeat(x, n + 1)
  {
    assert Repeat(x, n + 1) == Repeat(x, n) + [x];
  }

  lemma {:induction false} AddedToStep(before: map<nat, seq<nat>>, refs: map<nat, seq<nat>>, m: nat, list: seq<nat>,
                                       s: nat, t: nat)
    requires AddedTo(before, refs, m, list, t)
    ensures AddedTo(before, refs[s := Lookup(refs, s) + [m]], m, list + [s], t)
  {
    var n := multiset(list)[t];
    assert multiset(list + [s])[t] == if t == s then n + 1 else n;
    RepeatPush(m, n, Lookup(before, t));
  }

  lemma {:induction false} AddedStep(before: map<nat, seq<nat>>, refs: map<nat, seq<nat>>, m: nat, list: seq<nat>,
                                     s: nat)
    requires Added(before, refs, m, list)
    ensures Added(before, refs[s := Lookup(refs, s) + [m]], m, list + [s])
  {
    var more, longer := refs[s := Lookup(refs, s) + [m]], list + [s];
    forall t
      ensures AddedTo(before, more, m, longer, t)
    {
      AddedToStep(before, refs, m, list, s, t);
    }
  }

  /** Adds one map to the lists of all shaders it refers to. */
  method AddMap(lib: Library, m: nat, before: map<nat, seq<nat>>) returns (refs: map<nat, seq<nat>>)
    requires lib.Valid() && m < |lib.maps|
    requires forall s :: s in before ==> s < |lib.shaders|
    ensures forall s :: s in refs ==> s < |lib.shaders|
    ensures Added(before, refs, m, lib.MapShaders(m))
  {
    refs := before;
    var list := lib.MapShaders(m);
    assert forall s :: multiset(list[..0])[s] == 0;
    assert forall s :: AddedTo(before, refs, m, list[..0], s);
    for i := 0 to |list|
      invariant forall s :: s in refs ==> s < |lib.shaders|
      invariant Added(before, refs, m, list[..i])
    {
      var s := list[i];
      assert s == lib.indices[lib.maps[m].offset + i];
      assert list[..i + 1] == list[..i] + [s];
      AddedStep(before, refs, m, list[..i], s);
      refs := refs[s := Lookup(refs, s) + [m]];
    }
    assert list[..|list|] == list;
  }

  /** The lists hold the references of the maps below `m`. */
  ghost predicate RefersBelow(lib: Library, refs: map<nat, seq<nat>>, m: nat)
    requires lib.Valid() && m <= |lib.maps|
  {
    forall s {:trigger ListsBelow(lib, refs, m, s)} :: ListsBelow(lib, refs, m, s)
  }

  ghost predicate ListsBelow(lib: Library, refs: map<nat, seq<nat>>, m: nat, s: nat)
    requires lib.Valid() && m <= |lib.maps|
  {
    Lookup(refs, s) == References(lib, s, m)
  }

  ghost predicate AllReferences(lib: Library, refs: map<nat, seq<nat>>)
    requires lib.Valid()
  {
    RefersBelow(lib, refs, |lib.maps|) && forall s: nat :: s in refs <==> s < |lib.shaders|
  }

  lemma {:induction false} RefersStep(lib: Library, before: map<nat, seq<nat>>, refs: map<nat, seq<nat>>, m: nat)
    requires lib.Valid() && m < |lib.maps|
    requires RefersBelow(lib, before, m) && Added(before, refs, m, lib.MapShaders(m))
    ensures RefersBelow(lib, refs, m + 1)
  {
    var n := m + 1;
    forall s
      ensures ListsBelow(lib, refs, n, s)
    {
      assert ListsBelow(lib, before, m, s) && AddedTo(before, refs, m, lib.MapShaders(m), s);
    }
  }

  lemma {:induction false} SortingChangesNothing(lib: Library, refs: map<nat, seq<nat>>, s: nat)
    requires lib.Valid() && RefersBelow(lib, refs, |lib.maps|)
    ensures SortBy(Lookup(refs, s), AtMost) == Lookup(refs, s)
  {
    assert ListsBelow(lib, refs, |lib.maps|, s);
    ReferencesSorted(lib, s, |lib.maps|);
    SortByOfSorted(References(lib, s, |lib.maps|), AtMost);
  }

  lemma {:induction false} SortingKeeps(lib: Library, refs: map<nat, seq<nat>>, s: nat)
    requires lib.Valid() && RefersBelow(lib, refs, |lib.maps|)
    ensures RefersBelow(lib, refs[s := SortBy(Lookup(refs, s), AtMost)], |lib.maps|)
  {
    SortingChangesNothing(lib, refs, s);
    var sorted := refs[s := SortBy(Lookup(refs, s), AtMost)];
    forall t
      ensures ListsBelow(lib, sorted, |lib.maps|, t)
    {
      assert ListsBelow(lib, refs, |lib.maps|, t);
    }
  }

  /** `x` stands in `list` this often. */
  ghost predicate Occurs(list: seq<nat>, x: nat, count: nat) {
    multiset(list)[x] == count
  }

  lemma {:induction false} OccursPlus(a: seq<nat>, b: seq<nat>, x: nat, m: nat, n: nat)
    requires Occurs(a, x, m) && Occurs(b, x, n)
    ensures Occurs(a + b, x, m + n)
  {
  }

  lemma {:induction false} RepeatCount(x: nat, n: nat, y: nat)
    ensures Occurs(Repeat(x, n), y, if y == x then n else 0)
  {
    if n > 0 {
      RepeatCount(x, n - 1, y);
      OccursPlus(Repeat(x, n - 1), [x], y, if y == x then n - 1 else 0, if y == x then 1 else 0);
    }
  }

  lemma {:induction false} ReferencesCount(lib: Library, s: nat, n: nat, m: nat, count: nat)
    requires lib.Valid() && n <= |lib.maps| && m < |lib.maps| && Occurs(lib.MapShaders(m), s, count)
    ensures Occurs(References(lib, s, n), m, if m < n then count else 0)
  {
    if n > 0 {
      var last := multiset(lib.MapShaders(n - 1))[s];
      RepeatCount(n - 1, last, m);
      ReferencesCount(lib, s, n - 1, m, count);
      OccursPlus(References(lib, s, n - 1), Repeat(n - 1, last), m, if m < n - 1 then count else 0,
                 if m == n - 1 then last else 0);
    }
  }

  /** The list names map `m` as often as its range of the index table names shader `s`. */
  ghost predicate NamedAlike(lib: Library, list: seq<nat>, s: nat, m: nat)
    requires lib.Valid() && m < |lib.maps|
  {
    var e := lib.maps[m];
    multiset(list)[m] == multiset(lib.indices[e.offset..e.offset + e.count])[s]
  }

  /** The list names the maps that refer to shader `s` in ascending order, each as often
      as it does. */
  ghost predicate ListsReferrers(lib: Library, list: seq<nat>, s: nat)
    requires lib.Valid()
  {
    && (forall i, j :: 0 <= i < j < |list| ==> list[i] <= list[j])
    && (forall m :: m in list ==> m < |lib.maps|)
    && (forall m: nat {:trigger NamedAlike(lib, list, s, m)} :: m < |lib.maps| ==> NamedAlike(lib, list, s, m))
  }

  lemma {:induction false} ReferencesList(lib: Library, refs: map<nat, seq<nat>>, s: nat)
    requires lib.Valid() && AllReferences(lib, refs)
    ensures ListsReferrers(lib, Lookup(refs, s), s)
  {
    assert ListsBelow(lib, refs, |lib.maps|, s);
    var list := References(lib, s, |lib.maps|);
    ReferencesSorted(lib, s, |lib.maps|);
    assert forall i, j :: 0 <= i < j < |list| ==> AtMost(list[i], list[j]);
    forall m: nat | m < |lib.maps|
      ensures NamedAlike(lib, list, s, m)
    {
      ReferencesCount(lib, s, |lib.maps|, m, multiset(lib.MapShaders(m))[s]);
    }
  }

  lemma {:induction false} ReferencesListed(lib: Library, refs: map<nat, seq<nat>>)
    requires lib.Valid() && AllReferences(lib, refs)
    ensures forall s :: s in refs ==> ListsReferrers(lib, refs[s], s)
  {
    forall s | s in refs
      ensures ListsReferrers(lib, refs[s], s)
    {
      ReferencesList(lib, refs, s);
    }
  }

  /** The sorted list of referring maps of every shader. */
  method CollectReferences(lib: Library) returns (refs: map<nat, seq<nat>>)
    requires lib.Valid()
    ensures AllReferences(lib, refs)
    ensures forall s :: s in refs ==> ListsReferrers(lib, refs[s], s)
  {
    refs := map[];
    assert forall s :: ListsBelow(lib, refs, 0, s);
    for m := 0 to |lib.maps|
      invariant forall s :: s in refs ==> s < |lib.shaders|
      invariant RefersBelow(lib, refs, m)
    {
      ghost var before := refs;
      refs := AddMap(lib, m, refs);
      RefersStep(lib, before, refs, m);
    }
    for s := 0 to |lib.shaders|
      invariant forall t: nat :: t in refs ==> t < |lib.shaders|
      invariant forall t: nat :: t < s ==> t in refs
      invariant RefersBelow(lib, refs, |lib.maps|)
    {
      SortingKeeps(lib, refs, s);
      refs := refs[s := SortBy(Lookup(refs, s), AtMost)];
    }
    ReferencesListed(lib, refs);
  }

  // ------------------------------------------------------------- sorted streaks

  predicate LexLe(a: seq<nat>, b: seq<nat>) {
    a == [] || (b != [] && (a[0] < b[0] || (a[0] == b[0] && LexLe(a[1..], b[1..]))))
  }

  lemma {:induction false} LexTotal(a: seq<nat>, b: seq<nat>)
    ensures LexLe(a, b) || LexLe(b, a)
    ensures LexLe(a, b) && LexLe(b, a) ==> a == b
  {
    if a != [] && b != [] {
      LexTotal(a[1..], b[1..]);
      assert a == [a[0]] + a[1..] && b == [b[0]] + b[1..];
    }
  }

  /** The lists agree up to position `k`, where the first one has the smaller number. */
  ghost predicate SmallerAt(a: seq<nat>, b: seq<nat>, k: nat) {
    k < |a| && k < |b| && a[..k] == b[..k] && a[k] < b[k]
  }

  lemma {:induction false} LexFirstDifference(a: seq<nat>, b: seq<nat>) returns (k: nat)
    requires |a| == |b| && a != b && LexLe(a, b)
    ensures SmallerAt(a, b, k)
  {
    if a[0] < b[0] {
      k := 0;
    } else {
      assert a == [a[0]] + a[1..] && b == [b[0]] + b[1..];
      k := LexFirstDifference(a[1..], b[1..]);
      k := k + 1;
      assert a[..k] == [a[0]] + a[1..][..k - 1] && b[..k] == [b[0]] + b[1..][..k - 1];
    }
  }

  lemma {:induction false} LexTransitive(a: seq<nat>, b: seq<nat>, c: seq<nat>)
    requires LexLe(a, b) && LexLe(b, c)
    ensures LexLe(a, c)
  {
    if a != [] {
      if a[0] == b[0] == c[0] {
        LexTransitive(a[1..], b[1..], c[1..]);
      }
    }
  }

  /** Fewer references first, then the lists in lexicographic order, then the index. */
  predicate KeyLe(a: seq<nat>, i: nat, b: seq<nat>, j: nat) {
    || |a| < |b|
    || (|a| == |b| && a != b && LexLe(a, b))
    || (a == b && i <= j)
  }

  predicate ShaderLe(refs: map<nat, seq<nat>>, i: nat, j: nat) {
    KeyLe(Lookup(refs, i), i, Lookup(refs, j), j)
  }

  function Order(refs: map<nat, seq<nat>>): (nat, nat) -> bool {
    (i: nat, j: nat) => ShaderLe(refs, i, j)
  }

  lemma {:induction false} KeyLeTransitive(a: seq<nat>, i: nat, b: seq<nat>, j: nat, c: seq<nat>, k: nat)
    requires KeyLe(a, i, b, j) && KeyLe(b, j, c, k)
    ensures KeyLe(a, i, c, k)
  {
    if LexLe(a, b) && LexLe(b, c) {
      LexTransitive(a, b, c);
    }
    LexTotal(a, b);
    LexTotal(b, c);
  }

  lemma {:induction false} OrderIsTotal(refs: map<nat, seq<nat>>)
    ensures TotalPreorder(Order(refs)) && Antisymmetric(Order(refs))
  {
    forall i: nat, j: nat
      ensures ShaderLe(refs, i, j) || ShaderLe(refs, j, i)
      ensures ShaderLe(refs, i, j) && ShaderLe(refs, j, i) ==> i == j
    {
      LexTotal(Lookup(refs, i), Lookup(refs, j));
    }
    forall i: nat, j: nat, k: nat | ShaderLe(refs, i, j) && ShaderLe(refs, j, k)
      ensures ShaderLe(refs, i, k)
    {
      KeyLeTransitive(Lookup(refs, i), i, Lookup(refs, j), j, Lookup(refs, k), k);
    }
  }

  /** Equal lists are neighbours: whatever lies between two shaders with equal
      references has the same references. */
  lemma {:induction false} BetweenEquals(a: seq<nat>, i: nat, b: seq<nat>, j: nat, c: seq<nat>, k: nat)
    requires KeyLe(a, i, b, j) && KeyLe(b, j, c, k) && a == c
    ensures a == b
  {
    LexTotal(a, b);
  }

  /** Shader `i` with list `a` stands before shader `j` with list `b`: its list is
      shorter, or has the smaller number where they first differ, or is the same and the
      index is smaller. */
  ghost predicate StandsBefore(a: seq<nat>, i: nat, b: seq<nat>, j: nat) {
    |a| < |b| || (|a| == |b| && exists k: nat :: SmallerAt(a, b, k)) || (a == b && i <= j)
  }

  ghost predicate InOrder(refs: map<nat, seq<nat>>, sorted: seq<nat>) {
    forall i, j :: 0 <= i < j < |sorted| ==>
      StandsBefore(Lookup(refs, sorted[i]), sorted[i], Lookup(refs, sorted[j]), sorted[j])
  }

  lemma {:induction false} KeyOrders(a: seq<nat>, i: nat, b: seq<nat>, j: nat)
    requires KeyLe(a, i, b, j)
    ensures StandsBefore(a, i, b, j)
  {
    if |a| == |b| && a != b {
      var k := LexFirstDifference(a, b);
    }
  }

  lemma {:induction false} SortedInOrder(refs: map<nat, seq<nat>>, sorted: seq<nat>)
    requires SortedBy(sorted, Order(refs))
    ensures InOrder(refs, sorted)
  {
    forall i, j | 0 <= i < j < |sorted|
      ensures StandsBefore(Lookup(refs, sorted[i]), sorted[i], Lookup(refs, sorted[j]), sorted[j])
    {
      assert Order(refs)(sorted[i], sorted[j]);
      KeyOrders(Lookup(refs, sorted[i]), sorted[i], Lookup(refs, sorted[j]), sorted[j]);
    }
  }

  /** The shaders in their canonical order; map iteration order does not matter. */
  method SortedShaders(refs: map<nat, seq<nat>>) returns (sorted: seq<nat>)
    ensures multiset(sorted) == multiset(refs.Keys)
    ensures SortedBy(sorted, Order(refs)) && InOrder(refs, sorted)
  {
    var left := refs.Keys;
    var keys := [];
    while left != {}
      invariant multiset(keys) + multiset(left) == multiset(refs.Keys)
      decreases left
    {
      var s :| s in left;
      keys := keys + [s];
      left := left - {s};
    }
    OrderIsTotal(refs);
    sorted := SortBy(keys, Order(refs));
    SortBySorted(keys, Order(refs));
    SortedInOrder(refs, sorted);
  }

  lemma {:induction false} SortedShadersUnique(refs: map<nat, seq<nat>>, s: seq<nat>, t: seq<nat>)
    requires multiset(s) == multiset(t) && SortedBy(s, Order(refs)) && SortedBy(t, Order(refs))
    ensures s == t
  {
    OrderIsTotal(refs);
    SortedUnique(s, t, Order(refs));
  }

  // ------------------------------------------------------------------- classes

  function Concat(groups: seq<seq<nat>>): seq<nat> {
    if groups == [] then [] else Concat(groups[..|groups| - 1]) + groups[|groups| - 1]
  }

  lemma {:induction false} ConcatAppend(groups: seq<seq<nat>>, g: seq<nat>)
    ensures Concat(groups + [g]) == Concat(groups) + g
  {
    assert (groups + [g])[..|groups|] == groups;
  }

  lemma {:induction false} ConcatPlus(a: seq<seq<nat>>, b: seq<seq<nat>>)
    ensures Concat(a + b) == Concat(a) + Concat(b)
  {
    if b == [] {
      assert a + b == a;
    } else {
      var n := |b| - 1;
      ConcatPlus(a, b[..n]);
      assert (a + b)[..|a + b| - 1] == a + b[..n];
    }
  }

  lemma {:induction false} InConcat(groups: seq<seq<nat>>, x: nat)
    ensures x in Concat(groups) <==> exists i :: 0 <= i < |groups| && x in groups[i]
  {
    if groups != [] {
      var n := |groups| - 1;
      InConcat(groups[..n], x);
      assert x in Concat(groups) <==> x in Concat(groups[..n]) || x in groups[n];
    }
  }

  ghost predicate Uniform<K(!new)>(g: seq<nat>, key: nat -> K) {
    forall x, y :: x in g && y in g ==> key(x) == key(y)
  }

  ghost predicate Apart<K(!new)>(g: seq<nat>, h: seq<nat>, key: nat -> K) {
    forall x, y :: x in g && y in h ==> key(x) != key(y)
  }

  /** The groups are the classes of shaders with equal keys. */
  ghost predicate Classes<K(!new)>(groups: seq<seq<nat>>, key: nat -> K) {
    && (forall i :: 0 <= i < |groups| ==> groups[i] != [] && Uniform(groups[i], key))
    && (forall i, j :: 0 <= i < j < |groups| ==> Apart(groups[i], groups[j], key))
  }

  function ByReferences(refs: map<nat, seq<nat>>): nat -> seq<nat> {
    (s: nat) => Lookup(refs, s)
  }

  /** Consecutive streaks of equal keys. */
  ghost predicate Streaks<K(!new)>(groups: seq<seq<nat>>, key: nat -> K) {
    && (forall i :: 0 <= i < |groups| ==> groups[i] != [] && Uniform(groups[i], key))
    && (forall i :: 0 < i < |groups| ==> Apart(groups[i - 1], groups[i], key))
  }

  lemma {:induction false} StreaksAppend<K(!new)>(groups: seq<seq<nat>>, g: seq<nat>, key: nat -> K)
    requires Streaks(groups, key) && g != [] && Uniform(g, key)
    requires groups != [] ==> Apart(groups[|groups| - 1], g, key)
    ensures Streaks(groups + [g], key) && Concat(groups + [g]) == Concat(groups) + g
  {
    ConcatAppend(groups, g);
    var more := groups + [g];
    forall i | 0 < i < |more|
      ensures Apart(more[i - 1], more[i], key)
    {
      assert i < |groups| ==> Apart(groups[i - 1], groups[i], key);
    }
  }

  /** The state while cutting: the finished streaks, and the current one with its
      references. */
  ghost predicate Cutting(refs: map<nat, seq<nat>>, done: seq<nat>, groups: seq<seq<nat>>, current: seq<nat>,
                          last: seq<nat>)
  {
    && Concat(groups) + current == done
    && Streaks(groups, ByReferences(refs))
    && (current == [] ==> groups == [])
    && (forall x :: x in current ==> Lookup(refs, x) == last)
    && (groups != [] ==> forall x :: x in groups[|groups| - 1] ==> Lookup(refs, x) != last)
  }

  lemma {:induction false} CuttingExtends(refs: map<nat, seq<nat>>, done: seq<nat>, groups: seq<seq<nat>>,
                                          current: seq<nat>, last: seq<nat>, s: nat)
    requires Cutting(refs, done, groups, current, last)
    requires current == [] || Lookup(refs, s) == last
    ensures Cutting(refs, done + [s], groups, current + [s], Lookup(refs, s))
  {
    assert Concat(groups) + (current + [s]) == Concat(groups) + current + [s];
  }

  lemma {:induction false} CuttingCuts(refs: map<nat, seq<nat>>, done: seq<nat>, groups: seq<seq<nat>>,
                                       current: seq<nat>, last: seq<nat>)
    requires Cutting(refs, done, groups, current, last) && current != []
    ensures Streaks(groups + [current], ByReferences(refs)) && Concat(groups + [current]) == done
  {
    StreaksAppend(groups, current, ByReferences(refs));
  }

  /** Cuts the sorted shaders where the references change. */
  method SplitStreaks(refs: map<nat, seq<nat>>, sorted: seq<nat>) returns (groups: seq<seq<nat>>)
    ensures Concat(groups) == sorted && Streaks(groups, ByReferences(refs))
  {
    groups := [];
    var current: seq<nat> := [];
    var last: seq<nat> := [];
    for i := 0 to |sorted|
      invariant Cutting(refs, sorted[..i], groups, current, last)
    {
      var s := sorted[i];
      assert sorted[..i + 1] == sorted[..i] + [s];
      var referring := Lookup(refs, s);
      if current == [] {
        CuttingExtends(refs, sorted[..i], groups, current, last, s);
        current, last := [s], referring;
      } else if last != referring {
        CuttingCuts(refs, sorted[..i], groups, current, last);
        groups := groups + [current];
        current, last := [s], referring;
      } else {
        CuttingExtends(refs, sorted[..i], groups, current, last, s);
        current := current + [s];
      }
    }
    assert sorted[..|sorted|] == sorted;
    if current != [] {
      CuttingCuts(refs, sorted, groups, current, last);
      groups := groups + [current];
    }
  }

  lemma {:induction false} ConcatOrdered(groups: seq<seq<nat>>, le: (nat, nat) -> bool, a: nat, b: nat, x: nat, y: nat)
    requires SortedBy(Concat(groups), le) && a < b < |groups| && x in groups[a] && y in groups[b]
    ensures le(x, y)
  {
    var front := groups[..b];
    InConcat(front, x);
    assert front[a] == groups[a];
    assert groups == front + groups[b..];
    ConcatPlus(front, groups[b..]);
    InConcat(groups[b..], y);
    assert groups[b..][0] == groups[b];
    var i :| 0 <= i < |Concat(front)| && Concat(front)[i] == x;
    var j :| 0 <= j < |Concat(groups[b..])| && Concat(groups[b..])[j] == y;
    assert le(Concat(groups)[i], Concat(groups)[|Concat(front)| + j]);
  }

  /** In sorted order streaks are classes: equal references never come back. */
  lemma {:induction false} StreaksAreClasses(refs: map<nat, seq<nat>>, groups: seq<seq<nat>>)
    requires Streaks(groups, ByReferences(refs)) && SortedBy(Concat(groups), Order(refs))
    ensures Classes(groups, ByReferences(refs))
  {
    forall i, j | 0 <= i < j < |groups|
      ensures Apart(groups[i], groups[j], ByReferences(refs))
    {
      forall x, y | x in groups[i] && y in groups[j]
        ensures Lookup(refs, x) != Lookup(refs, y)
      {
        StreaksDiffer(refs, groups, i, j, x, y);
      }
    }
  }

  lemma {:induction false} StreaksDiffer(refs: map<nat, seq<nat>>, groups: seq<seq<nat>>, i: nat, j: nat, x: nat,
                                         y: nat)
    requires Streaks(groups, ByReferences(refs)) && SortedBy(Concat(groups), Order(refs))
    requires i < j < |groups| && x in groups[i] && y in groups[j]
    ensures Lookup(refs, x) != Lookup(refs, y)
  {
    assert Apart(groups[i + 1 - 1], groups[i + 1], ByReferences(refs));
    var z := groups[i + 1][0];
    assert ByReferences(refs)(x) != ByReferences(refs)(z);
    if i + 1 < j && Lookup(refs, x) == Lookup(refs, y) {
      ConcatOrdered(groups, Order(refs), i, i + 1, x, z);
      ConcatOrdered(groups, Order(refs), i + 1, j, z, y);
      BetweenEquals(Lookup(refs, x), x, Lookup(refs, z), z, Lookup(refs, y), y);
    }
  }

  // ---------------------------------------------------------- raytracing shaders

  /** RayGen, RayMiss, RayHitGroup and RayCallable. */
  predicate IsRaytracing(frequency: nat) {
    frequency == 6 || frequency == 7 || frequency == 8 || frequency == 9
  }

  predicate Raytraced(lib: Library, s: nat) {
    s < |lib.shaders| && IsRaytracing(lib.shaders[s].frequency)
  }

  function ByKind(lib: Library, refs: map<nat, seq<nat>>): nat -> (seq<nat>, bool) {
    (s: nat) => (Lookup(refs, s), Raytraced(lib, s))
  }

  ghost predicate OneKind(lib: Library, g: seq<nat>, raytraced: bool) {
    forall x :: x in g ==> Raytraced(lib, x) == raytraced
  }

  /** A group as it was, all of one kind, or its two kinds apart. */
  ghost predicate KindsSplit(lib: Library, g: seq<nat>, parts: seq<seq<nat>>) {
    || (parts == [g] && g != [] && (OneKind(lib, g, false) || OneKind(lib, g, true)))
    || (|parts| == 2 && parts[0] != [] && parts[1] != [] && OneKind(lib, parts[0], false) &&
        OneKind(lib, parts[1], true)
        && multiset(parts[0]) + multiset(parts[1]) == multiset(g))
  }

  /** Separates the raytracing shaders of a group from the others. */
  method SplitRaytracing(lib: Library, g: seq<nat>) returns (parts: seq<seq<nat>>)
    requires g != []
    ensures KindsSplit(lib, g, parts)
  {
    var others: seq<nat> := [];
    var raytracing: seq<nat> := [];
    for i := 0 to |g|
      invariant multiset(others) + multiset(raytracing) == multiset(g[..i])
      invariant OneKind(lib, others, false) && OneKind(lib, raytracing, true)
    {
      assert g[..i + 1] == g[..i] + [g[i]];
      if Raytraced(lib, g[i]) {
        raytracing := raytracing + [g[i]];
      } else {
        others := others + [g[i]];
      }
    }
    assert g[..|g|] == g;
    if others != [] && raytracing != [] {
      return [others, raytracing];
    }
    SameElements(g, if others == [] then raytracing else others);
    parts := [g];
  }

  lemma {:induction false} ConcatOfParts(lib: Library, g: seq<nat>, parts: seq<seq<nat>>)
    requires KindsSplit(lib, g, parts)
    ensures multiset(Concat(parts)) == multiset(g)
  {
    if |parts| == 2 {
      assert parts == [parts[0]] + [parts[1]];
      ConcatAppend([parts[0]], parts[1]);
    }
    assert [] + [parts[0]] == [parts[0]];
    ConcatAppend([], parts[0]);
  }

  lemma {:induction false} PartsAreClasses(lib: Library, refs: map<nat, seq<nat>>, g: seq<nat>, parts: seq<seq<nat>>)
    requires Uniform(g, ByReferences(refs)) && KindsSplit(lib, g, parts)
    ensures Classes(parts, ByKind(lib, refs))
  {
    ConcatOfParts(lib, g, parts);
    forall i | 0 <= i < |parts|
      ensures Uniform(parts[i], ByKind(lib, refs))
    {
      forall x, y | x in parts[i] && y in parts[i]
        ensures ByKind(lib, refs)(x) == ByKind(lib, refs)(y)
      {
        PartMember(g, parts, i, x);
        PartMember(g, parts, i, y);
        assert ByReferences(refs)(x) == ByReferences(refs)(y);
        assert Raytraced(lib, x) == Raytraced(lib, y);
      }
    }
    if |parts| == 2 {
      forall x, y | x in parts[0] && y in parts[1]
        ensures ByKind(lib, refs)(x) != ByKind(lib, refs)(y)
      {
        assert !Raytraced(lib, x) && Raytraced(lib, y);
      }
      assert Apart(parts[0], parts[1], ByKind(lib, refs));
    }
  }

  lemma {:induction false} PartMember(g: seq<nat>, parts: seq<seq<nat>>, i: nat, x: nat)
    requires multiset(Concat(parts)) == multiset(g) && i < |parts| && x in parts[i]
    ensures x in g
  {
    InConcat(parts, x);
    SameElements(Concat(parts), g);
  }

  /** Classes refined group by group stay classes. */
  lemma {:induction false} ClassesExtend(lib: Library, refs: map<nat, seq<nat>>, groups: seq<seq<nat>>, n: nat,
                                         refined: seq<seq<nat>>, parts: seq<seq<nat>>)
    requires Classes(groups, ByReferences(refs)) && n < |groups|
    requires Classes(refined, ByKind(lib, refs)) && multiset(Concat(refined)) == multiset(Concat(groups[..n]))
    requires Classes(parts, ByKind(lib, refs)) && multiset(Concat(parts)) == multiset(groups[n])
    ensures Classes(refined + parts, ByKind(lib, refs))
  {
    var all := refined + parts;
    forall i, j | 0 <= i < j < |all|
      ensures Apart(all[i], all[j], ByKind(lib, refs))
    {
      if i < |refined| <= j {
        forall x, y | x in refined[i] && y in parts[j - |refined|]
          ensures ByKind(lib, refs)(x) != ByKind(lib, refs)(y)
        {
          PartMember(groups[n], parts, j - |refined|, y);
          RefinedMember(groups, n, refined, i, x, ByReferences(refs), y);
        }
      } else if j < |refined| {
        assert Apart(refined[i], refined[j], ByKind(lib, refs));
      } else {
        assert Apart(parts[i - |refined|], parts[j - |refined|], ByKind(lib, refs));
      }
    }
  }

  lemma {:induction false} RefinedMember<K(!new)>(groups: seq<seq<nat>>, n: nat, refined: seq<seq<nat>>, i: nat,
                                                  x: nat, key: nat -> K, y: nat)
    requires Classes(groups, key) && n < |groups| && multiset(Concat(refined)) == multiset(Concat(groups[..n]))
    requires i < |refined| && x in refined[i] && y in groups[n]
    ensures key(x) != key(y)
  {
    InConcat(refined, x);
    SameElements(Concat(refined), Concat(groups[..n]));
    InConcat(groups[..n], x);
    var a :| 0 <= a < |groups[..n]| && x in groups[..n][a];
    assert Apart(groups[a], groups[n], key);
  }

  /** Separates the raytracing shaders in all groups. */
  method SeparateRaytracing(lib: Library, ghost refs: map<nat, seq<nat>>, groups: seq<seq<nat>>)
    returns (refined: seq<seq<nat>>)
    requires Classes(groups, ByReferences(refs))
    ensures Classes(refined, ByKind(lib, refs))
    ensures multiset(Concat(refined)) == multiset(Concat(groups))
  {
    refined := [];
    for i := 0 to |groups|
      invariant Classes(refined, ByKind(lib, refs))
      invariant multiset(Concat(refined)) == multiset(Concat(groups[..i]))
    {
      var parts := SplitRaytracing(lib, groups[i]);
      RefineStep(lib, refs, groups, i, refined, parts);
      refined := refined + parts;
    }
    assert groups[..|groups|] == groups;
  }

  lemma {:induction false} RefineStep(lib: Library, refs: map<nat, seq<nat>>, groups: seq<seq<nat>>, n: nat,
                                      refined: seq<seq<nat>>, parts: seq<seq<nat>>)
    requires Classes(groups, ByReferences(refs)) && n < |groups| && KindsSplit(lib, groups[n], parts)
    requires Classes(refined, ByKind(lib, refs)) && multiset(Concat(refined)) == multiset(Concat(groups[..n]))
    ensures Classes(refined + parts, ByKind(lib, refs))
    ensures multiset(Concat(refined + parts)) == multiset(Concat(groups[..n + 1]))
  {
    PartsAreClasses(lib, refs, groups[n], parts);
    ConcatOfParts(lib, groups[n], parts);
    ClassesExtend(lib, refs, groups, n, refined, parts);
    ConcatPlus(refined, parts);
    ConcatAppend(groups[..n], groups[n]);
    assert groups[..n + 1] == groups[..n] + [groups[n]];
  }
}
