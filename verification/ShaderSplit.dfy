/** Splitting shader groups that are too large: largest shader first, each into the
    smallest group so far. */
module ShaderSplit {
  import opened Arithmetic
  import opened Bytes
  import opened Sequences
  import opened Sorting
  import opened ShaderGroups

  function SizeAt(lib: Library, s: nat): nat {
    if s < |lib.shaders| then lib.shaders[s].uncompressedSize else 0
  }

  function SizeOf(lib: Library, g: seq<nat>): nat {
    if g == [] then 0 else SizeOf(lib, g[..|g| - 1]) + SizeAt(lib, g[|g| - 1])
  }

  lemma {:induction false} SizeOfPlus(lib: Library, a: seq<nat>, b: seq<nat>)
    ensures SizeOf(lib, a + b) == SizeOf(lib, a) + SizeOf(lib, b)
  {
    if b == [] {
      assert a + b == a;
    } else {
      var n := |b| - 1;
      SizeOfPlus(lib, a, b[..n]);
      assert (a + b)[..|a + b| - 1] == a + b[..n];
    }
  }

  lemma {:induction false} SizeOfOne(lib: Library, s: nat)
    ensures SizeOf(lib, [s]) == SizeAt(lib, s)
  {
    assert [s][..0] == [];
  }

  lemma {:induction false} SizeOfRemove(lib: Library, t: seq<nat>, i: nat)
    requires i < |t|
    ensures SizeOf(lib, t) == SizeOf(lib, t[..i] + t[i + 1..]) + SizeAt(lib, t[i])
    ensures multiset(t) == multiset(t[..i] + t[i + 1..]) + multiset{t[i]}
  {
    var a, b := t[..i], t[i + 1..];
    assert t == a + ([t[i]] + b);
    SizeOfPlus(lib, a, b);
    SizeOfPlus(lib, a, [t[i]] + b);
    SizeOfPlus(lib, [t[i]], b);
    SizeOfOne(lib, t[i]);
  }

  lemma {:induction false} Cancel<T>(a: multiset<T>, b: multiset<T>, x: T)
    requires a + multiset{x} == b + multiset{x}
    ensures a == b
  {
    assert a == a + multiset{x} - multiset{x};
    assert b == b + multiset{x} - multiset{x};
  }

  lemma {:induction false} SizeOfPermutation(lib: Library, s: seq<nat>, t: seq<nat>)
    requires multiset(s) == multiset(t)
    ensures SizeOf(lib, s) == SizeOf(lib, t)
    decreases |s|
  {
    SameElements(s, t);
    if s != [] {
      assert s[0] in s;
      var i :| 0 <= i < |t| && t[i] == s[0];
      SizeOfRemove(lib, s, 0);
      SizeOfRemove(lib, t, i);
      Cancel(multiset(s[..0] + s[1..]), multiset(t[..i] + t[i + 1..]), s[0]);
      SizeOfPermutation(lib, s[..0] + s[1..], t[..i] + t[i + 1..]);
    }
  }

  /** The order by uncompressed size, then size, frequency and offset. */
  predicate AscendingLe(a: Shader, b: Shader) {
    || a.uncompressedSize < b.uncompressedSize
    || (a.uncompressedSize == b.uncompressedSize
        && (|| a.size < b.size
            || (a.size == b.size
                && (a.frequency < b.frequency || (a.frequency == b.frequency && a.offset <= b.offset)))))
  }

  function ShaderAt(lib: Library, s: nat): Shader {
    if s < |lib.shaders| then lib.shaders[s] else Shader(0, 0, 0, 0)
  }

  function Ascending(lib: Library): (nat, nat) -> bool {
    (a: nat, b: nat) => AscendingLe(ShaderAt(lib, a), ShaderAt(lib, b))
  }

  function Descending(lib: Library): (nat, nat) -> bool {
    (a: nat, b: nat) => AscendingLe(ShaderAt(lib, b), ShaderAt(lib, a))
  }

  lemma {:induction false} OrdersAreTotal(lib: Library)
    ensures TotalPreorder(Ascending(lib)) && TotalPreorder(Descending(lib))
  {
  }

  // --------------------------------------------------------------------- bins

  /** The new groups with their sizes. */
  datatype Bins = Bins(groups: seq<seq<nat>>, sizes: seq<nat>) {
    ghost predicate Valid(lib: Library) {
      && |groups| == |sizes| > 0
      && forall j :: 0 <= j < |groups| ==> sizes[j] == SizeOf(lib, groups[j])
    }
  }

  /** The first of the smallest sizes. */
  ghost predicate IsFirstSmallest(sizes: seq<nat>, m: nat) {
    && m < |sizes|
    && (forall j :: 0 <= j < |sizes| ==> sizes[m] <= sizes[j])
    && (forall j :: 0 <= j < m ==> sizes[m] < sizes[j])
  }

  function SmallestBelow(sizes: seq<nat>, n: nat): (r: nat)
    requires 0 < n <= |sizes|
    ensures r < n
    ensures forall j :: 0 <= j < n ==> sizes[r] <= sizes[j]
    ensures forall j :: 0 <= j < r ==> sizes[r] < sizes[j]
  {
    if n == 1 then 0
    else
      var m := SmallestBelow(sizes, n - 1);
      if sizes[n - 1] < sizes[m] then n - 1 else m
  }

  function FirstSmallest(sizes: seq<nat>): (r: nat)
    requires sizes != []
    ensures IsFirstSmallest(sizes, r)
  {
    SmallestBelow(sizes, |sizes|)
  }

  function AddTo(lib: Library, b: Bins, m: nat, s: nat): (r: Bins)
    requires b.Valid(lib) && m < |b.groups|
    ensures r.Valid(lib) && |r.groups| == |b.groups|
  {
    SizeOfPlus(lib, b.groups[m], [s]);
    SizeOfOne(lib, s);
    Bins(b.groups[m := b.groups[m] + [s]], b.sizes[m := b.sizes[m] + SizeAt(lib, s)])
  }

  function AddToSmallest(lib: Library, b: Bins, s: nat): (r: Bins)
    requires b.Valid(lib)
    ensures r.Valid(lib) && |r.groups| == |b.groups|
  {
    AddTo(lib, b, FirstSmallest(b.sizes), s)
  }

  function Greedy(lib: Library, b: Bins, shaders: seq<nat>): (r: Bins)
    requires b.Valid(lib)
    ensures r.Valid(lib) && |r.groups| == |b.groups|
    decreases |shaders|
  {
    if shaders == [] then b
    else AddToSmallest(lib, Greedy(lib, b, shaders[..|shaders| - 1]), shaders[|shaders| - 1])
  }

  function EmptyBins(k: nat): Bins {
    Bins(seq(k, _ => []), seq(k, _ => 0))
  }

  /** Groups within the limit and single shaders stay as they are. */
  function PartCount(lib: Library, limit: nat, g: seq<nat>): (k: nat)
    requires limit > 0 && g != []
    ensures 0 < k <= |g|
  {
    if SizeOf(lib, g) <= limit || |g| == 1 then 1 else Min(SizeOf(lib, g) / limit + 1, |g|)
  }

  function SplitGroup(lib: Library, limit: nat, g: seq<nat>): seq<seq<nat>>
    requires limit > 0 && g != []
  {
    if SizeOf(lib, g) <= limit || |g| == 1 then [g]
    else Greedy(lib, EmptyBins(PartCount(lib, limit, g)), SortBy(g, Descending(lib))).groups
  }

  // -------------------------------------------------------------- the size bound

  /** All of the group but its smallest shader is below the limit; with a shader of size
      zero, the group is within the limit. */
  ghost predicate Bounded(lib: Library, limit: nat, g: seq<nat>) {
    forall x :: x in g ==> SizeOf(lib, g) < limit + Max(1, SizeAt(lib, x))
  }

  /** What holds after the shaders in `done` have been placed into `k` groups. */
  ghost predicate Placing(lib: Library, limit: nat, b: Bins, done: seq<nat>) {
    b.Valid(lib) && GroupsHold(lib, limit, b.groups, done) && SizesCount(lib, b.sizes, done)
  }

  ghost predicate GroupsHold(lib: Library, limit: nat, groups: seq<seq<nat>>, done: seq<nat>) {
    Holds(groups, done) && AllBounded(lib, limit, groups) && Filled(groups, Used(lib, done))
  }

  ghost predicate SizesCount(lib: Library, sizes: seq<nat>, done: seq<nat>) {
    SumIs(lib, sizes, done) && Charged(sizes, Positives(lib, done))
  }

  /** Every shader of positive size counts as one, every other as zero. */
  function Units(lib: Library): Library {
    Library(seq(|lib.shaders|, s requires 0 <= s < |lib.shaders| =>
              Shader(if lib.shaders[s].uncompressedSize > 0 then 1 else 0, 0, 0, 0)), [], [])
  }

  /** The number of shaders of positive size. */
  function Positives(lib: Library, g: seq<nat>): nat {
    SizeOf(Units(lib), g)
  }

  /** How many groups are in use: those of positive size, and one for the other shaders. */
  function Used(lib: Library, done: seq<nat>): nat {
    Positives(lib, done) + if |done| > Positives(lib, done) then 1 else 0
  }

  /** The first `p` groups have a positive size. */
  ghost predicate Charged(sizes: seq<nat>, p: nat) {
    forall j :: 0 <= j < |sizes| ==> (sizes[j] > 0 <==> j < p)
  }

  ghost predicate SumIs(lib: Library, sizes: seq<nat>, done: seq<nat>) {
    PrefixSum(sizes, |sizes|) == SizeOf(lib, done)
  }

  /** The groups hold exactly these shaders. */
  ghost predicate Holds(groups: seq<seq<nat>>, done: seq<nat>) {
    multiset(Concat(groups)) == multiset(done)
  }

  ghost predicate AllBounded(lib: Library, limit: nat, groups: seq<seq<nat>>) {
    forall j :: 0 <= j < |groups| ==> Bounded(lib, limit, groups[j])
  }

  /** The first `n` groups are in use. */
  ghost predicate Filled(groups: seq<seq<nat>>, n: nat) {
    forall j :: 0 <= j < |groups| ==> (groups[j] == [] <==> j >= n)
  }

  lemma {:induction false} PrefixSumUpdate(sizes: seq<nat>, m: nat, v: nat, n: nat)
    requires m < |sizes| && n <= |sizes|
    ensures PrefixSum(sizes[m := sizes[m] + v], n) == PrefixSum(sizes, n) + if m < n then v else 0
  {
    if n > 0 {
      PrefixSumUpdate(sizes, m, v, n - 1);
    }
  }

  lemma {:induction false} ConcatUpdate(groups: seq<seq<nat>>, m: nat, s: nat)
    requires m < |groups|
    ensures multiset(Concat(groups[m := groups[m] + [s]])) == multiset(Concat(groups)) + multiset{s}
  {
    var n := |groups| - 1;
    var more := groups[m := groups[m] + [s]];
    if m == n {
      assert more[..n] == groups[..n];
    } else {
      ConcatUpdate(groups[..n], m, s);
      assert more[..n] == groups[..n][m := groups[..n][m] + [s]];
      assert more[n] == groups[n];
    }
  }

  /** The smallest of several numbers is at most their average. */
  lemma {:induction false} SmallestIsSmall(sizes: seq<nat>, low: nat, n: nat)
    requires n <= |sizes| && forall j :: 0 <= j < n ==> low <= sizes[j]
    ensures low * n <= PrefixSum(sizes, n)
  {
    if n > 0 {
      SmallestIsSmall(sizes, low, n - 1);
    }
  }

  lemma {:induction false} BelowLimit(low: nat, k: nat, total: nat, limit: nat)
    requires low * k <= total && total < limit * k
    ensures low < limit
  {
    assert low >= limit ==> low * k >= limit * k;
  }

  lemma {:induction false} PositivesPush(lib: Library, done: seq<nat>, s: nat)
    ensures Positives(lib, done + [s]) == Positives(lib, done) + if SizeAt(lib, s) > 0 then 1 else 0
  {
    SizeOfPlus(Units(lib), done, [s]);
    SizeOfOne(Units(lib), s);
  }

  lemma {:induction false} PositivesBound(lib: Library, g: seq<nat>)
    ensures Positives(lib, g) <= |g|
    ensures (forall x :: x in g ==> SizeAt(lib, x) > 0) ==> Positives(lib, g) == |g|
  {
    if g != [] {
      var n := |g| - 1;
      PositivesBound(lib, g[..n]);
      PositivesPush(lib, g[..n], g[n]);
      assert g == g[..n] + [g[n]];
    }
  }

  /** The group that receives the next shader is still below the limit: either it is
      empty or as good as empty, or there are enough groups for the smallest to be small. */
  lemma {:induction false} ReceiverIsSmall(lib: Library, limit: nat, b: Bins, done: seq<nat>, m: nat)
    requires Placing(lib, limit, b, done) && limit > 0
    requires Positives(lib, done) < |b.groups| || SizeOf(lib, done) < limit * |b.groups|
    requires IsFirstSmallest(b.sizes, m)
    ensures b.sizes[m] == SizeOf(lib, b.groups[m]) < limit
    ensures Positives(lib, done) < |b.groups| ==> m == Positives(lib, done) && b.sizes[m] == 0
  {
    var p := Positives(lib, done);
    if p < |b.groups| {
      assert b.sizes[p] == 0;
      assert b.sizes[m] <= b.sizes[p];
    } else {
      SmallestIsSmall(b.sizes, b.sizes[m], |b.sizes|);
      BelowLimit(b.sizes[m], |b.sizes|, SizeOf(lib, done), limit);
    }
  }

  lemma {:induction false} ReceiverBounded(lib: Library, limit: nat, g: seq<nat>, s: nat)
    requires SizeOf(lib, g) < limit && forall x :: x in g ==> SizeAt(lib, s) <= SizeAt(lib, x)
    ensures Bounded(lib, limit, g + [s])
  {
    assert (g + [s])[..|g + [s]| - 1] == g;
  }

  lemma {:induction false} FilledStep(lib: Library, groups: seq<seq<nat>>, done: seq<nat>, m: nat, s: nat)
    requires m < |groups| && Filled(groups, Used(lib, done))
    requires Positives(lib, done) < |groups| ==> m == Positives(lib, done)
    requires SizeAt(lib, s) > 0 ==> Positives(lib, done) == |done|
    ensures Filled(groups[m := groups[m] + [s]], Used(lib, done + [s]))
  {
    PositivesPush(lib, done, s);
    PositivesBound(lib, done);
  }

  lemma {:induction false} ChargedStep(lib: Library, sizes: seq<nat>, done: seq<nat>, m: nat, s: nat)
    requires m < |sizes| && Charged(sizes, Positives(lib, done))
    requires Positives(lib, done) < |sizes| ==> m == Positives(lib, done)
    ensures Charged(sizes[m := sizes[m] + SizeAt(lib, s)], Positives(lib, done + [s]))
  {
    PositivesPush(lib, done, s);
  }

  lemma {:induction false} BoundedStep(lib: Library, limit: nat, groups: seq<seq<nat>>, m: nat, s: nat)
    requires m < |groups| && AllBounded(lib, limit, groups)
    requires SizeOf(lib, groups[m]) < limit && forall x :: x in groups[m] ==> SizeAt(lib, s) <= SizeAt(lib, x)
    ensures AllBounded(lib, limit, groups[m := groups[m] + [s]])
  {
    ReceiverBounded(lib, limit, groups[m], s);
  }

  lemma {:induction false} SmallerThanAll(lib: Library, groups: seq<seq<nat>>, done: seq<nat>, m: nat, s: nat)
    requires multiset(Concat(groups)) == multiset(done) && m < |groups|
    requires forall x :: x in done ==> SizeAt(lib, s) <= SizeAt(lib, x)
    ensures forall x :: x in groups[m] ==> SizeAt(lib, s) <= SizeAt(lib, x)
  {
    forall x | x in groups[m]
      ensures SizeAt(lib, s) <= SizeAt(lib, x)
    {
      InConcat(groups, x);
      SameElements(Concat(groups), done);
    }
  }

  lemma {:induction false} SumsStep(lib: Library, sizes: seq<nat>, more: seq<nat>, done: seq<nat>, m: nat, s: nat)
    requires m < |sizes| && SumIs(lib, sizes, done) && more == sizes[m := sizes[m] + SizeAt(lib, s)]
    ensures SumIs(lib, more, done + [s])
  {
    PrefixSumUpdate(sizes, m, SizeAt(lib, s), |sizes|);
    SizeOfPlus(lib, done, [s]);
    SizeOfOne(lib, s);
  }

  lemma {:induction false} AllPositive(lib: Library, done: seq<nat>, s: nat)
    requires forall x :: x in done ==> SizeAt(lib, s) <= SizeAt(lib, x)
    ensures SizeAt(lib, s) > 0 ==> Positives(lib, done) == |done|
  {
    PositivesBound(lib, done);
  }

  lemma {:induction false} GroupsStep(lib: Library, limit: nat, groups: seq<seq<nat>>, done: seq<nat>, m: nat, s: nat)
    requires m < |groups| && GroupsHold(lib, limit, groups, done) && SizeOf(lib, groups[m]) < limit
    requires Positives(lib, done) < |groups| ==> m == Positives(lib, done)
    requires forall x :: x in done ==> SizeAt(lib, s) <= SizeAt(lib, x)
    ensures GroupsHold(lib, limit, groups[m := groups[m] + [s]], done + [s])
  {
    ConcatUpdate(groups, m, s);
    SmallerThanAll(lib, groups, done, m, s);
    BoundedStep(lib, limit, groups, m, s);
    AllPositive(lib, done, s);
    FilledStep(lib, groups, done, m, s);
  }

  lemma {:induction false} SizesStep(lib: Library, sizes: seq<nat>, done: seq<nat>, m: nat, s: nat)
    requires m < |sizes| && SizesCount(lib, sizes, done)
    requires Positives(lib, done) < |sizes| ==> m == Positives(lib, done)
    ensures SizesCount(lib, sizes[m := sizes[m] + SizeAt(lib, s)], done + [s])
  {
    SumsStep(lib, sizes, sizes[m := sizes[m] + SizeAt(lib, s)], done, m, s);
    ChargedStep(lib, sizes, done, m, s);
  }

  lemma {:induction false} PlacingGroups(lib: Library, limit: nat, b: Bins, done: seq<nat>, m: nat, s: nat)
    requires b.Valid(lib) && m < |b.groups| && GroupsHold(lib, limit, b.groups, done)
    requires b.sizes[m] < limit && (Positives(lib, done) < |b.groups| ==> m == Positives(lib, done))
    requires forall x :: x in done ==> SizeAt(lib, s) <= SizeAt(lib, x)
    ensures GroupsHold(lib, limit, AddTo(lib, b, m, s).groups, done + [s])
  {
    assert AddTo(lib, b, m, s).groups == b.groups[m := b.groups[m] + [s]];
    GroupsStep(lib, limit, b.groups, done, m, s);
  }

  lemma {:induction false} PlacingSizes(lib: Library, b: Bins, done: seq<nat>, m: nat, s: nat)
    requires b.Valid(lib) && m < |b.groups| && SizesCount(lib, b.sizes, done)
    requires Positives(lib, done) < |b.groups| ==> m == Positives(lib, done)
    ensures SizesCount(lib, AddTo(lib, b, m, s).sizes, done + [s])
  {
    assert AddTo(lib, b, m, s).sizes == b.sizes[m := b.sizes[m] + SizeAt(lib, s)];
    SizesStep(lib, b.sizes, done, m, s);
  }

  lemma {:induction false} PlacingStep(lib: Library, limit: nat, b: Bins, done: seq<nat>, m: nat, s: nat)
    requires Placing(lib, limit, b, done) && limit > 0 && IsFirstSmallest(b.sizes, m)
    requires forall x :: x in done ==> SizeAt(lib, s) <= SizeAt(lib, x)
    requires Positives(lib, done) < |b.groups| || SizeOf(lib, done) < limit * |b.groups|
    ensures Placing(lib, limit, AddTo(lib, b, m, s), done + [s])
  {
    ReceiverIsSmall(lib, limit, b, done, m);
    PlacingGroups(lib, limit, b, done, m, s);
    PlacingSizes(lib, b, done, m, s);
  }

  lemma {:induction false} EmptyValid(lib: Library, k: nat)
    requires k > 0
    ensures EmptyBins(k).Valid(lib)
  {
  }

  lemma {:induction false} EmptyPlacing(lib: Library, limit: nat, k: nat)
    requires k > 0
    ensures Placing(lib, limit, EmptyBins(k), [])
  {
    EmptySum(k, k);
    EmptyConcat(k);
  }

  lemma {:induction false} EmptySum(k: nat, n: nat)
    requires n <= k
    ensures PrefixSum(EmptyBins(k).sizes, n) == 0
  {
    if n > 0 {
      EmptySum(k, n - 1);
    }
  }

  lemma {:induction false} EmptyConcat(k: nat)
    ensures Concat(EmptyBins(k).groups) == []
  {
    if k > 0 {
      EmptyConcat(k - 1);
      assert EmptyBins(k).groups[..k - 1] == EmptyBins(k - 1).groups;
    }
  }

  ghost predicate SizesDescend(lib: Library, shaders: seq<nat>) {
    forall i, j :: 0 <= i < j < |shaders| ==> SizeAt(lib, shaders[j]) <= SizeAt(lib, shaders[i])
  }

  lemma {:induction false} FrontOfDescending(lib: Library, front: seq<nat>, s: nat)
    requires SizesDescend(lib, front + [s])
    ensures SizesDescend(lib, front) && SizeOf(lib, front) <= SizeOf(lib, front + [s])
    ensures forall x :: x in front ==> SizeAt(lib, s) <= SizeAt(lib, x)
  {
    var all := front + [s];
    assert forall i :: 0 <= i < |front| ==> all[i] == front[i];
    forall x | x in front
      ensures SizeAt(lib, s) <= SizeAt(lib, x)
    {
      var i :| 0 <= i < |front| && front[i] == x;
      assert all[i] == x && all[|front|] == s;
    }
    SizeOfPlus(lib, front, [s]);
  }

  lemma {:induction false} GreedyPush(lib: Library, b: Bins, front: seq<nat>, s: nat)
    requires b.Valid(lib)
    ensures var placed := Greedy(lib, b, front);
            Greedy(lib, b, front + [s]) == AddTo(lib, placed, FirstSmallest(placed.sizes), s)
  {
    assert (front + [s])[..|front|] == front;
  }

  lemma {:induction false} GreedyPlaces(lib: Library, limit: nat, k: nat, shaders: seq<nat>)
    requires limit > 0 && k > 0 && SizesDescend(lib, shaders)
    requires |shaders| <= k || SizeOf(lib, shaders) < limit * k
    ensures EmptyBins(k).Valid(lib) && Placing(lib, limit, Greedy(lib, EmptyBins(k), shaders), shaders)
  {
    EmptyPlacing(lib, limit, k);
    if shaders != [] {
      var n := |shaders| - 1;
      var front, s := shaders[..n], shaders[n];
      assert shaders == front + [s];
      FrontOfDescending(lib, front, s);
      GreedyPlaces(lib, limit, k, front);
      GreedyPush(lib, EmptyBins(k), front, s);
      PositivesBound(lib, front);
      var b := Greedy(lib, EmptyBins(k), front);
      PlacingStep(lib, limit, b, front, FirstSmallest(b.sizes), s);
    }
  }

  lemma {:induction false} RoundedUp(total: nat, limit: nat)
    requires limit > 0
    ensures total < limit * (total / limit + 1)
  {
    assert total == limit * (total / limit) + total % limit;
  }

  lemma {:induction false} DescendingSizes(lib: Library, g: seq<nat>)
    ensures SizesDescend(lib, SortBy(g, Descending(lib)))
  {
    OrdersAreTotal(lib);
    SortBySorted(g, Descending(lib));
    var s := SortBy(g, Descending(lib));
    forall i, j | 0 <= i < j < |s|
      ensures SizeAt(lib, s[j]) <= SizeAt(lib, s[i])
    {
      assert Descending(lib)(s[i], s[j]);
    }
  }

  /** All of each part but its smallest shader is below the limit; no shader is lost or
      repeated. */
  ghost predicate SplitOk(lib: Library, limit: nat, g: seq<nat>, parts: seq<seq<nat>>) {
    Holds(parts, g) && AllBounded(lib, limit, parts)
  }

  /** No part is left empty: there are enough shaders of positive size to go round, the
      others all going to one part. */
  ghost predicate FillsParts(lib: Library, limit: nat, g: seq<nat>)
    requires limit > 0 && g != []
  {
    PartCount(lib, limit, g) <= Positives(lib, g) + 1
  }

  ghost predicate NoneEmpty(groups: seq<seq<nat>>) {
    forall i :: 0 <= i < |groups| ==> groups[i] != []
  }

  /** The size bound, and when every part is in use. */
  lemma {:induction false} SplitGroupBounded(lib: Library, limit: nat, g: seq<nat>)
    requires limit > 0 && g != []
    ensures SplitOk(lib, limit, g, SplitGroup(lib, limit, g))
    ensures |SplitGroup(lib, limit, g)| == PartCount(lib, limit, g)
    ensures |SplitGroup(lib, limit, g)| ==
              if SizeOf(lib, g) <= limit then 1 else Min(SizeOf(lib, g) / limit + 1, |g|)
    ensures NoneEmpty(SplitGroup(lib, limit, g)) <==> FillsParts(lib, limit, g)
  {
    if SizeOf(lib, g) <= limit || |g| == 1 {
      KeptBounded(lib, limit, g);
    } else {
      GreedyBounded(lib, limit, g, PartCount(lib, limit, g));
    }
  }

  lemma {:induction false} KeptBounded(lib: Library, limit: nat, g: seq<nat>)
    requires limit > 0 && g != []
    requires SizeOf(lib, g) <= limit || |g| == 1
    ensures SplitOk(lib, limit, g, [g])
  {
    ConcatAppend([], g);
    assert [] + [g] == [g];
    if |g| == 1 {
      assert g == [g[0]];
      SizeOfOne(lib, g[0]);
    }
  }

  lemma {:induction false} GreedyBounded(lib: Library, limit: nat, g: seq<nat>, k: nat)
    requires limit > 0 && g != [] && k == Min(SizeOf(lib, g) / limit + 1, |g|)
    ensures var b := Greedy(lib, EmptyBins(k), SortBy(g, Descending(lib)));
            && SplitOk(lib, limit, g, b.groups) && |b.groups| == k
            && Charged(b.sizes, Positives(lib, g)) && Filled(b.groups, Used(lib, g))
            && (NoneEmpty(b.groups) <==> k <= Positives(lib, g) + 1)
  {
    var sorted := SortBy(g, Descending(lib));
    SameElements(g, sorted);
    SizeOfPermutation(lib, g, sorted);
    SizeOfPermutation(Units(lib), g, sorted);
    DescendingSizes(lib, g);
    RoundedUp(SizeOf(lib, g), limit);
    GreedyPlaces(lib, limit, k, sorted);
    PositivesBound(lib, g);
    var b := Greedy(lib, EmptyBins(k), sorted);
    assert Positives(lib, sorted) == Positives(lib, g) && Used(lib, sorted) == Used(lib, g);
    FilledMeansNoneEmpty(b.groups, Used(lib, g));
  }

  lemma {:induction false} FilledMeansNoneEmpty(groups: seq<seq<nat>>, n: nat)
    requires Filled(groups, n)
    ensures NoneEmpty(groups) <==> |groups| <= n
  {
    if n < |groups| {
      assert groups[n] == [];
    }
  }

  // ------------------------------------------------------------ the algorithm

  method GroupSize(lib: Library, g: seq<nat>) returns (total: nat)
    ensures total == SizeOf(lib, g)
  {
    total := 0;
    for i := 0 to |g|
      invariant total == SizeOf(lib, g[..i])
    {
      assert g[..i + 1][..i] == g[..i];
      total := total + SizeAt(lib, g[i]);
    }
    assert g[..|g|] == g;
  }

  method FindSmallest(sizes: seq<nat>) returns (m: nat)
    requires sizes != []
    ensures m == FirstSmallest(sizes)
  {
    m := 0;
    for i := 1 to |sizes|
      invariant m == SmallestBelow(sizes, i)
    {
      if sizes[i] < sizes[m] {
        m := i;
      }
    }
  }

  method SplitBySize(lib: Library, limit: nat, g: seq<nat>) returns (parts: seq<seq<nat>>)
    requires limit > 0 && g != []
    ensures parts == SplitGroup(lib, limit, g)
  {
    var total := GroupSize(lib, g);
    if total <= limit || |g| == 1 {
      return [g];
    }
    var k := Min(total / limit + 1, |g|);
    EmptyValid(lib, k);
    var bins := Distribute(lib, EmptyBins(k), SortBy(g, Descending(lib)));
    parts := bins.groups;
  }

  /** Adds each shader to the smallest group so far. */
  method Distribute(lib: Library, start: Bins, shaders: seq<nat>) returns (bins: Bins)
    requires start.Valid(lib)
    ensures bins == Greedy(lib, start, shaders)
  {
    bins := start;
    for i := 0 to |shaders|
      invariant bins == Greedy(lib, start, shaders[..i])
    {
      var m := FindSmallest(bins.sizes);
      GreedyPush(lib, start, shaders[..i], shaders[i]);
      assert shaders[..i + 1] == shaders[..i] + [shaders[i]];
      bins := AddTo(lib, bins, m, shaders[i]);
    }
    assert shaders[..|shaders|] == shaders;
  }

  /** All classes split by size, one after another. */
  ghost function SplitAll(lib: Library, limit: nat, classes: seq<seq<nat>>): seq<seq<nat>>
    requires limit > 0 && NoneEmpty(classes)
  {
    if classes == [] then []
    else
      var n := |classes| - 1;
      SplitAll(lib, limit, classes[..n]) + SplitGroup(lib, limit, classes[n])
  }

  method SplitLargeGroups(lib: Library, limit: nat, classes: seq<seq<nat>>) returns (parts: seq<seq<nat>>)
    requires limit > 0 && NoneEmpty(classes)
    ensures parts == SplitAll(lib, limit, classes)
  {
    parts := [];
    for i := 0 to |classes|
      invariant parts == SplitAll(lib, limit, classes[..i])
    {
      assert classes[..i + 1][..i] == classes[..i];
      var more := SplitBySize(lib, limit, classes[i]);
      parts := parts + more;
    }
    assert classes[..|classes|] == classes;
  }

  /** Each part of the split comes from one class and obeys the size bound. */
  ghost predicate PartOk<K(!new)>(lib: Library, limit: nat, key: nat -> K, part: seq<nat>) {
    Uniform(part, key) && Bounded(lib, limit, part)
  }

  ghost predicate AllFillParts(lib: Library, limit: nat, classes: seq<seq<nat>>)
    requires limit > 0 && NoneEmpty(classes)
  {
    forall i :: 0 <= i < |classes| ==> FillsParts(lib, limit, classes[i])
  }

  lemma {:induction false} ClassPartsOk<K(!new)>(lib: Library, limit: nat, c: seq<nat>, key: nat -> K)
    requires limit > 0 && c != [] && Uniform(c, key)
    ensures forall p :: p in SplitGroup(lib, limit, c) ==> PartOk(lib, limit, key, p)
  {
    var parts := SplitGroup(lib, limit, c);
    SplitGroupBounded(lib, limit, c);
    forall p | p in parts
      ensures PartOk(lib, limit, key, p)
    {
      var j :| 0 <= j < |parts| && parts[j] == p;
      PartUniform(parts, c, j, key);
    }
  }

  lemma {:induction false} AllFillStep(lib: Library, limit: nat, front: seq<seq<nat>>, c: seq<nat>)
    requires limit > 0 && NoneEmpty(front) && c != []
    ensures NoneEmpty(front + [c])
    ensures AllFillParts(lib, limit, front + [c]) <==> AllFillParts(lib, limit, front) && FillsParts(lib, limit, c)
  {
    var classes := front + [c];
    assert forall i :: 0 <= i < |front| ==> classes[i] == front[i];
    assert classes[|front|] == c;
  }

  lemma {:induction false} SplitAllOk<K(!new)>(lib: Library, limit: nat, classes: seq<seq<nat>>, key: nat -> K)
    requires limit > 0 && NoneEmpty(classes)
    requires forall i :: 0 <= i < |classes| ==> Uniform(classes[i], key)
    ensures Holds(SplitAll(lib, limit, classes), Concat(classes))
    ensures forall p :: p in SplitAll(lib, limit, classes) ==> PartOk(lib, limit, key, p)
  {
    if classes != [] {
      var n := |classes| - 1;
      SplitAllOk(lib, limit, classes[..n], key);
      SplitGroupBounded(lib, limit, classes[n]);
      ClassPartsOk(lib, limit, classes[n], key);
      ConcatPlus(SplitAll(lib, limit, classes[..n]), SplitGroup(lib, limit, classes[n]));
    }
  }

  lemma {:induction false} SplitAllFills(lib: Library, limit: nat, classes: seq<seq<nat>>)
    requires limit > 0 && NoneEmpty(classes)
    ensures NoneEmpty(SplitAll(lib, limit, classes)) <==> AllFillParts(lib, limit, classes)
  {
    if classes != [] {
      var n := |classes| - 1;
      var front, c := classes[..n], classes[n];
      assert classes == front + [c];
      SplitAllFills(lib, limit, front);
      SplitGroupBounded(lib, limit, c);
      AllFillStep(lib, limit, front, c);
      NoneEmptyPlus(SplitAll(lib, limit, front), SplitGroup(lib, limit, c));
    }
  }

  lemma {:induction false} NoneEmptyPlus(a: seq<seq<nat>>, b: seq<seq<nat>>)
    ensures NoneEmpty(a + b) <==> NoneEmpty(a) && NoneEmpty(b)
  {
    assert forall i :: 0 <= i < |a| ==> (a + b)[i] == a[i];
    assert forall i :: 0 <= i < |b| ==> (a + b)[|a| + i] == b[i];
  }

  lemma {:induction false} PartUniform<K(!new)>(parts: seq<seq<nat>>, c: seq<nat>, j: nat, key: nat -> K)
    requires Holds(parts, c) && Uniform(c, key) && j < |parts|
    ensures Uniform(parts[j], key)
  {
    forall x | x in parts[j]
      ensures x in c
    {
      PartMember(c, parts, j, x);
    }
  }

  lemma {:induction false} SortedPartOk<K(!new)>(lib: Library, limit: nat, key: nat -> K, part: seq<nat>,
                                                 sorted: seq<nat>)
    requires PartOk(lib, limit, key, part) && multiset(part) == multiset(sorted)
    ensures PartOk(lib, limit, key, sorted)
  {
    SameElements(part, sorted);
    SizeOfPermutation(lib, part, sorted);
  }

  // -------------------------------------------------------------- all together

  /** The same groups, each in ascending order. */
  ghost predicate SortedGroups(lib: Library, parts: seq<seq<nat>>, groups: seq<seq<nat>>) {
    |groups| == |parts| && forall i :: 0 <= i < |parts| ==> groups[i] == SortBy(parts[i], Ascending(lib))
  }

  method SortGroups(lib: Library, parts: seq<seq<nat>>) returns (groups: seq<seq<nat>>)
    ensures SortedGroups(lib, parts, groups)
  {
    groups := [];
    for i := 0 to |parts|
      invariant |groups| == i && forall j :: 0 <= j < i ==> groups[j] == SortBy(parts[j], Ascending(lib))
    {
      groups := groups + [SortBy(parts[i], Ascending(lib))];
    }
  }

  lemma {:induction false} SortedGroupsHold(lib: Library, parts: seq<seq<nat>>, groups: seq<seq<nat>>)
    requires SortedGroups(lib, parts, groups)
    ensures multiset(Concat(groups)) == multiset(Concat(parts))
  {
    if parts != [] {
      var n := |parts| - 1;
      SortedGroupsHold(lib, parts[..n], groups[..n]);
      assert groups[n] == SortBy(parts[n], Ascending(lib));
    }
  }

  lemma {:induction false} SortedNoneEmpty(lib: Library, parts: seq<seq<nat>>, groups: seq<seq<nat>>)
    requires SortedGroups(lib, parts, groups)
    ensures NoneEmpty(groups) <==> NoneEmpty(parts)
  {
    forall i | 0 <= i < |parts|
      ensures groups[i] == [] <==> parts[i] == []
    {
      SameElements(parts[i], groups[i]);
    }
  }

  /** The groups of a library: every shader in exactly one group; no group mixes
      shaders with different keys; classes of equal keys are split by size only, no group
      without its smallest shader reaches the limit, and no group is empty exactly when
      every class has enough shaders of positive size. */
  ghost predicate Grouping<K(!new)>(lib: Library, limit: nat, key: nat -> K,
                                    classes: seq<seq<nat>>, groups: seq<seq<nat>>)
    requires limit > 0
  {
    && Classes(classes, key)
    && multiset(Concat(groups)) == multiset(Below(|lib.shaders|))
    && SortedGroups(lib, SplitAll(lib, limit, classes), groups)
    && (forall g :: g in groups ==> PartOk(lib, limit, key, g))
    && (NoneEmpty(groups) <==> AllFillParts(lib, limit, classes))
  }

  lemma {:induction false} GroupingFromClasses<K(!new)>(lib: Library, limit: nat, key: nat -> K,
                                                       classes: seq<seq<nat>>, groups: seq<seq<nat>>)
    requires limit > 0
    requires Classes(classes, key) && multiset(Concat(classes)) == multiset(Below(|lib.shaders|))
    requires SortedGroups(lib, SplitAll(lib, limit, classes), groups)
    ensures Grouping(lib, limit, key, classes, groups)
  {
    SplitAllOk(lib, limit, classes, key);
    SplitAllFills(lib, limit, classes);
    var parts := SplitAll(lib, limit, classes);
    SortedGroupsHold(lib, parts, groups);
    SortedNoneEmpty(lib, parts, groups);
    forall g | g in groups
      ensures PartOk(lib, limit, key, g)
    {
      var i :| 0 <= i < |groups| && groups[i] == g;
      assert parts[i] in parts;
      SortedPartOk(lib, limit, key, parts[i], g);
    }
  }

  ghost predicate PositiveSizes(lib: Library) {
    forall s :: 0 <= s < |lib.shaders| ==> lib.shaders[s].uncompressedSize > 0
  }

  lemma {:induction false} PositiveClassesFill(lib: Library, limit: nat, classes: seq<seq<nat>>)
    requires limit > 0 && NoneEmpty(classes) && forall x :: x in Concat(classes) ==> SizeAt(lib, x) > 0
    ensures AllFillParts(lib, limit, classes)
  {
    forall i | 0 <= i < |classes|
      ensures FillsParts(lib, limit, classes[i])
    {
      forall x | x in classes[i]
        ensures SizeAt(lib, x) > 0
      {
        InConcat(classes, x);
      }
      PositivesBound(lib, classes[i]);
    }
  }

  /** Without shaders of size zero no group is empty. */
  lemma {:induction false} PositiveSizesFill<K(!new)>(lib: Library, limit: nat, key: nat -> K, groups: seq<seq<nat>>)
    requires limit > 0 && GroupedBy(lib, limit, key, groups) && PositiveSizes(lib)
    ensures NoneEmpty(groups)
  {
    var classes :| Grouping(lib, limit, key, classes, groups);
    GroupingHolds(lib, limit, key, classes, groups);
    PositiveClassesFill(lib, limit, classes);
  }

  lemma {:induction false} GroupingHolds<K(!new)>(lib: Library, limit: nat, key: nat -> K,
                                                 classes: seq<seq<nat>>, groups: seq<seq<nat>>)
    requires limit > 0 && Grouping(lib, limit, key, classes, groups)
    ensures forall x :: x in Concat(classes) ==> x < |lib.shaders|
  {
    SplitAllOk(lib, limit, classes, key);
    SortedGroupsHold(lib, SplitAll(lib, limit, classes), groups);
    forall x | x in Concat(classes)
      ensures x < |lib.shaders|
    {
      assert x in multiset(Concat(classes));
      assert x in multiset(Below(|lib.shaders|));
    }
  }

  /** The format whose raytracing shaders are kept apart. */
  const SEPARATED_FORMAT := "PCD3D_SM5"

  /** The references of a shader, straight from the shader maps. */
  ghost function ReferenceKey(lib: Library): nat -> seq<nat>
    requires lib.Valid()
  {
    (s: nat) => References(lib, s, |lib.maps|)
  }

  ghost function KindKey(lib: Library): nat -> (seq<nat>, bool)
    requires lib.Valid()
  {
    (s: nat) => (References(lib, s, |lib.maps|), Raytraced(lib, s))
  }

  ghost predicate GroupedBy<K(!new)>(lib: Library, limit: nat, key: nat -> K, groups: seq<seq<nat>>)
    requires limit > 0
  {
    exists classes :: Grouping(lib, limit, key, classes, groups)
  }

  lemma {:induction false} SameUniform<K(!new)>(g: seq<nat>, h: seq<nat>, key: nat -> K, same: nat -> K)
    requires forall s: nat :: key(s) == same(s)
    ensures Uniform(g, key) ==> Uniform(g, same)
    ensures Apart(g, h, key) ==> Apart(g, h, same)
  {
  }

  lemma {:induction false} SameClasses<K(!new)>(groups: seq<seq<nat>>, key: nat -> K, same: nat -> K)
    requires Classes(groups, key) && forall s: nat :: key(s) == same(s)
    ensures Classes(groups, same)
  {
    forall i, j | 0 <= i < j < |groups|
      ensures Apart(groups[i], groups[j], same)
    {
      SameUniform(groups[i], groups[j], key, same);
    }
    forall i | 0 <= i < |groups|
      ensures Uniform(groups[i], same)
    {
      SameUniform(groups[i], [], key, same);
    }
  }

  /** Grouping looks at the values of the key only. */
  lemma {:induction false} SameKeySameGrouping<K(!new)>(lib: Library, limit: nat, key: nat -> K, same: nat -> K,
                                                       classes: seq<seq<nat>>, groups: seq<seq<nat>>)
    requires limit > 0 && Grouping(lib, limit, key, classes, groups) && forall s: nat :: key(s) == same(s)
    ensures GroupedBy(lib, limit, same, groups)
  {
    SameClasses(classes, key, same);
    forall g | g in groups
      ensures PartOk(lib, limit, same, g)
    {
      SameUniform(g, [], key, same);
    }
    assert Grouping(lib, limit, same, classes, groups);
  }

  lemma {:induction false} StreaksClassify(lib: Library, refs: map<nat, seq<nat>>, sorted: seq<nat>,
                                           classes: seq<seq<nat>>)
    requires lib.Valid() && AllReferences(lib, refs)
    requires multiset(sorted) == multiset(refs.Keys) && SortedBy(sorted, Order(refs))
    requires Concat(classes) == sorted && Streaks(classes, ByReferences(refs))
    ensures Classes(classes, ByReferences(refs))
    ensures multiset(Concat(classes)) == multiset(Below(|lib.shaders|))
  {
    StreaksAreClasses(refs, classes);
    assert refs.Keys == Below(|lib.shaders|);
  }

  lemma {:induction false} LookupIsKey(lib: Library, refs: map<nat, seq<nat>>)
    requires lib.Valid() && AllReferences(lib, refs)
    ensures forall s: nat :: ByReferences(refs)(s) == ReferenceKey(lib)(s)
    ensures forall s: nat :: ByKind(lib, refs)(s) == KindKey(lib)(s)
  {
    forall s: nat
      ensures Lookup(refs, s) == References(lib, s, |lib.maps|)
    {
      assert ListsBelow(lib, refs, |lib.maps|, s);
    }
  }

  lemma {:induction false} PartsGrouped<K(!new)>(lib: Library, limit: nat, key: nat -> K, same: nat -> K,
                                                 classes: seq<seq<nat>>, groups: seq<seq<nat>>)
    requires limit > 0 && forall s: nat :: key(s) == same(s)
    requires Classes(classes, key) && multiset(Concat(classes)) == multiset(Below(|lib.shaders|))
    requires SortedGroups(lib, SplitAll(lib, limit, classes), groups)
    ensures GroupedBy(lib, limit, same, groups)
  {
    GroupingFromClasses(lib, limit, key, classes, groups);
    SameKeySameGrouping(lib, limit, key, same, classes, groups);
  }

  /** Splits the shaders of a library into groups. Two shaders that share a group are
      referred to by the same maps, equally often. */
  method BuildShaderGroups(lib: Library, formatName: string, limit: nat) returns (groups: seq<seq<nat>>)
    requires lib.Valid() && limit > 0
    ensures if formatName == SEPARATED_FORMAT then GroupedBy(lib, limit, KindKey(lib), groups)
            else GroupedBy(lib, limit, ReferenceKey(lib), groups)
  {
    var refs := CollectReferences(lib);
    var sorted := SortedShaders(refs);
    var classes := SplitStreaks(refs, sorted);
    StreaksClassify(lib, refs, sorted, classes);
    LookupIsKey(lib, refs);
    if formatName == SEPARATED_FORMAT {
      classes := SeparateRaytracing(lib, refs, classes);
    }
    var parts := SplitLargeGroups(lib, limit, classes);
    groups := SortGroups(lib, parts);
    if formatName == SEPARATED_FORMAT {
      PartsGrouped(lib, limit, ByKind(lib, refs), KindKey(lib), classes, groups);
    } else {
      PartsGrouped(lib, limit, ByReferences(refs), ReferenceKey(lib), classes, groups);
    }
  }
}
