/** When splitting shader groups by size keeps every part within the limit. */
module ShaderLimit {
  import opened Arithmetic
  import opened Bytes
  import opened Sorting
  import opened ShaderGroups
  import opened ShaderSplit

  ghost predicate WithinLimit(lib: Library, limit: nat, groups: seq<seq<nat>>) {
    forall j :: 0 <= j < |groups| ==> SizeOf(lib, groups[j]) <= limit
  }

  ghost predicate ShadersAtMost(lib: Library, g: seq<nat>, bound: nat) {
    forall x :: x in g ==> SizeAt(lib, x) <= bound
  }

  lemma {:induction false} MemberFits(lib: Library, g: seq<nat>, x: nat)
    requires x in g
    ensures SizeAt(lib, x) <= SizeOf(lib, g)
  {
    if x != g[|g| - 1] {
      MemberFits(lib, g[..|g| - 1], x);
    }
  }

  /** A part that is within the limit holds no shader above it. */
  lemma {:induction false} WithinLimitNeedsSmallShaders(lib: Library, limit: nat, g: seq<nat>)
    requires limit > 0 && g != [] && WithinLimit(lib, limit, SplitGroup(lib, limit, g))
    ensures ShadersAtMost(lib, g, limit)
  {
    var parts := SplitGroup(lib, limit, g);
    SplitGroupBounded(lib, limit, g);
    forall x | x in g
      ensures SizeAt(lib, x) <= limit
    {
      SameElements(Concat(parts), g);
      InConcat(parts, x);
      var j :| 0 <= j < |parts| && x in parts[j];
      MemberFits(lib, parts[j], x);
    }
  }

  ghost predicate SizeOfSome(lib: Library, shaders: seq<nat>, size: nat) {
    size == 0 || exists x :: x in shaders && size == SizeAt(lib, x)
  }

  ghost predicate SizesOfSome(lib: Library, shaders: seq<nat>, sizes: seq<nat>) {
    forall j {:trigger sizes[j]} :: 0 <= j < |sizes| ==> SizeOfSome(lib, shaders, sizes[j])
  }

  lemma {:induction false} SomeFits(lib: Library, shaders: seq<nat>, size: nat, limit: nat)
    requires SizeOfSome(lib, shaders, size) && ShadersAtMost(lib, shaders, limit)
    ensures size <= limit
  {
  }

  lemma {:induction false} SinglesStep(lib: Library, sizes: seq<nat>, front: seq<nat>, m: nat, s: nat)
    requires m < |sizes| && SizesOfSome(lib, front, sizes) && sizes[m] == 0
    ensures SizesOfSome(lib, front + [s], sizes[m := sizes[m] + SizeAt(lib, s)])
  {
    var shaders, more := front + [s], sizes[m := sizes[m] + SizeAt(lib, s)];
    assert shaders[|front|] == s && forall x :: x in front ==> x in shaders;
    forall j | 0 <= j < |more|
      ensures SizeOfSome(lib, shaders, more[j])
    {
      if j == m {
        assert s in shaders && more[j] == SizeAt(lib, s);
      } else {
        SomeOfMore(lib, front, shaders, sizes[j]);
      }
    }
  }

  lemma {:induction false} SomeOfMore(lib: Library, front: seq<nat>, shaders: seq<nat>, size: nat)
    requires SizeOfSome(lib, front, size) && forall x :: x in front ==> x in shaders
    ensures SizeOfSome(lib, shaders, size)
  {
  }

  /** With as many groups as shaders, each group is as large as one of its shaders. */
  lemma {:induction false} GreedySingles(lib: Library, limit: nat, k: nat, shaders: seq<nat>)
    requires limit > 0 && k > 0 && |shaders| <= k && SizesDescend(lib, shaders)
    ensures EmptyBins(k).Valid(lib)
    ensures SizesOfSome(lib, shaders, Greedy(lib, EmptyBins(k), shaders).sizes)
  {
    EmptyValid(lib, k);
    if shaders != [] {
      var n := |shaders| - 1;
      var front, s := shaders[..n], shaders[n];
      assert shaders == front + [s];
      FrontOfDescending(lib, front, s);
      GreedySingles(lib, limit, k, front);
      GreedyPlaces(lib, limit, k, front);
      GreedyPush(lib, EmptyBins(k), front, s);
      PositivesBound(lib, front);
      var b := Greedy(lib, EmptyBins(k), front);
      ReceiverIsSmall(lib, limit, b, front, FirstSmallest(b.sizes));
      SinglesStep(lib, b.sizes, front, FirstSmallest(b.sizes), s);
    }
  }

  /** When every shader gets a part of its own, the parts are within the limit if and only
      if the shaders are. */
  lemma {:induction false} SinglesWithinLimit(lib: Library, limit: nat, g: seq<nat>)
    requires limit > 0 && g != [] && PartCount(lib, limit, g) == |g|
    ensures WithinLimit(lib, limit, SplitGroup(lib, limit, g)) <==> ShadersAtMost(lib, g, limit)
  {
    if WithinLimit(lib, limit, SplitGroup(lib, limit, g)) {
      WithinLimitNeedsSmallShaders(lib, limit, g);
    }
    if ShadersAtMost(lib, g, limit) {
      if SizeOf(lib, g) <= limit || |g| == 1 {
        KeptWithinLimit(lib, limit, g);
        assert g == [g[0]];
        SizeOfOne(lib, g[0]);
      } else {
        SinglesKeepLimit(lib, limit, g);
      }
    }
  }

  lemma {:induction false} SinglesKeepLimit(lib: Library, limit: nat, g: seq<nat>)
    requires limit > 0 && g != [] && ShadersAtMost(lib, g, limit)
    ensures EmptyBins(|g|).Valid(lib)
    ensures WithinLimit(lib, limit, Greedy(lib, EmptyBins(|g|), SortBy(g, Descending(lib))).groups)
  {
    var sorted := SortBy(g, Descending(lib));
    SameElements(g, sorted);
    DescendingSizes(lib, g);
    GreedySingles(lib, limit, |g|, sorted);
    var b := Greedy(lib, EmptyBins(|g|), sorted);
    forall j | 0 <= j < |g|
      ensures SizeOf(lib, b.groups[j]) <= limit
    {
      SomeFits(lib, sorted, b.sizes[j], limit);
    }
  }

  /** Placing shaders anywhere keeps the sum and the contents. */
  lemma {:induction false} GreedySums(lib: Library, k: nat, shaders: seq<nat>)
    requires k > 0
    ensures EmptyBins(k).Valid(lib)
    ensures var b := Greedy(lib, EmptyBins(k), shaders); SumIs(lib, b.sizes, shaders) && Holds(b.groups, shaders)
  {
    EmptyValid(lib, k);
    if shaders == [] {
      EmptySum(k, k);
      EmptyConcat(k);
    } else {
      var n := |shaders| - 1;
      var front, s := shaders[..n], shaders[n];
      assert shaders == front + [s];
      GreedySums(lib, k, front);
      GreedyPush(lib, EmptyBins(k), front, s);
      var b := Greedy(lib, EmptyBins(k), front);
      AddToSums(lib, b, front, FirstSmallest(b.sizes), s);
    }
  }

  lemma {:induction false} HoldsStep(groups: seq<seq<nat>>, done: seq<nat>, m: nat, s: nat)
    requires m < |groups| && Holds(groups, done)
    ensures Holds(groups[m := groups[m] + [s]], done + [s])
  {
    ConcatUpdate(groups, m, s);
  }

  lemma {:induction false} AddToSums(lib: Library, b: Bins, done: seq<nat>, m: nat, s: nat)
    requires b.Valid(lib) && m < |b.groups| && SumIs(lib, b.sizes, done) && Holds(b.groups, done)
    ensures var r := AddTo(lib, b, m, s); SumIs(lib, r.sizes, done + [s]) && Holds(r.groups, done + [s])
  {
    var r := AddTo(lib, b, m, s);
    HoldsStep(b.groups, done, m, s);
    SumsStep(lib, b.sizes, r.sizes, done, m, s);
  }

  lemma {:induction false} AverageFits(low: nat, size: nat, k: nat, before: nat, largest: nat, limit: nat)
    requires k > 0 && low * k <= before && size <= largest
    requires before + size + (k - 1) * largest <= k * limit
    ensures low + size <= limit
  {
    KeepFactor(size, largest, k - 1);
    assert (low + size) * k == low * k + size * k;
    assert size * k == size + (k - 1) * size;
    CancelFactor(low + size, limit, k);
  }

  lemma {:induction false} WithinStep(lib: Library, sizes: seq<nat>, front: seq<nat>, s: nat, largest: nat, limit: nat)
    requires sizes != [] && SumIs(lib, sizes, front) && SizeAt(lib, s) <= largest
    requires SizeOf(lib, front) + SizeAt(lib, s) + (|sizes| - 1) * largest <= |sizes| * limit
    ensures sizes[FirstSmallest(sizes)] + SizeAt(lib, s) <= limit
  {
    var m := FirstSmallest(sizes);
    SmallestIsSmall(sizes, sizes[m], |sizes|);
    AverageFits(sizes[m], SizeAt(lib, s), |sizes|, SizeOf(lib, front), largest, limit);
  }

  /** The group that receives a shader is at most the average, so it stays within the
      limit if the average leaves room for the largest shader. */
  lemma {:induction false} GreedyWithinLimit(lib: Library, limit: nat, k: nat, shaders: seq<nat>, largest: nat)
    requires k > 0 && ShadersAtMost(lib, shaders, largest)
    requires SizeOf(lib, shaders) + (k - 1) * largest <= k * limit
    ensures EmptyBins(k).Valid(lib)
    ensures var b := Greedy(lib, EmptyBins(k), shaders); forall j :: 0 <= j < k ==> b.sizes[j] <= limit
  {
    EmptyValid(lib, k);
    if shaders != [] {
      var n := |shaders| - 1;
      var front, s := shaders[..n], shaders[n];
      assert shaders == front + [s];
      GreedyWithinLimit(lib, limit, k, front, largest);
      GreedySums(lib, k, front);
      GreedyPush(lib, EmptyBins(k), front, s);
      SizeOfPlus(lib, front, [s]);
      SizeOfOne(lib, s);
      assert s in shaders;
      WithinStep(lib, Greedy(lib, EmptyBins(k), front).sizes, front, s, largest, limit);
    }
  }

  lemma {:induction false} KeptWithinLimit(lib: Library, limit: nat, g: seq<nat>)
    requires limit > 0 && g != [] && (SizeOf(lib, g) <= limit || |g| == 1)
    ensures PartCount(lib, limit, g) == 1
    ensures WithinLimit(lib, limit, SplitGroup(lib, limit, g)) <==> SizeOf(lib, g) <= limit
  {
    assert SplitGroup(lib, limit, g) == [g];
    assert [g][0] == g;
  }

  lemma {:induction false} AverageKeepsLimit(lib: Library, limit: nat, g: seq<nat>, k: nat, largest: nat)
    requires k > 0 && ShadersAtMost(lib, g, largest) && SizeOf(lib, g) + (k - 1) * largest <= k * limit
    ensures EmptyBins(k).Valid(lib)
    ensures WithinLimit(lib, limit, Greedy(lib, EmptyBins(k), SortBy(g, Descending(lib))).groups)
  {
    var sorted := SortBy(g, Descending(lib));
    SameElements(g, sorted);
    SizeOfPermutation(lib, g, sorted);
    GreedyWithinLimit(lib, limit, k, sorted, largest);
    var b := Greedy(lib, EmptyBins(k), sorted);
    assert forall j :: 0 <= j < |b.groups| ==> b.sizes[j] == SizeOf(lib, b.groups[j]);
  }

  /** The limit is kept whenever the average part leaves room for the largest shader. */
  lemma {:induction false} AverageWithinLimit(lib: Library, limit: nat, g: seq<nat>, largest: nat)
    requires limit > 0 && g != [] && ShadersAtMost(lib, g, largest)
    requires var k := PartCount(lib, limit, g); SizeOf(lib, g) + (k - 1) * largest <= k * limit
    ensures WithinLimit(lib, limit, SplitGroup(lib, limit, g))
  {
    if SizeOf(lib, g) <= limit || |g| == 1 {
      KeptWithinLimit(lib, limit, g);
    } else {
      AverageKeepsLimit(lib, limit, g, PartCount(lib, limit, g), largest);
    }
  }

  lemma {:induction false} EqualSizes(lib: Library, g: seq<nat>, d: nat)
    requires forall x :: x in g ==> SizeAt(lib, x) == d
    ensures SizeOf(lib, g) == d * |g|
  {
    if g != [] {
      EqualSizes(lib, g[..|g| - 1], d);
    }
  }

  /** How many of `n` shaders group `j` of `k` gets when they are dealt in turn. */
  function Share(n: nat, k: nat, j: nat): nat
    requires k > 0
  {
    n / k + if j < n % k then 1 else 0
  }

  function CeilDiv(n: nat, k: nat): nat
    requires k > 0
  {
    (n + k - 1) / k
  }

  lemma {:induction false} NextShare(n: nat, k: nat, j: nat)
    requires k > 0 && j < k
    ensures Share(n + 1, k, j) == Share(n, k, j) + if j == n % k then 1 else 0
  {
    var q, r := n / k, n % k;
    assert n == k * q + r;
    if r + 1 < k {
      ModUnique(n + 1, k, q, r + 1);
    } else {
      assert n + 1 == k * (q + 1) + 0;
      ModUnique(n + 1, k, q + 1, 0);
    }
  }

  lemma {:induction false} FirstShareIsCeil(n: nat, k: nat)
    requires k > 0
    ensures Share(n, k, 0) == CeilDiv(n, k)
    ensures forall j: nat :: Share(n, k, j) <= Share(n, k, 0)
  {
    var q, r := n / k, n % k;
    assert n == k * q + r;
    if r == 0 {
      ModUnique(n + k - 1, k, q, k - 1);
    } else {
      assert n + k - 1 == k * (q + 1) + (r - 1);
      ModUnique(n + k - 1, k, q + 1, r - 1);
    }
  }

  ghost predicate Dealt(sizes: seq<nat>, n: nat, k: nat, d: nat)
    requires k > 0
  {
    |sizes| == k && forall j: nat {:trigger sizes[j]} :: j < k ==> sizes[j] == d * Share(n, k, j)
  }

  lemma {:induction false} DealtReceiver(sizes: seq<nat>, n: nat, k: nat, d: nat, m: nat)
    requires k > 0 && d > 0 && Dealt(sizes, n, k, d) && IsFirstSmallest(sizes, m)
    ensures m == n % k
  {
    var q, r := n / k, n % k;
    assert d * (q + 1) == d * q + d;
    assert sizes[r] == d * q;
    assert sizes[m] <= sizes[r];
    assert sizes[m] == d * Share(n, k, m);
  }

  lemma {:induction false} DealtStep(sizes: seq<nat>, n: nat, k: nat, d: nat)
    requires k > 0 && Dealt(sizes, n, k, d)
    ensures Dealt(sizes[n % k := sizes[n % k] + d], n + 1, k, d)
  {
    var more := sizes[n % k := sizes[n % k] + d];
    forall j: nat | j < k
      ensures more[j] == d * Share(n + 1, k, j)
    {
      NextShare(n, k, j);
      assert d * (Share(n, k, j) + 1) == d * Share(n, k, j) + d;
      assert sizes[j] == d * Share(n, k, j);
    }
  }

  lemma {:induction false} DealOne(lib: Library, b: Bins, n: nat, k: nat, s: nat)
    requires b.Valid(lib) && k > 0 && SizeAt(lib, s) > 0 && Dealt(b.sizes, n, k, SizeAt(lib, s))
    ensures Dealt(AddTo(lib, b, FirstSmallest(b.sizes), s).sizes, n + 1, k, SizeAt(lib, s))
  {
    DealtReceiver(b.sizes, n, k, SizeAt(lib, s), FirstSmallest(b.sizes));
    DealtStep(b.sizes, n, k, SizeAt(lib, s));
  }

  /** Shaders of equal size are dealt to the groups in turn. */
  lemma {:induction false} GreedyDeals(lib: Library, k: nat, shaders: seq<nat>, d: nat)
    requires k > 0 && d > 0 && forall x :: x in shaders ==> SizeAt(lib, x) == d
    ensures EmptyBins(k).Valid(lib)
    ensures Dealt(Greedy(lib, EmptyBins(k), shaders).sizes, |shaders|, k, d)
  {
    EmptyValid(lib, k);
    if shaders == [] {
      ModUnique(0, k, 0, 0);
    } else {
      var n := |shaders| - 1;
      var front, s := shaders[..n], shaders[n];
      assert shaders == front + [s];
      GreedyDeals(lib, k, front, d);
      GreedyPush(lib, EmptyBins(k), front, s);
      assert s in shaders;
      DealOne(lib, Greedy(lib, EmptyBins(k), front), n, k, s);
    }
  }

  lemma {:induction false} DealtWithinLimit(sizes: seq<nat>, n: nat, k: nat, d: nat, limit: nat)
    requires k > 0 && Dealt(sizes, n, k, d)
    ensures (forall j :: 0 <= j < k ==> sizes[j] <= limit) <==> d * CeilDiv(n, k) <= limit
  {
    FirstShareIsCeil(n, k);
    assert sizes[0] == d * Share(n, k, 0);
    forall j | 0 <= j < k
      ensures sizes[j] <= sizes[0]
    {
      assert d * Share(n, k, j) <= d * Share(n, k, 0);
    }
  }

  /** For shaders of equal size the limit is kept if and only if the fullest part, which
      has its share rounded up, is within it. */
  lemma {:induction false} EqualSizesWithinLimit(lib: Library, limit: nat, g: seq<nat>, d: nat)
    requires limit > 0 && g != [] && forall x :: x in g ==> SizeAt(lib, x) == d
    ensures WithinLimit(lib, limit, SplitGroup(lib, limit, g)) <==>
            d * CeilDiv(|g|, PartCount(lib, limit, g)) <= limit
  {
    EqualSizes(lib, g, d);
    var k, sorted := PartCount(lib, limit, g), SortBy(g, Descending(lib));
    if SizeOf(lib, g) <= limit || |g| == 1 {
      KeptWithinLimit(lib, limit, g);
      ModUnique(|g|, 1, |g|, 0);
    } else {
      SameElements(g, sorted);
      assert d > 0;
      GreedyDeals(lib, k, sorted, d);
      var b := Greedy(lib, EmptyBins(k), sorted);
      DealtWithinLimit(b.sizes, |g|, k, d, limit);
      assert forall j :: 0 <= j < k ==> b.sizes[j] == SizeOf(lib, b.groups[j]);
    }
  }

  /** The limit itself can be exceeded, whatever it is: of three equal shaders that fill
      it more than once but less than twice, one part gets two, which may be too many. */
  lemma {:induction false} LimitMayBeExceeded(lib: Library, limit: nat, g: seq<nat>, d: nat)
    requires limit > 0 && |g| == 3 && forall x :: x in g ==> SizeAt(lib, x) == d
    requires limit <= 3 * d < 2 * limit && limit < 2 * d
    ensures ShadersAtMost(lib, g, limit) && !WithinLimit(lib, limit, SplitGroup(lib, limit, g))
  {
    EqualSizes(lib, g, d);
    ModUnique(3 * d, limit, 1, 3 * d - limit);
    EqualSizesWithinLimit(lib, limit, g, d);
  }
}
