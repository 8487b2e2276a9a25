/** Sequences without repetitions, and sequences as finite sets. */
module Sequences {

  ghost predicate Distinct<T(!new)>(s: seq<T>) {
    forall i, j :: 0 <= i < j < |s| ==> s[i] != s[j]
  }

  ghost function Elements<T(!new)>(s: seq<T>): (r: set<T>)
    ensures forall x :: x in r <==> x in s
  {
    set x | x in s
  }

  lemma {:induction false} DistinctCardinality<T(!new)>(s: seq<T>)
    requires Distinct(s)
    ensures |Elements(s)| == |s|
  {
    if s == [] {
      assert Elements(s) == {};
    } else {
      var n := |s| - 1;
      var t, x := s[..n], s[n];
      DistinctCardinality(t);
      assert s == t + [x] && x !in t;
      assert Elements(s) == Elements(t) + {x};
    }
  }

  lemma {:induction false} SubsetCardinality<T>(a: set<T>, b: set<T>)
    requires a <= b
    ensures |a| <= |b|
    ensures |a| == |b| ==> a == b
  {
    assert b == a + (b - a);
  }

  /** A distinct sequence inside a distinct sequence is no longer, and when equally
      long it is a permutation. */
  lemma {:induction false} DistinctFits<T(!new)>(s: seq<T>, t: seq<T>)
    requires Distinct(s) && Distinct(t)
    requires forall x :: x in s ==> x in t
    ensures |s| <= |t|
    ensures |s| == |t| ==> multiset(s) == multiset(t)
  {
    DistinctCardinality(s);
    DistinctCardinality(t);
    SubsetCardinality(Elements(s), Elements(t));
    if |s| == |t| {
      forall x
        ensures multiset(s)[x] == multiset(t)[x]
      {
        DistinctMultiplicity(s, x);
        DistinctMultiplicity(t, x);
        assert x in s <==> x in Elements(s);
        assert x in t <==> x in Elements(t);
      }
    }
  }

  lemma {:induction false} DistinctMultiplicity<T(!new)>(s: seq<T>, x: T)
    requires Distinct(s)
    ensures multiset(s)[x] == if x in s then 1 else 0
  {
    if s != [] {
      var t := s[..|s| - 1];
      DistinctMultiplicity(t, x);
      assert s == t + [s[|s| - 1]];
      assert x in s <==> x in t || x == s[|s| - 1];
    }
  }

  /** The converse: a permutation of a distinct sequence is distinct. */
  lemma {:induction false} PermutationDistinct<T(!new)>(s: seq<T>, t: seq<T>)
    requires Distinct(t) && multiset(s) == multiset(t)
    ensures Distinct(s) && |s| == |t|
    ensures forall x :: x in s <==> x in t
  {
    assert |s| == |multiset(s)| == |multiset(t)| == |t|;
    forall x
      ensures x in s <==> x in t
    {
      assert x in s <==> x in multiset(s);
      assert x in t <==> x in multiset(t);
    }
    forall i, j | 0 <= i < j < |s|
      ensures s[i] != s[j]
    {
      if s[i] == s[j] {
        DistinctMultiplicity(t, s[i]);
        TwoOccurrences(s, i, j);
      }
    }
  }

  lemma {:induction false} TwoOccurrences<T(!new)>(s: seq<T>, i: nat, j: nat)
    requires i < j < |s| && s[i] == s[j]
    ensures multiset(s)[s[i]] >= 2
  {
    var x := s[i];
    assert s == s[..j] + [s[j]] + s[j + 1..];
    assert x in s[..j];
    assert multiset(s)[x] == multiset(s[..j])[x] + 1 + multiset(s[j + 1..])[x];
  }

  /** Where two different sequences of one length first differ. */
  lemma {:induction false} FirstDifference<T(!new)>(a: seq<T>, b: seq<T>) returns (k: nat)
    requires |a| == |b| && a != b
    ensures k < |a| && a[..k] == b[..k] && a[k] != b[k]
  {
    assert a[..|a|] == a && b[..|b|] == b;
    k := 0;
    while k < |a| && a[k] == b[k]
      invariant k <= |a| && a[..k] == b[..k]
    {
      assert a[..k + 1] == a[..k] + [a[k]] && b[..k + 1] == b[..k] + [b[k]];
      k := k + 1;
    }
  }

  /** A slice of the middle part of a concatenation. */
  lemma {:induction false} SliceOfMiddle<T>(whole: seq<T>, front: seq<T>, middle: seq<T>, back: seq<T>, a: nat,
                                            size: nat)
    requires whole == front + (middle + back) && a + size <= |middle|
    ensures |front| + a + size <= |whole|
    ensures whole[|front| + a..|front| + a + size] == middle[a..a + size]
    ensures whole[|front| + |middle|..] == back
  {
  }

  /** The numbers below `n`. */
  ghost function Below(n: nat): (r: set<nat>)
    ensures |r| == n && forall i: nat :: i in r <==> i < n
  {
    if n == 0 then {} else Below(n - 1) + {n - 1}
  }

  lemma {:induction false} ElementsAtMost<T(!new)>(s: seq<T>)
    ensures |Elements(s)| <= |s|
  {
    if s == [] {
      assert Elements(s) == {};
    } else {
      var n := |s| - 1;
      ElementsAtMost(s[..n]);
      assert s == s[..n] + [s[n]];
      assert Elements(s) == Elements(s[..n]) + {s[n]};
    }
  }

  lemma {:induction false} SliceFront<T>(s: seq<T>, i: nat, j: nat, k: nat)
    requires i <= j <= k <= |s|
    ensures s[i..k][..j - i] == s[i..j]
  {
    forall x | 0 <= x < j - i
      ensures s[i..k][x] == s[i..j][x]
    {
    }
  }
}
