/** Stable sorting by a total preorder. */
module Sorting {

  ghost predicate TotalPreorder<T(!new)>(le: (T, T) -> bool) {
    && (forall x, y :: le(x, y) || le(y, x))
    && (forall x, y, z :: le(x, y) && le(y, z) ==> le(x, z))
  }

  ghost predicate SortedBy<T(!new)>(s: seq<T>, le: (T, T) -> bool) {
    forall i, j :: 0 <= i < j < |s| ==> le(s[i], s[j])
  }

  function Insert<T>(x: T, s: seq<T>, le: (T, T) -> bool): (r: seq<T>)
    ensures multiset(r) == multiset(s) + multiset{x}
  {
    if s == [] || le(x, s[0]) then [x] + s
    else
      assert s == [s[0]] + s[1..];
      [s[0]] + Insert(x, s[1..], le)
  }

  /** Inserting the elements back to front keeps equal ones in their order. */
  function SortBy<T>(s: seq<T>, le: (T, T) -> bool): (r: seq<T>)
    ensures multiset(r) == multiset(s)
  {
    if s == [] then []
    else
      assert s == [s[0]] + s[1..];
      Insert(s[0], SortBy(s[1..], le), le)
  }

  lemma {:induction false} SameElements<T>(s: seq<T>, t: seq<T>)
    requires multiset(s) == multiset(t)
    ensures |s| == |t| && forall x :: x in s <==> x in t
  {
    assert |s| == |multiset(s)| == |multiset(t)| == |t|;
    forall x
      ensures x in s <==> x in t
    {
      assert x in s <==> x in multiset(s);
      assert x in t <==> x in multiset(t);
    }
  }

  lemma {:induction false} InsertSorted<T(!new)>(x: T, s: seq<T>, le: (T, T) -> bool)
    requires TotalPreorder(le) && SortedBy(s, le)
    ensures SortedBy(Insert(x, s, le), le)
  {
    if s != [] && !le(x, s[0]) {
      InsertSorted(x, s[1..], le);
      var tail := Insert(x, s[1..], le);
      SameElements(tail, [x] + s[1..]);
      assert forall y :: y in tail ==> le(s[0], y);
      assert forall j :: 0 < j <= |tail| ==> ([s[0]] + tail)[j] in tail;
    }
  }

  lemma {:induction false} SortBySorted<T(!new)>(s: seq<T>, le: (T, T) -> bool)
    requires TotalPreorder(le)
    ensures SortedBy(SortBy(s, le), le)
  {
    if s != [] {
      SortBySorted(s[1..], le);
      InsertSorted(s[0], SortBy(s[1..], le), le);
    }
  }

  ghost predicate Antisymmetric<T(!new)>(le: (T, T) -> bool) {
    forall x, y :: le(x, y) && le(y, x) ==> x == y
  }

  lemma {:induction false} LastIsGreatest<T(!new)>(s: seq<T>, le: (T, T) -> bool, x: T)
    requires SortedBy(s, le) && x in s
    ensures x == s[|s| - 1] || le(x, s[|s| - 1])
  {
    var i :| 0 <= i < |s| && s[i] == x;
    assert i < |s| - 1 ==> le(s[i], s[|s| - 1]);
  }

  lemma {:induction false} DropLast<T>(s: seq<T>, t: seq<T>)
    requires |s| == |t| > 0 && multiset(s) == multiset(t) && s[|s| - 1] == t[|t| - 1]
    ensures multiset(s[..|s| - 1]) == multiset(t[..|t| - 1])
  {
    var n := |s| - 1;
    assert s == s[..n] + [s[n]] && t == t[..n] + [t[n]];
    assert multiset(s[..n]) == multiset(s) - multiset{s[n]};
    assert multiset(t[..n]) == multiset(t) - multiset{t[n]};
  }

  lemma {:induction false} SameLast<T(!new)>(s: seq<T>, t: seq<T>, le: (T, T) -> bool)
    requires SortedBy(s, le) && SortedBy(t, le) && multiset(s) == multiset(t) && s != []
    requires Antisymmetric(le)
    ensures |s| == |t| && s[|s| - 1] == t[|t| - 1]
  {
    SameElements(s, t);
    var x, y := s[|s| - 1], t[|t| - 1];
    assert y in t && x in s;
    LastIsGreatest(s, le, y);
    LastIsGreatest(t, le, x);
  }

  /** With a total order there is only one sorted arrangement. */
  lemma {:induction false} SortedUnique<T(!new)>(s: seq<T>, t: seq<T>, le: (T, T) -> bool)
    requires SortedBy(s, le) && SortedBy(t, le) && multiset(s) == multiset(t)
    requires Antisymmetric(le)
    ensures s == t
  {
    SameElements(s, t);
    if s != [] {
      SameLast(s, t, le);
      DropLast(s, t);
      SortedUnique(s[..|s| - 1], t[..|t| - 1], le);
      assert s == s[..|s| - 1] + [s[|s| - 1]] && t == t[..|t| - 1] + [t[|t| - 1]];
    }
  }

  /** A sequence that is already in order is left alone. */
  lemma {:induction false} SortByOfSorted<T(!new)>(s: seq<T>, le: (T, T) -> bool)
    requires SortedBy(s, le)
    ensures SortBy(s, le) == s
  {
    if s != [] {
      SortByOfSorted(s[1..], le);
      assert s[1..] != [] ==> le(s[0], s[1..][0]);
    }
  }
}
