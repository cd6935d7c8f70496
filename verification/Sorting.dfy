/** The standard library's stable sort, as the three callers of this model use it:
    a permutation, ordered, that never reorders equal elements. */
module Sorting {

  ghost predicate Preorder<T(!new)>(le: (T, T) -> bool) {
    && (forall a, b :: le(a, b) || le(b, a))
    && (forall a, b, c :: le(a, b) && le(b, c) ==> le(a, c))
  }

  ghost predicate Sorted<T>(s: seq<T>, le: (T, T) -> bool) {
    forall i, j :: 0 <= i < j < |s| ==> le(s[i], s[j])
  }

  /** Places `x` after the last element that does not follow it. */
  function Insert<T>(s: seq<T>, x: T, le: (T, T) -> bool): seq<T> {
    if s == [] || le(s[|s| - 1], x) then s + [x]
    else Insert(s[..|s| - 1], x, le) + [s[|s| - 1]]
  }

  function SortBy<T>(s: seq<T>, le: (T, T) -> bool): seq<T> {
    if s == [] then [] else Insert(SortBy(s[..|s| - 1], le), s[|s| - 1], le)
  }

  function Keep<T>(s: seq<T>, p: T -> bool): seq<T> {
    if s == [] then []
    else Keep(s[..|s| - 1], p) + (if p(s[|s| - 1]) then [s[|s| - 1]] else [])
  }

  lemma {:induction false} InsertPermutes<T>(s: seq<T>, x: T, le: (T, T) -> bool)
    ensures multiset(Insert(s, x, le)) == multiset(s) + multiset{x}
  {
    if s == [] || le(s[|s| - 1], x) {
    } else {
      InsertPermutes(s[..|s| - 1], x, le);
      assert s == s[..|s| - 1] + [s[|s| - 1]];
    }
  }

  lemma {:induction false} SortPermutes<T>(s: seq<T>, le: (T, T) -> bool)
    ensures multiset(SortBy(s, le)) == multiset(s)
    ensures |SortBy(s, le)| == |s|
  {
    if s == [] {
    } else {
      var rest := s[..|s| - 1];
      SortPermutes(rest, le);
      InsertPermutes(SortBy(rest, le), s[|s| - 1], le);
      assert s == rest + [s[|s| - 1]];
      assert |multiset(SortBy(s, le))| == |multiset(s)|;
    }
  }

  lemma {:induction false} InsertSorts<T(!new)>(s: seq<T>, x: T, le: (T, T) -> bool)
    requires Preorder(le) && Sorted(s, le)
    ensures Sorted(Insert(s, x, le), le)
  {
    if s == [] {
    } else if le(s[|s| - 1], x) {
      assert forall i :: 0 <= i < |s| ==> le(s[i], s[|s| - 1]) && le(s[i], x);
    } else {
      var rest, last := s[..|s| - 1], s[|s| - 1];
      InsertSorts(rest, x, le);
      InsertPermutes(rest, x, le);
      var t := Insert(rest, x, le);
      forall i | 0 <= i < |t|
        ensures le(t[i], last)
      {
        assert t[i] in multiset(t);
        assert t[i] == x || t[i] in rest;
      }
    }
  }

  lemma {:induction false} SortSorts<T(!new)>(s: seq<T>, le: (T, T) -> bool)
    requires Preorder(le)
    ensures Sorted(SortBy(s, le), le)
  {
    if s == [] {
    } else {
      SortSorts(s[..|s| - 1], le);
      InsertSorts(SortBy(s[..|s| - 1], le), s[|s| - 1], le);
    }
  }

  lemma {:induction false} KeepAppend<T>(s: seq<T>, t: seq<T>, p: T -> bool)
    ensures Keep(s + t, p) == Keep(s, p) + Keep(t, p)
  {
    if t == [] {
      assert s + t == s;
    } else {
      assert (s + t)[..|s + t| - 1] == s + t[..|t| - 1];
      KeepAppend(s, t[..|t| - 1], p);
    }
  }

  lemma {:induction false} InsertIsStable<T>(s: seq<T>, x: T, le: (T, T) -> bool, p: T -> bool)
    requires forall y :: y in s && p(x) && p(y) ==> le(y, x)
    ensures Keep(Insert(s, x, le), p) == Keep(s, p) + Keep([x], p)
  {
    if s == [] || le(s[|s| - 1], x) {
      KeepAppend(s, [x], p);
    } else {
      var rest, last := s[..|s| - 1], s[|s| - 1];
      assert s == rest + [last];
      InsertIsStable(rest, x, le, p);
      KeepAppend(Insert(rest, x, le), [last], p);
      KeepAppend(rest, [last], p);
      assert p(x) ==> !p(last);
    }
  }

  /** Elements that compare equal keep their order: any class `p` of mutually
      equal elements comes out as it went in. */
  lemma {:induction false} SortIsStable<T(!new)>(s: seq<T>, le: (T, T) -> bool, p: T -> bool)
    requires forall x, y :: p(x) && p(y) ==> le(x, y)
    ensures Keep(SortBy(s, le), p) == Keep(s, p)
  {
    if s == [] {
    } else {
      var rest, last := s[..|s| - 1], s[|s| - 1];
      assert s == rest + [last];
      SortIsStable(rest, le, p);
      InsertIsStable(SortBy(rest, le), last, le, p);
      KeepAppend(rest, [last], p);
    }
  }
}
