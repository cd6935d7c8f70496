/** The portable-name collision check of `admit_portable_paths`: sort the folded keys,
    compare neighbours only. A key is the NUL-separated components of a folded path. */
module PortablePaths {
  import opened ByteOrder
  import opened Sorting
  import opened Wrappers

  type Key = seq<byte>
  datatype Admission = Admitted | NotPortable(name: string) | Collision(first: string, second: string)
  datatype Keyed = Keyed(key: Key, name: string)

  const NUL: byte := 0

  /** `a` names a directory on the way to `b`. */
  predicate IsPathPrefix(a: Key, b: Key) {
    |a| < |b| && b[..|a|] == a && b[|a|] == NUL
  }

  /** The test on neighbours: the same path, or one below it. */
  predicate Follows(a: Key, b: Key) { a == b || IsPathPrefix(a, b) }

  /** What a recipient volume cannot hold side by side, whichever comes first. */
  predicate Clash(a: Key, b: Key) {
    a == b || IsPathPrefix(a, b) || IsPathPrefix(b, a)
  }

  function ByKey(): (Keyed, Keyed) -> bool {
    (x: Keyed, y: Keyed) => Leq(x.key, y.key)
  }

  lemma ByKeyIsPreorder()
    ensures Preorder(ByKey())
  {
    forall a: Keyed, b: Keyed ensures ByKey()(a, b) || ByKey()(b, a) {
      LeqTotal(a.key, b.key);
    }
    forall a: Keyed, b: Keyed, c: Keyed | ByKey()(a, b) && ByKey()(b, c) ensures ByKey()(a, c) {
      LeqTransitive(a.key, b.key, c.key);
    }
  }

  lemma {:induction false} PrefixIsBelow(a: Key, b: Key)
    requires |a| <= |b| && b[..|a|] == a
    ensures Leq(a, b)
  {
    if a != [] {
      assert b[1..][..|a[1..]|] == a[1..] by { assert b[..|a|][1..] == b[1..][..|a| - 1]; }
      PrefixIsBelow(a[1..], b[1..]);
    }
  }

  /** Everything sorted between a path and something below it is the same path or below it
      too. This is where NUL being the least byte and the separator matters. */
  lemma {:induction false} Between(a: Key, c: Key, b: Key)
    requires Leq(a, c) && Leq(c, b) && IsPathPrefix(a, b)
    ensures a == c || IsPathPrefix(a, c)
  {
    if a == [] {
      if c != [] {
        assert c[0] == NUL;
      }
    } else {
      assert b[0] == b[..|a|][0] == a[0];
      assert a[1..] == b[1..][..|a[1..]|] by { assert b[..|a|][1..] == b[1..][..|a| - 1]; }
      Between(a[1..], c[1..], b[1..]);
      assert c == [c[0]] + c[1..] && a == [a[0]] + a[1..];
    }
  }

  ghost predicate AdjacentClash(s: seq<Keyed>) {
    exists i, j :: 0 <= i && j == i + 1 < |s| && Follows(s[i].key, s[j].key)
  }

  ghost predicate PairClash(s: seq<Keyed>) {
    exists i, j :: 0 <= i < j < |s| && Clash(s[i].key, s[j].key)
  }

  /** On sorted keys the neighbours decide for every pair. */
  lemma NeighboursDecide(s: seq<Keyed>)
    requires Sorted(s, ByKey())
    ensures AdjacentClash(s) <==> PairClash(s)
  {
    if AdjacentClash(s) {
      var i, j :| 0 <= i && j == i + 1 < |s| && Follows(s[i].key, s[j].key);
      assert Clash(s[i].key, s[j].key);
    }
    if PairClash(s) {
      var i, j :| 0 <= i < j < |s| && Clash(s[i].key, s[j].key);
      assert ByKey()(s[i], s[i + 1]) && ByKey()(s[i], s[j]);
      if j > i + 1 { assert ByKey()(s[i + 1], s[j]); } else { LeqTotal(s[j].key, s[j].key); }
      NextFollows(s[i].key, s[i + 1].key, s[j].key);
    }
  }

  /** What clashes with something no earlier is followed by whatever comes next. */
  lemma NextFollows(a: Key, c: Key, b: Key)
    requires Leq(a, c) && Leq(c, b) && Leq(a, b) && Clash(a, b)
    ensures Follows(a, c)
  {
    if a == b {
      LeqTotal(a, c);
    } else if IsPathPrefix(a, b) {
      Between(a, c, b);
    } else {
      PrefixIsBelow(b, a);
      LeqTotal(a, b);
      assert false;
    }
  }

  /** Sorting moves pairs about but creates and loses none. */
  lemma PairsPermute<T>(s: seq<T>, t: seq<T>, i: nat, j: nat) returns (k: nat, l: nat)
    requires multiset(s) == multiset(t) && i < j < |s|
    ensures k < |t| && l < |t| && k != l && t[k] == s[i] && t[l] == s[j]
  {
    if s[i] == s[j] {
      assert s == s[..j] + s[j..] && s[i] in s[..j] && s[j] in s[j..];
      assert multiset(s)[s[i]] >= 2;
      k, l := TwiceMeansTwoPlaces(t, s[i]);
    } else {
      assert s[i] in multiset(t) && s[j] in multiset(t);
      k :| 0 <= k < |t| && t[k] == s[i];
      l :| 0 <= l < |t| && t[l] == s[j];
    }
  }

  lemma {:induction false} TwiceMeansTwoPlaces<T>(t: seq<T>, x: T) returns (k: nat, l: nat)
    requires multiset(t)[x] >= 2
    ensures k < l < |t| && t[k] == x && t[l] == x
  {
    var rest, last := t[..|t| - 1], t[|t| - 1];
    assert t == rest + [last];
    if last == x {
      assert x in multiset(rest);
      k :| k < |rest| && rest[k] == x;
      l := |t| - 1;
    } else {
      k, l := TwiceMeansTwoPlaces(rest, x);
    }
  }

  /** All names have a key and no two clash, in whatever order they were given. */
  ghost predicate Portable(names: seq<string>, keyOf: string -> Option<Key>) {
    && (forall i :: 0 <= i < |names| ==> keyOf(names[i]).Some?)
    && (forall i, j :: 0 <= i < j < |names| ==> !Clash(keyOf(names[i]).value, keyOf(names[j]).value))
  }

  lemma AdmissionIgnoresOrder(a: seq<string>, b: seq<string>, keyOf: string -> Option<Key>)
    requires multiset(a) == multiset(b)
    ensures Portable(a, keyOf) <==> Portable(b, keyOf)
  {
    if Portable(a, keyOf) { PortablePermutes(a, b, keyOf); }
    if Portable(b, keyOf) { PortablePermutes(b, a, keyOf); }
  }

  lemma PortablePermutes(a: seq<string>, b: seq<string>, keyOf: string -> Option<Key>)
    requires multiset(a) == multiset(b) && Portable(a, keyOf)
    ensures Portable(b, keyOf)
  {
    forall i | 0 <= i < |b| ensures keyOf(b[i]).Some? {
      assert b[i] in multiset(a);
    }
    forall i, j | 0 <= i < j < |b|
      ensures !Clash(keyOf(b[i]).value, keyOf(b[j]).value)
    {
      var k, l := PairsPermute(b, a, i, j);
      assert !Clash(keyOf(a[if k < l then k else l]).value, keyOf(a[if k < l then l else k]).value);
    }
  }

  /** Two entries of the list, at different places, that carry these names and clash. */
  ghost predicate NamesClash(names: seq<string>, keyOf: string -> Option<Key>, first: string, second: string) {
    exists i, j ::
      && 0 <= i < |names| && 0 <= j < |names| && i != j
      && names[i] == first && names[j] == second
      && keyOf(first).Some? && keyOf(second).Some?
      && Clash(keyOf(first).value, keyOf(second).value)
  }

  /** `admit_portable_paths`. `keyOf` stands for the component rules, the canonical key
      and the Unicode folding; `None` is any of their refusals. */
  method AdmitPortablePaths(names: seq<string>, keyOf: string -> Option<Key>) returns (r: Admission)
    ensures r.Admitted? <==> Portable(names, keyOf)
    ensures r.NotPortable? ==> r.name in names && keyOf(r.name).None?
    ensures r.Collision? ==> NamesClash(names, keyOf, r.first, r.second)
  {
    var keyed: seq<Keyed> := [];
    for n := 0 to |names|
      invariant |keyed| == n
      invariant forall i :: 0 <= i < n ==> keyOf(names[i]) == Some(keyed[i].key) && keyed[i].name == names[i]
    {
      var key := keyOf(names[n]);
      if key.None? {
        return NotPortable(names[n]);
      }
      keyed := keyed + [Keyed(key.value, names[n])];
    }
    var sorted := SortBy(keyed, ByKey());
    SortingExposesClashes(keyed);
    var i := FirstNeighbours(sorted);
    if i.Some? {
      var k, l := PairsPermute(sorted, keyed, i.value, i.value + 1);
      assert names[k] == sorted[i.value].name && names[l] == sorted[i.value + 1].name;
      return Collision(sorted[i.value].name, sorted[i.value + 1].name);
    }
    r := Admitted;
    assert forall i, j :: 0 <= i < j < |names| ==> !Clash(keyed[i].key, keyed[j].key);
  }

  /** The scan over neighbouring pairs, as far as the first that collides. */
  method FirstNeighbours(sorted: seq<Keyed>) returns (r: Option<nat>)
    ensures r.None? <==> !AdjacentClash(sorted)
    ensures r.Some? ==> r.value + 1 < |sorted| && Follows(sorted[r.value].key, sorted[r.value + 1].key)
  {
    var i := 0;
    while i + 1 < |sorted|
      invariant forall k :: 0 <= k < i && k + 1 < |sorted| ==> !Follows(sorted[k].key, sorted[k + 1].key)
    {
      if Follows(sorted[i].key, sorted[i + 1].key) {
        return Some(i);
      }
      i := i + 1;
    }
    r := None;
  }

  /** So a clash anywhere in the list shows up next door once it is sorted. */
  lemma SortingExposesClashes(keyed: seq<Keyed>)
    ensures multiset(SortBy(keyed, ByKey())) == multiset(keyed)
    ensures AdjacentClash(SortBy(keyed, ByKey())) <==> PairClash(keyed)
  {
    var sorted := SortBy(keyed, ByKey());
    SortPermutes(keyed, ByKey());
    ByKeyIsPreorder();
    SortSorts(keyed, ByKey());
    NeighboursDecide(sorted);
    ClashesSurvive(keyed, sorted);
    ClashesSurvive(sorted, keyed);
  }

  lemma ClashesSurvive(s: seq<Keyed>, t: seq<Keyed>)
    requires multiset(s) == multiset(t)
    ensures PairClash(s) ==> PairClash(t)
  {
    if PairClash(s) {
      var i, j :| 0 <= i < j < |s| && Clash(s[i].key, s[j].key);
      var k, l := PairsPermute(s, t, i, j);
      assert Clash(t[if k < l then k else l].key, t[if k < l then l else k].key);
    }
  }
}
