/** The bytes that `manifest_digest` feeds to SHA-256, in both its delivery (ordered) and
    route (sorted by name) form. */
module ManifestPreimage {
  import opened ByteOrder
  import opened Sorting
  import opened Wrappers

  type Bytes = seq<byte>
  datatype FileEntry = FileEntry(name: Bytes, suite: Bytes, root: Bytes, bytes: nat)

  // "votport-delivery-files-v1\0"
  const DOMAIN: Bytes := [118, 111, 116, 112, 111, 114, 116, 45, 100, 101, 108, 105, 118, 101, 114,
                          121, 45, 102, 105, 108, 101, 115, 45, 118, 49, 0]

  /** Every length and number fits the source's `u64`. */
  predicate Fits(f: FileEntry) {
    |f.name| < U64_LIMIT && |f.suite| < U64_LIMIT && |f.root| < U64_LIMIT && f.bytes < U64_LIMIT
  }

  predicate AllFit(files: seq<FileEntry>) {
    |files| < U64_LIMIT && forall f :: f in files ==> Fits(f)
  }

  // ---------------------------------------------------------------- big-endian numbers

  function Pow256(k: nat): nat { if k == 0 then 1 else 256 * Pow256(k - 1) }

  function BigEndian(n: nat, k: nat): (b: Bytes)
    ensures |b| == k
  {
    if k == 0 then [] else BigEndian(n / 256, k - 1) + [n % 256]
  }

  function FromBigEndian(b: Bytes): nat {
    if b == [] then 0 else FromBigEndian(b[..|b| - 1]) * 256 + b[|b| - 1]
  }

  lemma {:induction false} NumberRoundTrip(n: nat, k: nat)
    requires n < Pow256(k)
    ensures FromBigEndian(BigEndian(n, k)) == n
  {
    if k != 0 {
      NumberRoundTrip(n / 256, k - 1);
      assert BigEndian(n, k)[..k - 1] == BigEndian(n / 256, k - 1);
    }
  }

  lemma {:induction false} BytesRoundTrip(b: Bytes)
    ensures FromBigEndian(b) < Pow256(|b|) && BigEndian(FromBigEndian(b), |b|) == b
  {
    if b != [] {
      BytesRoundTrip(b[..|b| - 1]);
    }
  }

  function U64(n: nat): (b: Bytes) ensures |b| == 8 { BigEndian(n, 8) }

  lemma U64RoundTrip(n: nat)
    requires n < U64_LIMIT
    ensures FromBigEndian(U64(n)) == n
  {
    assert Pow256(8) == U64_LIMIT by { assert Pow256(4) == 0x1_0000_0000; }
    NumberRoundTrip(n, 8);
  }

  lemma U64OfBytes(b: Bytes)
    requires |b| == 8
    ensures FromBigEndian(b) < U64_LIMIT && U64(FromBigEndian(b)) == b
  {
    assert Pow256(8) == U64_LIMIT by { assert Pow256(4) == 0x1_0000_0000; }
    BytesRoundTrip(b);
  }

  // ------------------------------------------------------------------------- encoding

  function Field(f: Bytes): Bytes { U64(|f|) + f }

  function Entry(f: FileEntry): Bytes {
    Field(f.name) + Field(f.suite) + Field(f.root) + U64(f.bytes)
  }

  function PutMany<T>(put: T -> Bytes, items: seq<T>): Bytes {
    if items == [] then [] else put(items[0]) + PutMany(put, items[1..])
  }

  function PutEntry(): FileEntry -> Bytes { (f: FileEntry) => Entry(f) }

  function Entries(files: seq<FileEntry>): Bytes { PutMany(PutEntry(), files) }

  function Preimage(files: seq<FileEntry>): Bytes {
    DOMAIN + Entries(files) + U64(|files|)
  }

  // ------------------------------------------------------------------------- decoding

  function TakeField(b: Bytes): Option<(Bytes, Bytes)> {
    if |b| < 8 then None
    else
      var n := FromBigEndian(b[..8]);
      if |b| - 8 < n then None else Some((b[8..8 + n], b[8 + n..]))
  }

  function TakeEntry(b: Bytes): Option<(FileEntry, Bytes)> {
    var name := TakeField(b);
    if name.None? then None else
    var suite := TakeField(name.value.1);
    if suite.None? then None else
    var root := TakeField(suite.value.1);
    if root.None? || |root.value.1| < 8 then None else
    var rest := root.value.1;
    Some((FileEntry(name.value.0, suite.value.0, root.value.0, FromBigEndian(rest[..8])), rest[8..]))
  }

  function TakeMany<T>(take: Bytes -> Option<(T, Bytes)>, b: Bytes, n: nat): Option<seq<T>>
    decreases n
  {
    if n == 0 then (if b == [] then Some([]) else None)
    else
      var first := take(b);
      if first.None? then None else
      var rest := TakeMany(take, first.value.1, n - 1);
      if rest.None? then None else Some([first.value.0] + rest.value)
  }

  function Taker(): Bytes -> Option<(FileEntry, Bytes)> { (b: Bytes) => TakeEntry(b) }

  function TakeEntries(b: Bytes, n: nat): Option<seq<FileEntry>> { TakeMany(Taker(), b, n) }

  /** `take` undoes `put`, whatever follows. */
  ghost predicate Undoes<T(!new)>(take: Bytes -> Option<(T, Bytes)>, put: T -> Bytes, fits: T -> bool) {
    forall x: T, rest: Bytes :: fits(x) ==> take(put(x) + rest) == Some((x, rest))
  }

  /** `take` accepts nothing that `put` does not produce. */
  ghost predicate OnlyTakes<T(!new)>(take: Bytes -> Option<(T, Bytes)>, put: T -> Bytes, fits: T -> bool) {
    forall b: Bytes :: take(b).Some? ==> fits(take(b).value.0) && put(take(b).value.0) + take(b).value.1 == b
  }

  lemma {:induction false} ManyRoundTrip<T(!new)>(take: Bytes -> Option<(T, Bytes)>, put: T -> Bytes, fits: T -> bool,
                                           items: seq<T>)
    requires Undoes(take, put, fits) && forall x :: x in items ==> fits(x)
    ensures TakeMany(take, PutMany(put, items), |items|) == Some(items)
  {
    if items != [] {
      ManyRoundTrip(take, put, fits, items[1..]);
      assert take(put(items[0]) + PutMany(put, items[1..])) == Some((items[0], PutMany(put, items[1..])));
      assert [items[0]] + items[1..] == items;
    }
  }

  lemma {:induction false} ManyCanonical<T(!new)>(take: Bytes -> Option<(T, Bytes)>, put: T -> Bytes, fits: T -> bool,
                                           b: Bytes, n: nat)
    requires OnlyTakes(take, put, fits) && TakeMany(take, b, n).Some?
    ensures var items := TakeMany(take, b, n).value;
      |items| == n && PutMany(put, items) == b && forall x :: x in items ==> fits(x)
    decreases n
  {
    if n != 0 {
      var (x, tail) := take(b).value;
      ManyCanonical(take, put, fits, tail, n - 1);
      var rest := TakeMany(take, tail, n - 1).value;
      assert ([x] + rest)[1..] == rest;
      assert put(x) + tail == b;
    }
  }

  /** The count comes last, so it is read from the end and then bounds the entries. */
  function Decode(b: Bytes): Option<seq<FileEntry>> {
    if |b| < |DOMAIN| + 8 || b[..|DOMAIN|] != DOMAIN then None
    else TakeEntries(b[|DOMAIN|..|b| - 8], FromBigEndian(b[|b| - 8..]))
  }

  lemma FieldRoundTrip(f: Bytes, rest: Bytes)
    requires |f| < U64_LIMIT
    ensures TakeField(Field(f) + rest) == Some((f, rest))
  {
    U64RoundTrip(|f|);
    assert (Field(f) + rest)[..8] == U64(|f|);
  }

  lemma EntryRoundTrip(f: FileEntry, rest: Bytes)
    requires Fits(f)
    ensures TakeEntry(Entry(f) + rest) == Some((f, rest))
  {
    var afterRoot := U64(f.bytes) + rest;
    var afterSuite := Field(f.root) + afterRoot;
    var afterName := Field(f.suite) + afterSuite;
    assert Entry(f) + rest == Field(f.name) + afterName;
    FieldRoundTrip(f.name, afterName);
    FieldRoundTrip(f.suite, afterSuite);
    FieldRoundTrip(f.root, afterRoot);
    U64RoundTrip(f.bytes);
    assert afterRoot[..8] == U64(f.bytes) && afterRoot[8..] == rest;
  }

  function Fit(): FileEntry -> bool { (f: FileEntry) => Fits(f) }

  lemma EntriesRoundTrip(files: seq<FileEntry>)
    requires forall f :: f in files ==> Fits(f)
    ensures TakeEntries(Entries(files), |files|) == Some(files)
  {
    forall f: FileEntry, rest: Bytes | Fit()(f)
      ensures Taker()(PutEntry()(f) + rest) == Some((f, rest))
    {
      EntryRoundTrip(f, rest);
    }
    ManyRoundTrip(Taker(), PutEntry(), Fit(), files);
  }

  /** Whatever was fed to the hash reads back as the list that was given. */
  lemma DecodeRoundTrip(files: seq<FileEntry>)
    requires AllFit(files)
    ensures Decode(Preimage(files)) == Some(files)
  {
    EntriesRoundTrip(files);
    U64RoundTrip(|files|);
    var b := Preimage(files);
    assert b[..|DOMAIN|] == DOMAIN;
    assert b[|DOMAIN|..|b| - 8] == Entries(files);
    assert b[|b| - 8..] == U64(|files|);
  }

  /** Conversely nothing else decodes: a decodable string is the encoding of its list. */
  lemma DecodeIsCanonical(b: Bytes)
    requires Decode(b).Some?
    ensures AllFit(Decode(b).value) && Preimage(Decode(b).value) == b
  {
    var n := FromBigEndian(b[|b| - 8..]);
    U64OfBytes(b[|b| - 8..]);
    EntriesCanonical(b[|DOMAIN|..|b| - 8], n);
    assert b == b[..|DOMAIN|] + b[|DOMAIN|..|b| - 8] + b[|b| - 8..];
  }

  lemma EntriesCanonical(b: Bytes, n: nat)
    requires TakeEntries(b, n).Some?
    ensures var files := TakeEntries(b, n).value;
      |files| == n && Entries(files) == b && forall f :: f in files ==> Fits(f)
  {
    forall x: Bytes | Taker()(x).Some?
      ensures Fit()(Taker()(x).value.0) && PutEntry()(Taker()(x).value.0) + Taker()(x).value.1 == x
    {
      EntryCanonical(x, TakeEntry(x).value.0, TakeEntry(x).value.1);
    }
    ManyCanonical(Taker(), PutEntry(), Fit(), b, n);
    var files := TakeEntries(b, n).value;
    forall f | f in files ensures Fits(f) { assert Fit()(f); }
  }

  lemma EntryFields(b: Bytes, f: FileEntry, rest: Bytes) returns (b1: Bytes, b2: Bytes, b3: Bytes)
    requires TakeEntry(b) == Some((f, rest))
    ensures TakeField(b) == Some((f.name, b1)) && TakeField(b1) == Some((f.suite, b2))
    ensures TakeField(b2) == Some((f.root, b3))
    ensures |b3| >= 8 && f.bytes == FromBigEndian(b3[..8]) && rest == b3[8..]
  {
    b1 := TakeField(b).value.1;
    b2 := TakeField(b1).value.1;
    b3 := TakeField(b2).value.1;
  }

  lemma EntryCanonical(b: Bytes, f: FileEntry, rest: Bytes)
    requires TakeEntry(b) == Some((f, rest))
    ensures Fits(f) && Entry(f) + rest == b
  {
    var b1, b2, b3 := EntryFields(b, f, rest);
    FieldCanonical(b, f.name, b1);
    FieldCanonical(b1, f.suite, b2);
    FieldCanonical(b2, f.root, b3);
    NumberCanonical(b3, f.bytes, rest);
    Assemble(Field(f.name), Field(f.suite), Field(f.root), U64(f.bytes), b, b1, b2, b3, rest);
  }

  lemma NumberCanonical(b: Bytes, n: nat, rest: Bytes)
    requires |b| >= 8 && n == FromBigEndian(b[..8]) && rest == b[8..]
    ensures n < U64_LIMIT && b == U64(n) + rest
  {
    U64OfBytes(b[..8]);
    assert b == b[..8] + b[8..];
  }

  /** Four fields and what follows them, put back one at a time. */
  lemma Assemble(name: Bytes, suite: Bytes, root: Bytes, size: Bytes,
                 b: Bytes, b1: Bytes, b2: Bytes, b3: Bytes, rest: Bytes)
    requires b == name + b1 && b1 == suite + b2 && b2 == root + b3 && b3 == size + rest
    ensures name + suite + root + size + rest == b
  {
    assert name + suite + root + size + rest == name + (suite + (root + (size + rest)));
  }

  lemma FieldCanonical(b: Bytes, f: Bytes, rest: Bytes)
    requires TakeField(b) == Some((f, rest))
    ensures |f| < U64_LIMIT && b == Field(f) + rest
  {
    NumberCanonical(b, |f|, b[8..]);
    assert b[8..] == f + rest;
    assert b == U64(|f|) + (f + rest) == U64(|f|) + f + rest;
  }

  /** Same bytes, same list in the same order. */
  lemma PreimageIsInjective(a: seq<FileEntry>, b: seq<FileEntry>)
    requires AllFit(a) && AllFit(b) && Preimage(a) == Preimage(b)
    ensures a == b
  {
    DecodeRoundTrip(a);
    DecodeRoundTrip(b);
  }

  // ------------------------------------------------------------------ the route variant

  function ByName(): (FileEntry, FileEntry) -> bool {
    (x: FileEntry, y: FileEntry) => Leq(x.name, y.name)
  }

  function Named(n: Bytes): FileEntry -> bool { (f: FileEntry) => f.name == n }

  function RoutePreimage(files: seq<FileEntry>): Bytes {
    Preimage(SortBy(files, ByName()))
  }

  ghost predicate SameByName(a: seq<FileEntry>, b: seq<FileEntry>) {
    forall n: Bytes :: Keep(a, Named(n)) == Keep(b, Named(n))
  }

  ghost predicate DistinctNames(files: seq<FileEntry>) {
    forall i, j :: 0 <= i < j < |files| ==> files[i].name != files[j].name
  }

  lemma ByNameIsPreorder()
    ensures Preorder(ByName())
  {
    forall a: FileEntry, b: FileEntry ensures ByName()(a, b) || ByName()(b, a) {
      LeqTotal(a.name, b.name);
    }
    forall a: FileEntry, b: FileEntry, c: FileEntry | ByName()(a, b) && ByName()(b, c) ensures ByName()(a, c) {
      LeqTransitive(a.name, b.name, c.name);
    }
  }

  lemma SortKeepsNames(files: seq<FileEntry>, n: Bytes)
    ensures Keep(SortBy(files, ByName()), Named(n)) == Keep(files, Named(n))
  {
    forall x: FileEntry, y: FileEntry | Named(n)(x) && Named(n)(y) ensures ByName()(x, y) {
      LeqTotal(n, n);
    }
    SortIsStable(files, ByName(), Named(n));
  }

  lemma {:induction false} KeepMembers(s: seq<FileEntry>, n: Bytes, x: FileEntry)
    ensures x in Keep(s, Named(n)) <==> x in s && x.name == n
  {
    if s != [] {
      KeepMembers(s[..|s| - 1], n, x);
      assert s == s[..|s| - 1] + [s[|s| - 1]];
    }
  }

  /** The last element of a sorted list, found from what the list holds under its name. */
  lemma LastAgrees(a: seq<FileEntry>, b: seq<FileEntry>)
    requires a != [] && b != []
    requires Sorted(a, ByName()) && Sorted(b, ByName()) && SameByName(a, b)
    ensures a[|a| - 1].name == b[|b| - 1].name
  {
    var x, y := a[|a| - 1], b[|b| - 1];
    assert Keep(a, Named(x.name)) == Keep(b, Named(x.name));
    KeepMembers(a, x.name, x);
    KeepMembers(b, x.name, x);
    assert Keep(a, Named(y.name)) == Keep(b, Named(y.name));
    KeepMembers(b, y.name, y);
    KeepMembers(a, y.name, y);
    var i :| 0 <= i < |a| && a[i] == y;
    var j :| 0 <= j < |b| && b[j] == x;
    assert i < |a| - 1 ==> ByName()(a[i], a[|a| - 1]);
    assert j < |b| - 1 ==> ByName()(b[j], b[|b| - 1]);
    LeqTotal(x.name, x.name);
    LeqTotal(x.name, y.name);
  }

  /** A sorted list is determined by what it holds under each name. */
  lemma {:induction false} SortedDetermined(a: seq<FileEntry>, b: seq<FileEntry>)
    requires Sorted(a, ByName()) && Sorted(b, ByName()) && SameByName(a, b)
    ensures a == b
  {
    if a == [] || b == [] {
      var c := a + b;
      if c != [] {
        assert Keep(a, Named(c[0].name)) == Keep(b, Named(c[0].name));
        KeepMembers(a, c[0].name, c[0]);
        KeepMembers(b, c[0].name, c[0]);
      }
    } else {
      LastAgrees(a, b);
      var x, y := a[|a| - 1], b[|b| - 1];
      var a', b' := a[..|a| - 1], b[..|b| - 1];
      Snoc(a', x, b', y);
      assert a == a' + [x] && b == b' + [y];
      SortedDetermined(a', b');
    }
  }

  lemma Snoc(a: seq<FileEntry>, x: FileEntry, b: seq<FileEntry>, y: FileEntry)
    requires SameByName(a + [x], b + [y]) && x.name == y.name
    ensures x == y && SameByName(a, b)
  {
    forall n: Bytes
      ensures Keep(a, Named(n)) == Keep(b, Named(n)) && (n == x.name ==> x == y)
    {
      KeepAppend(a, [x], Named(n));
      KeepAppend(b, [y], Named(n));
      assert Keep(a + [x], Named(n)) == Keep(b + [y], Named(n));
      assert Keep([x], Named(n)) == if x.name == n then [x] else [];
      assert Keep([y], Named(n)) == if y.name == n then [y] else [];
      if n == x.name {
        var ka, kb := Keep(a, Named(n)), Keep(b, Named(n));
        assert ka + [x] == kb + [y];
        assert |ka| == |kb| && (ka + [x])[|ka|] == (kb + [y])[|kb|];
        assert ka == (ka + [x])[..|ka|] == (kb + [y])[..|kb|] == kb;
      } else {
        calc {
          Keep(a, Named(n));
          Keep(a, Named(n)) + [];
          Keep(b, Named(n)) + [];
          Keep(b, Named(n));
        }
      }
    }
    assert x == y by { var n := x.name; assert Keep(a, Named(n)) == Keep(b, Named(n)); }
  }

  /** Exactly what the route digest's input identifies: the files under each name, in
      the order they were listed, and nothing about how different names interleave. */
  lemma RoutePreimageIdentifies(a: seq<FileEntry>, b: seq<FileEntry>)
    requires AllFit(a) && AllFit(b)
    ensures RoutePreimage(a) == RoutePreimage(b) <==> SameByName(a, b)
  {
    var sa, sb := SortBy(a, ByName()), SortBy(b, ByName());
    SortPermutes(a, ByName());
    SortPermutes(b, ByName());
    forall f | f in sa ensures f in a { assert f in multiset(sa); }
    forall f | f in sb ensures f in b { assert f in multiset(sb); }
    forall n: Bytes ensures Keep(sa, Named(n)) == Keep(a, Named(n)) && Keep(sb, Named(n)) == Keep(b, Named(n)) {
      SortKeepsNames(a, n);
      SortKeepsNames(b, n);
    }
    if RoutePreimage(a) == RoutePreimage(b) {
      PreimageIsInjective(sa, sb);
    }
    if SameByName(a, b) {
      ByNameIsPreorder();
      SortSorts(a, ByName());
      SortSorts(b, ByName());
      SortedDetermined(sa, sb);
    }
  }

  lemma {:induction false} DistinctKeep(s: seq<FileEntry>, n: Bytes)
    requires DistinctNames(s)
    ensures |Keep(s, Named(n))| <= 1
  {
    if s != [] {
      var rest, last := s[..|s| - 1], s[|s| - 1];
      DistinctKeep(rest, n);
      if last.name == n && Keep(rest, Named(n)) != [] {
        KeepMembers(rest, n, Keep(rest, Named(n))[0]);
      }
    }
  }

  /** With distinct names the order of the request does not matter, and only the set does. */
  lemma RoutePreimageIsSetLike(a: seq<FileEntry>, b: seq<FileEntry>)
    requires AllFit(a) && AllFit(b) && DistinctNames(a) && DistinctNames(b)
    ensures RoutePreimage(a) == RoutePreimage(b) <==> (forall f :: f in a <==> f in b)
  {
    RoutePreimageIdentifies(a, b);
    if SameByName(a, b) {
      forall f ensures f in a <==> f in b {
        KeepMembers(a, f.name, f);
        KeepMembers(b, f.name, f);
        assert Keep(a, Named(f.name)) == Keep(b, Named(f.name));
      }
    }
    if forall f :: f in a <==> f in b {
      forall n: Bytes ensures Keep(a, Named(n)) == Keep(b, Named(n)) {
        SameElementUnder(a, b, n);
      }
    }
  }

  lemma SameElementUnder(a: seq<FileEntry>, b: seq<FileEntry>, n: Bytes)
    requires DistinctNames(a) && DistinctNames(b) && forall f :: f in a <==> f in b
    ensures Keep(a, Named(n)) == Keep(b, Named(n))
  {
    DistinctKeep(a, n);
    DistinctKeep(b, n);
    var ka, kb := Keep(a, Named(n)), Keep(b, Named(n));
    if ka != [] { KeepMembers(a, n, ka[0]); KeepMembers(b, n, ka[0]); }
    if kb != [] { KeepMembers(b, n, kb[0]); KeepMembers(a, n, kb[0]); }
  }

  /** Without distinct names order does matter: the sort is stable. */
  lemma RepeatedNameKeepsOrder(x: FileEntry, y: FileEntry)
    requires Fits(x) && Fits(y) && x.name == y.name && x != y
    ensures RoutePreimage([x, y]) != RoutePreimage([y, x])
  {
    RoutePreimageIdentifies([x, y], [y, x]);
    assert Keep([x, y], Named(x.name)) == [x, y] by {
      assert [x, y][..1] == [x];
      assert Keep([x], Named(x.name)) == [x];
    }
    assert Keep([y, x], Named(x.name)) == [y, x] by {
      assert [y, x][..1] == [y];
      assert Keep([y], Named(x.name)) == [y];
    }
  }

  // -------------------------------------------------------------------------- the loops

  lemma {:induction false} EntriesAppend(files: seq<FileEntry>, f: FileEntry)
    ensures Entries(files + [f]) == Entries(files) + Entry(f)
  {
    if files == [] {
      assert [f][1..] == [];
    } else {
      EntriesAppend(files[1..], f);
      assert (files + [f])[1..] == files[1..] + [f];
    }
  }

  function Fields(fs: seq<Bytes>): Bytes {
    if fs == [] then [] else Fields(fs[..|fs| - 1]) + Field(fs[|fs| - 1])
  }

  /** One iteration of the outer loop: three length-prefixed fields, then the size. */
  method FeedEntry(file: FileEntry, before: Bytes) returns (fed: Bytes)
    ensures fed == before + Entry(file)
  {
    fed := before;
    var fields := [file.name, file.suite, file.root];
    for k := 0 to 3
      invariant fed == before + Fields(fields[..k])
    {
      fed := fed + U64(|fields[k]|);
      fed := fed + fields[k];
      assert fields[..k + 1][..k] == fields[..k];
    }
    ThreeFields(file.name, file.suite, file.root);
    assert fields[..3] == fields;
    fed := fed + U64(file.bytes);
  }

  lemma ThreeFields(a: Bytes, b: Bytes, c: Bytes)
    ensures Fields([a, b, c]) == Field(a) + Field(b) + Field(c)
  {
    assert [a, b, c][..2] == [a, b] && [a, b][..1] == [a];
    assert Fields([a]) == Field(a);
  }

  lemma OneMoreEntry(files: seq<FileEntry>, i: nat)
    requires i < |files|
    ensures DOMAIN + Entries(files[..i]) + Entry(files[i]) == DOMAIN + Entries(files[..i + 1])
  {
    EntriesAppend(files[..i], files[i]);
    assert files[..i + 1] == files[..i] + [files[i]];
  }

  /** `delivery::manifest_digest` up to the hash: what its update calls feed, in order. */
  method FeedManifest(files: seq<FileEntry>) returns (fed: Bytes)
    requires AllFit(files)
    ensures fed == Preimage(files)
    ensures Decode(fed) == Some(files)
  {
    fed := DOMAIN;
    var count := 0;
    for i := 0 to |files|
      invariant count == i
      invariant fed == DOMAIN + Entries(files[..i])
    {
      OneMoreEntry(files, i);
      fed := FeedEntry(files[i], fed);
      count := count + 1;
    }
    assert files[..|files|] == files;
    fed := fed + U64(count);
    DecodeRoundTrip(files);
  }

  /** `routes::manifest_digest` up to the hash. */
  method FeedRouteManifest(files: seq<FileEntry>) returns (fed: Bytes)
    requires AllFit(files)
    ensures fed == RoutePreimage(files)
    ensures Decode(fed).Some? && multiset(Decode(fed).value) == multiset(files)
    ensures Sorted(Decode(fed).value, ByName())
  {
    var sorted := SortBy(files, ByName());
    SortPermutes(files, ByName());
    ByNameIsPreorder();
    SortSorts(files, ByName());
    forall f | f in sorted ensures f in files { assert f in multiset(sorted); }
    fed := FeedManifest(sorted);
  }
}
