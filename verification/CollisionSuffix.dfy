/** `with_suffix`: numbered alternatives to a taken name, cut to the on-disk name budget. */
module CollisionSuffix {
  import opened ByteOrder
  import opened Decimal
  import opened Utf8
  import opened Wrappers

  // 255 bytes less ".vot-" and ".journal"
  const MAX_PAYLOAD_NAME_BYTES: nat := 242

  // ------------------------------------------------------------------ stem and extension

  /** One past the last dot, or 0: `rsplit_once('.')`. */
  function AfterLastDot(name: string): (i: nat)
    ensures i <= |name|
    ensures i > 0 ==> name[i - 1] == '.'
    ensures forall k :: i <= k < |name| ==> name[k] != '.'
  {
    if name == [] then 0
    else if name[|name| - 1] == '.' then |name|
    else AfterLastDot(name[..|name| - 1])
  }

  /** A name that begins with its only dot has no extension. */
  function Stem(name: string): string {
    var i := AfterLastDot(name);
    if i > 1 then name[..i - 1] else name
  }

  function Extension(name: string): Option<string> {
    var i := AfterLastDot(name);
    if i > 1 then Some(name[i..]) else None
  }

  function Tail(name: string): string {
    if Extension(name).Some? then "." + Extension(name).value else ""
  }

  function Suffix(name: string, attempt: nat): string {
    "-" + Text(attempt) + Tail(name)
  }

  lemma NameIsStemAndTail(name: string)
    ensures name == Stem(name) + Tail(name)
  {
  }

  // --------------------------------------------------------------------------- the result

  /** How many whole characters of `s` fit in `budget` bytes. */
  function Fit(s: string, budget: nat): (k: nat)
    ensures k <= |s|
  {
    if s == [] || Width(s[0]) > budget then 0 else 1 + Fit(s[1..], budget - Width(s[0]))
  }

  function StemBudget(name: string, attempt: nat): nat {
    var n := |Encode(Suffix(name, attempt))|;
    if n <= MAX_PAYLOAD_NAME_BYTES then MAX_PAYLOAD_NAME_BYTES - n else 0
  }

  function KeptStem(name: string, attempt: nat): string {
    Stem(name)[..Fit(Stem(name), StemBudget(name, attempt))]
  }

  function Suffixed(name: string, attempt: nat): string {
    if attempt == 0 then name else KeptStem(name, attempt) + Suffix(name, attempt)
  }

  /** `Fit` is the longest prefix within the budget. */
  lemma {:induction false} FitIsLongest(s: string, budget: nat, k: nat)
    requires k <= |s|
    ensures |Encode(s[..k])| <= budget <==> k <= Fit(s, budget)
  {
    if k == 0 {
      assert s[..0] == [];
    } else {
      assert s[..k][0] == s[0] && s[..k][1..] == s[1..][..k - 1];
      if Width(s[0]) <= budget {
        FitIsLongest(s[1..], budget - Width(s[0]), k - 1);
      }
    }
  }

  lemma FitIsWhole(s: string, budget: nat)
    requires |Encode(s)| <= budget
    ensures Fit(s, budget) == |s|
  {
    assert s[..|s|] == s;
    FitIsLongest(s, budget, |s|);
  }

  // --------------------------------------------------------------------------- properties

  /** The result fits whenever the suffix alone does, and keeps the extension. */
  lemma FitsTheBudget(name: string, attempt: nat)
    requires attempt >= 1
    ensures |Encode(Suffix(name, attempt))| <= MAX_PAYLOAD_NAME_BYTES ==>
      |Encode(Suffixed(name, attempt))| <= MAX_PAYLOAD_NAME_BYTES
    ensures |Encode(Suffix(name, attempt))| > MAX_PAYLOAD_NAME_BYTES ==>
      Suffixed(name, attempt) == Suffix(name, attempt)
  {
    var stem, budget := Stem(name), StemBudget(name, attempt);
    FitIsLongest(stem, budget, Fit(stem, budget));
    EncodeAppend(KeptStem(name, attempt), Suffix(name, attempt));
    if budget == 0 {
      assert Fit(stem, 0) == 0;
    }
  }

  /** A name that leaves room loses nothing. */
  lemma RoomLosesNothing(name: string, attempt: nat)
    requires attempt >= 1
    requires |Encode(Stem(name))| + |Encode(Suffix(name, attempt))| <= MAX_PAYLOAD_NAME_BYTES
    ensures Suffixed(name, attempt) == Stem(name) + Suffix(name, attempt)
  {
    FitIsWhole(Stem(name), StemBudget(name, attempt));
    assert Stem(name)[..|Stem(name)|] == Stem(name);
  }

  lemma {:induction false} AfterLastDotOf(a: string, b: string)
    requires forall k :: 0 <= k < |b| ==> b[k] != '.'
    ensures AfterLastDot(a + "." + b) == |a| + 1
  {
    var s := a + "." + b;
    if b == [] {
      assert s == a + ".";
    } else {
      assert s[|s| - 1] == b[|b| - 1];
      assert s[..|s| - 1] == a + "." + b[..|b| - 1];
      AfterLastDotOf(a, b[..|b| - 1]);
    }
  }

  lemma PartsOf(front: string, ext: string)
    requires |front| >= 1 && forall k :: 0 <= k < |ext| ==> ext[k] != '.'
    ensures Extension(front + "." + ext) == Some(ext) && Stem(front + "." + ext) == front
  {
    AfterLastDotOf(front, ext);
    var s := front + "." + ext;
    assert s[|front| + 1..] == ext && s[..|front|] == front;
  }

  lemma KeepsExtension(name: string, attempt: nat)
    requires attempt >= 1 && Extension(name).Some?
    ensures Extension(Suffixed(name, attempt)) == Extension(name)
    ensures Stem(Suffixed(name, attempt)) == KeptStem(name, attempt) + "-" + Text(attempt)
  {
    var ext := Extension(name).value;
    var front := KeptStem(name, attempt) + "-" + Text(attempt);
    PartsOf(front, ext);
    Regroup(KeptStem(name, attempt), "-" + Text(attempt), "." + ext);
    Regroup(KeptStem(name, attempt), "-", Text(attempt));
    Regroup(front, ".", ext);
  }

  lemma LastDashSplits(x: string, p: string, y: string, q: string)
    requires x + "-" + p == y + "-" + q
    requires forall k :: 0 <= k < |p| ==> p[k] != '-'
    requires forall k :: 0 <= k < |q| ==> q[k] != '-'
    ensures x == y && p == q
  {
    var s, m, n := x + "-" + p, |x|, |y|;
    assert s == y + "-" + q;
    assert s[m] == '-' && s[n] == '-';
    assert forall k :: m < k < |s| ==> s[k] == p[k - m - 1];
    assert forall k :: n < k < |s| ==> s[k] == q[k - n - 1];
    assert s[m + 1..] == p && s[n + 1..] == q;
    assert x == s[..m] && y == s[..n];
  }

  lemma CutTail(x: string, y: string, tail: string)
    requires x + tail == y + tail
    ensures x == y
  {
    assert x == (x + tail)[..|x|] && y == (y + tail)[..|y|];
  }

  lemma Regroup(x: string, mark: string, tail: string)
    ensures x + (mark + tail) == x + mark + tail
  {
  }

  /** Retrying with another number never proposes the same bytes again. */
  lemma AttemptsDiffer(name: string, a: nat, b: nat)
    requires a >= 1 && b >= 1 && Encode(Suffixed(name, a)) == Encode(Suffixed(name, b))
    ensures a == b
  {
    EncodeInjective(Suffixed(name, a), Suffixed(name, b));
    var x, y := KeptStem(name, a), KeptStem(name, b);
    Regroup(x, "-" + Text(a), Tail(name));
    Regroup(y, "-" + Text(b), Tail(name));
    CutTail(x + ("-" + Text(a)), y + ("-" + Text(b)), Tail(name));
    Regroup(x, "-", Text(a));
    Regroup(y, "-", Text(b));
    LastDashSplits(x, Text(a), y, Text(b));
    TextInjective(a, b);
  }

  /** When the numbered name is the name it was made from: the stem already ends in this
      number, and the cut removes exactly that ending. */
  predicate AlreadyNumbered(name: string, attempt: nat) {
    var mark := "-" + Text(attempt);
    && |mark| <= |Stem(name)| && Stem(name)[|Stem(name)| - |mark|..] == mark
    && (|Encode(name)| == MAX_PAYLOAD_NAME_BYTES
        || (|Encode(name)| > MAX_PAYLOAD_NAME_BYTES && Stem(name) == mark))
  }

  lemma FixedPoint(name: string, attempt: nat)
    requires attempt >= 1
    ensures Suffixed(name, attempt) == name <==> AlreadyNumbered(name, attempt)
  {
    var stem, mark, tail := Stem(name), "-" + Text(attempt), Tail(name);
    NameIsStemAndTail(name);
    Regroup(KeptStem(name, attempt), mark, tail);
    SplitAt(stem, Fit(stem, StemBudget(name, attempt)), mark, tail);
    if |mark| <= |stem| && stem[|stem| - |mark|..] == mark {
      CutAtTheMark(name, attempt, stem[..|stem| - |mark|]);
    }
  }

  /** Such a name: 240 letters, then the number. */
  lemma FullNumberedName()
    ensures var name := seq(240, _ => 'a') + "-1";
      AlreadyNumbered(name, 1) && Suffixed(name, 1) == name
  {
    var letters: string := seq(240, _ => 'a');
    assert forall k :: 0 <= k < 242 ==> (letters + "-1")[k] in {'a', '-', '1'};
    NoDot(letters + "-1");
    OneByteEach(letters + "-1");
    OneDigit();
    FixedPoint(letters + "-1", 1);
  }

  lemma OneDigit()
    ensures Text(1) == "1"
  {
    assert Digits(1) == [1];
  }

  lemma NoDot(name: string)
    requires forall k :: 0 <= k < |name| ==> name[k] != '.'
    ensures Stem(name) == name
  {
  }

  lemma {:induction false} OneByteEach(s: string)
    requires forall c :: c in s ==> Width(c) == 1
    ensures |Encode(s)| == |s|
  {
    if s != [] {
      assert Width(s[0]) == 1;
      OneByteEach(s[1..]);
    }
  }

  /** Whole characters fit up to the dash and no further exactly when the name is full. */
  lemma CutAtTheMark(name: string, attempt: nat, front: string)
    requires attempt >= 1 && Stem(name) == front + ("-" + Text(attempt))
    ensures Fit(Stem(name), StemBudget(name, attempt)) == |front| <==>
      |Encode(name)| == MAX_PAYLOAD_NAME_BYTES || (|Encode(name)| > MAX_PAYLOAD_NAME_BYTES && front == [])
  {
    var stem, suffix, budget := Stem(name), Suffix(name, attempt), StemBudget(name, attempt);
    NameIsStemAndTail(name);
    Regroup(front, "-" + Text(attempt), Tail(name));
    EncodeAppend(front, suffix);
    assert stem[..|front|] == front && stem[|front|] == '-';
    EncodeWiden(stem, |front|);
    FitIsLongest(stem, budget, |front|);
    FitIsLongest(stem, budget, |front| + 1);
    assert Fit(stem, budget) == |front| <==> |Encode(front)| == budget;
    assert Encode(front) == [] <==> front == [];
  }

  lemma SplitAt(stem: string, fit: nat, mark: string, tail: string)
    requires fit <= |stem|
    ensures stem[..fit] + mark + tail == stem + tail <==>
      |mark| <= |stem| && fit == |stem| - |mark| && stem[|stem| - |mark|..] == mark
  {
    if stem[..fit] + mark + tail == stem + tail {
      CutTail(stem[..fit] + mark, stem, tail);
    }
  }

  // ------------------------------------------------------------------------------ the code

  /** The loop, stepping back from the byte budget to a character boundary. */
  method CutPoint(stem: string, room: nat) returns (keep: nat)
    ensures keep == |Encode(stem[..Fit(stem, room)])|
    ensures keep <= |Encode(stem)| && Encode(stem)[..keep] == Encode(stem[..Fit(stem, room)])
  {
    var bytes := Encode(stem);
    keep := if |bytes| < room then |bytes| else room;
    ghost var fit := Fit(stem, room);
    FitIsLongest(stem, room, fit);
    EncodePrefix(stem, fit);
    PrefixEndIsBoundary(stem, fit);
    while !IsCharBoundary(bytes, keep)
      invariant |Encode(stem[..fit])| <= keep <= |bytes| && keep <= room
      decreases keep
    {
      keep := keep - 1;
    }
    ghost var k := BoundaryIsPrefixEnd(stem, keep);
    FitIsLongest(stem, room, k);
    if k < fit { EncodePrefixesGrow(stem, k, fit); }
  }

  /** `with_suffix`, with the result as bytes. */
  method WithSuffix(name: string, attempt: nat) returns (out: seq<byte>)
    ensures out == Encode(Suffixed(name, attempt))
    ensures attempt >= 1 && |Encode(Suffix(name, attempt))| <= MAX_PAYLOAD_NAME_BYTES ==>
      |out| <= MAX_PAYLOAD_NAME_BYTES
  {
    if attempt == 0 {
      return Encode(name);
    }
    var suffix := Encode(Suffix(name, attempt));
    var room := if |suffix| <= MAX_PAYLOAD_NAME_BYTES then MAX_PAYLOAD_NAME_BYTES - |suffix| else 0;
    var keep := CutPoint(Stem(name), room);
    out := Encode(Stem(name))[..keep] + suffix;
    EncodeAppend(KeptStem(name, attempt), Suffix(name, attempt));
    FitsTheBudget(name, attempt);
  }
}
