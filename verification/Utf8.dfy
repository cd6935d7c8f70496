/** UTF-8: the bytes of a string and where its characters begin. */
module Utf8 {
  import opened ByteOrder

  function Width(c: char): (w: nat)
    ensures 1 <= w <= 4
  {
    var n := c as int;
    if n < 0x80 then 1 else if n < 0x800 then 2 else if n < 0x1_0000 then 3 else 4
  }

  predicate Continuation(b: byte) { 0x80 <= b < 0xC0 }

  function EncodeChar(c: char): (b: seq<byte>)
    ensures |b| == Width(c) && !Continuation(b[0])
    ensures forall i :: 1 <= i < |b| ==> Continuation(b[i])
  {
    var n := c as int;
    if n < 0x80 then [n]
    else if n < 0x800 then [0xC0 + n / 0x40, 0x80 + n % 0x40]
    else if n < 0x1_0000 then [0xE0 + n / 0x1000, 0x80 + n / 0x40 % 0x40, 0x80 + n % 0x40]
    else [0xF0 + n / 0x4_0000, 0x80 + n / 0x1000 % 0x40, 0x80 + n / 0x40 % 0x40, 0x80 + n % 0x40]
  }

  function Encode(s: string): seq<byte> {
    if s == [] then [] else EncodeChar(s[0]) + Encode(s[1..])
  }

  /** `str::is_char_boundary` */
  predicate IsCharBoundary(b: seq<byte>, i: nat) {
    i == 0 || i == |b| || (i < |b| && !Continuation(b[i]))
  }

  lemma {:induction false} EncodeAppend(s: string, t: string)
    ensures Encode(s + t) == Encode(s) + Encode(t)
  {
    if s == [] {
      assert s + t == t;
    } else {
      EncodeAppend(s[1..], t);
      assert (s + t)[1..] == s[1..] + t;
    }
  }

  lemma EncodePrefix(s: string, k: nat)
    requires k <= |s|
    ensures |Encode(s[..k])| <= |Encode(s)| && Encode(s)[..|Encode(s[..k])|] == Encode(s[..k])
  {
    EncodeAppend(s[..k], s[k..]);
    assert s == s[..k] + s[k..];
  }

  lemma EncodePrefixesGrow(s: string, j: nat, k: nat)
    requires j < k <= |s|
    ensures |Encode(s[..j])| < |Encode(s[..k])|
  {
    EncodeAppend(s[..j], s[j..k]);
    assert s[..k] == s[..j] + s[j..k];
  }

  lemma EncodeWiden(s: string, k: nat)
    requires k < |s|
    ensures |Encode(s[..k + 1])| == |Encode(s[..k])| + Width(s[k])
  {
    EncodeAppend(s[..k], [s[k]]);
    assert s[..k + 1] == s[..k] + [s[k]];
    assert [s[k]][1..] == [];
  }

  /** The boundaries of an encoded string are exactly the ends of its prefixes. */
  lemma {:induction false} BoundaryIsPrefixEnd(s: string, i: nat) returns (k: nat)
    requires i <= |Encode(s)| && IsCharBoundary(Encode(s), i)
    ensures k <= |s| && i == |Encode(s[..k])| && Encode(s)[..i] == Encode(s[..k])
  {
    if i == 0 {
      k := 0;
    } else {
      assert forall m :: 1 <= m < Width(s[0]) ==> Encode(s)[m] == EncodeChar(s[0])[m];
      var rest, j := Encode(s[1..]), i - Width(s[0]);
      assert j < |rest| ==> Encode(s)[i] == rest[j];
      var m := BoundaryIsPrefixEnd(s[1..], j);
      k := m + 1;
      assert s[..k][1..] == s[1..][..m];
      EncodePrefix(s, k);
    }
  }

  lemma {:induction false} PrefixEndIsBoundary(s: string, k: nat)
    requires k <= |s|
    ensures IsCharBoundary(Encode(s), |Encode(s[..k])|)
  {
    EncodeAppend(s[..k], s[k..]);
    assert s == s[..k] + s[k..];
    if k < |s| {
      assert Encode(s)[|Encode(s[..k])|] == Encode(s[k..])[0] == EncodeChar(s[k])[0];
    }
  }

  function WidthFromLead(b: byte): nat {
    if b < 0x80 then 1 else if b < 0xE0 then 2 else if b < 0xF0 then 3 else 4
  }

  function Scalar(b: seq<int>): int
    requires 1 <= |b| <= 4
  {
    if |b| == 1 then b[0]
    else if |b| == 2 then (b[0] - 0xC0) * 0x40 + b[1] - 0x80
    else if |b| == 3 then (b[0] - 0xE0) * 0x1000 + (b[1] - 0x80) * 0x40 + b[2] - 0x80
    else (b[0] - 0xF0) * 0x4_0000 + (b[1] - 0x80) * 0x1000 + (b[2] - 0x80) * 0x40 + b[3] - 0x80
  }

  lemma CharRoundTrip(c: char)
    ensures WidthFromLead(EncodeChar(c)[0]) == Width(c)
    ensures Scalar(EncodeChar(c)) == c as int
  {
    SixBits(c as int);
  }

  lemma SixBits(n: nat)
    ensures n == n / 0x40 * 0x40 + n % 0x40
    ensures n / 0x40 == n / 0x1000 * 0x40 + n / 0x40 % 0x40
    ensures n / 0x1000 == n / 0x4_0000 * 0x40 + n / 0x1000 % 0x40
  {
    assert n / 0x1000 == n / 0x40 / 0x40;
    assert n / 0x4_0000 == n / 0x1000 / 0x40;
  }

  lemma {:induction false} EncodeInjective(s: string, t: string)
    requires Encode(s) == Encode(t)
    ensures s == t
  {
    if s != [] && t != [] {
      var b, x, y := Encode(s), EncodeChar(s[0]), EncodeChar(t[0]);
      CharRoundTrip(s[0]);
      CharRoundTrip(t[0]);
      assert x[0] == b[0] == y[0];
      assert x == b[..|x|] && y == b[..|y|];
      assert Encode(s[1..]) == b[|x|..] && Encode(t[1..]) == b[|y|..];
      EncodeInjective(s[1..], t[1..]);
      assert s[0] as int == t[0] as int;
      assert s == [s[0]] + s[1..] && t == [t[0]] + t[1..];
    }
  }
}
