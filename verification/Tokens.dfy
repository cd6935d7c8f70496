/** Signed expiring tokens and the download leases built from them. Text is bytes; the MAC
    is any function of context, expiry and nonce whose output has no dot. */
module Tokens {
  import opened Decimal
  import opened Wrappers

  type Bytes = seq<bv8>
  type Mac = (seq<Bytes>, nat, Bytes) -> Bytes
  const DOT: bv8 := 0x2E
  const PLUS: bv8 := 0x2B
  // "votport-download-lease"
  const LEASE_DOMAIN: Bytes := [0x76, 0x6F, 0x74, 0x70, 0x6F, 0x72, 0x74, 0x2D, 0x64, 0x6F, 0x77,
                                0x6E, 0x6C, 0x6F, 0x61, 0x64, 0x2D, 0x6C, 0x65, 0x61, 0x73, 0x65]

  ghost predicate DotFree(mac: Mac) {
    forall context, expires, nonce :: DOT !in mac(context, expires, nonce)
  }

  // -------------------------------------------------------------------- numbers as bytes

  function Glyph(d: digit): bv8 {
    match d
    case 0 => 0x30 case 1 => 0x31 case 2 => 0x32 case 3 => 0x33 case 4 => 0x34
    case 5 => 0x35 case 6 => 0x36 case 7 => 0x37 case 8 => 0x38 case _ => 0x39
  }

  function ReadGlyph(b: bv8): Option<digit> {
    match b
    case 0x30 => Some(0) case 0x31 => Some(1) case 0x32 => Some(2) case 0x33 => Some(3)
    case 0x34 => Some(4) case 0x35 => Some(5) case 0x36 => Some(6) case 0x37 => Some(7)
    case 0x38 => Some(8) case 0x39 => Some(9) case _ => None
  }

  function PrintDigits(ds: seq<digit>): (s: Bytes)
    ensures |s| == |ds|
    ensures forall i :: 0 <= i < |s| ==> s[i] == Glyph(ds[i])
  {
    Spell(ds, Glyph)
  }

  /** `to_string` */
  function Print(n: nat): Bytes { PrintDigits(Digits(n)) }

  function ReadDigits(s: Bytes): (r: Option<seq<digit>>)
    ensures r.Some? ==> PrintDigits(r.value) == s
  {
    if s == [] then Some([])
    else
      var front, last := ReadDigits(s[..|s| - 1]), ReadGlyph(s[|s| - 1]);
      if front.None? || last.None? then None else Some(front.value + [last.value])
  }

  /** `str::parse::<u64>`: an optional plus sign, then digits, leading zeros allowed. */
  function ParseU64(s: Bytes): Option<nat> {
    var body := if s != [] && s[0] == PLUS then s[1..] else s;
    var ds := ReadDigits(body);
    if body == [] || ds.None? || Value(ds.value) >= U64_LIMIT then None else Some(Value(ds.value))
  }

  lemma GlyphRoundTrip(d: digit)
    ensures ReadGlyph(Glyph(d)) == Some(d) && Glyph(d) != DOT && Glyph(d) != PLUS
  {
  }

  lemma {:induction false} ReadPrinted(ds: seq<digit>)
    ensures ReadDigits(PrintDigits(ds)) == Some(ds)
  {
    var s := PrintDigits(ds);
    if ds != [] {
      ReadPrinted(ds[..|ds| - 1]);
      GlyphRoundTrip(ds[|ds| - 1]);
      assert s[..|s| - 1] == PrintDigits(ds[..|ds| - 1]);
      assert ds == ds[..|ds| - 1] + [ds[|ds| - 1]];
    }
  }

  lemma PrintIsPlain(n: nat)
    ensures |Print(n)| > 0 && DOT !in Print(n) && PLUS !in Print(n)
  {
    forall i | 0 <= i < |Print(n)| ensures Print(n)[i] != DOT && Print(n)[i] != PLUS {
      GlyphRoundTrip(Digits(n)[i]);
    }
  }

  lemma ParsePrinted(n: nat)
    requires n < U64_LIMIT
    ensures ParseU64(Print(n)) == Some(n)
  {
    PrintIsPlain(n);
    ReadPrinted(Digits(n));
    ValueOfDigits(n);
  }

  // ------------------------------------------------------------------- the dotted fields

  function Join(a: Bytes, b: Bytes): Bytes { a + [DOT] + b }

  /** What precedes and what follows the first dot. */
  function SplitDot(s: Bytes): Option<(Bytes, Bytes)> {
    if s == [] then None
    else if s[0] == DOT then Some(([], s[1..]))
    else
      var rest := SplitDot(s[1..]);
      if rest.None? then None else Some(([s[0]] + rest.value.0, rest.value.1))
  }

  lemma {:induction false} SplitJoined(a: Bytes, b: Bytes)
    requires DOT !in a
    ensures SplitDot(Join(a, b)) == Some((a, b)) && SplitDot(a) == None
  {
    var s := Join(a, b);
    if a == [] {
      assert s[1..] == b;
    } else {
      assert s[1..] == Join(a[1..], b);
      SplitJoined(a[1..], b);
      assert a == [a[0]] + a[1..];
    }
  }

  lemma {:induction false} JoinSplit(s: Bytes)
    ensures match SplitDot(s)
      case Some((a, b)) => DOT !in a && s == Join(a, b)
      case None => DOT !in s
  {
    if s != [] && s[0] != DOT {
      JoinSplit(s[1..]);
      assert s == [s[0]] + s[1..];
    }
  }

  function Token(expires: nat, nonce: Bytes, mac: Bytes): Bytes {
    Join(Print(expires), Join(nonce, mac))
  }

  function IssueToken(mac: Mac, context: seq<Bytes>, lifetime: nat, now: nat, nonce: Bytes): Bytes {
    Token(now + lifetime, nonce, mac(context, now + lifetime, nonce))
  }

  // -------------------------------------------------------------------- constant-time equality

  function XorFold(a: Bytes, b: Bytes): bv8
    requires |a| == |b|
  {
    if a == [] then 0 else XorFold(a[..|a| - 1], b[..|b| - 1]) | (a[|a| - 1] ^ b[|b| - 1])
  }

  /** `constant_time_eq` */
  predicate ConstantTimeEq(a: Bytes, b: Bytes) {
    |a| == |b| && XorFold(a, b) == 0
  }

  lemma {:induction false} ConstantTimeEqIsEquality(a: Bytes, b: Bytes)
    ensures ConstantTimeEq(a, b) <==> a == b
  {
    if |a| == |b| != 0 {
      var a', b' := a[..|a| - 1], b[..|b| - 1];
      ConstantTimeEqIsEquality(a', b');
      OrXorIsZero(XorFold(a', b'), a[|a| - 1], b[|b| - 1]);
      assert a == a' + [a[|a| - 1]] && b == b' + [b[|b| - 1]];
    }
  }

  lemma OrXorIsZero(acc: bv8, x: bv8, y: bv8)
    ensures acc | (x ^ y) == 0 <==> acc == 0 && x == y
  {
  }

  // ------------------------------------------------------------------------------ checking

  /** `verify_token`: three dotted fields, the number in its one spelling, in date, MAC equal. */
  function VerifyToken(mac: Mac, context: seq<Bytes>, token: Bytes, now: nat): bool {
    var first := SplitDot(token);
    if first.None? then false else
    var second := SplitDot(first.value.1);
    if second.None? then false else
    var number, nonce, tag := first.value.0, second.value.0, second.value.1;
    var expires := ParseU64(number);
    if expires.None? || Print(expires.value) != number || now >= expires.value then false
    else ConstantTimeEq(mac(context, expires.value, nonce), tag)
  }

  /** Something `IssueToken` could have printed that is still in date. */
  ghost predicate Genuine(mac: Mac, context: seq<Bytes>, token: Bytes, now: nat, expires: nat, nonce: Bytes) {
    && now < expires < U64_LIMIT && DOT !in nonce
    && token == Token(expires, nonce, mac(context, expires, nonce))
  }

  lemma GenuineVerifies(mac: Mac, context: seq<Bytes>, token: Bytes, now: nat, expires: nat, nonce: Bytes)
    requires Genuine(mac, context, token, now, expires, nonce)
    ensures VerifyToken(mac, context, token, now)
  {
    var tag := mac(context, expires, nonce);
    PrintIsPlain(expires);
    SplitJoined(Print(expires), Join(nonce, tag));
    SplitJoined(nonce, tag);
    ParsePrinted(expires);
    ConstantTimeEqIsEquality(tag, tag);
  }

  lemma VerifiedIsGenuine(mac: Mac, context: seq<Bytes>, token: Bytes, now: nat) returns (expires: nat, nonce: Bytes)
    requires VerifyToken(mac, context, token, now)
    ensures Genuine(mac, context, token, now, expires, nonce)
  {
    JoinSplit(token);
    var (number, rest) := SplitDot(token).value;
    JoinSplit(rest);
    var tag;
    expires := ParseU64(number).value;
    nonce, tag := SplitDot(rest).value.0, SplitDot(rest).value.1;
    ConstantTimeEqIsEquality(mac(context, expires, nonce), tag);
  }

  // ------------------------------------------------------------------------ download leases

  function LeaseContext(grant: Bytes, tokenHash: Bytes, index: nat, holder: Bytes): seq<Bytes> {
    [LEASE_DOMAIN, grant, tokenHash, Print(index), holder]
  }

  /** A lease without a holder is the bare token. */
  function Spelling(token: Bytes, holder: Bytes): Bytes {
    if holder == [] then token else Join(token, holder)
  }

  function LeaseText(mac: Mac, grant: Bytes, tokenHash: Bytes, index: nat, holder: Bytes, expires: nat,
                     nonce: Bytes): Bytes
  {
    Spelling(Token(expires, nonce, mac(LeaseContext(grant, tokenHash, index, holder), expires, nonce)), holder)
  }

  function IssueDownloadLease(mac: Mac, grant: Bytes, tokenHash: Bytes, index: nat, holder: Bytes,
                              lifetime: nat, now: nat, nonce: Bytes): Bytes
  {
    Spelling(IssueToken(mac, LeaseContext(grant, tokenHash, index, holder), lifetime, now, nonce), holder)
  }

  /** What precedes and what follows the third dot: `match_indices('.').nth(2)`. */
  function SplitThird(s: Bytes): Option<(Bytes, Bytes)> {
    var first := SplitDot(s);
    if first.None? then None else
    var second := SplitDot(first.value.1);
    if second.None? then None else
    var third := SplitDot(second.value.1);
    if third.None? then None else
    Some((Join(first.value.0, Join(second.value.0, third.value.0)), third.value.1))
  }

  function VerifyDownloadLease(mac: Mac, grant: Bytes, tokenHash: Bytes, index: nat, lease: Bytes,
                               now: nat): Option<Bytes>
  {
    var split := SplitThird(lease);
    if split.Some? && split.value.1 == [] then None
    else
      var (token, holder) := if split.Some? then split.value else (lease, []);
      if VerifyToken(mac, LeaseContext(grant, tokenHash, index, holder), token, now) then Some(holder) else None
  }

  lemma SplitThirdOfToken(expires: nat, nonce: Bytes, tag: Bytes, holder: Bytes)
    requires DOT !in nonce && DOT !in tag
    ensures SplitThird(Token(expires, nonce, tag)) == None
    ensures SplitThird(Join(Token(expires, nonce, tag), holder)) == Some((Token(expires, nonce, tag), holder))
  {
    PrintIsPlain(expires);
    SplitJoined(Print(expires), Join(nonce, tag));
    SplitJoined(nonce, tag);
    SplitJoined(tag, holder);
    SplitJoined(nonce, Join(tag, holder));
    SplitJoined(Print(expires), Join(nonce, Join(tag, holder)));
    JoinAssociates(nonce, tag, holder);
    JoinAssociates(Print(expires), Join(nonce, tag), holder);
  }

  lemma JoinAssociates(a: Bytes, b: Bytes, c: Bytes)
    ensures Join(Join(a, b), c) == Join(a, Join(b, c))
  {
  }

  lemma JoinSplitThird(s: Bytes)
    requires SplitThird(s).Some?
    ensures s == Join(SplitThird(s).value.0, SplitThird(s).value.1)
  {
    JoinSplit(s);
    var (a, r1) := SplitDot(s).value;
    JoinSplit(r1);
    var (b, r2) := SplitDot(r1).value;
    JoinSplit(r2);
    var (c, r3) := SplitDot(r2).value;
    JoinAssociates(b, c, r3);
    JoinAssociates(a, Join(b, c), r3);
  }

  /** What the issuer prints for some expiry still ahead, some dot-free nonce and `holder`. */
  ghost predicate IsLeaseOf(mac: Mac, grant: Bytes, tokenHash: Bytes, index: nat, lease: Bytes, now: nat,
                            holder: Bytes)
  {
    exists expires, nonce ::
      && now < expires < U64_LIMIT && DOT !in nonce
      && lease == LeaseText(mac, grant, tokenHash, index, holder, expires, nonce)
  }

  lemma LeaseVerifies(mac: Mac, grant: Bytes, tokenHash: Bytes, index: nat, now: nat, holder: Bytes,
                      expires: nat, nonce: Bytes)
    requires DotFree(mac) && now < expires < U64_LIMIT && DOT !in nonce
    ensures VerifyDownloadLease(mac, grant, tokenHash, index,
              LeaseText(mac, grant, tokenHash, index, holder, expires, nonce), now) == Some(holder)
  {
    var context := LeaseContext(grant, tokenHash, index, holder);
    var tag := mac(context, expires, nonce);
    SplitThirdOfToken(expires, nonce, tag, holder);
    GenuineVerifies(mac, context, Token(expires, nonce, tag), now, expires, nonce);
  }

  lemma VerifiedLeaseIsPrinted(mac: Mac, grant: Bytes, tokenHash: Bytes, index: nat, lease: Bytes, now: nat,
                               holder: Bytes)
    requires VerifyDownloadLease(mac, grant, tokenHash, index, lease, now) == Some(holder)
    ensures IsLeaseOf(mac, grant, tokenHash, index, lease, now, holder)
  {
    var split := SplitThird(lease);
    if split.Some? {
      JoinSplitThird(lease);
    }
    var token := if split.Some? then split.value.0 else lease;
    assert lease == Spelling(token, holder);
    var expires, nonce := VerifiedIsGenuine(mac, LeaseContext(grant, tokenHash, index, holder), token, now);
    assert lease == LeaseText(mac, grant, tokenHash, index, holder, expires, nonce);
  }

  /** A string verifies for a holder exactly when it is a lease printed for that holder. */
  lemma OneSpelling(mac: Mac, grant: Bytes, tokenHash: Bytes, index: nat, lease: Bytes, now: nat, holder: Bytes)
    requires DotFree(mac)
    ensures VerifyDownloadLease(mac, grant, tokenHash, index, lease, now) == Some(holder)
      <==> IsLeaseOf(mac, grant, tokenHash, index, lease, now, holder)
  {
    if VerifyDownloadLease(mac, grant, tokenHash, index, lease, now) == Some(holder) {
      VerifiedLeaseIsPrinted(mac, grant, tokenHash, index, lease, now, holder);
    }
    if IsLeaseOf(mac, grant, tokenHash, index, lease, now, holder) {
      var expires, nonce :| now < expires < U64_LIMIT && DOT !in nonce
        && lease == LeaseText(mac, grant, tokenHash, index, holder, expires, nonce);
      LeaseVerifies(mac, grant, tokenHash, index, now, holder, expires, nonce);
    }
  }

  /** A token is refused from its expiry on. */
  lemma ExpiredTokenFails(mac: Mac, context: seq<Bytes>, expires: nat, nonce: Bytes, later: nat)
    requires expires < U64_LIMIT && later >= expires
    ensures !VerifyToken(mac, context, Token(expires, nonce, mac(context, expires, nonce)), later)
  {
    var token := Token(expires, nonce, mac(context, expires, nonce));
    if VerifyToken(mac, context, token, later) {
      var e, n := VerifiedIsGenuine(mac, context, token, later);
      PrintIsPlain(expires);
      PrintIsPlain(e);
      SplitJoined(Print(expires), Join(nonce, mac(context, expires, nonce)));
      SplitJoined(Print(e), Join(n, mac(context, e, n)));
      ParsePrinted(expires);
      ParsePrinted(e);
    }
  }

  lemma IssuedLeaseIsSpelled(mac: Mac, grant: Bytes, tokenHash: Bytes, index: nat, holder: Bytes,
                             lifetime: nat, now: nat, nonce: Bytes, expires: nat)
    requires expires == now + lifetime
    ensures IssueDownloadLease(mac, grant, tokenHash, index, holder, lifetime, now, nonce)
      == LeaseText(mac, grant, tokenHash, index, holder, expires, nonce)
  {
  }

  /** A fresh lease names its holder until, and not from, its expiry. */
  lemma IssueThenVerify(mac: Mac, grant: Bytes, tokenHash: Bytes, index: nat, holder: Bytes,
                        lifetime: nat, now: nat, nonce: Bytes, lease: Bytes, later: nat)
    requires DotFree(mac) && DOT !in nonce && now + lifetime < U64_LIMIT
    requires lease == IssueDownloadLease(mac, grant, tokenHash, index, holder, lifetime, now, nonce)
    ensures later < now + lifetime ==> VerifyDownloadLease(mac, grant, tokenHash, index, lease, later) == Some(holder)
    ensures later >= now + lifetime ==> VerifyDownloadLease(mac, grant, tokenHash, index, lease, later) == None
  {
    var expires := now + lifetime;
    IssuedLeaseIsSpelled(mac, grant, tokenHash, index, holder, lifetime, now, nonce, expires);
    if later < expires {
      LeaseVerifies(mac, grant, tokenHash, index, later, holder, expires, nonce);
    } else {
      ExpiredLeaseFails(mac, grant, tokenHash, index, holder, expires, nonce, later);
    }
  }

  lemma ExpiredLeaseFails(mac: Mac, grant: Bytes, tokenHash: Bytes, index: nat, holder: Bytes,
                          expires: nat, nonce: Bytes, later: nat)
    requires DotFree(mac) && DOT !in nonce && expires < U64_LIMIT && later >= expires
    ensures VerifyDownloadLease(mac, grant, tokenHash, index,
              LeaseText(mac, grant, tokenHash, index, holder, expires, nonce), later) == None
  {
    var context := LeaseContext(grant, tokenHash, index, holder);
    SplitThirdOfToken(expires, nonce, mac(context, expires, nonce), holder);
    ExpiredTokenFails(mac, context, expires, nonce, later);
  }
}
