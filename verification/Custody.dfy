/** Signed routes and receipts: hash-linked custody chains between ports. Signatures and the
    receipt digest are any functions that meet `Sound`; the signed bytes are the documents
    themselves, one message kind per signing domain. */
module Custody {
  import opened Wrappers
  import Utf8

  datatype Permission = Permission(receiver: string, grant: string, forwarding: bool)

  datatype RouteDocument = RouteDocument(
    issuer: string,
    operationId: string,
    manifest: string,
    labelText: string,
    metadata: map<string, string>,
    parentReceipt: Option<string>,
    visited: seq<string>,
    permission: Option<Permission>)

  datatype SignedRoute = SignedRoute(document: RouteDocument, signature: string)

  datatype ReceiptDocument = ReceiptDocument(source: SignedRoute, receiver: string, uploadId: string, receivedAt: nat)

  datatype RouteReceipt = RouteReceipt(document: ReceiptDocument, signature: string)

  datatype Message = RouteMessage(route: RouteDocument) | ReceiptMessage(receipt: ReceiptDocument)

  type SecretKey = int

  datatype Crypto = Crypto(
    publicKey: SecretKey -> string,
    sign: (SecretKey, Message) -> string,
    check: (string, string, Message) -> bool,
    digest: RouteReceipt -> string)

  const MAX_VISITED: nat := 8

  // ------------------------------------------------------------------------ field spelling

  predicate LowerHex(s: string) {
    forall i :: 0 <= i < |s| ==> '0' <= s[i] <= '9' || 'a' <= s[i] <= 'f'
  }

  predicate IsDigest(s: string) { |s| == 64 && LowerHex(s) }

  predicate IsId(s: string) {
    1 <= |s| <= 100
    && forall i :: 0 <= i < |s| ==>
         '0' <= s[i] <= '9' || 'a' <= s[i] <= 'z' || 'A' <= s[i] <= 'Z' || s[i] == '-' || s[i] == '_'
  }

  predicate WhiteSpace(c: char) {
    var n := c as int;
    || 9 <= n <= 13 || n == 0x20 || n == 0x85 || n == 0xA0 || n == 0x1680 || 0x2000 <= n <= 0x200A
    || n == 0x2028 || n == 0x2029 || n == 0x202F || n == 0x205F || n == 0x3000
  }

  predicate IsLabel(s: string) {
    (exists i :: 0 <= i < |s| && !WhiteSpace(s[i])) && |Utf8.Encode(s)| <= 200
  }

  predicate IsMetadata(m: map<string, string>) {
    |m| <= 50 && forall k :: k in m ==> IsId(k) && |Utf8.Encode(m[k])| <= 4096
  }

  predicate Distinct(s: seq<string>) {
    forall i, j :: 0 <= i < j < |s| ==> s[i] != s[j]
  }

  // --------------------------------------------------------------------------- signatures

  /** What a signature scheme and a hash give: what is signed verifies, in the spelling the
      checks demand. */
  ghost predicate Sound(c: Crypto) {
    && (forall key, m :: c.check(c.publicKey(key), c.sign(key, m), m) && LowerHex(c.sign(key, m)))
    && (forall key :: IsDigest(c.publicKey(key)))
    && (forall r :: IsDigest(c.digest(r)))
  }

  /** An ideal: no digest of fixed length has it. */
  ghost predicate CollisionFree(c: Crypto) {
    forall r, s :: c.digest(r) == c.digest(s) ==> r == s
  }

  predicate CheckSignature(c: Crypto, key: string, signature: string, m: Message) {
    LowerHex(signature) && c.check(key, signature, m)
  }

  // --------------------------------------------------------------------- routes and receipts

  /** Everything `SignedRoute::verify` demands of the document itself. */
  predicate WellFormed(d: RouteDocument) {
    && IsDigest(d.issuer) && IsDigest(d.manifest) && IsId(d.operationId)
    && IsLabel(d.labelText) && IsMetadata(d.metadata)
    && (d.parentReceipt.Some? ==> IsDigest(d.parentReceipt.value))
    && d.visited != [] && |d.visited| <= MAX_VISITED
    && (forall i :: 0 <= i < |d.visited| ==> IsDigest(d.visited[i]))
    && Distinct(d.visited)
    && d.visited[|d.visited| - 1] == d.issuer
    && (d.permission.Some? ==> IsDigest(d.permission.value.receiver) && IsId(d.permission.value.grant))
  }

  predicate VerifyRoute(c: Crypto, r: SignedRoute) {
    WellFormed(r.document) && CheckSignature(c, r.document.issuer, r.signature, RouteMessage(r.document))
  }

  predicate Admits(c: Crypto, r: SignedRoute, receiver: string) {
    && VerifyRoute(c, r) && IsDigest(receiver) && receiver !in r.document.visited
    && (r.document.permission.Some? ==> r.document.permission.value.receiver == receiver)
  }

  predicate VerifyReceipt(c: Crypto, r: RouteReceipt, receiver: string) {
    && r.document.receiver == receiver
    && Admits(c, r.document.source, receiver)
    && IsId(r.document.uploadId) && r.document.receivedAt > 0
    && CheckSignature(c, receiver, r.signature, ReceiptMessage(r.document))
  }

  /** `SignedRoute::sign`: the issuer field is overwritten with the signer's own key. */
  function SignRoute(c: Crypto, d: RouteDocument, key: SecretKey): SignedRoute {
    var own := d.(issuer := c.publicKey(key));
    SignedRoute(own, c.sign(key, RouteMessage(own)))
  }

  function SignReceipt(c: Crypto, source: SignedRoute, uploadId: string, receivedAt: nat,
                       key: SecretKey): RouteReceipt
  {
    var d := ReceiptDocument(source, c.publicKey(key), uploadId, receivedAt);
    RouteReceipt(d, c.sign(key, ReceiptMessage(d)))
  }

  function LastDigest(c: Crypto, ancestors: seq<RouteReceipt>): Option<string> {
    if ancestors == [] then None else Some(c.digest(ancestors[|ancestors| - 1]))
  }

  /** One ancestor's place in the chain. */
  predicate VerifyLink(c: Crypto, source: SignedRoute, ancestors: seq<RouteReceipt>, i: nat)
    requires i < |ancestors| && |ancestors| + 1 == |source.document.visited|
  {
    var receipt := ancestors[i];
    var route := receipt.document.source.document;
    && VerifyReceipt(c, receipt, source.document.visited[i + 1])
    && (route.permission.Some? ==> route.permission.value.forwarding)
    && route.visited == source.document.visited[..i + 1]
    && route.manifest == source.document.manifest
    && route.parentReceipt == LastDigest(c, ancestors[..i])
  }

  predicate VerifyAncestry(c: Crypto, source: SignedRoute, ancestors: seq<RouteReceipt>) {
    && VerifyRoute(c, source)
    && |ancestors| + 1 == |source.document.visited|
    && source.document.parentReceipt == LastDigest(c, ancestors)
    && forall i :: 0 <= i < |ancestors| ==> VerifyLink(c, source, ancestors, i)
  }

  // ------------------------------------------------------------------- what acceptance means

  /** Port after port: each receipt hands on what the previous port issued. */
  ghost predicate CustodyChain(source: SignedRoute, ancestors: seq<RouteReceipt>) {
    var visited := source.document.visited;
    && |ancestors| + 1 == |visited| <= MAX_VISITED
    && Distinct(visited)
    && visited[|visited| - 1] == source.document.issuer
    && forall i :: 0 <= i < |ancestors| ==> CustodyLink(source, ancestors[i].document, i)
  }

  ghost predicate CustodyLink(source: SignedRoute, receipt: ReceiptDocument, i: nat)
    requires i + 1 < |source.document.visited|
  {
    var visited, route := source.document.visited, receipt.source.document;
    && route.issuer == visited[i] && receipt.receiver == visited[i + 1]
    && route.manifest == source.document.manifest
    && (route.permission.Some? ==>
          route.permission.value.receiver == visited[i + 1] && route.permission.value.forwarding)
  }

  lemma LinkIsCustody(c: Crypto, source: SignedRoute, ancestors: seq<RouteReceipt>, i: nat)
    requires i < |ancestors| && |ancestors| + 1 == |source.document.visited|
    requires VerifyLink(c, source, ancestors, i)
    ensures CustodyLink(source, ancestors[i].document, i)
  {
    assert source.document.visited[..i + 1][i] == source.document.visited[i];
  }

  /** An accepted ancestry is a loop-free chain of custody ending at the issuer. */
  lemma AncestryIsCustodyChain(c: Crypto, source: SignedRoute, ancestors: seq<RouteReceipt>)
    requires VerifyAncestry(c, source, ancestors)
    ensures CustodyChain(source, ancestors)
  {
    forall i | 0 <= i < |ancestors|
      ensures CustodyLink(source, ancestors[i].document, i)
    {
      LinkIsCustody(c, source, ancestors, i);
    }
  }

  /** Every receipt on the way was accepted on the same terms: its own source verifies with
      the ancestors before it. */
  lemma PrefixesVerify(c: Crypto, source: SignedRoute, ancestors: seq<RouteReceipt>, i: nat)
    requires VerifyAncestry(c, source, ancestors) && i < |ancestors|
    ensures VerifyAncestry(c, ancestors[i].document.source, ancestors[..i])
  {
    var earlier := ancestors[i].document.source;
    assert VerifyLink(c, source, ancestors, i);
    forall j | 0 <= j < i
      ensures VerifyLink(c, earlier, ancestors[..i], j)
    {
      assert VerifyLink(c, source, ancestors, j);
      assert ancestors[..i][..j] == ancestors[..j];
      assert source.document.visited[..i + 1][..j + 1] == source.document.visited[..j + 1];
      assert source.document.visited[..i + 1][j + 1] == source.document.visited[j + 1];
    }
  }

  /** Two different receipts at the same place with the same digest: a collision in hand. */
  ghost predicate Collides(c: Crypto, a: seq<RouteReceipt>, b: seq<RouteReceipt>) {
    exists i :: 0 <= i < |a| && i < |b| && a[i] != b[i] && c.digest(a[i]) == c.digest(b[i])
  }

  lemma CollidesEarlier(c: Crypto, a: seq<RouteReceipt>, b: seq<RouteReceipt>, n: nat)
    requires n <= |a| && n <= |b| && Collides(c, a[..n], b[..n])
    ensures Collides(c, a, b)
  {
    var i :| 0 <= i < n && a[..n][i] != b[..n][i] && c.digest(a[..n][i]) == c.digest(b[..n][i]);
    assert a[i] != b[i] && c.digest(a[i]) == c.digest(b[i]);
  }

  lemma SameOrCollides(c: Crypto, a: seq<RouteReceipt>, b: seq<RouteReceipt>, n: nat)
    requires |a| == |b| == n + 1 && c.digest(a[n]) == c.digest(b[n])
    requires a[n] == b[n] ==> a[..n] == b[..n] || Collides(c, a[..n], b[..n])
    ensures a == b || Collides(c, a, b)
  {
    if a[n] == b[n] && a[..n] == b[..n] {
      assert a == a[..n] + [a[n]] && b == b[..n] + [b[n]];
    } else if a[n] == b[n] {
      CollidesEarlier(c, a, b, n);
    }
  }

  lemma LastReceiptsAgree(c: Crypto, source: SignedRoute, a: seq<RouteReceipt>, b: seq<RouteReceipt>, n: nat)
    requires VerifyAncestry(c, source, a) && VerifyAncestry(c, source, b) && |a| == n + 1
    ensures |b| == n + 1 && c.digest(a[n]) == c.digest(b[n])
  {
  }

  /** The last receipt's digest pins the whole history: a second ancestry accepted for the same
      route is the same, or it exhibits a collision of the digest. */
  lemma {:induction false} AncestryIsUnique(c: Crypto, source: SignedRoute, a: seq<RouteReceipt>, b: seq<RouteReceipt>)
    requires VerifyAncestry(c, source, a) && VerifyAncestry(c, source, b)
    ensures a == b || Collides(c, a, b)
    decreases |a|
  {
    if a != [] {
      var n := |a| - 1;
      LastReceiptsAgree(c, source, a, b, n);
      if a[n] == b[n] {
        PrefixesVerify(c, source, a, n);
        PrefixesVerify(c, source, b, n);
        AncestryIsUnique(c, a[n].document.source, a[..n], b[..n]);
      }
      SameOrCollides(c, a, b, n);
    }
  }

  /** So a digest without collisions leaves one ancestry. */
  lemma CollisionFreeAncestry(c: Crypto, source: SignedRoute, a: seq<RouteReceipt>, b: seq<RouteReceipt>)
    requires CollisionFree(c) && VerifyAncestry(c, source, a) && VerifyAncestry(c, source, b)
    ensures a == b
  {
    AncestryIsUnique(c, source, a, b);
  }

  // ------------------------------------------------------------------------------ forwarding

  /** What a receiving port may do next: receive under an admitted key, then issue. */
  ghost predicate MayForward(c: Crypto, source: SignedRoute, key: SecretKey, uploadId: string, receivedAt: nat) {
    && Admits(c, source, c.publicKey(key))
    && (source.document.permission.Some? ==> source.document.permission.value.forwarding)
    && IsId(uploadId) && receivedAt > 0
  }

  /** The next route names that receipt, carries the same manifest and adds the port. */
  ghost predicate Continues(c: Crypto, source: SignedRoute, receipt: RouteReceipt, next: RouteDocument) {
    && next.parentReceipt == Some(c.digest(receipt))
    && next.manifest == source.document.manifest
    && next.visited == source.document.visited + [receipt.document.receiver]
    && IsId(next.operationId) && IsLabel(next.labelText) && IsMetadata(next.metadata)
    && (next.permission.Some? ==> IsDigest(next.permission.value.receiver) && IsId(next.permission.value.grant))
  }

  lemma ReceiptVerifies(c: Crypto, source: SignedRoute, key: SecretKey, uploadId: string, receivedAt: nat)
    requires Sound(c) && MayForward(c, source, key, uploadId, receivedAt)
    ensures VerifyReceipt(c, SignReceipt(c, source, uploadId, receivedAt, key), c.publicKey(key))
  {
  }

  /** The signed next route verifies exactly while the chain has room for one more port. */
  lemma NextRouteVerifies(c: Crypto, source: SignedRoute, key: SecretKey, uploadId: string, receivedAt: nat,
                          next: RouteDocument)
    requires Sound(c) && MayForward(c, source, key, uploadId, receivedAt)
    requires Continues(c, source, SignReceipt(c, source, uploadId, receivedAt, key), next)
    ensures VerifyRoute(c, SignRoute(c, next, key)) <==> |source.document.visited| < MAX_VISITED
  {
    var signed := SignRoute(c, next, key).document;
    assert IsDigest(c.publicKey(key)) && IsDigest(c.digest(SignReceipt(c, source, uploadId, receivedAt, key)));
    assert signed.visited == source.document.visited + [c.publicKey(key)];
    if |source.document.visited| < MAX_VISITED {
      assert WellFormed(signed);
      assert c.check(c.publicKey(key), c.sign(key, RouteMessage(signed)), RouteMessage(signed));
    }
  }

  lemma ForwardingVerifies(c: Crypto, source: SignedRoute, ancestors: seq<RouteReceipt>,
                           key: SecretKey, uploadId: string, receivedAt: nat, next: RouteDocument)
    requires Sound(c) && VerifyAncestry(c, source, ancestors)
    requires MayForward(c, source, key, uploadId, receivedAt)
    requires Continues(c, source, SignReceipt(c, source, uploadId, receivedAt, key), next)
    ensures VerifyAncestry(c, SignRoute(c, next, key), ancestors + [SignReceipt(c, source, uploadId, receivedAt, key)])
      <==> |source.document.visited| < MAX_VISITED
  {
    NextRouteVerifies(c, source, key, uploadId, receivedAt, next);
    if |source.document.visited| < MAX_VISITED {
      var receipt := SignReceipt(c, source, uploadId, receivedAt, key);
      var signed, all := SignRoute(c, next, key), ancestors + [receipt];
      ReceiptVerifies(c, source, key, uploadId, receivedAt);
      forall i | 0 <= i < |all|
        ensures VerifyLink(c, signed, all, i)
      {
        var before, after := source.document.visited, signed.document.visited;
        assert after[..i + 1] == before[..i + 1];
        assert all[..i] == ancestors[..i];
        if i < |ancestors| {
          assert VerifyLink(c, source, ancestors, i);
          assert after[i + 1] == before[i + 1];
        } else {
          assert before[..i + 1] == before;
          assert ancestors[..i] == ancestors;
        }
      }
    }
  }

  // ------------------------------------------------------------------------- forwarding runs

  datatype Hop = Hop(key: SecretKey, uploadId: string, receivedAt: nat, next: RouteDocument)

  datatype Custodian = Custodian(source: SignedRoute, ancestors: seq<RouteReceipt>)

  /** One hop: the port receives what it is admitted to and issues a verifying next route. */
  ghost predicate Forward(c: Crypto, s: Custodian, hop: Hop, t: Custodian) {
    var receipt := SignReceipt(c, s.source, hop.uploadId, hop.receivedAt, hop.key);
    && MayForward(c, s.source, hop.key, hop.uploadId, hop.receivedAt)
    && Continues(c, s.source, receipt, hop.next)
    && t == Custodian(SignRoute(c, hop.next, hop.key), s.ancestors + [receipt])
    && VerifyRoute(c, t.source)
  }

  ghost predicate ForwardingRun(c: Crypto, states: seq<Custodian>, hops: seq<Hop>) {
    |states| == |hops| + 1
    && forall i :: 0 <= i < |hops| ==> Forward(c, states[i], hops[i], states[i + 1])
  }

  ghost predicate Accepted(c: Crypto, s: Custodian) { VerifyAncestry(c, s.source, s.ancestors) }

  function Ports(s: Custodian): nat { |s.source.document.visited| }

  lemma HopVerifies(c: Crypto, s: Custodian, hop: Hop, t: Custodian)
    requires Sound(c) && Accepted(c, s) && Forward(c, s, hop, t)
    ensures Accepted(c, t) && Ports(t) == Ports(s) + 1 <= MAX_VISITED
  {
    ForwardingVerifies(c, s.source, s.ancestors, hop.key, hop.uploadId, hop.receivedAt, hop.next);
    NextRouteVerifies(c, s.source, hop.key, hop.uploadId, hop.receivedAt, hop.next);
  }

  lemma HopOfRun(c: Crypto, states: seq<Custodian>, hops: seq<Hop>, i: nat)
    requires Sound(c) && ForwardingRun(c, states, hops) && i < |hops| && Accepted(c, states[i])
    ensures Accepted(c, states[i + 1]) && Ports(states[i + 1]) == Ports(states[i]) + 1 <= MAX_VISITED
  {
    HopVerifies(c, states[i], hops[i], states[i + 1]);
  }

  /** Every state of every run is an accepted chain, and 8 less the ports visited counts down. */
  lemma {:induction false} ForwardingRuns(c: Crypto, states: seq<Custodian>, hops: seq<Hop>, n: nat)
    requires Sound(c) && ForwardingRun(c, states, hops) && n < |states|
    requires Accepted(c, states[0]) && Ports(states[0]) <= MAX_VISITED
    ensures Accepted(c, states[n]) && Ports(states[n]) == Ports(states[0]) + n <= MAX_VISITED
  {
    if n > 0 {
      ForwardingRuns(c, states, hops, n - 1);
      HopOfRun(c, states, hops, n - 1);
    }
  }

  /** No parcel travels more than seven hops from its first port. */
  lemma RunsAreShort(c: Crypto, states: seq<Custodian>, hops: seq<Hop>)
    requires Sound(c) && ForwardingRun(c, states, hops)
    requires Accepted(c, states[0])
    ensures |hops| <= MAX_VISITED - Ports(states[0])
  {
    ForwardingRuns(c, states, hops, |hops|);
  }

  function SampleHex(digit: char): string { seq(64, _ => digit) }

  function SampleCrypto(): Crypto {
    Crypto(key => SampleHex(if key == 0 then '0' else '1'), (key, m) => "", (key, s, m) => s == "",
           r => SampleHex('d'))
  }

  function SampleRoute(issuer: string, parent: Option<string>, visited: seq<string>): RouteDocument {
    RouteDocument(issuer, "id", SampleHex('0'), "a", map[], parent, visited, None)
  }

  lemma SampleFields()
    ensures IsDigest(SampleHex('0')) && IsDigest(SampleHex('1')) && IsDigest(SampleHex('d'))
    ensures SampleHex('0') != SampleHex('1') && IsId("id") && IsLabel("a") && LowerHex("")
  {
    assert SampleHex('0')[0] != SampleHex('1')[0];
    assert !WhiteSpace("a"[0]);
    assert Utf8.Encode("a") == [0x61];
  }

  /** There is a scheme as assumed, and a parcel that a port may forward under it. */
  lemma SomeForwarding() returns (c: Crypto, s: Custodian, hop: Hop, t: Custodian)
    ensures Sound(c) && Accepted(c, s) && Forward(c, s, hop, t)
  {
    c := SampleCrypto();
    SampleFields();
    s := Custodian(SignRoute(c, SampleRoute(c.publicKey(0), None, [c.publicKey(0)]), 0), []);
    var receipt := SignReceipt(c, s.source, "id", 1, 1);
    hop := Hop(1, "id", 1, SampleRoute(c.publicKey(1), Some(c.digest(receipt)), [c.publicKey(0), c.publicKey(1)]));
    t := Custodian(SignRoute(c, hop.next, 1), [receipt]);
    NextRouteVerifies(c, s.source, 1, "id", 1, hop.next);
  }
}
