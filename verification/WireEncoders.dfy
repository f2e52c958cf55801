/** The hand-written wire encoders of the data-path harness
    (bench/src/datapath.rs): a TLS 1.2 ClientHello carrying a server name
    (section 7.4.1.2 of RFC 5246, section 3 of RFC 6066) and a DNS question
    (section 4.1 of RFC 1035). Hosts are byte strings. */
module WireEncoders {
  import opened Bits
  import opened Options
  import opened Checksum

  // -------------------------------------------------------------- ClientHello

  // A vector: its length in n bytes, then its body.
  function Vec(n: nat, body: seq<byte>): (r: seq<byte>)
    ensures |r| == n + |body|
  {
    ToBytes(|body|, n) + body
  }

  // Reads a vector; None when the input is too short.
  function TakeVec(s: seq<byte>, n: nat): Option<(seq<byte>, seq<byte>)> {
    if |s| < n then None
    else
      var len := FromBytes(s[..n]);
      if |s| < n + len then None else Some((s[n..n + len], s[n + len..]))
  }

  lemma {:induction false} TakeOfVec(n: nat, body: seq<byte>, rest: seq<byte>)
    requires |body| < Pow256(n)
    ensures TakeVec(Vec(n, body) + rest, n) == Some((body, rest))
  {
    var s := Vec(n, body) + rest;
    BytesRoundTrip(|body|, n);
    assert s[..n] == ToBytes(|body|, n);
    assert s[n..n + |body|] == body && s[n + |body|..] == rest;
  }

  function ServerNameExtension(host: seq<byte>): (r: seq<byte>)
    ensures |r| == |host| + 9
  {
    [0, 0] + Vec(2, Vec(2, [0] + Vec(2, host)))
  }

  function HelloBody(host: seq<byte>): (r: seq<byte>)
    ensures |r| == |host| + 52
  {
    [0x03, 0x03] + Zeros(32) + [0] + [0x00, 0x02, 0x00, 0x35] + [0x01, 0x00] + Vec(2, ServerNameExtension(host))
  }

  function ClientHello(host: seq<byte>): seq<byte> {
    [0x16, 0x03, 0x01] + Vec(2, [0x01] + Vec(3, HelloBody(host)))
  }

  /** The source's builder: length fields are written as zero placeholders and
      patched once the enclosed part is complete. */
  method BuildClientHello(host: seq<byte>) returns (record: seq<byte>)
    ensures record == ClientHello(host)
  {
    hide ClientHello;
    var hello: seq<byte> := [0x03, 0x03];
    hello := hello + Zeros(32);
    hello := hello + [0];
    hello := hello + [0x00, 0x02, 0x00, 0x35];
    hello := hello + [0x01, 0x00];
    hello := AppendServerName(hello, host);
    assert hello == HelloBody(host);
    record := WrapHandshake(hello, host);
  }

  method AppendServerName(fixed: seq<byte>, host: seq<byte>) returns (hello: seq<byte>)
    ensures hello == fixed + Vec(2, ServerNameExtension(host))
  {
    hide BE16, Splice, NameList;
    var extOffset := |fixed|;
    hello := fixed + [0, 0];
    var extStart := |hello|;
    hello := hello + [0, 0];
    var sniLenOffset := |hello|;
    hello := hello + [0, 0];
    var sniDataStart := |hello|;
    hello := AppendNameList(hello, host);
    var sniDataEnd := |hello|;
    ghost var list := NameList(host);
    assert hello == (fixed + [0, 0] + [0, 0]) + [0, 0] + list;
    Patch(fixed + [0, 0] + [0, 0], list, BE16(|host| + 5));
    hello := Splice(hello, sniLenOffset, BE16(sniDataEnd - sniDataStart));
    ghost var ext := [0, 0] + BE16(|host| + 5) + list;
    assert hello == fixed + [0, 0] + ext;
    Patch(fixed, ext, BE16(|host| + 9));
    hello := Splice(hello, extOffset, BE16(|hello| - extStart));
    NestedLengths(host);
    assert hello == fixed + (BE16(|host| + 9) + ext);
  }

  // The server-name list: its length, then one host name.
  ghost function NameList(host: seq<byte>): (r: seq<byte>)
    ensures |r| == |host| + 5
  {
    BE16(|host| + 3) + ([0] + BE16(|host|) + host)
  }

  method AppendNameList(prefix: seq<byte>, host: seq<byte>) returns (hello: seq<byte>)
    ensures hello == prefix + NameList(host)
  {
    hide BE16, Splice;
    hello := prefix + [0, 0];
    hello := hello + [0];
    hello := hello + BE16(|host|);
    hello := hello + host;
    ghost var tail := [0] + BE16(|host|) + host;
    assert hello == prefix + [0, 0] + tail;
    Patch(prefix, tail, BE16(|host| + 3));
    hello := Splice(hello, |prefix|, BE16(|hello| - |prefix| - 2));
    assert prefix + BE16(|host| + 3) + tail == prefix + NameList(host);
  }

  lemma Patch(a: seq<byte>, b: seq<byte>, x: seq<byte>)
    requires |x| == 2
    ensures Splice(a + [0, 0] + b, |a|, x) == a + x + b
  {}

  lemma NestedLengths(host: seq<byte>)
    ensures var n := |host|;
            Vec(2, ServerNameExtension(host)) ==
            BE16(n + 9) + ([0, 0] + BE16(n + 5) + NameList(host))
  {
    hide BE16, ToBytes;
    var n := |host|;
    ToBytesShort(n);
    ToBytesShort(n + 3);
    ToBytesShort(n + 5);
    ToBytesShort(n + 9);
    assert Vec(2, [0] + Vec(2, host)) == BE16(n + 3) + ([0] + BE16(n) + host);
  }

  method WrapHandshake(hello: seq<byte>, ghost host: seq<byte>) returns (record: seq<byte>)
    requires hello == HelloBody(host)
    ensures record == ClientHello(host)
  {
    hide HelloBody, BE16, ToBytes;
    record := [0x16] + [0x03, 0x01];
    record := record + BE16(4 + |hello|);
    var length := [|hello| / 65536 % 256, |hello| / 256 % 256, |hello| % 256];
    record := record + [0x01] + length;
    record := record + hello;
    ToBytesShort(|hello|);
    ToBytesShort(4 + |hello|);
    assert [0x01] + Vec(3, hello) == [0x01] + length + hello;
  }

  lemma {:induction false} ToBytesShort(x: nat)
    ensures ToBytes(x, 2) == BE16(x)
    ensures ToBytes(x, 3) == [x / 65536 % 256, x / 256 % 256, x % 256]
  {
    assert ToBytes(x / 256 / 256, 0) == [];
    assert ToBytes(x / 256, 1) == [x / 256 % 256];
    assert x / 256 / 256 == x / 65536;
    assert ToBytes(x / 256, 2) == ToBytes(x / 65536, 1) + [x / 256 % 256];
    assert ToBytes(x / 65536, 1) == [x / 65536 % 256];
  }

  // ------------------------------------------------------------ reading it back

  // Reads a vector that must be the whole input.
  function TakeAll(s: seq<byte>, n: nat): Option<seq<byte>> {
    var (body, rest) :- TakeVec(s, n);
    if rest == [] then Some(body) else None
  }

  // Drops the expected leading bytes.
  function Expect(s: seq<byte>, lead: seq<byte>): Option<seq<byte>> {
    if lead <= s then Some(s[|lead|..]) else None
  }

  function ParseServerName(exts: seq<byte>): Option<seq<byte>> {
    var e :- Expect(exts, [0, 0]);
    var ext :- TakeAll(e, 2);
    var list :- TakeAll(ext, 2);
    var name :- Expect(list, [0]);
    TakeAll(name, 2)
  }

  // TLS 1.2, the all-zero random, no session, one cipher suite, no compression.
  function ParseHello(hello: seq<byte>): Option<seq<byte>> {
    if |hello| < 34 || hello[..2] != [0x03, 0x03] || (exists i :: 2 <= i < 34 && hello[i] != 0) then None
    else
      var (session, r1) :- TakeVec(hello[34..], 1);
      var (suites, r2) :- TakeVec(r1, 2);
      var (compression, r3) :- TakeVec(r2, 1);
      var exts :- TakeAll(r3, 2);
      if session != [] || suites != [0x00, 0x35] || compression != [0x00] then None
      else ParseServerName(exts)
  }

  /** A strict reader: every nested length must account for exactly the bytes
      enclosed, and nothing may follow. */
  function ParseClientHello(record: seq<byte>): Option<seq<byte>> {
    var r :- Expect(record, [0x16, 0x03, 0x01]);
    var handshake :- TakeAll(r, 2);
    var h :- Expect(handshake, [0x01]);
    var hello :- TakeAll(h, 3);
    ParseHello(hello)
  }

  lemma {:induction false} TakeWholeVec(n: nat, body: seq<byte>)
    requires |body| < Pow256(n)
    ensures TakeAll(Vec(n, body), n) == Some(body)
  {
    TakeOfVec(n, body, []);
    assert Vec(n, body) + [] == Vec(n, body);
  }

  lemma ServerNameParses(host: seq<byte>)
    requires |host| + 9 <= U16_MAX
    ensures ParseServerName(ServerNameExtension(host)) == Some(host)
  {
    hide TakeAll, Vec;
    assert Pow256(2) == 65536;
    var list := [0] + Vec(2, host);
    var exts := ServerNameExtension(host);
    assert exts[2..] == Vec(2, Vec(2, list));
    TakeWholeVec(2, Vec(2, list));
    TakeWholeVec(2, list);
    assert list[1..] == Vec(2, host);
    TakeWholeVec(2, host);
  }

  lemma HelloParses(host: seq<byte>)
    requires |host| + 9 <= U16_MAX
    ensures ParseHello(HelloBody(host)) == Some(host)
  {
    hide TakeVec, TakeAll, Vec, ServerNameExtension, ParseServerName;
    var e := Vec(2, ServerNameExtension(host));
    var r2 := [0x01, 0x00] + e;
    var r1 := [0x00, 0x02, 0x00, 0x35] + r2;
    assert HelloBody(host)[34..] == [0] + r1 && HelloBody(host)[..2] == [0x03, 0x03];
    assert Pow256(1) == 256 && Pow256(2) == 65536;
    SmallVecs();
    TakeOfVec(1, [], r1);
    TakeOfVec(2, [0x00, 0x35], r2);
    TakeOfVec(1, [0x00], e);
    TakeWholeVec(2, ServerNameExtension(host));
    ServerNameParses(host);
  }

  lemma SmallVecs()
    ensures Vec(1, []) == [0] && Vec(2, [0x00, 0x35]) == [0x00, 0x02, 0x00, 0x35] && Vec(1, [0x00]) == [0x01, 0x00]
  {
    ToBytesShort(2);
    assert ToBytes(0, 1) == [0] && ToBytes(1, 1) == [1];
  }

  /** The ClientHello round trip holds exactly for hosts of at most 65479
      bytes. A longer host makes the 16-bit record length wrap, and a strict
      reader rejects the record. */
  lemma ClientHelloRoundTripIff(host: seq<byte>)
    ensures |host| <= 65479 ==> ParseClientHello(ClientHello(host)) == Some(host)
    ensures |host| > 65479 ==> ParseClientHello(ClientHello(host)) == None
  {
    hide Vec, HelloBody, ParseHello, TakeAll;
    var hello := HelloBody(host);
    var handshake := [0x01] + Vec(3, hello);
    var record := ClientHello(host);
    assert record[3..] == Vec(2, handshake);
    if |host| <= 65479 {
      assert Pow256(2) == 65536 && Pow256(3) == 16777216;
      TakeWholeVec(2, handshake);
      assert handshake[1..] == Vec(3, hello);
      TakeWholeVec(3, hello);
      HelloParses(host);
    } else {
      WrappedVec(handshake);
    }
  }

  // A body too long for its two length bytes is never read back whole.
  lemma WrappedVec(body: seq<byte>)
    requires |body| > U16_MAX
    ensures TakeAll(Vec(2, body), 2) == None
  {
    var s := Vec(2, body);
    var field := s[..2];
    ToBytesShort(|body|);
    assert field == BE16(|body|);
    assert field[..1] == [field[0]] && field[..1][..0] == [];
    assert FromBytes(field) == FromBytes(field[..1]) * 256 + field[1];
    assert FromBytes(field) <= U16_MAX;
  }

  // ------------------------------------------------------------- DNS question

  const DOT: byte := 46

  // `split('.')`: the parts between dots; always at least one.
  function Split(host: seq<byte>): (r: seq<seq<byte>>)
    ensures |r| > 0 && forall part <- r :: 46 !in part
  {
    if host == [] then [[]]
    else
      var rest := Split(host[1..]);
      assert rest[0] in rest;
      if host[0] == DOT then [[]] + rest
      else [[host[0]] + rest[0]] + rest[1..]
  }

  function Join(labels: seq<seq<byte>>): seq<byte>
    requires |labels| > 0
  {
    if |labels| == 1 then labels[0] else labels[0] + [DOT] + Join(labels[1..])
  }

  lemma {:induction false} JoinOfSplit(host: seq<byte>)
    ensures Join(Split(host)) == host
  {
    if host == [] {
    } else {
      JoinOfSplit(host[1..]);
      var rest := Split(host[1..]);
      var labels := Split(host);
      if host[0] == DOT {
        assert labels[1..] == rest;
        assert Join(labels) == [] + [DOT] + host[1..];
      } else {
        assert labels[1..] == rest[1..];
        if |rest| > 1 {
          assert Join(labels) == ([host[0]] + rest[0]) + [DOT] + Join(rest[1..]);
          assert Join(labels) == [host[0]] + Join(rest);
        }
      }
      assert [host[0]] + host[1..] == host;
    }
  }

  // One length byte, truncated to eight bits, and the label.
  function EncodeLabels(labels: seq<seq<byte>>): seq<byte> {
    if labels == [] then [] else [|labels[0]| % 256] + labels[0] + EncodeLabels(labels[1..])
  }

  const DNS_HEADER: seq<byte> := [0x12, 0x34, 0x01, 0x00, 0x00, 0x01, 0x00, 0x00, 0x00, 0x00, 0x00, 0x00]

  function DnsQuery(host: seq<byte>): seq<byte> {
    DNS_HEADER + EncodeLabels(Split(host)) + [0] + [0, 1] + [0, 1]
  }

  method BuildDnsQuery(host: seq<byte>) returns (p: seq<byte>)
    ensures p == DnsQuery(host)
  {
    p := [0x12, 0x34];
    p := p + [0x01, 0x00];
    p := p + [0x00, 0x01];
    p := p + [0x00, 0x00];
    p := p + [0x00, 0x00];
    p := p + [0x00, 0x00];
    var labels := Split(host);
    for i := 0 to |labels|
      invariant p + EncodeLabels(labels[i..]) == DNS_HEADER + EncodeLabels(labels)
    {
      assert labels[i..][1..] == labels[i + 1..];
      p := p + [|labels[i]| % 256];
      p := p + labels[i];
    }
    p := p + [0];
    p := p + [0, 1];
    p := p + [0, 1];
  }

  /** A resolver's reader of a name: labels of 1 to 63 bytes up to the root. */
  function DecodeName(s: seq<byte>): Option<(seq<seq<byte>>, seq<byte>)>
    decreases |s|
  {
    if s == [] then None
    else if s[0] == 0 then Some(([], s[1..]))
    else if s[0] > 63 || |s| < 1 + s[0] then None
    else
      var (labels, rest) :- DecodeName(s[1 + s[0]..]);
      Some(([s[1..1 + s[0]]] + labels, rest))
  }

  // Identifier 0x1234, a standard query with recursion desired, one question of
  // type A and class IN, and nothing after it.
  function DecodeQuery(p: seq<byte>): Option<seq<seq<byte>>> {
    if |p| < 12 || p[..4] != [0x12, 0x34, 0x01, 0x00] || p[4..12] != [0, 1, 0, 0, 0, 0, 0, 0] then None
    else
      var (labels, rest) :- DecodeName(p[12..]);
      if rest == [0, 1, 0, 1] then Some(labels) else None
  }

  ghost predicate ProperLabels(labels: seq<seq<byte>>) {
    forall i :: 0 <= i < |labels| ==> 1 <= |labels[i]| <= 63
  }

  lemma {:induction false} DecodedLabelsProper(s: seq<byte>)
    ensures DecodeName(s).Some? ==> ProperLabels(DecodeName(s).value.0)
    decreases |s|
  {
    if s != [] && 1 <= s[0] <= 63 && |s| >= 1 + s[0] { DecodedLabelsProper(s[1 + s[0]..]); }
  }

  lemma {:induction false} NameRoundTrip(labels: seq<seq<byte>>, rest: seq<byte>)
    requires ProperLabels(labels)
    ensures DecodeName(EncodeLabels(labels) + [0] + rest) == Some((labels, rest))
  {
    hide DecodeName;
    var s := EncodeLabels(labels) + [0] + rest;
    if labels == [] {
      DecodeRoot(rest);
      assert s == [0] + rest;
    } else {
      NameRoundTrip(labels[1..], rest);
      var after := EncodeLabels(labels[1..]) + [0] + rest;
      DecodeLabel(labels[0], after);
      assert s == [|labels[0]|] + labels[0] + after;
      assert [labels[0]] + labels[1..] == labels;
    }
  }

  lemma {:induction false} DecodeRoot(rest: seq<byte>)
    ensures DecodeName([0] + rest) == Some(([], rest))
  {}

  lemma {:induction false} DecodeLabel(part: seq<byte>, after: seq<byte>)
    requires 1 <= |part| <= 63 && DecodeName(after).Some?
    ensures DecodeName([|part|] + part + after) == Some(([part] + DecodeName(after).value.0, DecodeName(after).value.1))
  {
    var s := [|part|] + part + after;
    assert s[1 + |part|..] == after;
    assert s[1..1 + |part|] == part;
  }

  /** Decoding the question returns the host's labels exactly when each has 1 to
      63 bytes; an empty label, or one whose length does not fit, does not
      survive. The labels joined by dots are the host. */
  lemma {:induction false} DnsRoundTripIff(host: seq<byte>)
    ensures DecodeQuery(DnsQuery(host)) == Some(Split(host)) <==> ProperLabels(Split(host))
    ensures Join(Split(host)) == host
  {
    JoinOfSplit(host);
    hide Split, DecodeName, EncodeLabels;
    var p := DnsQuery(host);
    var labels := Split(host);
    var tail: seq<byte> := [0, 1, 0, 1];
    assert p[..12] == DNS_HEADER;
    assert p[..4] == p[..12][..4] && p[4..12] == p[..12][4..];
    assert p[12..] == EncodeLabels(labels) + [0] + tail;
    DecodedLabelsProper(p[12..]);
    if ProperLabels(labels) { NameRoundTrip(labels, tail); }
  }
}
