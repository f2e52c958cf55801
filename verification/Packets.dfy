/** The packet crafter (bench/src/traffic_gen.rs): address sampling, and the
    in-place writing of an Ethernet + IPv4/IPv6 + UDP/TCP-SYN frame. */
module Packets {
  import opened Bits
  import opened Options
  import opened Checksum

  const ETH_HLEN: nat := 14
  const IPV4_HLEN: nat := 20
  const IPV6_HLEN: nat := 40
  const UDP_HLEN: nat := 8
  const TCP_HLEN: nat := 20
  const ETHERTYPE_IPV4: u16 := 0x0800
  const ETHERTYPE_IPV6: u16 := 0x86DD
  const IPPROTO_UDP: byte := 17
  const IPPROTO_TCP: byte := 6
  const MAX_FRAME_SIZE: nat := ETH_HLEN + U16_MAX

  datatype IpVersion = IPv4 | IPv6
  datatype L4Proto = Udp | TcpSyn

  function Width(v: IpVersion): nat { if v.IPv4? then 32 else 128 }
  function Octets(v: IpVersion): nat { if v.IPv4? then 4 else 16 }

  // ------------------------------------------------------------------ sampling

  datatype Subnet = Subnet(version: IpVersion, base: nat, prefix: nat) {
    predicate Valid() { base < Pow2(Width(version)) }
    // Bits left to the host; a prefix beyond the width counts as the width.
    function HostBits(): nat { Width(version) - Min(prefix, Width(version)) }
    // The address has the width of the family and the subnet's network bits.
    predicate Contains(a: nat) {
      a < Pow2(Width(version)) && ShiftRight(a, HostBits()) == ShiftRight(base, HostBits())
    }
  }

  /** `sample_addr`: network bits from the base, host bits from the random word. */
  function SampleAddr(subnet: Subnet, random: nat): nat {
    var w := Width(subnet.version);
    var h := subnet.HostBits();
    var netMask := if h == w then 0 else ShiftLeft(Pow2(w) - 1, h) % Pow2(w);
    var hostMask := Pow2(w) - 1 - netMask;
    BitOr(BitAnd(subnet.base, netMask), BitAnd(random, hostMask))
  }

  /** The sampled address lies in the configured prefix, keeps every host bit of
      the random word, and fits the address width. */
  lemma SampleInPrefix(subnet: Subnet, random: nat)
    requires subnet.Valid()
    ensures var a, h := SampleAddr(subnet, random), subnet.HostBits();
            && a < Pow2(Width(subnet.version))
            && ShiftRight(a, h) == ShiftRight(subnet.base, h)
            && LowBits(a, h) == LowBits(random, h)
  {
    hide BitAnd, BitOr, ShiftRight;
    var w, h := Width(subnet.version), subnet.HostBits();
    var b := subnet.base;
    NetMaskValue(w, h);
    HighMask(b, w, h);
    BitAndZero(b);
    MaskIsLowBits(random, h);
    ShiftRightBounds(b, h);
    var q := ShiftRight(b, h);
    if h == w {
      ShiftOfSum(0, w, b);
      ShiftLeftOne(w);
    }
    OrBelow(q, h, LowBits(random, h));
    ShiftOfSum(q, h, LowBits(random, h));
    assert SampleAddr(subnet, random) == ShiftLeft(q, h) + LowBits(random, h);
    PrefixFits(q, h, w);
  }

  lemma {:induction false} NetMaskValue(w: nat, h: nat)
    requires h <= w
    ensures Pow2(h) <= Pow2(w)
    ensures ShiftLeft(Pow2(w) - 1, h) % Pow2(w) == if h == w then 0 else Pow2(w) - Pow2(h)
  {
    Pow2Monotone(h, w);
    ShiftLeftAdd(Pow2(w) - 1, 1, h);
    ShiftLeftOne(h);
    ShiftLeftPow2(w, h);
    Pow2Add(w, h);
    assert ShiftLeft(Pow2(w) - 1, h) == Pow2(w) * Pow2(h) - Pow2(h);
    ModOfMultiple(Pow2(w), Pow2(h));
  }

  lemma ModOfMultiple(m: nat, p: nat)
    requires 0 < p <= m
    ensures (m * p - p) % m == if p == m then 0 else m - p
  {
    assert m * p - p == m * (p - 1) + (m - p);
    if p == m { ModUnique(m * p - p, m, p - 1, 0); } else { ModUnique(m * p - p, m, p - 1, m - p); }
  }

  lemma ModUnique(n: nat, m: nat, q: nat, r: nat)
    requires r < m && n == m * q + r
    ensures n % m == r
  {
    var q' := n / m;
    assert n == m * q' + n % m;
    if q' < q { MulLe(m, q' + 1, q); }
    if q < q' { MulLe(m, q + 1, q'); }
  }

  lemma MulLe(m: nat, a: nat, b: nat)
    requires a <= b
    ensures m * a <= m * b
  {}

  lemma {:induction false} PrefixFits(q: nat, h: nat, w: nat)
    requires h <= w && ShiftLeft(q, h) < Pow2(w)
    ensures ShiftLeft(q, h) + Pow2(h) <= Pow2(w)
  {
    ShiftLeftPow2(w - h, h);
    if q >= Pow2(w - h) {
      if q > Pow2(w - h) { ShiftLeftMonotone(Pow2(w - h), q, h); }
    } else {
      ShiftLeftMonotone(q, Pow2(w - h), h);
    }
  }

  // ------------------------------------------------------------- configuration

  datatype Config = Config(frameSize: nat, l4: L4Proto, srcMac: seq<byte>, dstMac: seq<byte>, ttl: byte) {
    predicate Valid() { |srcMac| == 6 && |dstMac| == 6 }
    function Proto(): byte { if l4.Udp? then IPPROTO_UDP else IPPROTO_TCP }
  }

  datatype Error =
    | InvalidConfig
    | PacketTooSmall(size: nat)
    | PacketTooLarge(size: nat)
    | BufferTooSmall(needed: nat, got: nat)

  function IpHeaderLen(v: IpVersion): nat { if v.IPv4? then IPV4_HLEN else IPV6_HLEN }
  function L4HeaderLen(l4: L4Proto): nat { if l4.Udp? then UDP_HLEN else TCP_HLEN }

  function MinFrameSize(c: Config, v: IpVersion): nat { ETH_HLEN + IpHeaderLen(v) + L4HeaderLen(c.l4) }

  /** What `PacketBuilder::new` refuses, if anything. */
  function Refusal(c: Config, v: IpVersion): Option<Error> {
    if c.frameSize < MinFrameSize(c, v) then Some(PacketTooSmall(c.frameSize))
    else if c.frameSize > MAX_FRAME_SIZE then Some(PacketTooLarge(c.frameSize))
    else None
  }

  datatype FiveTuple = FiveTuple(src: nat, dst: nat, srcPort: u16, dstPort: u16) {
    predicate Fits(v: IpVersion) { src < Pow256(Octets(v)) && dst < Pow256(Octets(v)) }
  }

  function Pair(v: IpVersion, t: FiveTuple): (p: IpPair)
    ensures p.Valid()
  {
    if v.IPv4? then V4(ToBytes(t.src, 4), ToBytes(t.dst, 4)) else V6(ToBytes(t.src, 16), ToBytes(t.dst, 16))
  }

  // ---------------------------------------------------------- the frame, as a value

  function EthHeader(c: Config, v: IpVersion): (r: seq<byte>)
    requires c.Valid()
    ensures |r| == ETH_HLEN
  {
    c.dstMac + c.srcMac + BE16(if v.IPv4? then ETHERTYPE_IPV4 else ETHERTYPE_IPV6)
  }

  function Ipv4Header(c: Config, id: u16, len: nat, p: IpPair, csum: u16): (r: seq<byte>)
    requires p.Valid() && p.V4?
    ensures |r| == IPV4_HLEN
  {
    [0x45, 0] + BE16(len) + BE16(id) + BE16(0x4000) + [c.ttl, c.Proto()] + BE16(csum) + p.src + p.dst
  }

  function Ipv6Header(c: Config, len: nat, p: IpPair): (r: seq<byte>)
    requires p.Valid() && p.V6?
    ensures |r| == IPV6_HLEN
  {
    [0x60, 0, 0, 0] + BE16(len) + [c.Proto(), c.ttl] + p.src + p.dst
  }

  function L4Header(l4: L4Proto, id: u16, len: nat, t: FiveTuple, csum: u16): (r: seq<byte>)
    ensures |r| == L4HeaderLen(l4)
  {
    match l4
    case Udp => BE16(t.srcPort) + BE16(t.dstPort) + BE16(len) + BE16(csum)
    case TcpSyn =>
      BE16(t.srcPort) + BE16(t.dstPort) + ToBytes(id, 4) + Zeros(4) + [0x50, 0x02] + BE16(64240) + BE16(csum) + Zeros(2)
  }

  // A segment of len bytes: header, then zero payload.
  function Segment(l4: L4Proto, id: u16, len: nat, t: FiveTuple, csum: u16): (r: seq<byte>)
    requires L4HeaderLen(l4) <= len
    ensures |r| == len
  {
    L4Header(l4, id, len, t, csum) + Zeros(len - L4HeaderLen(l4))
  }

  function HeaderChecksum(c: Config, id: u16, len: nat, p: IpPair): u16
    requires p.Valid() && p.V4?
  {
    InternetChecksum(Ipv4Header(c, id, len, p, 0))
  }

  // RFC 768: a computed UDP checksum of zero is sent as all ones.
  function SegmentChecksum(c: Config, id: u16, len: nat, t: FiveTuple, p: IpPair): u16
    requires L4HeaderLen(c.l4) <= len
  {
    var csum := TransportChecksum(p, c.Proto(), Segment(c.l4, id, len, t, 0));
    if c.l4.Udp? && csum == 0 then 0xFFFF else csum
  }

  function IpHeader(c: Config, v: IpVersion, id: u16, t: FiveTuple): (r: seq<byte>)
    requires Refusal(c, v).None?
    ensures |r| == IpHeaderLen(v)
  {
    var p := Pair(v, t);
    if v.IPv4? then
      var len := c.frameSize - ETH_HLEN;
      Ipv4Header(c, id, len, p, HeaderChecksum(c, id, len, p))
    else Ipv6Header(c, c.frameSize - ETH_HLEN - IPV6_HLEN, p)
  }

  function FullSegment(c: Config, v: IpVersion, id: u16, t: FiveTuple): seq<byte>
    requires Refusal(c, v).None?
  {
    var len := c.frameSize - ETH_HLEN - IpHeaderLen(v);
    Segment(c.l4, id, len, t, SegmentChecksum(c, id, len, t, Pair(v, t)))
  }

  function Frame(c: Config, v: IpVersion, id: u16, t: FiveTuple): (r: seq<byte>)
    requires c.Valid() && Refusal(c, v).None?
    ensures |r| == c.frameSize
  {
    EthHeader(c, v) + IpHeader(c, v, id, t) + FullSegment(c, v, id, t)
  }

  // ----------------------------------------------------------- writing in place

  // `copy_from_slice` at an offset.
  method Put(buf: array<byte>, off: nat, bytes: seq<byte>)
    requires off + |bytes| <= buf.Length
    modifies buf
    ensures buf[..] == Splice(old(buf[..]), off, bytes)
  {
    for i := 0 to |bytes|
      invariant buf[off..off + i] == bytes[..i]
      invariant buf[..off] == old(buf[..off])
      invariant buf[off + i..] == old(buf[off + i..])
    {
      buf[off + i] := bytes[i];
    }
  }

  /** Writes the next field of a frame whose first `len` bytes are `done`
      followed by zeros; the rest of the buffer is untouched. */
  method PutNext(buf: array<byte>, len: nat, ghost done: seq<byte>, off: nat, bytes: seq<byte>)
    requires off + |bytes| <= len <= buf.Length && off == |done|
    requires buf[..len] == done + Zeros(len - off)
    modifies buf
    ensures buf[..len] == done + bytes + Zeros(len - off - |bytes|)
    ensures buf[len..] == old(buf[len..])
  {
    ghost var before := buf[..];
    Put(buf, off, bytes);
    assert buf[..len] == Splice(before, off, bytes)[..len];
    assert before[..off] == before[..len][..off];
    assert before[off + |bytes|..len] == before[..len][off + |bytes|..];
  }

  /** Overwrites a field of the part already written. */
  method PutBack(buf: array<byte>, len: nat, ghost done: seq<byte>, off: nat, bytes: seq<byte>)
    requires off + |bytes| <= |done| <= len <= buf.Length
    requires buf[..len] == done + Zeros(len - |done|)
    modifies buf
    ensures buf[..len] == Splice(done, off, bytes) + Zeros(len - |done|)
    ensures buf[len..] == old(buf[len..])
  {
    ghost var before := buf[..];
    Put(buf, off, bytes);
    assert buf[..len] == Splice(before, off, bytes)[..len];
    assert before[..off] == before[..len][..off];
    assert before[off + |bytes|..len] == before[..len][off + |bytes|..];
  }

  method WriteEth(buf: array<byte>, len: nat, c: Config, v: IpVersion)
    requires c.Valid() && ETH_HLEN <= len <= buf.Length && buf[..len] == Zeros(len)
    modifies buf
    ensures buf[..len] == EthHeader(c, v) + Zeros(len - ETH_HLEN)
    ensures buf[len..] == old(buf[len..])
  {
    PutNext(buf, len, [], 0, c.dstMac);
    PutNext(buf, len, c.dstMac, 6, c.srcMac);
    PutNext(buf, len, c.dstMac + c.srcMac, 12, BE16(if v.IPv4? then ETHERTYPE_IPV4 else ETHERTYPE_IPV6));
  }

  lemma ZerosSplit(n: nat, k: nat)
    requires k <= n
    ensures Zeros(n) == Zeros(k) + Zeros(n - k)
  {}

  /** Extends a partly written frame by one field at its absolute offset. */
  method Field(buf: array<byte>, len: nat, ghost done: seq<byte>, off: nat, bytes: seq<byte>) returns (ghost now: seq<byte>)
    requires off + |bytes| <= len <= buf.Length && off == |done|
    requires buf[..len] == done + Zeros(len - off)
    modifies buf
    ensures now == done + bytes && buf[..len] == now + Zeros(len - |now|)
    ensures buf[len..] == old(buf[len..])
  {
    PutNext(buf, len, done, off, bytes);
    now := done + bytes;
  }

  method WriteIpv4Fields(buf: array<byte>, len: nat, c: Config, id: u16, p: IpPair)
    requires c.Valid() && p.Valid() && p.V4?
    requires ETH_HLEN + IPV4_HLEN <= len <= buf.Length && len - ETH_HLEN <= U16_MAX
    requires buf[..len] == EthHeader(c, IPv4) + Zeros(len - ETH_HLEN)
    modifies buf
    ensures buf[..len] == EthHeader(c, IPv4) + Ipv4Header(c, id, len - ETH_HLEN, p, 0) + Zeros(len - ETH_HLEN - IPV4_HLEN)
    ensures buf[len..] == old(buf[len..])
  {
    hide BE16;
    ghost var d := EthHeader(c, IPv4);
    d := Field(buf, len, d, 14, [0x45, 0]);
    d := Field(buf, len, d, 16, BE16(len - ETH_HLEN));
    d := Field(buf, len, d, 18, BE16(id));
    d := Field(buf, len, d, 20, BE16(0x4000));
    d := Field(buf, len, d, 22, [c.ttl, c.Proto()]);
    d := Skip(buf, len, d, 2);
    d := Field(buf, len, d, 26, p.src);
    d := Field(buf, len, d, 30, p.dst);
    assert BE16(0) == Zeros(2) by { ZeroField(); }
    assert d == EthHeader(c, IPv4) + Ipv4Header(c, id, len - ETH_HLEN, p, 0);
  }

  lemma ZeroField()
    ensures BE16(0) == Zeros(2)
  {}

  // A field left at zero counts as written.
  ghost method Skip(buf: array<byte>, len: nat, done: seq<byte>, n: nat) returns (now: seq<byte>)
    requires |done| + n <= len <= buf.Length
    requires buf[..len] == done + Zeros(len - |done|)
    ensures now == done + Zeros(n) && buf[..len] == now + Zeros(len - |now|)
  {
    now := done + Zeros(n);
    ZerosSplit(len - |done|, n);
  }

  method WriteIpv4(buf: array<byte>, len: nat, c: Config, id: u16, p: IpPair)
    requires c.Valid() && p.Valid() && p.V4?
    requires ETH_HLEN + IPV4_HLEN <= len <= buf.Length && len - ETH_HLEN <= U16_MAX
    requires buf[..len] == EthHeader(c, IPv4) + Zeros(len - ETH_HLEN)
    modifies buf
    ensures var n := len - ETH_HLEN;
            buf[..len] == EthHeader(c, IPv4) + Ipv4Header(c, id, n, p, HeaderChecksum(c, id, n, p)) + Zeros(n - IPV4_HLEN)
    ensures buf[len..] == old(buf[len..])
  {
    hide WordSum, BE16, Splice, EthHeader, Ipv4Header, Zeros;
    WriteIpv4Fields(buf, len, c, id, p);
    ghost var e, n := EthHeader(c, IPv4), len - ETH_HLEN;
    ghost var h := Ipv4Header(c, id, n, p, 0);
    var header := buf[14..34];
    assert header == h by {
      assert header == buf[..len][14..34];
      MiddlePart(e, h, Zeros(n - IPV4_HLEN));
    }
    WordSumBound(header);
    var csum := ComputeInternetChecksum(header);
    PutBack(buf, len, e + h, 24, BE16(csum.value));
    Ipv4Patch(c, id, n, p, csum.value);
    SpliceAfter(e, h, 10, BE16(csum.value));
  }

  lemma Ipv4Patch(c: Config, id: u16, n: nat, p: IpPair, csum: u16)
    requires p.Valid() && p.V4?
    ensures Splice(Ipv4Header(c, id, n, p, 0), 10, BE16(csum)) == Ipv4Header(c, id, n, p, csum)
    ensures Ipv4Header(c, id, n, p, 0)[10] == 0 && Ipv4Header(c, id, n, p, 0)[11] == 0
  {
    var a := [0x45, 0] + BE16(n) + BE16(id) + BE16(0x4000) + [c.ttl, c.Proto()];
    assert Ipv4Header(c, id, n, p, 0) == a + BE16(0) + (p.src + p.dst);
    assert Ipv4Header(c, id, n, p, csum) == a + BE16(csum) + (p.src + p.dst);
  }

  method WriteIpv6(buf: array<byte>, len: nat, c: Config, p: IpPair)
    requires c.Valid() && p.Valid() && p.V6?
    requires ETH_HLEN + IPV6_HLEN <= len <= buf.Length && len - ETH_HLEN <= U16_MAX
    requires buf[..len] == EthHeader(c, IPv6) + Zeros(len - ETH_HLEN)
    modifies buf
    ensures var n := len - ETH_HLEN - IPV6_HLEN;
            buf[..len] == EthHeader(c, IPv6) + Ipv6Header(c, n, p) + Zeros(n)
    ensures buf[len..] == old(buf[len..])
  {
    hide BE16;
    ghost var d := EthHeader(c, IPv6);
    d := Field(buf, len, d, 14, [0x60]);
    d := Skip(buf, len, d, 3);
    d := Field(buf, len, d, 18, BE16(len - ETH_HLEN - IPV6_HLEN));
    d := Field(buf, len, d, 20, [c.Proto()]);
    d := Field(buf, len, d, 21, [c.ttl]);
    d := Field(buf, len, d, 22, p.src);
    d := Field(buf, len, d, 38, p.dst);
    assert d == EthHeader(c, IPv6) + Ipv6Header(c, len - ETH_HLEN - IPV6_HLEN, p);
  }

  /** `write_l4`: `pre` is everything up to the transport header. */
  method WriteL4(buf: array<byte>, len: nat, c: Config, id: u16, t: FiveTuple, p: IpPair, off: nat, ghost pre: seq<byte>)
    requires p.Valid() && off == |pre| && off + L4HeaderLen(c.l4) <= len <= buf.Length && len - off <= U16_MAX
    requires buf[..len] == pre + Zeros(len - off)
    modifies buf
    ensures var n := len - off;
            buf[..len] == pre + Segment(c.l4, id, n, t, SegmentChecksum(c, id, n, t, p))
    ensures buf[len..] == old(buf[len..])
  {
    hide BE16, ToBytes, TransportChecksum, L4Header, Splice, Zeros;
    var n := len - off;
    if c.l4.Udp? {
      WriteUdpFields(buf, len, id, t, off, pre);
    } else {
      WriteTcpFields(buf, len, id, t, off, pre);
    }
    ghost var h := L4Header(c.l4, id, n, t, 0);
    var segment := buf[off..len];
    assert segment == Segment(c.l4, id, n, t, 0) by {
      assert segment == buf[..len][off..len];
      MiddlePart(pre, h + Zeros(n - L4HeaderLen(c.l4)), []);
    }
    var csum := L4Checksum(p, c.Proto(), segment);
    if c.l4.Udp? && csum == 0 { csum := 0xFFFF; }
    var at := ChecksumOffset(c.l4);
    PutBack(buf, len, pre + h, off + at, BE16(csum));
    L4Patch(c.l4, id, n, t, csum);
    SpliceAfter(pre, h, at, BE16(csum));
  }

  lemma MiddlePart(a: seq<byte>, b: seq<byte>, c: seq<byte>)
    ensures (a + b + c)[|a|..|a| + |b|] == b
  {}

  lemma SpliceAfter(a: seq<byte>, b: seq<byte>, off: nat, bytes: seq<byte>)
    requires off + |bytes| <= |b|
    ensures Splice(a + b, |a| + off, bytes) == a + Splice(b, off, bytes)
  {}

  function ChecksumOffset(l4: L4Proto): nat { if l4.Udp? then 6 else 16 }

  lemma L4Patch(l4: L4Proto, id: u16, n: nat, t: FiveTuple, csum: u16)
    ensures var h, at := L4Header(l4, id, n, t, 0), ChecksumOffset(l4);
            && Splice(h, at, BE16(csum)) == L4Header(l4, id, n, t, csum)
            && h[at] == 0 && h[at + 1] == 0
  {
    hide ToBytes;
    var ports := BE16(t.srcPort) + BE16(t.dstPort);
    if l4.Udp? {
      assert L4Header(l4, id, n, t, csum) == (ports + BE16(n)) + BE16(csum);
      assert L4Header(l4, id, n, t, 0) == (ports + BE16(n)) + BE16(0);
    } else {
      var a := ports + ToBytes(id, 4) + Zeros(4) + [0x50, 0x02] + BE16(64240);
      assert L4Header(l4, id, n, t, csum) == a + BE16(csum) + Zeros(2);
      assert L4Header(l4, id, n, t, 0) == a + BE16(0) + Zeros(2);
    }
  }

  method WriteUdpFields(buf: array<byte>, len: nat, id: u16, t: FiveTuple, off: nat, ghost pre: seq<byte>)
    requires off == |pre| && off + UDP_HLEN <= len <= buf.Length
    requires buf[..len] == pre + Zeros(len - off)
    modifies buf
    ensures buf[..len] == pre + L4Header(Udp, id, len - off, t, 0) + Zeros(len - off - UDP_HLEN)
    ensures buf[len..] == old(buf[len..])
  {
    hide BE16;
    ghost var d := Field(buf, len, pre, off, BE16(t.srcPort));
    d := Field(buf, len, d, off + 2, BE16(t.dstPort));
    d := Field(buf, len, d, off + 4, BE16(len - off));
    d := Skip(buf, len, d, 2);
    ZeroField();
    assert d == pre + L4Header(Udp, id, len - off, t, 0);
  }

  method WriteTcpFields(buf: array<byte>, len: nat, id: u16, t: FiveTuple, off: nat, ghost pre: seq<byte>)
    requires off == |pre| && off + TCP_HLEN <= len <= buf.Length
    requires buf[..len] == pre + Zeros(len - off)
    modifies buf
    ensures buf[..len] == pre + L4Header(TcpSyn, id, len - off, t, 0) + Zeros(len - off - TCP_HLEN)
    ensures buf[len..] == old(buf[len..])
  {
    hide BE16, ToBytes;
    ghost var d := Field(buf, len, pre, off, BE16(t.srcPort));
    d := Field(buf, len, d, off + 2, BE16(t.dstPort));
    d := Field(buf, len, d, off + 4, ToBytes(id, 4));
    d := Skip(buf, len, d, 4);
    d := Field(buf, len, d, off + 12, [0x50, 0x02]);
    d := Field(buf, len, d, off + 14, BE16(64240));
    d := Skip(buf, len, d, 4);
    ZeroField();
    assert Zeros(4) == Zeros(2) + Zeros(2);
    assert d == pre + L4Header(TcpSyn, id, len - off, t, 0);
  }

  // ---------------------------------------------------------------- the builder

  datatype PortRange = PortRange(lo: u16, hi: u16)

  // `gen_range` draws some port of a non-trivial range.
  function SamplePort(range: PortRange, drawn: u16): (p: u16)
    requires range.lo <= drawn <= range.hi
    ensures range.lo <= p <= range.hi && p == drawn
  {
    if range.lo == range.hi then range.lo else drawn
  }

  lemma {:induction false} Pow256IsPow2(n: nat)
    ensures Pow256(n) == Pow2(8 * n)
  {
    if n == 0 {
    } else {
      Pow256IsPow2(n - 1);
      Pow2Add(8, 8 * (n - 1));
      Pow2Widths();
    }
  }

  lemma SampleFits(subnet: Subnet, random: nat)
    requires subnet.Valid()
    ensures SampleAddr(subnet, random) < Pow256(Octets(subnet.version))
  {
    SampleInPrefix(subnet, random);
    Pow256IsPow2(Octets(subnet.version));
  }

  class PacketBuilder {
    const config: Config
    const src: Subnet
    const dst: Subnet
    const srcPorts: PortRange
    const dstPorts: PortRange
    var ipId: u16

    predicate Valid() {
      && config.Valid() && src.Valid() && dst.Valid() && src.version == dst.version
      && srcPorts.lo <= srcPorts.hi && dstPorts.lo <= dstPorts.hi
      && Refusal(config, src.version).None?
    }

    constructor (config: Config, src: Subnet, dst: Subnet, srcPorts: PortRange, dstPorts: PortRange)
      requires config.Valid() && src.Valid() && dst.Valid() && src.version == dst.version
      requires srcPorts.lo <= srcPorts.hi && dstPorts.lo <= dstPorts.hi
      requires Refusal(config, src.version).None?
      ensures Valid() && ipId == 0 && this.config == config && this.src == src && this.dst == dst
      ensures this.srcPorts == srcPorts && this.dstPorts == dstPorts
    {
      this.config, this.src, this.dst := config, src, dst;
      this.srcPorts, this.dstPorts := srcPorts, dstPorts;
      ipId := 0;
    }

    // The 5-tuple drawn from the random words.
    function Tuple(srcWord: nat, dstWord: nat, srcPort: u16, dstPort: u16): FiveTuple
      requires srcPorts.lo <= srcPort <= srcPorts.hi && dstPorts.lo <= dstPort <= dstPorts.hi
    {
      FiveTuple(SampleAddr(src, srcWord), SampleAddr(dst, dstWord),
                SamplePort(srcPorts, srcPort), SamplePort(dstPorts, dstPort))
    }

    /** `next`: a short buffer is refused and nothing changes; otherwise the
        first `frameSize` bytes become the frame whatever they held, the rest
        of the buffer is kept, and the identification counter wraps. */
    method Next(buf: array<byte>, srcWord: nat, dstWord: nat, srcPort: u16, dstPort: u16) returns (r: Result<nat, Error>)
      requires Valid()
      requires srcPorts.lo <= srcPort <= srcPorts.hi && dstPorts.lo <= dstPort <= dstPorts.hi
      modifies buf, this`ipId
      ensures buf.Length < config.frameSize ==>
        && r == Err(BufferTooSmall(config.frameSize, buf.Length))
        && ipId == old(ipId) && buf[..] == old(buf[..])
      ensures buf.Length >= config.frameSize ==>
        && r == Ok(config.frameSize)
        && ipId == (old(ipId) + 1) % 0x1_0000
        && buf[..config.frameSize] == Frame(config, src.version, ipId, Tuple(srcWord, dstWord, srcPort, dstPort))
        && buf[config.frameSize..] == old(buf[config.frameSize..])
      ensures buf.Length >= config.frameSize ==>
        var t := Tuple(srcWord, dstWord, srcPort, dstPort);
        && ParseFrame(buf[..config.frameSize]) == Some(Received(config, src.version, ipId, t))
        && src.Contains(t.src) && dst.Contains(t.dst)
        && srcPorts.lo <= t.srcPort <= srcPorts.hi && dstPorts.lo <= t.dstPort <= dstPorts.hi
    {
      hide ParseFrame, Subnet.Contains, Received;
      hide BE16, ToBytes, SampleAddr, Segment, SegmentChecksum, HeaderChecksum, Ipv4Header, Ipv6Header, EthHeader;
      var len := config.frameSize;
      if buf.Length < len { return Err(BufferTooSmall(len, buf.Length)); }
      var t := Tuple(srcWord, dstWord, srcPort, dstPort);
      var v := src.version;
      var p := Pair(v, t);
      ipId := (ipId + 1) % 0x1_0000;
      Clear(buf, len);
      WriteEth(buf, len, config, v);
      if v.IPv4? {
        WriteIpv4(buf, len, config, ipId, p);
      } else {
        WriteIpv6(buf, len, config, p);
      }
      ghost var pre := EthHeader(config, v) + IpHeader(config, v, ipId, t);
      WriteL4(buf, len, config, ipId, t, p, ETH_HLEN + IpHeaderLen(v), pre);
      SampledFrameParses(ipId, srcWord, dstWord, srcPort, dstPort);
      r := Ok(len);
    }

    // A receiver of the frame for the drawn words recovers what was drawn.
    lemma SampledFrameParses(id: u16, srcWord: nat, dstWord: nat, srcPort: u16, dstPort: u16)
      requires Valid()
      requires srcPorts.lo <= srcPort <= srcPorts.hi && dstPorts.lo <= dstPort <= dstPorts.hi
      ensures var t := Tuple(srcWord, dstWord, srcPort, dstPort);
        && ParseFrame(Frame(config, src.version, id, t)) == Some(Received(config, src.version, id, t))
        && src.Contains(t.src) && dst.Contains(t.dst)
    {
      hide ParseFrame, Frame, SampleAddr, Received;
      SampleInPrefix(src, srcWord);
      SampleInPrefix(dst, dstWord);
      SampleFits(src, srcWord);
      SampleFits(dst, dstWord);
      FrameParses(config, src.version, id, Tuple(srcWord, dstWord, srcPort, dstPort));
    }
  }

  /** The sampler's checks, then the builder's: subnets of one family, ordered
      port ranges, and a frame that holds its headers and fits a length field. */
  method NewBuilder(config: Config, src: Subnet, dst: Subnet, srcPorts: PortRange, dstPorts: PortRange)
    returns (r: Result<PacketBuilder, Error>)
    requires config.Valid() && src.Valid() && dst.Valid()
    ensures r == Err(InvalidConfig) <==>
            src.version != dst.version || srcPorts.lo > srcPorts.hi || dstPorts.lo > dstPorts.hi
    ensures r != Err(InvalidConfig) ==>
            var least := 14 + (if src.version.IPv4? then 20 else 40) + (if config.l4.Udp? then 8 else 20);
            && (r == Err(PacketTooSmall(config.frameSize)) <==> config.frameSize < least)
            && (r == Err(PacketTooLarge(config.frameSize)) <==> config.frameSize > 14 + 65535)
            && (r.Ok? <==> least <= config.frameSize <= 14 + 65535)
    ensures r.Ok? ==> fresh(r.value) && r.value.Valid() && r.value.ipId == 0 && r.value.config == config
    ensures r.Ok? ==> r.value.src == src && r.value.dst == dst
    ensures r.Ok? ==> r.value.srcPorts == srcPorts && r.value.dstPorts == dstPorts
  {
    if src.version != dst.version { return Err(InvalidConfig); }
    if srcPorts.lo > srcPorts.hi || dstPorts.lo > dstPorts.hi { return Err(InvalidConfig); }
    var refusal := Refusal(config, src.version);
    if refusal.Some? { return Err(refusal.value); }
    var builder := new PacketBuilder(config, src, dst, srcPorts, dstPorts);
    return Ok(builder);
  }

  method Clear(buf: array<byte>, len: nat)
    requires len <= buf.Length
    modifies buf
    ensures buf[..len] == Zeros(len) && buf[len..] == old(buf[len..])
  {
    for i := 0 to len
      invariant forall k :: 0 <= k < i ==> buf[k] == 0
      invariant buf[len..] == old(buf[len..])
    {
      buf[i] := 0;
    }
  }

  // ------------------------------------------------------- reading a frame back

  datatype Transport =
    | UdpSegment(srcPort: u16, dstPort: u16, payload: seq<byte>)
    | SynSegment(srcPort: u16, dstPort: u16, sequence: nat, acknowledgement: nat, window: u16, urgent: u16,
                 payload: seq<byte>)

  datatype Packet = Packet(ttl: byte, ident: Option<u16>, pair: IpPair, transport: Transport)

  datatype Parsed = Parsed(
    dstMac: seq<byte>, srcMac: seq<byte>, version: IpVersion, ident: Option<u16>, ttl: byte,
    src: nat, dst: nat, transport: Transport)

  // Transport layer, by the numbers of the standards: protocol known, checksum
  // over the serialised pseudo-header verifies, header self-consistent.
  function ParseL4(pair: IpPair, proto: byte, seg: seq<byte>): Option<Transport> {
    if InternetChecksum(PseudoHeader(pair, proto, |seg|) + seg) != 0 then None
    else if proto == 17 && |seg| >= 8 && Word(seg[4], seg[5]) == |seg| && Word(seg[6], seg[7]) != 0 then
      Some(UdpSegment(Word(seg[0], seg[1]), Word(seg[2], seg[3]), seg[8..]))
    else if proto == 6 && |seg| >= 20 && seg[12] == 0x50 && seg[13] == 0x02 then
      Some(SynSegment(Word(seg[0], seg[1]), Word(seg[2], seg[3]), FromBytes(seg[4..8]), FromBytes(seg[8..12]),
                      Word(seg[14], seg[15]), Word(seg[18], seg[19]), seg[20..]))
    else None
  }

  // A plain IPv4 header: no options, default service, Don't Fragment and no
  // fragment offset.
  function ParseIpv4(ip: seq<byte>): Option<Packet> {
    if |ip| < 20 || ip[0] != 0x45 || ip[1] != 0 || Word(ip[2], ip[3]) != |ip| then None
    else if Word(ip[6], ip[7]) != 0x4000 || InternetChecksum(ip[..20]) != 0 then None
    else
      var pair := V4(ip[12..16], ip[16..20]);
      var transport :- ParseL4(pair, ip[9], ip[20..]);
      Some(Packet(ip[8], Some(Word(ip[4], ip[5])), pair, transport))
  }

  // No traffic class or flow label, and no extension header.
  function ParseIpv6(ip: seq<byte>): Option<Packet> {
    if |ip| < 40 || ip[..4] != [0x60, 0, 0, 0] || Word(ip[4], ip[5]) != |ip| - 40 then None
    else
      var pair := V6(ip[8..24], ip[24..40]);
      var transport :- ParseL4(pair, ip[6], ip[40..]);
      Some(Packet(ip[7], None, pair, transport))
  }

  /** A receiver: ethertype, version, lengths, flags and both checksums must
      agree. */
  function ParseFrame(f: seq<byte>): Option<Parsed> {
    if |f| < 14 then None
    else
      var ethertype := Word(f[12], f[13]);
      var v := if ethertype == 0x0800 then IPv4 else IPv6;
      if ethertype != 0x0800 && ethertype != 0x86DD then None
      else
        var p :- if v.IPv4? then ParseIpv4(f[14..]) else ParseIpv6(f[14..]);
        Some(Parsed(f[0..6], f[6..12], v, p.ident, p.ttl, FromBytes(p.pair.src), FromBytes(p.pair.dst), p.transport))
  }

  // What a receiver must see of the frame with identification id.
  function Received(c: Config, v: IpVersion, id: u16, t: FiveTuple): Parsed
    requires Refusal(c, v).None?
  {
    Parsed(c.dstMac, c.srcMac, v, if v.IPv4? then Some(id) else None, c.ttl, t.src, t.dst,
           ReceivedSegment(c.l4, id, t, c.frameSize - 14 - (if v.IPv4? then 20 else 40)))
  }

  // The TCP sequence number is the identification again.
  function ReceivedSegment(l4: L4Proto, id: u16, t: FiveTuple, n: nat): Transport
    requires n >= L4HeaderLen(l4)
  {
    if l4.Udp? then UdpSegment(t.srcPort, t.dstPort, Zeros(n - 8))
    else SynSegment(t.srcPort, t.dstPort, id, 0, 64240, 0, Zeros(n - 20))
  }

  lemma Ipv4HeaderVerifies(c: Config, id: u16, n: nat, p: IpPair)
    requires p.Valid() && p.V4?
    ensures InternetChecksum(Ipv4Header(c, id, n, p, HeaderChecksum(c, id, n, p))) == 0
  {
    hide WordSum, Ipv4Header, BE16;
    var h := Ipv4Header(c, id, n, p, 0);
    var csum := HeaderChecksum(c, id, n, p);
    Ipv4Patch(c, id, n, p, csum);
    WordSumPatch(h, 10, csum);
    ChecksumVerifies(WordSum(h));
  }

  lemma SegmentVerifies(c: Config, id: u16, n: nat, t: FiveTuple, p: IpPair)
    requires p.Valid() && L4HeaderLen(c.l4) <= n <= U16_MAX
    ensures var seg := Segment(c.l4, id, n, t, SegmentChecksum(c, id, n, t, p));
            InternetChecksum(PseudoHeader(p, c.Proto(), n) + seg) == 0
  {
    hide WordSum, L4Header, BE16, PseudoHeader;
    var at := ChecksumOffset(c.l4);
    var seg0 := Segment(c.l4, id, n, t, 0);
    var csum := SegmentChecksum(c, id, n, t, p);
    var seg := Segment(c.l4, id, n, t, csum);
    L4Patch(c.l4, id, n, t, csum);
    assert seg == Splice(seg0, at, BE16(csum));
    WordSumPatch(seg0, at, csum);
    ChecksumVerifies(TransportSum(p, c.Proto(), seg0));
    PseudoHeaderAgrees(p, c.Proto(), seg);
  }

  lemma SegmentParses(c: Config, id: u16, n: nat, t: FiveTuple, p: IpPair)
    requires p.Valid() && L4HeaderLen(c.l4) <= n <= U16_MAX
    ensures var seg := Segment(c.l4, id, n, t, SegmentChecksum(c, id, n, t, p));
            ParseL4(p, c.Proto(), seg) == Some(ReceivedSegment(c.l4, id, t, n))
  {
    hide InternetChecksum, PseudoHeader, SegmentChecksum, L4Header, FromBytes;
    var csum := SegmentChecksum(c, id, n, t, p);
    var seg, h := Segment(c.l4, id, n, t, csum), L4Header(c.l4, id, n, t, csum);
    SegmentVerifies(c, id, n, t, p);
    assert seg[..L4HeaderLen(c.l4)] == h;
    assert seg[L4HeaderLen(c.l4)..] == Zeros(n - L4HeaderLen(c.l4));
    if c.l4.Udp? {
      UdpNonZero(c, id, n, t, p);
      UdpFields(id, n, t, csum);
    } else {
      TcpFields(id, n, t, csum);
      assert seg[4..8] == h[4..8] && seg[8..12] == h[8..12];
    }
  }

  lemma UdpFields(id: u16, n: nat, t: FiveTuple, csum: u16)
    requires n <= U16_MAX
    ensures var h := L4Header(Udp, id, n, t, csum);
            && Word(h[0], h[1]) == t.srcPort && Word(h[2], h[3]) == t.dstPort
            && Word(h[4], h[5]) == n && Word(h[6], h[7]) == csum
  {
    WordOfField(t.srcPort);
    WordOfField(t.dstPort);
    WordOfField(n);
    WordOfField(csum);
  }

  lemma TcpFields(id: u16, n: nat, t: FiveTuple, csum: u16)
    ensures var h := L4Header(TcpSyn, id, n, t, csum);
            && Word(h[0], h[1]) == t.srcPort && Word(h[2], h[3]) == t.dstPort
            && FromBytes(h[4..8]) == id && FromBytes(h[8..12]) == 0
            && h[12] == 0x50 && h[13] == 0x02
            && Word(h[14], h[15]) == 64240 && Word(h[18], h[19]) == 0
  {
    hide ToBytes, FromBytes;
    var h := L4Header(TcpSyn, id, n, t, csum);
    WordOfField(t.srcPort);
    WordOfField(t.dstPort);
    WordOfField(64240);
    assert h[4..8] == ToBytes(id, 4) && h[8..12] == Zeros(4);
    WordFitsFour(id);
    ZeroBytes(4);
  }

  lemma {:induction false} WordFitsFour(id: u16)
    ensures FromBytes(ToBytes(id, 4)) == id
  {
    hide ToBytes, FromBytes;
    assert Pow256(4) == 256 * Pow256(3) && Pow256(3) == 256 * Pow256(2) && Pow256(2) == 65536;
    BytesRoundTrip(id, 4);
  }

  lemma {:induction false} ZeroBytes(n: nat)
    ensures FromBytes(Zeros(n)) == 0
  {
    if n == 0 {
    } else {
      assert Zeros(n)[..n - 1] == Zeros(n - 1);
      ZeroBytes(n - 1);
    }
  }

  lemma UdpNonZero(c: Config, id: u16, n: nat, t: FiveTuple, p: IpPair)
    requires L4HeaderLen(c.l4) <= n && c.l4.Udp?
    ensures SegmentChecksum(c, id, n, t, p) != 0
  {}

  lemma WordOfField(x: nat)
    requires x <= U16_MAX
    ensures Word(BE16(x)[0], BE16(x)[1]) == x
  {}

  /** Round trip, for every frame size the builder accepts, both IP versions and
      both transport shapes: a receiver that checks every length, flag and
      checksum recovers the addresses, ports, protocol, MACs, TTL, identification
      and TCP fields, and finds an all-zero payload. */
  lemma FrameParses(c: Config, v: IpVersion, id: u16, t: FiveTuple)
    requires c.Valid() && Refusal(c, v).None? && t.Fits(v)
    ensures ParseFrame(Frame(c, v, id, t)) == Some(Received(c, v, id, t))
  {
    hide FullSegment, IpHeader, ParseIpv4, ParseIpv6, EthHeader, Pair, ReceivedSegment, FromBytes;
    var ip := IpHeader(c, v, id, t) + FullSegment(c, v, id, t);
    var f := EthHeader(c, v) + ip;
    assert Frame(c, v, id, t) == f;
    assert f[14..] == ip;
    EthParses(c, v, f, ip);
    IpParses(c, v, id, t);
    PairRoundTrip(v, t);
  }

  lemma PairRoundTrip(v: IpVersion, t: FiveTuple)
    requires t.Fits(v)
    ensures FromBytes(Pair(v, t).src) == t.src && FromBytes(Pair(v, t).dst) == t.dst
  {
    BytesRoundTrip(t.src, Octets(v));
    BytesRoundTrip(t.dst, Octets(v));
  }

  lemma IpParses(c: Config, v: IpVersion, id: u16, t: FiveTuple)
    requires c.Valid() && Refusal(c, v).None?
    ensures var ip := IpHeader(c, v, id, t) + FullSegment(c, v, id, t);
            var n := c.frameSize - 14 - (if v.IPv4? then 20 else 40);
            (if v.IPv4? then ParseIpv4(ip) else ParseIpv6(ip)) ==
            Some(Packet(c.ttl, if v.IPv4? then Some(id) else None, Pair(v, t), ReceivedSegment(c.l4, id, t, n)))
  {
    hide Segment, SegmentChecksum, ParseL4, ParseIpv4, ParseIpv6, ToBytes, HeaderChecksum, Ipv4Header, Ipv6Header;
    hide ReceivedSegment;
    var n := c.frameSize - ETH_HLEN - IpHeaderLen(v);
    SegmentParses(c, id, n, t, Pair(v, t));
    if v.IPv4? {
      Ipv4Parses(c, id, n + IPV4_HLEN, Pair(v, t), FullSegment(c, v, id, t));
    } else {
      Ipv6Parses(c, n, Pair(v, t), FullSegment(c, v, id, t));
    }
  }

  lemma EthParses(c: Config, v: IpVersion, f: seq<byte>, rest: seq<byte>)
    requires c.Valid() && f == EthHeader(c, v) + rest
    ensures f[0..6] == c.dstMac && f[6..12] == c.srcMac
    ensures Word(f[12], f[13]) == if v.IPv4? then 0x0800 else 0x86DD
  {}

  lemma Ipv4Parses(c: Config, id: u16, n: nat, p: IpPair, seg: seq<byte>)
    requires p.Valid() && p.V4? && n == IPV4_HLEN + |seg| <= U16_MAX
    requires ParseL4(p, c.Proto(), seg).Some?
    ensures var ip := Ipv4Header(c, id, n, p, HeaderChecksum(c, id, n, p)) + seg;
            ParseIpv4(ip) == Some(Packet(c.ttl, Some(id), p, ParseL4(p, c.Proto(), seg).value))
  {
    Ipv4HeaderVerifies(c, id, n, p);
    hide InternetChecksum, HeaderChecksum, ParseL4;
    var h := Ipv4Header(c, id, n, p, HeaderChecksum(c, id, n, p));
    var ip := h + seg;
    assert ip[..IPV4_HLEN] == h && ip[IPV4_HLEN..] == seg;
    WordOfField(n);
    WordOfField(id);
    WordOfField(0x4000);
    assert ip[12..16] == p.src && ip[16..20] == p.dst;
  }

  lemma Ipv6Parses(c: Config, n: nat, p: IpPair, seg: seq<byte>)
    requires p.Valid() && p.V6? && n == |seg| <= U16_MAX
    requires ParseL4(p, c.Proto(), seg).Some?
    ensures ParseIpv6(Ipv6Header(c, n, p) + seg) == Some(Packet(c.ttl, None, p, ParseL4(p, c.Proto(), seg).value))
  {
    hide ParseL4;
    var h := Ipv6Header(c, n, p);
    var ip := h + seg;
    assert ip[..4] == [0x60, 0, 0, 0] && ip[IPV6_HLEN..] == seg;
    WordOfField(n);
    assert ip[8..24] == p.src && ip[24..40] == p.dst;
  }
}
