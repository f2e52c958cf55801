/** Big-endian bytes and the Internet checksum (bench/src/traffic_gen.rs;
    RFC 1071, RFC 768, section 8.1 of RFC 8200). */
module Checksum {
  import opened Bits
  import opened Options

  type byte = x: int | 0 <= x < 256

  // ----------------------------------------------------------- big-endian bytes

  function Pow256(n: nat): (r: nat)
    ensures r > 0
  {
    if n == 0 then 1 else 256 * Pow256(n - 1)
  }

  // The n low-order bytes of x, most significant first.
  function ToBytes(x: nat, n: nat): (r: seq<byte>)
    ensures |r| == n
  {
    if n == 0 then [] else ToBytes(x / 256, n - 1) + [x % 256]
  }

  function FromBytes(s: seq<byte>): nat {
    if s == [] then 0 else FromBytes(s[..|s| - 1]) * 256 + s[|s| - 1]
  }

  lemma {:induction false} BytesRoundTrip(x: nat, n: nat)
    requires x < Pow256(n)
    ensures FromBytes(ToBytes(x, n)) == x
  {
    if n == 0 {
    } else {
      BytesRoundTrip(x / 256, n - 1);
      assert ToBytes(x, n)[..n - 1] == ToBytes(x / 256, n - 1);
    }
  }

  function Zeros(n: nat): (r: seq<byte>)
    ensures |r| == n && forall i :: 0 <= i < n ==> r[i] == 0
  {
    seq(n, _ => 0)
  }

  function BE16(x: nat): (r: seq<byte>)
    ensures |r| == 2
  {
    [x / 256 % 256, x % 256]
  }

  function Word(hi: byte, lo: byte): u16 { hi * 256 + lo }

  // -------------------------------------------------------------- word sums

  // Sum of the big-endian 16-bit words; an odd last byte is a high byte.
  function WordSum(data: seq<byte>): nat {
    if |data| == 0 then 0
    else if |data| == 1 then data[0] * 256
    else Word(data[0], data[1]) + WordSum(data[2..])
  }

  lemma {:induction false} WordSumConcat(a: seq<byte>, b: seq<byte>)
    requires |a| % 2 == 0
    ensures WordSum(a + b) == WordSum(a) + WordSum(b)
  {
    if a == [] {
      assert a + b == b;
    } else {
      assert (a + b)[2..] == a[2..] + b;
      WordSumConcat(a[2..], b);
    }
  }

  lemma WordSumOne(a: byte, b: byte)
    ensures WordSum([a, b]) == Word(a, b)
  {
    assert [a, b][2..] == [];
  }

  lemma WordSumField(x: nat)
    ensures WordSum(BE16(x)) == x % 65536
  {
    WordSumOne(x / 256 % 256, x % 256);
  }

  lemma {:induction false} WordSumBound(data: seq<byte>)
    ensures WordSum(data) <= (|data| + 1) / 2 * 65535
  {
    if |data| >= 2 { WordSumBound(data[2..]); }
  }

  /** An odd last byte counts as if a zero byte followed it (RFC 1071). */
  lemma {:induction false} OddIsPadded(data: seq<byte>)
    requires |data| % 2 == 1
    ensures WordSum(data) == WordSum(data + [0])
  {
    var n := |data| - 1;
    assert data == data[..n] + [data[n]] && data + [0] == data[..n] + [data[n], 0];
    WordSumConcat(data[..n], [data[n]]);
    WordSumConcat(data[..n], [data[n], 0]);
    WordSumOne(data[n], 0);
  }

  /** Summing the 16-bit words is reading the bytes as one big-endian number,
      modulo 65535. */
  lemma {:induction false} WordSumIsNumber(data: seq<byte>)
    requires |data| % 2 == 0
    ensures WordSum(data) % 65535 == FromBytes(data) % 65535
  {
    if data == [] {
    } else {
      var n := |data| - 2;
      var head, hi, lo := data[..n], data[n], data[n + 1];
      WordSumIsNumber(head);
      assert data == head + [hi, lo];
      WordSumConcat(head, [hi, lo]);
      WordSumOne(hi, lo);
      assert data[..n + 1][..n] == head;
      assert FromBytes(data) == FromBytes(head) * 65536 + Word(hi, lo);
      AddWord(FromBytes(head), WordSum(head), Word(hi, lo));
    }
  }

  lemma AddWord(a: nat, b: nat, w: nat)
    requires a % 65535 == b % 65535
    ensures (a * 65536 + w) % 65535 == (b + w) % 65535
  {
    assert a * 65536 + w == 65535 * a + (a + w);
    assert (a * 65536 + w) % 65535 == (a + w) % 65535;
  }

  /** The source's chunk loop. None where a 32-bit addition overflows. */
  method Accumulate(start: u32, data: seq<byte>) returns (sum: Option<u32>)
    ensures sum == if start + WordSum(data) <= U32_MAX then Some(start + WordSum(data)) else None
  {
    var acc: nat := start;
    var i := 0;
    assert data[0..] == data;
    while i + 1 < |data|
      invariant 0 <= i <= |data| && acc <= U32_MAX
      invariant acc + WordSum(data[i..]) == start + WordSum(data)
    {
      assert data[i..][2..] == data[i + 2..];
      acc := acc + Word(data[i], data[i + 1]);
      if acc > U32_MAX { return None; }
      i := i + 2;
    }
    if i < |data| { acc := acc + 256 * (data[i] as int); }
    return if acc > U32_MAX then None else Some(acc);
  }

  /** The one's-complement value of a sum: its residue modulo 65535, where a
      non-zero multiple of 65535 is represented by 65535. */
  function OnesValue(sum: nat): (r: u16) {
    if sum == 0 then 0 else if sum % 65535 == 0 then 65535 else sum % 65535
  }

  /** End-around-carry folding terminates, preserves the sum modulo 65535 and
      keeps zero apart from the other multiples; the result is complemented. */
  method FoldChecksum(start: u32) returns (c: u16)
    ensures c == 65535 - OnesValue(start)
  {
    var sum := start;
    while sum / 65536 != 0
      invariant 0 <= sum <= start
      invariant sum == 0 <==> start == 0
      invariant sum % 65535 == start % 65535
      decreases sum
    {
      CarryKeepsResidue(sum);
      sum := sum % 65536 + sum / 65536;
    }
    c := 65535 - sum;
  }

  lemma CarryKeepsResidue(sum: nat)
    ensures (sum % 65536 + sum / 65536) % 65535 == sum % 65535
  {
    var q, r := sum / 65536, sum % 65536;
    assert sum == 65535 * q + (q + r);
  }

  function ChecksumOf(sum: nat): u16 { 65535 - OnesValue(sum) }

  function InternetChecksum(data: seq<byte>): u16 { ChecksumOf(WordSum(data)) }

  method ComputeInternetChecksum(data: seq<byte>) returns (c: Option<u16>)
    ensures c == if WordSum(data) <= U32_MAX then Some(InternetChecksum(data)) else None
  {
    var sum :- Accumulate(0, data);
    var folded := FoldChecksum(sum);
    return Some(folded);
  }

  /** Adding the checksum, or UDP's all-ones in place of zero, makes any sum
      verify: the checksum of the result is zero. */
  lemma ChecksumVerifies(sum: nat)
    ensures ChecksumOf(sum + ChecksumOf(sum)) == 0
    ensures ChecksumOf(sum) == 0 ==> ChecksumOf(sum + 65535) == 0
  {
    var c := ChecksumOf(sum);
    if sum > 0 {
      var q := sum / 65535;
      assert sum == 65535 * q + sum % 65535;
      assert sum + c == if sum % 65535 == 0 then 65535 * q else 65535 * (q + 1);
    }
  }

  // Overwrites bytes in a sequence.
  function Splice(s: seq<byte>, off: nat, bytes: seq<byte>): (r: seq<byte>)
    requires off + |bytes| <= |s|
    ensures |r| == |s|
  {
    s[..off] + bytes + s[off + |bytes|..]
  }

  /** Filling a zero 16-bit field at an even offset adds its value to the sum. */
  lemma {:induction false} WordSumPatch(data: seq<byte>, off: nat, x: u16)
    requires off % 2 == 0 && off + 2 <= |data| && data[off] == 0 && data[off + 1] == 0
    ensures WordSum(Splice(data, off, BE16(x))) == WordSum(data) + x
  {
    hide WordSum, BE16, Splice;
    var a, b := data[..off], data[off + 2..];
    SplitField(data, off);
    assert Splice(data, off, BE16(x)) == a + (BE16(x) + b) by { SpliceShape(data, off, BE16(x)); }
    SumAround(a, [data[off], data[off + 1]], b);
    SumAround(a, BE16(x), b);
    WordSumOne(0, 0);
    WordSumField(x);
  }

  lemma {:induction false} SumAround(a: seq<byte>, f: seq<byte>, b: seq<byte>)
    requires |a| % 2 == 0 && |f| == 2
    ensures WordSum(a + (f + b)) == WordSum(a) + WordSum(f) + WordSum(b)
  {
    hide WordSum;
    WordSumConcat(a, f + b);
    WordSumConcat(f, b);
  }

  lemma SplitField(data: seq<byte>, off: nat)
    requires off + 2 <= |data|
    ensures data == data[..off] + ([data[off], data[off + 1]] + data[off + 2..])
  {}

  lemma SpliceShape(data: seq<byte>, off: nat, f: seq<byte>)
    requires off + |f| <= |data|
    ensures Splice(data, off, f) == data[..off] + (f + data[off + |f|..])
  {}

  // ------------------------------------------------------------ pseudo-headers

  /** Source and destination octets under the transport checksum. */
  datatype IpPair = V4(src: seq<byte>, dst: seq<byte>) | V6(src: seq<byte>, dst: seq<byte>) {
    predicate Valid() {
      && (V4? ==> |src| == 4 && |dst| == 4)
      && (V6? ==> |src| == 16 && |dst| == 16)
    }
  }

  // The sum the source forms: addresses, then length and protocol added as
  // plain integers, then the segment.
  function TransportSum(ip: IpPair, proto: byte, segment: seq<byte>): nat {
    WordSum(ip.src) + WordSum(ip.dst) + proto + |segment| + WordSum(segment)
  }

  function TransportChecksum(ip: IpPair, proto: byte, segment: seq<byte>): u16 {
    ChecksumOf(TransportSum(ip, proto, segment))
  }

  lemma TransportSumFits(ip: IpPair, proto: byte, segment: seq<byte>)
    requires ip.Valid() && |segment| <= 65535
    ensures TransportSum(ip, proto, segment) <= U32_MAX
  {
    WordSumBound(ip.src);
    WordSumBound(ip.dst);
    WordSumBound(segment);
  }

  /** `l4_checksum`: no 32-bit accumulation overflows for any segment a 16-bit
      length field can describe. */
  method L4Checksum(ip: IpPair, proto: byte, segment: seq<byte>) returns (c: u16)
    requires ip.Valid() && |segment| <= 65535
    ensures c == TransportChecksum(ip, proto, segment)
  {
    TransportSumFits(ip, proto, segment);
    var a := Accumulate(0, ip.src);
    var b := Accumulate(a.value, ip.dst);
    var sum := b.value + proto;
    sum := sum + |segment|;
    var total := Accumulate(sum, segment);
    c := FoldChecksum(total.value);
  }

  // The pseudo-header as the standards lay it out.
  function PseudoHeader(ip: IpPair, proto: byte, len: nat): seq<byte> {
    match ip
    case V4(src, dst) => src + dst + ([0, proto] + BE16(len))
    case V6(src, dst) => src + dst + (BE16(len / 65536) + BE16(len) + [0, 0, 0, proto])
  }

  /** Adding the length and protocol as integers gives the same checksum as
      serialising the pseudo-header of RFC 768 or section 8.1 of RFC 8200 in
      front of the segment and summing its 16-bit words. */
  lemma PseudoHeaderAgrees(ip: IpPair, proto: byte, segment: seq<byte>)
    requires ip.Valid() && proto > 0
    requires |segment| <= if ip.V4? then U16_MAX else U32_MAX
    ensures InternetChecksum(PseudoHeader(ip, proto, |segment|) + segment) == TransportChecksum(ip, proto, segment)
  {
    hide WordSum, BE16;
    var len := |segment|;
    var hi := len / 65536;
    var tail: seq<byte> := if ip.V4? then [0, proto] + BE16(len) else BE16(hi) + BE16(len) + [0, 0, 0, proto];
    WordSumConcat(PseudoHeader(ip, proto, len), segment);
    WordSumConcat(ip.src + ip.dst, tail);
    WordSumConcat(ip.src, ip.dst);
    TailSum(ip.V4?, proto, len);
    var sum := TransportSum(ip, proto, segment);
    if ip.V6? {
      assert WordSum(PseudoHeader(ip, proto, len) + segment) == sum - 65535 * hi;
      assert (sum - 65535 * hi) % 65535 == sum % 65535;
    }
  }

  lemma TailSum(v4: bool, proto: byte, len: nat)
    requires len <= if v4 then U16_MAX else U32_MAX
    ensures v4 ==> WordSum([0, proto] + BE16(len)) == proto + len
    ensures !v4 ==> WordSum(BE16(len / 65536) + BE16(len) + [0, 0, 0, proto]) == proto + len - 65535 * (len / 65536)
  {
    hide WordSum, BE16;
    var b := BE16(len);
    WordSumField(len);
    WordSumOne(0, proto);
    if v4 {
      WordSumConcat([0, proto], b);
    } else {
      var h := BE16(len / 65536);
      WordSumField(len / 65536);
      WordSumConcat(h + b, [0, 0, 0, proto]);
      WordSumConcat(h, b);
      assert [0, 0, 0, proto] == [0, 0] + [0, proto];
      WordSumConcat([0, 0], [0, proto]);
      WordSumOne(0, 0);
    }
  }
}
