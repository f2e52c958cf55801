/** The log-linear bucket layout of the latency histogram
    (bench/src/measurement.rs): the value-to-index map, its inverse, and the
    exact set of values whose index falls inside the pre-allocated counts. */
module HistogramLayout {
  import opened Bits

  /** The immutable part of a histogram. `unit_magnitude` is the constant zero. */
  datatype Layout = Layout(
    halfMagnitude: nat, halfCount: nat, mask: nat, subBucketCount: nat,
    leadingZeroBase: nat, digits: nat, highest: nat, countsLen: nat)
  {
    function Magnitude(): nat { halfMagnitude + 1 }

    // The sub-bucket fields agree with one another.
    predicate Shape() {
      && 4 <= halfMagnitude <= 17
      && halfCount == Pow2(halfMagnitude)
      && subBucketCount == 2 * halfCount
      && mask == subBucketCount - 1
      && leadingZeroBase == 64 - (halfMagnitude + 1)
    }

    predicate Valid() {
      && Shape()
      && 1 <= digits <= 5
      && Pow10(digits) <= halfCount
      && 2 <= highest <= U64_MAX
      && countsLen == ShiftLeft(Buckets(highest, halfMagnitude + 1) + 1, halfMagnitude)
    }

    // First value whose index would lie beyond the counts.
    function Limit(): nat {
      Pow2(halfMagnitude + Buckets(highest, halfMagnitude + 1))
    }

    // `highest` is `subBucketCount << k` for some k.
    ghost predicate OnEdge() {
      exists k: nat :: highest == ShiftLeft(subBucketCount, k)
    }
  }

  /** One plus the least k with `highest <= 2^(magnitude + k)`. */
  function Buckets(highest: nat, magnitude: nat): (b: nat)
    ensures b >= 1
  {
    if highest <= 1 || BitLength(highest - 1) <= magnitude then 1
    else 1 + BitLength(highest - 1) - magnitude
  }

  lemma {:induction false} BucketsLeast(highest: nat, magnitude: nat)
    requires highest >= 2
    ensures var b := Buckets(highest, magnitude);
            && highest <= Pow2(magnitude + b - 1)
            && (b > 1 ==> Pow2(magnitude + b - 2) < highest)
  {
    BitLengthBounds(highest - 1);
    if BitLength(highest - 1) <= magnitude {
      Pow2Monotone(BitLength(highest - 1), magnitude);
    }
  }

  lemma {:induction false} BucketsUnique(highest: nat, magnitude: nat, b: nat)
    requires highest >= 2 && b >= 1
    requires highest <= Pow2(magnitude + b - 1)
    requires b > 1 ==> Pow2(magnitude + b - 2) < highest
    ensures b == Buckets(highest, magnitude)
  {
    var c := Buckets(highest, magnitude);
    BucketsLeast(highest, magnitude);
    if b < c { Pow2Monotone(magnitude + b - 1, magnitude + c - 2); }
    if c < b { Pow2Monotone(magnitude + c - 1, magnitude + b - 2); }
  }

  /** The source's doubling loop, with its early exit when the next doubling
      would leave 64 bits. */
  method BucketsNeeded(highest: u64, subBucketCount: u32, ghost magnitude: nat) returns (buckets: u32)
    requires highest >= 2
    requires magnitude < 32 && subBucketCount == Pow2(magnitude)
    ensures buckets == Buckets(highest, magnitude)
    ensures buckets <= 65 - magnitude
  {
    Pow2Widths();
    var smallestUntrackable: u64 := subBucketCount;
    buckets := 1;
    while smallestUntrackable < highest
      invariant 1 <= buckets <= 64 - magnitude
      invariant smallestUntrackable == Pow2(magnitude + buckets - 1)
      invariant buckets > 1 ==> Pow2(magnitude + buckets - 2) < highest
      decreases 64 - magnitude - buckets
    {
      if smallestUntrackable > U64_MAX / 2 {
        buckets := buckets + 1;
        Pow2Monotone(63, magnitude + buckets - 2) by {
          if magnitude + buckets - 2 < 63 { Pow2Monotone(magnitude + buckets - 2, 62); }
        }
        BucketsUnique(highest, magnitude, buckets);
        return;
      }
      if buckets == 64 - magnitude { assert false; }
      smallestUntrackable := 2 * smallestUntrackable;
      buckets := buckets + 1;
    }
    BucketsUnique(highest, magnitude, buckets);
  }

  function SubBucketMagnitude(digits: nat): nat
    requires 1 <= digits <= 5
  {
    assert Pow10(digits) <= Pow10(5) == 100000;
    64 - LeadingZeros64(2 * Pow10(digits) - 1)
  }

  /** The sub-bucket count is the least power of two that is at least twice
      10^digits. */
  lemma {:induction false} SubBucketsLeast(digits: nat)
    requires 1 <= digits <= 5
    ensures SubBucketMagnitude(digits) > 0
    ensures Pow2(SubBucketMagnitude(digits) - 1) < 2 * Pow10(digits) <= Pow2(SubBucketMagnitude(digits))
  {
    hide BitLength, Pow2;
    assert Pow10(digits) <= Pow10(5) == 100000;
    BitLengthBounds(2 * Pow10(digits) - 1);
  }

  /** `LatencyHistogram::new`, all but the zeroed counters. */
  function NewLayout(highest: u64, digits: nat): (l: Layout)
    requires highest >= 2 && 1 <= digits <= 5
    ensures l.Valid()
    ensures l.highest == highest && l.digits == digits
  {
    SubBucketMagnitudeRange(digits);
    LayoutOf(SubBucketMagnitude(digits), highest, digits)
  }

  function LayoutOf(m: nat, highest: u64, digits: nat): (l: Layout)
    requires highest >= 2 && 1 <= digits <= 5
    requires 5 <= m <= 18 && Pow10(digits) <= Pow2(m - 1)
    ensures l.Valid()
    ensures l.highest == highest && l.digits == digits
  {
    var count := Pow2(m);
    assert count / 2 == Pow2(m - 1);
    ShiftLeftIsProduct(Buckets(highest, m) + 1, m - 1);
    Layout(m - 1, count / 2, count - 1, count, 64 - m, digits, highest,
           (Buckets(highest, m) + 1) * (count / 2))
  }

  lemma {:induction false} SubBucketMagnitudeRange(digits: nat)
    requires 1 <= digits <= 5
    ensures 5 <= SubBucketMagnitude(digits) <= 18
    ensures Pow10(digits) <= Pow2(SubBucketMagnitude(digits) - 1)
  {
    var n := 2 * Pow10(digits) - 1;
    var m := SubBucketMagnitude(digits);
    assert m == BitLength(n);
    assert Pow10(1) == 10 && Pow10(2) == 100 && Pow10(3) == 1000 && Pow10(4) == 10000 && Pow10(5) == 100000;
    BitLengthBounds(n);
    Pow2Widths();
    assert Pow2(18) == 4 * Pow2(16);
    assert Pow2(4) == 16;
    BitLengthBelow(n, 18);
    if m < 5 { Pow2Monotone(m, 4); }
  }

  function BucketIndex(l: Layout, value: u64): (b: nat)
    requires l.Shape()
    ensures b <= 64 - l.Magnitude()
  {
    OrWithMask(l, value);
    l.leadingZeroBase - LeadingZeros64(BitOr(value, l.mask))
  }

  function SubBucketIndex(value: u64, bucketIndex: nat): nat {
    ShiftRight(value, bucketIndex)
  }

  function CountsIndex(l: Layout, bucketIndex: nat, subBucketIndex: nat): int
    requires l.Shape()
  {
    ShiftLeft(bucketIndex + 1, l.halfMagnitude) + (subBucketIndex - l.halfCount)
  }

  function IndexFor(l: Layout, value: u64): (i: nat)
    requires l.Shape()
  {
    var b := BucketIndex(l, value);
    ShiftLeftAdd(b, 1, l.halfMagnitude);
    ShiftLeftOne(l.halfMagnitude);
    CountsIndex(l, b, SubBucketIndex(value, b))
  }

  // The (low, size) of the equivalent range at an index. `LowBits` is the mask
  // `index & (halfCount - 1)`, by `MaskIsLowBits`.
  function ValueRangeAt(l: Layout, index: nat): (r: (nat, nat))
    requires l.Shape()
    ensures r.1 > 0
  {
    ShiftLeftOne(if ShiftRight(index, l.halfMagnitude) == 0 then 0 else ShiftRight(index, l.halfMagnitude) - 1);
    var bucket := ShiftRight(index, l.halfMagnitude) - 1;
    var sub := LowBits(index, l.halfMagnitude) + l.halfCount;
    if bucket < 0 then (sub - l.halfCount, 1)
    else (ShiftLeft(sub, bucket), ShiftLeft(1, bucket))
  }

  function Low(l: Layout, index: nat): nat requires l.Shape() { ValueRangeAt(l, index).0 }
  function Size(l: Layout, index: nat): nat requires l.Shape() { ValueRangeAt(l, index).1 }

  lemma {:induction false} OrWithMask(l: Layout, value: u64)
    requires l.Shape()
    ensures BitOr(value, l.mask) <= U64_MAX
    ensures BitLength(BitOr(value, l.mask)) == Max(BitLength(value), l.Magnitude())
  {
    hide BitOr, BitLength;
    Pow2Widths();
    assert Pow2(l.Magnitude()) == 2 * Pow2(l.halfMagnitude);
    BitLengthUnique(l.mask, l.Magnitude());
    BitOrLength(value, l.mask);
    BitLengthBelow(value, 64);
    var o := BitOr(value, l.mask);
    BitLengthBounds(o);
    Pow2Monotone(BitLength(o), 64);
  }

  // --------------------------------------------------- the index is a bijection

  // Bucket zero holds the values below subBucketCount, one per slot; above it
  // bucket b holds the values with exactly magnitude + b bits.
  lemma BucketOf(l: Layout, value: u64)
    requires l.Shape()
    ensures var b := BucketIndex(l, value);
            && (b == 0 <==> value < l.subBucketCount)
            && (b > 0 ==> ShiftLeft(l.halfCount, b) <= value < ShiftLeft(l.subBucketCount, b))
  {
    hide BitOr, BitLength, ShiftLeft;
    OrWithMask(l, value);
    var m := l.Magnitude();
    assert l.subBucketCount == Pow2(m);
    if BitLength(value) > m {
      var b := BitLength(value) - m;
      BitLengthPositive(value);
      BitLengthBounds(value);
      ShiftLeftPow2(l.halfMagnitude, b);
      ShiftLeftPow2(m, b);
      Pow2Monotone(m, l.halfMagnitude + b);
    } else if value > 0 {
      BitLengthBounds(value);
      Pow2Monotone(BitLength(value), m);
    }
  }

  // The slot at row q, offset r.
  function Slot(l: Layout, q: nat, r: nat): nat { ShiftLeft(q, l.halfMagnitude) + r }

  // Its range: rows zero and one hold single values.
  lemma {:induction false} RangeAt(l: Layout, q: nat, r: nat)
    requires l.Shape() && r < l.halfCount
    ensures ValueRangeAt(l, Slot(l, q, r)) ==
            if q == 0 then (r, 1) else (ShiftLeft(r + l.halfCount, q - 1), Pow2(q - 1))
  {
    ShiftOfSum(q, l.halfMagnitude, r);
    if q > 0 { ShiftLeftOne(q - 1); }
  }

  // Row and offset of a value's slot, with the sub-bucket scaled back.
  lemma IndexSplit(l: Layout, value: u64) returns (q: nat, r: nat)
    requires l.Shape()
    ensures r < l.halfCount && IndexFor(l, value) == Slot(l, q, r)
    ensures if value < l.halfCount then q == 0 && r == value
            else && q == BucketIndex(l, value) + 1
                 && ShiftLeft(r + l.halfCount, q - 1) <= value
                 && value < ShiftLeft(r + l.halfCount, q - 1) + Pow2(q - 1)
  {
    hide BitOr, BitLength;
    BucketOf(l, value);
    var b := BucketIndex(l, value);
    var h := l.halfCount;
    if value < h {
      q, r := 0, value;
      ShiftLeftOne(l.halfMagnitude);
    } else {
      var sub := ShiftRight(value, b);
      ShiftRightBounds(value, b);
      if sub < h { ShiftLeftMonotone(sub, h, b); }
      if sub > 2 * h { ShiftLeftMonotone(2 * h, sub, b); }
      q, r := b + 1, sub - h;
    }
  }

  /** A value lies in the range read back from its own index. */
  lemma ValueInItsRange(l: Layout, value: u64)
    requires l.Shape()
    ensures var i := IndexFor(l, value); Low(l, i) <= value < Low(l, i) + Size(l, i)
    ensures Size(l, IndexFor(l, value)) == Pow2(BucketIndex(l, value))
  {
    var q, r := IndexSplit(l, value);
    RangeAt(l, q, r);
    BucketOf(l, value);
  }

  /** Consecutive ranges tile the values without gap or overlap, from zero. */
  lemma RangesTile(l: Layout, index: nat)
    requires l.Shape()
    ensures Low(l, index + 1) == Low(l, index) + Size(l, index)
  {
    var h := l.halfCount;
    var q := ShiftRight(index, l.halfMagnitude);
    ShiftRightBounds(index, l.halfMagnitude);
    var r := index - ShiftLeft(q, l.halfMagnitude);
    if r + 1 < h { TileWithinRow(l, q, r); } else { TileAcrossRows(l, q); }
  }

  lemma TileWithinRow(l: Layout, q: nat, r: nat)
    requires l.Shape() && r + 1 < l.halfCount
    ensures Low(l, Slot(l, q, r) + 1) == Low(l, Slot(l, q, r)) + Size(l, Slot(l, q, r))
  {
    hide ShiftRight, Pow2, LowBits;
    RangeAt(l, q, r);
    RangeAt(l, q, r + 1);
    assert Slot(l, q, r + 1) == Slot(l, q, r) + 1;
    if q >= 1 { ShiftLeftAdd(r + l.halfCount, 1, q - 1); ShiftLeftOne(q - 1); }
  }

  lemma TileAcrossRows(l: Layout, q: nat)
    requires l.Shape()
    ensures var i := Slot(l, q, l.halfCount - 1); Low(l, i + 1) == Low(l, i) + Size(l, i)
  {
    hide ShiftRight, Pow2, LowBits;
    var h := l.halfCount;
    RangeAt(l, q, h - 1);
    RangeAt(l, q + 1, 0);
    ShiftLeftAdd(q, 1, l.halfMagnitude);
    ShiftLeftOne(l.halfMagnitude);
    if q >= 1 {
      ShiftLeftAdd(h - 1 + h, 1, q - 1);
      ShiftLeftOne(q - 1);
      ShiftLeftAdd(h, h, q - 1);
    }
  }

  lemma FirstRange(l: Layout)
    requires l.Shape()
    ensures ValueRangeAt(l, 0) == (0, 1)
  {
    ShiftLeftOne(l.halfMagnitude);
    RangeAt(l, 0, 0);
  }

  lemma {:induction false} LowMonotone(l: Layout, i: nat, j: nat)
    requires l.Shape() && i < j
    ensures Low(l, i) + Size(l, i) <= Low(l, j)
    decreases j - i
  {
    RangesTile(l, j - 1);
    if i < j - 1 { LowMonotone(l, i, j - 1); }
  }

  /** Conversely a value inside the range of an index has that index, so the
      two maps are exact inverses. */
  lemma RangeDeterminesIndex(l: Layout, index: nat, value: u64)
    requires l.Shape()
    requires Low(l, index) <= value < Low(l, index) + Size(l, index)
    ensures IndexFor(l, value) == index
  {
    ValueInItsRange(l, value);
    if index < IndexFor(l, value) { LowMonotone(l, index, IndexFor(l, value)); }
    if IndexFor(l, value) < index { LowMonotone(l, IndexFor(l, value), index); }
  }

  /** The index never decreases as the value grows. */
  lemma IndexMonotone(l: Layout, v: u64, w: u64)
    requires l.Shape() && v <= w
    ensures IndexFor(l, v) <= IndexFor(l, w)
  {
    ValueInItsRange(l, v);
    ValueInItsRange(l, w);
    if IndexFor(l, w) < IndexFor(l, v) { LowMonotone(l, IndexFor(l, w), IndexFor(l, v)); }
  }

  // ---------------------------------------------------------------- in bounds

  // The slot one past the counts would start at the limit.
  lemma LimitIsEnd(l: Layout)
    requires l.Valid()
    ensures Low(l, l.countsLen) == l.Limit()
  {
    hide ShiftRight, LowBits, BitLength;
    var n := Buckets(l.highest, l.Magnitude());
    RangeAt(l, n + 1, 0);
    ShiftLeftPow2(l.halfMagnitude, n);
  }

  /** The index of a value falls inside the counts exactly below `Limit`. */
  lemma IndexInBounds(l: Layout, value: u64)
    requires l.Valid()
    ensures IndexFor(l, value) < l.countsLen <==> value < l.Limit()
  {
    LimitIsEnd(l);
    ValueInItsRange(l, value);
    var i := IndexFor(l, value);
    if i < l.countsLen { LowMonotone(l, i, l.countsLen); }
    if l.countsLen < i { LowMonotone(l, l.countsLen, i); }
  }

  /** Every trackable value, and so every clamped one, indexes inside the
      counts exactly when the ceiling is not `subBucketCount << k`. On that
      edge the ceiling itself, and no smaller value, falls outside, at
      `counts.len()`. */
  lemma CeilingInBoundsIff(l: Layout)
    requires l.Valid()
    ensures (forall v: u64 :: v <= l.highest ==> IndexFor(l, v) < l.countsLen) <==> !l.OnEdge()
    ensures l.OnEdge() ==> l.highest == l.Limit() && IndexFor(l, l.highest) == l.countsLen
    ensures forall v: u64 :: v < l.highest ==> IndexFor(l, v) < l.countsLen
  {
    hide ShiftRight, LowBits, BitOr, BitLength;
    var m := l.Magnitude();
    var b := Buckets(l.highest, m);
    BucketsLeast(l.highest, m);
    assert l.highest <= l.Limit();
    forall v: u64 | v < l.highest ensures IndexFor(l, v) < l.countsLen { IndexInBounds(l, v); }
    IndexInBounds(l, l.highest);
    ShiftLeftPow2(m, b - 1);
    if l.highest == l.Limit() {
      assert l.highest == ShiftLeft(l.subBucketCount, b - 1);
      LimitIsEnd(l);
      assert Size(l, l.countsLen) > 0;
      RangeDeterminesIndex(l, l.countsLen, l.highest);
    }
    if l.OnEdge() {
      var k: nat :| l.highest == ShiftLeft(l.subBucketCount, k);
      ShiftLeftPow2(m, k);
      EdgeIsLimit(l, k);
    }
    if !l.OnEdge() {
      forall v: u64 | v <= l.highest ensures IndexFor(l, v) < l.countsLen { IndexInBounds(l, v); }
    }
  }

  lemma {:induction false} EdgeIsLimit(l: Layout, k: nat)
    requires l.Valid() && l.highest == Pow2(l.Magnitude() + k)
    ensures l.highest == l.Limit()
  {
    var m := l.Magnitude();
    var b := Buckets(l.highest, m);
    BucketsLeast(l.highest, m);
    if k < b - 1 { Pow2Monotone(m + k, m + b - 2); }
    if b - 1 < k { Pow2Monotone(m + b - 1, m + k); }
  }

  /** The edge is reachable: a 2048 ns ceiling at three digits allocates 2048
      counts and maps the value 2048 to index 2048. */
  lemma EdgeExample(ceiling: u64, digits: nat)
    requires ceiling == 2048 && digits == 3
    ensures var l := NewLayout(ceiling, digits);
            l.OnEdge() && l.countsLen == 2048 && IndexFor(l, ceiling) == 2048
  {
    hide IndexFor, NewLayout, Layout.Valid;
    var l := NewLayout(ceiling, digits);
    ThreeDigitLayout(ceiling, digits);
    assert l.highest == ShiftLeft(l.subBucketCount, 0);
    CeilingInBoundsIff(l);
  }

  // Three digits and a ceiling of at most 2048: one bucket beyond the first.
  lemma ThreeDigitLayout(ceiling: u64, digits: nat)
    requires 2 <= ceiling <= 2048 && digits == 3
    ensures var l := NewLayout(ceiling, digits);
            l.highest == ceiling && l.subBucketCount == 2048 && l.countsLen == 2048
  {
    hide SubBucketMagnitude, BitLength, Pow10, Pow2;
    ThreeDigits();
    var l := NewLayout(ceiling, digits);
    assert l.halfMagnitude == 10;
    BucketsUnique(ceiling, 11, 1);
    ShiftLeftPow2(1, 10);
  }

  lemma ThreeDigits()
    ensures Pow2(10) == 1024 && Pow2(11) == 2048
    ensures SubBucketMagnitude(3) == 11
  {
    Pow2Widths();
    assert Pow2(10) == 4 * Pow2(8);
    assert Pow10(3) == 1000;
    BitLengthUnique(1999, 11);
  }

  lemma LimitBound(l: Layout)
    requires l.Valid()
    ensures l.countsLen <= U32_MAX
    ensures l.Limit() <= U64_MAX + 1
    ensures l.Limit() == U64_MAX + 1 <==> l.highest > 0x8000_0000_0000_0000
  {
    hide BitLength, Pow10;
    Pow2Widths();
    var m := l.Magnitude();
    var n := Buckets(l.highest, m);
    BucketsLeast(l.highest, m);
    if m + n - 1 > 64 { Pow2Monotone(64, m + n - 2); }
    if m + n - 1 < 64 { Pow2Monotone(m + n - 1, 63); }
    CountsLenBound(l.halfMagnitude, n);
  }

  lemma {:induction false} CountsLenBound(k: nat, n: nat)
    requires k <= 17 && n <= 64
    ensures ShiftLeft(n + 1, k) <= U32_MAX
  {
    ShiftLeftMonotone(n + 1, 128, k);
    assert Pow2(7) == 128;
    ShiftLeftPow2(7, k);
    Pow2Monotone(7 + k, 32);
    Pow2Widths();
  }

  /** Machine bounds: the counts length fits 32 bits, every slot's range ends
      by 2^64, and only the last slot of a full-width layout ends exactly
      there (where `low + size` leaves 64 bits before the `- 1`). */
  lemma LayoutFitsMachineWords(l: Layout, index: nat)
    requires l.Valid() && index < l.countsLen
    ensures l.countsLen <= U32_MAX
    ensures Low(l, index) + Size(l, index) <= U64_MAX + 1
    ensures Low(l, index) + Size(l, index) == U64_MAX + 1
            <==> index == l.countsLen - 1 && l.highest > 0x8000_0000_0000_0000
  {
    LimitBound(l);
    LimitIsEnd(l);
    RangesTile(l, index);
    if index + 1 < l.countsLen { LowMonotone(l, index + 1, l.countsLen); }
  }

  lemma ErrorBound(d: nat, p: nat, t: nat, h: nat)
    requires d < p && 0 < t <= h
    ensures d * t < h * p
  {
    assert d * t <= (p - 1) * t;
    assert (p - 1) * t <= (p - 1) * h;
    assert (p - 1) * h == h * p - h;
  }

  /** Relative error: reading a value back as the top of its range overshoots
      by less than one part in 10^digits, and not at all for zero. */
  lemma RelativeError(l: Layout, value: u64)
    requires l.Valid()
    ensures var i := IndexFor(l, value);
            var top := Low(l, i) + Size(l, i) - 1;
            && value <= top
            && (value > 0 ==> (top - value) * Pow10(l.digits) < value)
            && (value < l.subBucketCount ==> top == value)
  {
    hide ShiftRight, LowBits, BitOr, BitLength;
    ValueInItsRange(l, value);
    BucketOf(l, value);
    var i := IndexFor(l, value);
    var b := BucketIndex(l, value);
    if b > 0 {
      ErrorBound(Low(l, i) + Pow2(b) - 1 - value, Pow2(b), Pow10(l.digits), l.halfCount);
      ShiftLeftIsProduct(l.halfCount, b);
    }
  }
}
