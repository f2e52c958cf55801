/** The latency histogram (bench/src/measurement.rs): recording, the percentile
    scan and merging, proved against the list of every value recorded. */
module Histogram {
  import opened Bits
  import opened Options
  import opened HistogramLayout
  import opened Ordering

  // ----------------------------------------------------- what a log adds up to

  function Clamped(l: Layout, v: u64): u64
    requires l.Valid()
  {
    if v > l.highest then l.highest else v
  }

  function ClampAll(l: Layout, xs: seq<u64>): (r: seq<int>)
    requires l.Valid()
    ensures |r| == |xs| && forall v :: v in r ==> 0 <= v <= l.highest
  {
    if xs == [] then [] else [Clamped(l, xs[0])] + ClampAll(l, xs[1..])
  }

  function SlotOf(l: Layout, v: u64): nat
    requires l.Valid()
  {
    IndexFor(l, Clamped(l, v))
  }

  // How many recorded values land in slot i, and how many in the slots before it.
  function Tally(l: Layout, xs: seq<u64>, i: nat): (n: nat)
    requires l.Valid()
    ensures n <= |xs|
  {
    if xs == [] then 0 else (if SlotOf(l, xs[0]) == i then 1 else 0) + Tally(l, xs[1..], i)
  }

  function Below(l: Layout, xs: seq<u64>, i: nat): nat
    requires l.Valid()
  {
    if xs == [] then 0 else (if SlotOf(l, xs[0]) < i then 1 else 0) + Below(l, xs[1..], i)
  }

  function Sum(xs: seq<u64>): nat {
    if xs == [] then 0 else xs[0] + Sum(xs[1..])
  }

  function MinOf(xs: seq<u64>): u64 {
    if xs == [] then U64_MAX else Min(xs[0], MinOf(xs[1..]))
  }

  function MaxOf(xs: seq<u64>): u64 {
    if xs == [] then 0 else Max(xs[0], MaxOf(xs[1..]))
  }

  function Above(xs: seq<u64>, ceiling: nat): (n: nat)
    ensures n <= |xs|
  {
    if xs == [] then 0 else (if xs[0] > ceiling then 1 else 0) + Above(xs[1..], ceiling)
  }

  function Repeat(v: u64, n: nat): (r: seq<u64>)
    ensures |r| == n
  {
    if n == 0 then [] else [v] + Repeat(v, n - 1)
  }

  // Every value's slot exists: nothing that would have indexed past the counts.
  ghost predicate Recordable(l: Layout, xs: seq<u64>)
    requires l.Valid()
  {
    forall v :: v in xs ==> SlotOf(l, v) < l.countsLen
  }

  /** Every fold of a log is additive over concatenation: the law that makes
      recording a homomorphism. */
  lemma {:induction false} FoldsConcat(l: Layout, xs: seq<u64>, ys: seq<u64>, i: nat)
    requires l.Valid()
    ensures Tally(l, xs + ys, i) == Tally(l, xs, i) + Tally(l, ys, i)
    ensures Sum(xs + ys) == Sum(xs) + Sum(ys)
    ensures MinOf(xs + ys) == Min(MinOf(xs), MinOf(ys))
    ensures MaxOf(xs + ys) == Max(MaxOf(xs), MaxOf(ys))
    ensures Above(xs + ys, l.highest) == Above(xs, l.highest) + Above(ys, l.highest)
  {
    hide IndexFor;
    if xs == [] {
      assert xs + ys == ys;
    } else {
      assert (xs + ys)[1..] == xs[1..] + ys;
      FoldsConcat(l, xs[1..], ys, i);
    }
  }

  lemma {:induction false} FoldsRepeat(l: Layout, v: u64, n: nat, i: nat)
    requires l.Valid()
    ensures Tally(l, Repeat(v, n), i) == if SlotOf(l, v) == i then n else 0
    ensures Sum(Repeat(v, n)) == v * n
    ensures n > 0 ==> MinOf(Repeat(v, n)) == v && MaxOf(Repeat(v, n)) == v
    ensures Above(Repeat(v, n), l.highest) == if v > l.highest then n else 0
    ensures forall w :: w in Repeat(v, n) ==> w == v
  {
    hide SlotOf;
    SumRepeat(v, n);
    if n == 0 {
    } else {
      FoldsRepeat(l, v, n - 1, i);
      assert Repeat(v, n)[1..] == Repeat(v, n - 1);
    }
  }

  lemma {:induction false} SumRepeat(v: u64, n: nat)
    ensures Sum(Repeat(v, n)) == v * n
  {
    if n == 0 {
    } else {
      SumRepeat(v, n - 1);
      assert Repeat(v, n)[1..] == Repeat(v, n - 1);
      assert v * n == v + v * (n - 1);
    }
  }

  /** n values of at most 64 bits sum to fewer than n * 2^64, so the 128-bit
      running sum cannot overflow while the 64-bit total does not. */
  lemma {:induction false} SumFitsU128(xs: seq<u64>)
    ensures Sum(xs) <= |xs| * U64_MAX
    ensures |xs| <= U64_MAX ==> Sum(xs) <= U64_MAX * U64_MAX
  {
    if xs == [] {
    } else {
      SumFitsU128(xs[1..]);
    }
  }

  // ------------------------------------------------------- the scan is a rank

  lemma {:induction false} BelowStep(l: Layout, xs: seq<u64>, i: nat)
    requires l.Valid()
    ensures Below(l, xs, i + 1) == Below(l, xs, i) + Tally(l, xs, i)
    ensures Below(l, xs, 0) == 0
  {
    hide IndexFor;
    if xs == [] {
    } else {
      BelowStep(l, xs[1..], i);
    }
  }

  lemma {:induction false} BelowAll(l: Layout, xs: seq<u64>)
    requires l.Valid() && Recordable(l, xs)
    ensures Below(l, xs, l.countsLen) == |xs|
  {
    hide IndexFor;
    if xs == [] {
    } else {
      BelowAll(l, xs[1..]);
    }
  }

  // Slots before v's slot hold only values strictly below v ...
  lemma {:induction false} BelowVersusLess(l: Layout, xs: seq<u64>, i: nat, v: u64)
    requires l.Valid() && i <= IndexFor(l, v)
    ensures Below(l, xs, i) <= CountLess(ClampAll(l, xs), v, IntLe)
  {
    hide IndexFor;
    if xs == [] {
    } else {
      BelowVersusLess(l, xs[1..], i, v);
      assert ClampAll(l, xs)[1..] == ClampAll(l, xs[1..]);
      if v <= Clamped(l, xs[0]) { IndexMonotone(l, v, Clamped(l, xs[0])); }
    }
  }

  // ... and every value at most v is in a slot no later than v's.
  lemma {:induction false} LeVersusBelow(l: Layout, xs: seq<u64>, i: nat, v: u64)
    requires l.Valid() && IndexFor(l, v) < i
    ensures CountLe(ClampAll(l, xs), v, IntLe) <= Below(l, xs, i)
  {
    hide IndexFor;
    if xs == [] {
    } else {
      LeVersusBelow(l, xs[1..], i, v);
      assert ClampAll(l, xs)[1..] == ClampAll(l, xs[1..]);
      if Clamped(l, xs[0]) <= v { IndexMonotone(l, Clamped(l, xs[0]), v); }
    }
  }

  /** The slot where the running count first reaches `target` is the slot of
      the exact element of that rank among the clamped values. */
  lemma {:induction false} ScanFindsRank(l: Layout, xs: seq<u64>, target: nat, i: nat)
    requires l.Valid() && 1 <= target <= |xs|
    requires Below(l, xs, i) < target <= Below(l, xs, i + 1)
    ensures IndexFor(l, Exact(l, xs, target)) == i
  {
    hide IndexFor, Below, Sort;
    var v := Exact(l, xs, target);
    IntOrder();
    AtRankCounts(ClampAll(l, xs), target - 1, IntLe);
    if IndexFor(l, v) > i { BelowVersusLess(l, xs, i + 1, v); }
    if IndexFor(l, v) < i { LeVersusBelow(l, xs, i, v); }
  }

  /** The element of one-based rank `target` of the log: fewer than `target`
      values lie below it, and at least `target` are at most it. */
  function Ranked(xs: seq<u64>, target: nat): (v: u64)
    requires 1 <= target <= |xs|
    ensures v in xs
    ensures CountLess<int>(xs, v, IntLe) < target <= CountLe<int>(xs, v, IntLe)
  {
    IntOrder();
    AtRankCounts<int>(xs, target - 1, IntLe);
    AtRank<int>(xs, target - 1, IntLe)
  }

  // The same after clamping; the ceiling commutes with ranking.
  function Exact(l: Layout, xs: seq<u64>, target: nat): (v: u64)
    requires l.Valid() && 1 <= target <= |xs|
  {
    IntOrder();
    AtRankCounts(ClampAll(l, xs), target - 1, IntLe);
    AtRank(ClampAll(l, xs), target - 1, IntLe)
  }

  lemma {:induction false} ClampedCounts(l: Layout, xs: seq<u64>, c: int)
    requires l.Valid() && c <= l.highest
    ensures CountLess(ClampAll(l, xs), c, IntLe) == CountLess<int>(xs, c, IntLe)
    ensures CountLe(ClampAll(l, xs), c, IntLe) == if c == l.highest then |xs| else CountLe<int>(xs, c, IntLe)
  {
    if xs == [] {
    } else {
      ClampedCounts(l, xs[1..], c);
      assert ClampAll(l, xs)[1..] == ClampAll(l, xs[1..]);
    }
  }

  lemma {:induction false} ExactIsRanked(l: Layout, xs: seq<u64>, target: nat)
    requires l.Valid() && 1 <= target <= |xs|
    ensures Exact(l, xs, target) == if Ranked(xs, target) > l.highest then l.highest else Ranked(xs, target)
  {
    hide CountLess, CountLe, ClampAll, Sort;
    var x := Ranked(xs, target);
    var c := if x > l.highest then l.highest else x;
    IntOrder();
    ClampedCounts(l, xs, c);
    CountMonotone<int>(xs, c, x, IntLe);
    RankAtLeast(ClampAll(l, xs), target - 1, c, IntLe);
    RankAtMost(ClampAll(l, xs), target - 1, c, IntLe);
  }

  /** Clamping the percentile to [0, 100] first, as the histogram does, gives
      the same nearest rank. */
  lemma ClampedPercentileSameRank(p: real, n: nat)
    requires n > 0
    ensures NearestRank(if p < 0.0 then 0.0 else if p > 100.0 then 100.0 else p, n) == NearestRank(p, n)
  {
    var x := n as real;
    if p < 0.0 {
      assert p / 100.0 * x <= 0.0;
      assert Ceil(0.0 / 100.0 * x) == 0;
    } else if p > 100.0 {
      assert p / 100.0 * x >= x;
      assert 100.0 / 100.0 * x == x;
    }
  }

  // --------------------------------------------------------------- the object

  datatype Outcome = Done | NoSlot | LayoutsDiffer | Overflow

  // How a record of count values ends.
  function RecordOutcome(l: Layout, total: u64, value: u64, count: u64): (r: Outcome)
    requires l.Valid()
    ensures var slot := IndexFor(l, if value > l.highest then l.highest else value);
            && (r == NoSlot <==> count > 0 && slot >= l.countsLen)
            && (r == Overflow <==> count > 0 && slot < l.countsLen && total + count > U64_MAX)
            && (r == Done <==> count == 0 || (slot < l.countsLen && total + count <= U64_MAX))
  {
    IndexInBounds(l, Clamped(l, value));
    if count == 0 then Done
    else if Clamped(l, value) >= l.Limit() then NoSlot
    else if total + count > U64_MAX then Overflow
    else Done
  }

  class LatencyHistogram {
    const layout: Layout
    const counts: array<nat>
    var total: u64
    var sum: nat
    var min: u64
    var max: u64
    var clamped: u64
    ghost var log: seq<u64>  // every value recorded, in order

    ghost predicate Valid()
      reads this, counts
    {
      && layout.Valid()
      && counts.Length == layout.countsLen
      && Recordable(layout, log)
      && (forall i :: 0 <= i < counts.Length ==> counts[i] == Tally(layout, log, i))
      && total == |log|
      && sum == Sum(log)
      && min == MinOf(log)
      && max == MaxOf(log)
      && clamped == Above(log, layout.highest)
    }

    constructor (highestTrackable: u64, significantDigits: nat)
      requires highestTrackable >= 2 && 1 <= significantDigits <= 5
      ensures Valid() && fresh(counts)
      ensures layout == NewLayout(highestTrackable, significantDigits)
      ensures log == [] && forall i :: 0 <= i < counts.Length ==> counts[i] == 0
      ensures total == 0 && sum == 0 && min == 0xFFFF_FFFF_FFFF_FFFF && max == 0 && clamped == 0
    {
      hide SubBucketMagnitude, Buckets, ShiftLeft, Pow2, Pow10, BitLength;
      CountsLenOf(highestTrackable, significantDigits);
      var magnitude := SubBucketMagnitude(significantDigits);
      var subBucketCount := Pow2(magnitude);
      var buckets := BucketsNeeded(highestTrackable, subBucketCount, magnitude);
      layout := NewLayout(highestTrackable, significantDigits);
      counts := new nat[(buckets + 1) * (subBucketCount / 2)](_ => 0);
      total, sum, min, max, clamped := 0, 0, U64_MAX, 0, 0;
      log := [];
    }

    /** Records `count` observations of `value`. `NoSlot` is the source's slice
        index out of range, a panic before any field is written; `Overflow` is
        the 64-bit total passing its maximum, a panic that may leave one count
        written. */
    method RecordN(value: u64, count: u64) returns (r: Outcome)
      requires Valid()
      modifies this`total, this`sum, this`min, this`max, this`clamped, this`log, counts
      ensures r == RecordOutcome(layout, old(total), value, count)
      ensures r != Overflow ==> Valid()
      ensures log == if r == Done then old(log) + Repeat(value, count) else old(log)
      ensures r != Done || count == 0 ==> total == old(total) && sum == old(sum) && clamped == old(clamped)
      ensures r != Done || count == 0 ==> min == old(min) && max == old(max)
      ensures r == NoSlot || count == 0 ==> counts[..] == old(counts[..])
      ensures r == Done && count > 0 ==>
        var slot := IndexFor(layout, if value > layout.highest then layout.highest else value);
        && slot < counts.Length
        && (forall i :: 0 <= i < counts.Length ==> counts[i] == old(counts[i]) + (if i == slot then count else 0))
        && total == old(total) + count && sum == old(sum) + value * count
        && min == (if value < old(min) then value else old(min))
        && max == (if value > old(max) then value else old(max))
        && clamped == old(clamped) + (if value > layout.highest then count else 0)
    {
      hide IndexFor, Sum, MinOf, MaxOf, Above, Tally, SlotOf, BitLength, Pow2, Pow10, ShiftLeft, Repeat;
      if count == 0 {
        assert log + Repeat(value, count) == log;
        return Done;
      }
      var effective, over := value, false;
      if value > layout.highest { effective, over := layout.highest, true; }
      IndexInBounds(layout, effective);
      var idx := IndexFor(layout, effective);
      if idx >= counts.Length { return NoSlot; }
      if counts[idx] + count > U64_MAX { return Overflow; }
      Appended(layout, log, value, count, idx);
      counts[idx] := counts[idx] + count;
      if total + count > U64_MAX { return Overflow; }
      total := total + count;
      sum := sum + value * count;
      if value < min { min := value; }
      if value > max { max := value; }
      if over { clamped := clamped + count; }
      log := log + Repeat(value, count);
      return Done;
    }

    method Record(value: u64) returns (r: Outcome)
      requires Valid()
      modifies this`total, this`sum, this`min, this`max, this`clamped, this`log, counts
      ensures r == RecordOutcome(layout, old(total), value, 1)
      ensures r != Overflow ==> Valid()
      ensures log == if r == Done then old(log) + [value] else old(log)
    {
      r := RecordN(value, 1);
      assert Repeat(value, 1) == [value];
    }

    /** The scan: the top of the slot where the running count first reaches the
        target rank. It is the slot of the exact ranked element of the log, or of
        the ceiling if that is lower, so the answer is never below it and
        overshoots it by less than one part in 10^digits. */
    method ValueAtPercentile(percentile: real) returns (r: Option<u64>)
      requires Valid()
      ensures r.None? <==> log == []
      ensures log != [] ==>
        var ranked := Ranked(log, NearestRank(percentile, |log|));
        var exact := if ranked > layout.highest then layout.highest else ranked;
        var i := IndexFor(layout, exact);
        && r == Some(Low(layout, i) + Size(layout, i) - 1)
        && exact <= r.value
        && (exact > 0 ==> (r.value - exact) * Pow10(layout.digits) < exact)
        && (exact < layout.subBucketCount ==> r.value == exact)
    {
      hide IndexFor, Tally, Below, SlotOf, ValueRangeAt, Exact, Ranked, CountLess, CountLe;
      if total == 0 { return None; }
      var p := if percentile < 0.0 then 0.0 else if percentile > 100.0 then 100.0 else percentile;
      var target := NearestRank(p, total);
      ClampedPercentileSameRank(percentile, total);
      BelowStep(layout, log, 0);
      r := Some(max);
      var running := 0;
      for idx := 0 to counts.Length
        invariant running == Below(layout, log, idx) < target
      {
        BelowStep(layout, log, idx);
        running := running + counts[idx];
        if running >= target {
          ScanFindsRank(layout, log, target, idx);
          ExactIsRanked(layout, log, target);
          LayoutFitsMachineWords(layout, idx);
          RelativeError(layout, Exact(layout, log, target));
          var (low, size) := ValueRangeAt(layout, idx);
          return Some(TopOf(low, size));
        }
      }
      BelowAll(layout, log);
      assert false;  // the source's fall-back to `max` is never reached
    }

    /** Merging adds the counters slot by slot when the two layouts have the
        same counts length and sub-bucket count. With equal ceilings the result
        is the histogram of the two logs one after the other. */
    method Merge(other: LatencyHistogram) returns (r: Outcome)
      requires Valid() && other.Valid()
      requires other != this && other.counts != counts
      modifies this`total, this`sum, this`min, this`max, this`clamped, this`log, counts
      ensures r == if !SameShape(layout, other.layout) then LayoutsDiffer
                   else if old(total) + other.total > U64_MAX then Overflow else Done
      ensures r == LayoutsDiffer ==> Valid()
      ensures log == if r == Done then old(log) + other.log else old(log)
      ensures r == Done ==> counts.Length == other.counts.Length && forall i :: 0 <= i < counts.Length ==>
        counts[i] == old(counts[i]) + other.counts[i]
      ensures r == Done ==> total == old(total) + other.total && sum == old(sum) + other.sum
      ensures r == Done ==> clamped == old(clamped) + other.clamped
      ensures r == Done ==> min == (if other.total > 0 && other.min < old(min) then other.min else old(min))
      ensures r == Done ==> max == (if other.total > 0 && other.max > old(max) then other.max else old(max))
      ensures r == Done ==> total == |log| && sum == Sum(log) && min == MinOf(log) && max == MaxOf(log)
      ensures r == Done && MergeFaithful(layout, other.layout) ==> Valid()
      ensures r == Done && layout.highest == other.layout.highest ==> Valid()
    {
      hide IndexFor, Sum, MinOf, MaxOf, Above, Tally, SlotOf;
      if counts.Length != other.counts.Length || layout.subBucketCount != other.layout.subBucketCount {
        return LayoutsDiffer;
      }
      for i := 0 to counts.Length
        modifies counts
        invariant forall k :: 0 <= k < i ==> counts[k] == old(counts[k]) + other.counts[k]
        invariant forall k :: i <= k < counts.Length ==> counts[k] == old(counts[k])
        invariant forall k :: 0 <= k < other.counts.Length ==> other.counts[k] == old(other.counts[k])
      {
        if counts[i] + other.counts[i] > U64_MAX { return Overflow; }
        counts[i] := counts[i] + other.counts[i];
      }
      if total + other.total > U64_MAX { return Overflow; }
      total := total + other.total;
      sum := sum + other.sum;
      clamped := clamped + other.clamped;
      if other.total > 0 {
        min := Min(min, other.min);
        max := Max(max, other.max);
      }
      LogsMerge(layout, other.layout, log, other.log);
      hide MergeFaithful;
      log := log + other.log;
      return Done;
    }
  }

  // Wrapping 64-bit `low + size - 1`.
  function TopOf(low: nat, size: nat): (r: u64)
    requires 0 < low + size <= U64_MAX + 1
    ensures r == low + size - 1
  {
    var end := (low + size) % (U64_MAX + 1);
    (end + U64_MAX) % (U64_MAX + 1)
  }

  /** A histogram is a function of its layout and log. */
  lemma StateFromLog(a: LatencyHistogram, b: LatencyHistogram)
    requires a.Valid() && b.Valid() && a.layout == b.layout && a.log == b.log
    ensures a.counts[..] == b.counts[..]
    ensures a.total == b.total && a.sum == b.sum && a.min == b.min && a.max == b.max && a.clamped == b.clamped
  {
    hide Tally, Sum, MinOf, MaxOf, Above;
  }

  lemma {:induction false} RepeatSnoc(v: u64, n: nat)
    ensures Repeat(v, n) + [v] == Repeat(v, n + 1)
  {
    if n == 0 {
    } else {
      RepeatSnoc(v, n - 1);
    }
  }

  // The same value recorded one at a time. A run that ends well has the outcome,
  // the log and hence every field of one RecordN call; a value without a slot is
  // refused by both.
  method RecordEach(h: LatencyHistogram, value: u64, count: u64) returns (r: Outcome)
    requires h.Valid()
    modifies h, h.counts
    ensures r == RecordOutcome(h.layout, old(h.total), value, count)
    ensures r != Overflow ==> h.Valid()
    ensures r != Overflow ==> h.log == if r == Done then old(h.log) + Repeat(value, count) else old(h.log)
  {
    hide Tally, Sum, MinOf, MaxOf, Above, Clamped, Repeat;
    assert h.log == h.log + Repeat(value, 0) by { assert Repeat(value, 0) == []; }
    for i := 0 to count
      invariant h.Valid() && h.log == old(h.log) + Repeat(value, i)
      invariant i > 0 ==> Clamped(h.layout, value) < h.layout.Limit()
    {
      RepeatSnoc(value, i);
      r := h.Record(value);
      if r != Done { return; }
    }
    r := Done;
  }

  lemma CountsLenOf(highest: u64, digits: nat)
    requires highest >= 2 && 1 <= digits <= 5
    ensures var m := SubBucketMagnitude(digits);
            && m < 32
            && Pow2(m) <= U32_MAX
            && (Buckets(highest, m) + 1) * (Pow2(m) / 2) == NewLayout(highest, digits).countsLen
  {
    hide SubBucketMagnitude, Buckets, ShiftLeft, BitLength;
    SubBucketMagnitudeRange(digits);
    Pow2Monotone(SubBucketMagnitude(digits), 18);
    Pow2Widths();
    assert Pow2(18) == 4 * Pow2(16);
  }

  // What appending n copies of v, whose slot is idx, does to every fold.
  lemma {:induction false} Appended(l: Layout, xs: seq<u64>, v: u64, n: nat, idx: nat)
    requires l.Valid() && n > 0 && idx == IndexFor(l, Clamped(l, v))
    ensures var ys := xs + Repeat(v, n);
            && (forall i: nat :: Tally(l, ys, i) == Tally(l, xs, i) + (if i == idx then n else 0))
            && Sum(ys) == Sum(xs) + v * n
            && MinOf(ys) == Min(MinOf(xs), v)
            && MaxOf(ys) == Max(MaxOf(xs), v)
            && Above(ys, l.highest) == Above(xs, l.highest) + (if v > l.highest then n else 0)
            && (Recordable(l, xs) && idx < l.countsLen ==> Recordable(l, ys))
  {
    hide IndexFor, Tally;
    forall i: nat ensures Tally(l, xs + Repeat(v, n), i) == Tally(l, xs, i) + (if i == idx then n else 0) {
      FoldsConcat(l, xs, Repeat(v, n), i);
      FoldsRepeat(l, v, n, i);
    }
    FoldsConcat(l, xs, Repeat(v, n), idx);
    FoldsRepeat(l, v, n, idx);
  }

  lemma {:induction false} EmptyExtremes(xs: seq<u64>)
    ensures |xs| == 0 ==> MinOf(xs) == U64_MAX && MaxOf(xs) == 0
  {}

  predicate SameShape(a: Layout, b: Layout) {
    a.countsLen == b.countsLen && a.subBucketCount == b.subBucketCount
  }

  // Layouts of one shape map every value to the same index.
  lemma SameShapeSameIndex(a: Layout, b: Layout, v: u64)
    requires a.Valid() && b.Valid() && SameShape(a, b)
    ensures IndexFor(a, v) == IndexFor(b, v)
    ensures a.Limit() == b.Limit()
  {
    SameShapeSameMagnitude(a, b);
    LimitIsEnd(a);
    LimitIsEnd(b);
    hide BitOr, BitLength, ShiftRight, ShiftLeft, Pow10, Buckets, LeadingZeros64;
  }

  lemma SameShapeSameMagnitude(a: Layout, b: Layout)
    requires a.Valid() && b.Valid() && SameShape(a, b)
    ensures a.halfMagnitude == b.halfMagnitude
  {
    hide BitLength, Buckets, ShiftLeft;
    if a.halfMagnitude < b.halfMagnitude { Pow2Monotone(a.halfMagnitude, b.halfMagnitude); }
    if b.halfMagnitude < a.halfMagnitude { Pow2Monotone(b.halfMagnitude, a.halfMagnitude); }
  }

  lemma {:induction false} SameShapeSameLayout(a: Layout, b: Layout)
    requires a.Valid() && b.Valid() && SameShape(a, b) && a.highest == b.highest
    ensures forall v: u64 :: SlotOf(a, v) == SlotOf(b, v)
    ensures forall xs: seq<u64>, i: nat :: Tally(a, xs, i) == Tally(b, xs, i)
  {
    hide IndexFor, Tally;
    forall v: u64 ensures SlotOf(a, v) == SlotOf(b, v) { SameShapeSameIndex(a, b, Clamped(a, v)); }
    forall xs: seq<u64>, i: nat ensures Tally(a, xs, i) == Tally(b, xs, i) { TallySame(a, b, xs, i); }
  }

  /** Merging a histogram of layout b into one of layout a is right for every
      log that b can hold: each value has the same slot and the same clamped
      status under both ceilings. */
  ghost predicate MergeFaithful(a: Layout, b: Layout)
    requires a.Valid() && b.Valid()
  {
    forall ys: seq<u64> :: Recordable(b, ys) ==>
      && Recordable(a, ys)
      && (forall i: nat :: Tally(a, ys, i) == Tally(b, ys, i))
      && Above(ys, a.highest) == Above(ys, b.highest)
  }

  /** The check in `merge` compares counts length and sub-bucket count but not
      the ceiling, so two histograms of different ceilings can be merged. The
      result is the histogram of both logs exactly when the ceilings agree, or
      differ by one with the other's ceiling on the edge (where a value above
      the first ceiling cannot have been recorded). */
  lemma MergeFaithfulIff(a: Layout, b: Layout)
    requires a.Valid() && b.Valid() && SameShape(a, b)
    ensures MergeFaithful(a, b) <==>
            a.highest == b.highest || (a.highest + 1 == b.highest && b.OnEdge())
  {
    hide IndexFor, Tally, Above;
    CeilingInBoundsIff(a);
    CeilingInBoundsIff(b);
    if a.highest == b.highest {
      SameShapeSameLayout(a, b);
    } else if a.highest + 1 == b.highest && b.OnEdge() {
      forall ys: seq<u64> | Recordable(b, ys) ensures
        && Recordable(a, ys)
        && (forall i: nat :: Tally(a, ys, i) == Tally(b, ys, i))
        && Above(ys, a.highest) == Above(ys, b.highest)
      {
        EdgeLogsAgree(a, b, ys);
      }
    } else {
      MergeUnfaithfulWitness(a, b);
    }
  }

  // What adding the fields of two histograms amounts to.
  lemma {:induction false} LogsMerge(a: Layout, b: Layout, xs: seq<u64>, ys: seq<u64>)
    requires a.Valid() && b.Valid() && SameShape(a, b) && Recordable(a, xs) && Recordable(b, ys)
    ensures Sum(xs + ys) == Sum(xs) + Sum(ys)
    ensures MinOf(xs + ys) == (if ys == [] then MinOf(xs) else Min(MinOf(xs), MinOf(ys)))
    ensures MaxOf(xs + ys) == (if ys == [] then MaxOf(xs) else Max(MaxOf(xs), MaxOf(ys)))
    ensures a.highest == b.highest ==> MergeFaithful(a, b)
    ensures MergeFaithful(a, b) ==>
              && Recordable(a, xs + ys)
              && Above(xs + ys, a.highest) == Above(xs, a.highest) + Above(ys, b.highest)
              && forall i: nat :: Tally(a, xs + ys, i) == Tally(a, xs, i) + Tally(b, ys, i)
  {
    hide IndexFor, Sum, MinOf, MaxOf, Above, Tally, SlotOf;
    FoldsConcat(a, xs, ys, 0);
    EmptyExtremes(ys);
    MergeFaithfulIff(a, b);
    if MergeFaithful(a, b) {
      FaithfulLog(a, b, ys);
      forall i: nat ensures Tally(a, xs + ys, i) == Tally(a, xs, i) + Tally(b, ys, i) { FoldsConcat(a, xs, ys, i); }
    }
  }

  lemma {:induction false} FaithfulLog(a: Layout, b: Layout, ys: seq<u64>)
    requires a.Valid() && b.Valid() && MergeFaithful(a, b) && Recordable(b, ys)
    ensures Recordable(a, ys) && Above(ys, a.highest) == Above(ys, b.highest)
    ensures forall i: nat :: Tally(a, ys, i) == Tally(b, ys, i)
  {}

  /** The gap is reachable: ceilings of 1000 and 2000 ns at three digits have one
      shape, so `merge` accepts them, and the merge is not faithful. */
  lemma MergeGapExample(small: u64, large: u64, digits: nat)
    requires small == 1000 && large == 2000 && digits == 3
    ensures var a, b := NewLayout(small, digits), NewLayout(large, digits); SameShape(a, b) && !MergeFaithful(a, b)
  {
    hide MergeFaithful, NewLayout, Layout.Valid;
    var a, b := NewLayout(small, digits), NewLayout(large, digits);
    ThreeDigitLayout(small, digits);
    ThreeDigitLayout(large, digits);
    MergeFaithfulIff(a, b);
  }

  // One recordable value that the two ceilings classify differently.
  lemma MergeUnfaithfulWitness(a: Layout, b: Layout)
    requires a.Valid() && b.Valid() && SameShape(a, b) && a.highest != b.highest
    requires !(a.highest + 1 == b.highest && b.OnEdge())
    ensures !MergeFaithful(a, b)
  {
    hide IndexFor, Tally;
    CeilingInBoundsIff(a);
    CeilingInBoundsIff(b);
    var v: u64 := if a.highest > b.highest then a.highest else a.highest + 1;
    SameShapeSameIndex(a, b, a.highest);
    LimitAboveCeiling(a);
    IndexInBounds(b, Clamped(b, v));
    assert Recordable(b, [v]);
    assert [v][1..] == [];
    assert Above([v], a.highest) != Above([v], b.highest);
  }

  lemma LimitAboveCeiling(l: Layout)
    requires l.Valid()
    ensures l.highest <= l.Limit()
  {
    BucketsLeast(l.highest, l.Magnitude());
  }

  lemma {:induction false} EdgeLogsAgree(a: Layout, b: Layout, ys: seq<u64>)
    requires a.Valid() && b.Valid() && SameShape(a, b)
    requires a.highest + 1 == b.highest && b.OnEdge() && Recordable(b, ys)
    ensures Recordable(a, ys)
    ensures forall i: nat :: Tally(a, ys, i) == Tally(b, ys, i)
    ensures Above(ys, a.highest) == Above(ys, b.highest)
  {
    hide IndexFor;
    if ys == [] {
    } else {
      var v := ys[0];
      EdgeLogsAgree(a, b, ys[1..]);
      CeilingInBoundsIff(b);
      assert SlotOf(b, v) < b.countsLen;
      assert v < b.highest;
      SameShapeSameIndex(a, b, v);
    }
  }

  lemma {:induction false} TallySame(a: Layout, b: Layout, xs: seq<u64>, i: nat)
    requires a.Valid() && b.Valid()
    requires forall v: u64 :: SlotOf(a, v) == SlotOf(b, v)
    ensures Tally(a, xs, i) == Tally(b, xs, i)
  {
    hide IndexFor, SlotOf;
    if xs == [] {
    } else {
      TallySame(a, b, xs[1..], i);
    }
  }

  function SumNat(s: seq<nat>): nat {
    if s == [] then 0 else SumNat(s[..|s| - 1]) + s[|s| - 1]
  }

  /** The bucket counts always add up to the total. */
  lemma {:induction false} CountsSumToTotal(l: Layout, xs: seq<u64>, counts: seq<nat>)
    requires l.Valid() && Recordable(l, xs)
    requires |counts| == l.countsLen && forall i :: 0 <= i < |counts| ==> counts[i] == Tally(l, xs, i)
    ensures SumNat(counts) == |xs|
  {
    CountsPrefixSum(l, xs, counts);
    BelowAll(l, xs);
  }

  lemma {:induction false} CountsPrefixSum(l: Layout, xs: seq<u64>, counts: seq<nat>)
    requires l.Valid()
    requires forall i :: 0 <= i < |counts| ==> counts[i] == Tally(l, xs, i)
    ensures SumNat(counts) == Below(l, xs, |counts|)
  {
    hide IndexFor, Tally, Below;
    if counts == [] {
      BelowStep(l, xs, 0);
    } else {
      var n := |counts| - 1;
      CountsPrefixSum(l, xs, counts[..n]);
      BelowStep(l, xs, n);
    }
  }
}
