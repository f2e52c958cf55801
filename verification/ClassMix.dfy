/** Deterministic class assignment of the flow pool (bench/src/datapath.rs,
    with the mix normalisation of bench/src/business_report.rs). Classes are
    the indices of the weight list; floating-point values are reals. */
module ClassMix {
  import opened Reals

  const CLASSES: nat := 6

  function SumTo(w: seq<real>, k: nat): real
    requires k <= |w|
  {
    if k == 0 then 0.0 else SumTo(w, k - 1) + w[k - 1]
  }

  // ------------------------------------------------------------ normalisation

  // A negative configured weight counts as zero.
  function Weight(raw: seq<real>, i: nat): (r: real)
    requires i < |raw|
    ensures r >= 0.0
  {
    if raw[i] < 0.0 then 0.0 else raw[i]
  }

  function Weights(raw: seq<real>): (w: seq<real>)
    ensures |w| == |raw| && forall i :: 0 <= i < |raw| ==> w[i] == Weight(raw, i)
  {
    seq(|raw|, i requires 0 <= i < |raw| => Weight(raw, i))
  }

  function TotalWeight(raw: seq<real>): real { SumTo(Weights(raw), |raw|) }

  function Scaled(w: seq<real>, total: real): (r: seq<real>)
    requires total != 0.0
    ensures |r| == |w| && forall i :: 0 <= i < |w| ==> r[i] == w[i] / total
  {
    seq(|w|, i requires 0 <= i < |w| => w[i] / total)
  }

  /** Normalised fractions; an all-zero mix becomes a uniform split. */
  function Normalized(raw: seq<real>): (r: seq<real>)
    requires |raw| == CLASSES
    ensures |r| == CLASSES
  {
    if TotalWeight(raw) <= 0.0 then seq(CLASSES, _ => 1.0 / CLASSES as real)
    else Scaled(Weights(raw), TotalWeight(raw))
  }

  // Non-negative fractions adding to one.
  ghost predicate Mix(w: seq<real>) {
    |w| > 0 && (forall i :: 0 <= i < |w| ==> w[i] >= 0.0) && SumTo(w, |w|) == 1.0
  }

  lemma {:induction false} ScaledSum(w: seq<real>, total: real, k: nat)
    requires total != 0.0 && k <= |w|
    ensures SumTo(Scaled(w, total), k) == SumTo(w, k) / total
  {
    if k == 0 {
    } else {
      ScaledSum(w, total, k - 1);
      AddOver(SumTo(w, k - 1), w[k - 1], total);
    }
  }

  lemma AddOver(a: real, b: real, t: real)
    requires t != 0.0
    ensures a / t + b / t == (a + b) / t
  {}

  /** Whatever the configured weights, the normalised ones are a mix. */
  lemma NormalizedIsMix(raw: seq<real>)
    requires |raw| == CLASSES
    ensures Mix(Normalized(raw))
  {
    var w := Normalized(raw);
    if TotalWeight(raw) <= 0.0 {
      UniformSum(w);
    } else {
      var t := TotalWeight(raw);
      ScaledSum(Weights(raw), t, |raw|);
      assert t / t == 1.0;
      forall i | 0 <= i < |w| ensures w[i] >= 0.0 { QuotientSign(Weights(raw)[i], t); }
    }
  }

  /** Normalising keeps the proportions of the positive weights, gives the others
      none, and splits evenly if there is no positive one. */
  lemma {:induction false} NormalizedProportional(raw: seq<real>, i: nat, j: nat)
    requires |raw| == CLASSES && i < CLASSES && j < CLASSES
    ensures var w := Normalized(raw);
            var x, y := if raw[i] > 0.0 then raw[i] else 0.0, if raw[j] > 0.0 then raw[j] else 0.0;
            && w[i] * y == w[j] * x
            && (y > 0.0 && x == 0.0 ==> w[i] == 0.0)
            && ((forall k :: 0 <= k < CLASSES ==> raw[k] <= 0.0) ==> w[i] == w[j])
  {
    var t := TotalWeight(raw);
    if t <= 0.0 {
      WeightWithinTotal(raw, i, |raw|);
      WeightWithinTotal(raw, j, |raw|);
    } else {
      var x, y := Weight(raw, i), Weight(raw, j);
      ScaledQuotient(x / t, t, x, y);
      ScaledQuotient(y / t, t, y, x);
      if forall k :: 0 <= k < CLASSES ==> raw[k] <= 0.0 { NothingPositive(raw, |raw|); }
      assert x == 0.0 ==> x / t == 0.0;
    }
  }

  lemma {:induction false} NothingPositive(raw: seq<real>, k: nat)
    requires k <= |raw| && forall i :: 0 <= i < |raw| ==> raw[i] <= 0.0
    ensures SumTo(Weights(raw), k) == 0.0
  {
    if k == 0 {
    } else {
      NothingPositive(raw, k - 1);
    }
  }

  lemma {:induction false} WeightWithinTotal(raw: seq<real>, i: nat, k: nat)
    requires i < k <= |raw|
    ensures 0.0 <= Weight(raw, i) <= SumTo(Weights(raw), k)
  {
    SumMonotone(Weights(raw), 0, i);
    SumMonotone(Weights(raw), i + 1, k);
  }

  lemma {:induction false} UniformSum(w: seq<real>)
    requires |w| == 6 && forall i :: 0 <= i < 6 ==> w[i] == 1.0 / 6.0
    ensures SumTo(w, 6) == 1.0
  {
    assert SumTo(w, 1) == w[0];
    assert SumTo(w, 2) == w[0] + w[1];
    assert SumTo(w, 3) == w[0] + w[1] + w[2];
    assert SumTo(w, 4) == w[0] + w[1] + w[2] + w[3];
    assert SumTo(w, 5) == w[0] + w[1] + w[2] + w[3] + w[4];
  }

  // ----------------------------------------------------------------- picking

  // The first class whose cumulative weight exceeds pos, else the last.
  function PickFrom(w: seq<real>, pos: real, k: nat): (c: nat)
    requires |w| > 0 && k <= |w|
    ensures c < |w|
    decreases |w| - k
  {
    if k == |w| then |w| - 1
    else if pos < SumTo(w, k + 1) then k
    else PickFrom(w, pos, k + 1)
  }

  method PickClass(w: seq<real>, pos: real) returns (c: nat)
    requires |w| > 0
    ensures c == PickFrom(w, pos, 0)
  {
    var acc := 0.0;
    for i := 0 to |w|
      invariant acc == SumTo(w, i)
      invariant PickFrom(w, pos, 0) == PickFrom(w, pos, i)
    {
      acc := acc + w[i];
      if pos < acc { return i; }
    }
    return |w| - 1;
  }

  lemma {:induction false} SumMonotone(w: seq<real>, j: nat, k: nat)
    requires j <= k <= |w| && forall i :: 0 <= i < |w| ==> w[i] >= 0.0
    ensures SumTo(w, j) <= SumTo(w, k)
    decreases k - j
  {
    if j < k { SumMonotone(w, j, k - 1); }
  }

  /** A class is picked exactly on its own interval of the cumulative
      distribution; below one the tail fall-back is never taken. */
  lemma {:induction false} PickIff(w: seq<real>, pos: real, c: nat)
    requires Mix(w) && 0.0 <= pos < 1.0 && c < |w|
    ensures PickFrom(w, pos, 0) == c <==> SumTo(w, c) <= pos < SumTo(w, c + 1)
  {
    PickAbove(w, pos, 0);
    var d := PickFrom(w, pos, 0);
    if SumTo(w, c) <= pos < SumTo(w, c + 1) {
      if c < d { SumMonotone(w, c + 1, d); }
      if d < c { SumMonotone(w, d + 1, c); }
    }
  }

  lemma {:induction false} PickAbove(w: seq<real>, pos: real, k: nat)
    requires Mix(w) && pos < 1.0 && k <= |w| && SumTo(w, k) <= pos
    ensures var d := PickFrom(w, pos, k); SumTo(w, d) <= pos < SumTo(w, d + 1)
    decreases |w| - k
  {
    if k < |w| && pos >= SumTo(w, k + 1) { PickAbove(w, pos, k + 1); }
  }

  // -------------------------------------------------------------- the flow pool

  // Slot s of n samples the midpoint (s + 0.5) / n.
  function SlotClass(w: seq<real>, n: nat, s: nat): nat
    requires |w| > 0 && n > 0
  {
    PickFrom(w, (s as real + 0.5) / n as real, 0)
  }

  function BuildFlowPool(raw: seq<real>, poolLen: nat): (pool: seq<nat>)
    requires |raw| == CLASSES
  {
    var n := if poolLen < 1 then 1 else poolLen;
    seq(n, s requires 0 <= s < n => SlotClass(Normalized(raw), n, s))
  }

  // How many of the first m slots have class c.
  function ClassCount(w: seq<real>, n: nat, m: nat, c: nat): nat
    requires |w| > 0 && n > 0
  {
    if m == 0 then 0 else ClassCount(w, n, m - 1, c) + (if SlotClass(w, n, m - 1) == c then 1 else 0)
  }

  // How many of the first m midpoints s + 0.5 lie below y.
  function MidpointsBelow(m: nat, y: real): nat {
    if m == 0 then 0 else MidpointsBelow(m - 1, y) + (if (m - 1) as real + 0.5 < y then 1 else 0)
  }

  lemma {:induction false} MidpointsFull(m: nat, y: real)
    requires m as real <= y
    ensures MidpointsBelow(m, y) == m
  {
    if m == 0 {
    } else {
      MidpointsFull(m - 1, y);
    }
  }

  // Rounding: the count is within half of y.
  lemma {:induction false} MidpointsRound(m: nat, y: real)
    requires 0.0 <= y <= m as real
    ensures y - 0.5 <= MidpointsBelow(m, y) as real < y + 0.5
  {
    if m == 0 {
    } else {
      if y <= (m - 1) as real { MidpointsRound(m - 1, y); } else { MidpointsFull(m - 1, y); }
    }
  }

  lemma MidpointBelowIff(s: nat, n: nat, x: real)
    requires n > 0
    ensures (s as real + 0.5) / n as real < x <==> s as real + 0.5 < n as real * x
  {
    var a, d := s as real + 0.5, n as real;
    var q := a / d;
    assert q * d == a;
    if q < x { ProductLt(q, x, d); } else { ProductLe(x, q, d); }
  }

  // Where class c's interval begins, measured in slots.
  ghost function Edge(w: seq<real>, n: nat, c: nat): real
    requires c <= |w|
  {
    n as real * SumTo(w, c)
  }

  lemma SlotInInterval(w: seq<real>, n: nat, s: nat, c: nat)
    requires Mix(w) && s < n && c < |w|
    ensures SlotClass(w, n, s) == c <==> Edge(w, n, c) <= s as real + 0.5 < Edge(w, n, c + 1)
    ensures s as real + 0.5 < Edge(w, n, c) ==> s as real + 0.5 < Edge(w, n, c + 1)
  {
    MidpointInUnit(s, n);
    PickIff(w, (s as real + 0.5) / n as real, c);
    MidpointBelowIff(s, n, SumTo(w, c + 1));
    MidpointBelowIff(s, n, SumTo(w, c));
    SumMonotone(w, c, c + 1);
  }

  lemma {:induction false} CountIsDifference(w: seq<real>, n: nat, m: nat, c: nat)
    requires Mix(w) && n > 0 && m <= n && c < |w|
    ensures ClassCount(w, n, m, c) == MidpointsBelow(m, Edge(w, n, c + 1)) - MidpointsBelow(m, Edge(w, n, c))
  {
    hide Edge, Mix, SlotClass;
    if m == 0 {
    } else {
      CountIsDifference(w, n, m - 1, c);
      SlotInInterval(w, n, m - 1, c);
    }
  }

  lemma EdgesInRange(w: seq<real>, n: nat, c: nat)
    requires Mix(w) && c < |w|
    ensures 0.0 <= Edge(w, n, c) <= Edge(w, n, c + 1) <= n as real
    ensures Edge(w, n, c + 1) == Edge(w, n, c) + n as real * w[c]
  {
    SumMonotone(w, 0, c);
    SumMonotone(w, c, c + 1);
    SumMonotone(w, c + 1, |w|);
    ProductLe(0.0, SumTo(w, c), n as real);
    ProductLe(SumTo(w, c), SumTo(w, c + 1), n as real);
    ProductLe(SumTo(w, c + 1), 1.0, n as real);
  }

  lemma MidpointInUnit(s: nat, n: nat)
    requires s < n
    ensures 0.0 <= (s as real + 0.5) / n as real < 1.0
  {
    MidpointBelowIff(s, n, 1.0);
    MidpointBelowIff(s, n, 0.0);
  }

  /** Quotas: for every mix and pool length, a class's share of the pool differs
      from its exact quota by less than one slot, and a zero-weight class gets
      none. */
  lemma {:induction false} QuotaWithinOne(w: seq<real>, n: nat, c: nat)
    requires Mix(w) && n > 0 && c < |w|
    ensures -1.0 < ClassCount(w, n, n, c) as real - n as real * w[c] < 1.0
    ensures w[c] == 0.0 ==> ClassCount(w, n, n, c) == 0
  {
    hide Edge, Mix, ClassCount;
    CountIsDifference(w, n, n, c);
    EdgesInRange(w, n, c);
    MidpointsRound(n, Edge(w, n, c));
    MidpointsRound(n, Edge(w, n, c + 1));
    if w[c] == 0.0 { assert n as real * w[c] == 0.0; }
  }

  /** Classes form contiguous blocks in class order. */
  lemma SlotsOrdered(w: seq<real>, n: nat, s: nat, s': nat)
    requires Mix(w) && s <= s' < n
    ensures SlotClass(w, n, s) <= SlotClass(w, n, s')
  {
    var p, q := (s as real + 0.5) / n as real, (s' as real + 0.5) / n as real;
    MidpointInUnit(s, n);
    MidpointInUnit(s', n);
    assert p <= q by { if q < p { MidpointBelowIff(s', n, p); } MidpointBelowIff(s, n, p); }
    var c, d := SlotClass(w, n, s), SlotClass(w, n, s');
    PickIff(w, p, c);
    PickIff(w, q, d);
    if d < c { SumMonotone(w, d + 1, c); }
  }

  function Occurrences(pool: seq<nat>, c: nat): nat {
    if pool == [] then 0
    else Occurrences(pool[..|pool| - 1], c) + (if pool[|pool| - 1] == c then 1 else 0)
  }

  lemma {:induction false} OccurrencesAreCounts(w: seq<real>, n: nat, pool: seq<nat>, c: nat)
    requires |w| > 0 && n > 0 && forall s :: 0 <= s < |pool| ==> pool[s] == SlotClass(w, n, s)
    ensures Occurrences(pool, c) == ClassCount(w, n, |pool|, c)
  {
    if pool == [] {
    } else {
      OccurrencesAreCounts(w, n, pool[..|pool| - 1], c);
    }
  }

  lemma PoolSlots(raw: seq<real>, poolLen: nat)
    requires |raw| == CLASSES
    ensures var pool := BuildFlowPool(raw, poolLen);
            && |pool| == (if poolLen < 1 then 1 else poolLen)
            && forall s :: 0 <= s < |pool| ==> pool[s] == SlotClass(Normalized(raw), |pool|, s)
  {
    hide SlotClass, Normalized;
  }

  /** The pool the harness builds, for any configured weights and length. */
  lemma {:induction false} PoolQuota(raw: seq<real>, poolLen: nat, c: nat)
    requires |raw| == CLASSES && c < CLASSES
    ensures var pool := BuildFlowPool(raw, poolLen);
            var w := Normalized(raw);
            && |pool| == (if poolLen < 1 then 1 else poolLen)
            && -1.0 < Occurrences(pool, c) as real - |pool| as real * w[c] < 1.0
            && (w[c] == 0.0 ==> Occurrences(pool, c) == 0)
            && forall s, s' :: 0 <= s <= s' < |pool| ==> pool[s] <= pool[s']
  {
    hide Mix, SlotClass, Normalized, ClassCount, BuildFlowPool, Occurrences;
    var pool, w := BuildFlowPool(raw, poolLen), Normalized(raw);
    PoolSlots(raw, poolLen);
    NormalizedIsMix(raw);
    QuotaWithinOne(w, |pool|, c);
    OccurrencesAreCounts(w, |pool|, pool, c);
    forall s, s' | 0 <= s <= s' < |pool| ensures pool[s] <= pool[s'] { SlotsOrdered(w, |pool|, s, s'); }
  }

  // -------------------------------------------------------------- where blocks end

  lemma EdgeInRange(w: seq<real>, n: nat, c: nat)
    requires Mix(w) && c <= |w|
    ensures 0.0 <= Edge(w, n, c) <= n as real
  {
    SumMonotone(w, 0, c);
    SumMonotone(w, c, |w|);
    ProductLe(0.0, SumTo(w, c), n as real);
    ProductLe(SumTo(w, c), 1.0, n as real);
  }

  function CountBelow(pool: seq<nat>, c: nat): nat {
    if pool == [] then 0
    else CountBelow(pool[..|pool| - 1], c) + (if pool[|pool| - 1] < c then 1 else 0)
  }

  lemma SlotBelowIff(w: seq<real>, n: nat, s: nat, c: nat)
    requires Mix(w) && s < n && c <= |w|
    ensures SlotClass(w, n, s) < c <==> s as real + 0.5 < Edge(w, n, c)
  {
    var pos := (s as real + 0.5) / n as real;
    MidpointInUnit(s, n);
    MidpointBelowIff(s, n, SumTo(w, c));
    PickAbove(w, pos, 0);
    var d := SlotClass(w, n, s);
    if d < c { SumMonotone(w, d + 1, c); } else { SumMonotone(w, c, d); }
  }

  lemma {:induction false} CountBelowIsMidpoints(w: seq<real>, n: nat, pool: seq<nat>, c: nat)
    requires Mix(w) && |pool| <= n && c <= |w| && n > 0
    requires forall s :: 0 <= s < |pool| ==> pool[s] == SlotClass(w, n, s)
    ensures CountBelow(pool, c) == MidpointsBelow(|pool|, Edge(w, n, c))
  {
    hide Mix, SlotClass, Edge;
    if pool == [] {
    } else {
      CountBelowIsMidpoints(w, n, pool[..|pool| - 1], c);
      SlotBelowIff(w, n, |pool| - 1, c);
    }
  }

  /** Block boundaries are rounded to the nearest slot: the slots of the classes
      before c number within half a slot of their joint share. */
  lemma {:induction false} PoolRounds(raw: seq<real>, poolLen: nat, c: nat)
    requires |raw| == CLASSES && c <= CLASSES
    ensures var pool, w := BuildFlowPool(raw, poolLen), Normalized(raw);
            -0.5 <= CountBelow(pool, c) as real - |pool| as real * SumTo(w, c) < 0.5
  {
    hide SlotClass, Normalized, BuildFlowPool, CountBelow, MidpointsBelow, Mix, SumTo;
    var pool, w := BuildFlowPool(raw, poolLen), Normalized(raw);
    PoolSlots(raw, poolLen);
    NormalizedIsMix(raw);
    CountBelowIsMidpoints(w, |pool|, pool, c);
    EdgeInRange(w, |pool|, c);
    MidpointsRound(|pool|, Edge(w, |pool|, c));
  }
}
