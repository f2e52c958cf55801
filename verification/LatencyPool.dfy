/** Exact nearest-rank percentiles over pooled recorders
    (bench/controlplane/measure.go). Durations are integers in nanoseconds;
    milliseconds and rates are reals. */
module LatencyPool {
  import opened Ordering
  import opened Reals

  /** The nearest-rank percentile of a non-empty sample, in nanoseconds. */
  function PercentileNs(samples: seq<int>, p: real): int
    requires samples != []
  {
    AtRank(samples, NearestRank(p, |samples|) - 1, IntLe)
  }

  function PercentileMs(samples: seq<int>, p: real): real {
    if samples == [] then 0.0 else PercentileNs(samples, p) as real / 1000000.0
  }

  // ------------------------------------------------------------------ recorders

  datatype EndpointLatency = EndpointLatency(
    count: nat, errors: nat, requestsPerSec: real, p50: real, p95: real, p99: real, max: real)

  class LatencyRecorder {
    var samples: seq<int>
    var count: nat
    var errors: nat
    var totalDur: int

    ghost predicate Valid()
      reads this
    {
      count == |samples| && errors <= count && totalDur == SumOf(samples)
    }

    constructor ()
      ensures Valid() && samples == [] && errors == 0
    {
      samples, count, errors, totalDur := [], 0, 0, 0;
    }

    method Record(d: int, failed: bool)
      requires Valid()
      modifies this
      ensures Valid()
      ensures samples == old(samples) + [d]
      ensures errors == old(errors) + (if failed then 1 else 0)
    {
      SumAppend(samples, d);
      samples := samples + [d];
      count := count + 1;
      totalDur := totalDur + d;
      if failed { errors := errors + 1; }
    }

    function Finish(elapsed: real): EndpointLatency
      reads this
    {
      EndpointLatency(count, errors, if elapsed > 0.0 then count as real / elapsed else 0.0,
                      PercentileMs(samples, 50.0), PercentileMs(samples, 95.0),
                      PercentileMs(samples, 99.0), PercentileMs(samples, 100.0))
    }
  }

  function SumOf(xs: seq<int>): int { if xs == [] then 0 else SumOf(xs[..|xs| - 1]) + xs[|xs| - 1] }

  lemma {:induction false} SumAppend(xs: seq<int>, x: int)
    ensures SumOf(xs + [x]) == SumOf(xs) + x
  {
    assert (xs + [x])[..|xs|] == xs;
  }

  datatype Tier = Tier(
    endpoints: seq<EndpointLatency>, overallP99: real, overallRequestsPerSec: real, errorRate: real)

  function Pool(parts: seq<seq<int>>): seq<int> {
    if parts == [] then [] else Pool(parts[..|parts| - 1]) + parts[|parts| - 1]
  }

  function SamplesOf(recorders: seq<LatencyRecorder>): (r: seq<seq<int>>)
    reads recorders
    ensures |r| == |recorders| && forall i :: 0 <= i < |r| ==> r[i] == recorders[i].samples
  {
    if recorders == [] then []
    else SamplesOf(recorders[..|recorders| - 1]) + [recorders[|recorders| - 1].samples]
  }

  function ErrorsOf(recorders: seq<LatencyRecorder>): nat
    reads recorders
  {
    if recorders == [] then 0
    else ErrorsOf(recorders[..|recorders| - 1]) + recorders[|recorders| - 1].errors
  }

  /** The tier's p99 is the percentile of the union of all samples, and its
      error rate is total errors over total requests, zero when there are
      none; the recorders are only read. */
  method AggregateTier(elapsed: real, recorders: seq<LatencyRecorder>) returns (tier: Tier)
    requires forall r :: r in recorders ==> r.Valid()
    ensures |tier.endpoints| == |recorders|
    ensures forall i :: 0 <= i < |recorders| ==> tier.endpoints[i] == recorders[i].Finish(elapsed)
    ensures tier.overallP99 == PercentileMs(Pool(SamplesOf(recorders)), 99.0)
    ensures tier.overallRequestsPerSec ==
            if elapsed > 0.0 then |Pool(SamplesOf(recorders))| as real / elapsed else 0.0
    ensures var n := |Pool(SamplesOf(recorders))|;
            tier.errorRate == if n > 0 then ErrorsOf(recorders) as real / n as real else 0.0
  {
    hide PercentileMs, LatencyRecorder.Finish, Pool, ErrorsOf, SumOf;
    assert Pool(SamplesOf([])) == [] && ErrorsOf([]) == 0 by { PoolEmpty(); }
    assert recorders[..0] == [];
    var endpoints: seq<EndpointLatency> := [];
    var all: seq<int> := [];
    var totalCount, totalErrors := 0, 0;
    for i := 0 to |recorders|
      invariant |endpoints| == i && forall k :: 0 <= k < i ==> endpoints[k] == recorders[k].Finish(elapsed)
      invariant all == Pool(SamplesOf(recorders[..i])) && totalCount == |all|
      invariant totalErrors == ErrorsOf(recorders[..i])
    {
      assert recorders[i].Valid();
      endpoints := endpoints + [recorders[i].Finish(elapsed)];
      PoolStep(recorders, i);
      all := all + recorders[i].samples;
      totalCount := totalCount + recorders[i].count;
      totalErrors := totalErrors + recorders[i].errors;
    }
    assert recorders[..|recorders|] == recorders;
    tier := Tier(endpoints, PercentileMs(all, 99.0),
                 if elapsed > 0.0 then totalCount as real / elapsed else 0.0,
                 if totalCount > 0 then totalErrors as real / totalCount as real else 0.0);
  }

  lemma PoolEmpty()
    ensures Pool(SamplesOf([])) == [] && ErrorsOf([]) == 0
  {}

  lemma PoolStep(recorders: seq<LatencyRecorder>, i: nat)
    requires i < |recorders|
    ensures Pool(SamplesOf(recorders[..i + 1])) == Pool(SamplesOf(recorders[..i])) + recorders[i].samples
    ensures ErrorsOf(recorders[..i + 1]) == ErrorsOf(recorders[..i]) + recorders[i].errors
  {
    assert recorders[..i + 1][..i] == recorders[..i];
    var s := SamplesOf(recorders[..i + 1]);
    assert s[..i] == SamplesOf(recorders[..i]);
  }

  // ------------------------------------------------------------------- ranks add

  // Ranks of parts against the rank of the whole, both ways.
  lemma RanksAdd(p: real, a: nat, b: nat)
    requires a > 0 && b > 0
    ensures NearestRank(p, a) + NearestRank(p, b) - 1 <= NearestRank(p, a + b)
    ensures NearestRank(p, a + b) <= NearestRank(p, a) + NearestRank(p, b)
  {
    hide NearestRank, Ceil;
    var x, ra, rb := p / 100.0, a as real, b as real;
    var u, v := x * ra, x * rb;
    assert u + v == x * (a + b) as real;
    CeilAdd(u, v);
    RankCases(p, a, u);
    RankCases(p, b, v);
    RankCases(p, a + b, u + v);
  }

  // The three regimes of the clamp.
  lemma RankCases(p: real, n: nat, u: real)
    requires n > 0 && u == p / 100.0 * n as real
    ensures p <= 0.0 ==> NearestRank(p, n) == 1
    ensures 0.0 < p <= 100.0 ==> NearestRank(p, n) == Ceil(u)
    ensures p > 100.0 ==> NearestRank(p, n) == n
  {
    var x, y := p / 100.0, n as real;
    if p <= 0.0 {
      ProductSign(-x, y);
      assert u <= 0.0;
    } else if p <= 100.0 {
      ProductSign(x, y);
      ProductSign(1.0 - x, y);
      assert 0.0 < u <= y;
    } else {
      ProductSign(x - 1.0, y);
      assert u >= y;
    }
  }

  lemma CeilAdd(u: real, v: real)
    ensures Ceil(u) + Ceil(v) - 1 <= Ceil(u + v) <= Ceil(u) + Ceil(v)
  {}

  // ------------------------------------------------------------------- theorems

  /** A lower bound of every recorder's percentile bounds the pooled one; a
      recorder without samples has none and adds nothing ... */
  lemma {:induction false} PooledAtLeast(parts: seq<seq<int>>, p: real, lo: int)
    requires forall i :: 0 <= i < |parts| && parts[i] != [] ==> lo <= PercentileNs(parts[i], p)
    ensures Pool(parts) != [] ==> CountLess(Pool(parts), lo, IntLe) <= NearestRank(p, |Pool(parts)|) - 1
  {
    hide NearestRank, PercentileNs;
    if parts == [] {
    } else {
      var n := |parts| - 1;
      var rest, last := Pool(parts[..n]), parts[n];
      PooledAtLeast(parts[..n], p, lo);
      if last == [] {
        assert Pool(parts) == rest;
      } else {
        PartLess(last, p, lo);
        if rest == [] {
          assert Pool(parts) == last;
        } else {
          CountConcat(rest, last, lo, IntLe);
          RanksAdd(p, |rest|, |last|);
        }
      }
    }
  }

  lemma {:induction false} PartLess(samples: seq<int>, p: real, v: int)
    requires samples != []
    ensures v <= PercentileNs(samples, p) <==> CountLess(samples, v, IntLe) <= NearestRank(p, |samples|) - 1
    ensures PercentileNs(samples, p) <= v <==> CountLe(samples, v, IntLe) >= NearestRank(p, |samples|)
  {
    IntOrder();
    RankAtLeast(samples, NearestRank(p, |samples|) - 1, v, IntLe);
    RankAtMost(samples, NearestRank(p, |samples|) - 1, v, IntLe);
  }

  /** ... and so does an upper bound. */
  lemma {:induction false} PooledAtMost(parts: seq<seq<int>>, p: real, hi: int)
    requires forall i :: 0 <= i < |parts| && parts[i] != [] ==> PercentileNs(parts[i], p) <= hi
    ensures Pool(parts) != [] ==> CountLe(Pool(parts), hi, IntLe) >= NearestRank(p, |Pool(parts)|)
  {
    hide NearestRank, PercentileNs;
    if parts == [] {
    } else {
      var n := |parts| - 1;
      var rest, last := Pool(parts[..n]), parts[n];
      PooledAtMost(parts[..n], p, hi);
      if last == [] {
        assert Pool(parts) == rest;
      } else {
        PartLess(last, p, hi);
        if rest == [] {
          assert Pool(parts) == last;
        } else {
          CountConcat(rest, last, hi, IntLe);
          RanksAdd(p, |rest|, |last|);
        }
      }
    }
  }

  lemma {:induction false} PoolEmptyIff(parts: seq<seq<int>>)
    ensures Pool(parts) == [] <==> forall i :: 0 <= i < |parts| ==> parts[i] == []
  {
    if parts == [] {
    } else {
      var n := |parts| - 1;
      PoolEmptyIff(parts[..n]);
      assert forall i :: 0 <= i < n ==> parts[..n][i] == parts[i];
    }
  }

  /** For every split of a sample over recorders, some perhaps empty, and every p,
      the pooled percentile lies between the least and the greatest of the
      recorders' own percentiles. */
  lemma {:induction false} PooledBetween(parts: seq<seq<int>>, p: real, lo: int, hi: int)
    requires exists i :: 0 <= i < |parts| && parts[i] != []
    requires forall i :: 0 <= i < |parts| && parts[i] != [] ==> lo <= PercentileNs(parts[i], p) <= hi
    ensures Pool(parts) != [] && lo <= PercentileNs(Pool(parts), p) <= hi
  {
    hide PercentileNs, NearestRank, Pool;
    PoolEmptyIff(parts);
    PooledAtLeast(parts, p, lo);
    PooledAtMost(parts, p, hi);
    PartLess(Pool(parts), p, lo);
    PartLess(Pool(parts), p, hi);
  }

  /** Percentiles are monotone in p, and p = 100 is the true maximum. */
  lemma PercentileMonotone(samples: seq<int>, p: real, q: real)
    requires samples != [] && p <= q
    ensures PercentileNs(samples, p) <= PercentileNs(samples, q)
  {
    var x := |samples| as real;
    ProductSign(q / 100.0 - p / 100.0, x);
    assert p / 100.0 * x <= q / 100.0 * x;
    IntOrder();
    SortAscends(samples, IntLe);
  }

  lemma PercentileHundredIsMax(samples: seq<int>, x: int)
    requires x in samples
    ensures x <= PercentileNs(samples, 100.0) && PercentileNs(samples, 100.0) in samples
  {
    var n := |samples|;
    assert 100.0 / 100.0 * n as real == n as real;
    IntOrder();
    SortAscends(samples, IntLe);
    SortPermutes(samples, IntLe);
    var s := Sort(samples, IntLe);
    AtRankCounts(samples, n - 1, IntLe);
    assert x in multiset(s);
  }

  /** A recorder's summary columns are ordered, whatever was recorded. */
  lemma SummaryOrdered(r: LatencyRecorder, elapsed: real)
    ensures var e := r.Finish(elapsed); e.p50 <= e.p95 <= e.p99 <= e.max
    ensures r.samples != [] ==> forall x <- r.samples :: x as real / 1000000.0 <= r.Finish(elapsed).max
  {
    if r.samples != [] {
      hide PercentileNs;
      PercentileMonotone(r.samples, 50.0, 95.0);
      PercentileMonotone(r.samples, 95.0, 99.0);
      PercentileMonotone(r.samples, 99.0, 100.0);
      forall x | x in r.samples ensures x <= PercentileNs(r.samples, 100.0) {
        PercentileHundredIsMax(r.samples, x);
      }
    }
  }

  // -------------------------------------------------------------- what is reported

  // The least sample that covers p percent of the samples.
  ghost predicate IsPercentile(samples: seq<int>, p: real, v: int) {
    && v in samples
    && CountLe(samples, v, IntLe) as real * 100.0 >= p * |samples| as real
    && forall u <- samples :: u < v ==> CountLe(samples, u, IntLe) as real * 100.0 < p * |samples| as real
  }

  /** The nearest-rank percentile by its meaning, for p above 0 and up to 100. */
  lemma {:induction false} PercentileExact(samples: seq<int>, p: real)
    requires samples != [] && 0.0 < p <= 100.0
    ensures IsPercentile(samples, p, PercentileNs(samples, p))
  {
    hide CountLe, CountLess, NearestRank, AtRank;
    var n := |samples|;
    var r, v := NearestRank(p, n), PercentileNs(samples, p);
    IntOrder();
    NearestRankExact(p, n);
    AtRankCounts(samples, r - 1, IntLe);
    forall u | u in samples && u < v ensures CountLe(samples, u, IntLe) as real * 100.0 < p * n as real {
      RankAtMost(samples, r - 1, u, IntLe);
    }
  }

  /** A recorder's summary: its counters, its rate over the elapsed time, and the
      50th, 95th, 99th and 100th percentiles in milliseconds, zero without
      samples. */
  lemma {:induction false} SummaryExact(r: LatencyRecorder, elapsed: real)
    requires r.Valid()
    ensures var e := r.Finish(elapsed);
            && e.count == |r.samples| && e.errors == r.errors
            && (elapsed > 0.0 ==> e.requestsPerSec * elapsed == |r.samples| as real)
            && (elapsed <= 0.0 ==> e.requestsPerSec == 0.0)
            && (r.samples == [] ==> e.p50 == 0.0 && e.p95 == 0.0 && e.p99 == 0.0 && e.max == 0.0)
            && (r.samples != [] ==>
                  && (exists v :: IsPercentile(r.samples, 50.0, v) && e.p50 * 1000000.0 == v as real)
                  && (exists v :: IsPercentile(r.samples, 95.0, v) && e.p95 * 1000000.0 == v as real)
                  && (exists v :: IsPercentile(r.samples, 99.0, v) && e.p99 * 1000000.0 == v as real)
                  && (exists v :: IsPercentile(r.samples, 100.0, v) && e.max * 1000000.0 == v as real))
  {
    hide IsPercentile, PercentileMs;
    if elapsed > 0.0 { Undivided(r.count as real, elapsed); }
    if r.samples == [] {
      NoColumn(r.samples, 50.0);
      NoColumn(r.samples, 95.0);
      NoColumn(r.samples, 99.0);
      NoColumn(r.samples, 100.0);
    } else {
      ColumnExact(r.samples, 50.0);
      ColumnExact(r.samples, 95.0);
      ColumnExact(r.samples, 99.0);
      ColumnExact(r.samples, 100.0);
    }
  }

  lemma Undivided(a: real, b: real)
    requires b > 0.0
    ensures a / b * b == a
  {}

  lemma {:induction false} NoColumn(samples: seq<int>, p: real)
    requires samples == []
    ensures PercentileMs(samples, p) == 0.0
  {}

  lemma {:induction false} ColumnExact(samples: seq<int>, p: real)
    requires samples != [] && 0.0 < p <= 100.0
    ensures exists v :: IsPercentile(samples, p, v) && PercentileMs(samples, p) * 1000000.0 == v as real
  {
    hide IsPercentile, PercentileNs;
    PercentileExact(samples, p);
  }

  function Multiplicity(parts: seq<seq<int>>, x: int): nat {
    if parts == [] then 0 else multiset(parts[0])[x] + Multiplicity(parts[1..], x)
  }

  /** The pooled samples are those of all recorders together, each as often as it
      was recorded. */
  lemma {:induction false} PoolExact(parts: seq<seq<int>>, x: int)
    ensures multiset(Pool(parts))[x] == Multiplicity(parts, x)
    decreases |parts|
  {
    if parts == [] {
    } else {
      var n := |parts| - 1;
      PoolExact(parts[..n], x);
      MultiplicityAppend(parts[..n], parts[n], x);
      assert parts[..n] + [parts[n]] == parts;
    }
  }

  lemma {:induction false} MultiplicityAppend(parts: seq<seq<int>>, last: seq<int>, x: int)
    ensures Multiplicity(parts + [last], x) == Multiplicity(parts, x) + multiset(last)[x]
  {
    if parts == [] {
      assert parts + [last] == [last] && [last][1..] == [];
    } else {
      assert (parts + [last])[1..] == parts[1..] + [last];
      MultiplicityAppend(parts[1..], last, x);
    }
  }
}
