/** The N-sample forwarding regression gate of bench/src/report.rs. Floating
    point values are reals; an infinite cost is None. The noise band is tested
    on squares, since the square root of a real is not a model value. */
module RegressionGate {
  import opened Options
  import opened Ordering
  import opened Reals

  const RAW_L3 := "raw-l3"
  const XDP := "xdp"
  const NFTABLES := "nftables"

  datatype Measurement = Measurement(mode: string, backend: string, pps: real)

  datatype Report = Report(schema: int, profile: string, points: seq<Measurement>)

  datatype Metric = RelativeCost(mode: string, backend: string) | FastPathAdvantage {
    // A cost regresses by rising, an advantage by dropping.
    predicate Rises() { RelativeCost? }
  }

  datatype Refusal = NoSamples | SchemaMismatch | ProfileMismatch | AnchorMissing | AnchorIdle

  datatype Verdict = Verdict(metric: Metric, baseline: real, median: real, variance: real, samples: nat,
                             change: real, exceeds: bool, outside: bool, flagged: bool)

  // ------------------------------------------------------------- one report

  function Get(points: seq<Measurement>, mode: string, backend: string): Option<Measurement> {
    if points == [] then None
    else if points[0].mode == mode && points[0].backend == backend then Some(points[0])
    else Get(points[1..], mode, backend)
  }

  // Nanoseconds per packet; None when the point carried no traffic.
  function NsPerPacket(m: Measurement): Option<real> {
    if m.pps <= 0.0 then None else Some(1000000000.0 / m.pps)
  }

  function Ratio(a: real, b: real): Option<real> {
    if b == 0.0 then None else Some(a / b)
  }

  function AnchorNs(r: Report): (a: Result<real, Refusal>)
    ensures a.Ok? ==> a.value > 0.0
  {
    match Get(r.points, RAW_L3, XDP)
    case None => Err(AnchorMissing)
    case Some(m) =>
      match NsPerPacket(m)
      case None => Err(AnchorIdle)
      case Some(ns) => QuotientSign(1000000000.0, m.pps); Ok(ns)
  }

  function Eval(metric: Metric, r: Report, anchor: real): Option<real>
    requires anchor > 0.0
  {
    match metric
    case RelativeCost(mode, backend) =>
      var m :- Get(r.points, mode, backend);
      var ns :- NsPerPacket(m);
      Some(ns / anchor)
    case FastPathAdvantage =>
      var x :- Get(r.points, RAW_L3, XDP);
      var n :- Get(r.points, RAW_L3, NFTABLES);
      Ratio(x.pps, n.pps)
  }

  // The metrics a baseline defines: its points other than the anchor, then
  // the fast-path advantage if both raw-L3 substrates are present.
  function CostMetrics(points: seq<Measurement>): seq<Metric> {
    if points == [] then []
    else
      var m := points[|points| - 1];
      CostMetrics(points[..|points| - 1]) +
      if m.mode == RAW_L3 && m.backend == XDP then [] else [RelativeCost(m.mode, m.backend)]
  }

  function ForwardingMetrics(b: Report): seq<Metric> {
    CostMetrics(b.points) +
    if Get(b.points, RAW_L3, XDP).Some? && Get(b.points, RAW_L3, NFTABLES).Some? then [FastPathAdvantage] else []
  }

  // -------------------------------------------------------------- statistics

  function Median(v: seq<real>): real
    requires v != []
  {
    var n := |v|;
    if n % 2 == 1 then AtRank(v, n / 2, RealLe)
    else (AtRank(v, n / 2 - 1, RealLe) + AtRank(v, n / 2, RealLe)) / 2.0
  }

  function Sum(v: seq<real>): real {
    if v == [] then 0.0 else v[0] + Sum(v[1..])
  }

  function Square(x: real): (r: real)
    ensures r >= 0.0
    ensures r == 0.0 <==> x == 0.0
  {
    ProductSign(if x < 0.0 then -x else x, if x < 0.0 then -x else x);
    x * x
  }

  function SquaredDeviations(v: seq<real>, mean: real): (r: real)
    ensures r >= 0.0
  {
    if v == [] then 0.0 else Square(v[0] - mean) + SquaredDeviations(v[1..], mean)
  }

  // Bessel-corrected; zero below two samples.
  function Variance(v: seq<real>): (r: real)
    ensures r >= 0.0
  {
    if |v| < 2 then 0.0
    else Quotient(SquaredDeviations(v, Sum(v) / |v| as real), |v| as real - 1.0)
  }

  function Quotient(a: real, b: real): (r: real)
    requires b > 0.0
    ensures a >= 0.0 ==> r >= 0.0
    ensures r == a / b
  {
    a / b
  }

  // --------------------------------------------------------------- one verdict

  predicate Exceeds(metric: Metric, change: real, threshold: real) {
    if metric.Rises() then change >= threshold else change <= -threshold
  }

  // The move d is larger than sigma standard deviations.
  predicate OutsideBand(d: real, sigma: real, variance: real) {
    if sigma >= 0.0 then d * d > sigma * sigma * variance else d != 0.0 || variance > 0.0
  }

  function Judge(metric: Metric, base: real, vals: seq<real>, threshold: real, sigma: real): Verdict
    requires base != 0.0 && vals != []
  {
    var median, variance := Median(vals), Variance(vals);
    var change := (median - base) / base;
    var exceeds := Exceeds(metric, change, threshold);
    var outside := OutsideBand(median - base, sigma, variance);
    Verdict(metric, base, median, variance, |vals|, change, exceeds, outside, exceeds && outside)
  }

  // ------------------------------------------------------------------ the gate

  ghost predicate AllPositive(s: seq<real>) { forall i :: 0 <= i < |s| ==> s[i] > 0.0 }

  function Compatible(b: Report, s: Report): Option<Refusal> {
    if b.schema != s.schema then Some(SchemaMismatch)
    else if b.profile != s.profile then Some(ProfileMismatch)
    else None
  }

  function FirstMismatch(b: Report, samples: seq<Report>): Option<Refusal> {
    if samples == [] then None
    else if Compatible(b, samples[0]).Some? then Compatible(b, samples[0])
    else FirstMismatch(b, samples[1..])
  }

  function Anchors(samples: seq<Report>): (r: Result<seq<real>, Refusal>)
    ensures r.Ok? ==> |r.value| == |samples| && AllPositive(r.value)
  {
    if samples == [] then Ok([])
    else
      var a :- AnchorNs(samples[0]);
      var rest :- Anchors(samples[1..]);
      Ok([a] + rest)
  }

  // Values of the metric on the samples that can form it.
  function SampleValues(metric: Metric, samples: seq<Report>, anchors: seq<real>): seq<real>
    requires |anchors| == |samples| && AllPositive(anchors)
  {
    if samples == [] then []
    else
      var rest := SampleValues(metric, samples[1..], anchors[1..]);
      match Eval(metric, samples[0], anchors[0])
      case None => rest
      case Some(x) => [x] + rest
  }

  function MetricVerdict(metric: Metric, b: Report, anchor: real, samples: seq<Report>, anchors: seq<real>,
                         threshold: real, sigma: real): Option<Verdict>
    requires anchor > 0.0 && |anchors| == |samples| && AllPositive(anchors)
  {
    var base :- Eval(metric, b, anchor);
    var vals := SampleValues(metric, samples, anchors);
    if base == 0.0 || vals == [] then None else Some(Judge(metric, base, vals, threshold, sigma))
  }

  function Verdicts(metrics: seq<Metric>, b: Report, anchor: real, samples: seq<Report>, anchors: seq<real>,
                    threshold: real, sigma: real): seq<Verdict>
    requires anchor > 0.0 && |anchors| == |samples| && AllPositive(anchors)
  {
    if metrics == [] then []
    else
      var last := |metrics| - 1;
      Verdicts(metrics[..last], b, anchor, samples, anchors, threshold, sigma) +
      match MetricVerdict(metrics[last], b, anchor, samples, anchors, threshold, sigma)
      case None => []
      case Some(v) => [v]
  }

  function Detect(b: Report, samples: seq<Report>, threshold: real, sigma: real): Result<seq<Verdict>, Refusal> {
    if samples == [] then Err(NoSamples)
    else if FirstMismatch(b, samples).Some? then Err(FirstMismatch(b, samples).value)
    else
      var anchor :- AnchorNs(b);
      var anchors :- Anchors(samples);
      Ok(Verdicts(ForwardingMetrics(b), b, anchor, samples, anchors, threshold, sigma))
  }

  method EnumerateMetrics(b: Report) returns (metrics: seq<Metric>)
    ensures metrics == ForwardingMetrics(b)
  {
    metrics := [];
    for i := 0 to |b.points|
      invariant metrics == CostMetrics(b.points[..i])
    {
      var m := b.points[i];
      assert b.points[..i + 1][..i] == b.points[..i];
      if m.mode == RAW_L3 && m.backend == XDP { continue; }
      metrics := metrics + [RelativeCost(m.mode, m.backend)];
    }
    assert b.points[..|b.points|] == b.points;
    if Get(b.points, RAW_L3, XDP).Some? && Get(b.points, RAW_L3, NFTABLES).Some? {
      metrics := metrics + [FastPathAdvantage];
    }
  }

  method CheckSamples(b: Report, samples: seq<Report>) returns (e: Option<Refusal>)
    ensures e == FirstMismatch(b, samples)
  {
    for i := 0 to |samples|
      invariant FirstMismatch(b, samples) == FirstMismatch(b, samples[i..])
    {
      assert samples[i..][1..] == samples[i + 1..];
      var s := samples[i];
      if b.schema != s.schema { return Some(SchemaMismatch); }
      if b.profile != s.profile { return Some(ProfileMismatch); }
    }
    return None;
  }

  method DetectForwarding(b: Report, samples: seq<Report>, threshold: real, sigma: real)
    returns (r: Result<seq<Verdict>, Refusal>)
    ensures r == Detect(b, samples, threshold, sigma)
  {
    hide Median, Variance, Eval, SampleValues, Exceeds, OutsideBand;
    hide Get, AnchorNs, Anchors, FirstMismatch, ForwardingMetrics;
    if samples == [] { return Err(NoSamples); }
    var mismatch := CheckSamples(b, samples);
    if mismatch.Some? { return Err(mismatch.value); }
    var anchor :- AnchorNs(b);
    var anchors :- Anchors(samples);
    var metrics := EnumerateMetrics(b);
    var out: seq<Verdict> := [];
    for i := 0 to |metrics|
      invariant out == Verdicts(metrics[..i], b, anchor, samples, anchors, threshold, sigma)
    {
      assert metrics[..i + 1][..i] == metrics[..i];
      var metric := metrics[i];
      var base := Eval(metric, b, anchor);
      if base.None? || base.value == 0.0 { continue; }
      var vals := SampleValues(metric, samples, anchors);
      if vals == [] { continue; }
      out := out + [Judge(metric, base.value, vals, threshold, sigma)];
    }
    assert metrics[..|metrics|] == metrics;
    return Ok(out);
  }

  // ---------------------------------------------------------------- what is read

  /** `get` returns the first point with both labels, and nothing if there is
      none. */
  lemma {:induction false} GetIsFirst(points: seq<Measurement>, mode: string, backend: string)
    ensures match Get(points, mode, backend)
            case None => forall m <- points :: m.mode != mode || m.backend != backend
            case Some(m) => exists k :: IsFirst(points, mode, backend, k) && points[k] == m
  {
    if points == [] {
    } else if points[0].mode == mode && points[0].backend == backend {
      assert IsFirst(points, mode, backend, 0);
    } else {
      GetIsFirst(points[1..], mode, backend);
      if Get(points[1..], mode, backend).Some? {
        var k :| IsFirst(points[1..], mode, backend, k) && points[1..][k] == Get(points[1..], mode, backend).value;
        assert forall j :: 0 < j <= k ==> points[j] == points[1..][j - 1];
        assert IsFirst(points, mode, backend, k + 1) && points[k + 1] == points[1..][k];
      } else {
        forall m | m in points ensures m.mode != mode || m.backend != backend {
          assert m == points[0] || m in points[1..];
        }
      }
    }
  }

  predicate IsFirst(points: seq<Measurement>, mode: string, backend: string, k: int) {
    && 0 <= k < |points| && points[k].mode == mode && points[k].backend == backend
    && forall j :: 0 <= j < k ==> points[j].mode != mode || points[j].backend != backend
  }

  /** Both metrics are ratios of rates: a relative cost is the anchor's rate over
      the point's, the advantage the xdp rate over the nftables rate. A point that
      is missing, idle, or for nftables at zero, forms no value. */
  lemma EvalExact(metric: Metric, r: Report)
    requires AnchorNs(r).Ok?
    ensures Get(r.points, "raw-l3", "xdp").Some?
    ensures var anchor := Get(r.points, "raw-l3", "xdp").value.pps;
            var v := Eval(metric, r, AnchorNs(r).value);
            match metric
            case RelativeCost(mode, backend) =>
              (match Get(r.points, mode, backend)
               case None => v == None
               case Some(m) => if m.pps > 0.0 then v == Some(anchor / m.pps) else v == None)
            case FastPathAdvantage =>
              (match Get(r.points, "raw-l3", "nftables")
               case None => v == None
               case Some(n) => if n.pps != 0.0 then v == Some(anchor / n.pps) else v == None)
  {
    hide Get;
    var p := Get(r.points, "raw-l3", "xdp").value.pps;
    match metric
    case FastPathAdvantage =>
    case RelativeCost(mode, backend) =>
      var m := Get(r.points, mode, backend);
      if m.Some? && m.value.pps > 0.0 {
        OverOver(1000000000.0, m.value.pps, p);
        assert Eval(metric, r, AnchorNs(r).value).value == p / m.value.pps;
      }
  }

  // ------------------------------------------------------------- when it refuses

  // The report's rate at the anchor point, if it has one.
  function AnchorRate(r: Report): Option<real> {
    match Get(r.points, "raw-l3", "xdp")
    case None => None
    case Some(m) => Some(m.pps)
  }

  predicate Usable(r: Report) { AnchorRate(r).Some? && AnchorRate(r).value > 0.0 }

  predicate Differs(b: Report, s: Report) { b.schema != s.schema || b.profile != s.profile }

  // The first sample that differs from the baseline, and the first unusable
  // report of a list.
  ghost predicate FirstDiffering(b: Report, samples: seq<Report>, k: int) {
    0 <= k < |samples| && Differs(b, samples[k]) && forall j :: 0 <= j < k ==> !Differs(b, samples[j])
  }

  ghost predicate FirstUnusable(reports: seq<Report>, k: int) {
    0 <= k < |reports| && !Usable(reports[k]) && forall j :: 0 <= j < k ==> Usable(reports[j])
  }

  lemma {:induction false} MismatchExact(b: Report, samples: seq<Report>)
    ensures match FirstMismatch(b, samples)
            case None => forall s <- samples :: !Differs(b, s)
            case Some(e) => exists k :: (FirstDiffering(b, samples, k) &&
                            e == if b.schema != samples[k].schema then SchemaMismatch else ProfileMismatch)
  {
    if samples == [] {
    } else if Differs(b, samples[0]) {
      assert FirstDiffering(b, samples, 0);
    } else {
      MismatchExact(b, samples[1..]);
      if FirstMismatch(b, samples[1..]).Some? {
        var k :| FirstDiffering(b, samples[1..], k) &&
          FirstMismatch(b, samples[1..]).value ==
          if b.schema != samples[1..][k].schema then SchemaMismatch else ProfileMismatch;
        assert forall j :: 0 < j <= k ==> samples[j] == samples[1..][j - 1];
        assert FirstDiffering(b, samples, k + 1) && samples[k + 1] == samples[1..][k];
      } else {
        forall s | s in samples ensures !Differs(b, s) { assert s == samples[0] || s in samples[1..]; }
      }
    }
  }

  lemma AnchorExact(r: Report)
    ensures AnchorNs(r).Ok? <==> Usable(r)
    ensures AnchorNs(r).Err? ==> AnchorNs(r).error == if AnchorRate(r).None? then AnchorMissing else AnchorIdle
  {}

  lemma {:induction false} AnchorsExact(samples: seq<Report>)
    ensures match Anchors(samples)
            case Ok(_) => forall s <- samples :: Usable(s)
            case Err(e) => exists k :: (FirstUnusable(samples, k) &&
                           e == if AnchorRate(samples[k]).None? then AnchorMissing else AnchorIdle)
  {
    hide AnchorNs, AnchorRate;
    if samples == [] {
    } else {
      AnchorExact(samples[0]);
      AnchorsExact(samples[1..]);
      if !Usable(samples[0]) {
        assert FirstUnusable(samples, 0);
      } else if Anchors(samples[1..]).Err? {
        var k :| FirstUnusable(samples[1..], k) &&
          Anchors(samples[1..]).error == if AnchorRate(samples[1..][k]).None? then AnchorMissing else AnchorIdle;
        assert forall j :: 0 < j <= k ==> samples[j] == samples[1..][j - 1];
        assert FirstUnusable(samples, k + 1) && samples[k + 1] == samples[1..][k];
      } else {
        forall s | s in samples ensures Usable(s) { assert s == samples[0] || s in samples[1..]; }
      }
    }
  }

  /** When the gate refuses, exactly: no samples; else the first sample of another
      schema or profile, schema before profile; else the first report in order,
      baseline then samples, without a positive rate at raw-l3 over xdp, missing
      or not running. It answers in every other case. */
  lemma RefusesExactly(b: Report, samples: seq<Report>, threshold: real, sigma: real)
    ensures match Detect(b, samples, threshold, sigma)
            case Ok(_) =>
              samples != [] && Usable(b) && forall s <- samples :: !Differs(b, s) && Usable(s)
            case Err(NoSamples) => samples == []
            case Err(AnchorMissing) =>
              && samples != [] && (forall s <- samples :: !Differs(b, s))
              && exists k :: FirstUnusable([b] + samples, k) && AnchorRate(([b] + samples)[k]).None?
            case Err(AnchorIdle) =>
              && samples != [] && (forall s <- samples :: !Differs(b, s))
              && exists k :: FirstUnusable([b] + samples, k) && AnchorRate(([b] + samples)[k]).Some?
            case Err(e) =>
              exists k :: FirstDiffering(b, samples, k) &&
                e == if b.schema != samples[k].schema then SchemaMismatch else ProfileMismatch
  {
    hide Verdicts, ForwardingMetrics, FirstMismatch, AnchorNs, Anchors, AnchorRate, FirstDiffering;
    MismatchExact(b, samples);
    AnchorExact(b);
    AnchorsExact(samples);
    if samples != [] && FirstMismatch(b, samples).None? {
      var all := [b] + samples;
      if !Usable(b) {
        assert FirstUnusable(all, 0) && all[0] == b;
      } else if Anchors(samples).Err? {
        var k :| FirstUnusable(samples, k) &&
          Anchors(samples).error == if AnchorRate(samples[k]).None? then AnchorMissing else AnchorIdle;
        assert FirstUnusable(all, k + 1) && all[k + 1] == samples[k];
      }
    }
  }

  // --------------------------------------------------------- hardware invariance

  function Faster(m: Measurement, k: real): Measurement { m.(pps := m.pps * k) }

  function Scaled(r: Report, k: real): Report {
    r.(points := seq(|r.points|, i requires 0 <= i < |r.points| => Faster(r.points[i], k)))
  }

  function ScaledAll(samples: seq<Report>, ks: seq<real>): seq<Report>
    requires |ks| == |samples|
  {
    seq(|samples|, i requires 0 <= i < |samples| => Scaled(samples[i], ks[i]))
  }

  lemma {:induction false} GetScaled(r: Report, k: real, mode: string, backend: string)
    ensures Get(Scaled(r, k).points, mode, backend) ==
            match Get(r.points, mode, backend) case None => None case Some(m) => Some(Faster(m, k))
    decreases |r.points|
  {
    if r.points == [] {
    } else {
      var rest := r.(points := r.points[1..]);
      GetScaled(rest, k, mode, backend);
      assert Scaled(r, k).points[1..] == Scaled(rest, k).points;
    }
  }

  lemma CostRatio(p: real, q: real, k: real)
    requires p > 0.0 && q > 0.0 && k > 0.0
    ensures p * k > 0.0 && q * k > 0.0
    ensures 1000000000.0 / p > 0.0 && 1000000000.0 / (p * k) > 0.0
    ensures (1000000000.0 / (q * k)) / (1000000000.0 / (p * k)) == (1000000000.0 / q) / (1000000000.0 / p)
  {
    var g := 1000000000.0;
    OverOver(g, q, p);
    OverOver(g, q * k, p * k);
    CancelFactor(p, q, k);
  }

  lemma OverOver(g: real, q: real, p: real)
    requires g > 0.0 && q > 0.0 && p > 0.0
    ensures g / p > 0.0 && (g / q) / (g / p) == p / q
  {
    var x, y := g / q, g / p;
    assert x * q == g && y * p == g;
    assert y > 0.0;
    CrossDivide(x, y, p, q);
  }

  lemma CrossDivide(x: real, y: real, p: real, q: real)
    requires y > 0.0 && q > 0.0 && x * q == y * p
    ensures x / y == p / q
  {
    var r := p / q;
    assert r * q == p;
    assert (r * y) * q == (r * q) * y;
    assert (x - r * y) * q == 0.0;
    assert x == r * y;
  }

  lemma CancelFactor(a: real, b: real, k: real)
    requires b != 0.0 && k > 0.0
    ensures b * k != 0.0 && (a * k) / (b * k) == a / b
  {
    var r := a / b;
    assert r * b == a;
    assert r * (b * k) == a * k;
  }

  lemma Sign(x: real, k: real)
    requires k > 0.0
    ensures x * k <= 0.0 <==> x <= 0.0
    ensures x * k == 0.0 <==> x == 0.0
  {}

  lemma AnchorScaled(r: Report, k: real)
    requires k > 0.0
    ensures AnchorNs(r).Err? ==> AnchorNs(Scaled(r, k)) == AnchorNs(r)
    ensures AnchorNs(r).Ok? ==> AnchorNs(Scaled(r, k)).Ok?
  {
    hide Get;
    GetScaled(r, k, RAW_L3, XDP);
    match Get(r.points, RAW_L3, XDP)
    case None =>
    case Some(m) => Sign(m.pps, k);
  }

  lemma CostScaled(mode: string, backend: string, r: Report, k: real)
    requires k > 0.0 && AnchorNs(r).Ok? && AnchorNs(Scaled(r, k)).Ok?
    ensures Eval(RelativeCost(mode, backend), Scaled(r, k), AnchorNs(Scaled(r, k)).value) ==
            Eval(RelativeCost(mode, backend), r, AnchorNs(r).value)
  {
    hide Get, Scaled;
    GetScaled(r, k, RAW_L3, XDP);
    GetScaled(r, k, mode, backend);
    var p := Get(r.points, RAW_L3, XDP).value.pps;
    if Get(r.points, mode, backend).Some? {
      var q := Get(r.points, mode, backend).value.pps;
      Sign(q, k);
      if q > 0.0 {
        CostRatio(p, q, k);
        var before, after := Eval(RelativeCost(mode, backend), r, AnchorNs(r).value),
          Eval(RelativeCost(mode, backend), Scaled(r, k), AnchorNs(Scaled(r, k)).value);
        assert before.Some? && before.value == (1000000000.0 / q) / (1000000000.0 / p);
        assert after.Some? && after.value == (1000000000.0 / (q * k)) / (1000000000.0 / (p * k));
      }
    }
  }

  lemma AdvantageScaled(r: Report, k: real)
    requires k > 0.0 && AnchorNs(r).Ok? && AnchorNs(Scaled(r, k)).Ok?
    ensures Eval(FastPathAdvantage, Scaled(r, k), AnchorNs(Scaled(r, k)).value) ==
            Eval(FastPathAdvantage, r, AnchorNs(r).value)
  {
    hide Get, Scaled, AnchorNs;
    GetScaled(r, k, RAW_L3, XDP);
    GetScaled(r, k, RAW_L3, NFTABLES);
    var x, n := Get(r.points, RAW_L3, XDP), Get(r.points, RAW_L3, NFTABLES);
    if x.Some? && n.Some? {
      RatioScaled(x.value, n.value, k);
      var r' := Scaled(r, k);
      assert Get(r'.points, RAW_L3, XDP) == Some(Faster(x.value, k));
      assert Get(r'.points, RAW_L3, NFTABLES) == Some(Faster(n.value, k));
      assert Eval(FastPathAdvantage, r', AnchorNs(r').value) == Ratio(Faster(x.value, k).pps, Faster(n.value, k).pps);
    }
  }

  lemma RatioScaled(x: Measurement, n: Measurement, k: real)
    requires k > 0.0
    ensures Ratio(Faster(x, k).pps, Faster(n, k).pps) == Ratio(x.pps, n.pps)
  {
    Sign(n.pps, k);
    if n.pps != 0.0 {
      CancelFactor(x.pps, n.pps, k);
      assert Ratio(Faster(x, k).pps, Faster(n, k).pps).value == Ratio(x.pps, n.pps).value;
    }
  }

  // A metric is a pure number: scaling the report does not move it.
  lemma EvalScaled(metric: Metric, r: Report, k: real)
    requires k > 0.0 && AnchorNs(r).Ok?
    ensures AnchorNs(Scaled(r, k)).Ok?
    ensures Eval(metric, Scaled(r, k), AnchorNs(Scaled(r, k)).value) == Eval(metric, r, AnchorNs(r).value)
  {
    hide Eval, Scaled, AnchorNs;
    AnchorScaled(r, k);
    match metric
    case RelativeCost(mode, backend) => CostScaled(mode, backend, r, k);
    case FastPathAdvantage => AdvantageScaled(r, k);
  }

  lemma {:induction false} CostMetricsScaled(r: Report, k: real)
    ensures CostMetrics(Scaled(r, k).points) == CostMetrics(r.points)
    decreases |r.points|
  {
    if r.points == [] {
    } else {
      var rest := r.(points := r.points[..|r.points| - 1]);
      CostMetricsScaled(rest, k);
      assert Scaled(r, k).points[..|r.points| - 1] == Scaled(rest, k).points;
    }
  }

  lemma MetricsScaled(r: Report, k: real)
    ensures ForwardingMetrics(Scaled(r, k)) == ForwardingMetrics(r)
  {
    hide Get, CostMetrics;
    CostMetricsScaled(r, k);
    GetScaled(r, k, RAW_L3, XDP);
    GetScaled(r, k, RAW_L3, NFTABLES);
  }

  lemma {:induction false} AnchorsScaled(samples: seq<Report>, ks: seq<real>)
    requires |ks| == |samples| && AllPositive(ks)
    ensures Anchors(samples).Err? ==> Anchors(ScaledAll(samples, ks)) == Anchors(samples)
    ensures Anchors(samples).Ok? ==> Anchors(ScaledAll(samples, ks)).Ok?
  {
    hide AnchorNs, Scaled;
    if samples == [] {
    } else {
      AnchorsScaled(samples[1..], ks[1..]);
      AnchorScaled(samples[0], ks[0]);
      assert ScaledAll(samples, ks)[1..] == ScaledAll(samples[1..], ks[1..]);
    }
  }

  lemma {:induction false} ValuesScaled(metric: Metric, samples: seq<Report>, ks: seq<real>)
    requires |ks| == |samples| && AllPositive(ks) && Anchors(samples).Ok?
    ensures Anchors(ScaledAll(samples, ks)).Ok?
    ensures SampleValues(metric, ScaledAll(samples, ks), Anchors(ScaledAll(samples, ks)).value) ==
            SampleValues(metric, samples, Anchors(samples).value)
  {
    hide AnchorNs, Scaled, Eval;
    AnchorsScaled(samples, ks);
    if samples == [] {
    } else {
      var scaled := ScaledAll(samples, ks);
      ValuesScaled(metric, samples[1..], ks[1..]);
      EvalScaled(metric, samples[0], ks[0]);
      assert scaled[1..] == ScaledAll(samples[1..], ks[1..]);
      assert Anchors(scaled).value[1..] == Anchors(scaled[1..]).value;
      assert Anchors(samples).value[1..] == Anchors(samples[1..]).value;
    }
  }

  lemma {:induction false} VerdictsScaled(metrics: seq<Metric>, b: Report, k: real, samples: seq<Report>,
                                          ks: seq<real>, threshold: real, sigma: real)
    requires k > 0.0 && |ks| == |samples| && AllPositive(ks)
    requires AnchorNs(b).Ok? && Anchors(samples).Ok?
    ensures AnchorNs(Scaled(b, k)).Ok? && Anchors(ScaledAll(samples, ks)).Ok?
    ensures Verdicts(metrics, Scaled(b, k), AnchorNs(Scaled(b, k)).value, ScaledAll(samples, ks),
                     Anchors(ScaledAll(samples, ks)).value, threshold, sigma) ==
            Verdicts(metrics, b, AnchorNs(b).value, samples, Anchors(samples).value, threshold, sigma)
  {
    hide AnchorNs, Anchors, Scaled, ScaledAll, Eval, SampleValues, Judge;
    AnchorScaled(b, k);
    AnchorsScaled(samples, ks);
    if metrics == [] {
    } else {
      var last := |metrics| - 1;
      VerdictsScaled(metrics[..last], b, k, samples, ks, threshold, sigma);
      EvalScaled(metrics[last], b, k);
      ValuesScaled(metrics[last], samples, ks);
    }
  }

  lemma {:induction false} MismatchScaled(b: Report, k: real, samples: seq<Report>, ks: seq<real>)
    requires |ks| == |samples|
    ensures FirstMismatch(Scaled(b, k), ScaledAll(samples, ks)) == FirstMismatch(b, samples)
  {
    if samples == [] {
    } else {
      MismatchScaled(b, k, samples[1..], ks[1..]);
      assert ScaledAll(samples, ks)[1..] == ScaledAll(samples[1..], ks[1..]);
    }
  }

  /** Hardware invariance: running the baseline and every sample on machines of
      other speeds, each with its own positive factor, changes nothing the gate
      reports, including its refusals. */
  lemma HardwareInvariant(b: Report, k: real, samples: seq<Report>, ks: seq<real>, threshold: real, sigma: real)
    requires k > 0.0 && |ks| == |samples| && AllPositive(ks)
    ensures Detect(Scaled(b, k), ScaledAll(samples, ks), threshold, sigma) == Detect(b, samples, threshold, sigma)
  {
    hide AnchorNs, Anchors, Scaled, Verdicts, ForwardingMetrics, FirstMismatch;
    MismatchScaled(b, k, samples, ks);
    AnchorScaled(b, k);
    AnchorsScaled(samples, ks);
    MetricsScaled(b, k);
    if AnchorNs(b).Ok? && Anchors(samples).Ok? {
      VerdictsScaled(ForwardingMetrics(b), b, k, samples, ks, threshold, sigma);
    }
  }

  // ----------------------------------------------------------- median robustness

  function CountIn(v: seq<real>, lo: real, hi: real): nat {
    if v == [] then 0 else (if lo <= v[0] <= hi then 1 else 0) + CountIn(v[1..], lo, hi)
  }

  lemma {:induction false} CountsAround(v: seq<real>, lo: real, hi: real)
    ensures CountLess(v, lo, RealLe) + CountIn(v, lo, hi) <= |v|
    ensures CountIn(v, lo, hi) <= CountLe(v, hi, RealLe)
  {
    if v == [] {
    } else {
      CountsAround(v[1..], lo, hi);
    }
  }

  /** A majority of the values pins the median to its own range. */
  lemma {:induction false} MajorityPinsMedian(v: seq<real>, lo: real, hi: real)
    requires 2 * CountIn(v, lo, hi) > |v|
    ensures v != [] && lo <= Median(v) <= hi
  {
    hide CountIn, CountLess, CountLe, AtRank;
    CountsAround(v, lo, hi);
    RealOrder();
    var k := |v| / 2;
    RankAtLeast(v, k, lo, RealLe);
    RankAtMost(v, k, hi, RealLe);
    if |v| % 2 == 0 {
      RankAtLeast(v, k - 1, lo, RealLe);
      RankAtMost(v, k - 1, hi, RealLe);
    }
  }

  /** The median is the midpoint of the two middle ranks, which coincide for an
      odd number of values. */
  lemma {:induction false} MedianExact(v: seq<real>) returns (lo: real, hi: real)
    requires v != []
    ensures lo in v && hi in v && 2.0 * Median(v) == lo + hi
    ensures CountLess(v, lo, RealLe) <= (|v| - 1) / 2 < CountLe(v, lo, RealLe)
    ensures CountLess(v, hi, RealLe) <= |v| / 2 < CountLe(v, hi, RealLe)
  {
    hide CountLess, CountLe, AtRank;
    RealOrder();
    lo, hi := AtRank(v, (|v| - 1) / 2, RealLe), AtRank(v, |v| / 2, RealLe);
    AtRankCounts(v, (|v| - 1) / 2, RealLe);
    AtRankCounts(v, |v| / 2, RealLe);
  }

  function Changed(v: seq<real>, w: seq<real>): nat
    requires |v| == |w|
  {
    if v == [] then 0 else (if v[0] == w[0] then 0 else 1) + Changed(v[1..], w[1..])
  }

  lemma {:induction false} KeptStayIn(v: seq<real>, w: seq<real>, lo: real, hi: real)
    requires |v| == |w| && forall i :: 0 <= i < |v| && v[i] == w[i] ==> lo <= v[i] <= hi
    ensures CountIn(w, lo, hi) + Changed(v, w) >= |v|
  {
    if v == [] {
    } else {
      KeptStayIn(v[1..], w[1..], lo, hi);
    }
  }

  /** Replacing fewer than half of the values by anything leaves the median
      within the range of the values kept. */
  lemma {:induction false} MedianResistsMinority(v: seq<real>, w: seq<real>, lo: real, hi: real)
    requires |v| == |w| && 2 * Changed(v, w) < |v|
    requires forall i :: 0 <= i < |v| && v[i] == w[i] ==> lo <= v[i] <= hi
    ensures w != [] && lo <= Median(w) <= hi
  {
    KeptStayIn(v, w, lo, hi);
    MajorityPinsMedian(w, lo, hi);
  }

  /** Half is already too many: with one of two values replaced, the median can
      be moved anywhere. */
  lemma HalfCanMoveMedian(x: real, target: real)
    ensures exists y :: Median([x, y]) == target
  {
    var y := 2.0 * target - x;
    assert [x, y][1..] == [y];
    assert Sort([y], RealLe) == [y];
    if x > y { assert Insert(x, [y], RealLe) == [y] + Insert(x, [y][1..], RealLe); }
    assert Sort([x, y], RealLe) == if x <= y then [x, y] else [y, x];
    assert Median([x, y]) == target;
  }

  // ------------------------------------------------------------ what a flag means

  // The value moved in the regressing direction, strictly.
  predicate Worse(metric: Metric, base: real, now: real) {
    if metric.Rises() then now > base else now < base
  }

  // Where the threshold test points: dividing by a negative baseline turns the
  // direction round.
  predicate Toward(metric: Metric, base: real, now: real) {
    if metric.Rises() == (base > 0.0) then now > base else now < base
  }

  // A positive threshold, or none at all with a proper noise band.
  predicate SettingsOk(threshold: real, sigma: real) {
    threshold > 0.0 || (threshold == 0.0 && sigma >= 0.0)
  }

  lemma ChangeSign(m: real, b: real)
    requires b != 0.0
    ensures (m - b) / b > 0.0 <==> m != b && (m > b <==> b > 0.0)
    ensures (m - b) / b < 0.0 <==> m != b && (m < b <==> b > 0.0)
  {
    var q := (m - b) / b;
    assert q * b == m - b;
    if b > 0.0 {
      Sign(q, b);
    } else {
      assert q * -b == b - m;
      Sign(q, -b);
    }
  }

  /** Under proper settings a flag is always a strict move in that direction,
      for a baseline of either sign. */
  lemma FlagMovesToward(metric: Metric, base: real, vals: seq<real>, threshold: real, sigma: real)
    requires base != 0.0 && vals != [] && SettingsOk(threshold, sigma)
    ensures var v := Judge(metric, base, vals, threshold, sigma); v.flagged ==> Toward(metric, base, v.median)
  {
    hide Median, Variance;
    var m, variance := Median(vals), Variance(vals);
    ChangeSign(m, base);
    if m == base && sigma >= 0.0 { NonNegative(sigma, variance); }
  }

  lemma NonNegative(sigma: real, variance: real)
    requires variance >= 0.0
    ensures sigma * sigma * variance >= 0.0
  {
    ProductSign(Square(sigma), variance);
  }

  lemma MedianOfOne(x: real)
    ensures Median([x]) == x && Variance([x]) == 0.0
  {
    assert Sort([x], RealLe) == [x];
  }

  lemma ZeroBand(d: real, sigma: real, variance: real)
    requires variance == 0.0
    ensures OutsideBand(d, sigma, variance) <==> d != 0.0
  {
    SelfProduct(d);
    ProductSign(Square(sigma), variance);
  }

  /** Under proper settings a metric is never flagged while more than half of its
      values lie on the other side of the baseline, or on it, however far the
      rest have moved. */
  lemma {:induction false} MinorityCannotFlag(metric: Metric, base: real, vals: seq<real>, end: real,
                                              threshold: real, sigma: real)
    requires base != 0.0 && vals != [] && SettingsOk(threshold, sigma)
    requires 2 * (if metric.Rises() == (base > 0.0) then CountIn(vals, end, base) else CountIn(vals, base, end)) > |vals|
    ensures !Judge(metric, base, vals, threshold, sigma).flagged
  {
    hide Median, CountIn;
    if metric.Rises() == (base > 0.0) {
      MajorityPinsMedian(vals, end, base);
    } else {
      MajorityPinsMedian(vals, base, end);
    }
    FlagMovesToward(metric, base, vals, threshold, sigma);
  }

  /** A verdict, without its divisions and squares: the median has left the
      baseline by at least the threshold's share of it, in the regressing
      direction (turned round for a negative baseline), and by more than sigma
      standard deviations. */
  lemma {:induction false} JudgeExact(metric: Metric, base: real, vals: seq<real>, threshold: real, sigma: real,
                                      stddev: real)
    requires base != 0.0 && vals != [] && stddev >= 0.0 && stddev * stddev == Variance(vals)
    ensures var v := Judge(metric, base, vals, threshold, sigma);
            var end := if metric.RelativeCost? then base + threshold * base else base - threshold * base;
            && v.metric == metric && v.baseline == base && v.median == Median(vals) && v.samples == |vals|
            && v.change * base == v.median - base
            && (v.exceeds <==> if metric.RelativeCost? == (base > 0.0) then v.median >= end else v.median <= end)
            && (v.outside <==> v.median - base > sigma * stddev || base - v.median > sigma * stddev)
            && (v.flagged <==> v.exceeds && v.outside)
  {
    hide Median, Variance, OutsideBand;
    var d := Median(vals) - base;
    var q := d / base;
    BandOnSquares(d, sigma, Variance(vals), stddev);
    assert q * base == d;
    QuotientAgainst(q, base, d, threshold);
    QuotientAgainst(q, base, d, -threshold);
  }

  lemma QuotientAgainst(q: real, b: real, a: real, c: real)
    requires b != 0.0 && q * b == a
    ensures b > 0.0 ==> (q <= c <==> a <= c * b) && (q >= c <==> a >= c * b)
    ensures b < 0.0 ==> (q <= c <==> a >= c * b) && (q >= c <==> a <= c * b)
  {
    if b > 0.0 {
      QuotientBound(q, b, a, c);
    } else {
      assert q * -b == -a && c * -b == -(c * b);
      QuotientBound(q, -b, -a, c);
    }
  }

  /** The test on squares is the test against the root itself. */
  lemma BandOnSquares(d: real, sigma: real, variance: real, stddev: real)
    requires stddev >= 0.0 && stddev * stddev == variance
    ensures OutsideBand(d, sigma, variance) <==> (if d < 0.0 then -d else d) > sigma * stddev
  {
    var a, band := if d < 0.0 then -d else d, sigma * stddev;
    assert a * a == d * d;
    assert band * band == sigma * sigma * variance;
    if sigma >= 0.0 {
      assert band >= 0.0;
      if a > band { SquaresOrder(band, a); } else { SquaresWeak(a, band); }
    } else if stddev > 0.0 {
      assert band < 0.0;
      assert variance > 0.0;
    }
  }

  lemma SquaresOrder(x: real, y: real)
    requires 0.0 <= x < y
    ensures x * x < y * y
  {
    ProductSign(x, y - x);
    ProductSign(y, y - x);
  }

  lemma SquaresWeak(x: real, y: real)
    requires 0.0 <= x <= y
    ensures x * x <= y * y
  {
    ProductSign(x, y - x);
    ProductSign(y, y - x);
  }

  // ------------------------------------------------------------- stricter settings

  lemma BandShrinks(d: real, sigma: real, sigma': real, variance: real)
    requires sigma <= sigma' && variance >= 0.0 && OutsideBand(d, sigma', variance)
    ensures OutsideBand(d, sigma, variance)
  {
    NonNegative(sigma', variance);
    if sigma >= 0.0 {
      SquaresWeak(sigma, sigma');
      assert (sigma' * sigma' - sigma * sigma) * variance >= 0.0;
    }
  }

  // Same evidence, flags only removed.
  predicate NoNewFlag(v: Verdict, v': Verdict) {
    && v.metric == v'.metric && v.baseline == v'.baseline && v.median == v'.median && v.variance == v'.variance
    && (v'.flagged ==> v.flagged)
  }

  lemma {:induction false} VerdictsShrink(metrics: seq<Metric>, b: Report, anchor: real, samples: seq<Report>,
                                          anchors: seq<real>, threshold: real, sigma: real,
                                          threshold': real, sigma': real)
    requires anchor > 0.0 && |anchors| == |samples| && AllPositive(anchors)
    requires threshold <= threshold' && sigma <= sigma'
    ensures var vs := Verdicts(metrics, b, anchor, samples, anchors, threshold, sigma);
            var vs' := Verdicts(metrics, b, anchor, samples, anchors, threshold', sigma');
            |vs| == |vs'| && forall i :: 0 <= i < |vs| ==> NoNewFlag(vs[i], vs'[i])
  {
    hide Eval, SampleValues, Median, Variance, OutsideBand;
    if metrics == [] {
    } else {
      var last := |metrics| - 1;
      VerdictsShrink(metrics[..last], b, anchor, samples, anchors, threshold, sigma, threshold', sigma');
      var v := MetricVerdict(metrics[last], b, anchor, samples, anchors, threshold, sigma);
      var v' := MetricVerdict(metrics[last], b, anchor, samples, anchors, threshold', sigma');
      if v.Some? && v'.value.outside {
        BandShrinks(v.value.median - v.value.baseline, sigma, sigma', v.value.variance);
      }
    }
  }

  /** Raising the threshold or sigma keeps every refusal and every verdict's
      evidence, and can only clear flags. */
  lemma FlagsShrink(b: Report, samples: seq<Report>, threshold: real, sigma: real, threshold': real, sigma': real)
    requires threshold <= threshold' && sigma <= sigma'
    ensures var r, r' := Detect(b, samples, threshold, sigma), Detect(b, samples, threshold', sigma');
            match r
            case Err(_) => r' == r
            case Ok(vs) => r'.Ok? && |vs| == |r'.value| &&
                           forall i :: 0 <= i < |vs| ==> NoNewFlag(vs[i], r'.value[i])
  {
    hide Verdicts, NoNewFlag, ForwardingMetrics, FirstMismatch, AnchorNs, Anchors;
    if AnchorNs(b).Ok? && Anchors(samples).Ok? {
      VerdictsShrink(ForwardingMetrics(b), b, AnchorNs(b).value, samples, Anchors(samples).value,
                     threshold, sigma, threshold', sigma');
    }
  }

  // ---------------------------------------------------------------- one sample

  lemma SelfProduct(d: real)
    ensures d * d > 0.0 <==> d != 0.0
  {
    var s := Square(d);
  }

  /** With one sample the band vanishes: whatever sigma, a flag is the threshold
      test together with an actual move, so the gate is threshold-only exactly
      for a positive threshold or a value that moved. */
  lemma SingleSample(metric: Metric, base: real, x: real, threshold: real, sigma: real)
    requires base != 0.0
    ensures var v := Judge(metric, base, [x], threshold, sigma);
            && v.median == x && v.variance == 0.0
            && v.flagged == (v.exceeds && x != base)
            && (v.exceeds ==> (v.flagged <==> (threshold > 0.0 || x != base)))
  {
    hide Median, Variance, OutsideBand;
    MedianOfOne(x);
    ZeroBand(x - base, sigma, Variance([x]));
    ChangeSign(x, base);
  }

  // Baselines: a relative cost is positive, the advantage has the engine's sign.
  lemma BaselineSign(metric: Metric, b: Report)
    requires AnchorNs(b).Ok? && Eval(metric, b, AnchorNs(b).value).Some?
    ensures var base := Eval(metric, b, AnchorNs(b).value).value;
            if metric.RelativeCost? then base > 0.0
            else Get(b.points, RAW_L3, NFTABLES).Some? &&
                 (base > 0.0 <==> Get(b.points, RAW_L3, NFTABLES).value.pps > 0.0) &&
                 (base < 0.0 <==> Get(b.points, RAW_L3, NFTABLES).value.pps < 0.0)
    ensures Eval(metric, b, AnchorNs(b).value).value != 0.0
  {
    hide Get;
    var anchor := AnchorNs(b).value;
    match metric
    case RelativeCost(mode, backend) =>
      var m := Get(b.points, mode, backend).value;
      QuotientSign(1000000000.0, m.pps);
      QuotientSign(1000000000.0 / m.pps, anchor);
    case FastPathAdvantage =>
      var x, n := Get(b.points, RAW_L3, XDP).value, Get(b.points, RAW_L3, NFTABLES).value;
      if n.pps > 0.0 { QuotientSign(x.pps, n.pps); } else { QuotientSign(x.pps, -n.pps); NegateDivisor(x.pps, n.pps); }
  }

  lemma NegateDivisor(a: real, b: real)
    requires b < 0.0
    ensures a / b == -(a / -b)
  {
    var q := a / b;
    assert q * b == a;
    assert (-q) * (-b) == a;
  }

  // ------------------------------------------------------------ the gate's output

  // Every flag of every run against this baseline is a strict worsening.
  ghost predicate FlagsAreRegressions(b: Report, threshold: real, sigma: real) {
    forall samples: seq<Report>, v: Verdict ::
      FlaggedIn(b, samples, threshold, sigma, v) ==> Worse(v.metric, v.baseline, v.median)
  }

  ghost predicate FlaggedIn(b: Report, samples: seq<Report>, threshold: real, sigma: real, v: Verdict) {
    Detect(b, samples, threshold, sigma).Ok? && v in Detect(b, samples, threshold, sigma).value && v.flagged
  }

  // The baseline carries a negative nftables rate, which no reading excludes.
  predicate NftNegative(b: Report) {
    Get(b.points, RAW_L3, NFTABLES).Some? && Get(b.points, RAW_L3, NFTABLES).value.pps < 0.0
  }

  // The baseline gives no metric a reference value, so nothing is ever judged.
  ghost predicate NoReference(b: Report)
    requires AnchorNs(b).Ok?
  {
    forall metric <- ForwardingMetrics(b) :: Eval(metric, b, AnchorNs(b).value).None?
  }

  /** The gate's flags mean regressions exactly when it can judge nothing at all,
      or the settings are proper and the baseline's nftables rate is not
      negative. */
  lemma {:induction false} GateFlagsIff(b: Report, threshold: real, sigma: real)
    ensures FlagsAreRegressions(b, threshold, sigma) <==>
            AnchorNs(b).Err? || NoReference(b) || (SettingsOk(threshold, sigma) && !NftNegative(b))
  {
    hide FlaggedIn, Worse, AnchorNs, NftNegative, SettingsOk, Eval, ForwardingMetrics;
    if AnchorNs(b).Err? || NoReference(b) || (SettingsOk(threshold, sigma) && !NftNegative(b)) {
      forall samples: seq<Report>, v: Verdict | FlaggedIn(b, samples, threshold, sigma, v)
        ensures Worse(v.metric, v.baseline, v.median)
      {
        FlagIsRegression(b, samples, threshold, sigma, v);
      }
    } else {
      var metric :| metric in ForwardingMetrics(b) && Eval(metric, b, AnchorNs(b).value).Some?;
      if NftNegative(b) {
        NegativeEngineMisleads(b, threshold, sigma);
      } else {
        ImproperSettingsMislead(b, metric, threshold, sigma);
      }
    }
  }

  lemma {:induction false} JudgedIn(b: Report, samples: seq<Report>, threshold: real, sigma: real, v: Verdict)
    requires Detect(b, samples, threshold, sigma).Ok? && v in Detect(b, samples, threshold, sigma).value
    ensures AnchorNs(b).Ok? && Anchors(samples).Ok? && v.metric in ForwardingMetrics(b)
    ensures var base, vals := Eval(v.metric, b, AnchorNs(b).value), SampleValues(v.metric, samples, Anchors(samples).value);
            base.Some? && base.value != 0.0 && vals != [] && v == Judge(v.metric, base.value, vals, threshold, sigma)
  {
    hide AnchorNs, Anchors, Eval, SampleValues, ForwardingMetrics, FirstMismatch, Verdicts, Judge;
    VerdictsExact(ForwardingMetrics(b), b, AnchorNs(b).value, samples, Anchors(samples).value, threshold, sigma, v);
  }

  lemma {:induction false} FlagIsRegression(b: Report, samples: seq<Report>, threshold: real, sigma: real, v: Verdict)
    requires AnchorNs(b).Err? || NoReference(b) || (SettingsOk(threshold, sigma) && !NftNegative(b))
    requires FlaggedIn(b, samples, threshold, sigma, v)
    ensures Worse(v.metric, v.baseline, v.median)
  {
    hide Detect, AnchorNs, Anchors, Eval, SampleValues, ForwardingMetrics, Median, Variance, Exceeds, OutsideBand, Get;
    JudgedIn(b, samples, threshold, sigma, v);
    var vals := SampleValues(v.metric, samples, Anchors(samples).value);
    BaselineSign(v.metric, b);
    FlagMovesToward(v.metric, v.baseline, vals, threshold, sigma);
  }

  // A report on which the metric has the value x.
  function Witness(b: Report, metric: Metric, x: real): Report
    requires x > 0.0
  {
    var (mode, backend) := if metric.RelativeCost? then (metric.mode, metric.backend) else (RAW_L3, NFTABLES);
    b.(points := [Measurement(RAW_L3, XDP, 1.0), Measurement(mode, backend, 1.0 / x)])
  }

  function Witnesses(b: Report, metric: Metric, xs: seq<real>): seq<Report>
    requires AllPositive(xs)
  {
    seq(|xs|, i requires 0 <= i < |xs| => Witness(b, metric, xs[i]))
  }

  predicate IsAnchor(metric: Metric) {
    metric.RelativeCost? && metric.mode == RAW_L3 && metric.backend == XDP
  }

  lemma {:induction false} WitnessValue(b: Report, metric: Metric, x: real)
    requires x > 0.0 && !IsAnchor(metric)
    ensures var w := Witness(b, metric, x);
            AnchorNs(w).Ok? && Eval(metric, w, AnchorNs(w).value) == Some(x)
  {
    var w := Witness(b, metric, x);
    var p := w.points;
    QuotientSign(1.0, x);
    var q := 1.0 / x;
    assert 1.0 / q == x by { assert x * q == 1.0; QuotientIs(x, q, 1.0); }
    assert p[1..] == [p[1]];
    assert Get(p, RAW_L3, XDP) == Some(p[0]);
    assert Get(p, p[1].mode, p[1].backend) == Some(p[1]) by { assert Get(p[1..], p[1].mode, p[1].backend) == Some(p[1]); }
    var v := Eval(metric, w, AnchorNs(w).value);
    if metric.RelativeCost? {
      OverOver(1000000000.0, q, 1.0);
      assert v.Some? && v.value == (1000000000.0 / q) / (1000000000.0 / 1.0);
    } else {
      assert v.Some? && v.value == 1.0 / q;
    }
  }

  lemma {:induction false} WitnessesValues(b: Report, metric: Metric, xs: seq<real>)
    requires AllPositive(xs) && !IsAnchor(metric)
    ensures var ws := Witnesses(b, metric, xs);
            FirstMismatch(b, ws).None? && Anchors(ws).Ok? && SampleValues(metric, ws, Anchors(ws).value) == xs
  {
    hide AnchorNs, Eval;
    var ws := Witnesses(b, metric, xs);
    if xs == [] {
      assert ws == [];
    } else {
      WitnessesValues(b, metric, xs[1..]);
      WitnessValue(b, metric, xs[0]);
      assert ws[1..] == Witnesses(b, metric, xs[1..]);
      assert Anchors(ws).value[1..] == Anchors(ws[1..]).value;
    }
  }

  // Values that would be flagged without being worse make such samples.
  lemma {:induction false} MisledBy(b: Report, metric: Metric, base: real, xs: seq<real>, threshold: real, sigma: real)
    requires AnchorNs(b).Ok? && metric in ForwardingMetrics(b) && base != 0.0
    requires Eval(metric, b, AnchorNs(b).value) == Some(base) && xs != [] && AllPositive(xs)
    requires var v := Judge(metric, base, xs, threshold, sigma); v.flagged && !Worse(metric, base, v.median)
    ensures !FlagsAreRegressions(b, threshold, sigma)
  {
    hide AnchorNs, Anchors, Eval, SampleValues, FirstMismatch, Verdicts, Median, Variance, Exceeds, OutsideBand, Worse, Get;
    MetricsSkipAnchor(b, metric);
    var ws := Witnesses(b, metric, xs);
    WitnessesValues(b, metric, xs);
    var v := Judge(metric, base, xs, threshold, sigma);
    VerdictsExact(ForwardingMetrics(b), b, AnchorNs(b).value, ws, Anchors(ws).value, threshold, sigma, v);
    assert FlaggedIn(b, ws, threshold, sigma, v);
  }

  lemma {:induction false} MetricsSkipAnchor(b: Report, metric: Metric)
    requires metric in ForwardingMetrics(b)
    ensures !IsAnchor(metric)
  {
    hide CostMetrics, Get;
    CostMetricsExact(b.points, metric);
  }

  // A negative engine rate: the advantage has a negative baseline, and rising
  // far enough is flagged whatever the settings.
  lemma {:induction false} NegativeEngineMisleads(b: Report, threshold: real, sigma: real)
    requires AnchorNs(b).Ok? && NftNegative(b)
    ensures !FlagsAreRegressions(b, threshold, sigma)
  {
    hide Median, Variance, OutsideBand, FlagsAreRegressions, Get;
    var x, n := Get(b.points, RAW_L3, XDP).value.pps, Get(b.points, RAW_L3, NFTABLES).value.pps;
    var base := x / n;
    BaselineSign(FastPathAdvantage, b);
    assert base < 0.0;
    var reach := if threshold > 0.0 then threshold else 0.0;
    ProductSign(-base, reach);
    var y := 1.0 + -base * reach;
    ProductLe(threshold, reach, -base);
    MoveAtLeast(y - base, -base, threshold);
    NegateDivisor(y - base, base);
    MedianOfOne(y);
    ZeroBand(y - base, sigma, Variance([y]));
    MisledBy(b, FastPathAdvantage, base, [y], threshold, sigma);
  }

  // Improper settings flag a value that improved, or three that agree with the
  // baseline in the middle.
  lemma {:induction false} ImproperSettingsMislead(b: Report, metric: Metric, threshold: real, sigma: real)
    requires AnchorNs(b).Ok? && metric in ForwardingMetrics(b) && Eval(metric, b, AnchorNs(b).value).Some?
    requires !SettingsOk(threshold, sigma) && !NftNegative(b)
    ensures !FlagsAreRegressions(b, threshold, sigma)
  {
    hide AnchorNs, Eval, ForwardingMetrics, FlagsAreRegressions, Get, Median, Variance;
    var base := Eval(metric, b, AnchorNs(b).value).value;
    BaselineSign(metric, b);
    if threshold < 0.0 {
      var y := Improved(metric, base, threshold, sigma);
      MisledBy(b, metric, base, [y], threshold, sigma);
    } else {
      var xs := Tied(metric, base, sigma);
      MisledBy(b, metric, base, xs, threshold, sigma);
    }
  }

  lemma Improved(metric: Metric, base: real, threshold: real, sigma: real) returns (y: real)
    requires base > 0.0 && threshold < 0.0
    ensures y > 0.0
    ensures var v := Judge(metric, base, [y], threshold, sigma); v.flagged && !Worse(metric, base, v.median)
  {
    hide Median, Variance, OutsideBand;
    var e := if threshold > -0.5 then -threshold else 0.5;
    var k := if metric.Rises() then 1.0 - e else 1.0 + e;
    y := base * k;
    ProductSign(base, k);
    ProductSign(base, e);
    MedianOfOne(y);
    ZeroBand(y - base, sigma, Variance([y]));
    QuotientIs(k - 1.0, base, y - base);
  }

  lemma Tied(metric: Metric, base: real, sigma: real) returns (xs: seq<real>)
    requires base > 0.0 && sigma < 0.0
    ensures xs != [] && AllPositive(xs)
    ensures var v := Judge(metric, base, xs, 0.0, sigma); v.flagged && !Worse(metric, base, v.median)
  {
    xs := [base / 2.0, base, base + base / 2.0];
    TiedMedian(xs, base);
    hide Median, Variance;
    assert xs[0] != xs[1];
    VarianceZeroIff(xs);
    assert (base - base) / base == 0.0;
  }

  lemma TiedMedian(v: seq<real>, base: real)
    requires base > 0.0 && v == [base / 2.0, base, base + base / 2.0]
    ensures Median(v) == base
  {
    assert v[1..] == [base, base + base / 2.0] && v[1..][1..] == [base + base / 2.0];
    assert Sort(v[1..][1..], RealLe) == v[1..][1..];
    assert Sort(v[1..], RealLe) == v[1..];
    assert Sort(v, RealLe) == v;
  }

  // What the baseline enumerates, and nothing else.
  lemma {:induction false} CostMetricsExact(points: seq<Measurement>, metric: Metric)
    ensures metric in CostMetrics(points) <==>
            metric.RelativeCost? && !(metric.mode == RAW_L3 && metric.backend == XDP) &&
            exists m <- points :: m.mode == metric.mode && m.backend == metric.backend
  {
    if points == [] {
    } else {
      var k := |points| - 1;
      CostMetricsExact(points[..k], metric);
      assert points == points[..k] + [points[k]];
    }
  }

  /** The metrics a baseline enumerates: the cost of each of its points but the
      raw-l3 one over xdp, and the advantage if raw-l3 is present over both. */
  lemma {:induction false} MetricsExact(b: Report, metric: Metric)
    ensures metric in ForwardingMetrics(b) <==>
            match metric
            case RelativeCost(mode, backend) =>
              !(mode == "raw-l3" && backend == "xdp") && Get(b.points, mode, backend).Some?
            case FastPathAdvantage =>
              Get(b.points, "raw-l3", "xdp").Some? && Get(b.points, "raw-l3", "nftables").Some?
  {
    hide CostMetrics, Get;
    CostMetricsExact(b.points, metric);
    if metric.RelativeCost? { GetIsFirst(b.points, metric.mode, metric.backend); }
  }

  // How many samples give the metric the value x.
  function Formed(metric: Metric, samples: seq<Report>, anchors: seq<real>, x: real): nat
    requires |anchors| == |samples| && AllPositive(anchors)
  {
    if samples == [] then 0
    else (if Eval(metric, samples[0], anchors[0]) == Some(x) then 1 else 0) + Formed(metric, samples[1..], anchors[1..], x)
  }

  // Every sample that forms the metric contributes its value once, and no other
  // value enters the statistics.
  lemma {:induction false} SampleValuesExact(metric: Metric, samples: seq<Report>, anchors: seq<real>, x: real)
    requires |anchors| == |samples| && AllPositive(anchors)
    ensures multiset(SampleValues(metric, samples, anchors))[x] == Formed(metric, samples, anchors, x)
  {
    hide Eval;
    if samples == [] {
    } else {
      SampleValuesExact(metric, samples[1..], anchors[1..], x);
    }
  }

  lemma {:induction false} FormedBy(metric: Metric, samples: seq<Report>, anchors: seq<real>, i: nat)
    requires |anchors| == |samples| && AllPositive(anchors) && i < |samples|
    requires Eval(metric, samples[i], anchors[i]).Some?
    ensures Formed(metric, samples, anchors, Eval(metric, samples[i], anchors[i]).value) > 0
  {
    hide Eval;
    if i == 0 {
    } else {
      FormedBy(metric, samples[1..], anchors[1..], i - 1);
    }
  }

  lemma {:induction false} VerdictsExact(metrics: seq<Metric>, b: Report, anchor: real, samples: seq<Report>,
                                         anchors: seq<real>, threshold: real, sigma: real, v: Verdict)
    requires anchor > 0.0 && |anchors| == |samples| && AllPositive(anchors)
    ensures v in Verdicts(metrics, b, anchor, samples, anchors, threshold, sigma) <==>
            v.metric in metrics && MetricVerdict(v.metric, b, anchor, samples, anchors, threshold, sigma) == Some(v)
  {
    hide Eval, SampleValues, Exceeds, OutsideBand, Median, Variance;
    if metrics == [] {
    } else {
      var k := |metrics| - 1;
      VerdictsExact(metrics[..k], b, anchor, samples, anchors, threshold, sigma, v);
      assert metrics == metrics[..k] + [metrics[k]];
    }
  }

  /** Nothing is skipped: every metric of the baseline with a reference value and
      a sample that forms it has a verdict in the gate's output. */
  lemma {:induction false} EveryMetricJudged(b: Report, samples: seq<Report>, threshold: real, sigma: real,
                                             metric: Metric, i: nat)
    requires Detect(b, samples, threshold, sigma).Ok? && metric in ForwardingMetrics(b)
    requires AnchorNs(b).Ok? && Eval(metric, b, AnchorNs(b).value).Some?
    requires Eval(metric, b, AnchorNs(b).value) != Some(0.0)
    requires i < |samples| && Anchors(samples).Ok? && Eval(metric, samples[i], Anchors(samples).value[i]).Some?
    ensures exists v <- Detect(b, samples, threshold, sigma).value ::
              v.metric == metric && v.baseline == Eval(metric, b, AnchorNs(b).value).value
  {
    hide Eval, ForwardingMetrics, AnchorNs, Anchors, FirstMismatch, Verdicts;
    hide SampleValues, Exceeds, OutsideBand, Median, Variance;
    var anchors := Anchors(samples).value;
    FormedBy(metric, samples, anchors, i);
    SampleValuesExact(metric, samples, anchors, Eval(metric, samples[i], anchors[i]).value);
    var v := MetricVerdict(metric, b, AnchorNs(b).value, samples, anchors, threshold, sigma);
    VerdictsExact(ForwardingMetrics(b), b, AnchorNs(b).value, samples, anchors, threshold, sigma, v.value);
  }

  /** A regression shown by most samples is caught: when more than half of the
      values are beyond the threshold, so is the verdict, and without a noise
      band it is flagged. */
  lemma {:induction false} MajorityRegressionCaught(metric: Metric, base: real, vals: seq<real>, end: real,
                                                    threshold: real, sigma: real)
    requires base > 0.0 && vals != [] && threshold > 0.0
    requires 2 * (if metric.Rises() then CountIn(vals, base + base * threshold, end)
                  else CountIn(vals, end, base - base * threshold)) > |vals|
    ensures var v := Judge(metric, base, vals, threshold, sigma); v.exceeds && (sigma <= 0.0 ==> v.flagged)
  {
    hide Median, Variance, CountIn, OutsideBand;
    var m := Median(vals);
    ProductSign(base, threshold);
    if metric.Rises() {
      MajorityPinsMedian(vals, base + base * threshold, end);
      MoveAtLeast(m - base, base, threshold);
    } else {
      MajorityPinsMedian(vals, end, base - base * threshold);
      MoveAtLeast(base - m, base, threshold);
      assert (m - base) / base == -((base - m) / base);
    }
    if sigma <= 0.0 { NoBand(m - base, sigma, Variance(vals)); }
  }

  lemma NoBand(d: real, sigma: real, variance: real)
    requires sigma <= 0.0 && d != 0.0 && variance >= 0.0
    ensures OutsideBand(d, sigma, variance)
  {
    SelfProduct(d);
    if sigma == 0.0 { assert OutsideBand(d, 0.0, variance) by { ZeroBandAt(d, variance); } }
  }

  lemma ZeroBandAt(d: real, variance: real)
    requires d * d > 0.0
    ensures OutsideBand(d, 0.0, variance)
  {}

  lemma MoveAtLeast(d: real, base: real, threshold: real)
    requires base > 0.0 && d >= base * threshold
    ensures d / base >= threshold
  {
    var q := d / base;
    assert q * base == d;
    if q < threshold { ProductLt(q, threshold, base); }
  }

  /** The spread is zero exactly when the samples agree, or there is only one. */
  lemma VarianceZeroIff(v: seq<real>)
    ensures Variance(v) == 0.0 <==> |v| < 2 || forall i, j :: 0 <= i < |v| && 0 <= j < |v| ==> v[i] == v[j]
  {
    if |v| >= 2 {
      var mean := Sum(v) / |v| as real;
      DeviationsZeroIff(v, mean);
      ZeroQuotient(SquaredDeviations(v, mean), |v| as real - 1.0);
      if forall i, j :: 0 <= i < |v| && 0 <= j < |v| ==> v[i] == v[j] {
        ConstantSum(v, v[0]);
        ConstantMean(v[0], |v|);
      }
    }
  }

  lemma {:induction false} DeviationsZeroIff(v: seq<real>, mean: real)
    ensures SquaredDeviations(v, mean) == 0.0 <==> forall i :: 0 <= i < |v| ==> v[i] == mean
  {
    if v == [] {
    } else {
      DeviationsZeroIff(v[1..], mean);
      assert forall i :: 0 <= i < |v| - 1 ==> v[1..][i] == v[i + 1];
      assert (forall i :: 0 <= i < |v| ==> v[i] == mean) <==>
             v[0] == mean && forall i :: 0 <= i < |v| - 1 ==> v[1..][i] == mean by {
        if v[0] == mean && forall i :: 0 <= i < |v| - 1 ==> v[1..][i] == mean {
          forall i | 0 <= i < |v| ensures v[i] == mean { assert i == 0 || v[i] == v[1..][i - 1]; }
        }
      }
    }
  }

  lemma {:induction false} ConstantSum(v: seq<real>, c: real)
    requires forall i :: 0 <= i < |v| ==> v[i] == c
    ensures Sum(v) == |v| as real * c
  {
    if v == [] {
    } else {
      ConstantSum(v[1..], c);
    }
  }

  lemma ConstantMean(c: real, n: nat)
    requires n > 0
    ensures (n as real * c) / n as real == c
  {}

  lemma ZeroQuotient(a: real, b: real)
    requires a >= 0.0 && b > 0.0
    ensures Quotient(a, b) == 0.0 <==> a == 0.0
  {
    QuotientSign(a, b);
  }

  // Squared differences over all pairs of positions.
  function PairSum(v: seq<real>): real {
    if v == [] then 0.0 else SquaredDeviations(v[1..], v[0]) + PairSum(v[1..])
  }

  function SumSquares(v: seq<real>): real {
    if v == [] then 0.0 else Square(v[0]) + SumSquares(v[1..])
  }

  // The sum of (x - c)^2, and the sum over pairs, from the totals of x and x^2.
  function FromTotals(squares: real, sum: real, n: real, c: real): real {
    squares - 2.0 * (c * sum) + n * (c * c)
  }

  function PairsFromTotals(squares: real, sum: real, n: real): real { n * squares - sum * sum }

  lemma {:induction false} DeviationsExpand(v: seq<real>, c: real)
    ensures SquaredDeviations(v, c) == FromTotals(SumSquares(v), Sum(v), |v| as real, c)
  {
    if v == [] {
    } else {
      hide FromTotals, Square;
      DeviationsExpand(v[1..], c);
      ExpandStep(v[0], c, SumSquares(v[1..]), Sum(v[1..]), |v[1..]| as real);
    }
  }

  lemma ExpandStep(x: real, c: real, squares: real, sum: real, n: real)
    ensures Square(x - c) + FromTotals(squares, sum, n, c) == FromTotals(Square(x) + squares, x + sum, n + 1.0, c)
  {}

  lemma {:induction false} PairsExpand(v: seq<real>)
    ensures PairSum(v) == PairsFromTotals(SumSquares(v), Sum(v), |v| as real)
  {
    if v == [] {
    } else {
      hide FromTotals, PairsFromTotals, Square;
      PairsExpand(v[1..]);
      DeviationsExpand(v[1..], v[0]);
      PairStep(v[0], SumSquares(v[1..]), Sum(v[1..]), |v[1..]| as real);
    }
  }

  lemma PairStep(x: real, squares: real, sum: real, n: real)
    ensures FromTotals(squares, sum, n, x) + PairsFromTotals(squares, sum, n) ==
            PairsFromTotals(Square(x) + squares, x + sum, n + 1.0)
  {}

  /** The corrected estimate, for any number of samples: n (n - 1) times the
      variance is the sum of squared differences over all pairs. */
  lemma {:induction false} VariancePairwise(v: seq<real>)
    requires |v| >= 2
    ensures |v| as real * ((|v| as real - 1.0) * Variance(v)) == PairSum(v)
  {
    hide FromTotals, PairsFromTotals, SquaredDeviations, Sum, SumSquares, PairSum;
    var n, mean := |v| as real, Sum(v) / |v| as real;
    PairsExpand(v);
    DeviationsExpand(v, mean);
    MeanStep(n, mean, SumSquares(v), Sum(v));
    Undo(SquaredDeviations(v, mean), n - 1.0);
  }

  lemma Undo(a: real, b: real)
    requires b > 0.0
    ensures b * Quotient(a, b) == a
  {}

  lemma MeanStep(n: real, mean: real, squares: real, sum: real)
    requires n > 0.0 && mean == sum / n
    ensures n * FromTotals(squares, sum, n, mean) == PairsFromTotals(squares, sum, n)
  {
    assert mean * n == sum;
    assert n * (mean * sum) == sum * sum;
    assert n * (n * (mean * mean)) == sum * sum;
  }

  // The single-sample wrapper keeps the flagged verdicts, with a zero-width band.
  function Flagged(vs: seq<Verdict>): seq<Verdict> {
    if vs == [] then [] else (if vs[0].flagged then [vs[0]] else []) + Flagged(vs[1..])
  }

  lemma {:induction false} FlaggedExact(vs: seq<Verdict>, v: Verdict)
    ensures multiset(Flagged(vs))[v] == if v.flagged then multiset(vs)[v] else 0
  {
    if vs == [] {
    } else {
      FlaggedExact(vs[1..], v);
      assert vs == [vs[0]] + vs[1..];
    }
  }

  function DetectSingle(b: Report, current: Report, threshold: real): Result<seq<Verdict>, Refusal> {
    var vs :- Detect(b, [current], threshold, 0.0);
    Ok(Flagged(vs))
  }

  lemma {:induction false} OneValue(metric: Metric, current: Report, a: real)
    requires a > 0.0
    ensures SampleValues(metric, [current], [a]) ==
            match Eval(metric, current, a) case None => [] case Some(x) => [x]
  {
    hide Eval;
    assert [current][1..] == [] && [a][1..] == [];
    assert SampleValues(metric, [current][1..], [a][1..]) == [];
  }

  // Sigma is irrelevant to a single sample.
  lemma {:induction false} SingleIgnoresSigma(metrics: seq<Metric>, b: Report, anchor: real, current: Report,
                                              a: real, threshold: real, sigma: real, sigma': real)
    requires anchor > 0.0 && a > 0.0
    ensures Verdicts(metrics, b, anchor, [current], [a], threshold, sigma) ==
            Verdicts(metrics, b, anchor, [current], [a], threshold, sigma')
  {
    hide Eval, Exceeds, OutsideBand, Median, Variance;
    if metrics == [] {
    } else {
      var metric := metrics[|metrics| - 1];
      SingleIgnoresSigma(metrics[..|metrics| - 1], b, anchor, current, a, threshold, sigma, sigma');
      var base, vals := Eval(metric, b, anchor), SampleValues(metric, [current], [a]);
      if base.Some? && base.value != 0.0 && vals != [] {
        OneValue(metric, current, a);
        var x := vals[0];
        MedianOfOne(x);
        ZeroBand(x - base.value, sigma, Variance([x]));
        ZeroBand(x - base.value, sigma', Variance([x]));
      }
    }
  }

  lemma OneAnchor(current: Report)
    requires AnchorNs(current).Ok?
    ensures Anchors([current]) == Ok([AnchorNs(current).value])
  {
    hide AnchorNs;
    var none: seq<Report> := [];
    assert [current][1..] == none && Anchors(none) == Ok([]);
    assert [AnchorNs(current).value] + [] == [AnchorNs(current).value];
  }

  /** The single-sample gate is the statistical gate on one sample, for any
      noise width. */
  lemma SingleIsStatistical(b: Report, current: Report, threshold: real, sigma: real)
    ensures DetectSingle(b, current, threshold) ==
            match Detect(b, [current], threshold, sigma)
            case Err(e) => Err(e)
            case Ok(vs) => Ok(Flagged(vs))
  {
    hide Verdicts, ForwardingMetrics, FirstMismatch, AnchorNs, Flagged;
    assert Anchors([current]).Err? ==> AnchorNs(current).Err? by {
      if AnchorNs(current).Ok? { OneAnchor(current); }
    }
    if AnchorNs(b).Ok? && AnchorNs(current).Ok? {
      var a := AnchorNs(current).value;
      OneAnchor(current);
      SingleIgnoresSigma(ForwardingMetrics(b), b, AnchorNs(b).value, current, a, threshold, 0.0, sigma);
    }
  }
}
