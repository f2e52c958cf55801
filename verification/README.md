# Verified core of the bench and control-plane logic

A Dafny model of the parts of the repository whose correctness is not visible
from reading one function: the HDR latency histogram, the per-tenant
enforcement recompiler, the wire-scaling start gate, the review ingest queue,
the packet crafter and its checksums, the protocol payload encoders, the
class-mix flow pool, the statistical regression gate, the migration squasher,
pooled percentiles and the capacity recommender.

`dafny verify dfyconfig.toml` checks every file.

## How the model is built

* **Objects** whose methods update fields are classes: `LatencyHistogram`,
  `EnforcementRecompiler`, `Gate`, `Ingest`, `PacketBuilder`, `LatencyRecorder`.
  Buffers written in place are arrays. Loops of the source are loops here, each
  proved against a specification function or an outright property.
* **Concurrency** is a transition system over values: a state, the atomic steps
  (`Enabled`, `Apply`), and every interleaving (`Runs`, `Reachable`). The
  critical sections of the recompiler and of the start gate appear twice, as
  class methods and as the functions the transition system uses, and the
  methods' contracts equate the two. The ingest queue's methods are contracted
  as steps of its transition system. Timing, scheduling and spurious wake-ups
  are unconstrained.
* **Numbers.** Machine integers carry their width (`u16`, `u32`, `u64`) where
  the source casts or adds. `f64` values are reals; an infinite cost is `None`.
  The noise band of the regression gate is tested on squares, and
  `BandOnSquares` shows that this is the test against the root itself.
* **Randomness, clocks, I/O and foreign calls** are parameters: the random word
  of the address sampler, the outcome of a compile, an enqueue or a spawn, the
  already-parsed name of a migration file, the effect of an SQL text.
* **Panics** are outcomes: `RecordN` answers `NoSlot` where the source indexes
  past its counts, and `Overflow` where a 64-bit counter passes its maximum, as
  it does in a build with overflow checks.

## What the source does that its text does not say

* The histogram's counts cannot hold a ceiling of exactly
  `sub_bucket_count * 2^k`: recording it panics (`CeilingInBoundsIff`,
  `EdgeExample`). Every other ceiling is safe.
* `merge` compares counts length and sub-bucket count but not the ceiling, so
  histograms of different ceilings can merge into one that neither log would
  have produced; `MergeFaithfulIff` gives the exact ceilings for which the merge
  is faithful.
* For the last slot of a ceiling above 2^63, `low + size` leaves 64 bits before
  the `- 1`; the result is right under wrap-around, which the model writes out
  (`LayoutFitsMachineWords`, `TopOf`).
* A failed recompile is logged and not retried, so `Wait` can return with a
  block that no stored bundle reflects (`FailedPassNotRetried`). The promise
  holds for every tenant whose latest compile succeeded (`WaitMeansReflected`),
  and exactly for those with no block or one successful compile that read them all
  (`ReflectedIff`); a failed latest compile does not decide it either way
  (`FailedLastPassCanBeHarmless`).
* `Stop` of the review ingest leaves a job in the buffer if an `ObserveDLP` call
  is between its two selects when `done` is closed; `DrainedIff` shows this is
  the only way.
* The single-sample gate is documented as threshold-only. With a threshold of
  zero or less, a value that did not move passes the threshold and is still not
  flagged (`SingleSample`).
* The gate rejects only a zero nftables rate in the baseline, not a negative one.
  Then the advantage has a negative reference value, dividing by it turns the
  test round, and a rise is flagged whatever the settings. A flag means a
  regression exactly under the condition of `GateFlagsIff`.
* The NATS recommendation says it brings the busiest partition under the
  ceiling; past 256 partitions' worth of subjects it does not
  (`PartitionsStable`), and a configuration of more than 256 overloaded
  partitions is cut back to 256 (`PartitionsNeverShrinkIff`).
* A TLS ClientHello for a host of more than 65479 bytes, or a DNS query with an
  empty or over-long label, is written without complaint and does not read back
  (`ClientHelloRoundTripIff`, `DnsRoundTripIff`).

## Model

| member | source | states |
|---|---|---|
| `HistogramLayout.BucketsNeeded` | bench/src/measurement.rs:220-232 | the doubling loop with its overflow exit returns one plus the least k with ceiling <= 2^(magnitude+k) |
| `HistogramLayout.BucketsLeast` | bench/src/measurement.rs:220-232 | that count is enough and one fewer is not |
| `HistogramLayout.NewLayout` | bench/src/measurement.rs:181-218 | the constructor's derived fields satisfy the layout invariant for every ceiling of at least 2 and 1 to 5 digits |
| `HistogramLayout.SubBucketsLeast` | bench/src/measurement.rs:188-192 | the sub-bucket count is the least power of two at least twice 10^digits |
| `HistogramLayout.ValueInItsRange` | bench/src/measurement.rs:271-308 | every 64-bit value lies in the range read back from its own index, whose size is 2^bucket |
| `HistogramLayout.RangeDeterminesIndex` | bench/src/measurement.rs:271-308 | conversely every value of a range has that index: the two maps are inverse |
| `HistogramLayout.RangesTile` | bench/src/measurement.rs:295-308 | each range begins where the previous one ends |
| `HistogramLayout.FirstRange` | bench/src/measurement.rs:295-308 | the tiling starts at value zero |
| `HistogramLayout.IndexMonotone` | bench/src/measurement.rs:271-291 | the index never decreases as the value grows |
| `HistogramLayout.IndexInBounds` | bench/src/measurement.rs:220-232 | an index lies inside the counts exactly for values below the layout's limit |
| `HistogramLayout.CeilingInBoundsIff` | bench/src/measurement.rs:181-232 | all values up to the ceiling index inside the counts if and only if the ceiling is not sub_bucket_count * 2^k |
| `HistogramLayout.EdgeExample` | bench/src/measurement.rs:220-232 | the constructor's layout for a ceiling of 2048 at three digits has 2048 counts, and the ceiling's index is 2048 |
| `HistogramLayout.LayoutFitsMachineWords` | bench/src/measurement.rs:295-308 | the counts length fits 32 bits, and low + size leaves 64 bits only at the last slot of a ceiling above 2^63 |
| `HistogramLayout.RelativeError` | bench/src/measurement.rs:187-218 | the top of a value's range is at least the value and exceeds it by less than value / 10^digits |
| `Histogram.FoldsConcat` | bench/src/measurement.rs:401-419 | tallies, sum, minimum, maximum and clamp count are additive over concatenated logs |
| `Histogram.SumFitsU128` | bench/src/measurement.rs:247-269 | the 128-bit sum cannot overflow while the 64-bit total does not |
| `Histogram.ScanFindsRank` | bench/src/measurement.rs:350-374 | the slot where the running count first reaches the target is the slot of the exact element of that rank |
| `Histogram.LatencyHistogram.constructor` | bench/src/measurement.rs:181-218 | an empty histogram of the computed layout: zero counts and sums, minimum at the top of the range, empty log |
| `Histogram.LatencyHistogram.RecordN` | bench/src/measurement.rs:247-269 | exactly the slot of the value, or of the ceiling if lower, grows by n, with total, sum, minimum, maximum and clamp count in step; all six fields stay the folds of the log; refused, changing nothing, exactly when that slot is past the counts; overflow exactly when the 64-bit total would pass its maximum |
| `Histogram.LatencyHistogram.Record` | bench/src/measurement.rs:241-243 | one value appended to the log, with the same outcomes |
| `Histogram.RecordEach` | bench/src/measurement.rs:241-269 | n single records end with the outcome of one record_n, and leave the same log |
| `Histogram.StateFromLog` | bench/src/measurement.rs:241-269 | equal layout and log mean equal counts, total, sum, minimum, maximum and clamped |
| `Histogram.LatencyHistogram.ValueAtPercentile` | bench/src/measurement.rs:350-374 | None exactly when empty, else the top of the slot of the log's exact nearest-rank element, or of the ceiling if lower: never below it, less than one part in 10^digits above it |
| `Histogram.Ranked` | bench/src/measurement.rs:350-374 | the element of a rank: fewer than that many logged values lie below it, and at least that many are at most it |
| `Histogram.ExactIsRanked` | bench/src/measurement.rs:251-256 | clamping every value and then ranking is ranking and then clamping |
| `Histogram.LatencyHistogram.Merge` | bench/src/measurement.rs:401-419 | refused exactly for different counts length or sub-bucket count, overflow exactly when the totals do not fit; otherwise every count and field is the sum, minimum or maximum of the two, and for faithful layouts, equal ceilings among them, the histogram of the concatenated logs |
| `Histogram.MergeFaithfulIff` | bench/src/measurement.rs:401-419 | the merge of two layouts of one shape is faithful for every recordable log if and only if the ceilings agree, or differ by one with the other on the edge |
| `Histogram.MergeGapExample` | bench/src/measurement.rs:401-419 | the layouts the constructor builds for ceilings 1000 and 2000 at three digits are accepted and not faithful |
| `Histogram.CountsSumToTotal` | bench/src/measurement.rs:247-269 | bucket counts always sum to the total |
| `Recompiler.EnforcementRecompiler.OnBlock` | cmd/sng-control/dlp_review_recompile.go:73-89 | the locked section: nil tenant ignored, live entry marked dirty, else entry, counter and a worker |
| `Recompiler.EnforcementRecompiler.Settle` | cmd/sng-control/dlp_review_recompile.go:102-113 | the locked section after a compile: dirty is cleared and the loop repeats, else the entry is removed |
| `Recompiler.StepKeepsInv` | cmd/sng-control/dlp_review_recompile.go:73-115 | every atomic step keeps ownership, coverage, pass order, bundle, coalescing and WaitGroup invariants |
| `Recompiler.ReachableInv` | cmd/sng-control/dlp_review_recompile.go:73-115 | hence they hold in every reachable state of every interleaving |
| `Recompiler.PassesNeverOverlap` | cmd/sng-control/dlp_review_recompile.go:91-115 | two passes of one tenant are never in progress together |
| `Recompiler.TwoWorkersCoexist` | cmd/sng-control/dlp_review_recompile.go:91-115 | although two live workers of one tenant are reachable |
| `Recompiler.EntryGoneMeansSeen` | cmd/sng-control/dlp_review_recompile.go:73-115 | once a tenant's entry is gone, every hooked block of it was followed by a pass that started after it and has finished |
| `Recompiler.WaitGroupAccount` | cmd/sng-control/dlp_review_recompile.go:85-115 | the counter equals entries plus workers that left their entry but have not called Done |
| `Recompiler.WaitMeansSeen` | cmd/sng-control/dlp_review_recompile.go:120-132 | with the counter at zero a pass that started after each hooked block has finished |
| `Recompiler.EntryGoneMeansReflected` | cmd/sng-control/dlp_review_recompile.go:73-115 | once a tenant's entry is gone and its latest compile succeeded, its stored bundle reflects every hooked block |
| `Recompiler.WaitMeansReflected` | cmd/sng-control/dlp_review_recompile.go:117-132 | the same for every tenant when `Wait` sees the counter at zero |
| `Recompiler.ReflectedIff` | cmd/sng-control/dlp_review_recompile.go:91-115 | in every reachable state a tenant's bundle reflects all its hooked blocks if and only if it has none, or one successful compile read them all |
| `Recompiler.FailedLastPassCanBeHarmless` | cmd/sng-control/dlp_review_recompile.go:91-115 | a reachable state with the counter at zero, a failed latest compile, and every block reflected |
| `Recompiler.NoLostUpdate` | cmd/sng-control/dlp_review_recompile.go:91-115 | the stored bundle reflects a block exactly when some successful pass observed it: no later pass overwrites it with an older view |
| `Recompiler.BundleGrows` | cmd/sng-control/dlp_review_recompile.go:91-115 | along any run, what a bundle reflects only grows |
| `Recompiler.FailedPassNotRetried` | cmd/sng-control/dlp_review_recompile.go:91-115 | a reachable state with the counter at zero, a failed latest compile, and a hooked block in no bundle |
| `Recompiler.StartsBoundedByCalls` | cmd/sng-control/dlp_review_recompile.go:73-115 | passes started plus passes owed never exceed OnBlock calls, per tenant |
| `Recompiler.OwedConserved` | cmd/sng-control/dlp_review_recompile.go:73-115 | without new blocks, started plus owed is conserved along every run |
| `Recompiler.BlocksDuringPassOweOne` | cmd/sng-control/dlp_review_recompile.go:78-89 | however many blocks arrive during one pass, exactly one further pass is owed |
| `Recompiler.ExactlyOneFurtherPass` | cmd/sng-control/dlp_review_recompile.go:78-114 | and exactly one has been started once the tenant is quiet and its entry gone |
| `Recompiler.MeasureDecreases` | cmd/sng-control/dlp_review_recompile.go:91-115 | every step other than a new block strictly decreases an explicit measure |
| `Recompiler.RunLengthBounded` | cmd/sng-control/dlp_review_recompile.go:91-115 | so a run without new blocks is no longer than the measure |
| `Recompiler.LiveWorkerCanStep` | cmd/sng-control/dlp_review_recompile.go:91-115 | no live worker is ever stuck |
| `Recompiler.WaitIsNotStuck` | cmd/sng-control/dlp_review_recompile.go:120-132 | while the counter is positive some worker can move |
| `StartGate.NormalizedQueueCounts` | bench/src/wire_scaling.rs:78-91 | strictly ascending, starts at one, holds exactly the positive requested widths and one |
| `StartGate.Gate.Release` | bench/src/wire_scaling.rs:252-263 | the locked section equals the release function of the transition system |
| `StartGate.Gate.Check` | bench/src/wire_scaling.rs:200-214 | the worker's locked section equals the check function of the transition system |
| `StartGate.StepKeepsInv` | bench/src/wire_scaling.rs:171-289 | every step keeps the gate, wakeup, worker and join invariants |
| `StartGate.GateIsSafe` | bench/src/wire_scaling.rs:200-263 | over every interleaving go and abort are never both set, and a worker parked behind a set flag still has a notify coming |
| `StartGate.NothingMeasuredAfterSpawnFailure` | bench/src/wire_scaling.rs:200-263 | after a spawn failure no worker ever measures |
| `StartGate.ReturnedResult` | bench/src/wire_scaling.rs:178-289 | when the fan-out has returned all spawned workers are joined; none was spawned if a generator could not be built; otherwise an error is returned exactly for a spawn failure or else an emit failure, and success is exactly one outcome per queue, in index order |
| `StartGate.NeverStuck` | bench/src/wire_scaling.rs:171-289 | before the return some step other than a spurious wakeup is enabled |
| `StartGate.MeasureStep` | bench/src/wire_scaling.rs:171-289 | each step lowers a measure, a spurious wakeup raises it by one |
| `StartGate.RunLengthBounded` | bench/src/wire_scaling.rs:171-289 | the measure stays non-negative and a run's length is bounded by it and the spurious wakeups |
| `StartGate.FanoutLengthBounded` | bench/src/wire_scaling.rs:171-289 | a fan-out of n workers takes at most 7n + 6 steps, and two more for each spurious wakeup |
| `StartGate.StoppedMeansReturned` | bench/src/wire_scaling.rs:171-289 | a run that only a spurious wakeup could continue has returned |
| `StartGate.BarrierDeadlocks` | bench/src/wire_scaling.rs:144-156 | a barrier for n with 1 <= k < n spawned workers reaches a state with no step and nobody joined, for all n and k |
| `ReviewIngest.Ingest.constructor` | cmd/sng-control/dlp_review_observer.go:75-94 | the capacity is the configured size, 1024 if that is not positive; the object starts in the initial state of the transition system |
| `ReviewIngest.Ingest.Look` | cmd/sng-control/dlp_review_observer.go:102-110 | the first select is the step that drops a call after done, or lets it carry on |
| `ReviewIngest.Ingest.Offer` | cmd/sng-control/dlp_review_observer.go:111-119 | the second select is an enabled send, drop-on-done or drop-on-full step, whichever case is chosen: appended if there is room, else dropped and counted |
| `ReviewIngest.Ingest.Receive` | cmd/sng-control/dlp_review_observer.go:126-134 | the worker's receive is the take step of its loop or of the drain, in acceptance order |
| `ReviewIngest.Ingest.Process` | cmd/sng-control/dlp_review_observer.go:143-155 | the end of an enqueue call is the processed step, counted as enqueued or as failed |
| `ReviewIngest.Ingest.Drain` | cmd/sng-control/dlp_review_observer.go:124-141 | the drain loop is a run of the transition system that empties the buffer in order and ends with the worker gone; the counters advance by the failures and successes |
| `ReviewIngest.Ingest.Close` | cmd/sng-control/dlp_review_observer.go:161-164 | closing done, however often, is the close step |
| `ReviewIngest.StepKeepsInv` | cmd/sng-control/dlp_review_observer.go:102-164 | every step keeps the conservation and order invariant |
| `ReviewIngest.Conservation` | cmd/sng-control/dlp_review_observer.go:102-155 | in every reachable state completed observations equal dropped + enqueued + failed + in process + buffered, the buffer is within capacity, and jobs are processed in acceptance order |
| `ReviewIngest.CapacityIsConfigured` | cmd/sng-control/dlp_review_observer.go:75-119 | in every state reachable from a configured size the buffer holds at most that many jobs, and a call past its first select while the queue is open sends exactly when fewer are buffered, and is dropped exactly when it is full |
| `ReviewIngest.DrainedIff` | cmd/sng-control/dlp_review_observer.go:102-164 | every continuation of Stop ends with an empty buffer if and only if no observation is between its two selects as done is closed |
| `ReviewIngest.DrainedMeansProcessed` | cmd/sng-control/dlp_review_observer.go:124-164 | a drained stop has processed every accepted job |
| `Checksum.Accumulate` | bench/src/traffic_gen.rs:513-523 | adds the big-endian word sum, odd last byte as a high byte, or reports the 32-bit overflow, exactly when the sum does not fit |
| `Checksum.WordSumIsNumber` | bench/src/traffic_gen.rs:513-523 | summing the words is reading the bytes as one big-endian number, modulo 65535 |
| `Checksum.OddIsPadded` | bench/src/traffic_gen.rs:513-523 | an odd last byte counts as if a zero byte followed |
| `Checksum.FoldChecksum` | bench/src/traffic_gen.rs:525-530 | folding terminates and complements the residue modulo 65535, keeping zero apart from the other multiples |
| `Checksum.ComputeInternetChecksum` | bench/src/traffic_gen.rs:509-511 | the checksum of the word sum, for every slice whose sum fits 32 bits |
| `Checksum.ChecksumVerifies` | bench/src/traffic_gen.rs:509-530 | adding the checksum of any sum, or all ones in place of a zero checksum, makes the sum verify to zero |
| `Checksum.L4Checksum` | bench/src/traffic_gen.rs:535-559 | no 32-bit accumulation overflows for any segment a 16-bit length describes |
| `Checksum.PseudoHeaderAgrees` | bench/src/traffic_gen.rs:535-559 | the shortcut sum equals the checksum of the serialised pseudo-header and segment, as RFC 768 and section 8.1 of RFC 8200 lay it out |
| `Packets.SampleInPrefix` | bench/src/traffic_gen.rs:276-303 | the sampled address has the configured network bits, the random host bits, and fits its width, for every prefix length |
| `Packets.NewBuilder` | bench/src/traffic_gen.rs:353-366 | refuses mixed families and inverted port ranges (the sampler's checks, lines 182-201 of the same file), frames shorter than 14 + 20 or 40 + 8 or 20 bytes and longer than 14 + 65535, and nothing else |
| `Packets.WriteIpv4` | bench/src/traffic_gen.rs:408-434 | writes the header with its checksum in place and leaves the rest of the buffer alone |
| `Packets.WriteIpv6` | bench/src/traffic_gen.rs:436-456 | writes the fixed header in place |
| `Packets.WriteL4` | bench/src/traffic_gen.rs:465-496 | writes the transport header with the checksum patched in, UDP zero sent as all ones |
| `Packets.PacketBuilder.Next` | bench/src/traffic_gen.rs:381-400 | a short buffer is refused untouched; otherwise the first frameSize bytes are the frame whatever they held, the tail is kept, the identification wraps, and a strict receiver parses back the sampled addresses and ports, MACs, TTL, identification, TCP sequence, acknowledgement, window and urgent pointer, and zero payload, with both addresses in their prefixes and both ports in their ranges |
| `Packets.Ipv4HeaderVerifies` | bench/src/traffic_gen.rs:408-434 | the written IPv4 header sums to zero |
| `Packets.SegmentVerifies` | bench/src/traffic_gen.rs:465-496 | the written segment under its pseudo-header sums to zero, for UDP and TCP over both IP versions |
| `Packets.FrameParses` | bench/src/traffic_gen.rs:381-496 | a receiver that checks versions, service and fragment bits, lengths and both checksums reads back every field and an all-zero payload, for every accepted configuration |
| `WireEncoders.BuildClientHello` | bench/src/datapath.rs:1177-1215 | writing placeholders and patching them later yields the nested length-prefixed record |
| `WireEncoders.ClientHelloRoundTripIff` | bench/src/datapath.rs:1177-1215 | a strict nested-length reader, which also checks version, random, session, cipher suite and compression, returns the host exactly up to 65479 bytes, and rejects the record above |
| `WireEncoders.BuildDnsQuery` | bench/src/datapath.rs:1157-1173 | header, length-prefixed labels, root, type and class |
| `WireEncoders.JoinOfSplit` | bench/src/datapath.rs:1165-1168 | the dot-separated labels joined again are the host (that no label holds a dot is `Split`'s own contract) |
| `WireEncoders.DnsRoundTripIff` | bench/src/datapath.rs:1157-1173 | decoding the question returns the host's labels if and only if each has 1 to 63 bytes |
| `ClassMix.PickClass` | bench/src/datapath.rs:1111-1121 | the cumulative loop computes the first class whose cumulative weight exceeds the position |
| `ClassMix.NormalizedIsMix` | bench/src/business_report.rs:150-184 | any six configured weights, negative or all zero, normalise to non-negative fractions summing to one |
| `ClassMix.NormalizedProportional` | bench/src/business_report.rs:176-184 | normalising keeps the proportions of the positive configured weights, gives the others none, and splits evenly if there is no positive one |
| `ClassMix.PickIff` | bench/src/datapath.rs:1111-1121 | a class is picked exactly on its own interval; the tail fall-back is never taken below one |
| `ClassMix.QuotaWithinOne` | bench/src/datapath.rs:1007-1017 | for every mix and pool length a class's count differs from its quota by less than one, and zero weight gets none |
| `ClassMix.SlotsOrdered` | bench/src/datapath.rs:1007-1017 | classes form contiguous blocks |
| `ClassMix.PoolQuota` | bench/src/datapath.rs:1007-1017 | both for the pool actually built from any configured weights and any length, zero included |
| `ClassMix.PoolRounds` | bench/src/datapath.rs:1007-1017 | every block boundary is the joint share of the classes before it, rounded to the nearest slot |
| `RegressionGate.DetectForwarding` | bench/src/report.rs:1373-1451 | the validation, anchor and metric loops compute the specified verdict list, refusals in the source's order |
| `RegressionGate.RefusesExactly` | bench/src/report.rs:1379-1401 | no samples, else the first sample of another schema or profile, else the first report without a positive raw-l3 rate over xdp, decide the refusal; the gate answers in every other case |
| `RegressionGate.GetIsFirst` | bench/src/report.rs:625-629 | the lookup returns the first point with both labels, or nothing |
| `RegressionGate.EvalExact` | bench/src/report.rs:1193-1226 | a relative cost is the anchor's rate over the point's and the advantage the xdp rate over the nftables rate; missing, idle or zero points form no value |
| `RegressionGate.JudgeExact` | bench/src/report.rs:1419-1442 | a verdict without divisions or squares: beyond the threshold's share of the baseline, in the direction its sign gives, and by more than sigma standard deviations |
| `RegressionGate.MedianExact` | bench/src/report.rs:1256-1269 | the median is the midpoint of the two middle ranks |
| `RegressionGate.HardwareInvariant` | bench/src/report.rs:1193-1250 | scaling the pps of the baseline and of every sample, each by its own positive factor, leaves the whole outcome unchanged, refusals included |
| `RegressionGate.MajorityPinsMedian` | bench/src/report.rs:1256-1269 | more than half of the values within a range put the median in it |
| `RegressionGate.MedianResistsMinority` | bench/src/report.rs:1256-1269 | replacing fewer than half of the values by anything keeps the median within the range of the rest |
| `RegressionGate.HalfCanMoveMedian` | bench/src/report.rs:1256-1269 | replacing half can move it anywhere |
| `RegressionGate.BandOnSquares` | bench/src/report.rs:1274-1283 | the band test on squares is the test against sigma standard deviations, for every sigma |
| `RegressionGate.FlagMovesToward` | bench/src/report.rs:1419-1442 | with a positive threshold, or zero and a non-negative sigma, a flag is a strict move in the regressing direction for a positive baseline and in the opposite one for a negative baseline |
| `RegressionGate.GateFlagsIff` | bench/src/report.rs:1373-1451 | every flag against a baseline, for every set of samples, is a strict worsening if and only if the baseline is refused, gives no metric a reference value, or the settings are proper and its nftables rate is not negative |
| `RegressionGate.MinorityCannotFlag` | bench/src/report.rs:1419-1442 | under proper settings, and a baseline of either sign, a metric is not flagged while more than half of its samples have not moved in the flagged direction |
| `RegressionGate.MajorityRegressionCaught` | bench/src/report.rs:1419-1442 | when more than half of the values are beyond the threshold, so is the verdict, and with no noise band it is flagged |
| `RegressionGate.EveryMetricJudged` | bench/src/report.rs:1403-1443 | every baseline metric with a reference value and one sample that forms it has a verdict |
| `RegressionGate.VerdictsExact` | bench/src/report.rs:1403-1443 | the output holds exactly the judgements of the enumerated metrics |
| `RegressionGate.SampleValuesExact` | bench/src/report.rs:1412-1418 | a value enters the statistics exactly as often as samples form it |
| `RegressionGate.CostMetricsExact` | bench/src/report.rs:1233-1250 | the relative-cost metrics are exactly the baseline's points other than the anchor |
| `RegressionGate.MetricsExact` | bench/src/report.rs:1233-1250 | the enumerated metrics are the costs of all points but raw-l3 over xdp, and the advantage if raw-l3 is present over both |
| `RegressionGate.VarianceZeroIff` | bench/src/report.rs:1274-1283 | the spread is zero exactly when the samples agree or number fewer than two |
| `RegressionGate.VariancePairwise` | bench/src/report.rs:1274-1283 | n (n - 1) times the variance is the sum of squared differences over all pairs, for any number of samples: the corrected estimate |
| `RegressionGate.FlagsShrink` | bench/src/report.rs:1373-1451 | raising threshold or sigma keeps refusals and evidence and only clears flags |
| `RegressionGate.SingleSample` | bench/src/report.rs:1274-1279 | one sample has no band: a flag is the threshold test and a move, threshold-only exactly for a positive threshold or a moved value |
| `RegressionGate.SingleIsStatistical` | bench/src/report.rs:1465-1486 | the single-sample gate equals the statistical gate on one sample for every sigma |
| `RegressionGate.FlaggedExact` | bench/src/report.rs:1476-1485 | the wrapper keeps each flagged verdict as often as it occurs, and no other |
| `RegressionGate.BaselineSign` | bench/src/report.rs:1193-1226 | relative-cost baselines are positive; the advantage has the sign of the nftables rate, and neither is ever zero |
| `Squash.CollectSquashFiles` | cmd/sng-migrate/squash.go:170-244 | returns the ascending up and down files within the cut and the highest version, exactly when the directory has no malformed, oversize, unreadable, duplicate or unpaired migration; an error names a real fault |
| `Squash.CleanExact` | cmd/sng-migrate/squash.go:177-240 | clean is: no oddly named SQL file, versions below 2^32, and within the cut readable files, one per version and direction, both directions of each |
| `Squash.ListsExact` | cmd/sng-migrate/squash.go:202-243 | a listed direction holds exactly the files of its migrations within the cut, by rising version |
| `Squash.PlanUnique` | cmd/sng-migrate/squash.go:170-244 | the plan is determined by the set of entries |
| `Squash.CollectTwice` | cmd/sng-migrate/squash.go:170-244 | two listings of one directory are both refused or give the same plan |
| `Squash.CutKeepsClean` | cmd/sng-migrate/squash.go:202-206 | a directory that squashes whole squashes up to any cut |
| `Squash.RenderBaseline` | cmd/sng-migrate/squash.go:250-280 | the header, then every file's SQL without trailing newlines at increasing offsets, in ascending or exactly reversed version order, and between them only comment and blank lines |
| `Squash.BaselineText` | cmd/sng-migrate/squash.go:271-279 | that layout for every list of files with one-line names |
| `Squash.TrimNewlines` | cmd/sng-migrate/squash.go:274-277 | removes all trailing newlines and nothing else |
| `Squash.BaselineThenRest` | cmd/sng-migrate/squash.go:170-280 | for any effect of SQL on a database that skips comments, the baseline text followed by every migration above its recorded version equals the full ordered replay, provided each consolidated file ends its last statement |
| `Squash.BaselineRoundTrip` | cmd/sng-migrate/squash.go:246-280 | under the same provision, if each down undoes its up, the down baseline undoes the up baseline |
| `LatencyPool.LatencyRecorder.Record` | bench/controlplane/measure.go:35-44 | one sample appended, count and total kept in step, errors counted |
| `LatencyPool.AggregateTier` | bench/controlplane/measure.go:96-121 | the fold gives every endpoint's summary, the percentile and rate of the pooled samples, and the pooled error rate |
| `LatencyPool.RanksAdd` | bench/controlplane/measure.go:82-88 | the nearest rank of a union is the sum of the parts' ranks, or one less |
| `Ordering.NearestRankExact` | bench/controlplane/measure.go:81-88 | the rank is the least that covers p percent of the samples, within the first and the last |
| `LatencyPool.PercentileExact` | bench/controlplane/measure.go:73-90 | the percentile is the least sample that covers p percent of them |
| `LatencyPool.PoolExact` | bench/controlplane/measure.go:103-112 | the pooled samples are those of all recorders, each as often as recorded |
| `LatencyPool.PooledBetween` | bench/controlplane/measure.go:96-121 | the pooled percentile lies between any bounds of the non-empty recorders' own percentiles, for any split and any p |
| `LatencyPool.PercentileMonotone` | bench/controlplane/measure.go:73-90 | percentiles are monotone in p |
| `LatencyPool.PercentileHundredIsMax` | bench/controlplane/measure.go:62-65 | p = 100 is the true maximum |
| `LatencyPool.SummaryOrdered` | bench/controlplane/measure.go:50-67 | in every summary p50 <= p95 <= p99 <= max, and no recorded sample exceeds max |
| `LatencyPool.SummaryExact` | bench/controlplane/measure.go:50-67 | a summary's counters, rate, and 50th, 95th, 99th and 100th percentiles in milliseconds, by their meaning |
| `Capacity.WriteSoundAndStable` | internal/capacityplan/model.go:1080-1125 | the recommended shards and batch meet one insert per second and shard, and recommend themselves again |
| `Capacity.WriteMinimal` | internal/capacityplan/model.go:1104-1125 | any allowed configuration that keeps up needs at least the recommended shards, or at no more shards the recommended batch |
| `Capacity.KeepsUp` | internal/capacityplan/model.go:1081-1083 | one insert per second and shard suffices exactly when rows do not exceed batch size times shards |
| `Capacity.SlotsSoundStableMinimal` | internal/capacityplan/model.go:839-861 | the recommended pool is healthy, recommends itself, and is the smallest healthy one |
| `Capacity.NextPow2` | internal/capacityplan/model.go:1176-1188 | the doubling loop gives the least power of two at least n, or 256 |
| `Capacity.LeastPow2IsLeast` | internal/capacityplan/model.go:1173-1188 | the result is a power of two, and no smaller power of two is at least n |
| `Capacity.BusiestExact` | internal/capacityplan/model.go:1133-1143 | all subjects on a single partition, else the least whole number at least 15 percent above the mean |
| `Capacity.PartitionsStable` | internal/capacityplan/model.go:1132-1171 | the recommendation always recommends itself, and meets the ceiling exactly when the current layout does or distinct * 1.15 <= 5000 * 256 |
| `Capacity.PartitionsNeverShrinkIff` | internal/capacityplan/model.go:1132-1188 | the recommendation is at least the current count if and only if that is at most 256 or not overloaded |
| `Capacity.PartitionsMinimal` | internal/capacityplan/model.go:1132-1188 | no smaller power of two, one included, meets the ceiling |
| `Capacity.PoolCoversPeak` | internal/capacityplan/model.go:1025-1046 | the recommended Postgres pool is the least whose connections over all replicas cover the peak with headroom |

## Left out

- JSON and markdown rendering, report structs, competitor tables, datasheets: formatting only.
- Sockets, `/proc` sampling, wall-clock loops, thread naming, containers, databases, message brokers and HTTP handlers: I/O and foreign calls.
- Firewall engine, XDP rule set, DDoS mitigator, deduplication cache, leader elector, tenant planner, policy compiler, and with them the periodic-sweep plan: not part of this model, since their code is not in the repository's modelled files.
- AEAD, SHA-256 and Aho-Corasick stages of packet processing: library calls.
- Floating-point rounding: `f64` is modelled as real, so the histogram's percentile rank and the flow pool are exact here.
- The multi-queue and wire scaling gates: they apply the same judgement to stored efficiencies and would repeat the forwarding gate's lemmas.
- Rendering of notes, storage projections and tier sampling in the capacity plan: products and formatting.
- Command-line parsing, configuration defaults, grading bands and cost multiplication: easy members only.
- The quality of the random generator: the sampled word and port are arbitrary.
- The file-name pattern of migrations: an entry arrives with its name already split, on one line as the pattern ensures; the generated header of a baseline is a parameter.
- Squash.CollectSquashFiles: relies on a file system not listing one name twice.
- Histogram.LatencyHistogram.RecordN: counter overflow is the panic of a checked build; in an unchecked build the counters wrap, which is not modelled, nor is the object after such a panic.
- Histogram.LatencyHistogram.Merge: likewise for the totals of two histograms.
- Checksum.Accumulate: likewise, overflow is reported and not wrapped.
- ReviewIngest.Ingest.Offer: the runtime's choice between two ready cases is a parameter.
- Elapsed time of a measured stream: a worker's outcome carries packets and bytes only.
- Bounded waiting in `Wait` and `Stop` (contexts and deadlines): only what holds when the counter has reached zero or the worker has exited is stated.
