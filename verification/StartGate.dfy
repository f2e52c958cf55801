/** The cancellable start gate of the wire fan-out (bench/src/wire_scaling.rs):
    a mutex and condition variable that release every worker together, or
    cancel the ones that started when a later spawn fails.

    Each section under the mutex is one atomic step; waiting on the condition
    variable releases the mutex and parks in the same step. A parked worker may
    also wake spuriously at any time. */
module StartGate {
  import opened Ordering

  datatype StreamOutcome = StreamOutcome(queueIndex: nat, packets: nat, bytes: nat)

  // What a worker's thread returns to `join`.
  datatype Outcome = Cancelled | Counted(packets: nat, bytes: nat) | EmitFailed

  datatype WorkerPc = AtGate | Parked | Woken | Measuring | Joinable(outcome: Outcome)

  datatype Returned = Streams(outcomes: seq<StreamOutcome>) | BuildError | SpawnError | StreamError

  datatype MainPc = Building | Spawning | Releasing | Notifying | Joining(next: nat) | Finished(result: Returned)

  datatype State = State(
    queues: nat, workers: seq<WorkerPc>, go: bool, abort: bool, spawnFailed: bool,
    main: MainPc, collected: seq<StreamOutcome>, streamFailed: bool)

  // `queues.max(1)` workers are wanted.
  function Init(queues: nat): State {
    State(if queues < 1 then 1 else queues, [], false, false, false, Building, [], false)
  }

  datatype Step =
    | Built | BuildFail         // all generators, before any spawn
    | SpawnOk | SpawnFail | SpawnDone | Release | Notify
    | Check(w: nat) | Spurious(w: nat) | Stop(w: nat, outcome: Outcome)
    | Join | Return

  predicate Enabled(s: State, step: Step) {
    match step
    case Built => s.main.Building?
    case BuildFail => s.main.Building?
    case SpawnOk => s.main.Spawning? && |s.workers| < s.queues
    case SpawnFail => s.main.Spawning? && |s.workers| < s.queues
    case SpawnDone => s.main.Spawning? && |s.workers| == s.queues
    case Release => s.main.Releasing?
    case Notify => s.main.Notifying?
    case Check(w) => w < |s.workers| && (s.workers[w].AtGate? || s.workers[w].Woken?)
    case Spurious(w) => w < |s.workers| && s.workers[w].Parked?
    case Stop(w, o) => w < |s.workers| && s.workers[w].Measuring? && !o.Cancelled?
    case Join => s.main.Joining? && s.main.next < |s.workers| && s.workers[s.main.next].Joinable?
    case Return => s.main.Joining? && s.main.next == |s.workers|
  }

  // ----------------------------------------------------- the critical sections

  /** A worker at the gate: wait while neither flag is set, leave on abort, else
      run. */
  function CheckSection(go: bool, abort: bool): WorkerPc {
    if !go && !abort then Parked
    else if abort then Joinable(Cancelled)
    else Measuring
  }

  /** The spawning thread's release: the new flags. */
  function ReleaseSection(go: bool, abort: bool, spawnFailed: bool): (bool, bool) {
    if spawnFailed then (go, true) else (true, abort)
  }

  class Gate {
    var go: bool
    var abort: bool

    constructor ()
      ensures !go && !abort
    {
      go, abort := false, false;
    }

    method Release(spawnFailed: bool)
      modifies this
      ensures (go, abort) == ReleaseSection(old(go), old(abort), spawnFailed)
    {
      if spawnFailed { abort := true; } else { go := true; }
    }

    // One turn of the wait loop and the test after it.
    method Check() returns (next: WorkerPc)
      ensures next == CheckSection(go, abort)
    {
      if !go && !abort { return Parked; }
      if abort { return Joinable(Cancelled); }
      return Measuring;
    }
  }

  // -------------------------------------------------------- transition system

  function WakeAll(ws: seq<WorkerPc>): (r: seq<WorkerPc>)
    ensures |r| == |ws|
    ensures forall w :: 0 <= w < |ws| ==> r[w] == if ws[w].Parked? then Woken else ws[w]
  {
    seq(|ws|, w requires 0 <= w < |ws| => if ws[w].Parked? then Woken else ws[w])
  }

  function DoJoin(s: State): State
    requires Enabled(s, Join)
  {
    var j := s.main.next;
    var s1 := s.(main := Joining(j + 1));
    match s.workers[j].outcome
    case Cancelled => s1.(collected := s.collected + [StreamOutcome(j, 0, 0)])
    case Counted(p, b) => s1.(collected := s.collected + [StreamOutcome(j, p, b)])
    case EmitFailed => s1.(streamFailed := true)
  }

  predicate ByIndex(a: StreamOutcome, b: StreamOutcome) { a.queueIndex <= b.queueIndex }

  function Result(s: State): Returned {
    if s.spawnFailed then SpawnError
    else if s.streamFailed then StreamError
    else Streams(Sort(s.collected, ByIndex))
  }

  function Apply(s: State, step: Step): State
    requires Enabled(s, step)
  {
    match step
    case Built => s.(main := Spawning)
    case BuildFail => s.(main := Finished(BuildError))
    case SpawnOk => s.(workers := s.workers + [AtGate])
    case SpawnFail => s.(spawnFailed := true, main := Releasing)
    case SpawnDone => s.(main := Releasing)
    case Release =>
      var (go, abort) := ReleaseSection(s.go, s.abort, s.spawnFailed);
      s.(go := go, abort := abort, main := Notifying)
    case Notify => s.(workers := WakeAll(s.workers), main := Joining(0))
    case Check(w) => s.(workers := s.workers[w := CheckSection(s.go, s.abort)])
    case Spurious(w) => s.(workers := s.workers[w := Woken])
    case Stop(w, o) => s.(workers := s.workers[w := Joinable(o)])
    case Join => DoJoin(s)
    case Return => s.(main := Finished(Result(s)))
  }

  predicate Runs(s: State, steps: seq<Step>, s': State)
    decreases |steps|
  {
    if steps == [] then s == s'
    else Enabled(s, steps[0]) && Runs(Apply(s, steps[0]), steps[1..], s')
  }

  ghost predicate Reachable(s: State, queues: nat) { exists steps :: Runs(Init(queues), steps, s) }

  // ------------------------------------------------------------- the invariant

  // The release has happened.
  predicate Opened(s: State) {
    s.main.Notifying? || s.main.Joining? || (s.main.Finished? && !s.main.result.BuildError?)
  }

  // The flags are set once, by the release, and say which way it went.
  predicate GateOk(s: State) {
    && |s.workers| <= s.queues
    && s.go == (Opened(s) && !s.spawnFailed)
    && s.abort == (Opened(s) && s.spawnFailed)
    && (s.main.Spawning? || s.main.Building? ==> !s.spawnFailed)
    && (s.main.Releasing? || Opened(s) ==> (s.spawnFailed <==> |s.workers| < s.queues))
  }

  // A parked worker behind an open gate has a notify still coming.
  ghost predicate NoLostWakeup(s: State) {
    forall w :: 0 <= w < |s.workers| && s.workers[w].Parked? && (s.go || s.abort) ==> s.main.Notifying?
  }

  // Workers measure only after go, and are cancelled only after abort.
  ghost predicate WorkersOk(s: State) {
    forall w :: 0 <= w < |s.workers| ==>
      match s.workers[w]
      case Measuring => s.go
      case Joinable(o) => if o.Cancelled? then s.abort else s.go
      case _ => true
  }

  function JoinedCount(s: State): nat {
    match s.main
    case Joining(j) => j
    case Finished(_) => |s.workers|
    case _ => 0
  }

  // What joining the first j workers in order collects.
  function Collected(ws: seq<WorkerPc>, j: nat): seq<StreamOutcome>
    requires j <= |ws|
  {
    if j == 0 then [] else Collected(ws, j - 1) + Yield(ws[j - 1], j - 1)
  }

  function Yield(pc: WorkerPc, q: nat): seq<StreamOutcome> {
    match pc
    case Joinable(Cancelled) => [StreamOutcome(q, 0, 0)]
    case Joinable(Counted(p, b)) => [StreamOutcome(q, p, b)]
    case _ => []
  }

  // Some of the first j workers ended with an emit error.
  ghost predicate FailedBefore(ws: seq<WorkerPc>, j: nat) {
    exists w :: 0 <= w < j && w < |ws| && ws[w] == Joinable(EmitFailed)
  }

  ghost predicate JoinsOk(s: State) {
    && JoinedCount(s) <= |s.workers|
    && (forall w :: 0 <= w < JoinedCount(s) ==> s.workers[w].Joinable?)
    && s.collected == Collected(s.workers, JoinedCount(s))
    && (s.streamFailed <==> FailedBefore(s.workers, JoinedCount(s)))
    && (Opened(s) && s.main.Finished? ==> s.main.result == Result(s))
    && (s.main.Building? || (s.main.Finished? && !Opened(s)) ==> s.workers == [])
  }

  ghost predicate Inv(s: State) {
    GateOk(s) && NoLostWakeup(s) && WorkersOk(s) && JoinsOk(s)
  }

  lemma GateKept(s: State, step: Step)
    requires GateOk(s) && WorkersOk(s) && NoLostWakeup(s) && Enabled(s, step)
    ensures GateOk(Apply(s, step)) && WorkersOk(Apply(s, step)) && NoLostWakeup(Apply(s, step))
  {}

  lemma {:induction false} CollectedFrame(ws: seq<WorkerPc>, ws': seq<WorkerPc>, j: nat)
    requires j <= |ws| && j <= |ws'| && forall w :: 0 <= w < j ==> ws'[w] == ws[w]
    ensures Collected(ws', j) == Collected(ws, j)
  {
    if j == 0 {
    } else {
      CollectedFrame(ws, ws', j - 1);
    }
  }

  lemma JoinsKept(s: State, step: Step)
    requires JoinsOk(s) && Enabled(s, step)
    ensures JoinsOk(Apply(s, step))
  {
    if step.Join? {
      JoinCollects(s);
    } else {
      JoinsFrame(s, step);
    }
  }

  // Other steps leave the joined workers, and what they yielded, alone.
  lemma JoinedUntouched(s: State, step: Step)
    requires JoinsOk(s) && Enabled(s, step) && !step.Join?
    ensures var s', j := Apply(s, step), JoinedCount(s);
            && JoinedCount(s') == j <= |s'.workers|
            && (forall w :: 0 <= w < j ==> s'.workers[w] == s.workers[w])
            && s'.collected == s.collected && s'.streamFailed == s.streamFailed
            && (Opened(s') && s'.main.Finished? ==> s'.main.result == Result(s'))
            && (s'.main.Building? || (s'.main.Finished? && !Opened(s')) ==> s'.workers == [])
  {
    hide Collected, FailedBefore, Sort;
  }

  lemma JoinsFrame(s: State, step: Step)
    requires JoinsOk(s) && Enabled(s, step) && !step.Join?
    ensures JoinsOk(Apply(s, step))
  {
    hide Collected, FailedBefore, Result, Apply;
    JoinedUntouched(s, step);
    CollectedFrame(s.workers, Apply(s, step).workers, JoinedCount(s));
    FailedFrame(s.workers, Apply(s, step).workers, JoinedCount(s));
  }

  lemma FailedFrame(ws: seq<WorkerPc>, ws': seq<WorkerPc>, j: nat)
    requires j <= |ws| && j <= |ws'| && forall w :: 0 <= w < j ==> ws'[w] == ws[w]
    ensures FailedBefore(ws', j) <==> FailedBefore(ws, j)
  {}

  lemma FailedNext(ws: seq<WorkerPc>, j: nat)
    requires j < |ws|
    ensures FailedBefore(ws, j + 1) <==> FailedBefore(ws, j) || ws[j] == Joinable(EmitFailed)
  {}

  lemma JoinFields(s: State)
    requires Enabled(s, Join)
    ensures var j, s' := s.main.next, DoJoin(s);
            && s'.workers == s.workers && s'.main == Joining(j + 1)
            && s'.collected == s.collected + Yield(s.workers[j], j)
            && s'.streamFailed == (s.streamFailed || s.workers[j] == Joinable(EmitFailed))
  {}

  lemma JoinCollects(s: State)
    requires JoinsOk(s) && Enabled(s, Join)
    ensures JoinsOk(DoJoin(s))
  {
    var j := s.main.next;
    JoinFields(s);
    FailedNext(s.workers, j);
    assert Collected(s.workers, j + 1) == Collected(s.workers, j) + Yield(s.workers[j], j);
    hide DoJoin, Collected, FailedBefore, Result, Yield;
  }

  lemma {:induction false} RunKeepsInv(s: State, steps: seq<Step>, s': State)
    requires Inv(s) && Runs(s, steps, s')
    ensures Inv(s') && s'.queues == s.queues
    decreases |steps|
  {
    if steps == [] {
    } else {
      GateKept(s, steps[0]);
      JoinsKept(s, steps[0]);
      RunKeepsInv(Apply(s, steps[0]), steps[1..], s');
    }
  }

  lemma ReachableInv(s: State, queues: nat)
    requires Reachable(s, queues)
    ensures Inv(s) && s.queues == if queues < 1 then 1 else queues
  {
    var steps :| Runs(Init(queues), steps, s);
    RunKeepsInv(Init(queues), steps, s);
  }

  // ------------------------------------------------------------------ theorems

  /** `go` and `abort` are never both set, and no wakeup is lost: a worker
      parked behind a set flag is still to be notified. */
  lemma GateIsSafe(s: State, queues: nat)
    requires Reachable(s, queues)
    ensures !(s.go && s.abort)
    ensures forall w :: 0 <= w < |s.workers| && s.workers[w].Parked? && (s.go || s.abort) ==> s.main.Notifying?
  {
    ReachableInv(s, queues);
  }

  /** After a spawn failure no worker measures anything, ever: each is parked,
      on its way to the gate, or cancelled. */
  lemma NothingMeasuredAfterSpawnFailure(s: State, queues: nat, w: nat)
    requires Reachable(s, queues) && s.spawnFailed && w < |s.workers|
    ensures s.workers[w].AtGate? || s.workers[w].Parked? || s.workers[w].Woken?
            || s.workers[w] == Joinable(Cancelled)
  {
    ReachableInv(s, queues);
  }

  /** Returning means every spawned worker was joined, and that none was spawned
      if a generator could not be built. A value is returned only
      for a full-width run, and then holds one outcome per stream in stream
      order; a spawn failure takes precedence over any stream error. */
  lemma ReturnedResult(s: State, queues: nat)
    requires Reachable(s, queues) && s.main.Finished?
    ensures forall w :: 0 <= w < |s.workers| ==> s.workers[w].Joinable?
    ensures s.main.result.BuildError? ==> s.workers == []
    ensures s.main.result.SpawnError? <==> !s.main.result.BuildError? && |s.workers| < s.queues
    ensures s.main.result.StreamError? <==>
            |s.workers| == s.queues && exists w :: 0 <= w < |s.workers| && s.workers[w] == Joinable(EmitFailed)
    ensures s.main.result.Streams? ==>
            && |s.main.result.outcomes| == s.queues == |s.workers|
            && forall q :: 0 <= q < s.queues ==>
                 && s.workers[q].outcome.Counted?
                 && s.main.result.outcomes[q] ==
                    StreamOutcome(q, s.workers[q].outcome.packets, s.workers[q].outcome.bytes)
  {
    ReachableInv(s, queues);
    if s.main.result.Streams? {
      CollectedAll(s.workers, |s.workers|);
      SortOfAscending(s.collected);
    }
  }

  lemma {:induction false} CollectedAll(ws: seq<WorkerPc>, j: nat)
    requires j <= |ws| && forall w :: 0 <= w < j ==> ws[w].Joinable? && ws[w].outcome.Counted?
    ensures |Collected(ws, j)| == j
    ensures forall q :: 0 <= q < j ==>
      Collected(ws, j)[q] == StreamOutcome(q, ws[q].outcome.packets, ws[q].outcome.bytes)
  {
    if j == 0 {
    } else {
      CollectedAll(ws, j - 1);
    }
  }

  lemma {:induction false} SortOfAscending(s: seq<StreamOutcome>)
    requires Ascending(s, ByIndex)
    ensures Sort(s, ByIndex) == s
  {
    if s == [] {
    } else {
      assert Ascending(s[1..], ByIndex);
      SortOfAscending(s[1..]);
      assert s == [s[0]] + s[1..];
    }
  }

  /** Progress: until the fan-out has returned, some step other than a spurious
      wakeup is enabled; nobody is stranded. */
  lemma NeverStuck(s: State, queues: nat) returns (step: Step)
    requires Reachable(s, queues) && !s.main.Finished?
    ensures Enabled(s, step) && !step.Spurious?
  {
    ReachableInv(s, queues);
    match s.main
    case Building => step := Built;
    case Spawning => step := if |s.workers| < s.queues then SpawnOk else SpawnDone;
    case Releasing => step := Release;
    case Notifying => step := Notify;
    case Joining(j) =>
      if j == |s.workers| {
        step := Return;
      } else {
        match s.workers[j]
        case AtGate => step := Check(j);
        case Woken => step := Check(j);
        case Parked => assert false;
        case Measuring => step := Stop(j, EmitFailed);
        case Joinable(_) => step := Join;
      }
  }

  function Weight(pc: WorkerPc): nat {
    match pc
    case AtGate => 4
    case Woken => 4
    case Parked => 3
    case Measuring => 2
    case Joinable(_) => 0
  }

  function Weights(ws: seq<WorkerPc>): nat {
    if ws == [] then 0 else Weights(ws[..|ws| - 1]) + Weight(ws[|ws| - 1])
  }

  function Rank(s: State): int {
    match s.main
    case Building => 7 * s.queues + 6
    case Spawning => 2 * s.queues + 5 + 5 * (s.queues - |s.workers|)
    case Releasing => 2 * s.queues + 4
    case Notifying => 2 * s.queues + 3
    case Joining(j) => |s.workers| - j + 1
    case Finished(_) => 0
  }

  function Measure(s: State): int { Rank(s) + Weights(s.workers) }

  lemma {:induction false} WeightsUpdate(ws: seq<WorkerPc>, w: nat, pc: WorkerPc)
    requires w < |ws|
    ensures Weights(ws[w := pc]) + Weight(ws[w]) == Weights(ws) + Weight(pc)
  {
    var n := |ws| - 1;
    if w == n {
      assert ws[w := pc][..n] == ws[..n];
    } else {
      WeightsUpdate(ws[..n], w, pc);
      assert ws[w := pc][..n] == ws[..n][w := pc];
    }
  }

  lemma {:induction false} WeightsWake(ws: seq<WorkerPc>)
    ensures Weights(WakeAll(ws)) <= Weights(ws) + |ws|
  {
    if ws == [] {
    } else {
      WeightsWake(ws[..|ws| - 1]);
      assert WakeAll(ws)[..|ws| - 1] == WakeAll(ws[..|ws| - 1]);
    }
  }

  /** Every step but a spurious wakeup lowers the measure; a spurious wakeup
      raises it by one. */
  lemma MeasureStep(s: State, step: Step)
    requires Inv(s) && Enabled(s, step)
    ensures step.Spurious? ==> Measure(Apply(s, step)) == Measure(s) + 1
    ensures !step.Spurious? ==> Measure(Apply(s, step)) < Measure(s)
  {
    hide Weights, JoinsOk, GateOk, WorkersOk, NoLostWakeup, Measure, Apply;
    if step.Check? || step.Spurious? || step.Stop? {
      MeasureWorkerStep(s, step);
    } else {
      MeasureMainStep(s, step);
    }
  }

  lemma MeasureWorkerStep(s: State, step: Step)
    requires Inv(s) && Enabled(s, step) && (step.Check? || step.Spurious? || step.Stop?)
    ensures step.Spurious? ==> Measure(Apply(s, step)) == Measure(s) + 1
    ensures !step.Spurious? ==> Measure(Apply(s, step)) < Measure(s)
  {
    hide Weights, JoinsOk;
    var s' := Apply(s, step);
    WeightsUpdate(s.workers, step.w, s'.workers[step.w]);
    assert s'.workers == s.workers[step.w := s'.workers[step.w]] && Rank(s') == Rank(s);
  }

  lemma MeasureMainStep(s: State, step: Step)
    requires GateOk(s) && JoinsOk(s) && Enabled(s, step) && !step.Check? && !step.Spurious? && !step.Stop?
    ensures Measure(Apply(s, step)) < Measure(s)
  {
    hide Weights, Collected, FailedBefore, Result;
    if step.SpawnOk? {
      WeightsSnoc(s.workers);
    } else if step.Notify? {
      WeightsWake(s.workers);
    } else {
      assert Apply(s, step).workers == s.workers;
    }
  }

  lemma {:induction false} WeightsSnoc(ws: seq<WorkerPc>)
    ensures Weights(ws + [AtGate]) == Weights(ws) + 4
  {
    assert (ws + [AtGate])[..|ws|] == ws;
  }

  function SpuriousCount(steps: seq<Step>): nat {
    if steps == [] then 0 else (if steps[0].Spurious? then 1 else 0) + SpuriousCount(steps[1..])
  }

  /** So with finitely many spurious wakeups every run ends: its length is
      bounded, and what is left of the measure is never negative. */
  lemma {:induction false} RunLengthBounded(s: State, steps: seq<Step>, s': State)
    requires Inv(s) && Runs(s, steps, s')
    ensures 0 <= Measure(s') && |steps| + Measure(s') <= Measure(s) + 2 * SpuriousCount(steps)
    decreases |steps|
  {
    if steps == [] {
      MeasureNonNegative(s);
    } else {
      hide Measure, Inv;
      MeasureStep(s, steps[0]);
      StepKeepsInv(s, steps[0]);
      RunLengthBounded(Apply(s, steps[0]), steps[1..], s');
    }
  }

  lemma MeasureNonNegative(s: State)
    requires Inv(s)
    ensures Measure(s) >= 0
  {}

  /** From the start: a fan-out of n workers takes at most 7n + 6 steps, and two
      more for each spurious wakeup. */
  lemma {:induction false} FanoutLengthBounded(queues: nat, steps: seq<Step>, s: State)
    requires Runs(Init(queues), steps, s)
    ensures |steps| <= 7 * s.queues + 6 + 2 * SpuriousCount(steps)
  {
    hide Runs;
    RunKeepsInv(Init(queues), steps, s);
    RunLengthBounded(Init(queues), steps, s);
    assert Weights([]) == 0;
  }

  /** A run that cannot be continued, spurious wakeups aside, has returned. */
  lemma StoppedMeansReturned(s: State, queues: nat)
    requires Reachable(s, queues) && forall step: Step :: Enabled(s, step) ==> step.Spurious?
    ensures s.main.Finished?
  {
    if !s.main.Finished? { var step := NeverStuck(s, queues); }
  }

  lemma StepKeepsInv(s: State, step: Step)
    requires Inv(s) && Enabled(s, step)
    ensures Inv(Apply(s, step))
  {
    GateKept(s, step);
    JoinsKept(s, step);
  }

  // ------------------------------------------- the fixed-count barrier instead

  datatype BarrierPc = Arriving | Blocked | Passed

  // k workers were spawned of the n the barrier waits for; main joins them.
  datatype Barrier = Barrier(n: nat, workers: seq<BarrierPc>, joined: nat)

  function Arrived(ws: seq<BarrierPc>): nat {
    if ws == [] then 0 else Arrived(ws[..|ws| - 1]) + (if ws[|ws| - 1].Arriving? then 0 else 1)
  }

  predicate BarrierStep(b: Barrier, b': Barrier) {
    || (exists w :: 0 <= w < |b.workers| && b.workers[w].Arriving? && b' == b.(workers := b.workers[w := Blocked]))
    || (exists w :: 0 <= w < |b.workers| && b.workers[w].Blocked? && Arrived(b.workers) >= b.n
                    && b' == b.(workers := b.workers[w := Passed]))
    || (b.joined < |b.workers| && b.workers[b.joined].Passed? && b' == b.(joined := b.joined + 1))
  }

  predicate BarrierRun(trace: seq<Barrier>) {
    |trace| > 0 && forall i :: 0 <= i < |trace| - 1 ==> BarrierStep(trace[i], trace[i + 1])
  }

  lemma {:induction false} ArrivedAtMost(ws: seq<BarrierPc>)
    ensures Arrived(ws) <= |ws|
  {
    if ws == [] {
    } else {
      ArrivedAtMost(ws[..|ws| - 1]);
    }
  }

  function BlockedFirst(n: nat, k: nat, j: nat): Barrier
    requires j <= k
  {
    Barrier(n, seq(k, w => if w < j then Blocked else Arriving), 0)
  }

  /** With a `Barrier::new(n)` and only k < n workers spawned, the run in which
      each worker arrives in turn ends in a state with no step left and no
      worker joined. */
  lemma BarrierDeadlocks(n: nat, k: nat) returns (trace: seq<Barrier>)
    requires 1 <= k < n
    ensures BarrierRun(trace) && trace[0] == Barrier(n, seq(k, _ => Arriving), 0)
    ensures var last := trace[|trace| - 1];
            last.joined == 0 < |last.workers| && forall b' :: !BarrierStep(last, b')
  {
    trace := seq(k + 1, j requires 0 <= j <= k => BlockedFirst(n, k, j));
    forall i | 0 <= i < |trace| - 1 ensures BarrierStep(trace[i], trace[i + 1]) {
      var b, b' := trace[i], trace[i + 1];
      assert b.workers[i].Arriving?;
      assert b'.workers == b.workers[i := Blocked];
    }
    assert trace[0].workers == seq(k, _ => Arriving);
    var last := trace[k];
    ArrivedAtMost(last.workers);
    forall b' ensures !BarrierStep(last, b') {}
  }

  // -------------------------------------------------------------- fan-out widths

  /** `normalized_queue_counts`: drop zeros, sort, de-duplicate, and put a
      single stream first. The result is strictly ascending, starts at one and
      holds exactly the positive requested widths and one. */
  method NormalizedQueueCounts(requested: seq<nat>) returns (counts: seq<int>)
    ensures |counts| > 0 && counts[0] == 1
    ensures forall i, j :: 0 <= i < j < |counts| ==> counts[i] < counts[j]
    ensures forall q: int :: q in counts <==> q == 1 || (q >= 1 && q in requested)
  {
    hide Sort;
    var kept := KeepPositive(requested);
    var sorted := Sort(kept, IntLe);
    IntOrder();
    SortAscends(kept, IntLe);
    assert forall q: int :: q in sorted <==> q in kept by {
      SortPermutes(kept, IntLe);
      assert forall q: int :: q in sorted <==> q in multiset(sorted);
    }
    counts := Dedup(sorted);
    if counts == [] || counts[0] != 1 {
      assert forall i :: 0 <= i < |counts| ==> counts[i] in counts && counts[0] <= counts[i];
      counts := [1] + counts;
    }
  }

  method KeepPositive(requested: seq<nat>) returns (kept: seq<int>)
    ensures forall q: int :: q in kept <==> q >= 1 && q in requested
  {
    kept := [];
    for i := 0 to |requested|
      invariant forall q: int :: q in kept <==> q >= 1 && q in requested[..i]
    {
      if requested[i] >= 1 { kept := kept + [requested[i]]; }
    }
    assert requested[..|requested|] == requested;
  }

  method Dedup(sorted: seq<int>) returns (counts: seq<int>)
    requires Ascending(sorted, IntLe)
    ensures forall q: int :: q in counts <==> q in sorted
    ensures forall i, j :: 0 <= i < j < |counts| ==> counts[i] < counts[j]
  {
    counts := [];
    for i := 0 to |sorted|
      invariant forall q: int :: q in counts <==> q in sorted[..i]
      invariant forall a, b :: 0 <= a < b < |counts| ==> counts[a] < counts[b]
      invariant |counts| > 0 ==> i > 0 && counts[|counts| - 1] == sorted[i - 1]
      invariant i > 0 ==> |counts| > 0
    {
      if counts == [] || counts[|counts| - 1] != sorted[i] { counts := counts + [sorted[i]]; }
    }
    assert sorted[..|sorted|] == sorted;
  }
}
