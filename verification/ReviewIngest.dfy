/** The DLP review ingest adapter (cmd/sng-control/dlp_review_observer.go): a
    bounded hand-off queue between the telemetry hot path and one enqueue
    worker, with a drain on stop.

    `ObserveDLP` is two non-blocking selects, hence two steps; between them the
    adapter may be stopped. Where both the send and the `done` case of a select
    are ready, either may be taken. */
module ReviewIngest {

  // A job is identified by its position in the telemetry stream.
  type Job = nat

  const DEFAULT_BUFFER: nat := 1024

  datatype ObserverPc = Entered(job: Job) | Checked(job: Job) | Left

  datatype WorkerPc = Serving | Processing(job: Job, draining: bool) | Draining | Exited

  datatype State = State(
    capacity: nat, buffer: seq<Job>, done: bool, worker: WorkerPc, observers: seq<ObserverPc>,
    dropped: nat, enqueued: nat, failed: nat,
    accepted: seq<Job>,   // jobs sent on the channel, in order
    processed: seq<Job>,  // jobs the worker finished, in order
    completed: nat)       // ObserveDLP calls that have returned

  function Init(bufferSize: int): State {
    State(if bufferSize <= 0 then DEFAULT_BUFFER else bufferSize, [], false, Serving, [], 0, 0, 0, [], [], 0)
  }

  datatype Step =
    | Call(job: Job)            // ObserveDLP entered
    | Look(o: nat)              // first select: drop if stopping
    | Send(o: nat)              // second select: buffer has room
    | DropDone(o: nat)          // second select: stopping
    | DropFull(o: nat)          // second select: neither case ready
    | Close                     // Stop closes `done`, once
    | Take                      // worker receives
    | SeeDone                   // worker notices `done`
    | DrainTake | DrainEnd      // the drain loop
    | Processed(ok: bool)       // Enqueue returned

  predicate Pending(s: State, o: nat) { o < |s.observers| && s.observers[o].Checked? }

  predicate Enabled(s: State, step: Step) {
    match step
    case Call(_) => true
    case Look(o) => o < |s.observers| && s.observers[o].Entered?
    case Send(o) => Pending(s, o) && |s.buffer| < s.capacity
    case DropDone(o) => Pending(s, o) && s.done
    case DropFull(o) => Pending(s, o) && !s.done && |s.buffer| >= s.capacity
    case Close => true
    case Take => s.worker.Serving? && |s.buffer| > 0
    case SeeDone => s.worker.Serving? && s.done
    case DrainTake => s.worker.Draining? && |s.buffer| > 0
    case DrainEnd => s.worker.Draining? && |s.buffer| == 0
    case Processed(_) => s.worker.Processing?
  }

  function Leave(s: State, o: nat): State
    requires o < |s.observers|
  {
    s.(observers := s.observers[o := Left], completed := s.completed + 1)
  }

  function Apply(s: State, step: Step): State
    requires Enabled(s, step)
  {
    match step
    case Call(job) => s.(observers := s.observers + [Entered(job)])
    case Look(o) =>
      if s.done then Leave(s, o).(dropped := s.dropped + 1)
      else s.(observers := s.observers[o := Checked(s.observers[o].job)])
    case Send(o) =>
      var job := s.observers[o].job;
      Leave(s, o).(buffer := s.buffer + [job], accepted := s.accepted + [job])
    case DropDone(o) => Leave(s, o).(dropped := s.dropped + 1)
    case DropFull(o) => Leave(s, o).(dropped := s.dropped + 1)
    case Close => s.(done := true)
    case Take => s.(worker := Processing(s.buffer[0], false), buffer := s.buffer[1..])
    case SeeDone => s.(worker := Draining)
    case DrainTake => s.(worker := Processing(s.buffer[0], true), buffer := s.buffer[1..])
    case DrainEnd => s.(worker := Exited)
    case Processed(ok) =>
      var s1 := s.(worker := if s.worker.draining then Draining else Serving,
                   processed := s.processed + [s.worker.job]);
      if ok then s1.(enqueued := s.enqueued + 1) else s1.(failed := s.failed + 1)
  }

  predicate Runs(s: State, steps: seq<Step>, s': State)
    decreases |steps|
  {
    if steps == [] then s == s'
    else Enabled(s, steps[0]) && Runs(Apply(s, steps[0]), steps[1..], s')
  }

  ghost predicate Reachable(s: State, bufferSize: int) { exists steps :: Runs(Init(bufferSize), steps, s) }

  function InProcess(s: State): seq<Job> {
    if s.worker.Processing? then [s.worker.job] else []
  }

  predicate Inv(s: State) {
    && 1 <= s.capacity && |s.buffer| <= s.capacity
    && s.accepted == s.processed + InProcess(s) + s.buffer
    && |s.processed| == s.enqueued + s.failed
    && s.completed == s.dropped + |s.accepted|
    && (s.worker.Exited? || s.worker.Draining? || (s.worker.Processing? && s.worker.draining) ==> s.done)
  }

  lemma SendKeepsInv(s: State, o: nat)
    requires Inv(s) && Enabled(s, Send(o))
    ensures Inv(Apply(s, Send(o)))
  {
    var job := s.observers[o].job;
    assert s.processed + InProcess(s) + (s.buffer + [job]) == (s.processed + InProcess(s) + s.buffer) + [job];
  }

  lemma TakeKeepsInv(s: State, step: Step)
    requires Inv(s) && Enabled(s, step) && (step.Take? || step.DrainTake?)
    ensures Inv(Apply(s, step))
  {
    assert s.buffer == [s.buffer[0]] + s.buffer[1..];
    assert s.processed + [] + s.buffer == s.processed + [s.buffer[0]] + s.buffer[1..];
  }

  lemma ProcessedKeepsInv(s: State, ok: bool)
    requires Inv(s) && Enabled(s, Processed(ok))
    ensures Inv(Apply(s, Processed(ok)))
  {
    assert s.processed + [s.worker.job] + s.buffer == (s.processed + [s.worker.job]) + [] + s.buffer;
  }

  lemma StepKeepsInv(s: State, step: Step)
    requires Inv(s) && Enabled(s, step)
    ensures Inv(Apply(s, step))
  {
    match step
    case Send(o) => SendKeepsInv(s, o);
    case Take => TakeKeepsInv(s, step);
    case DrainTake => TakeKeepsInv(s, step);
    case Processed(ok) => ProcessedKeepsInv(s, ok);
    case _ => QuietKeepsInv(s, step);
  }

  // Steps that move no job between buffer, worker and log.
  lemma QuietKeepsInv(s: State, step: Step)
    requires Inv(s) && Enabled(s, step)
    requires !step.Send? && !step.Take? && !step.DrainTake? && !step.Processed?
    ensures Inv(Apply(s, step))
  {
    var s' := Apply(s, step);
    assert s'.accepted == s.accepted && s'.processed == s.processed && s'.buffer == s.buffer;
    assert InProcess(s') == InProcess(s);
  }

  lemma {:induction false} RunKeepsInv(s: State, steps: seq<Step>, s': State)
    requires Inv(s) && Runs(s, steps, s')
    ensures Inv(s')
    decreases |steps|
  {
    hide Inv, Apply, Enabled;
    if steps == [] {
    } else {
      StepKeepsInv(s, steps[0]);
      RunKeepsInv(Apply(s, steps[0]), steps[1..], s');
    }
  }

  /** Conservation over every interleaving: each completed observation is
      dropped, enqueued, failed, in process or buffered, exactly once; the
      buffer never exceeds its capacity; and jobs are processed in the order
      they were accepted. */
  lemma Conservation(s: State, bufferSize: int)
    requires Reachable(s, bufferSize)
    ensures s.completed == s.dropped + s.enqueued + s.failed + |InProcess(s)| + |s.buffer|
    ensures |s.buffer| <= s.capacity
    ensures s.processed <= s.accepted
    ensures s.accepted == s.processed + InProcess(s) + s.buffer
  {
    var steps :| Runs(Init(bufferSize), steps, s);
    RunKeepsInv(Init(bufferSize), steps, s);
  }

  /** The configured size is the capacity, over every interleaving: the buffer
      never holds more than n jobs, and a call past its first select while the
      queue is open and holds fewer can send and cannot be dropped; one that
      finds it full can only be dropped. */
  lemma CapacityIsConfigured(s: State, bufferSize: int, o: nat)
    requires Reachable(s, bufferSize) && Pending(s, o) && !s.done
    ensures var n := if bufferSize > 0 then bufferSize else 1024;
            && |s.buffer| <= n
            && (|s.buffer| < n <==> Enabled(s, Send(o)))
            && (|s.buffer| == n <==> Enabled(s, DropFull(o)))
            && !Enabled(s, DropDone(o))
  {
    var steps :| Runs(Init(bufferSize), steps, s);
    RunKeepsInv(Init(bufferSize), steps, s);
    CapacityFixed(Init(bufferSize), steps, s);
  }

  lemma {:induction false} CapacityFixed(s: State, steps: seq<Step>, s': State)
    requires Runs(s, steps, s')
    ensures s'.capacity == s.capacity
    decreases |steps|
  {
    if steps == [] {
    } else {
      CapacityFixed(Apply(s, steps[0]), steps[1..], s');
    }
  }

  // --------------------------------------------------------------- drain on stop

  // No ObserveDLP call is between its two selects.
  ghost predicate NoneBetween(s: State) {
    forall o :: 0 <= o < |s.observers| ==> !s.observers[o].Checked?
  }

  ghost predicate Sealed(s: State) {
    s.done && NoneBetween(s) && (s.worker.Exited? ==> s.buffer == [])
  }

  lemma {:induction false} SealedRun(s: State, steps: seq<Step>, s': State)
    requires Sealed(s) && Runs(s, steps, s')
    ensures Sealed(s')
    decreases |steps|
  {
    if steps == [] {
    } else {
      SealedRun(Apply(s, steps[0]), steps[1..], s');
    }
  }

  // From any stopped state the worker can run to its exit with an empty buffer,
  // while the observers stay where they are.
  lemma DrainRun(s: State) returns (steps: seq<Step>, s': State)
    requires s.done && (s.worker.Exited? ==> s.buffer == [])
    ensures Runs(s, steps, s')
    ensures s'.worker.Exited? && s'.buffer == [] && s'.observers == s.observers && s'.capacity == s.capacity
    decreases 4 * |s.buffer| + (match s.worker case Processing(_, _) => 3 case Serving => 2 case Draining => 1 case Exited => 0)
  {
    if s.worker.Exited? {
      steps, s' := [], s;
    } else {
      var step := match s.worker
        case Processing(_, _) => Processed(true)
        case Serving => SeeDone
        case Draining => if |s.buffer| > 0 then DrainTake else DrainEnd;
      var rest;
      rest, s' := DrainRun(Apply(s, step));
      steps := [step] + rest;
      assert steps[1..] == rest;
    }
  }

  // A straggler between its selects can still send after the worker has gone.
  lemma StragglerRun(s: State, o: nat) returns (steps: seq<Step>, s': State)
    requires s.done && !s.worker.Exited? && s.capacity >= 1 && Pending(s, o)
    ensures Runs(s, steps, s') && s'.worker.Exited? && s'.buffer != []
  {
    var drain, s1 := DrainRun(s);
    RunsSnoc(s, drain, s1, Send(o));
    steps, s' := drain + [Send(o)], Apply(s1, Send(o));
  }

  lemma {:induction false} RunsSnoc(s: State, steps: seq<Step>, s1: State, step: Step)
    requires Runs(s, steps, s1) && Enabled(s1, step)
    ensures Runs(s, steps + [step], Apply(s1, step))
    decreases |steps|
  {
    hide Apply, Enabled;
    if steps == [] {
      assert steps + [step] == [step];
      assert Runs(Apply(s1, step), [step][1..], Apply(s1, step));
    } else {
      RunsSnoc(Apply(s, steps[0]), steps[1..], s1, step);
      assert (steps + [step])[1..] == steps[1..] + [step];
    }
  }

  // However the run continues after `done` is closed, once the worker has
  // exited (and `Stop` may return) the buffer is empty.
  ghost predicate StopAlwaysDrains(s: State) {
    forall steps, s' :: Runs(Apply(s, Close), steps, s') && s'.worker.Exited? ==> s'.buffer == []
  }

  /** `Stop` loses nothing exactly when no ObserveDLP call is between its two
      selects as `done` is closed. */
  lemma DrainedIff(s: State, bufferSize: int)
    requires Reachable(s, bufferSize) && !s.done
    ensures NoneBetween(s) <==> StopAlwaysDrains(s)
  {
    var history :| Runs(Init(bufferSize), history, s);
    RunKeepsInv(Init(bufferSize), history, s);
    var closed := Apply(s, Close);
    if NoneBetween(s) {
      forall steps, s' | Runs(closed, steps, s') && s'.worker.Exited? ensures s'.buffer == [] {
        SealedRun(closed, steps, s');
      }
    } else {
      var o :| 0 <= o < |s.observers| && s.observers[o].Checked?;
      var steps, s' := StragglerRun(closed, o);
      assert Runs(Apply(s, Close), steps, s') && s'.buffer != [];
    }
  }

  /** And a drained stop has processed every accepted job. */
  lemma DrainedMeansProcessed(s: State, bufferSize: int)
    requires Reachable(s, bufferSize) && s.worker.Exited? && s.buffer == []
    ensures s.processed == s.accepted
    ensures s.completed == s.dropped + s.enqueued + s.failed
  {
    Conservation(s, bufferSize);
  }

  // --------------------------------------------------------- the adapter object

  // How many of the first n Enqueue calls fail.
  function Failures(outcomes: nat -> bool, n: nat): nat {
    if n == 0 then 0 else Failures(outcomes, n - 1) + (if outcomes(n - 1) then 0 else 1)
  }

  /** Each method is one step of the transition system, taken on the real fields;
      `view` is the state of the whole system around them, including the pending
      ObserveDLP calls and the worker's position. */
  class Ingest {
    const capacity: nat
    var buffer: seq<Job>
    var done: bool
    var dropped: nat
    var enqueued: nat
    var failed: nat
    ghost var view: State

    ghost predicate Valid()
      reads this
    {
      && Inv(view) && view.capacity == capacity && view.buffer == buffer && view.done == done
      && view.dropped == dropped && view.enqueued == enqueued && view.failed == failed
    }

    constructor (bufferSize: int)
      ensures Valid() && view == Init(bufferSize)
      ensures capacity == if bufferSize > 0 then bufferSize else 1024
      ensures buffer == [] && !done && dropped == 0 && enqueued == 0 && failed == 0
    {
      capacity := if bufferSize <= 0 then DEFAULT_BUFFER else bufferSize;
      buffer, done, dropped, enqueued, failed := [], false, 0, 0, 0;
      view := Init(bufferSize);
    }

    // First select of ObserveDLP call o: true to carry on to the second.
    method Look(ghost o: nat) returns (proceed: bool)
      requires Valid() && Enabled(view, Step.Look(o))
      modifies this`dropped, this`view
      ensures Valid() && view == Apply(old(view), Step.Look(o))
      ensures proceed <==> Pending(view, o)
      ensures proceed <==> !done
      ensures dropped == old(dropped) + (if done then 1 else 0)
    {
      StepKeepsInv(view, Step.Look(o));
      view := Apply(view, Step.Look(o));
      if done {
        dropped := dropped + 1;
        return false;
      }
      return true;
    }

    // Second select; `preferDone` resolves the choice when both cases are ready.
    method Offer(job: Job, preferDone: bool, ghost o: nat) returns (sent: bool, ghost step: Step)
      requires Valid() && Pending(view, o) && view.observers[o].job == job
      modifies this`buffer, this`dropped, this`view
      ensures step == Send(o) || step == DropDone(o) || step == DropFull(o)
      ensures Enabled(old(view), step) && Valid() && view == Apply(old(view), step)
      ensures sent <==> step == Send(o)
      ensures sent <==> |old(buffer)| < capacity && !(done && preferDone)
      ensures buffer == if sent then old(buffer) + [job] else old(buffer)
      ensures dropped == old(dropped) + (if sent then 0 else 1)
    {
      if |buffer| < capacity && !(done && preferDone) {
        step, sent, buffer := Send(o), true, buffer + [job];
      } else {
        step, sent, dropped := if done then DropDone(o) else DropFull(o), false, dropped + 1;
      }
      StepKeepsInv(view, step);
      view := Apply(view, step);
    }

    // The worker's receive, in its main loop or in the drain.
    method Receive(ghost draining: bool) returns (job: Job)
      requires Valid() && |buffer| > 0 && view.worker == if draining then Draining else Serving
      modifies this`buffer, this`view
      ensures Valid() && view == Apply(old(view), if draining then DrainTake else Take)
      ensures old(buffer) == [job] + buffer
    {
      ghost var step := if draining then DrainTake else Take;
      StepKeepsInv(view, step);
      view := Apply(view, step);
      job := buffer[0];
      buffer := buffer[1..];
    }

    // The enqueue call has returned.
    method Process(ok: bool)
      requires Valid() && view.worker.Processing?
      modifies this`enqueued, this`failed, this`view
      ensures Valid() && view == Apply(old(view), Processed(ok))
      ensures enqueued == old(enqueued) + (if ok then 1 else 0) && failed == old(failed) + (if ok then 0 else 1)
    {
      StepKeepsInv(view, Processed(ok));
      view := Apply(view, Processed(ok));
      if ok { enqueued := enqueued + 1; } else { failed := failed + 1; }
    }

    // One turn of the drain loop, extending the run `steps` from `start`.
    method DrainOne(ok: bool, ghost start: State, ghost steps: seq<Step>)
      returns (job: Job, ghost longer: seq<Step>)
      requires Valid() && view.worker.Draining? && |buffer| > 0 && Runs(start, steps, view)
      modifies this`buffer, this`enqueued, this`failed, this`view
      ensures Valid() && view.worker.Draining? && Runs(start, longer, view)
      ensures old(buffer) == [job] + buffer && view.observers == old(view.observers)
      ensures failed == old(failed) + (if ok then 0 else 1) && enqueued == old(enqueued) + (if ok then 1 else 0)
    {
      hide Runs, Inv;
      RunsSnoc(start, steps, view, DrainTake);
      job := Receive(true);
      RunsSnoc(start, steps + [DrainTake], view, Processed(ok));
      Process(ok);
      longer := steps + [DrainTake] + [Processed(ok)];
    }

    /** The drain loop of `run`: receives until the buffer is empty; `outcomes`
        says how each enqueue call went. It is a run of the transition system
        that ends with the worker gone. */
    method Drain(outcomes: nat -> bool) returns (jobs: seq<Job>, ghost steps: seq<Step>)
      requires Valid() && view.worker.Draining?
      modifies this`buffer, this`enqueued, this`failed, this`view
      ensures Valid() && Runs(old(view), steps, view) && view.worker.Exited?
      ensures buffer == [] && jobs == old(buffer) && view.observers == old(view.observers)
      ensures failed == old(failed) + Failures(outcomes, |jobs|)
      ensures enqueued == old(enqueued) + |jobs| - Failures(outcomes, |jobs|)
    {
      hide Runs, Inv;
      jobs, steps := [], [];
      RunsNone(view);
      while buffer != []
        invariant Valid() && view.worker.Draining? && Runs(old(view), steps, view)
        invariant jobs + buffer == old(buffer) && view.observers == old(view.observers)
        invariant failed == old(failed) + Failures(outcomes, |jobs|)
        invariant enqueued == old(enqueued) + |jobs| - Failures(outcomes, |jobs|)
        decreases |buffer|
      {
        var job;
        job, steps := DrainOne(outcomes(|jobs|), old(view), steps);
        jobs := jobs + [job];
      }
      steps := LeaveDrain(old(view), steps);
    }

    // The worker returns.
    ghost method LeaveDrain(start: State, steps: seq<Step>) returns (longer: seq<Step>)
      requires Valid() && view.worker.Draining? && buffer == [] && Runs(start, steps, view)
      modifies this`view
      ensures Valid() && view == Apply(old(view), DrainEnd) && Runs(start, longer, view)
    {
      hide Runs, Inv;
      RunsSnoc(start, steps, view, DrainEnd);
      StepKeepsInv(view, DrainEnd);
      view := Apply(view, DrainEnd);
      longer := steps + [DrainEnd];
    }

    // Stop's close, however often it is called.
    method Close()
      requires Valid()
      modifies this`done, this`view
      ensures Valid() && view == Apply(old(view), Step.Close) && done
    {
      StepKeepsInv(view, Step.Close);
      view := Apply(view, Step.Close);
      done := true;
    }
  }

  lemma {:induction false} RunsNone(s: State)
    ensures Runs(s, [], s)
  {}
}
