/** The DLP enforcement recompiler (cmd/sng-control/dlp_review_recompile.go):
    per-tenant serialised recompiles with trailing coalescing.

    A block is committed, then its hook runs `OnBlock`. The mutex-protected
    sections are atomic steps; a compile is a start step and an end step, and
    may read the committed blocks at any moment in between. The state keeps,
    beside the program's own variables, a log of committed blocks, the finished
    passes and what each tenant's stored bundle reflects. */
module Recompiler {

  type Tenant = nat
  const NIL: Tenant := 0

  // ---------------------------------------------------- the critical sections

  /** Result of the locked part of `OnBlock`: the new entries and counter, and
      whether a worker is spawned. */
  function OnBlockSection(states: map<Tenant, bool>, wg: nat, t: Tenant): (map<Tenant, bool>, nat, bool) {
    if t == NIL then (states, wg, false)
    else if t in states then (states[t := true], wg, false)
    else (states[t := false], wg + 1, true)
  }

  /** Result of the locked part of `run` after a compile: the new entries, and
      whether the worker compiles again. */
  function SettleSection(states: map<Tenant, bool>, t: Tenant): (map<Tenant, bool>, bool) {
    if t in states && states[t] then (states[t := false], true)
    else (states - {t}, false)
  }

  class EnforcementRecompiler {
    var states: map<Tenant, bool>  // tenant to dirty flag
    var wg: nat

    constructor ()
      ensures states == map[] && wg == 0
    {
      states, wg := map[], 0;
    }

    method OnBlock(t: Tenant) returns (spawn: bool)
      modifies this
      ensures (states, wg, spawn) == OnBlockSection(old(states), old(wg), t)
    {
      if t == NIL { return false; }
      if t in states {
        states := states[t := true];
        return false;
      }
      states := states[t := false];
      wg := wg + 1;
      return true;
    }

    method Settle(t: Tenant) returns (again: bool)
      modifies this`states
      ensures (states, again) == SettleSection(old(states), t)
    {
      if t in states && states[t] {
        states := states[t := false];
        return true;
      }
      states := states - {t};
      return false;
    }
  }

  // -------------------------------------------------------- transition system

  datatype Phase = Ready | Compiling(seen: nat) | Compiled | Exited | Done

  datatype Worker = Worker(tenant: Tenant, phase: Phase) {
    // Before the worker has removed its tenant's entry.
    predicate Active() { phase.Ready? || phase.Compiling? || phase.Compiled? }
    predicate Live() { !phase.Done? }
  }

  /** A finished compile. It started when the first `start` blocks had been
      committed, and read the first `snap` of them at some later moment. */
  datatype Pass = Pass(tenant: Tenant, start: nat, snap: nat, ok: bool)

  datatype State = State(
    states: map<Tenant, bool>,
    wg: nat,
    workers: seq<Worker>,
    committed: seq<Tenant>,        // block i was recorded for tenant committed[i]
    hooked: set<nat>,              // blocks whose hook has run
    passes: seq<Pass>,             // in finishing order
    bundle: map<Tenant, nat>,      // stored bundle: how many blocks it reflects
    owner: map<Tenant, nat>,       // the worker each entry was created for
    calls: map<Tenant, nat>,
    started: map<Tenant, nat>)

  const INIT := State(map[], 0, [], [], {}, [], map[], map[], map[], map[])

  datatype Step =
    | Commit(t: Tenant)
    | Hook(block: nat)
    | Start(w: nat)
    | End(w: nat, snap: nat, ok: bool)
    | Settle(w: nat)
    | Finish(w: nat)

  function Get(m: map<Tenant, nat>, t: Tenant): nat { if t in m then m[t] else 0 }

  predicate Enabled(s: State, step: Step) {
    match step
    case Commit(t) => true
    case Hook(i) => i < |s.committed| && i !in s.hooked
    case Start(w) => w < |s.workers| && s.workers[w].phase.Ready?
    case End(w, snap, ok) =>
      && w < |s.workers| && s.workers[w].phase.Compiling?
      && s.workers[w].phase.seen <= snap <= |s.committed|
    case Settle(w) => w < |s.workers| && s.workers[w].phase.Compiled?
    case Finish(w) => w < |s.workers| && s.workers[w].phase.Exited? && s.wg > 0
  }

  function SetPhase(s: State, w: nat, p: Phase): State
    requires w < |s.workers|
  {
    s.(workers := s.workers[w := s.workers[w].(phase := p)])
  }

  function DoHook(s: State, i: nat): State
    requires i < |s.committed|
  {
    var t := s.committed[i];
    var (states, wg, spawn) := OnBlockSection(s.states, s.wg, t);
    var s1 := s.(hooked := s.hooked + {i}, states := states, wg := wg,
                 calls := s.calls[t := Get(s.calls, t) + 1]);
    if spawn then s1.(workers := s.workers + [Worker(t, Ready)], owner := s.owner[t := |s.workers|])
    else s1
  }

  function DoEnd(s: State, w: nat, snap: nat, ok: bool): State
    requires w < |s.workers| && s.workers[w].phase.Compiling?
  {
    var t := s.workers[w].tenant;
    SetPhase(s, w, Compiled).(
      passes := s.passes + [Pass(t, s.workers[w].phase.seen, snap, ok)],
      bundle := if ok then s.bundle[t := snap] else s.bundle)
  }

  function DoSettle(s: State, w: nat): State
    requires w < |s.workers|
  {
    var t := s.workers[w].tenant;
    var (states, again) := SettleSection(s.states, t);
    if again then SetPhase(s, w, Ready).(states := states)
    else SetPhase(s, w, Exited).(states := states, owner := s.owner - {t})
  }

  function Apply(s: State, step: Step): State
    requires Enabled(s, step)
  {
    match step
    case Commit(t) => s.(committed := s.committed + [t])
    case Hook(i) => DoHook(s, i)
    case Start(w) =>
      var t := s.workers[w].tenant;
      SetPhase(s, w, Compiling(|s.committed|)).(started := s.started[t := Get(s.started, t) + 1])
    case End(w, snap, ok) => DoEnd(s, w, snap, ok)
    case Settle(w) => DoSettle(s, w)
    case Finish(w) => SetPhase(s, w, Done).(wg := s.wg - 1)
  }

  predicate Runs(s: State, steps: seq<Step>, s': State)
    decreases |steps|
  {
    if steps == [] then s == s'
    else Enabled(s, steps[0]) && Runs(Apply(s, steps[0]), steps[1..], s')
  }

  ghost predicate Reachable(s: State) { exists steps :: Runs(INIT, steps, s) }

  // ------------------------------------------------------------- the invariant

  // Entries and active workers are in one-to-one correspondence.
  ghost predicate Owned(s: State) {
    && s.owner.Keys == s.states.Keys
    && (forall t :: t in s.owner ==>
          && s.owner[t] < |s.workers|
          && s.workers[s.owner[t]].Active() && s.workers[s.owner[t]].tenant == t)
    && (forall w :: 0 <= w < |s.workers| && s.workers[w].Active() ==>
          s.workers[w].tenant in s.owner && s.owner[s.workers[w].tenant] == w)
    && NIL !in s.states
  }

  // A pass that started after block i was committed has finished.
  ghost predicate Seen(s: State, t: Tenant, i: nat) {
    exists k :: 0 <= k < |s.passes| && s.passes[k].tenant == t && s.passes[k].start > i
  }

  // A pass that will observe block i is still owed or under way.
  predicate Promised(s: State, t: Tenant, i: nat) {
    && t in s.states && t in s.owner && s.owner[t] < |s.workers|
    && var p := s.workers[s.owner[t]].phase;
       s.states[t] || p.Ready? || (p.Compiling? && p.seen > i)
  }

  ghost predicate Covered(s: State) {
    && (forall i :: i in s.hooked ==> i < |s.committed|)
    && (forall i :: i in s.hooked && s.committed[i] != NIL ==>
          Seen(s, s.committed[i], i) || Promised(s, s.committed[i], i))
  }

  // Passes of one tenant observe ever more, and the bundle is their latest.
  ghost predicate PassesOrdered(s: State) {
    && (forall k :: 0 <= k < |s.passes| ==> s.passes[k].start <= s.passes[k].snap <= |s.committed|)
    && (forall j, k :: 0 <= j < k < |s.passes| && s.passes[j].tenant == s.passes[k].tenant ==>
          s.passes[j].snap <= s.passes[k].snap)
    && (forall w, k :: 0 <= w < |s.workers| && 0 <= k < |s.passes| ==>
          s.workers[w].phase.Compiling? ==> s.passes[k].tenant == s.workers[w].tenant ==>
          s.passes[k].snap <= s.workers[w].phase.seen)
    && (forall w :: 0 <= w < |s.workers| && s.workers[w].phase.Compiling? ==>
          s.workers[w].phase.seen <= |s.committed|)
  }

  predicate IsStore(p: Pass, t: Tenant, snap: nat) { p.ok && p.tenant == t && p.snap == snap }

  ghost predicate Stored(s: State, t: Tenant, snap: nat) {
    exists k :: 0 <= k < |s.passes| && IsStore(s.passes[k], t, snap)
  }

  ghost predicate BundleLatest(s: State) {
    && (forall k :: 0 <= k < |s.passes| && s.passes[k].ok ==>
          s.passes[k].tenant in s.bundle && s.passes[k].snap <= s.bundle[s.passes[k].tenant])
    && (forall t :: t in s.bundle ==> Stored(s, t, s.bundle[t]))
  }

  // Passes still owed to a tenant: a worker about to start, and a dirty flag.
  function Owed(s: State, t: Tenant): nat {
    if t in s.states && t in s.owner && s.owner[t] < |s.workers| then
      (if s.states[t] then 1 else 0) + (if s.workers[s.owner[t]].phase.Ready? then 1 else 0)
    else 0
  }

  ghost predicate Coalesced(s: State) {
    forall t :: Get(s.started, t) + Owed(s, t) <= Get(s.calls, t)
  }

  function Total(ws: seq<Worker>, f: Worker -> nat): nat {
    if ws == [] then 0 else Total(ws[..|ws| - 1], f) + f(ws[|ws| - 1])
  }

  function IsLive(w: Worker): nat { if w.Live() then 1 else 0 }
  function IsActive(w: Worker): nat { if w.Active() then 1 else 0 }
  function IsExited(w: Worker): nat { if w.phase.Exited? then 1 else 0 }

  ghost predicate Counted(s: State) {
    && s.wg == Total(s.workers, IsLive)
    && |s.states| == Total(s.workers, IsActive)
  }

  ghost predicate Inv(s: State) {
    Owned(s) && Covered(s) && PassesOrdered(s) && BundleLatest(s) && Coalesced(s) && Counted(s)
  }

  // -------------------------------------------------------------- preservation

  lemma {:induction false} TotalUpdate(ws: seq<Worker>, w: nat, x: Worker, f: Worker -> nat)
    requires w < |ws|
    ensures Total(ws[w := x], f) + f(ws[w]) == Total(ws, f) + f(x)
  {
    var n := |ws| - 1;
    if w == n {
      assert ws[w := x][..n] == ws[..n];
    } else {
      TotalUpdate(ws[..n], w, x, f);
      assert ws[w := x][..n] == ws[..n][w := x];
    }
  }

  lemma {:induction false} TotalAppend(ws: seq<Worker>, x: Worker, f: Worker -> nat)
    ensures Total(ws + [x], f) == Total(ws, f) + f(x)
  {
    assert (ws + [x])[..|ws|] == ws;
  }

  lemma PhaseTotals(s: State, w: nat, p: Phase)
    requires w < |s.workers|
    ensures var s' := SetPhase(s, w, p); var x := s'.workers[w];
            && Total(s'.workers, IsLive) + IsLive(s.workers[w]) == Total(s.workers, IsLive) + IsLive(x)
            && Total(s'.workers, IsActive) + IsActive(s.workers[w]) == Total(s.workers, IsActive) + IsActive(x)
  {
    var x := s.workers[w].(phase := p);
    TotalUpdate(s.workers, w, x, IsLive);
    TotalUpdate(s.workers, w, x, IsActive);
  }

  lemma SeenGrows(s: State, s': State, t: Tenant, i: nat)
    requires Seen(s, t, i) && s.passes <= s'.passes
    ensures Seen(s', t, i)
  {
    var k :| 0 <= k < |s.passes| && s.passes[k].tenant == t && s.passes[k].start > i;
    assert s'.passes[k] == s.passes[k];
  }

  lemma OwnedKept(s: State, step: Step)
    requires Owned(s) && Enabled(s, step)
    ensures Owned(Apply(s, step))
  {
    match step
    case Commit(t) =>
    case Hook(i) => OwnedHook(s, i);
    case Start(w) => OwnedPhase(s, Apply(s, step), w);
    case End(w, snap, ok) => OwnedPhase(s, Apply(s, step), w);
    case Settle(w) => OwnedSettle(s, w);
    case Finish(w) => OwnedPhase(s, Apply(s, step), w);
  }

  // A phase change that keeps a worker active, or inactive, moves no ownership.
  lemma OwnedPhase(s: State, s': State, w: nat)
    requires Owned(s) && w < |s.workers| == |s'.workers|
    requires s'.owner == s.owner && s'.states.Keys == s.states.Keys
    requires s'.workers == s.workers[w := Worker(s.workers[w].tenant, s'.workers[w].phase)]
    requires s'.workers[w].Active() == s.workers[w].Active()
    ensures Owned(s')
  {
    assert forall v :: 0 <= v < |s.workers| ==>
      s'.workers[v].tenant == s.workers[v].tenant && s'.workers[v].Active() == s.workers[v].Active();
  }

  lemma OwnedHook(s: State, i: nat)
    requires Owned(s) && i < |s.committed|
    ensures Owned(DoHook(s, i))
  {
    var s', t := DoHook(s, i), s.committed[i];
    if t != NIL && t !in s.states {
      OwnedSpawn(s, s', t);
    } else {
      assert s'.states.Keys == s.states.Keys;
    }
  }

  lemma OwnedSpawn(s: State, s': State, t: Tenant)
    requires Owned(s) && t != NIL && t !in s.states && s'.states == s.states[t := false]
    requires s'.workers == s.workers + [Worker(t, Ready)] && s'.owner == s.owner[t := |s.workers|]
    ensures Owned(s')
  {
    assert s'.owner.Keys == s'.states.Keys;
    forall v | 0 <= v < |s'.workers| && s'.workers[v].Active()
      ensures s'.workers[v].tenant in s'.owner && s'.owner[s'.workers[v].tenant] == v
    {
      if v < |s.workers| { assert s'.workers[v] == s.workers[v]; }
    }
  }

  lemma OwnedSettle(s: State, w: nat)
    requires Owned(s) && Enabled(s, Settle(w))
    ensures Owned(DoSettle(s, w))
  {
    var s', t := DoSettle(s, w), s.workers[w].tenant;
    if s.states[t] {
      assert s'.states.Keys == s.states.Keys;
      OwnedPhase(s, s', w);
    } else {
      assert s'.owner.Keys == s'.states.Keys;
      assert forall v :: 0 <= v < |s.workers| && v != w ==> s'.workers[v] == s.workers[v];
    }
  }

  lemma CountedKept(s: State, step: Step)
    requires Owned(s) && Counted(s) && Enabled(s, step)
    ensures Counted(Apply(s, step))
  {
    hide Total;
    match step
    case Commit(t) =>
    case Hook(i) => HookCounted(s, i);
    case Start(w) => PhaseTotals(s, w, Compiling(|s.committed|));
    case End(w, snap, ok) => PhaseTotals(s, w, Compiled);
    case Settle(w) => SettleCounted(s, w);
    case Finish(w) => PhaseTotals(s, w, Done);
  }

  lemma HookCounted(s: State, i: nat)
    requires Counted(s) && i < |s.committed|
    ensures Counted(DoHook(s, i))
  {
    hide Total;
    TotalAppend(s.workers, Worker(s.committed[i], Ready), IsLive);
    TotalAppend(s.workers, Worker(s.committed[i], Ready), IsActive);
  }

  lemma SettleCounted(s: State, w: nat)
    requires Owned(s) && Counted(s) && Enabled(s, Settle(w))
    ensures Counted(DoSettle(s, w))
  {
    hide Total;
    var t := s.workers[w].tenant;
    var s' := DoSettle(s, w);
    if s.states[t] {
      PhaseTotals(s, w, Ready);
      assert s'.states.Keys == s.states.Keys;
    } else {
      PhaseTotals(s, w, Exited);
      assert s'.states.Keys == s.states.Keys - {t};
    }
    assert |s'.states| == |s'.states.Keys| && |s.states| == |s.states.Keys|;
  }

  lemma OrderKept(s: State, step: Step)
    requires Owned(s) && PassesOrdered(s) && Enabled(s, step)
    ensures PassesOrdered(Apply(s, step))
  {
    if step.End? {
      EndOrdered(s, step.w, step.snap, step.ok);
    } else if step.Start? {
      StartOrdered(s, step.w);
    } else {
      hide Owned, PassesOrdered;
      OrderFrame(s, Apply(s, step));
    }
  }

  lemma OrderFrame(s: State, s': State)
    requires PassesOrdered(s) && s'.passes == s.passes && s.committed <= s'.committed
    requires forall w :: 0 <= w < |s'.workers| && s'.workers[w].phase.Compiling? ==>
      w < |s.workers| && s'.workers[w] == s.workers[w]
    ensures PassesOrdered(s')
  {}

  lemma StartOrdered(s: State, w: nat)
    requires PassesOrdered(s) && Enabled(s, Start(w))
    ensures PassesOrdered(Apply(s, Start(w)))
  {
    var s' := Apply(s, Start(w));
    assert forall v :: 0 <= v < |s.workers| && v != w ==> s'.workers[v] == s.workers[v];
  }

  lemma EndOrdered(s: State, w: nat, snap: nat, ok: bool)
    requires Owned(s) && PassesOrdered(s) && Enabled(s, End(w, snap, ok))
    ensures PassesOrdered(DoEnd(s, w, snap, ok))
  {
    var s' := DoEnd(s, w, snap, ok);
    var n := |s.passes|;
    assert forall k :: 0 <= k < n ==> s'.passes[k] == s.passes[k];
    assert s'.passes[n] == Pass(s.workers[w].tenant, s.workers[w].phase.seen, snap, ok);
    assert forall v :: 0 <= v < |s.workers| && v != w ==> s'.workers[v] == s.workers[v];
  }

  lemma BundleKept(s: State, step: Step)
    requires PassesOrdered(s) && BundleLatest(s) && Enabled(s, step)
    ensures BundleLatest(Apply(s, step))
    ensures forall t :: t in s.bundle ==> t in Apply(s, step).bundle && s.bundle[t] <= Apply(s, step).bundle[t]
  {
    if step.End? {
      EndBundle(s, step.w, step.snap, step.ok);
    } else {
      hide PassesOrdered, BundleLatest, Enabled;
      BundleFrame(s, Apply(s, step));
    }
  }

  lemma BundleFrame(s: State, s': State)
    requires BundleLatest(s) && s'.bundle == s.bundle && s'.passes == s.passes
    ensures BundleLatest(s')
  {
    forall u | u in s'.bundle ensures Stored(s', u, s'.bundle[u]) { StoredGrows(s, s', u, s.bundle[u]); }
  }

  // A finishing pass saw at least what the stored bundle reflects.
  lemma EndSawMore(s: State, w: nat, snap: nat, ok: bool)
    requires PassesOrdered(s) && BundleLatest(s) && Enabled(s, End(w, snap, ok))
    ensures s.workers[w].tenant in s.bundle ==> s.bundle[s.workers[w].tenant] <= snap
  {
    var t := s.workers[w].tenant;
    if t in s.bundle {
      assert Stored(s, t, s.bundle[t]);
      var k :| 0 <= k < |s.passes| && IsStore(s.passes[k], t, s.bundle[t]);
    }
  }

  lemma EndBundle(s: State, w: nat, snap: nat, ok: bool)
    requires PassesOrdered(s) && BundleLatest(s) && Enabled(s, End(w, snap, ok))
    ensures BundleLatest(DoEnd(s, w, snap, ok))
    ensures var s' := DoEnd(s, w, snap, ok);
            forall t :: t in s.bundle ==> t in s'.bundle && s.bundle[t] <= s'.bundle[t]
  {
    EndSawMore(s, w, snap, ok);
    hide PassesOrdered;
    var s' := DoEnd(s, w, snap, ok);
    var t, n := s.workers[w].tenant, |s.passes|;
    assert s'.passes[n] == Pass(t, s.workers[w].phase.seen, snap, ok);
    assert forall k :: 0 <= k < n ==> s'.passes[k] == s.passes[k];
    forall u | u in s'.bundle ensures Stored(s', u, s'.bundle[u]) {
      if !(ok && u == t) { StoredGrows(s, s', u, s.bundle[u]); }
    }
  }

  lemma StoredGrows(s: State, s': State, t: Tenant, snap: nat)
    requires Stored(s, t, snap) && s.passes <= s'.passes
    ensures Stored(s', t, snap)
  {
    var k :| 0 <= k < |s.passes| && IsStore(s.passes[k], t, snap);
    assert s'.passes[k] == s.passes[k];
  }

  // Blocks, hooks and passes are only ever added to.
  lemma StepFrame(s: State, step: Step)
    requires Enabled(s, step)
    ensures var s' := Apply(s, step);
            && s.committed <= s'.committed && s.passes <= s'.passes
            && s'.hooked == (if step.Hook? then s.hooked + {step.block} else s.hooked)
  {
    hide DoHook, DoSettle;
    match step
    case Hook(i) => HookFrame(s, i);
    case Settle(w) => SettleFrame(s, w);
    case _ =>
  }

  lemma HookFrame(s: State, i: nat)
    requires i < |s.committed|
    ensures var s' := DoHook(s, i);
            s'.committed == s.committed && s'.passes == s.passes && s'.hooked == s.hooked + {i}
  {}

  lemma SettleFrame(s: State, w: nat)
    requires w < |s.workers|
    ensures var s' := DoSettle(s, w);
            s'.committed == s.committed && s'.passes == s.passes && s'.hooked == s.hooked
  {
    var s' := DoSettle(s, w);
    if SettleSection(s.states, s.workers[w].tenant).1 {
      assert s' == SetPhase(s, w, Ready).(states := s'.states);
    } else {
      assert s' == SetPhase(s, w, Exited).(states := s'.states, owner := s'.owner);
    }
  }

  lemma HookPromises(s: State, i: nat)
    requires Owned(s) && i < |s.committed| && s.committed[i] != NIL
    ensures Promised(DoHook(s, i), s.committed[i], i)
  {}

  lemma CoveredKept(s: State, step: Step)
    requires Owned(s) && Covered(s) && Enabled(s, step)
    ensures Covered(Apply(s, step))
  {
    var s' := Apply(s, step);
    StepFrame(s, step);
    if step.Hook? && s.committed[step.block] != NIL { HookPromises(s, step.block); }
    forall i | i in s'.hooked && s'.committed[i] != NIL
      ensures Seen(s', s'.committed[i], i) || Promised(s', s'.committed[i], i)
    {
      if i in s.hooked {
        hide Promised, Owned, Apply;
        if Seen(s, s.committed[i], i) {
          SeenGrows(s, s', s.committed[i], i);
        } else {
          PromiseKept(s, step, s.committed[i], i);
        }
      }
    }
  }

  // A promise to observe block i stands until a pass has observed it.
  lemma PromiseKept(s: State, step: Step, t: Tenant, i: nat)
    requires Owned(s) && Promised(s, t, i) && t != NIL && i < |s.committed| && Enabled(s, step)
    ensures Promised(Apply(s, step), t, i) || Seen(Apply(s, step), t, i)
  {
    match step
    case Commit(_) =>
    case Hook(j) => PromiseHook(s, j, t, i);
    case Start(w) =>
    case End(w, snap, ok) => PromiseEnd(s, w, snap, ok, t, i);
    case Settle(w) => PromiseSettle(s, w, t, i);
    case Finish(w) =>
  }

  lemma PromiseHook(s: State, j: nat, t: Tenant, i: nat)
    requires Owned(s) && Promised(s, t, i) && j < |s.committed|
    ensures Promised(DoHook(s, j), t, i)
  {}

  lemma PromiseEnd(s: State, w: nat, snap: nat, ok: bool, t: Tenant, i: nat)
    requires Owned(s) && Promised(s, t, i) && Enabled(s, End(w, snap, ok))
    ensures Promised(DoEnd(s, w, snap, ok), t, i) || Seen(DoEnd(s, w, snap, ok), t, i)
  {
    if s.workers[w].tenant == t {
      assert DoEnd(s, w, snap, ok).passes[|s.passes|] == Pass(t, s.workers[w].phase.seen, snap, ok);
    }
  }

  lemma PromiseSettle(s: State, w: nat, t: Tenant, i: nat)
    requires Owned(s) && Promised(s, t, i) && Enabled(s, Settle(w))
    ensures Promised(DoSettle(s, w), t, i)
  {}

  lemma CoalescedKept(s: State, step: Step)
    requires Owned(s) && Coalesced(s) && Enabled(s, step)
    ensures Coalesced(Apply(s, step))
  {
    forall t ensures Get(Apply(s, step).started, t) + Owed(Apply(s, step), t) <= Get(Apply(s, step).calls, t) {
      assert Get(s.started, t) + Owed(s, t) <= Get(s.calls, t);
      OwedStep(s, step, t);
      CallsStep(s, step, t);
    }
  }

  // One step's effect on a tenant's account: only its own hook adds to what is
  // owed, by one at most.
  lemma OwedStep(s: State, step: Step, t: Tenant)
    requires Owned(s) && Enabled(s, step)
    ensures var s' := Apply(s, step);
            && (!IsHook(s, step, t) ==> Get(s'.started, t) + Owed(s', t) == Get(s.started, t) + Owed(s, t))
            && (IsHook(s, step, t) ==> s'.started == s.started && Owed(s, t) <= Owed(s', t) <= Owed(s, t) + 1)
  {
    hide Owed, Owned;
    var s' := Apply(s, step);
    match step
    case Commit(_) => OwedFrame(s, s', t);
    case Hook(i) => HookOwed(s, i, t);
    case Start(w) => PhaseOwed(s, s', w, t);
    case End(w, snap, ok) => PhaseOwed(s, s', w, t);
    case Settle(w) => SettleOwed(s, w, t);
    case Finish(w) => PhaseOwed(s, s', w, t);
  }

  lemma OwedFrame(s: State, s': State, t: Tenant)
    requires s'.states == s.states && s'.owner == s.owner && s'.workers == s.workers
    ensures Owed(s', t) == Owed(s, t)
  {}

  lemma HookOwed(s: State, i: nat, t: Tenant)
    requires Owned(s) && i < |s.committed|
    ensures var s' := DoHook(s, i);
            if s.committed[i] == t then Owed(s, t) <= Owed(s', t) <= Owed(s, t) + 1
            else Owed(s', t) == Owed(s, t)
  {}

  lemma SettleOwed(s: State, w: nat, t: Tenant)
    requires Owned(s) && Enabled(s, Settle(w))
    ensures Owed(DoSettle(s, w), t) == Owed(s, t)
  {}

  lemma CallsStep(s: State, step: Step, t: Tenant)
    requires Enabled(s, step)
    ensures Get(Apply(s, step).calls, t) == Get(s.calls, t) + (if IsHook(s, step, t) then 1 else 0)
  {
    if step.Hook? { HookCalls(s, step.block, t); } else { assert Apply(s, step).calls == s.calls; }
  }

  lemma HookCalls(s: State, i: nat, t: Tenant)
    requires i < |s.committed|
    ensures Get(DoHook(s, i).calls, t) == Get(s.calls, t) + (if s.committed[i] == t then 1 else 0)
  {}

  predicate IsHook(s: State, step: Step, t: Tenant)
    requires Enabled(s, step)
  {
    step.Hook? && s.committed[step.block] == t
  }

  // Only leaving Ready changes what is owed.
  lemma PhaseOwed(s: State, s': State, w: nat, t: Tenant)
    requires Owned(s) && w < |s.workers| == |s'.workers|
    requires s'.states == s.states && s'.owner == s.owner
    requires s'.workers == s.workers[w := Worker(s.workers[w].tenant, s'.workers[w].phase)]
    requires s.workers[w].phase.Ready? ==> s.workers[w].Active() && !s'.workers[w].phase.Ready?
    requires !s.workers[w].phase.Ready? ==> !s'.workers[w].phase.Ready?
    ensures Owed(s', t) + (if s.workers[w].phase.Ready? && s.workers[w].tenant == t then 1 else 0) == Owed(s, t)
  {
    assert s.workers[w].phase.Ready? ==> s.owner[s.workers[w].tenant] == w;
  }

  lemma StepKeepsInv(s: State, step: Step)
    requires Inv(s) && Enabled(s, step)
    ensures Inv(Apply(s, step))
  {
    hide Owned, Covered, PassesOrdered, BundleLatest, Coalesced, Counted, Apply, Enabled;
    OwnedKept(s, step);
    CountedKept(s, step);
    OrderKept(s, step);
    BundleKept(s, step);
    CoveredKept(s, step);
    CoalescedKept(s, step);
  }

  lemma {:induction false} RunKeepsInv(s: State, steps: seq<Step>, s': State)
    requires Inv(s) && Runs(s, steps, s')
    ensures Inv(s')
    decreases |steps|
  {
    hide Inv, Apply, Enabled;
    if steps == [] {
    } else {
      StepKeepsInv(s, steps[0]);
      RunKeepsInv(Apply(s, steps[0]), steps[1..], s');
    }
  }

  lemma ReachableInv(s: State)
    requires Reachable(s)
    ensures Inv(s)
  {
    var steps :| Runs(INIT, steps, s);
    RunKeepsInv(INIT, steps, s);
  }

  // ------------------------------------------------------------------ theorems

  /** Passes of one tenant never overlap, over every interleaving. */
  lemma PassesNeverOverlap(s: State, v: nat, w: nat)
    requires Reachable(s) && v < |s.workers| && w < |s.workers| && v != w
    requires s.workers[v].phase.Compiling? && s.workers[w].phase.Compiling?
    ensures s.workers[v].tenant != s.workers[w].tenant
  {
    hide Runs, Covered, PassesOrdered, BundleLatest, Coalesced, Counted;
    ReachableInv(s);
  }

  /** Yet two workers of one tenant can be alive at once: the entry is deleted
      before the first has called Done. */
  lemma TwoWorkersCoexist() returns (s: State)
    ensures Reachable(s)
    ensures exists v, w :: 0 <= v < w < |s.workers| && s.workers[v].tenant == s.workers[w].tenant
                           && s.workers[v].Live() && s.workers[w].phase.Compiling?
  {
    var s1 := RunOnce(true);
    var t: Tenant := 1;
    var s2 := Apply(s1, Commit(t));
    var s3 := Apply(s2, Hook(1));
    assert s3.workers == [Worker(t, Exited), Worker(t, Ready)];
    s := Apply(s3, Start(1));
    StepReachable(s1, Commit(t));
    StepReachable(s2, Hook(1));
    StepReachable(s3, Start(1));
    assert s.workers[0].tenant == s.workers[1].tenant;
  }

  lemma StepReachable(s: State, step: Step)
    requires Reachable(s) && Enabled(s, step)
    ensures Reachable(Apply(s, step))
  {
    var steps :| Runs(INIT, steps, s);
    RunsSnoc(INIT, steps, s, step);
    assert Runs(INIT, steps + [step], Apply(s, step));
  }

  lemma {:induction false} RunsSnoc(s: State, steps: seq<Step>, s1: State, step: Step)
    requires Runs(s, steps, s1) && Enabled(s1, step)
    ensures Runs(s, steps + [step], Apply(s1, step))
    decreases |steps|
  {
    hide Apply, Enabled;
    if steps == [] {
      assert ([step] + [])[1..] == [];
      assert Runs(Apply(s1, step), [], Apply(s1, step));
      assert steps + [step] == [step];
    } else {
      RunsSnoc(Apply(s, steps[0]), steps[1..], s1, step);
      assert (steps + [step])[1..] == steps[1..] + [step];
    }
  }

  lemma InitReachable()
    ensures Reachable(INIT)
  {
    assert Runs(INIT, [], INIT);
  }

  // One block of tenant 1 committed and hooked, its pass under way.
  lemma FirstPassStarted() returns (s: State)
    ensures Reachable(s)
    ensures s.workers == [Worker(1, Compiling(1))] && s.states == map[1 := false] && s.wg == 1
    ensures s.committed == [1] && s.hooked == {0} && s.passes == [] && s.bundle == map[]
  {
    InitReachable();
    hide Runs, Reachable;
    var t: Tenant := 1;
    var s1 := Apply(INIT, Commit(t));
    StepReachable(INIT, Commit(t));
    var s2 := Apply(s1, Hook(0));
    StepReachable(s1, Hook(0));
    assert s2.workers == [Worker(t, Ready)] && s2.states == map[t := false];
    s := Apply(s2, Start(0));
    StepReachable(s2, Start(0));
  }

  // The pass finished and settled.
  lemma RunOnce(ok: bool) returns (s: State)
    ensures Reachable(s)
    ensures s.workers == [Worker(1, Exited)] && s.states == map[] && s.wg == 1
    ensures s.committed == [1] && s.hooked == {0}
    ensures s.passes == [Pass(1, 1, 1, ok)] && s.bundle == if ok then map[1 := 1] else map[]
  {
    var s3 := FirstPassStarted();
    hide Runs, Reachable;
    var t: Tenant := 1;
    var s4 := Apply(s3, End(0, 1, ok));
    StepReachable(s3, End(0, 1, ok));
    assert s4.passes == [Pass(t, 1, 1, ok)] && s4.states == map[t := false];
    s := Apply(s4, Settle(0));
    StepReachable(s4, Settle(0));
  }

  /** Once a tenant's entry is gone, every one of its hooked blocks was observed
      by a finished pass. */
  lemma EntryGoneMeansSeen(s: State, i: nat)
    requires Reachable(s) && i in s.hooked && i < |s.committed|
    requires s.committed[i] != NIL && s.committed[i] !in s.states
    ensures Seen(s, s.committed[i], i)
  {
    ReachableInv(s);
  }

  /** The WaitGroup counts the entries plus the workers that have removed their
      entry but not yet called Done. */
  lemma WaitGroupAccount(s: State)
    requires Reachable(s)
    ensures s.wg == |s.states| + Total(s.workers, IsExited)
  {
    ReachableInv(s);
    LiveSplits(s.workers);
  }

  lemma {:induction false} LiveSplits(ws: seq<Worker>)
    ensures Total(ws, IsLive) == Total(ws, IsActive) + Total(ws, IsExited)
  {
    if ws == [] {
    } else {
      LiveSplits(ws[..|ws| - 1]);
    }
  }

  /** So when `Wait` sees the counter at zero, every hooked block of every
      tenant has been observed by a finished pass. */
  lemma WaitMeansSeen(s: State, i: nat)
    requires Reachable(s) && s.wg == 0
    requires i in s.hooked && i < |s.committed| && s.committed[i] != NIL
    ensures Seen(s, s.committed[i], i)
  {
    hide Total, Seen;
    WaitGroupAccount(s);
    assert s.committed[i] !in s.states;
    EntryGoneMeansSeen(s, i);
  }

  /** No lost update: the stored bundle reflects a block exactly when some
      successful pass observed it; a slow early compile never overwrites a
      newer bundle. */
  lemma NoLostUpdate(s: State, t: Tenant, i: nat)
    requires Reachable(s)
    ensures (t in s.bundle && s.bundle[t] > i) <==>
            exists k :: 0 <= k < |s.passes| && s.passes[k].tenant == t && s.passes[k].ok && s.passes[k].snap > i
  {
    ReachableInv(s);
    if t in s.bundle && s.bundle[t] > i {
      assert Stored(s, t, s.bundle[t]);
    }
  }

  /** What a tenant's bundle reflects only grows along a run. */
  lemma {:induction false} BundleGrows(s: State, steps: seq<Step>, s': State, t: Tenant)
    requires Inv(s) && Runs(s, steps, s') && t in s.bundle
    ensures t in s'.bundle && s.bundle[t] <= s'.bundle[t]
    decreases |steps|
  {
    hide Apply, Enabled, Owned, Covered, PassesOrdered, BundleLatest, Coalesced, Counted;
    if steps == [] {
    } else {
      BundleKept(s, steps[0]);
      StepKeepsInv(s, steps[0]);
      BundleGrows(Apply(s, steps[0]), steps[1..], s', t);
    }
  }

  // ------------------------------------------------- when a block is in the bundle

  // Block i is a hooked block of tenant t.
  predicate HookedFor(s: State, t: Tenant, i: nat) {
    i in s.hooked && i < |s.committed| && s.committed[i] == t
  }

  // The tenant's stored bundle reflects every hooked block of it.
  ghost predicate Reflected(s: State, t: Tenant) {
    forall i :: HookedFor(s, t, i) ==> t in s.bundle && s.bundle[t] > i
  }

  // Pass k is the tenant's latest.
  ghost predicate IsLast(s: State, t: Tenant, k: nat) {
    k < |s.passes| && s.passes[k].tenant == t && forall j :: k < j < |s.passes| ==> s.passes[j].tenant != t
  }

  ghost predicate LastPassOk(s: State, t: Tenant) {
    forall k: nat :: IsLast(s, t, k) ==> s.passes[k].ok
  }

  // Pass k succeeded and read every hooked block of the tenant.
  ghost predicate ReadAll(s: State, t: Tenant, k: nat) {
    k < |s.passes| && s.passes[k].tenant == t && s.passes[k].ok && forall i :: HookedFor(s, t, i) ==> s.passes[k].snap > i
  }

  lemma LastAfter(s: State, t: Tenant, k: nat) returns (last: nat)
    requires k < |s.passes| && s.passes[k].tenant == t
    ensures k <= last && IsLast(s, t, last)
    decreases |s.passes| - k
  {
    if IsLast(s, t, k) {
      last := k;
    } else {
      var j :| k < j < |s.passes| && s.passes[j].tenant == t;
      last := LastAfter(s, t, j);
    }
  }

  /** The recompiler's promise: once a tenant's entry is gone, if its latest
      compile succeeded then the stored bundle reflects every hooked block. */
  lemma EntryGoneMeansReflected(s: State, t: Tenant)
    requires Reachable(s) && t != NIL && t !in s.states && LastPassOk(s, t)
    ensures Reflected(s, t)
  {
    hide Reachable, Seen, LastPassOk;
    forall i | HookedFor(s, t, i) ensures t in s.bundle && s.bundle[t] > i {
      EntryGoneMeansSeen(s, i);
      assert PassesOrdered(s) by { ReachableInv(s); }
      var last := LastReads(s, t, i);
      NoLostUpdate(s, t, i);
    }
  }

  // A successful latest pass read whatever any finished pass started after.
  lemma LastReads(s: State, t: Tenant, i: nat) returns (last: nat)
    requires PassesOrdered(s) && Seen(s, t, i) && LastPassOk(s, t)
    ensures last < |s.passes| && s.passes[last].tenant == t && s.passes[last].ok && s.passes[last].snap > i
  {
    var k :| 0 <= k < |s.passes| && s.passes[k].tenant == t && s.passes[k].start > i;
    last := LastAfter(s, t, k);
  }

  /** So when `Wait` sees the counter at zero, every tenant whose latest compile
      succeeded has all its hooked blocks in its bundle. */
  lemma WaitMeansReflected(s: State, t: Tenant)
    requires Reachable(s) && s.wg == 0 && t != NIL && LastPassOk(s, t)
    ensures Reflected(s, t)
  {
    hide Total, Reflected, LastPassOk;
    WaitGroupAccount(s);
    assert t !in s.states;
    EntryGoneMeansReflected(s, t);
  }

  /** Exactly: all hooked blocks of a tenant are in its bundle if and only if it
      has none, or one successful compile read them all. A success that misses a
      block cannot be made up for by an older or by a failed one. */
  lemma ReflectedIff(s: State, t: Tenant)
    requires Reachable(s)
    ensures Reflected(s, t) <==> (forall i :: !HookedFor(s, t, i)) || exists k: nat :: ReadAll(s, t, k)
  {
    ReachableInv(s);
    if Reflected(s, t) && exists i :: HookedFor(s, t, i) {
      var i :| HookedFor(s, t, i);
      assert Stored(s, t, s.bundle[t]);
      var k :| 0 <= k < |s.passes| && IsStore(s.passes[k], t, s.bundle[t]);
      assert ReadAll(s, t, k);
    }
    if exists k: nat :: ReadAll(s, t, k) {
      var k: nat :| ReadAll(s, t, k);
      assert s.passes[k].snap <= s.bundle[t];
    }
  }

  /** A failed latest compile does not by itself decide the matter: here an
      earlier success had already read both blocks ... */
  lemma FailedLastPassCanBeHarmless() returns (s: State)
    ensures Reachable(s) && s.wg == 0 && s.committed == [1, 1] && s.hooked == {0, 1}
    ensures IsLast(s, 1, 1) && !s.passes[1].ok && Reflected(s, 1)
  {
    var s5 := BlockDuringPass();
    hide Runs, Reachable;
    var t: Tenant := 1;
    var s6 := Apply(s5, Start(0));
    StepReachable(s5, Start(0));
    var s7 := Apply(s6, End(0, 2, false));
    StepReachable(s6, End(0, 2, false));
    assert s7.passes == [Pass(t, 1, 2, true), Pass(t, 2, 2, false)] && s7.states == map[t := false];
    var s8 := Apply(s7, Settle(0));
    StepReachable(s7, Settle(0));
    s := Apply(s8, Finish(0));
    StepReachable(s8, Finish(0));
  }

  // A second block arrives during the first pass, which reads it and succeeds.
  lemma BlockDuringPass() returns (s: State)
    ensures Reachable(s) && s.workers == [Worker(1, Ready)] && s.states == map[1 := false] && s.wg == 1
    ensures s.committed == [1, 1] && s.hooked == {0, 1}
    ensures s.passes == [Pass(1, 1, 2, true)] && s.bundle == map[1 := 2]
  {
    var s1 := FirstPassStarted();
    hide Runs, Reachable;
    var t: Tenant := 1;
    var s2 := Apply(s1, Commit(t));
    StepReachable(s1, Commit(t));
    var s3 := Apply(s2, Hook(1));
    StepReachable(s2, Hook(1));
    assert s3.workers == [Worker(t, Compiling(1))] && s3.states == map[t := true];
    var s4 := Apply(s3, End(0, 2, true));
    StepReachable(s3, End(0, 2, true));
    s := Apply(s4, Settle(0));
    StepReachable(s4, Settle(0));
  }

  /** ... but a failed compile is only logged, so `Wait` can also return with a
      block that no bundle reflects. */
  lemma FailedPassNotRetried() returns (s: State)
    ensures Reachable(s) && s.wg == 0 && s.hooked == {0} && s.committed == [1]
    ensures IsLast(s, 1, 0) && !s.passes[0].ok && !Reflected(s, 1)
  {
    var s1 := RunOnce(false);
    s := Apply(s1, Finish(0));
    StepReachable(s1, Finish(0));
    assert HookedFor(s, 1, 0);
  }

  /** Passes started for a tenant never exceed its OnBlock calls. */
  lemma StartsBoundedByCalls(s: State, t: Tenant)
    requires Reachable(s)
    ensures Get(s.started, t) + Owed(s, t) <= Get(s.calls, t)
  {
    ReachableInv(s);
  }

  // No hook of tenant t fires along the run.
  predicate QuietFor(s: State, steps: seq<Step>, t: Tenant)
    decreases |steps|
  {
    steps == [] || (Enabled(s, steps[0]) && !IsHook(s, steps[0], t) && QuietFor(Apply(s, steps[0]), steps[1..], t))
  }

  /** While a tenant gets no new block, starting a pass spends exactly what was
      owed: started + owed is conserved. */
  lemma {:induction false} OwedConserved(s: State, steps: seq<Step>, s': State, t: Tenant)
    requires Inv(s) && Runs(s, steps, s') && QuietFor(s, steps, t)
    ensures Get(s'.started, t) + Owed(s', t) == Get(s.started, t) + Owed(s, t)
    decreases |steps|
  {
    hide Apply, Enabled, Covered, PassesOrdered, BundleLatest, Coalesced, Counted, Owed, IsHook, Owned;
    if steps == [] {
    } else {
      OwedStep(s, steps[0], t);
      StepKeepsInv(s, steps[0]);
      OwedConserved(Apply(s, steps[0]), steps[1..], s', t);
    }
  }

  // Worker w is in the middle of a pass for tenant t.
  predicate MidPass(s: State, t: Tenant, w: nat) {
    && w < |s.workers| && s.workers[w].tenant == t
    && (s.workers[w].phase.Compiling? || s.workers[w].phase.Compiled?)
  }

  /** However many blocks arrive during one pass, exactly one more pass is owed
      for them. */
  lemma {:induction false} BlocksDuringPassOweOne(s: State, steps: seq<Step>, s': State, t: Tenant, w: nat)
    requires Inv(s) && MidPass(s, t, w) && t != NIL
    requires Runs(s, steps, s') && Settle(w) !in steps
    ensures MidPass(s', t, w) && Get(s'.started, t) == Get(s.started, t)
    ensures Owed(s', t) == (if Get(s'.calls, t) > Get(s.calls, t) then 1 else Owed(s, t))
    ensures Get(s'.calls, t) >= Get(s.calls, t)
    decreases |steps|
  {
    hide Apply, Enabled, Owned, Covered, PassesOrdered, BundleLatest, Coalesced, Counted, Owed, IsHook;
    if steps == [] {
    } else {
      var s1 := Apply(s, steps[0]);
      StepKeepsInv(s, steps[0]);
      MidPassStep(s, steps[0], t, w);
      BlocksDuringPassOweOne(s1, steps[1..], s', t, w);
    }
  }

  lemma MidPassStep(s: State, step: Step, t: Tenant, w: nat)
    requires Owned(s) && MidPass(s, t, w) && t != NIL && Enabled(s, step) && step != Settle(w)
    ensures var s' := Apply(s, step);
            && MidPass(s', t, w)
            && Get(s'.started, t) == Get(s.started, t)
            && Owed(s', t) == (if IsHook(s, step, t) then 1 else Owed(s, t))
            && Get(s'.calls, t) == Get(s.calls, t) + (if IsHook(s, step, t) then 1 else 0)
  {
    OwedStep(s, step, t);
    CallsStep(s, step, t);
    if IsHook(s, step, t) {
      HookMidPass(s, step.block, w);
    } else {
      hide Owed;
      assert s.owner[t] == w;
    }
  }

  lemma HookMidPass(s: State, i: nat, w: nat)
    requires Owned(s) && i < |s.committed| && s.committed[i] != NIL && MidPass(s, s.committed[i], w)
    ensures MidPass(DoHook(s, i), s.committed[i], w) && Owed(DoHook(s, i), s.committed[i]) == 1
  {
    assert s.owner[s.committed[i]] == w;
  }

  /** End to end: if a tenant got at least one block during a pass of worker w,
      and none later, then by the time its entry is gone exactly one further
      pass has started. */
  lemma {:induction false} ExactlyOneFurtherPass(s: State, during: seq<Step>, s1: State, after: seq<Step>, s2: State,
                                                 t: Tenant, w: nat)
    requires Inv(s) && MidPass(s, t, w) && t != NIL
    requires Runs(s, during, s1) && Settle(w) !in during && Get(s1.calls, t) > Get(s.calls, t)
    requires Runs(s1, after, s2) && QuietFor(s1, after, t) && t !in s2.states
    ensures Get(s2.started, t) == Get(s.started, t) + 1
  {
    hide Inv, Runs, QuietFor;
    BlocksDuringPassOweOne(s, during, s1, t, w);
    RunKeepsInv(s, during, s1);
    OwedConserved(s1, after, s2, t);
  }

  // --------------------------------------------------------------- termination

  function Weight(w: Worker): nat {
    match w.phase
    case Ready => 4
    case Compiling(_) => 3
    case Compiled => 2
    case Exited => 1
    case Done => 0
  }

  function DirtyTenants(states: map<Tenant, bool>): set<Tenant> { set t | t in states && states[t] }

  lemma SettleDirty(states: map<Tenant, bool>, t: Tenant)
    requires t in states
    ensures var after := SettleSection(states, t).0;
            |DirtyTenants(after)| == |DirtyTenants(states)| - (if states[t] then 1 else 0)
  {
    var after := SettleSection(states, t).0;
    assert DirtyTenants(after) == DirtyTenants(states) - {t};
  }

  // How many of the first n blocks have not had their hook run.
  function Pending(hooked: set<nat>, n: nat): nat {
    if n == 0 then 0 else Pending(hooked, n - 1) + (if n - 1 in hooked then 0 else 1)
  }

  lemma {:induction false} PendingHook(hooked: set<nat>, n: nat, i: nat)
    requires i !in hooked
    ensures Pending(hooked + {i}, n) == Pending(hooked, n) - (if i < n then 1 else 0)
  {
    if n == 0 {
    } else {
      PendingHook(hooked, n - 1, i);
    }
  }

  // Hooks still to fire weigh most, then dirty flags, then worker phases.
  function Measure(s: State): nat {
    6 * Pending(s.hooked, |s.committed|) + 3 * |DirtyTenants(s.states)| + Total(s.workers, Weight)
  }

  /** Every step but a new block strictly decreases the measure. */
  lemma MeasureDecreases(s: State, step: Step)
    requires Owned(s) && Enabled(s, step) && !step.Commit?
    ensures Measure(Apply(s, step)) < Measure(s)
  {
    hide Total, Pending;
    match step
    case Hook(i) => MeasureHook(s, i);
    case Start(w) => TotalUpdate(s.workers, w, Worker(s.workers[w].tenant, Compiling(|s.committed|)), Weight);
    case End(w, snap, ok) => TotalUpdate(s.workers, w, Worker(s.workers[w].tenant, Compiled), Weight);
    case Settle(w) => MeasureSettle(s, w);
    case Finish(w) => TotalUpdate(s.workers, w, Worker(s.workers[w].tenant, Done), Weight);
  }

  lemma MeasureHook(s: State, i: nat)
    requires Enabled(s, Hook(i))
    ensures Measure(DoHook(s, i)) < Measure(s)
  {
    hide Total, Pending;
    var s', t := DoHook(s, i), s.committed[i];
    PendingHook(s.hooked, |s.committed|, i);
    TotalAppend(s.workers, Worker(t, Ready), Weight);
    if t == NIL || t !in s.states {
      assert DirtyTenants(s'.states) == DirtyTenants(s.states);
    } else {
      assert DirtyTenants(s'.states) == DirtyTenants(s.states) + {t};
    }
  }

  lemma MeasureSettle(s: State, w: nat)
    requires Owned(s) && Enabled(s, Settle(w))
    ensures Measure(DoSettle(s, w)) < Measure(s)
  {
    hide Total, Pending;
    var s', t := DoSettle(s, w), s.workers[w].tenant;
    TotalUpdate(s.workers, w, Worker(t, s'.workers[w].phase), Weight);
    SettleDirty(s.states, t);
  }

  /** With finitely many blocks every run ends: without new commits a run is at
      most as long as the measure. */
  lemma {:induction false} RunLengthBounded(s: State, steps: seq<Step>, s': State)
    requires Inv(s) && Runs(s, steps, s') && forall k :: 0 <= k < |steps| ==> !steps[k].Commit?
    ensures |steps| <= Measure(s)
    decreases |steps|
  {
    hide Apply, Enabled, Measure, Owned, Covered, PassesOrdered, BundleLatest, Coalesced, Counted;
    if steps == [] {
    } else {
      MeasureDecreases(s, steps[0]);
      StepKeepsInv(s, steps[0]);
      RunLengthBounded(Apply(s, steps[0]), steps[1..], s');
    }
  }

  /** No live worker is ever stuck, so while the WaitGroup is not at zero some
      worker can move. */
  lemma LiveWorkerCanStep(s: State, w: nat) returns (step: Step)
    requires Inv(s) && w < |s.workers| && s.workers[w].Live()
    ensures Enabled(s, step) && !step.Commit? && !step.Hook? && step.w == w
  {
    match s.workers[w].phase
    case Ready => step := Start(w);
    case Compiling(seen) => step := End(w, |s.committed|, true);
    case Compiled => step := Settle(w);
    case Exited =>
      step := Finish(w);
      LiveCounts(s.workers, w);
  }

  lemma {:induction false} LiveCounts(ws: seq<Worker>, w: nat)
    requires w < |ws| && ws[w].Live()
    ensures Total(ws, IsLive) > 0
  {
    if w < |ws| - 1 { LiveCounts(ws[..|ws| - 1], w); }
  }

  lemma WaitIsNotStuck(s: State) returns (step: Step)
    requires Inv(s) && s.wg > 0
    ensures Enabled(s, step) && !step.Commit? && !step.Hook?
  {
    hide Owned, Covered, PassesOrdered, BundleLatest, Coalesced, Enabled;
    var w := FindLive(s.workers);
    step := LiveWorkerCanStep(s, w);
  }

  lemma {:induction false} FindLive(ws: seq<Worker>) returns (w: nat)
    requires Total(ws, IsLive) > 0
    ensures w < |ws| && ws[w].Live()
  {
    var n := |ws| - 1;
    if ws[n].Live() { w := n; } else { w := FindLive(ws[..n]); }
  }
}
