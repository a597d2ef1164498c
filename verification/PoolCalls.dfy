/** Whole calls of the pool, whatever the workers do meanwhile: adding a worker, shutting down,
    and the placement of workers on cores over a history of calls. */
module PoolCalls {
  import opened Wrappers
  import opened Placement
  import opened Pool
  import opened PoolInvariant
  import opened PoolProgress

  // ----- add_worker

  /** The workers of s0 are still there, in place. */
  ghost predicate SameOld(s0: State, s: State) {
    && |s0.workers| <= |s.workers|
    && forall i :: 0 <= i < |s0.workers| ==> s.workers[i].born == s0.workers[i].born
  }

  /** How an add that began in s0 ended: what it reports says what it changed. */
  ghost predicate AddDone(s0: State, core: nat, s: State)
    requires core < |s0.cores|
  {
    var n := |s0.workers|;
    match s.status
    case Ok =>
      && |s.workers| == s.noWorkers == s.barrier.threads == n + 1 && s.settled
      && s.workers[n].healthy && s.workers[n].born == s0.releases
      && s.cores == Change(s0.cores, core, 1) && s.releases == s0.releases && s.failures == s0.failures
    case InitFailed =>
      && |s.workers| == s.noWorkers == s.barrier.threads == n
      && s.cores == s0.cores && s.releases == s0.releases + 1 && s.failures == s0.failures
    case LaunchError =>
      && |s.workers| == s.noWorkers == s.barrier.threads == n
      && s.cores == Change(s0.cores, core, 1) && s.releases == s0.releases && s.failures == s0.failures + 1
    case InvalidArguments => false
  }

  /** Where an add that began in s0 can be. */
  ghost predicate Adding(s0: State, core: nat, s: State)
    requires core < |s0.cores|
  {
    var n := |s0.workers|;
    var raised := s.cores == Change(s0.cores, core, 1) && s.failures == s0.failures;
    && SameOld(s0, s)
    && match s.control
       case Launching(c) => c == core && |s.workers| == n && raised && s.releases == s0.releases
       case Locking(call) => call == Add(core) && |s.workers| == n + 1 && raised && s.releases == s0.releases
       case Sleeping(call) => call == Add(core) && |s.workers| == n + 1 && raised && s.releases == s0.releases
       case Woken(call) => call == Add(core) && |s.workers| == n + 1 && raised && s.releases == s0.releases
       case Inspecting(c) => c == core && |s.workers| == n + 1 && raised && s.releases == s0.releases && s.settled
       case Releasing(call) => call == Drop(core) && |s.workers| == n + 1 && raised && s.releases == s0.releases
       case Posting(call, _) => call == Drop(core) && |s.workers| == n + 1 && raised && s.releases == s0.releases + 1
       case Shrinking(c) => c == core && |s.workers| == n + 1 && raised && s.releases == s0.releases + 1
       case Joining => |s.workers| == n + 1 && s.cores == s0.cores && s.failures == s0.failures && s.releases == s0.releases + 1
       case Idle => AddDone(s0, core, s)
       case _ => false
  }

  lemma AddingWork(s0: State, core: nat, s: State, i: nat, ok: bool)
    requires core < |s0.cores| && Inv(s) && Adding(s0, core, s) && CanWork(s, i)
    ensures Adding(s0, core, WorkerMoves(s, i, ok))
  {
    hide Count, Total, Flags, Ledger, Usage, Sizes, Phase, LeastUsed, Change;
    if s.settled {
      ParkedStay(s, i);
      assert false;
    }
  }

  lemma AddingProceeds(s0: State, core: nat, s: State)
    requires core < |s0.cores| && Inv(s) && Adding(s0, core, s) && CanProceed(s)
    ensures Adding(s0, core, Proceeds(s))
  {
    hide Count, Total, TokensAgree, Flags, Ledger, Usage, LeastUsed, Change;
    if s.control.Releasing? { ReleaseInv(s); }
    if s.control.Shrinking? { ChangeBack(s0.cores, core, 1); }
  }

  lemma AddingStep(s0: State, core: nat, s: State, step: Step)
    requires core < |s0.cores| && Inv(s) && Adding(s0, core, s)
    requires Can(s, step) && !step.Begin?
    ensures Adding(s0, core, Do(s, step))
  {
    hide Count, Total, TokensAgree, Flags, Ledger, Usage, LeastUsed, Change, WorkerMoves, Proceeds;
    match step
    case Work(i, ok) => AddingWork(s0, core, s, i, ok);
    case Proceed => AddingProceeds(s0, core, s);
    case _ =>
  }

  lemma {:induction false} AddingRun(s0: State, core: nat, s: State, steps: seq<Step>)
    requires core < |s0.cores| && Inv(s) && Adding(s0, core, s)
    requires IsRun(s, steps) && NoCalls(steps)
    ensures Inv(After(s, steps)) && Adding(s0, core, After(s, steps))
    decreases |steps|
  {
    if steps != [] {
      assert !steps[0].Begin?;
      StepInv(s, steps[0]);
      AddingStep(s0, core, s, steps[0]);
      assert forall k :: 0 <= k < |steps| - 1 ==> steps[1..][k] == steps[k + 1];
      AddingRun(s0, core, Do(s, steps[0]), steps[1..]);
    }
  }

  /** The outcome of add_worker for every interleaving. A worker that did not initialise is gone again:
      list, thread count and core usage are as before, and each older worker has been released for
      exactly one more callback. A failed launch leaves only the core's usage raised. */
  lemma AddWorkerOutcome(s0: State, cpu: Option<int>, steps: seq<Step>)
    requires Reachable(s0) && CanBegin(s0, ReqAdd(cpu)) && Choose(s0.cores, cpu).Some?
    requires IsRun(Begins(s0, ReqAdd(cpu)), steps) && NoCalls(steps)
    requires After(Begins(s0, ReqAdd(cpu)), steps).control.Idle?
    ensures var s := After(Begins(s0, ReqAdd(cpu)), steps);
      && AddDone(s0, Choose(s0.cores, cpu).value, s)
      && TokensAgree(s)
      && (s.status.Ok? ==> Parked(s) && s.workers[|s0.workers|].calls == 0)
      && forall i :: 0 <= i < |s0.workers| ==>
           s.workers[i].calls + Owes(s.workers[i].pc, s.barrier.active)
             == s0.workers[i].calls + Owes(s0.workers[i].pc, s0.barrier.active) + if s.status.InitFailed? then 1 else 0
  {
    ReachableInv(s0);
    BeginInv(s0, ReqAdd(cpu));
    var core := Choose(s0.cores, cpu).value;
    AddingRun(s0, core, Begins(s0, ReqAdd(cpu)), steps);
    var s := After(Begins(s0, ReqAdd(cpu)), steps);
    assert Ledger(s0) && Ledger(s) && SameOld(s0, s);
  }

  /** While a new worker is being brought in, and while it is being removed again, it makes no callback. */
  lemma NewWorkerIsSilent(s: State)
    requires Reachable(s)
    requires Dropping(s.control) || s.control.Inspecting?
      || (match s.control case Locking(c) => c.Add? case Sleeping(c) => c.Add? case Woken(c) => c.Add? case _ => false)
    ensures s.workers != []
    ensures var w := s.workers[|s.workers| - 1]; w.calls == 0 && !w.pc.Calling?
  {
    ReachableInv(s);
    var last := |s.workers| - 1;
    assert PlacedRight(s, last);
    assert s.workers[last].calls + s.workers[last].born + Owes(s.workers[last].pc, s.barrier.active) == s.releases;
  }

  /** An id that no core has is refused without a change; any other request goes ahead. */
  lemma UnknownCore(s: State, id: int)
    requires s.control.Idle?
    ensures (forall j :: 0 <= j < |s.cores| ==> s.cores[j].id != id)
      <==> Begins(s, ReqAdd(Some(id))) == s.(status := InvalidArguments)
  {
    if Choose(s.cores, Some(id)).Some? {
      assert Begins(s, ReqAdd(Some(id))).control.Launching?;
    }
  }

  // ----- the destructor

  /** Where a shutdown that began in s0 can be. */
  ghost predicate ShuttingDown(s0: State, s: State) {
    && SameOld(s0, s) && |s.workers| == |s0.workers|
    && s.releases == s0.releases + (if s.control.Posting? || s.control.JoiningAll? || s.control.Destroyed? then 1 else 0)
    && match s.control
       case Locking(call) => call.Destroy?
       case Sleeping(call) => call.Destroy?
       case Woken(call) => call.Destroy?
       case Stopping => true
       case Releasing(call) => call.Destroy?
       case Posting(call, _) => call.Destroy?
       case JoiningAll(_) => true
       case Destroyed => true
       case _ => false
  }

  lemma ShutdownStep(s0: State, s: State, step: Step)
    requires Inv(s) && ShuttingDown(s0, s) && Can(s, step)
    ensures ShuttingDown(s0, Do(s, step))
  {
    hide Count, Total, TokensAgree, Flags, Ledger, Usage;
    if step.Proceed? && s.control.Releasing? { ReleaseInv(s); }
  }

  lemma {:induction false} ShutdownRun(s0: State, s: State, steps: seq<Step>)
    requires Inv(s) && ShuttingDown(s0, s) && IsRun(s, steps)
    ensures Inv(After(s, steps)) && ShuttingDown(s0, After(s, steps))
    decreases |steps|
  {
    if steps != [] {
      StepInv(s, steps[0]);
      ShutdownStep(s0, s, steps[0]);
      ShutdownRun(s0, Do(s, steps[0]), steps[1..]);
    }
  }

  /** Once the pool's flag is cleared, workers only leave: no callback, no new arrival. */
  lemma ClosingWorkersLeave(s: State, i: nat)
    requires Reachable(s) && Closing(s.control) && i < |s.workers|
    ensures !s.workers[i].pc.Starting? && !s.workers[i].pc.Entering? && !s.workers[i].pc.Calling?
    ensures s.barrier.arrived == 0 || s.control.Releasing?
  {
    ReachableInv(s);
    assert PlacedRight(s, i);
    if !s.control.Releasing? {
      forall j | 0 <= j < |s.workers|
        ensures s.workers[j].pc != Waiting(s.barrier.active)
      {
        assert PlacedRight(s, j);
      }
      CountExtremes(s.workers, Waiting(s.barrier.active));
    }
  }

  lemma DestroyedClean(s: State)
    requires Inv(s) && s.control.Destroyed?
    ensures s.barrier.tokens0 == s.barrier.tokens1 == s.barrier.arrived == 0
    ensures forall i :: 0 <= i < |s.workers| ==> s.workers[i].pc.Exited? && s.workers[i].calls + s.workers[i].born + 1 == s.releases
    ensures forall step :: !Can(s, step)
  {
    hide Count;
    CountExtremes(s.workers, Waiting(s.barrier.active));
    CountExtremes(s.workers, Waiting(1 - s.barrier.active));
  }

  /** Clean shutdown from any state between calls and for every interleaving: when the barrier is
      destroyed all threads have been joined, no token is left, no step is possible, and every worker
      has made exactly one callback for each release it saw before the shutdown. */
  lemma CleanShutdown(s0: State, steps: seq<Step>)
    requires Reachable(s0) && s0.control.Idle?
    requires IsRun(Begins(s0, ReqDestroy), steps)
    requires After(Begins(s0, ReqDestroy), steps).control.Destroyed?
    ensures var s := After(Begins(s0, ReqDestroy), steps);
      && |s.workers| == |s0.workers|
      && s.barrier.tokens0 == s.barrier.tokens1 == s.barrier.arrived == 0
      && (forall i :: 0 <= i < |s.workers| ==>
            && s.workers[i].pc.Exited?
            && s.workers[i].calls + s0.workers[i].born == s0.releases)
      && forall step :: !Can(s, step)
  {
    ReachableInv(s0);
    BeginInv(s0, ReqDestroy);
    assert ShuttingDown(s0, Begins(s0, ReqDestroy));
    hide Begins, Inv, CanProceed;
    ShutdownRun(s0, Begins(s0, ReqDestroy), steps);
    var s := After(Begins(s0, ReqDestroy), steps);
    DestroyedClean(s);
  }

  // ----- placement over histories

  /** Between calls the usage counters add up to the workers listed and the launches that failed. */
  lemma UsageAddsUp(s: State)
    requires Reachable(s) && s.control.Idle?
    ensures Total(s.cores) == |s.workers| + s.failures
  {
    ReachableInv(s);
  }

  /** No core is asked for, and no worker is removed for failing to initialise. */
  predicate AutoOnly(s: State, steps: seq<Step>)
    requires IsRun(s, steps)
    decreases |steps|
  {
    steps == [] || (
      && (steps[0].Begin? && steps[0].request.ReqAdd? ==> steps[0].request.cpu.None?)
      && !(steps[0].Proceed? && s.control.Shrinking?)
      && AutoOnly(Do(s, steps[0]), steps[1..]))
  }

  function AddsIn(steps: seq<Step>): nat {
    if steps == [] then 0 else (if steps[0].Begin? && steps[0].request.ReqAdd? then 1 else 0) + AddsIn(steps[1..])
  }

  lemma {:induction false} AutoAddsShift(cores: Cores, k: nat)
    requires cores != []
    ensures AutoAdds(Change(cores, LeastUsed(cores), 1), k) == AutoAdds(cores, k + 1)
  {
    if k > 0 { AutoAddsShift(cores, k - 1); }
  }

  lemma UsageStep(s: State, step: Step)
    requires s.cores != [] && Can(s, step)
    requires step.Begin? && step.request.ReqAdd? ==> step.request.cpu.None?
    requires !(step.Proceed? && s.control.Shrinking?)
    ensures Do(s, step).cores ==
      if step.Begin? && step.request.ReqAdd? then Change(s.cores, LeastUsed(s.cores), 1) else s.cores
  {
  }

  /** On such a history the usage table is that of as many automatic placements as there were adds. */
  lemma {:induction false} UsageOfRun(s: State, steps: seq<Step>)
    requires s.cores != [] && IsRun(s, steps) && AutoOnly(s, steps)
    ensures After(s, steps).cores == AutoAdds(s.cores, AddsIn(steps))
    decreases |steps|
  {
    if steps != [] {
      hide Do, Can;
      var t := Do(s, steps[0]);
      UsageStep(s, steps[0]);
      UsageOfRun(t, steps[1..]);
      if steps[0].Begin? && steps[0].request.ReqAdd? {
        AutoAddsShift(s.cores, AddsIn(steps[1..]));
      }
    }
  }

  /** Automatic placement is round robin: after k adds core j carries k / c workers, and one more if
      j < k % c. A launch that failed counts as an add. */
  lemma PlacementIsRoundRobin(s0: State, steps: seq<Step>, j: nat)
    requires IsInitial(s0) && (forall i :: 0 <= i < |s0.cores| ==> s0.cores[i].workers == 0)
    requires IsRun(s0, steps) && AutoOnly(s0, steps) && j < |s0.cores|
    ensures var k, c := AddsIn(steps), |s0.cores|;
      |After(s0, steps).cores| == c && After(s0, steps).cores[j].workers == k / c + if j < k % c then 1 else 0
  {
    UsageOfRun(s0, steps);
    RoundRobin(s0.cores, AddsIn(steps));
  }
}
