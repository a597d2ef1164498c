/** What each call of the pool comes to, told from the steps of the run. */
module PoolOutcomes {
  import opened Wrappers
  import opened Placement
  import opened Pool
  import opened PoolInvariant
  import opened PoolProgress
  import opened PoolCalls
  import opened PoolDiscipline

  // ----- what add_worker returns

  /** The outcome of the first step of worker n: its initialisation. */
  function FirstStep(steps: seq<Step>, n: nat): Option<bool> {
    if steps == [] then None
    else if steps[0].Work? && steps[0].i == n then Some(steps[0].ok)
    else FirstStep(steps[1..], n)
  }

  /** Worker n is sound so far and, if it has still to initialise, will do so. */
  predicate Sound(s: State, n: nat, steps: seq<Step>)
    requires n < |s.workers|
  {
    s.workers[n].healthy && (s.workers[n].pc.Starting? ==> FirstStep(steps, n) == Some(true))
  }

  predicate NoLaunch(steps: seq<Step>) {
    LaunchFails !in steps && Launch(true) !in steps && Launch(false) !in steps
  }

  /** The status an add ends with, seen from a point on its way with these steps to come. */
  predicate Foretold(n: nat, s: State, steps: seq<Step>, status: Status) {
    match s.control
    case Launching(_) =>
      && (status == LaunchError <==> LaunchFails in steps)
      && (status == Ok <==> Launch(true) in steps && FirstStep(steps, n) == Some(true))
    case Idle => status == s.status && NoLaunch(steps)
    case Releasing(_) => status == InitFailed && NoLaunch(steps)
    case Posting(_, _) => status == InitFailed && NoLaunch(steps)
    case Shrinking(_) => status == InitFailed && NoLaunch(steps)
    case Joining => status == InitFailed && NoLaunch(steps)
    case _ =>
      && n < |s.workers| && NoLaunch(steps)
      && status != LaunchError && (status == Ok <==> Sound(s, n, steps))
  }

  lemma NoLaunchStep(step: Step, rest: seq<Step>)
    ensures var steps := [step] + rest;
      && (LaunchFails in steps <==> step.LaunchFails? || LaunchFails in rest)
      && (Launch(true) in steps <==> step == Launch(true) || Launch(true) in rest)
      && (NoLaunch(steps) <==> !step.Launch? && !step.LaunchFails? && NoLaunch(rest))
  {
  }

  lemma FirstStepOf(step: Step, rest: seq<Step>, n: nat)
    ensures FirstStep([step] + rest, n) == if step.Work? && step.i == n then Some(step.ok) else FirstStep(rest, n)
  {
    assert ([step] + rest)[1..] == rest;
  }

  lemma ForetellWork(s0: State, core: nat, s: State, i: nat, ok: bool, rest: seq<Step>, status: Status)
    requires core < |s0.cores| && Inv(s) && Adding(s0, core, s) && CanWork(s, i)
    requires Foretold(|s0.workers|, WorkerMoves(s, i, ok), rest, status)
    ensures Foretold(|s0.workers|, s, [Work(i, ok)] + rest, status)
  {
    hide Count, Total, Flags, Ledger, Usage, Sizes, Phase, Change, FirstStep, NoLaunch;
    NoLaunchStep(Work(i, ok), rest);
    FirstStepOf(Work(i, ok), rest, |s0.workers|);
  }

  lemma ForetellProceeds(s0: State, core: nat, s: State, rest: seq<Step>, status: Status)
    requires core < |s0.cores| && Inv(s) && Adding(s0, core, s) && CanProceed(s)
    requires Inv(Proceeds(s)) && Adding(s0, core, Proceeds(s))
    requires Foretold(|s0.workers|, Proceeds(s), rest, status)
    ensures Foretold(|s0.workers|, s, [Proceed] + rest, status)
  {
    hide Count, Total, TokensAgree, Flags, Ledger, Usage, Change, FirstStep, NoLaunch;
    NoLaunchStep(Proceed, rest);
    FirstStepOf(Proceed, rest, |s0.workers|);
  }

  lemma ForetellLaunch(s0: State, core: nat, s: State, step: Step, rest: seq<Step>, status: Status)
    requires core < |s0.cores| && Adding(s0, core, s) && Can(s, step)
    requires step.Launch? || step.LaunchFails? || step.Spurious?
    requires Foretold(|s0.workers|, Do(s, step), rest, status)
    ensures Foretold(|s0.workers|, s, [step] + rest, status)
  {
    hide CanWork, CanProceed, FirstStep, AddDone;
    NoLaunchStep(step, rest);
    FirstStepOf(step, rest, |s0.workers|);
  }

  lemma ForetellStep(s0: State, core: nat, s: State, step: Step, rest: seq<Step>, status: Status)
    requires core < |s0.cores| && Inv(s) && Adding(s0, core, s) && Can(s, step) && !step.Begin?
    requires Inv(Do(s, step)) && Adding(s0, core, Do(s, step))
    requires Foretold(|s0.workers|, Do(s, step), rest, status)
    ensures Foretold(|s0.workers|, s, [step] + rest, status)
  {
    hide Inv, WorkerMoves, CanWork, Proceeds, CanProceed, NoLaunch, FirstStep;
    match step
    case Work(i, ok) => ForetellWork(s0, core, s, i, ok, rest, status);
    case Proceed => ForetellProceeds(s0, core, s, rest, status);
    case _ => ForetellLaunch(s0, core, s, step, rest, status);
  }

  lemma {:induction false} Foretell(s0: State, core: nat, s: State, steps: seq<Step>)
    requires core < |s0.cores| && Inv(s) && Adding(s0, core, s)
    requires IsRun(s, steps) && NoCalls(steps) && After(s, steps).control.Idle?
    ensures Foretold(|s0.workers|, s, steps, After(s, steps).status)
    decreases |steps|
  {
    hide Inv, Adding, Do, Can, AddDone;
    if steps != [] {
      var step, rest := steps[0], steps[1..];
      assert !step.Begin? && steps == [step] + rest;
      StepInv(s, step);
      AddingStep(s0, core, s, step);
      assert forall k :: 0 <= k < |rest| ==> rest[k] == steps[k + 1];
      Foretell(s0, core, Do(s, step), rest);
      ForetellStep(s0, core, s, step, rest, After(s, steps).status);
    }
  }

  lemma AddBegins(s0: State, cpu: Option<int>, core: nat)
    requires Inv(s0) && CanBegin(s0, ReqAdd(cpu)) && Choose(s0.cores, cpu) == Some(core)
    ensures Adding(s0, core, Begins(s0, ReqAdd(cpu))) && Begins(s0, ReqAdd(cpu)).control.Launching?
  {
  }

  lemma StatusSeen(s0: State, core: nat, s: State, steps: seq<Step>)
    requires core < |s0.cores| && s.control.Launching? && IsRun(s, steps) && After(s, steps).control.Idle?
    requires Foretold(|s0.workers|, s, steps, After(s, steps).status) && Adding(s0, core, After(s, steps))
    ensures var status := After(s, steps).status;
      && (status == LaunchError <==> LaunchFails in steps)
      && (status == Ok <==> Launch(true) in steps && FirstStep(steps, |s0.workers|) == Some(true))
      && status != InvalidArguments
  {
  }

  lemma AddingRests(s0: State, core: nat, s: State)
    requires core < |s0.cores| && Adding(s0, core, s) && Resting(s.control)
    ensures s.control.Idle?
  {
  }

  /** What add_worker returns, for every interleaving: a launch error exactly if the launch failed,
      success exactly if launch and initialisation succeeded, and a failed initialisation otherwise. */
  lemma AddStatus(s0: State, cpu: Option<int>, steps: seq<Step>)
    requires Reachable(s0) && CanBegin(s0, ReqAdd(cpu))
    requires cpu.Some? ==> exists j :: 0 <= j < |s0.cores| && s0.cores[j].id == cpu.value
    requires IsRun(Begins(s0, ReqAdd(cpu)), steps) && NoCalls(steps)
    requires Resting(After(Begins(s0, ReqAdd(cpu)), steps).control)
    ensures After(Begins(s0, ReqAdd(cpu)), steps).control.Idle?
    ensures var status := After(Begins(s0, ReqAdd(cpu)), steps).status;
      && (status == LaunchError <==> LaunchFails in steps)
      && (status == Ok <==> Launch(true) in steps && FirstStep(steps, |s0.workers|) == Some(true))
      && status != InvalidArguments
  {
    hide Foretold, Adding, FirstStep;
    ReachableInv(s0);
    BeginInv(s0, ReqAdd(cpu));
    var core := Choose(s0.cores, cpu).value;
    var s := Begins(s0, ReqAdd(cpu));
    AddBegins(s0, cpu, core);
    AddingRun(s0, core, s, steps);
    AddingRests(s0, core, After(s, steps));
    Foretell(s0, core, s, steps);
    StatusSeen(s0, core, s, steps);
  }

  // ----- where a new worker goes

  /** One more worker on core j. */
  predicate Raised(before: Cores, after: Cores, j: nat)
    requires j < |before|
  {
    after == before[j := CpuInfo(before[j].id, before[j].workers + 1)]
  }

  lemma AddCores(s0: State, cpu: Option<int>, j: nat, steps: seq<Step>)
    requires Reachable(s0) && CanBegin(s0, ReqAdd(cpu)) && j < |s0.cores| && Choose(s0.cores, cpu) == Some(j)
    requires IsRun(Begins(s0, ReqAdd(cpu)), steps) && NoCalls(steps)
    requires After(Begins(s0, ReqAdd(cpu)), steps).control.Idle?
    ensures var s := After(Begins(s0, ReqAdd(cpu)), steps);
      if s.status.InitFailed? then s.cores == s0.cores else Raised(s0.cores, s.cores, j)
  {
    AddWorkerOutcome(s0, cpu, steps);
  }

  /** A requested core: the first one with the id has one worker more, whatever happens to the launch,
      unless the worker was removed again; the other cores are as they were. */
  lemma PinnedPlacement(s0: State, id: int, j: nat, steps: seq<Step>)
    requires Reachable(s0) && CanBegin(s0, ReqAdd(Some(id)))
    requires j < |s0.cores| && s0.cores[j].id == id && forall i :: 0 <= i < j ==> s0.cores[i].id != id
    requires IsRun(Begins(s0, ReqAdd(Some(id))), steps) && NoCalls(steps)
    requires After(Begins(s0, ReqAdd(Some(id))), steps).control.Idle?
    ensures var s := After(Begins(s0, ReqAdd(Some(id))), steps);
      if s.status.InitFailed? then s.cores == s0.cores else Raised(s0.cores, s.cores, j)
  {
    hide Begins, IsRun, After;
    assert FindCore(s0.cores, id) == Some(j);
    AddCores(s0, Some(id), j, steps);
  }

  /** No requested core: the same for the first of the least used cores. */
  lemma AutoPlacement(s0: State, j: nat, steps: seq<Step>)
    requires Reachable(s0) && CanBegin(s0, ReqAdd(None)) && j < |s0.cores|
    requires forall i :: 0 <= i < |s0.cores| ==> s0.cores[j].workers <= s0.cores[i].workers
    requires forall i :: 0 <= i < j ==> s0.cores[j].workers < s0.cores[i].workers
    requires IsRun(Begins(s0, ReqAdd(None)), steps) && NoCalls(steps)
    requires After(Begins(s0, ReqAdd(None)), steps).control.Idle?
    ensures var s := After(Begins(s0, ReqAdd(None)), steps);
      if s.status.InitFailed? then s.cores == s0.cores else Raised(s0.cores, s.cores, j)
  {
    hide Begins, IsRun, After;
    assert LeastUsed(s0.cores) == j;
    AddCores(s0, None, j, steps);
  }

  // ----- the destructor comes to its end

  /** Every destruction completes: it takes a bounded number of steps, some step is possible until it
      is over, and it is over only once the pool is destroyed. */
  lemma ShutdownCompletes(s0: State, steps: seq<Step>)
    requires Reachable(s0) && s0.control.Idle?
    requires IsRun(Begins(s0, ReqDestroy), steps) && NoCalls(steps)
    ensures |steps| <= 12 * |s0.workers| + 18 + 2 * SpuriousIn(steps)
    ensures var s := After(Begins(s0, ReqDestroy), steps);
      s.control.Destroyed? || (!Resting(s.control) && exists step :: Can(s, step) && !step.Begin? && !step.Spurious?)
  {
    hide Count, Total, Inv, Measure;
    var t := Begins(s0, ReqDestroy);
    ReachableInv(s0);
    BeginInv(s0, ReqDestroy);
    CallsAreBounded(t, steps);
    MeasureIsLinear(t);
    ShutdownRun(s0, t, steps);
    var s := After(t, steps);
    if !s.control.Destroyed? {
      var step := CallsMoveOn(s);
    }
  }

  // ----- waiting and waking

  /** The releases a call makes. */
  function ReleasesOf(r: Request): nat {
    if r.ReqWakeup? || r.ReqWakeupAndWait? then 1 else 0
  }

  predicate IsWakeOrWait(r: Request) {
    r.ReqWait? || r.ReqWakeup? || r.ReqWakeupAndWait?
  }

  /** Where a call that waits, wakes or does both can be, and what it has done so far. */
  predicate Serving(r: Request, s0: State, s: State) {
    && |s.workers| == |s0.workers| && s.cores == s0.cores && s.poolRunning == s0.poolRunning
    && s.noWorkers == s0.noWorkers && s.status == s0.status
    && Midway(r, s0.settled, s)
    && match s.control
       case Idle => s.releases == s0.releases + ReleasesOf(r)
       case Locking(_) => s.releases == s0.releases + ReleasesOf(r)
       case Sleeping(_) => s.releases == s0.releases + ReleasesOf(r)
       case Woken(_) => s.releases == s0.releases + ReleasesOf(r)
       case Posting(_, _) => s.releases == s0.releases + 1 && !r.ReqWait?
       case Releasing(_) => s.releases == s0.releases && !r.ReqWait?
       case AssertFailed => s.releases == s0.releases && !r.ReqWait?
       case _ => false
  }

  lemma ServingLaunch(r: Request, s0: State, s: State)
    requires IsWakeOrWait(r) && Serving(r, s0, s)
    ensures !s.control.Launching?
  {
  }

  lemma ServingProceeds(r: Request, s0: State, s: State)
    requires IsWakeOrWait(r) && Serving(r, s0, s) && CanProceed(s)
    ensures Serving(r, s0, Proceeds(s))
  {
    MidwayStep(r, s0.settled, s, Proceed);
  }

  lemma ServingStep(r: Request, s0: State, s: State, step: Step)
    requires IsWakeOrWait(r) && Serving(r, s0, s) && Can(s, step) && !step.Begin?
    ensures Serving(r, s0, Do(s, step))
  {
    hide Midway;
    MidwayStep(r, s0.settled, s, step);
    if step.Proceed? { ServingProceeds(r, s0, s); }
    if step.Launch? || step.LaunchFails? { ServingLaunch(r, s0, s); }
  }

  lemma {:induction false} ServingRun(r: Request, s0: State, s: State, steps: seq<Step>)
    requires IsWakeOrWait(r) && Serving(r, s0, s) && IsRun(s, steps) && NoCalls(steps)
    ensures Serving(r, s0, After(s, steps))
    decreases |steps|
  {
    hide Serving, Do, Can;
    if steps != [] {
      assert !steps[0].Begin?;
      ServingStep(r, s0, s, steps[0]);
      assert forall k :: 0 <= k < |steps| - 1 ==> steps[1..][k] == steps[k + 1];
      ServingRun(r, s0, Do(s, steps[0]), steps[1..]);
    }
  }

  /** A wait makes no release and a wakeup exactly one; a call that waits returns with every worker
      parked; workers, cores and flags stay. A wakeup may end in a failed assertion instead, and then
      has released nobody. */
  lemma WakeAndWait(s0: State, r: Request, steps: seq<Step>)
    requires Reachable(s0) && CanBegin(s0, r) && IsWakeOrWait(r)
    requires IsRun(Begins(s0, r), steps) && NoCalls(steps) && Resting(After(Begins(s0, r), steps).control)
    ensures var s := After(Begins(s0, r), steps);
      && |s.workers| == |s0.workers| && s.cores == s0.cores && s.poolRunning == s0.poolRunning
      && (s.control.Idle? || (s.control.AssertFailed? && !r.ReqWait?))
      && s.releases == s0.releases + (if s.control.Idle? && !r.ReqWait? then 1 else 0)
      && (s.control.Idle? && !r.ReqWakeup? ==> Parked(s))
  {
    ReachableInv(s0);
    BeginInv(s0, r);
    RunInv(Begins(s0, r), steps);
    ServingRun(r, s0, Begins(s0, r), steps);
  }

  /** A sleeping controller is woken by a worker exactly if that worker is the last to arrive. */
  lemma LastArrivalWakes(s: State, i: nat, ok: bool)
    requires Reachable(s) && s.control.Sleeping? && CanWork(s, i)
    ensures var t := WorkerMoves(s, i, ok);
      && (t.control == s.control || t.control == Woken(s.control.call))
      && (t.control.Woken? <==> Parked(t))
  {
    ReachableInv(s);
    WorkInv(s, i, ok);
    var t := WorkerMoves(s, i, ok);
    CountExtremes(t.workers, Waiting(t.barrier.active));
  }
}
