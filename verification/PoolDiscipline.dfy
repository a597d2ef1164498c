/** The callers' discipline is needed: a wakeup requested while the pool is not known to be idle can
    fail its assertion, whatever the calls before it were. */
module PoolDiscipline {
  import opened Pool
  import opened PoolInvariant

  /** The steps of the controlling thread in a run. */
  function Controlling(steps: seq<Step>): seq<Step> {
    if steps == [] then []
    else if steps[|steps| - 1].Work? then Controlling(steps[..|steps| - 1])
    else Controlling(steps[..|steps| - 1]) + [steps[|steps| - 1]]
  }

  lemma ControllingAppend(steps: seq<Step>, step: Step)
    ensures Controlling(steps + [step]) == Controlling(steps) + if step.Work? then [] else [step]
  {
    assert (steps + [step])[..|steps|] == steps;
  }

  /** Between calls, and in calls that have released the workers and do not wait for them. */
  predicate Loose(c: Control) {
    match c
    case Idle => true
    case Launching(_) => true
    case Shrinking(_) => true
    case Joining => true
    case Posting(call, _) => !call.WakeupAndWait? && !call.Destroy?
    case Releasing(call) => !call.Drop? && !call.Destroy?
    case _ => false
  }

  /** A call that has waited knows that the pool is idle. */
  predicate Known(s: State) {
    s.control.Inspecting? || s.control.Stopping? || (s.control.Releasing? && !Loose(s.control)) ==> s.settled
  }

  lemma KnownStep(s: State, step: Step)
    requires Known(s) && Can(s, step)
    ensures Known(Do(s, step))
  {
    hide CanWork;
  }

  /** From s to Do(s, step) the workers are released. */
  predicate Lets(s: State, step: Step) {
    step.Proceed? && s.control.Releasing? && s.barrier.arrived == s.barrier.threads
  }

  /** Only a release makes a pool that is known to be idle one that is not. */
  lemma LooseBefore(s: State, step: Step)
    requires Known(s) && Can(s, step) && !Lets(s, step)
    requires var t := Do(s, step); Loose(t.control) && !t.settled
    ensures Loose(s.control) && !s.settled
  {
    hide CanWork;
  }

  predicate Removed(s: State, i: nat) {
    Dropping(s.control) && i == |s.workers| - 1
  }

  /** v is what s would be if no worker had moved since the last release, but for one being removed. */
  ghost predicate Lags(s: State, v: State) {
    var a := s.barrier.active;
    && v == s.(barrier := v.barrier, workers := v.workers)
    && v.barrier.active == a && v.barrier.threads == s.barrier.threads
    && s.barrier.Tokens(1 - a) <= v.barrier.Tokens(1 - a)
    && |v.workers| == |s.workers|
    && forall i :: 0 <= i < |s.workers| ==>
         if Removed(s, i) then v.workers[i] == s.workers[i] else v.workers[i].pc == Waiting(1 - a)
  }

  lemma ReleaseLags(s: State)
    requires Inv(s) && Lets(s, Proceed)
    ensures Lags(Proceeds(s), Proceeds(s))
  {
    hide Count;
    CountExtremes(s.workers, Waiting(s.barrier.active));
  }

  /** A worker moves and its laggard stays where it is. */
  lemma OtherWorkLags(s: State, v: State, i: nat, ok: bool)
    requires Inv(s) && Lags(s, v) && Loose(s.control) && CanWork(s, i) && !Removed(s, i)
    ensures Lags(WorkerMoves(s, i, ok), v)
  {
    hide Count, Phase, Ledger, Usage, Flags;
  }

  /** The worker being removed moves in both. */
  lemma RemovedWorkLags(s: State, v: State, i: nat, ok: bool)
    requires Inv(s) && Lags(s, v) && Loose(s.control) && CanWork(s, i) && Removed(s, i)
    ensures CanWork(v, i) && Lags(WorkerMoves(s, i, ok), WorkerMoves(v, i, ok))
  {
    hide Count, Phase, Ledger, Usage;
    assert PlacedRight(s, i);
    assert v.workers[i] == s.workers[i];
  }

  lemma PostLags(s: State, v: State)
    requires Lags(s, v) && s.control.Posting? && Loose(s.control)
    ensures Lags(Proceeds(s), Proceeds(v))
  {
  }

  lemma RemovalLags(s: State, v: State)
    requires Sizes(s) && Lags(s, v) && CanProceed(s) && (s.control.Shrinking? || s.control.Joining?)
    ensures CanProceed(v) && Lags(Proceeds(s), Proceeds(v))
  {
  }

  lemma ProceedLags(s: State, v: State)
    requires Inv(s) && Lags(s, v) && CanProceed(s) && !Lets(s, Proceed)
    requires Loose(s.control) && Loose(Proceeds(s).control)
    ensures CanProceed(v) && Lags(Proceeds(s), Proceeds(v))
  {
    if s.control.Posting? {
      PostLags(s, v);
    } else {
      RemovalLags(s, v);
    }
  }

  lemma BeginLags(s: State, v: State, r: Request)
    requires Lags(s, v) && CanBegin(s, r)
    ensures CanBegin(v, r) && Lags(Begins(s, r), Begins(v, r))
  {
    assert v.cores == s.cores && v.noWorkers == s.noWorkers;
  }

  lemma LaunchFailsLags(s: State, v: State)
    requires Lags(s, v) && s.control.Launching?
    ensures v.control.Launching? && Lags(LaunchFailed(s), LaunchFailed(v))
  {
  }

  lemma {:induction false} RunSplit(s: State, a: seq<Step>, b: seq<Step>)
    requires IsRun(s, a + b)
    ensures IsRun(s, a) && IsRun(After(s, a), b) && After(s, a + b) == After(After(s, a), b)
    decreases |a|
  {
    if a == [] {
      assert a + b == b;
    } else {
      assert (a + b)[1..] == a[1..] + b;
      RunSplit(Do(s, a[0]), a[1..], b);
    }
  }

  lemma RunAppend(s: State, steps: seq<Step>, step: Step)
    requires IsRun(s, steps) && Can(After(s, steps), step)
    ensures IsRun(s, steps + [step]) && After(s, steps + [step]) == Do(After(s, steps), step)
  {
    RunOfOne(After(s, steps), step);
    RunJoin(s, steps, [step]);
  }

  lemma NewPool(s0: State)
    requires IsInitial(s0)
    ensures Known(s0) && Inv(s0) && IsRun(s0, []) && After(s0, []) == s0 && s0.settled
  {
    InitialInv(s0);
  }

  lemma LastStep(s: State, step: Step)
    requires IsRun(s, [step])
    ensures Can(s, step) && After(s, [step]) == Do(s, step)
  {
    RunOfOne(s, step);
  }

  lemma LetsLag(s: State, step: Step)
    requires Inv(s) && Lets(s, step) && Can(s, step)
    ensures Lags(Do(s, step), Do(s, step))
  {
    ReleaseLags(s);
  }

  /** How the laggard follows one step: by the same step, or by standing still. */
  lemma LagStep(s: State, v: State, step: Step) returns (moved: bool)
    requires Inv(s) && Lags(s, v) && Can(s, step) && !Lets(s, step)
    requires Loose(s.control) && Loose(Do(s, step).control)
    ensures moved ==> Can(v, step) && Lags(Do(s, step), Do(v, step))
    ensures !moved ==> step.Work? && Lags(Do(s, step), v)
  {
    hide Inv, Lags, WorkerMoves, CanWork, Proceeds, CanProceed, Begins, CanBegin, LaunchFailed, Lets, Removed;
    moved := true;
    match step
    case Work(i, ok) =>
      if Removed(s, i) {
        RemovedWorkLags(s, v, i, ok);
      } else {
        OtherWorkLags(s, v, i, ok);
        moved := false;
      }
    case Proceed => ProceedLags(s, v);
    case Begin(r) => BeginLags(s, v, r);
    case LaunchFails => LaunchFailsLags(s, v);
    case _ =>
  }

  /** Another run in which the controller does the same and the workers have lagged behind since the
      last release. */
  lemma {:induction false} Laggard(s0: State, steps: seq<Step>) returns (other: seq<Step>)
    requires IsInitial(s0) && IsRun(s0, steps)
    ensures Known(After(s0, steps)) && Inv(After(s0, steps))
    ensures IsRun(s0, other) && Controlling(other) == Controlling(steps)
    ensures var s := After(s0, steps); Loose(s.control) && !s.settled ==> Lags(s, After(s0, other))
    decreases |steps|
  {
    hide Inv, Do, Can, Lags, IsInitial, IsRun, After, Loose, Known, Controlling;
    other := steps;
    if steps == [] {
      NewPool(s0);
    } else {
      var init, step := steps[..|steps| - 1], steps[|steps| - 1];
      assert steps == init + [step];
      RunSplit(s0, init, [step]);
      var s := After(s0, init);
      LastStep(s, step);
      var o := Laggard(s0, init);
      KnownStep(s, step);
      StepInv(s, step);
      ControllingAppend(init, step);
      if Loose(Do(s, step).control) && !Do(s, step).settled {
        if Lets(s, step) {
          LetsLag(s, step);
        } else {
          LooseBefore(s, step);
          var moved := LagStep(s, After(s0, o), step);
          if moved {
            RunAppend(s0, o, step);
            ControllingAppend(o, step);
            other := o + [step];
          } else {
            other := o;
            assert Controlling(init) + [] == Controlling(init);
          }
        }
      }
    }
  }

  /** The wakeup r is made after the run, and its assertion fails. */
  predicate FailsAfter(s0: State, steps: seq<Step>, r: Request) {
    IsRun(s0, steps + [Begin(r), Proceed]) && After(s0, steps + [Begin(r), Proceed]).control.AssertFailed?
  }

  /** A wakeup from a pool with a worker that is not known to be idle: in some run with the very same
      steps of the controlling thread its assertion fails. */
  lemma DisciplineIsNeeded(s0: State, steps: seq<Step>, r: Request) returns (other: seq<Step>)
    requires IsInitial(s0) && IsRun(s0, steps) && (r.ReqWakeup? || r.ReqWakeupAndWait?)
    requires var s := After(s0, steps); s.control.Idle? && !s.settled && s.workers != []
    ensures Controlling(other) == Controlling(steps)
    ensures FailsAfter(s0, other, r)
  {
    hide Count;
    other := Laggard(s0, steps);
    var v := After(s0, other);
    InitialInv(s0);
    RunInv(s0, other);
    assert v.workers[0].pc == Waiting(1 - v.barrier.active);
    CountExtremes(v.workers, Waiting(v.barrier.active));
    RunOfTwo(v, Begin(r), Proceed);
    RunJoin(s0, other, [Begin(r), Proceed]);
  }

  /** Another run between calls that the controlling thread cannot tell from the first. */
  ghost predicate Alike(s0: State, steps: seq<Step>, other: seq<Step>) {
    IsRun(s0, other) && Controlling(other) == Controlling(steps) && After(s0, other).control.Idle?
  }

  predicate IsSettled(s: State) {
    s.settled || s.workers == []
  }

  lemma StepsOfTwo(s: State, a: Step, b: Step)
    requires IsRun(s, [a, b])
    ensures Can(s, a) && Can(Do(s, a), b) && After(s, [a, b]) == Do(Do(s, a), b)
  {
    assert [a, b][1..] == [b];
    LastStep(Do(s, a), b);
  }

  /** From a pool that is known to be idle no assertion fails. */
  lemma SettledIsSafe(s0: State, steps: seq<Step>, r: Request)
    requires IsInitial(s0) && IsRun(s0, steps) && IsSettled(After(s0, steps))
    requires r.ReqWakeup? || r.ReqWakeupAndWait?
    ensures !FailsAfter(s0, steps, r)
  {
    hide Count;
    InitialInv(s0);
    RunInv(s0, steps);
    var s := After(s0, steps);
    CountExtremes(s.workers, Waiting(s.barrier.active));
    if IsRun(s0, steps + [Begin(r), Proceed]) {
      RunSplit(s0, steps, [Begin(r), Proceed]);
      StepsOfTwo(s, Begin(r), Proceed);
    }
  }

  lemma FailsBetweenCalls(s0: State, steps: seq<Step>, r: Request)
    requires FailsAfter(s0, steps, r)
    ensures IsRun(s0, steps) && After(s0, steps).control.Idle?
  {
    RunSplit(s0, steps, [Begin(r), Proceed]);
    StepsOfTwo(After(s0, steps), Begin(r), Proceed);
  }

  /** Judged by what the controlling thread has done, a wakeup is safe exactly if that leaves the pool
      known to be idle, or without workers. */
  lemma WakeupIsSafeIff(s0: State, steps: seq<Step>, r: Request)
    requires IsInitial(s0) && (r.ReqWakeup? || r.ReqWakeupAndWait?)
    ensures (forall other | Alike(s0, steps, other) :: !FailsAfter(s0, other, r))
      <==> (forall other | Alike(s0, steps, other) :: IsSettled(After(s0, other)))
  {
    hide IsInitial, IsRun, After, FailsAfter, Controlling;
    forall other | Alike(s0, steps, other)
      ensures IsSettled(After(s0, other)) ==> !FailsAfter(s0, other, r)
      ensures !IsSettled(After(s0, other)) ==> exists o :: Alike(s0, steps, o) && FailsAfter(s0, o, r)
    {
      if IsSettled(After(s0, other)) {
        SettledIsSafe(s0, other, r);
      } else {
        var o := DisciplineIsNeeded(s0, other, r);
        FailsBetweenCalls(s0, o, r);
      }
    }
  }

  // ----- what the caller knows

  /** Whether a call that returned `status` leaves the pool known to be idle. */
  function LeavesSettled(r: Request, status: Status, before: bool): bool {
    match r
    case ReqWait => true
    case ReqWakeupAndWait => true
    case ReqWakeup => false
    case ReqDestroy => false
    case ReqAdd(_) =>
      match status
      case Ok => true
      case InitFailed => false
      case LaunchError => before
      case InvalidArguments => before
  }

  predicate CallOf(r: Request, call: Call) {
    match call
    case WaitIdle => r.ReqWait?
    case Wakeup => r.ReqWakeup?
    case WakeupAndWait => r.ReqWakeupAndWait?
    case Add(_) => r.ReqAdd?
    case Drop(_) => r.ReqAdd?
    case Destroy => false
  }

  predicate Waits(call: Call) {
    call.WaitIdle? || call.WakeupAndWait? || call.Add?
  }

  /** The call r is in progress, or has returned. */
  predicate Midway(r: Request, before: bool, s: State) {
    match s.control
    case Idle => s.settled == LeavesSettled(r, s.status, before)
    case Locking(call) => CallOf(r, call) && Waits(call)
    case Sleeping(call) => CallOf(r, call) && Waits(call)
    case Woken(call) => CallOf(r, call) && Waits(call)
    case Releasing(call) => CallOf(r, call) && !call.WaitIdle? && !call.Add?
    case Posting(call, _) => CallOf(r, call) && !call.WaitIdle? && !call.Add? && !s.settled
    case Launching(_) => r.ReqAdd? && s.settled == before
    case Inspecting(_) => r.ReqAdd? && s.settled
    case Shrinking(_) => r.ReqAdd? && !s.settled
    case Joining => r.ReqAdd? && !s.settled
    case AssertFailed => true
    case _ => false
  }

  lemma MidwayStep(r: Request, before: bool, s: State, step: Step)
    requires Midway(r, before, s) && Can(s, step) && !step.Begin?
    ensures Midway(r, before, Do(s, step))
  {
    hide CanWork;
  }

  lemma {:induction false} MidwayRun(r: Request, before: bool, s: State, steps: seq<Step>)
    requires Midway(r, before, s) && IsRun(s, steps)
    requires forall k :: 0 <= k < |steps| ==> !steps[k].Begin?
    ensures Midway(r, before, After(s, steps))
    decreases |steps|
  {
    hide Midway, Do, Can;
    if steps != [] {
      assert !steps[0].Begin?;
      MidwayStep(r, before, s, steps[0]);
      assert forall k :: 0 <= k < |steps| - 1 ==> steps[1..][k] == steps[k + 1];
      MidwayRun(r, before, Do(s, steps[0]), steps[1..]);
    }
  }

  lemma MidwayStart(s: State, r: Request)
    requires CanBegin(s, r) && !r.ReqDestroy?
    ensures Midway(r, s.settled, Begins(s, r))
  {
  }

  /** The caller can tell from its calls and what they return whether the pool is known to be idle. */
  lemma CallLeavesSettled(s: State, r: Request, steps: seq<Step>)
    requires CanBegin(s, r) && !r.ReqDestroy?
    requires IsRun(Begins(s, r), steps) && forall k :: 0 <= k < |steps| ==> !steps[k].Begin?
    requires After(Begins(s, r), steps).control.Idle?
    ensures var t := After(Begins(s, r), steps); t.settled == LeavesSettled(r, t.status, s.settled)
  {
    hide Begins, CanBegin, LeavesSettled, IsRun, After;
    MidwayStart(s, r);
    MidwayRun(r, s.settled, Begins(s, r), steps);
  }
}
