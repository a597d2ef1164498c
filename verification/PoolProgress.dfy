/** Every call returns: a measure that each step inside a call lowers, and no way to get stuck. */
module PoolProgress {
  import opened Barrier
  import opened Placement
  import opened Pool
  import opened PoolInvariant
  import opened PoolSafety

  /** The steps a worker may still take before it waits on the active semaphore; an arrival counts
      twice because it may wake the controller. */
  function Rank(pc: Pc, active: Index): nat {
    match pc
    case Starting => 3
    case Entering => 2
    case Waiting(sem) => if sem == active then 0 else 5
    case Checking => 4
    case Calling => 3
    case Exited => 0
  }

  function TotalRank(ws: seq<Worker>, active: Index): (n: nat)
    ensures n <= 5 * |ws|
  {
    if ws == [] then 0 else TotalRank(ws[..|ws| - 1], active) + Rank(ws[|ws| - 1].pc, active)
  }

  lemma {:induction false} RankUpdate(ws: seq<Worker>, i: nat, w: Worker, active: Index)
    requires i < |ws|
    ensures TotalRank(ws[i := w], active) + Rank(ws[i].pc, active) == TotalRank(ws, active) + Rank(w.pc, active)
    decreases |ws|
  {
    var last := |ws| - 1;
    if i == last {
      assert ws[i := w][..last] == ws[..last];
    } else {
      RankUpdate(ws[..last], i, w, active);
      assert ws[i := w][..last] == ws[..last][i := w];
    }
  }

  lemma RankAppend(ws: seq<Worker>, w: Worker, active: Index)
    ensures TotalRank(ws + [w], active) == TotalRank(ws, active) + Rank(w.pc, active)
  {
    assert (ws + [w])[..|ws|] == ws;
  }

  lemma {:induction false} RankZero(ws: seq<Worker>, active: Index)
    ensures TotalRank(ws, active) == 0 <==>
      forall i :: 0 <= i < |ws| ==> ws[i].pc == Waiting(active) || ws[i].pc.Exited?
  {
    if ws != [] {
      var last := |ws| - 1;
      RankZero(ws[..last], active);
      assert forall i :: 0 <= i < last ==> ws[..last][i] == ws[i];
    }
  }

  /** The weight of what a call does once its wait has returned, for n workers. */
  function ReturnWeight(call: Call, n: nat): nat {
    match call
    case Add(_) => 6 * n + 5
    case Destroy => 7 * n + 4
    case _ => 0
  }

  /** The weight of a release from its first post on. */
  function PostWeight(call: Call, n: nat): nat {
    match call
    case WakeupAndWait => 2
    case Drop(_) => 3
    case Destroy => n + 2
    case _ => 1
  }

  function Weight(c: Control, n: nat): nat {
    match c
    case Idle => 0
    case Locking(call) => 3 + ReturnWeight(call, n)
    case Sleeping(call) => 1 + ReturnWeight(call, n)
    case Woken(call) => 2 + ReturnWeight(call, n)
    case Releasing(call) => 6 * n + 1 + PostWeight(call, n)
    case Posting(call, left) => left + PostWeight(call, n)
    case Launching(_) => 6 * n + 18
    case Inspecting(_) => 6 * n + 5
    case Shrinking(_) => 2
    case Joining => 1
    case Stopping => 7 * n + 4
    case JoiningAll(k) => if k <= n then n - k + 1 else 0
    case Destroyed => 0
    case AssertFailed => 0
  }

  function Measure(s: State): nat {
    TotalRank(s.workers, s.barrier.active) + Weight(s.control, |s.workers|)
  }

  lemma WorkMeasure(s: State, i: nat, ok: bool)
    requires Inv(s) && CanWork(s, i)
    ensures Measure(WorkerMoves(s, i, ok)) < Measure(s)
  {
    hide Count, Total, TotalRank;
    var t := WorkerMoves(s, i, ok);
    RankUpdate(s.workers, i, t.workers[i], s.barrier.active);
  }

  lemma ReleaseRank(ws: seq<Worker>, active: Index)
    requires forall i :: 0 <= i < |ws| ==> ws[i].pc == Waiting(active)
    ensures TotalRank(ws, active) == 0 && TotalRank(ws, 1 - active) == 5 * |ws|
  {
    if ws != [] {
      ReleaseRank(ws[..|ws| - 1], active);
    }
  }

  lemma ReleaseFails(s: State)
    requires Inv(s) && s.control.Releasing? && !Proceeds(s).control.AssertFailed?
    ensures Parked(s)
  {
    CountExtremes(s.workers, Waiting(s.barrier.active));
  }

  lemma ReleaseMeasure(s: State)
    requires Inv(s) && s.control.Releasing?
    ensures Measure(Proceeds(s)) < Measure(s)
  {
    hide Count, Total, TotalRank, Flags, Ledger, Usage;
    if !Proceeds(s).control.AssertFailed? {
      ReleaseFails(s);
      ReleaseRank(s.workers, s.barrier.active);
    }
  }

  lemma InspectMeasure(s: State)
    requires s.control.Inspecting? && s.workers != []
    ensures Measure(Proceeds(s)) < Measure(s)
  {
    hide TotalRank;
    var last := |s.workers| - 1;
    if !s.workers[last].healthy {
      RankUpdate(s.workers, last, Proceeds(s).workers[last], s.barrier.active);
    }
  }

  lemma JoinMeasure(s: State)
    requires s.control.Joining? && CanProceed(s)
    ensures Measure(Proceeds(s)) < Measure(s)
  {
    hide TotalRank;
    var last := |s.workers| - 1;
    RankAppend(s.workers[..last], s.workers[last], s.barrier.active);
    assert s.workers == s.workers[..last] + [s.workers[last]];
  }

  /** Going to sleep or returning from a wait leaves less to do than the wait itself. */
  lemma WaitMeasure(s: State, call: Call)
    ensures var w := Weight(WaitOrReturn(s, call).control, |s.workers|);
      w <= 1 + ReturnWeight(call, |s.workers|)
    ensures WaitOrReturn(s, call).workers == s.workers && WaitOrReturn(s, call).barrier == s.barrier
  {
  }

  lemma PostMeasure(s: State)
    requires s.control.Posting?
    ensures Measure(Proceeds(s)) < Measure(s)
  {
    hide TotalRank, WaitOrReturn;
    if s.control.left == 0 { WaitMeasure(s, s.control.call); }
  }

  lemma LockMeasure(s: State)
    requires s.control.Locking? || s.control.Woken?
    ensures Measure(Proceeds(s)) < Measure(s)
  {
    hide TotalRank, WaitOrReturn, ReturnWeight;
    WaitMeasure(s, s.control.call);
  }

  lemma EndMeasure(s: State)
    requires Phase(s) && CanProceed(s)
    requires s.control.Shrinking? || s.control.Stopping? || s.control.JoiningAll?
    ensures Measure(Proceeds(s)) < Measure(s)
  {
    hide TotalRank;
  }

  lemma ProceedMeasure(s: State)
    requires Inv(s) && CanProceed(s)
    ensures Measure(Proceeds(s)) < Measure(s)
  {
    match s.control
    case Locking(_) => LockMeasure(s);
    case Woken(_) => LockMeasure(s);
    case Posting(_, _) => PostMeasure(s);
    case Releasing(_) => ReleaseMeasure(s);
    case Inspecting(_) => InspectMeasure(s);
    case Joining => JoinMeasure(s);
    case _ => EndMeasure(s);
  }

  /** Every step inside a call lowers the measure, except that a spurious wakeup raises it by one. */
  lemma StepMeasure(s: State, step: Step)
    requires Inv(s) && Can(s, step) && !step.Begin?
    ensures step.Spurious? ==> Measure(Do(s, step)) == Measure(s) + 1
    ensures !step.Spurious? ==> Measure(Do(s, step)) < Measure(s)
  {
    hide TotalRank;
    match step
    case Work(i, ok) => WorkMeasure(s, i, ok);
    case Proceed => ProceedMeasure(s);
    case Launch(ok) => RankAppend(s.workers, Launches(s, ok).workers[|s.workers|], s.barrier.active);
    case LaunchFails =>
    case Spurious =>
  }

  predicate NoCalls(steps: seq<Step>) {
    forall k :: 0 <= k < |steps| ==> !steps[k].Begin?
  }

  function SpuriousIn(steps: seq<Step>): nat {
    if steps == [] then 0 else (if steps[0].Spurious? then 1 else 0) + SpuriousIn(steps[1..])
  }

  /** A call, together with everything the workers do meanwhile, takes a bounded number of steps:
      linear in the number of workers, plus two for each spurious wakeup. */
  lemma {:induction false} CallsAreBounded(s: State, steps: seq<Step>)
    requires Inv(s) && IsRun(s, steps) && NoCalls(steps)
    ensures |steps| + Measure(After(s, steps)) <= Measure(s) + 2 * SpuriousIn(steps)
    decreases |steps|
  {
    if steps != [] {
      assert !steps[0].Begin?;
      StepInv(s, steps[0]);
      StepMeasure(s, steps[0]);
      assert forall k :: 0 <= k < |steps| - 1 ==> steps[1..][k] == steps[k + 1];
      CallsAreBounded(Do(s, steps[0]), steps[1..]);
    }
  }

  lemma CountWithin(ws: seq<Worker>, pc: Pc)
    ensures Count(ws, pc) <= |ws|
  {
  }

  lemma MeasureIsLinear(s: State)
    requires Inv(s)
    ensures Measure(s) <= 12 * |s.workers| + 18
  {
    hide Count, Total, TotalRank;
    if s.control.Posting? {
      CountWithin(s.workers, Waiting(1 - s.barrier.active));
    }
  }

  predicate Resting(c: Control) {
    c.Idle? || c.Destroyed? || c.AssertFailed?
  }

  /** Inside a call some step is always possible without a spurious wakeup. */
  lemma CallsMoveOn(s: State) returns (step: Step)
    requires Inv(s) && !Resting(s.control)
    ensures Can(s, step) && !step.Begin? && !step.Spurious?
  {
    hide Count, Total;
    match s.control
    case Sleeping(_) =>
      var i := UnparkedWorker(s);
      HeldWorkerLeaves(s, i);
      step := Work(i, true);
    case Launching(_) => step := Launch(true);
    case Joining =>
      var last := |s.workers| - 1;
      assert PlacedRight(s, last);
      if s.workers[last].pc.Exited? {
        step := Proceed;
      } else {
        HeldWorkerLeaves(s, last);
        step := Work(last, true);
      }
    case JoiningAll(k) =>
      if k == |s.workers| || s.workers[k].pc.Exited? {
        step := Proceed;
      } else {
        assert PlacedRight(s, k);
        HeldWorkerLeaves(s, k);
        step := Work(k, true);
      }
    case _ => step := Proceed;
  }

  /** Every call returns: its runs are bounded, and a run that cannot go on has reached the end of the call. */
  lemma EveryCallReturns(s: State, steps: seq<Step>)
    requires Reachable(s) && IsRun(s, steps) && NoCalls(steps)
    ensures |steps| <= 12 * |s.workers| + 18 + 2 * SpuriousIn(steps)
    ensures !Resting(After(s, steps).control) ==>
      exists step :: Can(After(s, steps), step) && !step.Begin? && !step.Spurious?
  {
    ReachableInv(s);
    CallsAreBounded(s, steps);
    MeasureIsLinear(s);
    RunInv(s, steps);
    if !Resting(After(s, steps).control) {
      var step := CallsMoveOn(After(s, steps));
    }
  }

  /** Between calls the pool becomes idle by itself: while the count is incomplete some worker moves,
      each move lowers the rank, and the rank is zero exactly when the count is complete. */
  lemma PoolBecomesIdle(s: State)
    requires Reachable(s) && s.control.Idle?
    ensures TotalRank(s.workers, s.barrier.active) == 0 <==> s.barrier.arrived == s.barrier.threads
    ensures s.barrier.arrived != s.barrier.threads ==> exists i :: CanWork(s, i)
    ensures forall i: nat, ok: bool | CanWork(s, i) ::
      TotalRank(WorkerMoves(s, i, ok).workers, s.barrier.active) < TotalRank(s.workers, s.barrier.active)
  {
    hide TotalRank, Count;
    ReachableInv(s);
    RankZero(s.workers, s.barrier.active);
    CountExtremes(s.workers, Waiting(s.barrier.active));
    forall j | 0 <= j < |s.workers|
      ensures !s.workers[j].pc.Exited?
    {
      assert PlacedRight(s, j);
    }
    if s.barrier.arrived != s.barrier.threads {
      var i :| 0 <= i < |s.workers| && s.workers[i].pc != Waiting(s.barrier.active);
      HeldWorkerLeaves(s, i);
    }
    forall i: nat, ok: bool | CanWork(s, i)
      ensures TotalRank(WorkerMoves(s, i, ok).workers, s.barrier.active) < TotalRank(s.workers, s.barrier.active)
    {
      RankUpdate(s.workers, i, WorkerMoves(s, i, ok).workers[i], s.barrier.active);
    }
  }
}
