/** What the invariant means for the callers of the pool. */
module PoolSafety {
  import opened Barrier
  import opened Placement
  import opened Pool
  import opened PoolInvariant

  /** Exactly once per release: each worker is at most one callback behind the releases since it was
      added, and has made exactly one for each whenever the count of arrivals is complete. */
  lemma ExactlyOnce(s: State, i: nat)
    requires Reachable(s) && i < |s.workers|
    ensures s.workers[i].calls + s.workers[i].born <= s.releases <= s.workers[i].calls + s.workers[i].born + 1
    ensures s.barrier.arrived >= |s.workers| ==> s.workers[i].calls + s.workers[i].born == s.releases
  {
    ReachableInv(s);
    assert Ledger(s);
    if s.barrier.arrived >= |s.workers| { FullCountParks(s); }
  }

  /** A worker that came round early waits for the next release, whatever tokens are out. */
  lemma EarlyWorkerWaits(s: State, i: nat)
    requires Reachable(s) && i < |s.workers| && s.workers[i].pc == Waiting(s.barrier.active)
    ensures !CanWork(s, i)
  {
    ReachableInv(s);
  }

  /** A worker held by the other semaphore always finds its token once the posts are done. */
  lemma HeldWorkerLeaves(s: State, i: nat)
    requires Inv(s) && MutexFree(s)
    requires i < |s.workers| && !s.workers[i].pc.Exited? && s.workers[i].pc != Waiting(s.barrier.active)
    ensures CanWork(s, i)
  {
    CountExtremes(s.workers, Waiting(1 - s.barrier.active));
  }

  lemma UnparkedWorker(s: State) returns (i: nat)
    requires Inv(s) && s.control.Sleeping?
    ensures i < |s.workers| && !s.workers[i].pc.Exited? && s.workers[i].pc != Waiting(s.barrier.active)
  {
    CountExtremes(s.workers, Waiting(s.barrier.active));
    i :| 0 <= i < |s.workers| && s.workers[i].pc != Waiting(s.barrier.active);
    assert PlacedRight(s, i);
  }

  /** While the controller sleeps, the count is incomplete and some worker can move: no wakeup is lost. */
  lemma NoLostWakeup(s: State) returns (i: nat)
    requires Reachable(s) && s.control.Sleeping?
    ensures s.barrier.arrived < s.barrier.threads
    ensures CanWork(s, i)
  {
    ReachableInv(s);
    i := UnparkedWorker(s);
    HeldWorkerLeaves(s, i);
  }

  /** The assertion in a release fails exactly when some worker has not come back to the barrier. */
  lemma ReleaseFailsIff(s: State)
    requires Reachable(s) && s.control.Releasing?
    ensures Proceeds(s).control.AssertFailed? <==> !Parked(s)
  {
    ReachableInv(s);
    CountExtremes(s.workers, Waiting(s.barrier.active));
  }

  /** Once a wait has returned, nobody moves until the next release or the next new thread, and the
      count stays complete. */
  lemma IdlenessIsStable(s: State, i: nat)
    requires Reachable(s) && s.settled
    ensures !CanWork(s, i)
    ensures s.control.Idle? ==> s.barrier.arrived == s.barrier.threads == |s.workers|
  {
    ReachableInv(s);
    ParkedStay(s, i);
    CountExtremes(s.workers, Waiting(s.barrier.active));
  }

  /** The caller wakes the workers only when its earlier calls left the pool known to be idle. */
  predicate Disciplined(s: State, steps: seq<Step>)
    requires IsRun(s, steps)
    decreases |steps|
  {
    steps == [] || (
      && (steps[0] == Begin(ReqWakeup) || steps[0] == Begin(ReqWakeupAndWait) ==> s.settled)
      && Disciplined(Do(s, steps[0]), steps[1..]))
  }

  ghost predicate Calm(s: State) {
    !s.control.AssertFailed? && (s.control.Releasing? ==> Parked(s))
  }

  lemma CalmStep(s: State, step: Step)
    requires Inv(s) && Calm(s) && Can(s, step)
    requires step == Begin(ReqWakeup) || step == Begin(ReqWakeupAndWait) ==> s.settled
    ensures Calm(Do(s, step))
  {
    hide Count, Total;
    StepInv(s, step);
    if step.Work? && s.control.Releasing? { ParkedStay(s, step.i); }
    if step.Proceed? && s.control.Releasing? { CountExtremes(s.workers, Waiting(s.barrier.active)); }
  }

  /** With that discipline no release assertion ever fails. */
  lemma {:induction false} AssertionsHold(s: State, steps: seq<Step>)
    requires Inv(s) && Calm(s)
    requires IsRun(s, steps) && Disciplined(s, steps)
    ensures Calm(After(s, steps))
    decreases |steps|
  {
    if steps != [] {
      CalmStep(s, steps[0]);
      StepInv(s, steps[0]);
      AssertionsHold(Do(s, steps[0]), steps[1..]);
    }
  }

  lemma AssertionsHoldFromStart(s0: State, steps: seq<Step>)
    requires IsInitial(s0) && IsRun(s0, steps) && Disciplined(s0, steps)
    ensures !After(s0, steps).control.AssertFailed?
  {
    InitialInv(s0);
    AssertionsHold(s0, steps);
  }

  function Repeat(step: Step, n: nat): (steps: seq<Step>)
    ensures |steps| == n
  {
    if n == 0 then [] else [step] + Repeat(step, n - 1)
  }

  /** A release finishing its posts before any worker moves leaves what the barrier's own method does. */
  lemma {:induction false} PostsRun(s: State)
    requires s.control.Posting? && s.control.call == Wakeup
    ensures IsRun(s, Repeat(Proceed, s.control.left + 1))
    ensures var t := After(s, Repeat(Proceed, s.control.left + 1));
      t == s.(control := Idle, barrier := Posted(s.barrier, s.control.left))
    decreases s.control.left
  {
    var left := s.control.left;
    var steps := Repeat(Proceed, left + 1);
    assert steps[1..] == Repeat(Proceed, left);
    if left > 0 {
      PostsRun(Proceeds(s));
    } else {
      assert steps[1..] == [];
      assert IsRun(Proceeds(s), steps[1..]);
    }
  }

  /** Without the discipline it can fail: from any idle pool with a worker, two wakeups in a row. */
  lemma DoubleWakeupFails(s: State) returns (steps: seq<Step>)
    requires Reachable(s) && s.control.Idle? && Parked(s) && s.workers != []
    ensures IsRun(s, steps) && After(s, steps).control.AssertFailed?
  {
    ReachableInv(s);
    CountExtremes(s.workers, Waiting(s.barrier.active));
    var a := [Begin(ReqWakeup), Proceed];
    var s1 := Do(s, a[0]);
    var s2 := Do(s1, a[1]);
    RunOfTwo(s, a[0], a[1]);
    PostsRun(s2);
    var b := Repeat(Proceed, s2.control.left + 1);
    var s3 := After(s2, b);
    RunJoin(s, a, b);
    RunOfTwo(s3, a[0], a[1]);
    RunJoin(s, a + b, a);
    steps := a + b + a;
  }
}
