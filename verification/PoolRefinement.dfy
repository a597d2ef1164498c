/** The combined call `release_and_wait` does nothing that `release_all` followed by `wait_for_all`
    could not have done. */
module PoolRefinement {
  import opened Pool

  /** The point of the two separate calls that a point of the combined call stands for. */
  function SplitControl(c: Control): Control {
    match c
    case Releasing(call) => if call.WakeupAndWait? then Releasing(Wakeup) else c
    case Posting(call, left) => if call.WakeupAndWait? then Posting(Wakeup, left) else c
    case Locking(call) => if call.WakeupAndWait? then Locking(WaitIdle) else c
    case Sleeping(call) => if call.WakeupAndWait? then Sleeping(WaitIdle) else c
    case Woken(call) => if call.WakeupAndWait? then Woken(WaitIdle) else c
    case _ => c
  }

  /** Everything but the position in the call is the same: semaphores, counts, workers, histories. */
  function SplitState(s: State): State {
    s.(control := SplitControl(s.control))
  }

  function SplitStep(s: State, step: Step): seq<Step> {
    if step == Begin(ReqWakeupAndWait) then [Begin(ReqWakeup)]
    else if step.Proceed? && s.control == Posting(WakeupAndWait, 0) then [Proceed, Begin(ReqWait), Proceed]
    else [step]
  }

  function SplitRun(s: State, steps: seq<Step>): seq<Step>
    requires IsRun(s, steps)
    decreases |steps|
  {
    if steps == [] then [] else SplitStep(s, steps[0]) + SplitRun(Do(s, steps[0]), steps[1..])
  }

  predicate UsesCombinedCall(steps: seq<Step>) {
    exists k :: 0 <= k < |steps| && steps[k] == Begin(ReqWakeupAndWait)
  }

  /** The end of the posts, then the separate wait. */
  lemma SplitLastPost(s: State)
    requires s.control == Posting(WakeupAndWait, 0)
    ensures IsRun(SplitState(s), [Proceed, Begin(ReqWait), Proceed])
    ensures After(SplitState(s), [Proceed, Begin(ReqWait), Proceed]) == SplitState(Proceeds(s))
  {
    var t0 := SplitState(s);
    var t1 := Do(t0, Proceed);
    var t2 := Do(t1, Begin(ReqWait));
    RunOfTwo(t0, Proceed, Begin(ReqWait));
    RunOfOne(t2, Proceed);
    RunJoin(t0, [Proceed, Begin(ReqWait)], [Proceed]);
    assert [Proceed, Begin(ReqWait)] + [Proceed] == [Proceed, Begin(ReqWait), Proceed];
  }

  lemma SplitWork(s: State, i: nat, ok: bool)
    requires CanWork(s, i)
    ensures CanWork(SplitState(s), i)
    ensures WorkerMoves(SplitState(s), i, ok) == SplitState(WorkerMoves(s, i, ok))
  {
  }

  lemma SplitProceeds(s: State)
    requires CanProceed(s) && s.control != Posting(WakeupAndWait, 0)
    ensures CanProceed(SplitState(s)) && Proceeds(SplitState(s)) == SplitState(Proceeds(s))
  {
  }

  /** One step of a run with the combined call, as one to three steps of a run without it. */
  lemma SplitOneStep(s: State, step: Step)
    requires Can(s, step)
    ensures IsRun(SplitState(s), SplitStep(s, step))
    ensures After(SplitState(s), SplitStep(s, step)) == SplitState(Do(s, step))
    ensures !UsesCombinedCall(SplitStep(s, step))
  {
    hide WorkerMoves, CanWork, Proceeds, CanProceed, IsRun, After;
    if step.Proceed? && s.control == Posting(WakeupAndWait, 0) {
      SplitLastPost(s);
    } else {
      if step.Work? { SplitWork(s, step.i, step.ok); }
      if step.Proceed? { SplitProceeds(s); }
      RunOfOne(SplitState(s), SplitStep(s, step)[0]);
    }
  }

  /** Every run maps to a run without the combined call, ending in the same semaphores, counts,
      workers and histories; between calls the two end states are the same. */
  lemma {:induction false} CombinedCallRefines(s: State, steps: seq<Step>)
    requires IsRun(s, steps)
    ensures IsRun(SplitState(s), SplitRun(s, steps))
    ensures After(SplitState(s), SplitRun(s, steps)) == SplitState(After(s, steps))
    ensures !UsesCombinedCall(SplitRun(s, steps))
    ensures After(s, steps).control.Idle? ==> After(SplitState(s), SplitRun(s, steps)) == After(s, steps)
    decreases |steps|
  {
    hide SplitStep, Do, Can;
    if steps != [] {
      var t := Do(s, steps[0]);
      var a, b := SplitStep(s, steps[0]), SplitRun(t, steps[1..]);
      SplitOneStep(s, steps[0]);
      CombinedCallRefines(t, steps[1..]);
      RunJoin(SplitState(s), a, b);
      forall k | 0 <= k < |a + b|
        ensures (a + b)[k] != Begin(ReqWakeupAndWait)
      {
        assert k < |a| ==> (a + b)[k] == a[k];
        assert k >= |a| ==> (a + b)[k] == b[k - |a|];
      }
    }
  }
}
