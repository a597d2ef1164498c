/** What every step of the pool keeps. */
module PoolInvariant {
  import opened Barrier
  import opened Placement
  import opened Pool

  function Count(ws: seq<Worker>, pc: Pc): (n: nat)
    ensures n <= |ws|
  {
    if ws == [] then 0 else Count(ws[..|ws| - 1], pc) + if ws[|ws| - 1].pc == pc then 1 else 0
  }

  lemma {:induction false} CountUpdate(ws: seq<Worker>, i: nat, w: Worker, pc: Pc)
    requires i < |ws|
    ensures Count(ws[i := w], pc) + (if ws[i].pc == pc then 1 else 0) == Count(ws, pc) + if w.pc == pc then 1 else 0
    decreases |ws|
  {
    var last := |ws| - 1;
    if i == last {
      assert ws[i := w][..last] == ws[..last];
    } else {
      CountUpdate(ws[..last], i, w, pc);
      assert ws[i := w][..last] == ws[..last][i := w];
    }
  }

  lemma CountAppend(ws: seq<Worker>, w: Worker, pc: Pc)
    ensures Count(ws + [w], pc) == Count(ws, pc) + if w.pc == pc then 1 else 0
  {
    assert (ws + [w])[..|ws|] == ws;
  }

  /** The count is full exactly when every worker is there, and zero exactly when none is. */
  lemma {:induction false} CountExtremes(ws: seq<Worker>, pc: Pc)
    ensures Count(ws, pc) == |ws| <==> forall i :: 0 <= i < |ws| ==> ws[i].pc == pc
    ensures Count(ws, pc) == 0 <==> forall i :: 0 <= i < |ws| ==> ws[i].pc != pc
  {
    if ws != [] {
      var last := |ws| - 1;
      CountExtremes(ws[..last], pc);
      assert forall i :: 0 <= i < last ==> ws[..last][i] == ws[i];
    }
  }

  function Left(control: Control): nat {
    if control.Posting? then control.left else 0
  }

  /** Tokens and waiters agree: none on the active semaphore, where the arrivals wait; on the other
      exactly one for each worker still to leave it, counting those the release has yet to post. */
  ghost predicate TokensAgree(s: State) {
    var b := s.barrier;
    && b.Tokens(b.active) == 0
    && b.arrived == Count(s.workers, Waiting(b.active))
    && b.Tokens(1 - b.active) + Left(s.control) == Count(s.workers, Waiting(1 - b.active))
  }

  /** The two counts of threads follow the list of workers, one ahead or behind inside add_worker. */
  ghost predicate Sizes(s: State) {
    var n := |s.workers|;
    match s.control
    case Launching(_) => s.noWorkers == n && s.barrier.threads == n + 1
    case Joining => 0 < n && s.noWorkers == s.barrier.threads == n - 1
    case _ => s.noWorkers == s.barrier.threads == n
  }

  /** Removing the last worker, from the moment its flag is cleared. */
  predicate Dropping(c: Control) {
    || (c.Releasing? && c.call.Drop?)
    || (c.Posting? && c.call.Drop?)
    || c.Shrinking?
    || c.Joining?
  }

  /** Shutting the pool down, from the moment its flag is cleared. */
  predicate Closing(c: Control) {
    || (c.Releasing? && c.call.Destroy?)
    || (c.Posting? && c.call.Destroy?)
    || c.JoiningAll?
    || c.Destroyed?
  }

  predicate Doomed(s: State, i: nat)
    requires i < |s.workers|
  {
    !s.poolRunning || !s.workers[i].running
  }

  /** A worker about to exit is parked until the release and then only leaves; no other worker exits. */
  predicate PlacedRight(s: State, i: nat)
    requires i < |s.workers|
  {
    var pc := s.workers[i].pc;
    if Doomed(s, i) then
      if s.control.Releasing? then pc == Waiting(s.barrier.active)
      else pc == Waiting(1 - s.barrier.active) || pc.Checking? || pc.Exited?
    else !pc.Exited?
  }

  ghost predicate Flags(s: State) {
    && (s.poolRunning <==> !Closing(s.control))
    && (Dropping(s.control) ==> s.workers != [])
    && (forall i :: 0 <= i < |s.workers| ==> (s.workers[i].running <==> !(Dropping(s.control) && i == |s.workers| - 1)))
    && (forall i :: 0 <= i < |s.workers| ==> PlacedRight(s, i))
  }

  /** One release still to be answered by a callback (or an exit). */
  function Owes(pc: Pc, active: Index): nat {
    if pc == Waiting(1 - active) || pc.Checking? || pc.Calling? || pc.Exited? then 1 else 0
  }

  ghost predicate Ledger(s: State) {
    forall i :: 0 <= i < |s.workers| ==>
      s.workers[i].calls + s.workers[i].born + Owes(s.workers[i].pc, s.barrier.active) == s.releases
  }

  /** Every worker waits on the active semaphore. */
  ghost predicate Parked(s: State) {
    forall i :: 0 <= i < |s.workers| ==> s.workers[i].pc == Waiting(s.barrier.active)
  }

  ghost predicate LastBorn(s: State, releases: int) {
    s.workers != [] && s.workers[|s.workers| - 1].born == releases
  }

  /** A wait on behalf of `call`. */
  ghost predicate WaitPhase(s: State, call: Call) {
    match call
    case WaitIdle => true
    case WakeupAndWait => !s.control.Locking?
    case Add(core) => core < |s.cores| && LastBorn(s, s.releases)
    case Destroy => true
    case _ => false
  }

  /** What holds at each point of a call. */
  ghost predicate Phase(s: State) {
    match s.control
    case Idle => true
    case Locking(call) => WaitPhase(s, call)
    case Sleeping(call) => WaitPhase(s, call) && s.barrier.arrived < s.barrier.threads
    case Woken(call) => WaitPhase(s, call)
    case Releasing(call) =>
      (match call
       case Drop(core) => core < |s.cores| && Parked(s) && LastBorn(s, s.releases)
       case Destroy => Parked(s)
       case Wakeup => true
       case WakeupAndWait => true
       case _ => false)
    case Posting(call, _) =>
      (match call
       case Drop(core) => core < |s.cores| && LastBorn(s, s.releases - 1)
       case Destroy => true
       case Wakeup => true
       case WakeupAndWait => true
       case _ => false)
    case Launching(core) => core < |s.cores|
    case Inspecting(core) => core < |s.cores| && Parked(s) && LastBorn(s, s.releases)
    case Shrinking(core) => core < |s.cores| && LastBorn(s, s.releases - 1)
    case Joining => LastBorn(s, s.releases - 1)
    case Stopping => Parked(s)
    case JoiningAll(k) => k <= |s.workers| && forall i :: 0 <= i < k ==> s.workers[i].pc.Exited?
    case Destroyed => forall i :: 0 <= i < |s.workers| ==> s.workers[i].pc.Exited?
    case AssertFailed => true
  }

  /** Core usage counts the listed workers and the launches that failed. */
  ghost predicate Usage(s: State) {
    Total(s.cores) == |s.workers| + s.failures + (if s.control.Launching? then 1 else if s.control.Joining? then -1 else 0)
  }

  ghost predicate Inv(s: State) {
    && TokensAgree(s)
    && Sizes(s)
    && Flags(s)
    && Ledger(s)
    && Phase(s)
    && Usage(s)
    && (s.settled ==> Parked(s))
  }

  lemma InitialInv(s: State)
    requires IsInitial(s)
    ensures Inv(s)
  {
  }

  // ----- worker steps

  lemma WorkTokens(s: State, i: nat, ok: bool)
    requires TokensAgree(s) && CanWork(s, i)
    ensures TokensAgree(WorkerMoves(s, i, ok))
  {
    hide Count;
    var w, t := s.workers[i], WorkerMoves(s, i, ok);
    CountUpdate(s.workers, i, t.workers[i], Waiting(s.barrier.active));
    CountUpdate(s.workers, i, t.workers[i], Waiting(1 - s.barrier.active));
    match w.pc
    case Entering => assert t.workers[i].pc == Waiting(s.barrier.active);
    case Waiting(sem) => assert sem == 1 - s.barrier.active;
    case _ =>
  }

  /** A worker only moves among its own program points. */
  lemma WorkFlags(s: State, i: nat, ok: bool)
    requires Inv(s) && CanWork(s, i)
    ensures Flags(WorkerMoves(s, i, ok))
  {
    hide Count, Total;
    var t := WorkerMoves(s, i, ok);
    assert PlacedRight(s, i);
    forall j | 0 <= j < |t.workers|
      ensures PlacedRight(t, j)
    {
      assert PlacedRight(s, j);
    }
  }

  lemma WorkLedger(s: State, i: nat, ok: bool)
    requires TokensAgree(s) && Ledger(s) && CanWork(s, i)
    ensures Ledger(WorkerMoves(s, i, ok))
  {
    hide Count;
    var t := WorkerMoves(s, i, ok);
    forall j | 0 <= j < |t.workers|
      ensures t.workers[j].calls + t.workers[j].born + Owes(t.workers[j].pc, t.barrier.active) == t.releases
    {
      assert s.workers[j].calls + s.workers[j].born + Owes(s.workers[j].pc, s.barrier.active) == s.releases;
    }
  }

  /** Nobody moves while all are parked. */
  lemma ParkedStay(s: State, i: nat)
    requires TokensAgree(s) && Parked(s)
    ensures !CanWork(s, i)
  {
  }

  lemma WorkPhase(s: State, i: nat, ok: bool)
    requires Inv(s) && CanWork(s, i)
    ensures Phase(WorkerMoves(s, i, ok))
  {
    hide Count, Total;
    var t := WorkerMoves(s, i, ok);
    if Parked(s) { ParkedStay(s, i); }
  }

  lemma WorkInv(s: State, i: nat, ok: bool)
    requires Inv(s) && CanWork(s, i)
    ensures Inv(WorkerMoves(s, i, ok))
  {
    hide Count, Total;
    WorkTokens(s, i, ok);
    WorkFlags(s, i, ok);
    WorkLedger(s, i, ok);
    WorkPhase(s, i, ok);
    if Parked(s) { ParkedStay(s, i); }
  }

  // ----- controller steps

  lemma BeginInv(s: State, r: Request)
    requires Inv(s) && CanBegin(s, r)
    ensures Inv(Begins(s, r))
  {
    hide Count, Total;
    var t := Begins(s, r);
    assert forall j :: 0 <= j < |s.workers| ==> PlacedRight(s, j) ==> PlacedRight(t, j);
    if r.ReqAdd? && Choose(s.cores, r.cpu).Some? {
      ChangeTotal(s.cores, Choose(s.cores, r.cpu).value, 1);
    }
  }

  lemma LaunchInv(s: State, ok: bool)
    requires Inv(s) && s.control.Launching?
    ensures Inv(Launches(s, ok))
    ensures Inv(LaunchFailed(s))
  {
    hide Count, Total;
    var t := Launches(s, ok);
    CountAppend(s.workers, t.workers[|s.workers|], Waiting(s.barrier.active));
    CountAppend(s.workers, t.workers[|s.workers|], Waiting(1 - s.barrier.active));
    assert forall j :: 0 <= j < |s.workers| ==> PlacedRight(s, j) ==> PlacedRight(t, j);
    assert forall j :: 0 <= j < |s.workers| ==> PlacedRight(s, j) ==> PlacedRight(LaunchFailed(s), j);
  }

  /** A complete count means that every worker is parked. */
  lemma FullCountParks(s: State)
    requires TokensAgree(s) && s.barrier.arrived >= |s.workers|
    ensures Parked(s)
  {
    CountExtremes(s.workers, Waiting(s.barrier.active));
  }

  lemma WaitInv(s: State, call: Call)
    requires Inv(s) && Left(s.control) == 0 && WaitPhase(s.(control := Woken(call)), call)
    requires !Dropping(s.control) && !Closing(s.control) && !s.control.Launching?
    ensures Inv(WaitOrReturn(s, call))
  {
    hide Count, Total;
    var t := WaitOrReturn(s, call);
    if s.barrier.arrived >= s.barrier.threads {
      FullCountParks(s);
    }
    assert forall j :: 0 <= j < |s.workers| ==> PlacedRight(s, j) ==> PlacedRight(t, j);
  }

  /** A release that goes through: all workers parked, all to be let go. */
  ghost predicate Lets(s: State) {
    s.control.Releasing? && s.barrier.arrived == s.barrier.threads
  }

  lemma ReleaseTokens(s: State)
    requires TokensAgree(s) && Sizes(s) && Lets(s)
    ensures Parked(s) && TokensAgree(Proceeds(s)) && Sizes(Proceeds(s))
  {
    hide Count;
    FullCountParks(s);
    CountExtremes(s.workers, Waiting(s.barrier.active));
    CountExtremes(s.workers, Waiting(1 - s.barrier.active));
  }

  lemma ReleaseFlags(s: State)
    requires Parked(s) && Flags(s) && Lets(s)
    ensures Flags(Proceeds(s))
  {
    var t := Proceeds(s);
    forall j | 0 <= j < |s.workers|
      ensures PlacedRight(t, j)
    {
      assert PlacedRight(s, j);
    }
  }

  lemma ReleaseLedger(s: State)
    requires Parked(s) && Ledger(s) && Lets(s)
    ensures Ledger(Proceeds(s))
  {
    var t := Proceeds(s);
    forall j | 0 <= j < |s.workers|
      ensures t.workers[j].calls + t.workers[j].born + Owes(t.workers[j].pc, t.barrier.active) == t.releases
    {
      assert s.workers[j].calls + s.workers[j].born + Owes(s.workers[j].pc, s.barrier.active) == s.releases;
    }
  }

  lemma ReleaseLets(s: State)
    requires Inv(s) && Lets(s)
    ensures Inv(Proceeds(s)) && !Proceeds(s).control.AssertFailed?
  {
    hide Count, Total, TokensAgree, Flags, Ledger;
    ReleaseTokens(s);
    ReleaseFlags(s);
    ReleaseLedger(s);
  }

  lemma ReleaseRefused(s: State)
    requires Inv(s) && s.control.Releasing? && !Lets(s)
    ensures Inv(Proceeds(s)) && !s.control.call.Drop? && !s.control.call.Destroy?
  {
    hide Total;
    CountExtremes(s.workers, Waiting(s.barrier.active));
    var t := Proceeds(s);
    forall j | 0 <= j < |s.workers|
      ensures PlacedRight(t, j)
    {
      assert PlacedRight(s, j);
    }
  }

  lemma ReleaseInv(s: State)
    requires Inv(s) && s.control.Releasing?
    ensures Inv(Proceeds(s))
    ensures s.control.call.Drop? || s.control.call.Destroy? ==> !Proceeds(s).control.AssertFailed?
  {
    hide Inv, Proceeds;
    if Lets(s) {
      ReleaseLets(s);
    } else {
      ReleaseRefused(s);
    }
  }

  lemma PostOneInv(s: State)
    requires Inv(s) && s.control.Posting? && 0 < s.control.left
    ensures Inv(Proceeds(s))
  {
    hide Count, Total;
    var t := Proceeds(s);
    assert forall j :: 0 <= j < |s.workers| ==> PlacedRight(s, j) ==> PlacedRight(t, j);
  }

  lemma PostedInv(s: State)
    requires Inv(s) && s.control.Posting? && s.control.left == 0
    ensures Inv(Proceeds(s))
  {
    hide Count, Total, WaitOrReturn;
    var t := Proceeds(s);
    if s.control.call.WakeupAndWait? {
      WaitInv(s, s.control.call);
    } else {
      assert forall j :: 0 <= j < |s.workers| ==> PlacedRight(s, j) ==> PlacedRight(t, j);
    }
  }

  lemma PostInv(s: State)
    requires Inv(s) && s.control.Posting?
    ensures Inv(Proceeds(s))
  {
    hide Inv, Proceeds;
    if s.control.left == 0 { PostedInv(s); } else { PostOneInv(s); }
  }

  lemma InspectInv(s: State)
    requires Inv(s) && s.control.Inspecting?
    ensures CanProceed(s) && Inv(Proceeds(s))
  {
    hide Count, Total;
    var t := Proceeds(s);
    var last := |s.workers| - 1;
    if !s.workers[last].healthy {
      CountUpdate(s.workers, last, t.workers[last], Waiting(s.barrier.active));
      CountUpdate(s.workers, last, t.workers[last], Waiting(1 - s.barrier.active));
    }
    forall j | 0 <= j < |s.workers|
      ensures PlacedRight(t, j)
    {
      assert PlacedRight(s, j);
    }
  }

  lemma ShrinkInv(s: State)
    requires Inv(s) && s.control.Shrinking?
    ensures CanProceed(s) && Inv(Proceeds(s))
  {
    hide Count, Total;
    var t := Proceeds(s);
    ChangeTotal(s.cores, s.control.core, -1);
    assert forall j :: 0 <= j < |s.workers| ==> PlacedRight(s, j) ==> PlacedRight(t, j);
  }

  lemma JoinInv(s: State)
    requires Inv(s) && s.control.Joining? && CanProceed(s)
    ensures Inv(Proceeds(s))
  {
    hide Total;
    var t := Proceeds(s);
    assert forall j :: 0 <= j < |t.workers| ==> PlacedRight(s, j) ==> PlacedRight(t, j);
  }

  lemma CloseInv(s: State)
    requires Inv(s) && (s.control.Stopping? || s.control.JoiningAll?) && CanProceed(s)
    ensures Inv(Proceeds(s))
  {
    hide Count, Total;
    var t := Proceeds(s);
    assert forall j :: 0 <= j < |s.workers| ==> PlacedRight(s, j) ==> PlacedRight(t, j);
  }

  lemma ProceedInv(s: State)
    requires Inv(s) && CanProceed(s)
    ensures Inv(Proceeds(s))
  {
    match s.control
    case Locking(call) => WaitInv(s, call);
    case Woken(call) => WaitInv(s, call);
    case Releasing(_) => ReleaseInv(s);
    case Posting(_, _) => PostInv(s);
    case Inspecting(_) => InspectInv(s);
    case Shrinking(_) => ShrinkInv(s);
    case Joining => JoinInv(s);
    case Stopping => CloseInv(s);
    case JoiningAll(_) => CloseInv(s);
  }

  /** Every step keeps the invariant. */
  lemma StepInv(s: State, step: Step)
    requires Inv(s) && Can(s, step)
    ensures Inv(Do(s, step))
  {
    hide Count, Total;
    match step
    case Work(i, ok) => WorkInv(s, i, ok);
    case Begin(r) => BeginInv(s, r);
    case Proceed => ProceedInv(s);
    case Launch(ok) => LaunchInv(s, ok);
    case LaunchFails => LaunchInv(s, true);
    case Spurious =>
      var t := Do(s, step);
      assert forall j :: 0 <= j < |s.workers| ==> PlacedRight(s, j) ==> PlacedRight(t, j);
  }

  lemma {:induction false} RunInv(s: State, steps: seq<Step>)
    requires Inv(s) && IsRun(s, steps)
    ensures Inv(After(s, steps))
    decreases |steps|
  {
    if steps != [] {
      StepInv(s, steps[0]);
      RunInv(Do(s, steps[0]), steps[1..]);
    }
  }

  /** States that some run from a new pool reaches. */
  ghost predicate Reachable(s: State) {
    exists s0: State, steps: seq<Step> :: IsInitial(s0) && IsRun(s0, steps) && After(s0, steps) == s
  }

  /** The invariant holds in every reachable state. */
  lemma ReachableInv(s: State)
    requires Reachable(s)
    ensures Inv(s)
  {
    var s0: State, steps: seq<Step> :| IsInitial(s0) && IsRun(s0, steps) && After(s0, steps) == s;
    InitialInv(s0);
    RunInv(s0, steps);
  }
}
