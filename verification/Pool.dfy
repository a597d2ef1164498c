/** The worker pool as a system of interleaved steps: any number of worker threads and one
    controlling thread, each step a critical section, a semaphore operation or a flag access. */
module Pool {
  import opened Wrappers
  import opened Barrier
  import opened Placement

  /** Where a worker thread is. */
  datatype Pc =
    | Starting              // thread created, initialisation not finished
    | Entering              // about to lock the mutex in `wait`
    | Waiting(sem: Index)   // in semaphore_wait on the captured semaphore
    | Checking              // out of `wait`, about to read the flags
    | Calling               // in the callback
    | Exited

  /** `running` is the worker's own flag, `healthy` its initialisation status. History: `calls`
      counts finished callbacks, `born` is the number of releases before the worker was added. */
  datatype Worker = Worker(pc: Pc, running: bool, healthy: bool, calls: nat, born: nat)

  /** The call in progress; adding remembers the chosen core, and goes on to dropping when the new
      worker turns out not to have initialised. */
  datatype Call = WaitIdle | Wakeup | WakeupAndWait | Add(core: nat) | Drop(core: nat) | Destroy

  /** Where the controlling thread is. */
  datatype Control =
    | Idle                              // between calls
    | Locking(call: Call)               // about to lock the mutex in wait_for_all
    | Sleeping(call: Call)              // in condition_wait
    | Woken(call: Call)                 // out of condition_wait, about to lock the mutex again
    | Releasing(call: Call)             // about to lock the mutex in a release
    | Posting(call: Call, left: nat)    // in a release, mutex held, `left` tokens to post
    | Launching(core: nat)              // adding: thread count raised, about to create the thread
    | Inspecting(core: nat)             // adding: all idle, about to read the new worker's status
    | Shrinking(core: nat)              // dropping: released, about to lower the thread count
    | Joining                           // dropping: about to join the removed thread
    | Stopping                          // destroying: all idle, about to clear the pool's flag
    | JoiningAll(next: nat)             // destroying: about to join worker `next`
    | Destroyed
    | AssertFailed                      // a release found the count different from the thread count

  datatype Status = Ok | InitFailed | LaunchError | InvalidArguments

  /** `poolRunning` and `noWorkers` are the pool's fields. History: `releases` counts releases,
      `failures` launches that failed, `settled` records whether the calls so far leave the pool
      known to be idle: set when a wait returns, cleared by a release or a new thread. */
  datatype State = State(
    barrier: BarrierState,
    workers: seq<Worker>,
    cores: Cores,
    noWorkers: nat,
    poolRunning: bool,
    control: Control,
    status: Status,
    releases: nat,
    failures: nat,
    settled: bool)

  datatype Request = ReqWait | ReqWakeup | ReqWakeupAndWait | ReqAdd(cpu: Option<int>) | ReqDestroy

  datatype Step =
    | Work(i: nat, ok: bool)      // worker i moves; `ok` is the outcome of its initialisation
    | Begin(request: Request)     // the controller makes a call
    | Proceed                     // the controller moves on within a call
    | Launch(ok: bool)            // thread creation succeeds; `ok` is the status so far
    | LaunchFails                 // thread creation fails
    | Spurious                    // condition_wait returns without a signal

  ghost predicate IsInitial(s: State) {
    && s.barrier == FRESH && s.workers == [] && s.noWorkers == 0 && s.poolRunning
    && s.control == Idle && s.releases == 0 && s.failures == 0 && s.settled
    && Total(s.cores) == 0
  }

  predicate MutexFree(s: State) {
    !s.control.Posting?
  }

  /** The condition is signalled by the arrival that completes the count; a sleeper wakes. */
  function Signalled(control: Control, b: BarrierState): Control {
    if b.arrived >= b.threads && control.Sleeping? then Woken(control.call) else control
  }

  predicate CanWork(s: State, i: nat) {
    && i < |s.workers|
    && match s.workers[i].pc
       case Starting => true
       case Entering => MutexFree(s)
       case Waiting(sem) => 0 < s.barrier.Tokens(sem)
       case Checking => true
       case Calling => true
       case Exited => false
  }

  /** One step of a worker thread: the loop `wait; check flags; callback`. */
  function WorkerMoves(s: State, i: nat, ok: bool): State
    requires CanWork(s, i)
  {
    var w := s.workers[i];
    match w.pc
    case Starting => s.(workers := s.workers[i := w.(pc := Entering, healthy := w.healthy && ok)])
    case Entering =>
      var b := s.barrier.Arrive();
      s.(barrier := b, control := Signalled(s.control, b), workers := s.workers[i := w.(pc := Waiting(s.barrier.active))])
    case Waiting(sem) => s.(barrier := s.barrier.Take(sem), workers := s.workers[i := w.(pc := Checking)])
    case Checking =>
      if !s.poolRunning || !w.running then s.(workers := s.workers[i := w.(pc := Exited)])
      else s.(workers := s.workers[i := w.(pc := Calling)])
    case Calling => s.(workers := s.workers[i := w.(pc := Entering, calls := w.calls + 1)])
  }

  predicate CanBegin(s: State, r: Request) {
    && s.control.Idle?
    && (r.ReqAdd? ==> r.cpu.Some? || s.cores != [])
  }

  /** The start of a call. Adding chooses the core, raises the thread count and the core's usage. */
  function Begins(s: State, r: Request): State
    requires CanBegin(s, r)
  {
    match r
    case ReqWait => s.(control := Locking(WaitIdle))
    case ReqWakeup => s.(control := Releasing(Wakeup))
    case ReqWakeupAndWait => s.(control := Releasing(WakeupAndWait))
    case ReqDestroy => s.(control := Locking(Destroy))
    case ReqAdd(cpu) =>
      match Choose(s.cores, cpu)
      case None => s.(status := InvalidArguments)
      case Some(core) =>
        s.(barrier := s.barrier.(threads := s.noWorkers + 1), cores := Change(s.cores, core, 1), control := Launching(core))
  }

  /** Thread creation succeeded: the worker is counted and listed, and the controller waits for it. */
  function Launches(s: State, ok: bool): State
    requires s.control.Launching?
  {
    s.(noWorkers := s.noWorkers + 1,
       workers := s.workers + [Worker(Starting, true, ok, 0, s.releases)],
       settled := false,
       control := Locking(Add(s.control.core)))
  }

  /** Thread creation failed: the thread count goes back, the core's usage does not. */
  function LaunchFailed(s: State): State
    requires s.control.Launching?
  {
    s.(barrier := s.barrier.(threads := s.noWorkers), failures := s.failures + 1, status := LaunchError, control := Idle)
  }

  /** Where a call goes on once its wait has returned. */
  function AfterWait(call: Call): Control {
    match call
    case Add(core) => Inspecting(core)
    case Destroy => Stopping
    case _ => Idle
  }

  /** With the mutex held: return from the wait if the count is complete, go to sleep otherwise. */
  function WaitOrReturn(s: State, call: Call): State {
    if s.barrier.arrived < s.barrier.threads then s.(control := Sleeping(call))
    else s.(control := AfterWait(call), settled := true)
  }

  /** The release has unlocked the mutex, or in the combined call goes straight to its wait. */
  function AfterPosts(s: State, call: Call): State {
    match call
    case WakeupAndWait => WaitOrReturn(s, call)
    case Drop(core) => s.(control := Shrinking(core))
    case Destroy => s.(control := JoiningAll(0))
    case _ => s.(control := Idle)
  }

  predicate CanProceed(s: State) {
    match s.control
    case Locking(_) => true
    case Woken(_) => true
    case Releasing(_) => true
    case Posting(_, _) => true
    case Inspecting(_) => s.workers != []
    case Shrinking(core) => 0 < s.noWorkers && core < |s.cores|
    case Joining => s.workers != [] && s.workers[|s.workers| - 1].pc.Exited?
    case Stopping => true
    case JoiningAll(k) => k < |s.workers| ==> s.workers[k].pc.Exited?
    case _ => false
  }

  function Proceeds(s: State): State
    requires CanProceed(s)
  {
    match s.control
    case Locking(call) => WaitOrReturn(s, call)
    case Woken(call) => WaitOrReturn(s, call)
    case Releasing(call) =>
      if s.barrier.arrived != s.barrier.threads then s.(control := AssertFailed)
      else
        s.(barrier := s.barrier.Open(), releases := s.releases + 1, settled := false,
           control := Posting(call, s.barrier.threads))
    case Posting(call, left) =>
      if left == 0 then AfterPosts(s, call)
      else s.(barrier := s.barrier.Post(), control := Posting(call, left - 1))
    case Inspecting(core) =>
      var last := |s.workers| - 1;
      if s.workers[last].healthy then s.(control := Idle, status := Ok)
      else s.(workers := s.workers[last := s.workers[last].(running := false)], control := Releasing(Drop(core)))
    case Shrinking(core) =>
      s.(noWorkers := s.noWorkers - 1, barrier := s.barrier.(threads := s.noWorkers - 1),
         cores := Change(s.cores, core, -1), control := Joining)
    case Joining => s.(workers := s.workers[..|s.workers| - 1], control := Idle, status := InitFailed)
    case Stopping => s.(poolRunning := false, control := Releasing(Destroy))
    case JoiningAll(k) => s.(control := if k < |s.workers| then JoiningAll(k + 1) else Destroyed)
  }

  predicate Can(s: State, step: Step) {
    match step
    case Work(i, _) => CanWork(s, i)
    case Begin(r) => CanBegin(s, r)
    case Proceed => CanProceed(s)
    case Launch(_) => s.control.Launching?
    case LaunchFails => s.control.Launching?
    case Spurious => s.control.Sleeping?
  }

  function Do(s: State, step: Step): State
    requires Can(s, step)
  {
    match step
    case Work(i, ok) => WorkerMoves(s, i, ok)
    case Begin(r) => Begins(s, r)
    case Proceed => Proceeds(s)
    case Launch(ok) => Launches(s, ok)
    case LaunchFails => LaunchFailed(s)
    case Spurious => s.(control := Woken(s.control.call))
  }

  /** A run: every step possible where it is taken. */
  predicate IsRun(s: State, steps: seq<Step>)
    decreases |steps|
  {
    steps == [] || (Can(s, steps[0]) && IsRun(Do(s, steps[0]), steps[1..]))
  }

  function After(s: State, steps: seq<Step>): State
    requires IsRun(s, steps)
    decreases |steps|
  {
    if steps == [] then s else After(Do(s, steps[0]), steps[1..])
  }

  lemma {:induction false} RunJoin(s: State, a: seq<Step>, b: seq<Step>)
    requires IsRun(s, a) && IsRun(After(s, a), b)
    ensures IsRun(s, a + b) && After(s, a + b) == After(After(s, a), b)
    decreases |a|
  {
    if a == [] {
      assert a + b == b;
    } else {
      RunJoin(Do(s, a[0]), a[1..], b);
      assert (a + b)[1..] == a[1..] + b;
    }
  }

  lemma RunOfOne(s: State, a: Step)
    requires Can(s, a)
    ensures IsRun(s, [a]) && After(s, [a]) == Do(s, a)
  {
    assert [a][1..] == [];
    assert IsRun(Do(s, a), []);
  }

  lemma RunOfTwo(s: State, a: Step, b: Step)
    requires Can(s, a) && Can(Do(s, a), b)
    ensures IsRun(s, [a, b]) && After(s, [a, b]) == Do(Do(s, a), b)
  {
    assert [a, b][1..] == [b];
    assert [b][1..] == [];
    assert IsRun(Do(Do(s, a), b), []);
    assert IsRun(Do(s, a), [b]);
    assert After(Do(s, a), [b]) == Do(Do(s, a), b);
  }
}
