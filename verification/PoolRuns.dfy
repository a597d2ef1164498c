/** Exactly once per release, counted over whole runs. */
module PoolRuns {
  import opened Pool
  import opened PoolInvariant

  /** Callbacks that worker i finishes in a run. */
  function CallbacksIn(s: State, steps: seq<Step>, i: nat): nat
    requires IsRun(s, steps)
    decreases |steps|
  {
    if steps == [] then 0
    else
      (if steps[0].Work? && steps[0].i == i && s.workers[i].pc.Calling? then 1 else 0)
      + CallbacksIn(Do(s, steps[0]), steps[1..], i)
  }

  /** Releases that a run makes, by whichever call. */
  function ReleasesIn(s: State, steps: seq<Step>): nat
    requires IsRun(s, steps)
    decreases |steps|
  {
    if steps == [] then 0
    else
      (if steps[0].Proceed? && s.control.Releasing? && s.barrier.arrived == s.barrier.threads then 1 else 0)
      + ReleasesIn(Do(s, steps[0]), steps[1..])
  }

  /** Inside an add, from the launch to the join of a worker that failed. */
  predicate HasNewWorker(c: Control) {
    match c
    case Locking(call) => call.Add?
    case Sleeping(call) => call.Add?
    case Woken(call) => call.Add?
    case Inspecting(_) => true
    case Releasing(call) => call.Drop?
    case Posting(call, _) => call.Drop?
    case Shrinking(_) => true
    case Joining => true
    case _ => false
  }

  /** The first n workers are not the one being added or removed. */
  predicate Above(n: nat, s: State) {
    n <= |s.workers| && (HasNewWorker(s.control) ==> n < |s.workers|)
  }

  predicate IsCallback(s: State, step: Step, i: nat)
    requires i < |s.workers|
  {
    step.Work? && step.i == i && s.workers[i].pc.Calling?
  }

  predicate IsRelease(s: State, step: Step) {
    step.Proceed? && s.control.Releasing? && s.barrier.arrived == s.barrier.threads
  }

  /** From s to t the older workers stay, worker i made so many callbacks and so many releases were made. */
  predicate Counted(n: nat, s: State, t: State, i: nat, callbacks: nat, releases: nat)
    requires i < n <= |s.workers|
  {
    && Above(n, t)
    && t.workers[i].born == s.workers[i].born
    && t.workers[i].calls == s.workers[i].calls + callbacks
    && t.releases == s.releases + releases
  }

  lemma CountWork(n: nat, s: State, j: nat, ok: bool, i: nat)
    requires Above(n, s) && CanWork(s, j) && i < n
    ensures Counted(n, s, WorkerMoves(s, j, ok), i, if IsCallback(s, Work(j, ok), i) then 1 else 0, 0)
  {
  }

  lemma CountBegin(n: nat, s: State, r: Request, i: nat)
    requires Above(n, s) && CanBegin(s, r) && i < n
    ensures Counted(n, s, Begins(s, r), i, 0, 0)
  {
  }

  lemma CountProceed(n: nat, s: State, i: nat)
    requires Above(n, s) && CanProceed(s) && i < n
    ensures Counted(n, s, Proceeds(s), i, 0, if IsRelease(s, Proceed) then 1 else 0)
  {
  }

  /** One step: older workers stay, and their callbacks and the releases grow as counted. */
  lemma CountStep(n: nat, s: State, step: Step, i: nat)
    requires Above(n, s) && Can(s, step) && i < n
    ensures Counted(n, s, Do(s, step), i, if IsCallback(s, step, i) then 1 else 0, if IsRelease(s, step) then 1 else 0)
  {
    hide WorkerMoves, Begins, Proceeds, CanProceed, CanWork, CanBegin;
    match step
    case Work(j, ok) => CountWork(n, s, j, ok, i);
    case Begin(r) => CountBegin(n, s, r, i);
    case Proceed => CountProceed(n, s, i);
    case _ =>
  }

  lemma {:induction false} CountRun(n: nat, s: State, steps: seq<Step>, i: nat)
    requires Above(n, s) && IsRun(s, steps) && i < n
    ensures Counted(n, s, After(s, steps), i, CallbacksIn(s, steps, i), ReleasesIn(s, steps))
    decreases |steps|
  {
    if steps != [] {
      hide Do, Can, Above;
      CountStep(n, s, steps[0], i);
      CountRun(n, Do(s, steps[0]), steps[1..], i);
    }
  }

  /** From any idle point on, for every interleaving and every sequence of calls: each worker has
      finished at most one callback fewer than there were releases, and exactly as many whenever the
      count of arrivals is complete again. No worker present at the start is ever removed. */
  lemma ExactlyOncePerRelease(s: State, steps: seq<Step>, i: nat)
    requires Reachable(s) && s.control.Idle? && s.barrier.arrived == s.barrier.threads && i < |s.workers|
    requires IsRun(s, steps)
    ensures |s.workers| <= |After(s, steps).workers|
    ensures CallbacksIn(s, steps, i) <= ReleasesIn(s, steps) <= CallbacksIn(s, steps, i) + 1
    ensures var t := After(s, steps);
      t.barrier.arrived >= |t.workers| ==> CallbacksIn(s, steps, i) == ReleasesIn(s, steps)
  {
    var t := After(s, steps);
    ReachableInv(s);
    RunInv(s, steps);
    CountRun(|s.workers|, s, steps, i);
    FullCountParks(s);
    assert Ledger(s) && Ledger(t);
    if t.barrier.arrived >= |t.workers| { FullCountParks(t); }
  }
}
