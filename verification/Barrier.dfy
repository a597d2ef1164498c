/** The thread barrier: one counter of arrivals and two semaphores used in turn. */
module Barrier {

  /** Which of the two semaphores. */
  type Index = i: int | 0 <= i <= 1

  datatype BarrierState = BarrierState(active: Index, tokens0: nat, tokens1: nat, arrived: nat, threads: nat)
  {
    function Tokens(i: Index): nat {
      if i == 0 then tokens0 else tokens1
    }

    function WithTokens(i: Index, n: nat): BarrierState {
      if i == 0 then this.(tokens0 := n) else this.(tokens1 := n)
    }

    /** A worker arrives and captures the active semaphore. */
    function Arrive(): BarrierState {
      this.(arrived := arrived + 1)
    }

    /** The start of a release: the count drops to zero and the semaphores change roles. */
    function Open(): BarrierState {
      this.(arrived := 0, active := 1 - active)
    }

    /** One token for a worker held by the semaphore that was active before the release. */
    function Post(): BarrierState {
      WithTokens(1 - active, Tokens(1 - active) + 1)
    }

    function Take(i: Index): BarrierState
      requires 0 < Tokens(i)
    {
      WithTokens(i, Tokens(i) - 1)
    }
  }

  const FRESH := BarrierState(0, 0, 0, 0, 0)

  /** A release with no worker moving in between: n posts. */
  function Posted(b: BarrierState, n: nat): (r: BarrierState)
    ensures r == b.WithTokens(1 - b.active, b.Tokens(1 - b.active) + n)
  {
    if n == 0 then b else Posted(b, n - 1).Post()
  }

  /** The barrier's fields and what each critical section does to them. */
  class BarrierWithTrigger {
    var activeSemIdx: Index
    var semaphores: array<nat>
    var noThreadsCurrentlyOnBarrier: nat
    var noThreads: nat

    ghost predicate Valid()
      reads this, semaphores
    {
      semaphores.Length == 2
    }

    ghost function View(): BarrierState
      requires Valid()
      reads this, semaphores
    {
      BarrierState(activeSemIdx, semaphores[0], semaphores[1], noThreadsCurrentlyOnBarrier, noThreads)
    }

    constructor ()
      ensures Valid() && fresh(semaphores)
      ensures View() == FRESH
    {
      activeSemIdx, noThreadsCurrentlyOnBarrier, noThreads := 0, 0, 0;
      semaphores := new nat[2](_ => 0);
    }

    /** The locked part of `wait`: the captured semaphore, and whether the condition is signalled. */
    method Arrive() returns (activeSem: Index, signal: bool)
      requires Valid()
      modifies this`noThreadsCurrentlyOnBarrier
      ensures Valid() && View() == old(View()).Arrive()
      ensures activeSem == old(View()).active
      ensures signal <==> View().threads <= View().arrived
    {
      activeSem := activeSemIdx;
      noThreadsCurrentlyOnBarrier := noThreadsCurrentlyOnBarrier + 1;
      signal := noThreadsCurrentlyOnBarrier >= noThreads;
    }

    /** The rest of `wait`: returns only once a token has been taken. */
    method SemaphoreWait(i: Index)
      requires Valid() && 0 < View().Tokens(i)
      modifies semaphores
      ensures Valid() && View() == old(View()).Take(i)
    {
      semaphores[i] := semaphores[i] - 1;
    }

    method SetNoThreads(threads: nat)
      requires Valid()
      modifies this`noThreads
      ensures Valid() && View() == old(View()).(threads := threads)
    {
      noThreads := threads;
    }

    method SwapSemaphores()
      modifies this`activeSemIdx
      ensures activeSemIdx == 1 - old(activeSemIdx)
    {
      activeSemIdx := 1 - activeSemIdx;
    }

    /** The locked part of `release_all`, and of `release_and_wait` up to its waiting loop. */
    method ReleaseAll()
      requires Valid()
      requires noThreadsCurrentlyOnBarrier == noThreads
      modifies this, semaphores
      ensures semaphores == old(semaphores) && Valid()
      ensures View() == Posted(old(View()).Open(), old(View()).threads)
    {
      noThreadsCurrentlyOnBarrier := 0;
      var prevSem := activeSemIdx;
      SwapSemaphores();
      for i := 0 to noThreads
        invariant semaphores == old(semaphores) && Valid()
        invariant prevSem == 1 - activeSemIdx
        invariant View() == Posted(old(View()).Open(), i)
      {
        semaphores[prevSem] := semaphores[prevSem] + 1;
      }
    }

    /** The test that decides whether a waiting controller goes (back) to sleep. */
    method MustWait() returns (b: bool)
      requires Valid()
      ensures b <==> View().arrived < View().threads
    {
      var currentThreads := noThreadsCurrentlyOnBarrier;
      b := currentThreads < noThreads;
    }
  }
}
