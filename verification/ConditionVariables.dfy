/** The two portable forms of the realtime condition variable: a counting semaphore, and a flag with
    a condition. */
module ConditionVariables {
  class PosixSemaphoreConditionVariable {
    var semaphore: nat

    constructor ()
      ensures semaphore == 0
    {
      semaphore := 0;
    }

    method Notify()
      modifies this
      ensures semaphore == old(semaphore) + 1
    {
      semaphore := semaphore + 1;
    }

    /** Returns only after a token has been taken. */
    method Wait() returns (woken: bool)
      requires 0 < semaphore
      modifies this
      ensures woken && semaphore == old(semaphore) - 1
    {
      semaphore := semaphore - 1;
      woken := true;
    }
  }

  class StdConditionVariable {
    var flag: bool

    constructor ()
      ensures !flag
    {
      flag := false;
    }

    method Notify()
      modifies this
      ensures flag
    {
      flag := true;
    }

    /** The end of `wait`, once the condition has woken the caller and the mutex is locked again. */
    method FinishWait() returns (notified: bool)
      modifies this
      ensures notified == old(flag) && !flag
    {
      notified := flag;
      flag := false;
    }
  }

  // ----- the semaphore form as a run of notifies and finished waits

  datatype Action = Notified | Waited

  /** A run of the semaphore form that starts with `tokens`: a wait finishes only on a token. */
  predicate SemaphoreRun(tokens: nat, run: seq<Action>)
    decreases |run|
  {
    run == [] || (
      match run[0]
      case Notified => SemaphoreRun(tokens + 1, run[1..])
      case Waited => 0 < tokens && SemaphoreRun(tokens - 1, run[1..]))
  }

  function TokensAfter(tokens: nat, run: seq<Action>): nat
    requires SemaphoreRun(tokens, run)
    decreases |run|
  {
    if run == [] then tokens
    else if run[0].Notified? then TokensAfter(tokens + 1, run[1..])
    else TokensAfter(tokens - 1, run[1..])
  }

  function Times(run: seq<Action>, a: Action): nat {
    if run == [] then 0 else (if run[0] == a then 1 else 0) + Times(run[1..], a)
  }

  /** No notification is lost or answered twice: the tokens left are the notifies less the finished waits. */
  lemma {:induction false} NotifiesAreCounted(tokens: nat, run: seq<Action>)
    requires SemaphoreRun(tokens, run)
    ensures TokensAfter(tokens, run) + Times(run, Waited) == tokens + Times(run, Notified)
    decreases |run|
  {
    if run != [] {
      NotifiesAreCounted(if run[0].Notified? then tokens + 1 else tokens - 1, run[1..]);
    }
  }

  /** When a wait of the semaphore form can end: exactly while notifies, early ones included, outnumber
      the finished waits. */
  lemma {:induction false} SemaphoreWaitEndsIff(tokens: nat, run: seq<Action>)
    requires SemaphoreRun(tokens, run)
    ensures SemaphoreRun(tokens, run + [Waited]) <==> Times(run, Waited) < tokens + Times(run, Notified)
    decreases |run|
  {
    if run == [] {
      assert run + [Waited] == [Waited] && [Waited][1..] == [];
      assert forall n: nat :: SemaphoreRun(n, []);
    } else {
      SemaphoreWaitEndsIff(if run[0].Notified? then tokens + 1 else tokens - 1, run[1..]);
      assert (run + [Waited])[1..] == run[1..] + [Waited];
    }
  }

  // ----- the flag form as interleaved steps of notifiers and one waiter

  datatype Waiter = Away | Asleep | Woken

  datatype FlagState = FlagState(flag: bool, waiter: Waiter)

  /** `Return(notified)` is the end of a wait; `Wakes` a wakeup of the condition without a notify. */
  datatype FlagStep = Notify | Sleep | Wakes | Return(notified: bool)

  predicate CanStep(s: FlagState, step: FlagStep) {
    match step
    case Notify => true
    case Sleep => s.waiter.Away?
    case Wakes => s.waiter.Asleep?
    case Return(notified) => s.waiter.Woken? && notified == s.flag
  }

  function Next(s: FlagState, step: FlagStep): FlagState
    requires CanStep(s, step)
  {
    match step
    case Notify => FlagState(true, if s.waiter.Asleep? then Woken else s.waiter)
    case Sleep => s.(waiter := Asleep)
    case Wakes => s.(waiter := Woken)
    case Return(_) => FlagState(false, Away)
  }

  predicate FlagRun(s: FlagState, run: seq<FlagStep>)
    decreases |run|
  {
    run == [] || (CanStep(s, run[0]) && FlagRun(Next(s, run[0]), run[1..]))
  }

  function StateAfter(s: FlagState, run: seq<FlagStep>): FlagState
    requires FlagRun(s, run)
    decreases |run|
  {
    if run == [] then s else StateAfter(Next(s, run[0]), run[1..])
  }

  lemma {:induction false} AppendStep(s: FlagState, run: seq<FlagStep>, step: FlagStep)
    requires FlagRun(s, run) && CanStep(StateAfter(s, run), step)
    ensures FlagRun(s, run + [step]) && StateAfter(s, run + [step]) == Next(StateAfter(s, run), step)
    decreases |run|
  {
    if run == [] {
      assert [step][1..] == [];
      assert FlagRun(Next(s, step), []);
      assert run + [step] == [step];
    } else {
      AppendStep(Next(s, run[0]), run[1..], step);
      assert (run + [step])[1..] == run[1..] + [step];
    }
  }

  /** A notify since the last return before position k. */
  predicate NotifiedSince(run: seq<FlagStep>, k: nat)
    requires k <= |run|
  {
    0 < k && (run[k - 1].Notify? || (!run[k - 1].Return? && NotifiedSince(run, k - 1)))
  }

  lemma {:induction false} FlagIsNotified(s: FlagState, run: seq<FlagStep>, k: nat)
    requires FlagRun(s, run) && !s.flag && k <= |run|
    ensures FlagRun(s, run[..k]) && StateAfter(s, run[..k]).flag == NotifiedSince(run, k)
    ensures k < |run| ==> CanStep(StateAfter(s, run[..k]), run[k])
    ensures FlagRun(StateAfter(s, run[..k]), run[k..])
    decreases k
  {
    if k == 0 {
      assert run[..0] == [] && run[0..] == run;
    } else {
      FlagIsNotified(s, run, k - 1);
      var t := StateAfter(s, run[..k - 1]);
      assert run[..k] == run[..k - 1] + [run[k - 1]];
      AppendStep(s, run[..k - 1], run[k - 1]);
      assert run[k - 1..][1..] == run[k..];
    }
  }

  /** A wait reports true exactly when there was a notify since the previous wait returned. */
  lemma ReturnsTellTheTruth(run: seq<FlagStep>, k: nat)
    requires FlagRun(FlagState(false, Away), run) && k < |run| && run[k].Return?
    ensures run[k].notified <==> NotifiedSince(run, k)
  {
    FlagIsNotified(FlagState(false, Away), run, k);
  }

  function CountTrue(run: seq<FlagStep>): nat {
    if run == [] then 0 else (if run[0] == Return(true) then 1 else 0) + CountTrue(run[1..])
  }

  function CountNotify(run: seq<FlagStep>): nat {
    if run == [] then 0 else (if run[0].Notify? then 1 else 0) + CountNotify(run[1..])
  }

  /** Never more true returns than notifies. */
  lemma {:induction false} TrueReturnsAreBounded(s: FlagState, run: seq<FlagStep>)
    requires FlagRun(s, run)
    ensures CountTrue(run) <= CountNotify(run) + if s.flag then 1 else 0
    decreases |run|
  {
    if run != [] { TrueReturnsAreBounded(Next(s, run[0]), run[1..]); }
  }

  /** Something that ends the sleep of a waiter: a notify, or a wakeup of the condition without one. */
  predicate Rouses(step: FlagStep) {
    step.Notify? || step.Wakes?
  }

  lemma {:induction false} AsleepUntilRoused(s: FlagState, run: seq<FlagStep>)
    requires FlagRun(s, run) && !s.waiter.Away?
    requires forall i :: 0 <= i < |run| ==> !run[i].Return?
    ensures !StateAfter(s, run).waiter.Away?
    ensures StateAfter(s, run).waiter.Asleep? <==>
      s.waiter.Asleep? && forall i :: 0 <= i < |run| ==> !Rouses(run[i])
    decreases |run|
  {
    if run != [] {
      var rest := run[1..];
      assert forall i :: 0 <= i < |rest| ==> rest[i] == run[i + 1];
      AsleepUntilRoused(Next(s, run[0]), rest);
      assert forall i :: 1 <= i < |run| ==> run[i] == rest[i - 1];
    }
  }

  lemma {:induction false} RunSplits(s: FlagState, run: seq<FlagStep>, j: nat)
    requires FlagRun(s, run) && j <= |run|
    ensures FlagRun(s, run[..j]) && FlagRun(StateAfter(s, run[..j]), run[j..])
    ensures StateAfter(s, run) == StateAfter(StateAfter(s, run[..j]), run[j..])
    decreases j
  {
    if j == 0 {
      assert run[..0] == [] && run[0..] == run;
    } else {
      RunSplits(Next(s, run[0]), run[1..], j - 1);
      assert run[..j][1..] == run[1..][..j - 1];
      assert run[j..] == run[1..][j - 1..];
    }
  }

  /** When a wait that began at step j and has not returned can end: exactly if a notify or a wakeup
      without one has come since. What came before j, notifies and the flag included, has no part in it. */
  lemma WaitEndsIff(s: FlagState, run: seq<FlagStep>, j: nat)
    requires FlagRun(s, run) && j < |run| && run[j].Sleep?
    requires forall i :: j < i < |run| ==> !run[i].Return?
    ensures StateAfter(s, run).waiter.Asleep? <==> forall i :: j < i < |run| ==> !Rouses(run[i])
    ensures (exists notified :: CanStep(StateAfter(s, run), Return(notified)))
      <==> exists i :: j < i < |run| && Rouses(run[i])
  {
    RunSplits(s, run, j + 1);
    RunSplits(s, run[..j + 1], j);
    var asleep := StateAfter(s, run[..j + 1]);
    var rest := run[j + 1..];
    assert run[..j + 1][..j] == run[..j] && run[..j + 1][j..] == [Sleep];
    assert asleep.waiter.Asleep?;
    assert forall i :: 0 <= i < |rest| ==> rest[i] == run[i + j + 1];
    AsleepUntilRoused(asleep, rest);
    assert forall i :: j < i < |run| ==> run[i] == rest[i - j - 1];
    var t := StateAfter(s, run);
    assert t.waiter.Woken? ==> CanStep(t, Return(t.flag));
  }

  /** An input for it: a notify that comes before the waiter sleeps does not wake it, although the flag
      is set; in the semaphore form it lets the wait finish. */
  lemma EarlyNotify()
    ensures FlagRun(FlagState(false, Away), [Notify, Sleep])
    ensures StateAfter(FlagState(false, Away), [Notify, Sleep]) == FlagState(true, Asleep)
    ensures forall notified :: !CanStep(FlagState(true, Asleep), Return(notified))
    ensures SemaphoreRun(0, [Notified, Waited])
  {
  }
}
