/** The table of ids in use by condition variables. */
module IdAllocator {
  import opened Wrappers

  ghost function FirstFree(held: set<nat>, size: nat, from: nat): (i: nat)
    requires from <= size
    ensures from <= i <= size
    ensures i < size ==> i !in held
    ensures forall j :: from <= j < i ==> j in held
    decreases size - from
  {
    if from == size || from !in held then from else FirstFree(held, size, from + 1)
  }

  /** Taking the smallest free id, or nothing when all are held. */
  ghost function Take(held: set<nat>, size: nat): (r: (Option<nat>, set<nat>))
    ensures r.0.None? <==> forall j :: 0 <= j < size ==> j in held
    ensures r.0.None? ==> r.1 == held
    ensures r.0.Some? ==> r.0.value < size && r.0.value !in held && r.1 == held + {r.0.value}
    ensures r.0.Some? ==> forall j :: 0 <= j < r.0.value ==> j in held
  {
    var i := FirstFree(held, size, 0);
    if i == size then (None, held) else (Some(i), held + {i})
  }

  lemma FirstFreeIs(held: set<nat>, size: nat, from: nat, i: nat)
    requires from <= i <= size
    requires i < size ==> i !in held
    requires forall j :: from <= j < i ==> j in held
    ensures FirstFree(held, size, from) == i
  {
  }

  class IdTable {
    const activeIds: array<bool>

    ghost function Held(): (ids: set<nat>)
      reads activeIds
      ensures forall i: nat :: i in ids <==> i < activeIds.Length && activeIds[i]
    {
      set i: nat | i < activeIds.Length && activeIds[i]
    }

    constructor (size: nat)
      ensures fresh(activeIds) && activeIds.Length == size && Held() == {}
    {
      activeIds := new bool[size](_ => false);
    }

    /** None is the source's exception. */
    method GetNextId() returns (id: Option<nat>)
      modifies activeIds
      ensures (id, Held()) == Take(old(Held()), activeIds.Length)
    {
      ghost var held := Held();
      for i := 0 to activeIds.Length
        invariant Held() == held
        invariant forall j :: 0 <= j < i ==> j in held
      {
        if !activeIds[i] {
          activeIds[i] := true;
          FirstFreeIs(held, activeIds.Length, 0, i);
          assert Held() == held + {i};
          return Some(i);
        }
      }
      FirstFreeIs(held, activeIds.Length, 0, activeIds.Length);
      id := None;
    }

    method DeregisterId(id: nat)
      requires id < activeIds.Length
      modifies activeIds
      ensures Held() == old(Held()) - {id}
    {
      activeIds[id] := false;
    }
  }

  /** What happened at one call. */
  datatype Event = Got(id: nat) | Refused | Freed(id: nat)

  ghost function HeldAfter(history: seq<Event>): set<nat> {
    if history == [] then {}
    else
      var held := HeldAfter(history[..|history| - 1]);
      match history[|history| - 1]
      case Got(id) => held + {id}
      case Refused => held
      case Freed(id) => held - {id}
  }

  /** A history of calls made one at a time on a table of the given size. */
  ghost predicate IsHistory(history: seq<Event>, size: nat) {
    history == [] || (
      var before := history[..|history| - 1];
      var taken := Take(HeldAfter(before), size).0;
      && IsHistory(before, size)
      && match history[|history| - 1]
         case Got(id) => taken == Some(id)
         case Refused => taken == None
         case Freed(id) => id < size)
  }

  lemma {:induction false} HistoryPrefix(history: seq<Event>, size: nat, n: nat)
    requires IsHistory(history, size) && n <= |history|
    ensures IsHistory(history[..n], size)
    decreases |history|
  {
    if n < |history| {
      HistoryPrefix(history[..|history| - 1], size, n);
      assert history[..|history| - 1][..n] == history[..n];
    } else {
      assert history[..n] == history;
    }
  }

  /** An id once handed out stays held until it is freed. */
  lemma {:induction false} StaysHeld(history: seq<Event>, i: nat, n: nat, id: nat)
    requires i < n <= |history| && history[i] == Got(id)
    requires forall k :: i < k < n ==> history[k] != Freed(id)
    ensures id in HeldAfter(history[..n])
    decreases n
  {
    assert history[..n][..n - 1] == history[..n - 1];
    if i < n - 1 { StaysHeld(history, i, n - 1, id); }
  }

  /** The same id is never handed out twice without having been freed in between. */
  lemma NeverTwice(history: seq<Event>, size: nat, i: nat, j: nat, id: nat)
    requires IsHistory(history, size) && i < j < |history|
    requires history[i] == history[j] == Got(id)
    ensures exists k :: i < k < j && history[k] == Freed(id)
  {
    HistoryPrefix(history, size, j + 1);
    assert history[..j + 1][..j] == history[..j];
    if forall k :: i < k < j ==> history[k] != Freed(id) {
      StaysHeld(history, i, j, id);
      assert false;
    }
  }
}
