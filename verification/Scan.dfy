/** The permuting scan on values: where the words read so far lie in the argument vector, and how
    each step of the scanner moves towards the partition that the reading prescribes. */
module Scan {
  import opened Grammar
  import opened PermuteArgs

  /** The scanner's variables; -1 in `start` or `end` is the source's "not set". */
  datatype Scan = Scan(argv: seq<Word>, first: nat, optind: nat, place: Word, start: int, end: int)

  /** Read words occupy first..optind: options before `start`, skipped words from `start` to `end`,
      options again from `end` on. */
  ghost predicate Good(s: Scan) {
    && s.first <= s.optind <= |s.argv|
    && (s.place != "" ==> s.optind < |s.argv| && (s.start == -1 || s.end != -1))
    && (if s.start == -1 then s.end == -1
        else if s.end == -1 then s.first <= s.start < s.optind
        else s.first <= s.start < s.end <= s.optind && (s.place == "" ==> s.end < s.optind))
  }

  ghost function Taken(s: Scan): seq<Word>
    requires Good(s)
  {
    if s.start == -1 then s.argv[s.first..s.optind]
    else if s.end == -1 then s.argv[s.first..s.start]
    else s.argv[s.first..s.start] + s.argv[s.end..s.optind]
  }

  ghost function Skipped(s: Scan): seq<Word>
    requires Good(s)
  {
    if s.start == -1 then []
    else if s.end == -1 then s.argv[s.start..s.optind]
    else s.argv[s.start..s.end]
  }

  ghost function Unread(s: Scan): seq<Word>
    requires Good(s)
  {
    s.argv[s.optind..]
  }

  ghost function Ahead(g: Grammar, s: Scan): Reading
    requires Good(s)
  {
    Read(g, s.place, Unread(s))
  }

  /** Where a call picks the scan up. After a stop on a trailing dash with words skipped, the skipped
      block ends at the word with the dash, which is read again from its start. */
  ghost function Resumed(s: Scan): Scan {
    if s.place == "" && s.end == s.optind && s.optind < |s.argv| && s.argv[s.optind] != ""
    then s.(place := Opened(s.argv[s.optind]))
    else s
  }

  lemma GoodResumes(s: Scan)
    requires Good(s)
    ensures Resumed(s) == s
  {
  }

  /** How many of the taken words lie before the skipped block. */
  ghost function Before(s: Scan): nat
    requires Good(s)
  {
    if s.start == -1 then 0 else s.start - s.first
  }

  /** What the scan will have taken, skipped and left when it is over; `cut` is how many words will have
      been taken before the last one skipped. */
  datatype Goal = Goal(head: seq<Word>, taken: seq<Word>, skipped: seq<Word>, rest: seq<Word>, cut: nat, dash: bool)

  ghost function GoalWith(s: Scan, r: Reading): Goal
    requires Good(s) && |r.marks| <= |Unread(s)|
  {
    Goal(s.argv[..s.first],
         Taken(s) + Chosen(Unread(s), r.marks, true),
         Skipped(s) + Chosen(Unread(s), r.marks, false),
         Unread(s)[|r.marks|..],
         if false in r.marks then |Taken(s)| + Cut(r.marks) else Before(s),
         r.dash)
  }

  ghost function GoalOf(g: Grammar, s: Scan): Goal
    requires Good(s)
  {
    GoalWith(s, Ahead(g, s))
  }

  /** The vector a goal asks for. */
  ghost function Laid(goal: Goal): seq<Word> {
    goal.head + goal.taken + goal.skipped + goal.rest
  }

  /** One event was reported on the way from s to t. */
  ghost predicate Reports(g: Grammar, s: Scan, e: Event, t: Scan) {
    && Good(s) && Good(t)
    && Ahead(g, s).events == [e] + Ahead(g, t).events
    && GoalOf(g, t) == GoalOf(g, s)
  }

  /** Nothing was reported, and nothing about the outcome changed. */
  ghost predicate Continues(g: Grammar, s: Scan, t: Scan) {
    && Good(s) && Good(t)
    && Ahead(g, t).events == Ahead(g, s).events
    && GoalOf(g, t) == GoalOf(g, s)
  }

  /** The scan from s ended in t with the vector partitioned and optind at the first skipped word. */
  ghost predicate Completes(g: Grammar, s: Scan, t: Scan) {
    && Good(s) && Good(t) && t.place == "" && t.start == -1
    && Ahead(g, s).events == [] && !GoalOf(g, s).dash
    && t.argv == Laid(GoalOf(g, s))
    && t.optind == s.first + |GoalOf(g, s).taken|
  }

  /** The scan from s stopped on a trailing dash: t is the layout just before it, left as it was. */
  ghost predicate Stalls(g: Grammar, s: Scan, t: Scan) {
    && Good(s) && Good(t)
    && Ahead(g, s).events == [] && GoalOf(g, s).dash
    && GoalOf(g, s) == Goal(t.argv[..t.first], Taken(t), Skipped(t), Unread(t), Before(t), true)
  }

  /** The state after skipping the non-option at optind, moving newer options in front if need be. */
  ghost function AfterSkip(s: Scan): Scan
    requires Good(s) && s.optind < |s.argv|
  {
    s.(argv := if s.end != -1 then Exchanged(s.argv, s.start, s.end, s.optind) else s.argv,
       start := if s.start == -1 then s.optind else if s.end != -1 then s.optind - (s.end - s.start) else s.start,
       end := -1,
       optind := s.optind + 1)
  }

  /** The blocks of an exchanged vector. */
  lemma BlocksOf(v: seq<Word>, start: nat, mid: nat, end: nat)
    requires start <= mid <= end <= |v|
    ensures var r := Exchanged(v, start, mid, end); var cut := start + (end - mid);
      && |r| == |v|
      && r[..start] == v[..start]
      && r[start..cut] == v[mid..end]
      && r[cut..end] == v[start..mid]
      && r[end..] == v[end..]
  {
  }

  lemma SkipLayout(s: Scan)
    requires Good(s) && s.place == "" && s.optind < |s.argv|
    ensures |AfterSkip(s).argv| == |s.argv| && Good(AfterSkip(s))
    ensures AfterSkip(s).argv[..s.first] == s.argv[..s.first]
    ensures Taken(AfterSkip(s)) == Taken(s)
    ensures Skipped(AfterSkip(s)) == Skipped(s) + [s.argv[s.optind]]
    ensures Unread(AfterSkip(s)) == Unread(s)[1..]
    ensures Before(AfterSkip(s)) == |Taken(s)|
  {
    var t := AfterSkip(s);
    if s.end != -1 {
      BlocksOf(s.argv, s.start, s.end, s.optind);
      assert t.argv[s.first..t.start] == s.argv[s.first..s.start] + s.argv[s.end..s.optind] by {
        assert t.argv[s.first..s.start] == s.argv[s.first..s.start];
        assert t.argv[s.first..t.start] == t.argv[s.first..s.start] + t.argv[s.start..t.start];
      }
      assert t.argv[t.start..t.optind] == t.argv[t.start..s.optind] + [t.argv[s.optind]];
    }
  }

  lemma CutStep(mark: bool, marks: seq<bool>)
    ensures Cut([mark] + marks) == if false in marks then (if mark then 1 else 0) + Cut(marks) else 0
  {
    var all := [mark] + marks;
    assert all[1..] == marks;
    assert false in all <==> !mark || false in marks;
  }

  lemma SkipNonOption(g: Grammar, s: Scan)
    requires Good(s) && s.place == "" && s.optind < |s.argv|
    requires IsNonOption(g, s.argv[s.optind]) && g.mode.Permute?
    ensures Continues(g, s, AfterSkip(s))
  {
    SkipLayout(s);
    var w, r := Unread(s), Ahead(g, AfterSkip(s));
    assert Ahead(g, s).marks == [false] + r.marks;
    assert ([false] + r.marks)[1..] == r.marks;
    CutStep(false, r.marks);
  }

  lemma {:induction false} CutOnes(k: nat, marks: seq<bool>)
    ensures false in Ones(k) + marks <==> false in marks
    ensures Cut(Ones(k) + marks) == if false in marks then k + Cut(marks) else 0
    decreases k
  {
    if k == 0 {
      assert Ones(0) + marks == marks;
    } else {
      CutOnes(k - 1, marks);
      assert Ones(k) + marks == [true] + (Ones(k - 1) + marks);
      CutStep(true, Ones(k - 1) + marks);
    }
  }

  ghost function AfterOpen(s: Scan): Scan
    requires s.optind < |s.argv| && s.argv[s.optind] != ""
  {
    s.(place := Opened(s.argv[s.optind]), end := if s.start != -1 && s.end == -1 then s.optind else s.end)
  }

  lemma OpenWord(g: Grammar, s: Scan)
    requires Good(s) && s.place == "" && s.optind < |s.argv| && IsOptionWord(g, s.argv[s.optind])
    ensures Continues(g, s, AfterOpen(s))
  {
    assert Taken(AfterOpen(s)) == Taken(s);
  }

  lemma Slice(v: seq<Word>, a: nat, b: nat, c: nat)
    requires a <= b <= c <= |v|
    ensures v[a..c] == v[a..b] + v[b..c]
  {
  }

  lemma TakenGrows(s: Scan, t: Scan, used: nat)
    requires Good(s) && (s.start == -1 || s.end != -1) && s.optind + used <= |s.argv|
    requires t == s.(place := t.place, optind := s.optind + used) && Good(t)
    ensures Unread(t) == Unread(s)[used..] && Skipped(t) == Skipped(s)
    ensures Taken(t) == Taken(s) + Unread(s)[..used]
  {
    assert Unread(s)[..used] == s.argv[s.optind..s.optind + used];
    if s.start == -1 {
      Slice(s.argv, s.first, s.optind, t.optind);
    } else {
      Slice(s.argv, s.end, s.optind, t.optind);
    }
  }

  lemma Regrouped(a: seq<Word>, b: seq<Word>, c: seq<Word>)
    ensures (a + b) + c == a + (b + c)
  {
  }

  lemma DropTwice(v: seq<Word>, a: nat, b: nat)
    requires a + b <= |v|
    ensures v[a..][b..] == v[a + b..]
  {
  }

  lemma AdvanceGoal(s: Scan, t: Scan, used: nat, r: Reading, r': Reading)
    requires Good(s) && Good(t) && used <= |Unread(s)|
    requires s.first == t.first && s.argv == t.argv
    requires Unread(t) == Unread(s)[used..]
    requires Taken(t) == Taken(s) + Unread(s)[..used] && Skipped(t) == Skipped(s) && Before(t) == Before(s)
    requires |r'.marks| <= |Unread(t)|
    requires r.marks == Ones(used) + r'.marks && r.dash == r'.dash
    ensures GoalWith(t, r') == GoalWith(s, r)
  {
    hide Chosen, Cut, Taken, Skipped, Before;
    var u := Unread(s);
    ChosenAfterOnes(u, used, r'.marks);
    CutOnes(used, r'.marks);
    Regrouped(Taken(s), u[..used], Chosen(u[used..], r'.marks, true));
    DropTwice(u, used, |r'.marks|);
  }

  /** Reading one option advances over the words it used. */
  lemma TakeOption(g: Grammar, s: Scan, t: Scan)
    requires Good(s) && s.place != ""
    requires var a := Decode(g, s.place, |s.place| == |s.argv[s.optind]|, s.argv[s.optind + 1..]);
      a.Act? && t == s.(place := a.rest, optind := s.optind + a.used)
    ensures var a := Decode(g, s.place, |s.place| == |s.argv[s.optind]|, s.argv[s.optind + 1..]);
      Reports(g, s, a.event, t)
  {
    var u := Unread(s);
    assert u[1..] == s.argv[s.optind + 1..];
    ReadOption(g, s.place, u);
    var a := Decode(g, s.place, |s.place| == |u[0]|, u[1..]);
    TakenGrows(s, t, a.used);
    AdvanceGoal(s, t, a.used, Ahead(g, s), Ahead(g, t));
  }

  /** A non-option reported in place is taken like an option. */
  lemma TakeInOrder(g: Grammar, s: Scan, t: Scan)
    requires Good(s) && s.place == "" && s.start == -1 && s.optind < |s.argv|
    requires IsNonOption(g, s.argv[s.optind]) && g.mode.InOrder?
    requires t == s.(optind := s.optind + 1)
    ensures Reports(g, s, NonOption(s.argv[s.optind]), t)
  {
    TakenGrows(s, t, 1);
    assert Ones(1) == [true];
    AdvanceGoal(s, t, 1, Ahead(g, s), Ahead(g, t));
  }

  /** The state once the scan is over: the remaining options moved in front, optind at the skipped words. */
  ghost function AfterEnd(s: Scan, optind: nat): Scan
    requires Good(s) && s.optind <= optind <= |s.argv|
  {
    if s.end != -1 then
      s.(argv := Exchanged(s.argv, s.start, s.end, optind), optind := optind - (s.end - s.start), start := -1, end := -1)
    else if s.start != -1 then
      s.(optind := s.start, start := -1)
    else
      s.(optind := optind)
  }

  /** The exchanged vector shows options, then skipped words, then the rest. */
  lemma LayBlocks(v: seq<Word>, first: nat, start: nat, mid: nat, end: nat)
    requires first <= start <= mid <= end <= |v|
    ensures Exchanged(v, start, mid, end) == v[..first] + (v[first..start] + v[mid..end]) + v[start..mid] + v[end..]
  {
    assert v[..start] == v[..first] + v[first..start];
  }

  lemma Thirds(v: seq<Word>, a: nat, b: nat, c: nat)
    requires a <= b <= c <= |v|
    ensures v == v[..a] + v[a..b] + v[b..c] + v[c..]
  {
  }

  /** At the end of the vector the goal is reached. */
  lemma ReachEnd(g: Grammar, s: Scan)
    requires Good(s) && s.place == "" && s.optind == |s.argv|
    ensures Completes(g, s, AfterEnd(s, s.optind))
  {
    assert GoalOf(g, s) == Goal(s.argv[..s.first], Taken(s), Skipped(s), [], Before(s), false);
    if s.end != -1 {
      LayBlocks(s.argv, s.first, s.start, s.end, s.optind);
    } else if s.start != -1 {
      Thirds(s.argv, s.first, s.start, s.optind);
    } else {
      Thirds(s.argv, s.first, s.optind, s.optind);
    }
  }

  /** The scanner at "--": the mark of the end of the skipped block is set before the word is taken. */
  ghost function AtDashes(s: Scan): Scan
    requires Good(s)
  {
    s.(end := if s.start != -1 && s.end == -1 then s.optind else s.end)
  }

  ghost function AfterDashes(s: Scan): Scan
    requires Good(s) && s.place == "" && s.optind < |s.argv|
  {
    var e := AtDashes(s).end;
    if e != -1 then
      s.(argv := Exchanged(s.argv, s.start, e, s.optind + 1), optind := s.optind + 1 - (e - s.start), start := -1, end := -1)
    else
      s.(optind := s.optind + 1)
  }

  lemma DashesGoal(g: Grammar, s: Scan)
    requires Good(s) && s.place == "" && s.optind < |s.argv|
    requires !IsNonOption(g, s.argv[s.optind]) && s.argv[s.optind] == "--"
    ensures Ahead(g, s).events == []
    ensures GoalOf(g, s) ==
      Goal(s.argv[..s.first], Taken(s) + s.argv[s.optind..s.optind + 1], Skipped(s), s.argv[s.optind + 1..], Before(s), false)
  {
    var u := Unread(s);
    assert Ahead(g, s) == Reading([], [true], false);
    assert Chosen(u, [true], true) == [u[0]] && Chosen(u, [true], false) == [];
    assert [u[0]] == s.argv[s.optind..s.optind + 1];
  }

  lemma DashesLayout(s: Scan)
    requires Good(s) && s.place == "" && s.optind < |s.argv|
    ensures var t := AfterDashes(s); var more := s.argv[s.optind..s.optind + 1];
      && t.argv == s.argv[..s.first] + (Taken(s) + more) + Skipped(s) + s.argv[s.optind + 1..]
      && t.optind == s.first + |Taken(s) + more|
      && Good(t)
  {
    var more := s.argv[s.optind..s.optind + 1];
    var e := AtDashes(s).end;
    if e != -1 {
      LayBlocks(s.argv, s.first, s.start, e, s.optind + 1);
      Slice(s.argv, e, s.optind, s.optind + 1);
      assert Taken(s) + more == s.argv[s.first..s.start] + s.argv[e..s.optind + 1];
    } else {
      Thirds(s.argv, s.first, s.optind + 1, s.optind + 1);
      Slice(s.argv, s.first, s.optind, s.optind + 1);
    }
  }

  /** After "--" the goal is reached. */
  lemma ReachDashes(g: Grammar, s: Scan)
    requires Good(s) && s.place == "" && s.optind < |s.argv|
    requires !IsNonOption(g, s.argv[s.optind]) && s.argv[s.optind] == "--"
    ensures Completes(g, s, AfterDashes(s))
  {
    DashesGoal(g, s);
    DashesLayout(s);
  }

  /** Outside permuting mode nothing is skipped, so stopping at a non-option reaches the goal. */
  lemma ReachNonOption(g: Grammar, s: Scan)
    requires Good(s) && s.place == "" && s.start == -1 && s.optind < |s.argv|
    requires IsNonOption(g, s.argv[s.optind]) && g.mode.Posix?
    ensures Completes(g, s, s)
  {
    assert s.argv == s.argv[..s.first] + s.argv[s.first..s.optind] + s.argv[s.optind..];
  }

  /** On a trailing dash the scan stops with the skipped words where they lie. */
  lemma StopAtDash(g: Grammar, s: Scan)
    requires Good(s) && s.place != ""
    requires Decode(g, s.place, |s.place| == |s.argv[s.optind]|, s.argv[s.optind + 1..]).DashStop?
    ensures Stalls(g, s, s.(place := "-"))
  {
    assert Unread(s)[1..] == s.argv[s.optind + 1..];
  }

  lemma ContinuesThen(g: Grammar, s: Scan, t: Scan, u: Scan, e: Event)
    requires Continues(g, s, t)
    ensures Continues(g, t, u) ==> Continues(g, s, u)
    ensures Reports(g, t, e, u) ==> Reports(g, s, e, u)
    ensures Completes(g, t, u) && s.first == t.first ==> Completes(g, s, u)
    ensures Stalls(g, t, u) ==> Stalls(g, s, u)
  {
  }

  /** The events reported between s and t. */
  ghost predicate ReadSoFar(g: Grammar, s: Scan, events: seq<Event>, t: Scan) {
    && Good(s) && Good(t)
    && Ahead(g, s).events == events + Ahead(g, t).events
    && GoalOf(g, t) == GoalOf(g, s)
  }

  /** A fresh scan aims at the partition of the words it is given. */
  lemma FreshGoal(g: Grammar, s: Scan)
    requires Good(s) && s.place == "" && s.start == -1 && s.optind == s.first
    ensures var words := s.argv[s.first..]; var r := Read(g, "", words); var goal := GoalOf(g, s);
      && Ahead(g, s) == r
      && goal.head == s.argv[..s.first] && goal.dash == r.dash && goal.cut == Cut(r.marks)
      && goal.taken == Chosen(words, r.marks, true) && goal.skipped == Chosen(words, r.marks, false)
      && goal.rest == words[|r.marks|..]
      && Laid(goal) == s.argv[..s.first] + Partition(words, r.marks)
      && |goal.taken| + |goal.skipped| == |r.marks|
  {
    hide Read, Chosen;
    var words := s.argv[s.first..];
    var r := Read(g, "", words);
    ChosenCounts(words, r.marks);
    var t, f := Chosen(words, r.marks, true), Chosen(words, r.marks, false);
    assert [] + t == t && [] + f == f;
  }

  /** In any layout the words read fill the slots up to optind, the skipped ones in one block. */
  lemma LayoutOf(s: Scan)
    requires Good(s)
    ensures s.optind == s.first + |Taken(s)| + |Skipped(s)|
    ensures Before(s) <= |Taken(s)|
    ensures s.argv[s.first..] == Taken(s)[..Before(s)] + Skipped(s) + Taken(s)[Before(s)..] + Unread(s)
  {
  }
}
