/** What an argument vector means to the scanner, read from left to right without moving anything. */
module Grammar {
  import opened Wrappers
  import opened LongOptions

  type Word = string

  /** How non-options are treated: moved behind the options, returned in place, or ending the scan. */
  datatype Mode = Permute | InOrder | Posix

  /** `options` is the option string without its leading '+' or '-'. */
  datatype Grammar = Grammar(options: string, longs: Option<seq<LongOption>>, longOnly: bool, mode: Mode)

  /** What one call reports: the return code together with optarg, optopt and the long-option index. */
  datatype Event =
    | Short(c: char, arg: Option<Word>)
    | UnknownShort(c: char)
    | MissingArgument(c: char)
    | NonOption(word: Word)
    | Long(index: nat, longArg: Option<Word>)
    | AmbiguousLong
    | UnknownLong
    | UnwantedArgument(index: nat)
    | MissingLongArgument(index: nat)

  /** The effect of one option: `rest` of the cluster still to read, and how many words are used up. */
  datatype Action = DashStop | Act(event: Event, rest: Word, used: nat)

  function IndexOf(s: string, c: char): (i: nat)
    ensures i <= |s|
    ensures i < |s| ==> s[i] == c
    ensures forall j :: 0 <= j < i ==> s[j] != c
  {
    if s == [] || s[0] == c then 0 else 1 + IndexOf(s[1..], c)
  }

  predicate HasAt(s: string, i: nat, c: char) {
    i < |s| && s[i] == c
  }

  predicate IsNonOption(g: Grammar, w: Word) {
    || w == "" || w[0] != '-'
    || (|w| == 1 && '-' !in g.options)
  }

  /** A long option read from `text`; `next` are the words after the current one. None means that
      the text may still be short options. */
  ghost function DecodeLong(longs: seq<LongOption>, text: Word, shortToo: bool, next: seq<Word>): (a: Option<Action>)
    ensures a.Some? ==> a.value.Act? && a.value.rest == "" && 1 <= a.value.used <= 1 + |next|
    ensures a.None? ==> shortToo
  {
    var eq := IndexOf(text, '=');
    match MatchOf(longs, text[..eq], shortToo)
    case Ambiguous => Some(Act(AmbiguousLong, "", 1))
    case NoMatch => if shortToo then None else Some(Act(UnknownLong, "", 1))
    case Found(i) =>
      if eq < |text| then
        if longs[i].hasArg.NoArgument? then Some(Act(UnwantedArgument(i), "", 1))
        else Some(Act(Long(i, Some(text[eq + 1..])), "", 1))
      else if longs[i].hasArg.RequiredArgument? then
        if next == [] then Some(Act(MissingLongArgument(i), "", 1))
        else Some(Act(Long(i, Some(next[0])), "", 2))
      else Some(Act(Long(i, None), "", 1))
  }

  /** A short option at the head of a cluster. */
  ghost function DecodeShort(g: Grammar, place: Word, next: seq<Word>): (a: Action)
    requires place != ""
    ensures a.Act? ==> a.used <= 1 + |next| && (a.rest == "" <==> 0 < a.used) && |a.rest| < |place|
  {
    var c, rest := place[0], place[1..];
    var one := if rest == "" then 1 else 0;
    var i := IndexOf(g.options, c);
    if c == ':' || (c == '-' && rest != "") || i == |g.options| then
      if c == '-' && rest == "" then DashStop else Act(UnknownShort(c), rest, one)
    else if g.longs.Some? && c == 'W' && HasAt(g.options, i + 1, ';') then
      if rest != "" then DecodeLong(g.longs.value, rest, false, next).value
      else if next == [] then Act(MissingArgument(c), "", 1)
      else
        var a := DecodeLong(g.longs.value, next[0], false, next[1..]).value;
        a.(used := 1 + a.used)
    else if !HasAt(g.options, i + 1, ':') then
      Act(Short(c, None), rest, one)
    else if rest != "" then
      Act(Short(c, Some(rest)), "", 1)
    else if HasAt(g.options, i + 2, ':') then
      Act(Short(c, None), "", 1)
    else if next == [] then
      Act(MissingArgument(c), "", 1)
    else
      Act(Short(c, Some(next[0])), "", 2)
  }

  /** The option at `place`, the unread part of the current word. */
  ghost function Decode(g: Grammar, place: Word, atStart: bool, next: seq<Word>): (a: Action)
    requires place != ""
    ensures a.Act? ==> a.used <= 1 + |next| && (a.rest == "" <==> 0 < a.used) && |a.rest| < |place|
  {
    if g.longs.Some? && !atStart && (place[0] == '-' || g.longOnly) then
      var dashed := place[0] == '-';
      var shortToo := !dashed && place[0] != ':' && place[0] in g.options;
      var text := if dashed then place[1..] else place;
      match DecodeLong(g.longs.value, text, shortToo, next)
      case Some(a) => a
      case None => DecodeShort(g, place, next)
    else
      DecodeShort(g, place, next)
  }

  /** An option word without its leading dash; a lone dash stands for itself. */
  function Opened(w: Word): (place: Word)
    requires w != ""
    ensures place != ""
  {
    if |w| == 1 then w else w[1..]
  }

  /** The reading of a word list: the events in order; for each word read, whether it belongs to
      the options (true) or was skipped (false); and whether the scan ended on a lone trailing dash. */
  datatype Reading = Reading(events: seq<Event>, marks: seq<bool>, dash: bool)

  function Ones(k: nat): (m: seq<bool>)
    ensures |m| == k && forall i :: 0 <= i < k ==> m[i]
  {
    seq(k, _ => true)
  }

  ghost function Read(g: Grammar, place: Word, words: seq<Word>): (r: Reading)
    requires place != "" ==> words != []
    ensures |r.marks| <= |words|
    decreases |words|, if place == "" then if words == [] then 0 else |words[0]| + 1 else |place|
  {
    if place == "" then
      if words == [] then Reading([], [], false)
      else if IsNonOption(g, words[0]) then
        match g.mode
        case Permute =>
          var r := Read(g, "", words[1..]);
          r.(marks := [false] + r.marks)
        case InOrder =>
          var r := Read(g, "", words[1..]);
          Reading([NonOption(words[0])] + r.events, [true] + r.marks, r.dash)
        case Posix => Reading([], [], false)
      else if words[0] == "--" then Reading([], [true], false)
      else Read(g, Opened(words[0]), words)
    else
      match Decode(g, place, |place| == |words[0]|, words[1..])
      case DashStop => Reading([], [], true)
      case Act(e, rest, used) =>
        var r := Read(g, rest, words[used..]);
        Reading([e] + r.events, Ones(used) + r.marks, r.dash)
  }

  lemma ReadOption(g: Grammar, place: Word, words: seq<Word>)
    requires place != "" && words != []
    ensures var a := Decode(g, place, |place| == |words[0]|, words[1..]);
      a.Act? ==>
        var r := Read(g, a.rest, words[a.used..]);
        Read(g, place, words) == Reading([a.event] + r.events, Ones(a.used) + r.marks, r.dash)
  {
  }

  /** The words carrying the given mark, in order. */
  function Chosen(words: seq<Word>, marks: seq<bool>, mark: bool): (s: seq<Word>)
    requires |marks| <= |words|
    ensures |s| <= |marks|
    decreases |marks|
  {
    if marks == [] then []
    else (if marks[0] == mark then [words[0]] else []) + Chosen(words[1..], marks[1..], mark)
  }

  /** The stable partition: option words in order, then skipped words in order, then the unread rest. */
  function Partition(words: seq<Word>, marks: seq<bool>): seq<Word>
    requires |marks| <= |words|
  {
    Chosen(words, marks, true) + Chosen(words, marks, false) + words[|marks|..]
  }

  /** The option words read before the last skipped word. */
  function Cut(marks: seq<bool>): nat {
    if false !in marks then 0 else (if marks[0] then 1 else 0) + Cut(marks[1..])
  }

  lemma {:induction false} CutWithin(words: seq<Word>, marks: seq<bool>)
    requires |marks| <= |words|
    ensures Cut(marks) <= |Chosen(words, marks, true)|
    decreases |marks|
  {
    if marks != [] { CutWithin(words[1..], marks[1..]); }
  }

  /** Where a trailing dash leaves the words: the options read since the last skipped word are still
      behind the skipped block. */
  function Interrupted(words: seq<Word>, marks: seq<bool>): seq<Word>
    requires |marks| <= |words|
  {
    var t := Chosen(words, marks, true);
    CutWithin(words, marks);
    t[..Cut(marks)] + Chosen(words, marks, false) + t[Cut(marks)..] + words[|marks|..]
  }

  lemma ChosenStep(words: seq<Word>, marks: seq<bool>, mark: bool)
    requires 0 < |marks| <= |words|
    ensures Chosen(words, marks, mark)
      == (if marks[0] == mark then [words[0]] else []) + Chosen(words[1..], marks[1..], mark)
  {
  }

  lemma {:induction false} ChosenSplit(words: seq<Word>, k: nat, m1: seq<bool>, m2: seq<bool>, mark: bool)
    requires |m1| == k && k + |m2| <= |words|
    ensures Chosen(words, m1 + m2, mark) == Chosen(words[..k], m1, mark) + Chosen(words[k..], m2, mark)
    decreases k
  {
    if k == 0 {
      assert m1 + m2 == m2 && words[0..] == words;
    } else {
      hide Chosen;
      ChosenSplit(words[1..], k - 1, m1[1..], m2, mark);
      ChosenStep(words, m1 + m2, mark);
      ChosenStep(words[..k], m1, mark);
      assert (m1 + m2)[1..] == m1[1..] + m2;
      assert words[1..][..k - 1] == words[..k][1..];
      assert words[1..][k - 1..] == words[k..];
    }
  }

  lemma {:induction false} ChosenOnes(words: seq<Word>, mark: bool)
    ensures Chosen(words, Ones(|words|), mark) == if mark then words else []
  {
    if words != [] {
      ChosenOnes(words[1..], mark);
      assert Ones(|words|)[1..] == Ones(|words[1..]|);
    }
  }

  lemma ChosenAfterOnes(words: seq<Word>, k: nat, m: seq<bool>)
    requires k + |m| <= |words|
    ensures Chosen(words, Ones(k) + m, true) == words[..k] + Chosen(words[k..], m, true)
    ensures Chosen(words, Ones(k) + m, false) == Chosen(words[k..], m, false)
  {
    ChosenSplit(words, k, Ones(k), m, true);
    ChosenSplit(words, k, Ones(k), m, false);
    ChosenOnes(words[..k], true);
    ChosenOnes(words[..k], false);
  }

  lemma {:induction false} ChosenCounts(words: seq<Word>, marks: seq<bool>)
    requires |marks| <= |words|
    ensures |Chosen(words, marks, true)| + |Chosen(words, marks, false)| == |marks|
    decreases |marks|
  {
    if marks != [] { ChosenCounts(words[1..], marks[1..]); }
  }

  lemma {:induction false} ChosenKeepWords(words: seq<Word>, marks: seq<bool>)
    requires |marks| <= |words|
    ensures multiset(Chosen(words, marks, true)) + multiset(Chosen(words, marks, false)) == multiset(words[..|marks|])
    decreases |marks|
  {
    if marks != [] {
      ChosenKeepWords(words[1..], marks[1..]);
      assert words[..|marks|] == [words[0]] + words[1..][..|marks[1..]|];
    }
  }

  /** Nothing is lost, added or duplicated. */
  lemma PartitionKeepsWords(words: seq<Word>, marks: seq<bool>)
    requires |marks| <= |words|
    ensures multiset(Partition(words, marks)) == multiset(words)
  {
    ChosenKeepWords(words, marks);
    assert words == words[..|marks|] + words[|marks|..];
  }

  /** What the characters of a word say: it does not begin with a dash, or is a dash that is no option. */
  predicate IsPlain(g: Grammar, w: Word) {
    w == "" || w[0] != '-' || (w == "-" && '-' !in g.options)
  }

  /** Only non-options are ever skipped, and only when permuting. */
  ghost predicate SkipsNonOptions(g: Grammar, words: seq<Word>, marks: seq<bool>)
    requires |marks| <= |words|
  {
    forall i :: 0 <= i < |marks| && !marks[i] ==> g.mode.Permute? && IsPlain(g, words[i])
  }

  /** The scan leaves words unread only after "--", on a trailing dash, or at a non-option outside
      permuting mode. */
  ghost predicate StopsInTime(g: Grammar, words: seq<Word>, r: Reading)
    requires |r.marks| <= |words|
  {
    || |r.marks| == |words|
    || r.dash
    || (0 < |r.marks| && words[|r.marks| - 1] == "--")
    || (g.mode.Posix? && IsPlain(g, words[|r.marks|]))
  }

  /** The two facts carry over from the words after the first k. */
  lemma LaterWords(g: Grammar, words: seq<Word>, k: nat, later: Reading, all: Reading)
    requires |all.marks| == k + |later.marks| <= |words|
    requires all.marks[k..] == later.marks && all.dash == later.dash
    requires SkipsNonOptions(g, words[..k], all.marks[..k])
    requires SkipsNonOptions(g, words[k..], later.marks) && StopsInTime(g, words[k..], later)
    ensures SkipsNonOptions(g, words, all.marks) && StopsInTime(g, words, all)
  {
    forall i | 0 <= i < |all.marks| && !all.marks[i]
      ensures g.mode.Permute? && IsPlain(g, words[i])
    {
      if i < k {
        assert !all.marks[..k][i] && words[..k][i] == words[i];
      } else {
        assert !later.marks[i - k] && words[k..][i - k] == words[i];
      }
    }
  }

  lemma {:induction false} SkippedAreNonOptions(g: Grammar, place: Word, words: seq<Word>)
    requires place != "" ==> words != []
    ensures SkipsNonOptions(g, words, Read(g, place, words).marks)
    ensures StopsInTime(g, words, Read(g, place, words))
    decreases |words|, if place == "" then if words == [] then 0 else |words[0]| + 1 else |place|
  {
    if place == "" {
      if words == [] {
      } else if IsNonOption(g, words[0]) {
        if !g.mode.Posix? {
          SkippedAreNonOptions(g, "", words[1..]);
          LaterWords(g, words, 1, Read(g, "", words[1..]), Read(g, "", words));
        }
      } else if words[0] != "--" {
        SkippedAreNonOptions(g, Opened(words[0]), words);
      }
    } else {
      ReadOption(g, place, words);
      match Decode(g, place, |place| == |words[0]|, words[1..])
      case DashStop =>
      case Act(e, rest, used) =>
        SkippedAreNonOptions(g, rest, words[used..]);
        LaterWords(g, words, used, Read(g, rest, words[used..]), Read(g, place, words));
    }
  }

  lemma {:induction false} NoneSkipped(words: seq<Word>, marks: seq<bool>)
    requires |marks| <= |words|
    ensures Chosen(words, marks, false) == [] <==> false !in marks
    decreases |marks|
  {
    if marks != [] {
      NoneSkipped(words[1..], marks[1..]);
      assert marks == [marks[0]] + marks[1..];
    }
  }

  lemma {:induction false} SkippedWords(g: Grammar, words: seq<Word>, marks: seq<bool>)
    requires |marks| <= |words| && SkipsNonOptions(g, words, marks)
    ensures forall i :: 0 <= i < |Chosen(words, marks, false)| ==> IsNonOption(g, Chosen(words, marks, false)[i])
    decreases |marks|
  {
    if marks != [] {
      assert forall i :: 0 <= i < |marks| - 1 ==> marks[1..][i] == marks[i + 1] && words[1..][i] == words[i + 1];
      SkippedWords(g, words[1..], marks[1..]);
    }
  }

  // ----- the trailing dash

  /** A word that is read as options. */
  predicate IsOptionWord(g: Grammar, w: Word) {
    !IsNonOption(g, w) && w != "--"
  }

  /** `place` is what is left to read of an option word. */
  predicate LeftOf(place: Word, w: Word) {
    || (|place| < |w| && w[|w| - |place|..] == place)
    || (|w| == 1 && place == w)
  }

  /** A cluster is read from left to right; only a dash that ends it can stop the scan, and only if
      there are no long options and the dash is not an option itself. */
  lemma StopsOnlyOnDash(g: Grammar, place: Word, w: Word, next: seq<Word>)
    requires place != "" && IsOptionWord(g, w) && LeftOf(place, w)
    ensures match Decode(g, place, |place| == |w|, next)
      case DashStop => g.longs.None? && '-' !in g.options && 3 <= |w| && w[|w| - 1] == '-'
      case Act(_, rest, _) => rest == "" || LeftOf(rest, w)
  {
    hide DecodeLong;
    var a := Decode(g, place, |place| == |w|, next);
    if a.DashStop? {
      assert place == "-" && w[|w| - 1] == place[0];
    } else if a.rest != "" {
      assert a.rest == place[1..];
    }
  }

  lemma LaterDash(g: Grammar, place: Word, words: seq<Word>, a: Action)
    requires place != "" && words != [] && a.Act? && a == Decode(g, place, |place| == |words[0]|, words[1..])
    ensures var r, later := Read(g, place, words), Read(g, a.rest, words[a.used..]);
      r.dash == later.dash && |r.marks| == a.used + |later.marks|
  {
    hide Decode;
    ReadOption(g, place, words);
  }

  /** Where a scan ends on a trailing dash: at a cluster of at least one character before the dash. */
  lemma {:induction false} DashStopsAt(g: Grammar, place: Word, words: seq<Word>)
    requires place != "" ==> words != [] && IsOptionWord(g, words[0]) && LeftOf(place, words[0])
    requires Read(g, place, words).dash
    ensures var k := |Read(g, place, words).marks|;
      && k < |words| && IsOptionWord(g, words[k])
      && 3 <= |words[k]| && words[k][0] == words[k][|words[k]| - 1] == '-'
      && g.longs.None? && '-' !in g.options
    decreases |words|, if place == "" then if words == [] then 0 else |words[0]| + 1 else |place|
  {
    hide Decode;
    if place == "" {
      if IsNonOption(g, words[0]) {
        DashStopsAt(g, "", words[1..]);
      } else {
        DashStopsAt(g, Opened(words[0]), words);
      }
    } else {
      StopsOnlyOnDash(g, place, words[0], words[1..]);
      var a := Decode(g, place, |place| == |words[0]|, words[1..]);
      if a.Act? {
        LaterDash(g, place, words, a);
        if a.used == 0 { assert words[0..] == words; }
        DashStopsAt(g, a.rest, words[a.used..]);
      }
    }
  }

  lemma {:induction false} AddMark(words: seq<Word>, marks: seq<bool>, mark: bool)
    requires |marks| < |words|
    ensures Chosen(words, marks + [true], mark) == Chosen(words, marks, mark) + if mark then [words[|marks|]] else []
    decreases |marks|
  {
    if marks == [] {
      assert [true][1..] == [] && Chosen(words[1..], [], mark) == [];
      assert marks + [true] == [true];
    } else {
      AddMark(words[1..], marks[1..], mark);
      assert (marks + [true])[1..] == marks[1..] + [true];
    }
  }

  lemma DashMarked(words: seq<Word>, marks: seq<bool>)
    requires |marks| < |words|
    ensures Chosen(words, marks + [true], true) == Chosen(words, marks, true) + [words[|marks|]]
    ensures Chosen(words, marks + [true], false) == Chosen(words, marks, false)
  {
    AddMark(words, marks, true);
    AddMark(words, marks, false);
  }

  lemma NothingCut(marks: seq<bool>)
    requires false !in marks
    ensures Cut(marks) == 0
  {
  }

  /** At a trailing dash the words lie as they should, the cluster with the dash counted among the
      options, exactly if no word has been skipped. */
  lemma DashPartitionIff(g: Grammar, words: seq<Word>)
    requires Read(g, "", words).dash
    ensures var m := Read(g, "", words).marks;
      |m| < |words| && (Interrupted(words, m) == Partition(words, m + [true]) <==> false !in m)
  {
    hide Read, Chosen, IsNonOption, Cut;
    var m := Read(g, "", words).marks;
    DashStopsAt(g, "", words);
    NoneSkipped(words, m);
    var t, f, w := Chosen(words, m, true), Chosen(words, m, false), words[|m|];
    DashMarked(words, m);
    CutWithin(words, m);
    assert words[|m|..] == [w] + words[|m| + 1..];
    if f == [] {
      NothingCut(m);
    } else {
      SkippedAreNonOptions(g, "", words);
      SkippedWords(g, words, m);
      assert Interrupted(words, m)[|t| + |f|] == w;
      assert Partition(words, m + [true])[|t| + |f|] == f[|f| - 1];
    }
  }

  /** A trailing dash ends the reading after a word has been skipped. */
  ghost predicate MissesPartition(g: Grammar, words: seq<Word>) {
    Read(g, "", words).dash && false in Read(g, "", words).marks
  }

  /** A cluster that works with every option string: a colon is never an option. */
  lemma ColonDash(g: Grammar)
    requires g.mode.Permute? && g.longs.None? && '-' !in g.options
    ensures Read(g, "", ["x", "-:-"]) == Reading([UnknownShort(':')], [false], true)
  {
    var words := ["-:-"];
    assert Decode(g, "-", false, []).DashStop?;
    assert Read(g, "-", words) == Reading([], [], true);
    assert ":-"[1..] == "-" && words[0..] == words;
    assert Decode(g, ":-", false, []) == Act(UnknownShort(':'), "-", 0);
    assert Read(g, ":-", words) == Reading([UnknownShort(':')], [], true);
    assert Opened("-:-") == ":-";
    assert Read(g, "", words) == Read(g, ":-", words);
    assert ["x", "-:-"][1..] == words;
  }

  /** What a caller can check beforehand: some vector is left unpartitioned exactly if the scan permutes,
      there are no long options and the dash is not an option. */
  lemma MissesPartitionIff(g: Grammar)
    ensures (exists words :: MissesPartition(g, words)) <==> g.mode.Permute? && g.longs.None? && '-' !in g.options
  {
    if words :| MissesPartition(g, words) {
      DashStopsAt(g, "", words);
      SkippedAreNonOptions(g, "", words);
    }
    if g.mode.Permute? && g.longs.None? && '-' !in g.options {
      ColonDash(g);
      assert MissesPartition(g, ["x", "-:-"]);
    }
  }

  lemma TwoWords(x: Word, w: Word)
    ensures Interrupted([x, w], [false]) == [x, w]
    ensures Partition([x, w], [false, true]) == [w, x]
  {
    assert [x, w][1..] == [w] && [w][1..] == [] && [false, true][1..] == [true] && [true][1..] == [];
    assert Chosen([w], [true], true) == [w] && Chosen([w], [true], false) == [];
  }

  /** A vector left unpartitioned: a skipped word before an option cluster ending in a dash. */
  lemma DashExample()
    ensures Read(Grammar("a", None, false, Permute), "", ["x", "-a-"]) == Reading([Short('a', None)], [false], true)
    ensures Interrupted(["x", "-a-"], [false]) == ["x", "-a-"]
    ensures Partition(["x", "-a-"], [false, true]) == ["-a-", "x"]
  {
    TwoWords("x", "-a-");
  }
}
