/** The scanner itself: an object over the argument vector, permuting it in place as it reads. */
module Getopt {
  import opened Wrappers
  import opened LongOptions
  import opened Grammar
  import opened PermuteArgs
  import opened Scan

  /** Where a search for the next option ended. */
  datatype Status = AtOption | InPlace(word: Word) | Finished

  class Getopt {
    const grammar: Grammar
    const nargv: array<Word>
    ghost const first: nat
    var optind: nat
    var place: Word
    var nonoptStart: int
    var nonoptEnd: int

    ghost function View(): Scan
      reads this, nargv
    {
      Scan(nargv[..], first, optind, place, nonoptStart, nonoptEnd)
    }

    ghost predicate Valid()
      reads this, nargv
    {
      && Good(Resumed(View()))
      && (place != "" || nonoptEnd == optind ==> optind < nargv.Length && IsOptionWord(grammar, nargv[optind]))
      && (!grammar.mode.Permute? ==> nonoptStart == -1)
    }

    constructor (g: Grammar, argv: array<Word>, start: nat)
      requires start <= argv.Length
      ensures Valid()
      ensures grammar == g && nargv == argv && first == optind == start && place == "" && nonoptStart == nonoptEnd == -1
    {
      grammar, nargv, first := g, argv, start;
      optind, place, nonoptStart, nonoptEnd := start, "", -1, -1;
    }

    /** The long-option parser; None hands the text back as possible short options. */
    method ParseLong(text: Word, shortToo: bool) returns (e: Option<Event>)
      requires grammar.longs.Some? && optind < nargv.Length
      modifies this`optind
      ensures var a := DecodeLong(grammar.longs.value, text, shortToo, nargv[old(optind) + 1..]);
        && (a.None? ==> e.None? && optind == old(optind))
        && (a.Some? ==> e == Some(a.value.event) && optind == old(optind) + a.value.used)
    {
      var longs := grammar.longs.value;
      optind := optind + 1;
      var eq := IndexOf(text, '=');
      var m := FindMatch(longs, text[..eq], shortToo);
      if m.Ambiguous? {
        return Some(AmbiguousLong);
      }
      if m.NoMatch? {
        if shortToo {
          optind := optind - 1;
          return None;
        }
        return Some(UnknownLong);
      }
      var o := longs[m.index];
      if o.hasArg.NoArgument? && eq < |text| {
        return Some(UnwantedArgument(m.index));
      }
      var optarg: Option<Word> := None;
      if o.hasArg.RequiredArgument? || o.hasArg.OptionalArgument? {
        if eq < |text| {
          optarg := Some(text[eq + 1..]);
        } else if o.hasArg.RequiredArgument? {
          // the vector ends with a null word
          optarg := if optind < nargv.Length then Some(nargv[optind]) else None;
          optind := optind + 1;
        }
      }
      if o.hasArg.RequiredArgument? && optarg.None? {
        optind := optind - 1;
        return Some(MissingLongArgument(m.index));
      }
      return Some(Long(m.index, optarg));
    }

    method ReadShort() returns (r: Option<Event>)
      requires place != "" && optind < nargv.Length
      modifies this`optind, this`place
      ensures var a := DecodeShort(grammar, old(place), nargv[old(optind) + 1..]);
        && (a.Act? ==> r == Some(a.event) && place == a.rest && optind == old(optind) + a.used)
        && (a.DashStop? ==> r.None? && place == "" && optind == old(optind))
    {
      hide DecodeLong, IndexOf;
      var options := grammar.options;
      var c := place[0];
      place := place[1..];
      var i := IndexOf(options, c);
      if c == ':' || (c == '-' && place != "") || i == |options| {
        if c == '-' && place == "" {
          return None;
        }
        if place == "" {
          optind := optind + 1;
        }
        return Some(UnknownShort(c));
      }
      if grammar.longs.Some? && c == 'W' && HasAt(options, i + 1, ';') {
        if place == "" {
          optind := optind + 1;
          if optind >= nargv.Length {
            return Some(MissingArgument(c));
          }
          place := nargv[optind];
        }
        r := ParseLong(place, false);
        place := "";
        return;
      }
      if !HasAt(options, i + 1, ':') {
        if place == "" {
          optind := optind + 1;
        }
        return Some(Short(c, None));
      }
      var optarg: Option<Word> := None;
      if place != "" {
        optarg := Some(place);
      } else if !HasAt(options, i + 2, ':') {
        optind := optind + 1;
        if optind >= nargv.Length {
          return Some(MissingArgument(c));
        }
        optarg := Some(nargv[optind]);
      }
      place := "";
      optind := optind + 1;
      return Some(Short(c, optarg));
    }

    /** Reads the option at `place`; None is the stop on a trailing dash. */
    method ReadPlace() returns (r: Option<Event>)
      requires place != "" && optind < nargv.Length
      modifies this`optind, this`place
      ensures var a := Decode(grammar, old(place), |old(place)| == |nargv[old(optind)]|, nargv[old(optind) + 1..]);
        && (a.Act? ==> r == Some(a.event) && place == a.rest && optind == old(optind) + a.used)
        && (a.DashStop? ==> r.None? && place == "" && optind == old(optind))
    {
      if grammar.longs.Some? && |place| != |nargv[optind]| && (place[0] == '-' || grammar.longOnly) {
        var shortToo := false;
        var text := place;
        if place[0] == '-' {
          text := place[1..];
        } else if place[0] != ':' && place[0] in grammar.options {
          shortToo := true;
        }
        r := ParseLong(text, shortToo);
        if r.Some? {
          place := "";
          return;
        }
      }
      r := ReadShort();
    }

    /** The end of the vector: options read after the skipped words move in front of them. */
    method EndOfVector()
      requires Good(View()) && place == ""
      modifies this`optind, this`nonoptStart, this`nonoptEnd, nargv
      ensures View() == AfterEnd(old(View()), old(optind))
    {
      if nonoptEnd != -1 {
        PermuteArgs.PermuteArgs(nonoptStart, nonoptEnd, optind, nargv);
        optind := optind - (nonoptEnd - nonoptStart);
      } else if nonoptStart != -1 {
        optind := nonoptStart;
      }
      nonoptStart, nonoptEnd := -1, -1;
    }

    /** A non-option: options read since the last one move in front of the skipped words. */
    method SkipWord()
      requires Good(View()) && place == "" && optind < nargv.Length
      modifies this`optind, this`nonoptStart, this`nonoptEnd, nargv
      ensures View() == AfterSkip(old(View()))
    {
      if nonoptStart == -1 {
        nonoptStart := optind;
      } else if nonoptEnd != -1 {
        PermuteArgs.PermuteArgs(nonoptStart, nonoptEnd, optind, nargv);
        nonoptStart := optind - (nonoptEnd - nonoptStart);
        nonoptEnd := -1;
      }
      optind := optind + 1;
    }

    method EndAtDashes()
      requires Good(View()) && place == "" && optind < nargv.Length
      modifies this`optind, this`nonoptStart, this`nonoptEnd, nargv
      ensures View() == AfterDashes(old(View()))
    {
      if nonoptStart != -1 && nonoptEnd == -1 {
        nonoptEnd := optind;
      }
      optind := optind + 1;
      if nonoptEnd != -1 {
        PermuteArgs.PermuteArgs(nonoptStart, nonoptEnd, optind, nargv);
        optind := optind - (nonoptEnd - nonoptStart);
      }
      nonoptStart, nonoptEnd := -1, -1;
    }

    method OpenOption()
      requires optind < nargv.Length && nargv[optind] != ""
      modifies this`place, this`nonoptEnd
      ensures View() == AfterOpen(old(View()))
    {
      if nonoptStart != -1 && nonoptEnd == -1 {
        nonoptEnd := optind;
      }
      var w := nargv[optind];
      place := if |w| == 1 then w else w[1..];
    }

    /** Scans up to the next option: skips non-options, and ends the scan at the end of the vector,
        after "--", or at a non-option outside permuting mode. */
    method FindOption() returns (status: Status)
      requires Valid()
      modifies this`optind, this`place, this`nonoptStart, this`nonoptEnd, nargv
      ensures Valid()
      ensures status.AtOption? ==> place != "" && Continues(grammar, Resumed(old(View())), View())
      ensures status.InPlace? ==> Reports(grammar, Resumed(old(View())), NonOption(status.word), View())
      ensures status.Finished? ==> Completes(grammar, Resumed(old(View())), View())
    {
      hide Ahead, GoalOf, Laid, AfterEnd, AfterDashes;
      ghost var s0 := Resumed(View());
      while place == ""
        invariant Valid() && Continues(grammar, s0, Resumed(View()))
        decreases nargv.Length - optind, place == ""
      {
        ghost var s := View();
        if optind >= nargv.Length {
          ReachEnd(grammar, s);
          EndOfVector();
          return Finished;
        }
        var w := nargv[optind];
        if w == "" || w[0] != '-' || (|w| == 1 && '-' !in grammar.options) {
          if grammar.mode.InOrder? {
            optind := optind + 1;
            TakeInOrder(grammar, s, View());
            return InPlace(w);
          }
          if !grammar.mode.Permute? {
            ReachNonOption(grammar, s);
            return Finished;
          }
          SkipNonOption(grammar, s);
          SkipWord();
        } else if w == "--" {
          ReachDashes(grammar, s);
          EndAtDashes();
          return Finished;
        } else {
          if nonoptEnd != optind { OpenWord(grammar, s); }
          OpenOption();
        }
      }
      return AtOption;
    }

    /** One call of the scanner: the next event of the reading, or None with the scan over. The caller
        may go on after that; after a trailing dash the same word is read once more. */
    method Next() returns (r: Option<Event>)
      requires Valid()
      modifies this`optind, this`place, this`nonoptStart, this`nonoptEnd, nargv
      ensures Valid()
      ensures r.Some? ==> Reports(grammar, Resumed(old(View())), r.value, View())
      ensures r.None? ==>
        || Completes(grammar, Resumed(old(View())), View())
        || (place == "" && Stalls(grammar, Resumed(old(View())), View().(place := "-")))
    {
      hide Ahead, GoalOf, Laid, Taken, Skipped, Unread, Decode;
      ghost var s0 := Resumed(View());
      var status := FindOption();
      if status.InPlace? {
        return Some(NonOption(status.word));
      }
      if status.Finished? {
        return None;
      }
      ghost var s := View();
      r := ReadPlace();
      if r.Some? {
        TakeOption(grammar, s, View());
        ContinuesThen(grammar, s0, s, View(), r.value);
      } else {
        StopAtDash(grammar, s);
        ContinuesThen(grammar, s0, s, View().(place := "-"), NonOption(""));
      }
    }
  }

  /** Calls the scanner until it reports the end, as its users do, and collects the events. */
  method ScanAll(g: Grammar, argv: array<Word>, start: nat) returns (events: seq<Event>, optind: nat)
    requires start <= argv.Length
    modifies argv
    ensures var words := old(argv[start..]); var r := Read(g, "", words);
      && events == r.events
      && argv[..start] == old(argv[..start])
      && (!r.dash ==> argv[start..] == Partition(words, r.marks) && optind == start + |Chosen(words, r.marks, true)|)
      && (r.dash ==> argv[start..] == Interrupted(words, r.marks) && optind == start + |r.marks|)
    // the partition is reached exactly when no trailing dash ends a scan that has skipped a word
    ensures var words := old(argv[start..]); var r := Read(g, "", words);
      (argv[start..] == Partition(words, r.marks) && optind == start + |Chosen(words, r.marks, true)|)
        <==> !(r.dash && false in r.marks)
    // at a trailing dash the vector alone, the word with the dash counted among the options, and
    // `optind` alone are right exactly if no word has been skipped
    ensures var words := old(argv[start..]); var r := Read(g, "", words);
      r.dash ==> (
        && |r.marks| < |words|
        && (argv[start..] == Partition(words, r.marks + [true]) <==> false !in r.marks)
        && (optind == start + |Chosen(words, r.marks, true)| <==> false !in r.marks))
  {
    hide Ahead, GoalOf, Good, Read, Chosen, Taken, Skipped, Unread, Before, Cut;
    ghost var argv0 := argv[start..];
    var scanner := new Getopt(g, argv, start);
    ghost var s0 := scanner.View();
    FreshGoal(g, s0);
    events := [];
    ghost var s := s0;
    GoodResumes(s0);
    var e := scanner.Next();
    while e.Some?
      invariant scanner.grammar == g && scanner.nargv == argv && scanner.first == start
      invariant ReadSoFar(g, s0, events, s) && s.first == start
      invariant scanner.Valid()
      invariant e.Some? ==> Reports(g, s, e.value, scanner.View())
      invariant e.None? ==> Completes(g, s, scanner.View()) || Stalls(g, s, scanner.View().(place := "-"))
      decreases |Ahead(g, s).events|, e.Some?
    {
      events := events + [e.value];
      s := scanner.View();
      GoodResumes(s);
      e := scanner.Next();
    }
    optind := scanner.optind;
    if GoalOf(g, s).dash {
      LayoutOf(scanner.View().(place := "-"));
      DashPartitionIff(g, argv0);
      NoneSkipped(argv0, Read(g, "", argv0).marks);
      ChosenCounts(argv0, Read(g, "", argv0).marks);
    }
  }
}
