/** The conventions of the command line on the characters of the words, and where each word ends up. */
module Conventions {
  import opened Wrappers
  import opened LongOptions
  import opened Grammar
  import opened RoundTrip

  // ----- words that are no options

  /** A word that does not begin with a dash, or is a lone dash that is no option, is skipped, reported
      in place, or ends the scan, whichever the mode says; reading goes on behind it. */
  lemma PlainWordRead(g: Grammar, words: seq<Word>)
    requires words != []
    requires words[0] == "" || words[0][0] != '-' || (words[0] == "-" && '-' !in g.options)
    ensures var r := Read(g, "", words[1..]);
      Read(g, "", words) ==
        match g.mode
        case Permute => Reading(r.events, [false] + r.marks, r.dash)
        case InOrder => Reading([NonOption(words[0])] + r.events, [true] + r.marks, r.dash)
        case Posix => Reading([], [], false)
  {
  }

  /** Two dashes end the scan in every mode and belong to the options. */
  lemma DashesRead(g: Grammar, words: seq<Word>)
    requires words != [] && words[0] == "--"
    ensures Read(g, "", words) == Reading([], [true], false)
  {
  }

  /** Only a plain word is reported in place, and only in that mode. */
  ghost predicate InPlaceIsPlain(g: Grammar, words: seq<Word>, events: seq<Event>) {
    forall k :: 0 <= k < |events| && events[k].NonOption? ==>
      var w := events[k].word;
      g.mode.InOrder? && w in words && (w == "" || w[0] != '-' || (w == "-" && '-' !in g.options))
  }

  lemma LaterPlain(g: Grammar, words: seq<Word>, n: nat, e: Event, events: seq<Event>)
    requires n <= |words| && InPlaceIsPlain(g, words[n..], events) && InPlaceIsPlain(g, words, [e])
    ensures InPlaceIsPlain(g, words, [e] + events)
  {
    var all := [e] + events;
    forall k | 0 <= k < |all| && all[k].NonOption?
      ensures InPlaceIsPlain(g, words, [all[k]])
    {
      if k == 0 {
        assert all[k] == e;
      } else {
        assert all[k] == events[k - 1];
      }
    }
    assert forall k :: 0 <= k < |all| ==> [all[k]][0] == all[k];
  }

  lemma NeverInPlace(g: Grammar, place: Word, atStart: bool, next: seq<Word>)
    requires place != ""
    ensures var a := Decode(g, place, atStart, next); a.Act? ==> !a.event.NonOption?
  {
  }

  lemma {:induction false} ReportedArePlain(g: Grammar, place: Word, words: seq<Word>)
    requires place != "" ==> words != []
    ensures InPlaceIsPlain(g, words, Read(g, place, words).events)
    decreases |words|, if place == "" then if words == [] then 0 else |words[0]| + 1 else |place|
  {
    hide Decode;
    if place == "" {
      if words == [] {
      } else if IsNonOption(g, words[0]) {
        if !g.mode.Posix? {
          ReportedArePlain(g, "", words[1..]);
          var events := Read(g, "", words[1..]).events;
          if g.mode.InOrder? {
            LaterPlain(g, words, 1, NonOption(words[0]), events);
          }
        }
      } else if words[0] != "--" {
        ReportedArePlain(g, Opened(words[0]), words);
      }
    } else {
      ReadOption(g, place, words);
      NeverInPlace(g, place, |place| == |words[0]|, words[1..]);
      var a := Decode(g, place, |place| == |words[0]|, words[1..]);
      if a.Act? {
        ReportedArePlain(g, a.rest, words[a.used..]);
        LaterPlain(g, words, a.used, a.event, Read(g, a.rest, words[a.used..]).events);
      }
    }
  }

  /** A word of two or more characters that begins with a dash is never skipped, never reported in
      place, and never ends a scan as a non-option. */
  lemma DashedWordsAreOptions(g: Grammar, words: seq<Word>, w: Word)
    requires |w| >= 2 && w[0] == '-'
    ensures var r := Read(g, "", words);
      && (forall i :: 0 <= i < |r.marks| && words[i] == w ==> r.marks[i])
      && NonOption(w) !in r.events
      && (|r.marks| < |words| && words[|r.marks|] == w ==>
            r.dash || (0 < |r.marks| && words[|r.marks| - 1] == "--"))
  {
    SkippedAreNonOptions(g, "", words);
    ReportedArePlain(g, "", words);
  }

  // ----- dashes inside clusters

  lemma DashDecodes(g: Grammar, atStart: bool, next: seq<Word>)
    requires '-' in g.options && (atStart || g.longs.None?)
    ensures var after := g.options[IndexOf(g.options, '-') + 1..];
      Decode(g, "-", atStart, next) ==
        if !(":" <= after) || "::" <= after then Act(Short('-', None), "", 1)
        else if next == [] then Act(MissingArgument('-'), "", 1)
        else Act(Short('-', Some(next[0])), "", 2)
  {
    var i := IndexOf(g.options, '-');
    var after := g.options[i + 1..];
    assert ":" <= after <==> HasAt(g.options, i + 1, ':');
    assert "::" <= after <==> HasAt(g.options, i + 1, ':') && HasAt(g.options, i + 2, ':');
    assert "-"[1..] == "";
  }

  /** A dash that is listed as an option, at the end of a cluster or as the whole word. */
  lemma ListedDash(g: Grammar, words: seq<Word>)
    requires words != [] && '-' in g.options && (words[0] == "-" || (g.longs.None? && |words[0]| > 1))
    ensures var after := g.options[IndexOf(g.options, '-') + 1..];
      Read(g, "-", words) ==
        if !(":" <= after) || "::" <= after then Behind([Short('-', None)], 1, Read(g, "", words[1..]))
        else if |words| == 1 then Reading([MissingArgument('-')], [true], false)
        else Behind([Short('-', Some(words[1]))], 2, Read(g, "", words[2..]))
  {
    hide Decode, Read;
    DashDecodes(g, words[0] == "-", words[1..]);
    var a := Decode(g, "-", words[0] == "-", words[1..]);
    LastRead(g, "-", words, a.event, a.used);
    NothingToRead(g);
    if |words| == 1 && a.event.MissingArgument? {
      assert words[1..] == [] && Ones(1) + [] == [true] && [a.event] + [] == [a.event];
    }
  }

  /** A lone dash that is an option stands for itself. */
  lemma LoneDash(g: Grammar, words: seq<Word>)
    requires words != [] && words[0] == "-" && '-' in g.options
    ensures Read(g, "", words) == Read(g, "-", words)
  {
  }

  /** Without long options a dash inside a cluster is an unknown option, even if it is listed. */
  lemma DashInside(g: Grammar, rest: Word, words: seq<Word>)
    requires g.longs.None? && rest != "" && words != []
    ensures Read(g, "-" + rest, words) == Behind([UnknownShort('-')], 0, Read(g, rest, words))
  {
    var place := "-" + rest;
    assert place[1..] == rest && words[0..] == words;
    ReadOption(g, place, words);
  }

  lemma UnlistedDashStops(g: Grammar, words: seq<Word>)
    requires g.longs.None? && '-' !in g.options && words != []
    ensures Read(g, "-", words) == Reading([], [], true)
  {
    assert "-"[1..] == "";
  }

  /** Without long options, and unless it is listed, a dash at the end of a cluster ends the scan: what
      comes before it is reported, and the word counts as not read. */
  lemma TrailingDash(g: Grammar, cs: string, tail: seq<Word>)
    requires g.longs.None? && '-' !in g.options && cs != "" && StandAlone(g, cs)
    ensures Read(g, "", ["-" + (cs + "-")] + tail) == Reading(LoneEvents(g, cs), [], true)
  {
    hide DecodeShort;
    var words := ["-" + (cs + "-")] + tail;
    assert cs[0] != '-' && (cs + "-")[0] == cs[0];
    WordOpens(g, cs + "-", words);
    LettersRead(g, cs, "-", words);
    UnlistedDashStops(g, words);
    assert LoneEvents(g, cs) + [] == LoneEvents(g, cs);
  }

  lemma DashedDecodes(g: Grammar, text: Word, next: seq<Word>)
    requires g.longs.Some?
    ensures var a := Decode(g, "-" + text, false, next); a.Act? && a.rest == "" && 0 < a.used
  {
    hide DecodeLong, DecodeShort;
  }

  lemma SameTail(a: seq<Word>, b: seq<Word>, n: nat)
    requires a != [] && |a| == |b| && a[1..] == b[1..] && 0 < n <= |a|
    ensures a[n..] == b[n..]
  {
    assert a[n..] == a[1..][n - 1..] && b[n..] == b[1..][n - 1..];
  }

  /** With long options a dash inside a cluster starts a long option, as two dashes do. */
  lemma DashedLong(g: Grammar, text: Word, words: seq<Word>)
    requires g.longs.Some? && text != "" && words != [] && |text| + 1 < |words[0]|
    ensures Read(g, "-" + text, words) == Read(g, "", ["-" + ("-" + text)] + words[1..])
  {
    hide Decode, Read;
    var place := "-" + text;
    var long := ["-" + place] + words[1..];
    assert long[1..] == words[1..];
    WordOpens(g, place, long);
    DashedDecodes(g, text, words[1..]);
    var a := Decode(g, place, false, words[1..]);
    ReadOption(g, place, words);
    ReadOption(g, place, long);
    SameTail(words, long, a.used);
  }

  // ----- where the words end up

  /** How many marks are the given one. */
  function Marked(marks: seq<bool>, mark: bool): nat {
    if marks == [] then 0 else (if marks[0] == mark then 1 else 0) + Marked(marks[1..], mark)
  }

  /** A chosen word comes after as many chosen words as precede it. */
  lemma {:induction false} ChosenAt(words: seq<Word>, marks: seq<bool>, i: nat)
    requires i < |marks| <= |words|
    ensures var t := Chosen(words, marks, marks[i]); var k := Marked(marks[..i], marks[i]);
      k < |t| && t[k] == words[i]
    decreases i
  {
    if i > 0 {
      ChosenAt(words[1..], marks[1..], i - 1);
      assert marks[..i][1..] == marks[1..][..i - 1];
    } else {
      assert marks[..0] == [];
    }
  }

  lemma {:induction false} ChosenLength(words: seq<Word>, marks: seq<bool>, mark: bool)
    requires |marks| <= |words|
    ensures |Chosen(words, marks, mark)| == Marked(marks, mark)
    decreases |marks|
  {
    if marks != [] { ChosenLength(words[1..], marks[1..], mark); }
  }

  /** The partition word by word: an option word moves up past the skipped words before it, a skipped
      word moves behind all option words, and unread words stay. */
  lemma PartitionPlaces(words: seq<Word>, marks: seq<bool>, i: nat)
    requires |marks| <= |words| && i < |words|
    ensures |Partition(words, marks)| == |words|
    ensures var k :=
        if i >= |marks| then i
        else if marks[i] then Marked(marks[..i], true)
        else Marked(marks, true) + Marked(marks[..i], false);
      k < |words| && Partition(words, marks)[k] == words[i]
  {
    hide Chosen, Marked;
    var v, t, f := Partition(words, marks), Chosen(words, marks, true), Chosen(words, marks, false);
    ChosenCounts(words, marks);
    ChosenLength(words, marks, true);
    assert v == t + f + words[|marks|..];
    if i < |marks| { ChosenAt(words, marks, i); }
  }
}
