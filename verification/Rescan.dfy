/** Scanning a second time: what the permuted vector means, compared with the original. */
module Rescan {
  import opened Wrappers
  import opened LongOptions
  import opened Grammar

  predicate Missing(e: Event) {
    e.MissingArgument? || e.MissingLongArgument?
  }

  predicate AnyMissing(events: seq<Event>) {
    exists k :: 0 <= k < |events| && Missing(events[k])
  }

  lemma MissingAhead(e: Event, events: seq<Event>)
    ensures AnyMissing([e] + events) <==> Missing(e) || AnyMissing(events)
  {
    var all := [e] + events;
    if Missing(e) {
      assert Missing(all[0]);
    }
    if k :| 0 <= k < |events| && Missing(events[k]) {
      assert all[k + 1] == events[k];
    }
    if k :| 1 <= k < |all| && Missing(all[k]) {
      assert all[k] == events[k - 1];
    }
  }

  /** The words after the current one that an action has used. */
  function More(used: nat): nat {
    if used == 0 then 0 else used - 1
  }

  lemma LongLocal(longs: seq<LongOption>, text: Word, shortToo: bool, next: seq<Word>, next': seq<Word>)
    requires DecodeLong(longs, text, shortToo, next).Some?
    ensures var a := DecodeLong(longs, text, shortToo, next).value; var b := DecodeLong(longs, text, shortToo, next');
      && (!Missing(a.event) && next[..More(a.used)] <= next' ==> b == Some(a))
      && (Missing(a.event) ==> next == [] && a.used == 1 && (next' != [] ==> b.Some? && b.value.event != a.event && !Missing(b.value.event)))
  {
  }

  lemma LongNone(longs: seq<LongOption>, text: Word, shortToo: bool, next: seq<Word>, next': seq<Word>)
    ensures DecodeLong(longs, text, shortToo, next).None? <==> DecodeLong(longs, text, shortToo, next').None?
  {
  }

  lemma ShortLocal(g: Grammar, place: Word, next: seq<Word>, next': seq<Word>)
    requires place != ""
    ensures var a := DecodeShort(g, place, next); var b := DecodeShort(g, place, next');
      && (a.DashStop? ==> b == a)
      && (a.Act? && !Missing(a.event) && next[..More(a.used)] <= next' ==> b == a)
      && (a.Act? && Missing(a.event) ==> a.used == 1 + |next| && (next < next' ==> b.Act? && b.event != a.event))
  {
    if g.longs.Some? && place[0] == 'W' {
      if place[1..] != "" {
        LongLocal(g.longs.value, place[1..], false, next, next');
      } else if next != [] && next' != [] {
        LongLocal(g.longs.value, next[0], false, next[1..], next'[1..]);
      }
    }
  }

  /** An option reads no further than the words it uses; only a missing argument looks at the end of
      the vector, and there anything more would have been taken as the argument. */
  lemma DecodeLocal(g: Grammar, place: Word, atStart: bool, next: seq<Word>, next': seq<Word>)
    requires place != ""
    ensures var a := Decode(g, place, atStart, next); var b := Decode(g, place, atStart, next');
      && (a.DashStop? ==> b == a)
      && (a.Act? && !Missing(a.event) && next[..More(a.used)] <= next' ==> b == a)
      && (a.Act? && Missing(a.event) ==> a.used == 1 + |next| && (next < next' ==> b.Act? && b.event != a.event))
  {
    hide DecodeLong, DecodeShort;
    ShortLocal(g, place, next, next');
    if g.longs.Some? && !atStart && (place[0] == '-' || g.longOnly) {
      var dashed := place[0] == '-';
      var shortToo := !dashed && place[0] != ':' && place[0] in g.options;
      var text := if dashed then place[1..] else place;
      LongNone(g.longs.value, text, shortToo, next, next');
      if DecodeLong(g.longs.value, text, shortToo, next).Some? {
        LongLocal(g.longs.value, text, shortToo, next, next');
      }
    }
  }

  /** The reading ends at "--". */
  ghost predicate Closed(g: Grammar, place: Word, words: seq<Word>)
    requires place != "" ==> words != []
    decreases |words|, if place == "" then if words == [] then 0 else |words[0]| + 1 else |place|
  {
    if place == "" then
      if words == [] then false
      else if IsNonOption(g, words[0]) then Closed(g, "", words[1..])
      else if words[0] == "--" then true
      else Closed(g, Opened(words[0]), words)
    else
      match Decode(g, place, |place| == |words[0]|, words[1..])
      case DashStop => false
      case Act(e, rest, used) => Closed(g, rest, words[used..])
  }

  /** The current word of an option is taken. */
  lemma {:induction false} HeadTaken(g: Grammar, place: Word, words: seq<Word>)
    requires place != "" && words != [] && !Read(g, place, words).dash
    ensures var m := Read(g, place, words).marks;
      m != [] && m[0] && Chosen(words, m, true) != [] && Chosen(words, m, true)[0] == words[0]
    decreases |place|
  {
    ReadOption(g, place, words);
    var a := Decode(g, place, |place| == |words[0]|, words[1..]);
    if a.used == 0 {
      HeadTaken(g, a.rest, words);
      assert words[0..] == words;
    }
  }

  /** Without "--" or a trailing dash everything is read. */
  lemma {:induction false} OpenReadsAll(g: Grammar, place: Word, words: seq<Word>)
    requires g.mode.Permute? && (place != "" ==> words != [])
    requires !Read(g, place, words).dash && !Closed(g, place, words)
    ensures |Read(g, place, words).marks| == |words|
    decreases |words|, if place == "" then if words == [] then 0 else |words[0]| + 1 else |place|
  {
    if place == "" {
      if words == [] {
      } else if IsNonOption(g, words[0]) {
        OpenReadsAll(g, "", words[1..]);
      } else {
        OpenReadsAll(g, Opened(words[0]), words);
      }
    } else {
      ReadOption(g, place, words);
      var a := Decode(g, place, |place| == |words[0]|, words[1..]);
      OpenReadsAll(g, a.rest, words[a.used..]);
    }
  }

  lemma SkipStep(g: Grammar, words: seq<Word>)
    requires g.mode.Permute? && words != [] && IsNonOption(g, words[0])
    ensures var r := Read(g, "", words); var r' := Read(g, "", words[1..]);
      && r == r'.(marks := [false] + r'.marks) && Closed(g, "", words) == Closed(g, "", words[1..])
      && Chosen(words, r.marks, true) == Chosen(words[1..], r'.marks, true)
  {
    var r' := Read(g, "", words[1..]);
    assert ([false] + r'.marks)[1..] == r'.marks;
  }

  /** The reading of the taken words followed by `tail`: the same events, then those of the tail. */
  ghost function Followed(r: Reading, taken: nat, closed: bool, q: Reading): Reading {
    if closed then Reading(r.events, Ones(taken), false)
    else Reading(r.events + q.events, Ones(taken) + q.marks, q.dash)
  }

  lemma ReadNothing(g: Grammar, tail: seq<Word>)
    ensures var r := Read(g, "", []); var t := Chosen([], r.marks, true);
      Read(g, "", t + tail) == Followed(r, |t|, Closed(g, "", []), Read(g, "", tail))
  {
    var q := Read(g, "", tail);
    assert [] + tail == tail;
    assert [] + q.events == q.events && Ones(0) + q.marks == q.marks;
  }

  lemma ReadDashes(g: Grammar, words: seq<Word>, tail: seq<Word>)
    requires words != [] && words[0] == "--" && !IsNonOption(g, words[0])
    ensures var r := Read(g, "", words); var t := Chosen(words, r.marks, true);
      Read(g, "", t + tail) == Followed(r, |t|, Closed(g, "", words), Read(g, "", tail))
  {
    var t := Chosen(words, [true], true);
    assert t == ["--"] && (t + tail)[0] == "--";
    assert Ones(1) == [true];
  }

  lemma OpenStep(g: Grammar, words: seq<Word>)
    requires words != [] && words[0] != "--" && !IsNonOption(g, words[0])
    ensures Read(g, "", words) == Read(g, Opened(words[0]), words)
    ensures Closed(g, "", words) == Closed(g, Opened(words[0]), words)
  {
  }

  lemma ReadOptionDash(g: Grammar, place: Word, words: seq<Word>)
    requires place != "" && words != []
    ensures Decode(g, place, |place| == |words[0]|, words[1..]).DashStop? ==> Read(g, place, words).dash
  {
  }

  lemma NothingLeft(g: Grammar, place: Word, words: seq<Word>)
    requires words == [] && place == ""
    ensures Chosen(words, Read(g, place, words).marks, true) == []
  {
  }

  /** One option read from the taken words: the same action, leaving the rest of the taken words. */
  lemma TakenStep(g: Grammar, place: Word, words: seq<Word>, tail: seq<Word>)
    requires g.mode.Permute? && place != "" && words != [] && !Read(g, place, words).dash
    requires AnyMissing(Read(g, place, words).events) ==> tail == []
    ensures var r := Read(g, place, words); var t := Chosen(words, r.marks, true);
      var a := Decode(g, place, |place| == |words[0]|, words[1..]);
      && a.Act? && t != []
      && var r' := Read(g, a.rest, words[a.used..]); var t' := Chosen(words[a.used..], r'.marks, true);
      && !r'.dash && (AnyMissing(r'.events) ==> tail == [])
      && r == Reading([a.event] + r'.events, Ones(a.used) + r'.marks, r'.dash)
      && |t| == a.used + |t'|
      && (a.rest != "" ==> t' != [])
      && Read(g, place, t + tail) ==
           var f := Read(g, a.rest, t' + tail); Reading([a.event] + f.events, Ones(a.used) + f.marks, f.dash)
  {
    hide Decode, Read, Chosen;
    ReadOptionDash(g, place, words);
    ReadOption(g, place, words);
    HeadTaken(g, place, words);
    var a := Decode(g, place, |place| == |words[0]|, words[1..]);
    var r, r' := Read(g, place, words), Read(g, a.rest, words[a.used..]);
    var t, t' := Chosen(words, r.marks, true), Chosen(words[a.used..], r'.marks, true);
    ChosenAfterOnes(words, a.used, r'.marks);
    assert t == words[..a.used] + t';
    MissingAhead(a.event, r'.events);
    var v := t + tail;
    assert v[0] == words[0];
    assert words[1..][..More(a.used)] <= v[1..] by {
      if a.used > 0 { assert v[1..][..a.used - 1] == words[1..a.used]; }
    }
    DecodeLocal(g, place, |place| == |words[0]|, words[1..], v[1..]);
    if Missing(a.event) {
      assert a.used == |words| && tail == [];
      assert t' == [] by { NothingLeft(g, a.rest, words[a.used..]); }
      assert v[1..] == words[1..];
    }
    ReadOption(g, place, v);
    assert v[a.used..] == t' + tail;
    if a.rest != "" { HeadTaken(g, a.rest, words[a.used..]); }
  }

  lemma ClosedStep(g: Grammar, place: Word, words: seq<Word>)
    requires place != "" && words != []
    ensures var a := Decode(g, place, |place| == |words[0]|, words[1..]);
      a.Act? ==> Closed(g, place, words) == Closed(g, a.rest, words[a.used..])
  {
  }

  lemma OnesJoin(a: nat, b: nat, m: seq<bool>)
    ensures Ones(a) + (Ones(b) + m) == Ones(a + b) + m
    ensures Ones(a) + Ones(b) == Ones(a + b)
  {
  }

  lemma FollowedStep(a: Action, r: Reading, taken: nat, closed: bool, q: Reading)
    requires a.Act?
    ensures var f := Followed(r, taken, closed, q);
      Reading([a.event] + f.events, Ones(a.used) + f.marks, f.dash)
        == Followed(Reading([a.event] + r.events, Ones(a.used) + r.marks, r.dash), a.used + taken, closed, q)
  {
    OnesJoin(a.used, taken, q.marks);
    assert [a.event] + (r.events + q.events) == ([a.event] + r.events) + q.events;
  }

  lemma {:induction false} ReadTaken(g: Grammar, place: Word, words: seq<Word>, tail: seq<Word>)
    requires g.mode.Permute? && (place != "" ==> words != [])
    requires !Read(g, place, words).dash
    requires AnyMissing(Read(g, place, words).events) ==> tail == []
    ensures var r := Read(g, place, words); var t := Chosen(words, r.marks, true);
      && (place != "" ==> t != [])
      && Read(g, place, t + tail) == Followed(r, |t|, Closed(g, place, words), Read(g, "", tail))
    decreases |words|, if place == "" then if words == [] then 0 else |words[0]| + 1 else |place|
  {
    hide Read, Chosen, Closed, Decode;
    var r := Read(g, place, words);
    var t := Chosen(words, r.marks, true);
    if place == "" {
      if words == [] {
        ReadNothing(g, tail);
      } else if IsNonOption(g, words[0]) {
        SkipStep(g, words);
        ReadTaken(g, "", words[1..], tail);
      } else if words[0] == "--" {
        ReadDashes(g, words, tail);
      } else {
        OpenStep(g, words);
        HeadTaken(g, Opened(words[0]), words);
        ReadTaken(g, Opened(words[0]), words, tail);
        assert (t + tail)[0] == words[0];
        OpenStep(g, t + tail);
      }
    } else {
      TakenStep(g, place, words, tail);
      ClosedStep(g, place, words);
      var a := Decode(g, place, |place| == |words[0]|, words[1..]);
      ReadTaken(g, a.rest, words[a.used..], tail);
      var r' := Read(g, a.rest, words[a.used..]);
      FollowedStep(a, r', |Chosen(words[a.used..], r'.marks, true)|, Closed(g, place, words), Read(g, "", tail));
    }
  }

  // ----- a missing argument, with words put behind the vector

  /** The option `-W name` in the place of a long option. */
  predicate IsLongByW(g: Grammar, c: char) {
    g.longs.Some? && c == 'W' && HasAt(g.options, IndexOf(g.options, c) + 1, ';')
  }

  /** What an option lacking its argument becomes when words follow after all: the first of them is
      its argument, or after a bare `-W` the long option. */
  ghost function Answer(g: Grammar, e: Event, tail: seq<Word>): (a: Action)
    requires Missing(e) && tail != []
    ensures a.Act? && a.rest == "" && 1 <= a.used <= |tail|
  {
    match e
    case MissingLongArgument(i) => Act(Long(i, Some(tail[0])), "", 1)
    case MissingArgument(c) =>
      if IsLongByW(g, c) then DecodeLong(g.longs.value, tail[0], false, tail[1..]).value
      else Act(Short(c, Some(tail[0])), "", 1)
  }

  lemma LongAnswered(longs: seq<LongOption>, text: Word, shortToo: bool, next: seq<Word>, tail: seq<Word>)
    requires tail != []
    ensures var a := DecodeLong(longs, text, shortToo, next);
      a.Some? && Missing(a.value.event) ==>
        && next == [] && a.value.used == 1 && a.value.event.MissingLongArgument?
        && DecodeLong(longs, text, shortToo, tail) == Some(Act(Long(a.value.event.index, Some(tail[0])), "", 2))
  {
  }

  lemma ShortAnswered(g: Grammar, place: Word, next: seq<Word>, tail: seq<Word>)
    requires place != "" && tail != []
    ensures var a := DecodeShort(g, place, next);
      a.Act? && Missing(a.event) ==>
        && a.used == 1 + |next|
        && DecodeShort(g, place, next + tail) == Act(Answer(g, a.event, tail).event, "", a.used + Answer(g, a.event, tail).used)
  {
    hide DecodeLong;
    if g.longs.Some? && place[0] == 'W' {
      if place[1..] != "" {
        LongAnswered(g.longs.value, place[1..], false, next, tail);
        assert next == [] ==> next + tail == tail;
      } else if next != [] {
        LongAnswered(g.longs.value, next[0], false, next[1..], tail);
        assert (next + tail)[1..] == next[1..] + tail;
        assert next[1..] == [] ==> next[1..] + tail == tail;
      } else {
        assert next + tail == tail;
      }
    }
  }

  /** An option lacking its argument is answered by the first words that follow. */
  lemma DecodeAnswered(g: Grammar, place: Word, atStart: bool, next: seq<Word>, tail: seq<Word>)
    requires place != "" && tail != []
    ensures var a := Decode(g, place, atStart, next);
      a.Act? && Missing(a.event) ==>
        && a.used == 1 + |next|
        && Decode(g, place, atStart, next + tail) == Act(Answer(g, a.event, tail).event, "", a.used + Answer(g, a.event, tail).used)
  {
    hide DecodeLong, DecodeShort;
    ShortAnswered(g, place, next, tail);
    if g.longs.Some? && !atStart && (place[0] == '-' || g.longOnly) {
      var dashed := place[0] == '-';
      var shortToo := !dashed && place[0] != ':' && place[0] in g.options;
      var text := if dashed then place[1..] else place;
      LongNone(g.longs.value, text, shortToo, next, next + tail);
      LongAnswered(g.longs.value, text, shortToo, next, tail);
      assert next == [] ==> next + tail == tail;
    }
  }

  function Zeros(k: nat): (m: seq<bool>)
    ensures |m| == k && forall i :: 0 <= i < k ==> !m[i]
  {
    seq(k, _ => false)
  }

  lemma {:induction false} ReadNonOptions(g: Grammar, words: seq<Word>)
    requires g.mode.Permute? && forall i :: 0 <= i < |words| ==> IsNonOption(g, words[i])
    ensures Read(g, "", words) == Reading([], Zeros(|words|), false)
  {
    if words == [] {
      assert Zeros(0) == [];
    } else {
      ReadNonOptions(g, words[1..]);
      assert [false] + Zeros(|words| - 1) == Zeros(|words|);
    }
  }

  /** A missing argument means that the vector has been read to its end. */
  lemma {:induction false} MissingIsLast(g: Grammar, place: Word, words: seq<Word>)
    requires g.mode.Permute? && (place != "" ==> words != [])
    requires AnyMissing(Read(g, place, words).events)
    ensures |Read(g, place, words).marks| == |words|
    decreases |words|, if place == "" then if words == [] then 0 else |words[0]| + 1 else |place|
  {
    var r := Read(g, place, words);
    if place == "" {
      if IsNonOption(g, words[0]) {
        MissingIsLast(g, "", words[1..]);
      } else {
        MissingIsLast(g, Opened(words[0]), words);
      }
    } else {
      ReadOption(g, place, words);
      var a := Decode(g, place, |place| == |words[0]|, words[1..]);
      DecodeLocal(g, place, |place| == |words[0]|, words[1..], words[1..]);
      if !Missing(a.event) {
        var r' := Read(g, a.rest, words[a.used..]);
        MissingAhead(a.event, r'.events);
        MissingIsLast(g, a.rest, words[a.used..]);
      }
    }
  }

  /** What the reading of the taken words followed by skipped ones is when the last option lacks its argument. */
  ghost function Answered(g: Grammar, r: Reading, taken: nat, tail: seq<Word>): Reading
    requires r.events != [] && Missing(r.events[|r.events| - 1]) && tail != []
  {
    var last := |r.events| - 1;
    var a := Answer(g, r.events[last], tail);
    Reading(r.events[..last] + [a.event], Ones(taken + a.used) + Zeros(|tail| - a.used), false)
  }

  lemma ReadEmpty(g: Grammar)
    ensures Read(g, "", []) == Reading([], [], false)
  {
  }

  /** The last option, lacking its argument, read again with a tail behind it. */
  lemma LastAnswered(g: Grammar, place: Word, words: seq<Word>, tail: seq<Word>)
    requires g.mode.Permute? && place != "" && words != []
    requires tail != [] && forall i :: 0 <= i < |tail| ==> IsNonOption(g, tail[i])
    requires var a := Decode(g, place, |place| == |words[0]|, words[1..]); a.Act? && Missing(a.event)
    ensures var r := Read(g, place, words);
      && r.events != [] && Missing(r.events[|r.events| - 1])
      && Chosen(words, r.marks, true) == words
      && Read(g, place, words + tail) == Answered(g, r, |words|, tail)
  {
    hide Decode, Read, Chosen, IsNonOption;
    var a := Decode(g, place, |place| == |words[0]|, words[1..]);
    DecodeAnswered(g, place, |place| == |words[0]|, words[1..], tail);
    ReadOption(g, place, words);
    ReadEmpty(g);
    assert words[a.used..] == [] && a.rest == "" by { DecodeLocal(g, place, |place| == |words[0]|, words[1..], words[1..]); }
    assert Ones(|words|) + [] == Ones(|words|);
    ChosenOnes(words, true);
    var v := words + tail;
    var b := Answer(g, a.event, tail);
    assert v[0] == words[0] && v[1..] == words[1..] + tail;
    ReadOption(g, place, v);
    assert v[a.used + b.used..] == tail[b.used..];
    ReadNonOptions(g, tail[b.used..]);
    assert [a.event] + [] == [a.event] && [b.event] + [] == [b.event];
    assert [a.event][..0] + [b.event] == [b.event];
  }

  /** One option before the one that lacks its argument: read as before. */
  lemma EarlierStep(g: Grammar, place: Word, words: seq<Word>, tail: seq<Word>)
    requires g.mode.Permute? && place != "" && words != []
    requires !Read(g, place, words).dash && AnyMissing(Read(g, place, words).events)
    ensures var r := Read(g, place, words); var t := Chosen(words, r.marks, true);
      var a := Decode(g, place, |place| == |words[0]|, words[1..]);
      && a.Act? && t != []
      && (!Missing(a.event) ==>
            var r' := Read(g, a.rest, words[a.used..]); var t' := Chosen(words[a.used..], r'.marks, true);
            && AnyMissing(r'.events) && !r'.dash
            && r.events == [a.event] + r'.events && |t| == a.used + |t'|
            && (a.rest != "" ==> t' != [])
            && Read(g, place, t + tail) ==
                 var f := Read(g, a.rest, t' + tail); Reading([a.event] + f.events, Ones(a.used) + f.marks, f.dash))
  {
    hide Decode, Read, Chosen;
    ReadOptionDash(g, place, words);
    ReadOption(g, place, words);
    HeadTaken(g, place, words);
    var a := Decode(g, place, |place| == |words[0]|, words[1..]);
    if !Missing(a.event) {
      var r, r' := Read(g, place, words), Read(g, a.rest, words[a.used..]);
      var t, t' := Chosen(words, r.marks, true), Chosen(words[a.used..], r'.marks, true);
      ChosenAfterOnes(words, a.used, r'.marks);
      assert t == words[..a.used] + t';
      var v := t + tail;
      assert v[0] == words[0];
      assert words[1..][..More(a.used)] <= v[1..] by {
        if a.used > 0 { assert v[1..][..a.used - 1] == words[1..a.used]; }
      }
      DecodeLocal(g, place, |place| == |words[0]|, words[1..], v[1..]);
      ReadOption(g, place, v);
      assert v[a.used..] == t' + tail;
      MissingAhead(a.event, r'.events);
      if a.rest != "" { HeadTaken(g, a.rest, words[a.used..]); }
    }
  }

  lemma MissingNeedsWords(g: Grammar, words: seq<Word>)
    requires AnyMissing(Read(g, "", words).events)
    ensures words != [] && (IsNonOption(g, words[0]) || (words[0] != "" && words[0] != "--"))
  {
  }

  lemma AnsweredStep(g: Grammar, a: Action, r: Reading, taken: nat, tail: seq<Word>, all: Reading)
    requires a.Act? && r.events != [] && Missing(r.events[|r.events| - 1]) && tail != []
    requires all.events == [a.event] + r.events
    ensures all.events != [] && Missing(all.events[|all.events| - 1])
    ensures var f := Answered(g, r, taken, tail);
      Reading([a.event] + f.events, Ones(a.used) + f.marks, f.dash) == Answered(g, all, a.used + taken, tail)
  {
    hide Answer;
    var last := |r.events| - 1;
    var b := Answer(g, r.events[last], tail);
    assert all.events[|all.events| - 1] == r.events[last];
    assert all.events[..last + 1] == [a.event] + r.events[..last];
    assert [a.event] + (r.events[..last] + [b.event]) == ([a.event] + r.events[..last]) + [b.event];
    OnesJoin(a.used, taken + b.used, Zeros(|tail| - b.used));
  }

  /** An option whose argument is missing takes it from a tail put behind it; all before is read as it was. */
  lemma {:induction false} MissingTakesTail(g: Grammar, place: Word, words: seq<Word>, tail: seq<Word>)
    requires g.mode.Permute? && (place != "" ==> words != [])
    requires !Read(g, place, words).dash && AnyMissing(Read(g, place, words).events)
    requires tail != [] && forall i :: 0 <= i < |tail| ==> IsNonOption(g, tail[i])
    ensures var r := Read(g, place, words); var t := Chosen(words, r.marks, true);
      && (place != "" ==> t != [])
      && r.events != [] && Missing(r.events[|r.events| - 1])
      && Read(g, place, t + tail) == Answered(g, r, |t|, tail)
    decreases |words|, if place == "" then if words == [] then 0 else |words[0]| + 1 else |place|
  {
    hide Read, Chosen, Decode, IsNonOption, Answer;
    var r := Read(g, place, words);
    var t := Chosen(words, r.marks, true);
    if place == "" {
      MissingNeedsWords(g, words);
      if IsNonOption(g, words[0]) {
        SkipStep(g, words);
        MissingTakesTail(g, "", words[1..], tail);
      } else {
        OpenStep(g, words);
        HeadTaken(g, Opened(words[0]), words);
        MissingTakesTail(g, Opened(words[0]), words, tail);
        assert (t + tail)[0] == words[0];
        OpenStep(g, t + tail);
      }
    } else {
      EarlierStep(g, place, words, tail);
      var a := Decode(g, place, |place| == |words[0]|, words[1..]);
      if Missing(a.event) {
        LastAnswered(g, place, words, tail);
      } else {
        MissingTakesTail(g, a.rest, words[a.used..], tail);
        var r' := Read(g, a.rest, words[a.used..]);
        AnsweredStep(g, a, r', |t| - a.used, tail, r);
      }
    }
  }

  /** The answer is another event. */
  lemma AnswerDiffers(g: Grammar, e: Event, tail: seq<Word>)
    requires Missing(e) && tail != []
    ensures Answer(g, e, tail).event != e
  {
  }

  lemma NoneChosen(words: seq<Word>)
    ensures Chosen(words, [], true) == [] && Chosen(words, [], false) == []
  {
  }

  lemma {:induction false} ChosenZeros(words: seq<Word>)
    ensures Chosen(words, Zeros(|words|), true) == [] && Chosen(words, Zeros(|words|), false) == words
  {
    if words != [] {
      ChosenZeros(words[1..]);
      assert Zeros(|words|)[1..] == Zeros(|words| - 1);
    }
  }

  lemma {:induction false} OnesThenZeros(v: seq<Word>, k: nat)
    requires k <= |v|
    ensures Partition(v, Ones(k) + Zeros(|v| - k)) == v
  {
    ChosenAfterOnes(v, k, Zeros(|v| - k));
    ChosenZeros(v[k..]);
  }

  lemma SameSecondTime(g: Grammar, words: seq<Word>, tail: seq<Word>)
    requires g.mode.Permute? && !Read(g, "", words).dash
    requires AnyMissing(Read(g, "", words).events) ==> tail == []
    requires var r := Read(g, "", words); tail == Chosen(words, r.marks, false) + words[|r.marks|..]
    ensures var r := Read(g, "", words); var v := Chosen(words, r.marks, true) + tail;
      Read(g, "", v).events == r.events && Partition(v, Read(g, "", v).marks) == v
  {
    hide Read, Chosen, Closed, IsNonOption;
    var r := Read(g, "", words);
    var t, f := Chosen(words, r.marks, true), Chosen(words, r.marks, false);
    var v := t + tail;
    SkippedAreNonOptions(g, "", words);
    SkippedWords(g, words, r.marks);
    ReadTaken(g, "", words, tail);
    assert v[..|t|] == t && v[|t|..] == tail;
    if Closed(g, "", words) {
      assert Ones(|t|) + [] == Ones(|t|);
      ChosenAfterOnes(v, |t|, []);
      NoneChosen(tail);
    } else {
      OpenReadsAll(g, "", words);
      assert tail == f;
      ReadNonOptions(g, f);
      assert r.events + [] == r.events;
      OnesThenZeros(v, |t|);
    }
  }

  /** A second permuting scan moves nothing. It reports the same events exactly when it is not the
      case that the last option lacks its argument while some word was skipped; in that case the
      first skipped words answer it, and every other event is the same. */
  lemma SecondScan(g: Grammar, words: seq<Word>)
    requires g.mode.Permute? && !Read(g, "", words).dash
    ensures var r := Read(g, "", words); var v := Partition(words, r.marks); var q := Read(g, "", v);
      && Partition(v, q.marks) == v
      && (q.events == r.events <==> !(AnyMissing(r.events) && false in r.marks))
      && (AnyMissing(r.events) && false in r.marks ==>
            var last := |r.events| - 1; var f := Chosen(words, r.marks, false);
            && last >= 0 && Missing(r.events[last]) && f != []
            && q.events == r.events[..last] + [Answer(g, r.events[last], f).event])
  {
    hide Read, Chosen, Closed, IsNonOption, Answer;
    var r := Read(g, "", words);
    var t, f := Chosen(words, r.marks, true), Chosen(words, r.marks, false);
    var tail := f + words[|r.marks|..];
    var v := Partition(words, r.marks);
    assert v == t + tail;
    NoneSkipped(words, r.marks);
    SkippedAreNonOptions(g, "", words);
    SkippedWords(g, words, r.marks);
    if AnyMissing(r.events) && f != [] {
      MissingIsLast(g, "", words);
      assert tail == f;
      MissingTakesTail(g, "", words, f);
      var last := |r.events| - 1;
      AnswerDiffers(g, r.events[last], f);
      OnesThenZeros(v, |t| + Answer(g, r.events[last], f).used);
      assert r.events == r.events[..last] + [r.events[last]];
    } else {
      if AnyMissing(r.events) {
        MissingIsLast(g, "", words);
        assert tail == [];
      }
      SameSecondTime(g, words, tail);
    }
  }

  /** An option word that uses up the vector. */
  lemma OptionLast(g: Grammar, place: Word, words: seq<Word>, e: Event)
    requires words != [] && IsOptionWord(g, words[0]) && place != "" && words[0] == "-" + place
    requires Decode(g, place, false, words[1..]) == Act(e, "", |words|)
    ensures Read(g, "", words) == Reading([e], Ones(|words|), false)
    ensures |words| == 1 ==> Ones(|words|) == [true]
  {
    hide Decode, Read;
    assert words[0][1..] == place;
    OpenStep(g, words);
    ReadOption(g, place, words);
    assert words[|words|..] == [];
    ReadEmpty(g);
    assert [e] + [] == [e] && Ones(|words|) + [] == Ones(|words|);
  }

  /** The reading of one option word after a skipped one, when the option uses up the vector. */
  lemma SkipThenOption(g: Grammar, x: Word, place: Word, e: Event)
    requires g.mode.Permute? && IsNonOption(g, x) && IsOptionWord(g, "-" + place) && place != ""
    requires Decode(g, place, false, []) == Act(e, "", 1)
    ensures Read(g, "", [x, "-" + place]) == Reading([e], [false, true], false)
  {
    var words := ["-" + place];
    assert words[0][1..] == place;
    OptionLast(g, place, words, e);
    assert [x, "-" + place][1..] == words;
    SkipStep(g, [x, "-" + place]);
    assert [false] + [true] == [false, true];
  }

  /** A vector on which the second reading differs: the option takes the skipped word for its argument. */
  lemma ArgumentExample()
    ensures var g := Grammar("a:", None, false, Permute);
      && Read(g, "", ["x", "-a"]) == Reading([MissingArgument('a')], [false, true], false)
      && Partition(["x", "-a"], [false, true]) == ["-a", "x"]
      && Read(g, "", ["-a", "x"]) == Reading([Short('a', Some("x"))], [true, true], false)
  {
    hide Read;
    var g := Grammar("a:", None, false, Permute);
    assert "-" + "a" == "-a" && ["-a", "x"][1..] == ["x"] && Ones(2) == [true, true];
    SkipThenOption(g, "x", "a", MissingArgument('a'));
    OptionLast(g, "a", ["-a", "x"], Short('a', Some("x")));
    TwoWords("x", "-a");
  }

  /** Another: a bare `-W` takes the skipped word for a long option. */
  lemma LongByWExample()
    ensures var g := Grammar("W;", Some([]), false, Permute);
      && Read(g, "", ["x", "-W"]) == Reading([MissingArgument('W')], [false, true], false)
      && Partition(["x", "-W"], [false, true]) == ["-W", "x"]
      && Read(g, "", ["-W", "x"]) == Reading([UnknownLong], [true, true], false)
  {
    hide Read;
    var g := Grammar("W;", Some([]), false, Permute);
    assert "-" + "W" == "-W" && ["-W", "x"][1..] == ["x"] && Ones(2) == [true, true];
    SkipThenOption(g, "x", "W", MissingArgument('W'));
    OptionLast(g, "W", ["-W", "x"], UnknownLong);
    TwoWords("x", "-W");
  }
}
