/** Writing options down as words, and reading them back. */
module RoundTrip {
  import opened Wrappers
  import opened LongOptions
  import opened Grammar

  /** How a long option is introduced: `--text`, `-text` under `getopt_long_only`, or `-W` with the text
      in the same word or in the next. */
  datatype Form = TwoDashes | OneDash | ByW(apart: bool)

  /** Options as a user means them, wrong ones included: a cluster of letters that stand alone, one that
      ends in an option with its argument (attached or as the next word) or in one whose optional
      argument is left out, and long options under a full or abbreviated `key`: bare, with an argument,
      with one they do not take, or naming no option or several. */
  datatype Given =
    | Letters(cs: string)
    | ShortArg(cs: string, c: char, arg: Word, attached: bool)
    | ShortBare(cs: string, c: char)
    | LongFlag(key: Word, form: Form, i: nat)
    | LongArg(key: Word, form: Form, i: nat, arg: Word, attached: bool)
    | LongUnwanted(key: Word, form: Form, i: nat, arg: Word)
    | LongUnknown(key: Word, form: Form, more: Option<Word>)
    | LongUnclear(key: Word, form: Form, more: Option<Word>)

  predicate IsShort(o: Given) {
    o.Letters? || o.ShortArg? || o.ShortBare?
  }

  predicate Listed(g: Grammar, c: char) {
    c != ':' && c != '-' && c in g.options
  }

  predicate Unlisted(g: Grammar, c: char) {
    c == ':' || (c != '-' && c !in g.options)
  }

  predicate Followed(g: Grammar, c: char, mark: string)
    requires Listed(g, c)
  {
    mark <= g.options[IndexOf(g.options, c) + 1..]
  }

  /** An option letter without an argument. */
  predicate IsFlag(g: Grammar, c: char) {
    Listed(g, c) && !Followed(g, c, ":") && !(g.longs.Some? && c == 'W' && Followed(g, c, ";"))
  }

  predicate TakesArgument(g: Grammar, c: char) {
    Listed(g, c) && Followed(g, c, ":")
  }

  predicate Optional(g: Grammar, c: char) {
    Listed(g, c) && Followed(g, c, "::")
  }

  /** Letters that stand alone are flags and letters that are no option. */
  predicate StandAlone(g: Grammar, cs: string) {
    forall k :: 0 <= k < |cs| ==> IsFlag(g, cs[k]) || Unlisted(g, cs[k])
  }

  function LoneEvent(g: Grammar, c: char): Event {
    if Unlisted(g, c) then UnknownShort(c) else Short(c, None)
  }

  function LoneEvents(g: Grammar, cs: string): (events: seq<Event>)
    ensures |events| == |cs| && forall k :: 0 <= k < |cs| ==> events[k] == LoneEvent(g, cs[k])
  {
    seq(|cs|, k requires 0 <= k < |cs| => LoneEvent(g, cs[k]))
  }

  /** Under `getopt_long_only` the rest of a cluster is first tried as a long option, and a letter that
      is no option can only be one. */
  ghost predicate NotLong(g: Grammar, text: Word)
    requires text != ""
  {
    g.longOnly && g.longs.Some? ==>
      Listed(g, text[0]) && IsMatch(g.longs.value, text[..IndexOf(text, '=')], true, NoMatch)
  }

  // ----- short options

  /** The letters before the last one. */
  function Head(o: Given): string
    requires IsShort(o) && (o.Letters? ==> o.cs != "")
  {
    if o.Letters? then o.cs[..|o.cs| - 1] else o.cs
  }

  /** The last letter with what is attached to it. */
  function Last(o: Given): (w: Word)
    requires IsShort(o) && (o.Letters? ==> o.cs != "")
    ensures w != ""
  {
    match o
    case Letters(cs) => [cs[|cs| - 1]]
    case ShortArg(_, c, arg, attached) => [c] + if attached then arg else ""
    case ShortBare(_, c) => [c]
  }

  function LastEvent(g: Grammar, o: Given): Event
    requires IsShort(o) && (o.Letters? ==> o.cs != "")
  {
    match o
    case Letters(cs) => LoneEvent(g, cs[|cs| - 1])
    case ShortArg(_, c, arg, _) => Short(c, Some(arg))
    case ShortBare(_, c) => Short(c, None)
  }

  function NextWords(o: Given): seq<Word> {
    if (o.ShortArg? || o.LongArg?) && !o.attached then [o.arg] else []
  }

  ghost predicate AllowedShort(g: Grammar, o: Given)
    requires IsShort(o)
  {
    match o
    case Letters(cs) => cs != "" && StandAlone(g, cs)
    case ShortArg(cs, c, arg, attached) =>
      StandAlone(g, cs) && TakesArgument(g, c) && if attached then arg != "" else !Optional(g, c)
    case ShortBare(cs, c) => StandAlone(g, cs) && Optional(g, c)
  }

  // ----- long options

  function Equals(arg: Word): Word {
    "=" + arg
  }

  /** The text that names a long option, with an attached argument. */
  function LongText(o: Given): Word
    requires !IsShort(o)
  {
    match o
    case LongFlag(key, _, _) => key
    case LongArg(key, _, _, arg, attached) => if attached then key + Equals(arg) else key
    case LongUnwanted(key, _, _, arg) => key + Equals(arg)
    case LongUnknown(key, _, more) => if more.Some? then key + Equals(more.value) else key
    case LongUnclear(key, _, more) => if more.Some? then key + Equals(more.value) else key
  }

  function LongEvent(o: Given): Event
    requires !IsShort(o)
  {
    match o
    case LongFlag(_, _, i) => Long(i, None)
    case LongArg(_, _, i, arg, _) => Long(i, Some(arg))
    case LongUnwanted(_, _, i, _) => UnwantedArgument(i)
    case LongUnknown(_, _, _) => UnknownLong
    case LongUnclear(_, _, _) => AmbiguousLong
  }

  /** Whether the text may also be short options. */
  predicate ShortToo(g: Grammar, form: Form, text: Word)
    requires text != ""
  {
    form.OneDash? && Listed(g, text[0])
  }

  predicate HasLongByW(g: Grammar) {
    Listed(g, 'W') && Followed(g, 'W', ";")
  }

  /** The text can be introduced this way. */
  ghost predicate AllowedForm(g: Grammar, form: Form, text: Word) {
    text != "" && match form
      case TwoDashes => true
      case OneDash => g.longOnly && text[0] != '-'
      case ByW(apart) => HasLongByW(g) && NotLong(g, "W" + if apart then "" else text)
  }

  ghost predicate AllowedLong(g: Grammar, o: Given)
    requires !IsShort(o)
  {
    && g.longs.Some? && o.key != "" && '=' !in o.key && AllowedForm(g, o.form, LongText(o))
    && var longs, shortToo := g.longs.value, ShortToo(g, o.form, o.key);
       match o
       case LongFlag(key, _, i) =>
         i < |longs| && IsMatch(longs, key, shortToo, Found(i)) && !longs[i].hasArg.RequiredArgument?
       case LongArg(key, _, i, _, attached) =>
         && i < |longs| && IsMatch(longs, key, shortToo, Found(i))
         && (if attached then !longs[i].hasArg.NoArgument? else longs[i].hasArg.RequiredArgument?)
       case LongUnwanted(key, _, i, _) =>
         i < |longs| && IsMatch(longs, key, shortToo, Found(i)) && longs[i].hasArg.NoArgument?
       case LongUnknown(key, _, _) => !shortToo && forall j :: 0 <= j < |longs| ==> !(key <= longs[j].name)
       case LongUnclear(key, _, _) => IsMatch(longs, key, shortToo, Ambiguous)
  }

  function Introduced(form: Form, text: Word): (words: seq<Word>)
    ensures words != []
  {
    match form
    case TwoDashes => ["-" + ("-" + text)]
    case OneDash => ["-" + text]
    case ByW(apart) => if apart then ["-" + "W", text] else ["-" + ("W" + text)]
  }

  // ----- both

  /** The grammar lets the option be written this way. */
  ghost predicate Allowed(g: Grammar, o: Given) {
    if IsShort(o) then AllowedShort(g, o) else AllowedLong(g, o)
  }

  ghost function Written(g: Grammar, o: Given): (words: seq<Word>)
    requires Allowed(g, o)
    ensures words != []
  {
    (if IsShort(o) then ["-" + (Head(o) + Last(o))] else Introduced(o.form, LongText(o))) + NextWords(o)
  }

  ghost function Meant(g: Grammar, o: Given): (events: seq<Event>)
    requires Allowed(g, o)
  {
    if IsShort(o) then LoneEvents(g, Head(o)) + [LastEvent(g, o)] else [LongEvent(o)]
  }

  /** None of the first n characters of a cluster starts something that is taken for a long option. */
  ghost predicate ShortUpTo(g: Grammar, place: Word, n: nat)
    requires n <= |place|
  {
    forall k :: 0 <= k < n ==> NotLong(g, place[k..])
  }

  /** No part of the option as written is taken for a long option that is not meant. */
  ghost predicate Unmistaken(g: Grammar, o: Given)
    requires Allowed(g, o)
  {
    IsShort(o) ==> ShortUpTo(g, Head(o) + Last(o), |Head(o)| + 1)
  }

  /** The reading with more events and taken words in front. */
  function Behind(events: seq<Event>, taken: nat, r: Reading): Reading {
    Reading(events + r.events, Ones(taken) + r.marks, r.dash)
  }

  lemma BehindTwice(a: seq<Event>, m: nat, b: seq<Event>, n: nat, r: Reading)
    ensures Behind(a, m, Behind(b, n, r)) == Behind(a + b, m + n, r)
  {
    assert a + (b + r.events) == (a + b) + r.events;
    assert Ones(m) + (Ones(n) + r.marks) == Ones(m + n) + r.marks;
  }

  lemma BehindCancels(a: seq<Event>, m: nat, r: Reading, q: Reading)
    requires Behind(a, m, r) == Behind(a, m, q)
    ensures r == q
  {
    assert (a + r.events)[|a|..] == r.events && (a + q.events)[|a|..] == q.events;
    assert (Ones(m) + r.marks)[m..] == r.marks && (Ones(m) + q.marks)[m..] == q.marks;
  }

  /** One option that uses up the rest of its word. */
  lemma LastRead(g: Grammar, place: Word, words: seq<Word>, e: Event, used: nat)
    requires words != [] && place != "" && 0 < used <= |words|
    requires Decode(g, place, |place| == |words[0]|, words[1..]) == Act(e, "", used)
    ensures Read(g, place, words) == Behind([e], used, Read(g, "", words[used..]))
  {
    ReadOption(g, place, words);
  }

  /** An option word starts a cluster. */
  lemma WordOpens(g: Grammar, place: Word, words: seq<Word>)
    requires words != [] && words[0] == "-" + place && place != "" && place != "-"
    ensures Read(g, "", words) == Read(g, place, words)
  {
    assert words[0][1..] == place;
    assert words[0] != "--" by { assert "--"[1..] == "-"; }
  }

  // ----- reading clusters

  /** What is not taken for a long option is read as a short one. */
  lemma DecodesShort(g: Grammar, place: Word, atStart: bool, next: seq<Word>)
    requires place != "" && place[0] != '-' && NotLong(g, place)
    ensures Decode(g, place, atStart, next) == DecodeShort(g, place, next)
  {
    hide DecodeShort;
    if g.longOnly && g.longs.Some? {
      var key := place[..IndexOf(place, '=')];
      MatchUnique(g.longs.value, key, true, NoMatch, MatchOf(g.longs.value, key, true));
    }
  }

  lemma LoneDecodes(g: Grammar, place: Word, next: seq<Word>)
    requires place != "" && StandAlone(g, place[..1])
    ensures DecodeShort(g, place, next) == Act(LoneEvent(g, place[0]), place[1..], if |place| == 1 then 1 else 0)
  {
    var c := place[..1][0];
    if !Unlisted(g, c) {
      assert HasAt(g.options, IndexOf(g.options, c) + 1, ':') ==> Followed(g, c, ":");
      assert HasAt(g.options, IndexOf(g.options, c) + 1, ';') ==> Followed(g, c, ";");
    }
  }

  lemma NotADash(g: Grammar, c: char)
    requires IsFlag(g, c) || Unlisted(g, c)
    ensures c != '-'
  {
  }

  /** Letters that stand alone at the head of a cluster are reported one by one. */
  lemma {:induction false} LettersRead(g: Grammar, cs: string, suffix: Word, words: seq<Word>)
    requires words != [] && suffix != "" && ShortUpTo(g, cs + suffix, |cs|) && StandAlone(g, cs)
    ensures Read(g, cs + suffix, words) == Behind(LoneEvents(g, cs), 0, Read(g, suffix, words))
    decreases |cs|
  {
    hide Read, Decode, DecodeShort, NotLong, IsFlag, Unlisted;
    var place := cs + suffix;
    var r := Read(g, suffix, words);
    if cs == "" {
      assert place == suffix;
      assert [] + r.events == r.events && Ones(0) + r.marks == r.marks;
    } else {
      assert place[0..] == place && place[..1] == cs[..1] && place[1..] == cs[1..] + suffix;
      NotADash(g, cs[0]);
      DecodesShort(g, place, |place| == |words[0]|, words[1..]);
      LoneDecodes(g, place, words[1..]);
      ReadOption(g, place, words);
      assert words[0..] == words;
      assert forall k :: 0 <= k < |cs| - 1 ==> place[1..][k..] == place[k + 1..];
      LettersRead(g, cs[1..], suffix, words);
      BehindTwice([LoneEvent(g, cs[0])], 0, LoneEvents(g, cs[1..]), 0, r);
      assert LoneEvents(g, cs) == [LoneEvent(g, cs[0])] + LoneEvents(g, cs[1..]);
    }
  }

  /** Letters, and then an option that uses up the rest of the cluster. */
  lemma LettersThenLast(g: Grammar, cs: string, last: Word, words: seq<Word>, e: Event, used: nat)
    requires words != [] && last != "" && 0 < used <= |words| && ShortUpTo(g, cs + last, |cs|) && StandAlone(g, cs)
    requires Decode(g, last, |last| == |words[0]|, words[1..]) == Act(e, "", used)
    ensures Read(g, cs + last, words) == Behind(LoneEvents(g, cs) + [e], used, Read(g, "", words[used..]))
  {
    hide Read, Decode, NotLong, IsFlag, ShortUpTo;
    LettersRead(g, cs, last, words);
    LastRead(g, last, words, e, used);
    BehindTwice(LoneEvents(g, cs), 0, [e], used, Read(g, "", words[used..]));
  }

  lemma ArgumentDecodes(g: Grammar, c: char, attached: Word, next: seq<Word>)
    requires TakesArgument(g, c)
    ensures DecodeShort(g, [c] + attached, next) ==
      if attached != "" then Act(Short(c, Some(attached)), "", 1)
      else if Optional(g, c) then Act(Short(c, None), "", 1)
      else if next == [] then Act(MissingArgument(c), "", 1)
      else Act(Short(c, Some(next[0])), "", 2)
  {
    var after := g.options[IndexOf(g.options, c) + 1..];
    assert ([c] + attached)[1..] == attached;
    assert after != "" && after[0] == ':';
    assert Optional(g, c) <==> |after| > 1 && after[1] == ':';
  }

  lemma OptionalTakes(g: Grammar, c: char)
    requires Optional(g, c)
    ensures TakesArgument(g, c)
  {
    assert ":" <= "::";
  }

  /** The last letter of the option as written. */
  lemma LastDecodes(g: Grammar, o: Given, next: seq<Word>)
    requires IsShort(o) && AllowedShort(g, o) && NextWords(o) <= next
    ensures Last(o)[0] != '-'
    ensures DecodeShort(g, Last(o), next) == Act(LastEvent(g, o), "", 1 + |NextWords(o)|)
  {
    hide DecodeShort;
    match o
    case Letters(cs) =>
      assert Last(o)[..1] == Last(o) && Last(o)[1..] == "";
      NotADash(g, cs[|cs| - 1]);
      LoneDecodes(g, Last(o), next);
    case ShortArg(_, c, arg, attached) =>
      ArgumentDecodes(g, c, if attached then arg else "", next);
      assert !attached ==> next[0] == arg;
    case ShortBare(_, c) =>
      OptionalTakes(g, c);
      assert [c] + "" == [c];
      ArgumentDecodes(g, c, "", next);
  }

  lemma LastIsNoDash(g: Grammar, o: Given)
    requires IsShort(o) && AllowedShort(g, o)
    ensures o.Letters? ==> o.cs != ""
    ensures Last(o)[0] != '-'
  {
    hide Followed;
    if o.Letters? { NotADash(g, o.cs[|o.cs| - 1]); }
  }

  lemma HeadStandsAlone(g: Grammar, o: Given)
    requires IsShort(o) && AllowedShort(g, o)
    ensures o.Letters? ==> o.cs != ""
    ensures StandAlone(g, Head(o))
    ensures Last(o)[0] != '-' && Head(o) + Last(o) != "-"
  {
    hide IsFlag, Unlisted, TakesArgument, Optional, Last;
    LastIsNoDash(g, o);
    var place := Head(o) + Last(o);
    assert place[|Head(o)|] == Last(o)[0];
    assert |Head(o)| > 0 ==> |place| > 1;
  }

  lemma ShortReadsAsMeant(g: Grammar, o: Given, tail: seq<Word>)
    requires IsShort(o) && Allowed(g, o) && Unmistaken(g, o)
    ensures Read(g, "", Written(g, o) + tail) == Behind(Meant(g, o), |Written(g, o)|, Read(g, "", tail))
  {
    hide Read, NotLong, Decode, DecodeShort, IsFlag, LastEvent, AllowedShort;
    HeadStandsAlone(g, o);
    var words := Written(g, o) + tail;
    var cs, last, used := Head(o), Last(o), |Written(g, o)|;
    assert words[0] == "-" + (cs + last) && words[used..] == tail && words[1..] == NextWords(o) + tail;
    WordOpens(g, cs + last, words);
    LastDecodes(g, o, words[1..]);
    assert (cs + last)[|cs|..] == last;
    DecodesShort(g, last, |last| == |words[0]|, words[1..]);
    LettersThenLast(g, cs, last, words, LastEvent(g, o), used);
  }

  /** Reported for short options only. */
  predicate ShortEvent(e: Event) {
    e.Short? || e.UnknownShort?
  }

  lemma TakenForLong(g: Grammar, place: Word, next: seq<Word>)
    requires place != "" && place[0] != '-' && !NotLong(g, place)
    ensures var a := Decode(g, place, false, next); a.Act? && !ShortEvent(a.event)
  {
    hide DecodeShort;
    var key := place[..IndexOf(place, '=')];
    var shortToo := Listed(g, place[0]);
    assert shortToo == (place[0] != ':' && place[0] in g.options);
  }

  lemma {:induction false} FirstMistaken(g: Grammar, place: Word, n: nat) returns (k: nat)
    requires n <= |place| && !ShortUpTo(g, place, n)
    ensures k < n && ShortUpTo(g, place, k) && !NotLong(g, place[k..])
  {
    hide NotLong;
    if ShortUpTo(g, place, n - 1) {
      k := n - 1;
    } else {
      k := FirstMistaken(g, place, n - 1);
    }
  }

  /** Letters, and then something taken for a long option. */
  lemma LongAfterLetters(g: Grammar, cs: string, suffix: Word, words: seq<Word>)
    requires words != [] && suffix != "" && |suffix| < |words[0]| && suffix[0] != '-'
    requires ShortUpTo(g, cs + suffix, |cs|) && StandAlone(g, cs) && !NotLong(g, suffix)
    ensures var events := Read(g, cs + suffix, words).events; |cs| < |events| && !ShortEvent(events[|cs|])
  {
    hide Read, Decode, NotLong, IsFlag;
    LettersRead(g, cs, suffix, words);
    TakenForLong(g, suffix, words[1..]);
    ReadOption(g, suffix, words);
  }

  lemma MistakenCluster(g: Grammar, cs: string, last: Word, words: seq<Word>) returns (k: nat)
    requires StandAlone(g, cs) && last != "" && last[0] != '-' && !ShortUpTo(g, cs + last, |cs| + 1)
    requires words != [] && words[0] == "-" + (cs + last)
    ensures k <= |cs|
    ensures var events := Read(g, cs + last, words).events; k < |events| && !ShortEvent(events[k])
  {
    hide Read, NotLong, IsFlag, Unlisted, ShortEvent;
    var place := cs + last;
    k := FirstMistaken(g, place, |cs| + 1);
    var suffix := place[k..];
    assert cs[..k] == place[..k] && cs[..k] + suffix == place;
    if k < |cs| { NotADash(g, cs[k]); }
    assert suffix[0] == if k < |cs| then cs[k] else last[0];
    LongAfterLetters(g, cs[..k], suffix, words);
  }

  lemma MeansShort(g: Grammar, o: Given, k: nat)
    requires IsShort(o) && Allowed(g, o) && k < |Meant(g, o)|
    ensures ShortEvent(Meant(g, o)[k])
  {
  }

  /** An option taken for a long option is not read as meant. */
  lemma Mistaken(g: Grammar, o: Given, tail: seq<Word>) returns (k: nat)
    requires Allowed(g, o) && !Unmistaken(g, o)
    ensures k < |Meant(g, o)| && ShortEvent(Meant(g, o)[k])
    ensures var events := Read(g, "", Written(g, o) + tail).events; k < |events| && !ShortEvent(events[k])
  {
    hide Read, NotLong, StandAlone, ShortEvent, AllowedShort, LastEvent, ShortUpTo;
    HeadStandsAlone(g, o);
    var words := Written(g, o) + tail;
    WordOpens(g, Head(o) + Last(o), words);
    k := MistakenCluster(g, Head(o), Last(o), words);
    MeansShort(g, o, k);
  }

  /** A short option as written is read as meant exactly if no part of it is taken for a long option. */
  lemma ShortReads(g: Grammar, o: Given, tail: seq<Word>)
    requires IsShort(o) && Allowed(g, o)
    ensures Unmistaken(g, o) <==>
      Read(g, "", Written(g, o) + tail) == Behind(Meant(g, o), |Written(g, o)|, Read(g, "", tail))
  {
    hide Read, NotLong, Allowed, Written, Unmistaken, Meant;
    if Unmistaken(g, o) {
      ShortReadsAsMeant(g, o, tail);
    } else {
      var k := Mistaken(g, o, tail);
    }
  }

  // ----- reading long options

  lemma {:induction false} IndexAfter(name: string, rest: string, c: char)
    requires c !in name && (rest == "" || rest[0] == c)
    ensures IndexOf(name + rest, c) == |name|
  {
    if name == "" {
      assert name + rest == rest;
    } else {
      assert name[0] != c && forall k :: 0 <= k < |name| - 1 ==> name[1..][k] == name[k + 1];
      IndexAfter(name[1..], rest, c);
      assert (name + rest)[1..] == name[1..] + rest;
    }
  }

  function Attached(o: Given): Option<Word>
    requires !IsShort(o)
  {
    match o
    case LongFlag(_, _, _) => None
    case LongArg(_, _, _, arg, attached) => if attached then Some(arg) else None
    case LongUnwanted(_, _, _, arg) => Some(arg)
    case LongUnknown(_, _, more) => more
    case LongUnclear(_, _, more) => more
  }

  /** The text divides at its first '='. */
  lemma TextDivides(key: Word, more: Option<Word>)
    requires '=' !in key
    ensures var text := if more.Some? then key + Equals(more.value) else key;
      && IndexOf(text, '=') == |key| && text[..|key|] == key
      && (|key| < |text| <==> more.Some?) && (more.Some? ==> text[|key| + 1..] == more.value)
  {
    hide IndexOf;
    match more
    case None =>
      IndexAfter(key, "", '=');
      assert key + "" == key;
    case Some(word) =>
      IndexAfter(key, Equals(word), '=');
      var text := key + Equals(word);
      assert text[..|key|] == key;
      assert text[|key| + 1..] == word;
  }

  /** The match that the option means. */
  lemma KeyMatches(g: Grammar, o: Given)
    requires !IsShort(o) && AllowedLong(g, o)
    ensures MatchOf(g.longs.value, o.key, ShortToo(g, o.form, o.key))
      == if o.LongUnknown? then NoMatch else if o.LongUnclear? then Ambiguous else Found(o.i)
  {
    var longs, shortToo := g.longs.value, ShortToo(g, o.form, o.key);
    var m := if o.LongUnknown? then NoMatch else if o.LongUnclear? then Ambiguous else Found(o.i);
    if o.LongUnknown? {
      assert forall j :: 0 <= j < |longs| ==> !Exact(longs, o.key, j) && !Eligible(longs, o.key, shortToo, j);
    }
    MatchUnique(longs, o.key, shortToo, m, MatchOf(longs, o.key, shortToo));
  }

  lemma LongDecodes(g: Grammar, o: Given, next: seq<Word>)
    requires !IsShort(o) && AllowedLong(g, o) && NextWords(o) <= next
    ensures DecodeLong(g.longs.value, LongText(o), ShortToo(g, o.form, LongText(o)), next)
      == Some(Act(LongEvent(o), "", 1 + |NextWords(o)|))
  {
    hide IsMatch;
    KeyMatches(g, o);
    TextDivides(o.key, Attached(o));
    assert LongText(o)[0] == o.key[0];
    if NextWords(o) != [] { assert next[0] == o.arg; }
  }

  /** However the text is introduced, it is decoded as a long option. */
  lemma FormDecodes(g: Grammar, form: Form, text: Word, place: Word, words: seq<Word>, a: Action)
    requires g.longs.Some? && AllowedForm(g, form, text) && Introduced(form, text) <= words
    requires words[0] == "-" + place
    requires DecodeLong(g.longs.value, text, ShortToo(g, form, text), words[|Introduced(form, text)|..]) == Some(a)
    ensures place != "" && place != "-"
    ensures Decode(g, place, |place| == |words[0]|, words[1..]) == if form == ByW(true) then a.(used := 1 + a.used) else a
  {
    hide DecodeLong, IsMatch;
    assert place == words[0][1..];
    match form
    case TwoDashes => assert place == "-" + text && place[1..] == text;
    case OneDash => assert place == text;
    case ByW(apart) =>
      var after := g.options[IndexOf(g.options, 'W') + 1..];
      assert after != "" && after[0] == ';';
      assert place == if apart then "W" else "W" + text;
      assert apart ==> "W" + "" == "W" && words[1] == text && words[1..][1..] == words[2..];
      assert !apart ==> place[1..] == text;
      DecodesShort(g, place, |place| == |words[0]|, words[1..]);
  }

  lemma LongReads(g: Grammar, o: Given, tail: seq<Word>)
    requires !IsShort(o) && Allowed(g, o)
    ensures Read(g, "", Written(g, o) + tail) == Behind(Meant(g, o), |Written(g, o)|, Read(g, "", tail))
  {
    hide Read, Decode, DecodeLong, IsMatch;
    var words, text := Written(g, o) + tail, LongText(o);
    var used := |Written(g, o)|;
    assert words[used..] == tail;
    assert words == Introduced(o.form, text) + (NextWords(o) + tail);
    var place := words[0][1..];
    assert words[0] == "-" + place;
    LongDecodes(g, o, NextWords(o) + tail);
    FormDecodes(g, o.form, text, place, words, Act(LongEvent(o), "", 1 + |NextWords(o)|));
    WordOpens(g, place, words);
    LastRead(g, place, words, LongEvent(o), used);
  }

  // ----- lists of options

  ghost predicate AllAllowed(g: Grammar, os: seq<Given>) {
    os == [] || (Allowed(g, os[0]) && AllAllowed(g, os[1..]))
  }

  ghost predicate AllUnmistaken(g: Grammar, os: seq<Given>)
    requires AllAllowed(g, os)
  {
    os == [] || (Unmistaken(g, os[0]) && AllUnmistaken(g, os[1..]))
  }

  ghost function AllWritten(g: Grammar, os: seq<Given>): seq<Word>
    requires AllAllowed(g, os)
  {
    if os == [] then [] else Written(g, os[0]) + AllWritten(g, os[1..])
  }

  ghost function AllMeant(g: Grammar, os: seq<Given>): seq<Event>
    requires AllAllowed(g, os)
  {
    if os == [] then [] else Meant(g, os[0]) + AllMeant(g, os[1..])
  }

  lemma OneReads(g: Grammar, o: Given, tail: seq<Word>)
    requires Allowed(g, o) && Unmistaken(g, o)
    ensures Read(g, "", Written(g, o) + tail) == Behind(Meant(g, o), |Written(g, o)|, Read(g, "", tail))
  {
    hide Read, Written, Meant, Allowed, Unmistaken;
    if IsShort(o) { ShortReads(g, o, tail); } else { LongReads(g, o, tail); }
  }

  /** Options written down in any of the allowed ways, in front of any other words, are read back as
      meant, and their words are all taken, exactly if none is taken for a long option that is not meant. */
  lemma {:induction false} ReadsBack(g: Grammar, os: seq<Given>, tail: seq<Word>)
    requires AllAllowed(g, os)
    ensures AllUnmistaken(g, os) <==>
      Read(g, "", AllWritten(g, os) + tail) == Behind(AllMeant(g, os), |AllWritten(g, os)|, Read(g, "", tail))
    decreases |os|
  {
    hide Read, Written, Meant, Allowed, Unmistaken;
    var r := Read(g, "", tail);
    if os == [] {
      assert [] + tail == tail;
      assert [] + r.events == r.events && Ones(0) + r.marks == r.marks;
    } else {
      var more := AllWritten(g, os[1..]) + tail;
      var n, m := |Written(g, os[0])|, |AllWritten(g, os[1..])|;
      assert AllWritten(g, os) + tail == Written(g, os[0]) + more;
      BehindTwice(Meant(g, os[0]), n, AllMeant(g, os[1..]), m, r);
      if Unmistaken(g, os[0]) {
        ReadsBack(g, os[1..], tail);
        OneReads(g, os[0], more);
        if !AllUnmistaken(g, os[1..]) && Read(g, "", AllWritten(g, os) + tail) == Behind(AllMeant(g, os), n + m, r) {
          BehindCancels(Meant(g, os[0]), n, Read(g, "", more), Behind(AllMeant(g, os[1..]), m, r));
        }
      } else {
        var k := Mistaken(g, os[0], more);
        assert AllMeant(g, os)[k] == Meant(g, os[0])[k];
      }
    }
  }

  // ----- options that lack their argument

  /** An argument in the next word, with no next word. */
  ghost predicate Lacks(g: Grammar, o: Given) {
    Allowed(g, o) && Unmistaken(g, o) && NextWords(o) != []
  }

  function LackEvent(o: Given): Event
    requires o.ShortArg? || o.LongArg?
  {
    if o.ShortArg? then MissingArgument(o.c) else MissingLongArgument(o.i)
  }

  lemma NothingToRead(g: Grammar)
    ensures Read(g, "", []) == Reading([], [], false)
  {
  }

  lemma ShortLacks(g: Grammar, o: Given)
    requires IsShort(o) && Lacks(g, o)
    ensures Read(g, "", ["-" + (Head(o) + Last(o))])
      == Reading(LoneEvents(g, Head(o)) + [MissingArgument(o.c)], [true], false)
  {
    hide Read, NotLong, Decode, DecodeShort, IsFlag;
    HeadStandsAlone(g, o);
    var cs, last := Head(o), Last(o);
    var words := ["-" + (cs + last)];
    assert last == [o.c] + "" && words[1..] == [];
    WordOpens(g, cs + last, words);
    assert (cs + last)[|cs|..] == last;
    DecodesShort(g, last, |last| == |words[0]|, []);
    ArgumentDecodes(g, o.c, "", []);
    LettersThenLast(g, cs, last, words, MissingArgument(o.c), 1);
    NothingToRead(g);
    assert Ones(1) + [] == [true];
  }

  lemma LongLacks(g: Grammar, o: Given)
    requires !IsShort(o) && Lacks(g, o)
    ensures var words := Introduced(o.form, LongText(o));
      Read(g, "", words) == Reading([MissingLongArgument(o.i)], Ones(|words|), false)
  {
    hide Read, Decode, IsMatch;
    var text := LongText(o);
    var words := Introduced(o.form, text);
    KeyMatches(g, o);
    TextDivides(o.key, None);
    var place := words[0][1..];
    assert words[0] == "-" + place && words[|words|..] == [];
    FormDecodes(g, o.form, text, place, words, Act(MissingLongArgument(o.i), "", 1));
    WordOpens(g, place, words);
    LastRead(g, place, words, MissingLongArgument(o.i), |words|);
    NothingToRead(g);
    assert Ones(|words|) + [] == Ones(|words|);
  }

  lemma LacksParts(g: Grammar, o: Given)
    requires Lacks(g, o)
    ensures Allowed(g, o) && (o.ShortArg? || o.LongArg?) && |NextWords(o)| == 1
    ensures Meant(g, o) == if IsShort(o) then LoneEvents(g, Head(o)) + [LastEvent(g, o)] else [LongEvent(o)]
  {
  }

  /** An option whose argument should be the next word, at the end of the vector, lacks it. */
  lemma LackingReads(g: Grammar, o: Given)
    requires Lacks(g, o)
    ensures var words, meant := Written(g, o), Meant(g, o);
      Read(g, "", words[..|words| - 1])
        == Reading(meant[..|meant| - 1] + [LackEvent(o)], Ones(|words| - 1), false)
  {
    hide Read, Lacks, Meant;
    LacksParts(g, o);
    var words, meant := Written(g, o), Meant(g, o);
    assert words[..|words| - 1] == if IsShort(o) then ["-" + (Head(o) + Last(o))] else Introduced(o.form, LongText(o));
    if IsShort(o) {
      ShortLacks(g, o);
      assert meant[..|meant| - 1] == LoneEvents(g, Head(o));
      assert Ones(1) == [true];
    } else {
      LongLacks(g, o);
      assert meant[..|meant| - 1] == [];
      assert [] + [LackEvent(o)] == [LackEvent(o)];
    }
  }

  // ----- an example

  lemma AbbreviationExample(longs: seq<LongOption>)
    requires longs == [LongOption("abc", NoArgument, None, 1)]
    ensures IndexOf("ab", '=') == 2 && "ab"[..2] == "ab"
    ensures MatchOf(longs, "ab", true) == Found(0) && !IsMatch(longs, "ab", true, NoMatch)
  {
    assert "abc"[..2] == "ab";
    assert FirstEligible(longs, "ab", true, 0);
    assert !Exact(longs, "ab", 0) && !Clashes(longs, "ab", true, 0);
    assert IsMatch(longs, "ab", true, Found(0));
    MatchUnique(longs, "ab", true, Found(0), MatchOf(longs, "ab", true));
  }

  lemma ClusterAllowed(g: Grammar)
    requires g.options == "ab" && g.longs.Some? && g.longOnly && !IsMatch(g.longs.value, "ab", true, NoMatch)
    ensures Allowed(g, Letters("ab")) && Written(g, Letters("ab")) == ["-ab"] && !Unmistaken(g, Letters("ab"))
  {
    hide IsMatch;
    var o := Letters("ab");
    assert Head(o) + Last(o) == "ab" && "ab"[0..] == "ab" && "-" + "ab" == "-ab" && "ab"[..2] == "ab";
    assert !NotLong(g, "ab"[0..]);
  }

  /** A cluster of two flags that is taken for a long option it abbreviates. */
  lemma ClusterExample()
    ensures var g := Grammar("ab", Some([LongOption("abc", NoArgument, None, 1)]), true, Permute);
      && Allowed(g, Letters("ab")) && Written(g, Letters("ab")) == ["-ab"] && !Unmistaken(g, Letters("ab"))
      && Read(g, "", ["-ab"]).events == [Long(0, None)]
  {
    hide Read, DecodeShort, IsMatch;
    var longs := [LongOption("abc", NoArgument, None, 1)];
    var g := Grammar("ab", Some(longs), true, Permute);
    AbbreviationExample(longs);
    ClusterAllowed(g);
    assert DecodeLong(longs, "ab", true, []) == Some(Act(Long(0, None), "", 1));
    assert Decode(g, "ab", false, []) == Act(Long(0, None), "", 1);
    WordOpens(g, "ab", ["-ab"]);
    LastRead(g, "ab", ["-ab"], Long(0, None), 1);
    NothingToRead(g);
  }
}
