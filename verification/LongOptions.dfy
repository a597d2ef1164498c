/** Matching a word against the table of long options. */
module LongOptions {
  import opened Wrappers

  datatype HasArg = NoArgument | RequiredArgument | OptionalArgument

  /** `flag` stands for the address stored to, compared but never followed. */
  datatype LongOption = LongOption(name: string, hasArg: HasArg, flag: Option<int>, val: int)

  datatype Match = NoMatch | Ambiguous | Found(index: nat)

  predicate SameInterpretation(a: LongOption, b: LongOption) {
    a.hasArg == b.hasArg && a.flag == b.flag && a.val == b.val
  }

  predicate Exact(longs: seq<LongOption>, key: string, i: nat)
    requires i < |longs|
  {
    longs[i].name == key
  }

  /** A proper prefix counts, unless the key is one character that may be a short option. */
  predicate Eligible(longs: seq<LongOption>, key: string, shortToo: bool, i: nat)
    requires i < |longs|
  {
    key < longs[i].name && !(shortToo && |key| == 1)
  }

  ghost predicate FirstExact(longs: seq<LongOption>, key: string, i: nat) {
    && i < |longs| && Exact(longs, key, i)
    && forall j :: 0 <= j < i ==> !Exact(longs, key, j)
  }

  ghost predicate FirstEligible(longs: seq<LongOption>, key: string, shortToo: bool, i: nat) {
    && i < |longs| && Eligible(longs, key, shortToo, i)
    && forall j :: 0 <= j < i ==> !Eligible(longs, key, shortToo, j)
  }

  ghost predicate Clashes(longs: seq<LongOption>, key: string, shortToo: bool, i: nat)
    requires i < |longs|
  {
    exists j :: i < j < |longs| && Eligible(longs, key, shortToo, j) && !SameInterpretation(longs[j], longs[i])
  }

  /** The match a word stands for: the first exact one; failing that the first eligible prefix,
      unless a later eligible prefix means something else. */
  ghost predicate IsMatch(longs: seq<LongOption>, key: string, shortToo: bool, m: Match) {
    if exists i :: 0 <= i < |longs| && Exact(longs, key, i) then
      m.Found? && FirstExact(longs, key, m.index)
    else if exists i :: 0 <= i < |longs| && Eligible(longs, key, shortToo, i) then
      exists i :: FirstEligible(longs, key, shortToo, i) && m == if Clashes(longs, key, shortToo, i) then Ambiguous else Found(i)
    else
      m == NoMatch
  }

  /** Never two answers for one word. */
  lemma MatchUnique(longs: seq<LongOption>, key: string, shortToo: bool, m: Match, m': Match)
    requires IsMatch(longs, key, shortToo, m) && IsMatch(longs, key, shortToo, m')
    ensures m == m'
  {
    if exists i :: 0 <= i < |longs| && Exact(longs, key, i) {
    } else if exists i :: 0 <= i < |longs| && Eligible(longs, key, shortToo, i) {
      var i :| FirstEligible(longs, key, shortToo, i) && m == if Clashes(longs, key, shortToo, i) then Ambiguous else Found(i);
      var j :| FirstEligible(longs, key, shortToo, j) && m' == if Clashes(longs, key, shortToo, j) then Ambiguous else Found(j);
      assert i == j;
    }
  }

  lemma {:induction false} LeastExact(longs: seq<LongOption>, key: string, i: nat) returns (first: nat)
    requires i < |longs| && Exact(longs, key, i)
    ensures FirstExact(longs, key, first)
  {
    if j :| 0 <= j < i && Exact(longs, key, j) {
      first := LeastExact(longs, key, j);
    } else {
      first := i;
    }
  }

  lemma {:induction false} LeastEligible(longs: seq<LongOption>, key: string, shortToo: bool, i: nat) returns (first: nat)
    requires i < |longs| && Eligible(longs, key, shortToo, i)
    ensures FirstEligible(longs, key, shortToo, first)
  {
    if j :| 0 <= j < i && Eligible(longs, key, shortToo, j) {
      first := LeastEligible(longs, key, shortToo, j);
    } else {
      first := i;
    }
  }

  lemma MatchExists(longs: seq<LongOption>, key: string, shortToo: bool)
    ensures exists m :: IsMatch(longs, key, shortToo, m)
  {
    if i :| 0 <= i < |longs| && Exact(longs, key, i) {
      var first := LeastExact(longs, key, i);
      assert IsMatch(longs, key, shortToo, Found(first));
    } else if i :| 0 <= i < |longs| && Eligible(longs, key, shortToo, i) {
      var first := LeastEligible(longs, key, shortToo, i);
      assert IsMatch(longs, key, shortToo, if Clashes(longs, key, shortToo, first) then Ambiguous else Found(first));
    } else {
      assert IsMatch(longs, key, shortToo, NoMatch);
    }
  }

  /** The one match of a word. */
  ghost function MatchOf(longs: seq<LongOption>, key: string, shortToo: bool): (m: Match)
    ensures IsMatch(longs, key, shortToo, m)
    ensures m.Found? ==> m.index < |longs|
  {
    MatchExists(longs, key, shortToo);
    var m :| IsMatch(longs, key, shortToo, m);
    m
  }

  /** Two entries with the same interpretation differ in their names only. */
  lemma SameButForName(a: LongOption, b: LongOption)
    ensures SameInterpretation(a, b) <==> a.(name := b.name) == b
  {
  }

  lemma ExactMeans(longs: seq<LongOption>, key: string, shortToo: bool, i: nat)
    requires i < |longs| && longs[i].name == key
    ensures var m := MatchOf(longs, key, shortToo);
      m.Found? && longs[m.index].name == key && forall j :: 0 <= j < m.index ==> longs[j].name != key
  {
    hide Eligible, Clashes;
    var m := MatchOf(longs, key, shortToo);
    assert Exact(longs, key, i);
    assert FirstExact(longs, key, m.index);
    forall j: nat | j < m.index
      ensures longs[j].name != key
    {
      assert !Exact(longs, key, j);
    }
  }

  /** Nothing later begins with the key and differs in more than the name. */
  predicate Clear(longs: seq<LongOption>, key: string, i: nat)
    requires i < |longs|
  {
    forall j :: i < j < |longs| && key <= longs[j].name ==> longs[j].(name := longs[i].name) == longs[i]
  }

  lemma PrefixMeans(longs: seq<LongOption>, key: string, shortToo: bool, i: nat)
    requires forall j :: 0 <= j < |longs| ==> longs[j].name != key
    requires i < |longs| && key <= longs[i].name && forall j :: 0 <= j < i ==> !(key <= longs[j].name)
    requires !(shortToo && |key| == 1)
    ensures MatchOf(longs, key, shortToo) == if Clear(longs, key, i) then Found(i) else Ambiguous
  {
    assert forall j :: 0 <= j < |longs| ==> !Exact(longs, key, j);
    assert forall j :: 0 <= j < |longs| ==> (Eligible(longs, key, shortToo, j) <==> key <= longs[j].name);
    assert FirstEligible(longs, key, shortToo, i);
    assert Clashes(longs, key, shortToo, i) <==> !Clear(longs, key, i);
    var m := if Clear(longs, key, i) then Found(i) else Ambiguous;
    assert IsMatch(longs, key, shortToo, m);
    MatchUnique(longs, key, shortToo, m, MatchOf(longs, key, shortToo));
  }

  lemma {:induction false} FirstWithPrefix(longs: seq<LongOption>, key: string, i: nat) returns (first: nat)
    requires i < |longs| && key <= longs[i].name
    ensures first <= i && key <= longs[first].name && forall j :: 0 <= j < first ==> !(key <= longs[j].name)
  {
    if j :| 0 <= j < i && key <= longs[j].name {
      first := FirstWithPrefix(longs, key, j);
    } else {
      first := i;
    }
  }

  /** The match on the characters of the names: the first entry named exactly so; otherwise nothing for
      one character that may be a short option, nothing if no name begins with the key, and else the
      first whose name does, unless a later one of those differs from it in more than the name. */
  lemma MatchMeans(longs: seq<LongOption>, key: string, shortToo: bool)
    ensures var m := MatchOf(longs, key, shortToo);
      if exists i :: 0 <= i < |longs| && longs[i].name == key then
        m.Found? && longs[m.index].name == key && forall j :: 0 <= j < m.index ==> longs[j].name != key
      else if (shortToo && |key| == 1) || forall i :: 0 <= i < |longs| ==> !(key <= longs[i].name) then
        m == NoMatch
      else
        exists i :: 0 <= i < |longs| && key <= longs[i].name
          && (forall j :: 0 <= j < i ==> !(key <= longs[j].name))
          && m == if Clear(longs, key, i) then Found(i) else Ambiguous
  {
    if i :| 0 <= i < |longs| && longs[i].name == key {
      ExactMeans(longs, key, shortToo, i);
    } else if (shortToo && |key| == 1) || forall i :: 0 <= i < |longs| ==> !(key <= longs[i].name) {
      assert forall i :: 0 <= i < |longs| ==> !Exact(longs, key, i) && !Eligible(longs, key, shortToo, i);
    } else {
      hide Clear;
      var i :| 0 <= i < |longs| && key <= longs[i].name;
      var first := FirstWithPrefix(longs, key, i);
      PrefixMeans(longs, key, shortToo, first);
    }
  }

  /** The search loop of the long-option parser. */
  method FindMatch(longs: seq<LongOption>, key: string, shortToo: bool) returns (m: Match)
    ensures IsMatch(longs, key, shortToo, m)
    ensures m == MatchOf(longs, key, shortToo)
  {
    var match_: Option<nat> := None;
    var ambiguous := false;
    var i := 0;
    while i < |longs|
      invariant i <= |longs|
      invariant forall j :: 0 <= j < i ==> !Exact(longs, key, j)
      invariant match_.None? ==> !ambiguous && forall j :: 0 <= j < i ==> !Eligible(longs, key, shortToo, j)
      invariant match_.Some? ==> match_.value < i && FirstEligible(longs, key, shortToo, match_.value)
      invariant match_.Some? ==>
        (ambiguous <==> exists j :: match_.value < j < i && Eligible(longs, key, shortToo, j)
                                    && !SameInterpretation(longs[j], longs[match_.value]))
    {
      if key <= longs[i].name {
        if |longs[i].name| == |key| {
          assert FirstExact(longs, key, i);
          MatchUnique(longs, key, shortToo, Found(i), MatchOf(longs, key, shortToo));
          return Found(i);
        }
        if !(shortToo && |key| == 1) {
          if match_.None? {
            match_ := Some(i);
          } else if !SameInterpretation(longs[i], longs[match_.value]) {
            ambiguous := true;
          }
        }
      }
      i := i + 1;
    }
    if ambiguous {
      m := Ambiguous;
    } else if match_.Some? {
      m := Found(match_.value);
    } else {
      m := NoMatch;
    }
    if match_.Some? {
      assert Eligible(longs, key, shortToo, match_.value);
      assert ambiguous <==> Clashes(longs, key, shortToo, match_.value);
    }
    MatchUnique(longs, key, shortToo, m, MatchOf(longs, key, shortToo));
  }
}
