/** The lists of cores a pool starts from: counted up, or read from the text of the isolated-CPU file. */
module IsolatedCores {
  import opened Wrappers
  import opened Placement

  const INT_MIN := -0x8000_0000
  const INT_MAX := 0x7fff_ffff

  predicate IsDigit(c: char) {
    '0' <= c <= '9'
  }

  predicate IsSpace(c: char) {
    c == ' ' || c == '\t' || c == '\n' || c == '\r' || c == 11 as char || c == 12 as char
  }

  function SkipSpace(s: string): string {
    if s != "" && IsSpace(s[0]) then SkipSpace(s[1..]) else s
  }

  function LeadingDigits(s: string): (n: nat)
    ensures n <= |s|
  {
    if s != "" && IsDigit(s[0]) then 1 + LeadingDigits(s[1..]) else 0
  }

  /** The number a string of digits writes. */
  function Value(s: string): int {
    if s == "" then 0 else 10 * Value(s[..|s| - 1]) + (s[|s| - 1] as int - '0' as int)
  }

  /** std::stoi: leading space and a sign are accepted, what follows the digits is ignored; None for
      its exceptions, no digits or a value outside int. */
  function Stoi(text: string): Option<int> {
    var s := SkipSpace(text);
    var negative := s != "" && s[0] == '-';
    var t := if s != "" && (s[0] == '-' || s[0] == '+') then s[1..] else s;
    var n := LeadingDigits(t);
    var v := if negative then -Value(t[..n]) else Value(t[..n]);
    if n == 0 || v < INT_MIN || v > INT_MAX then None else Some(v)
  }

  function FindDash(s: string): (i: nat)
    ensures i <= |s|
    ensures i < |s| ==> s[i] == '-'
    ensures forall j :: 0 <= j < i ==> s[j] != '-'
  {
    if s == "" || s[0] == '-' then 0 else 1 + FindDash(s[1..])
  }

  /** The ends of the range in the text, if it has a dash with a number on either side. */
  function Bounds(text: string): Option<(int, int)> {
    var sep := FindDash(text);
    if sep == |text| then None
    else
      var first, last := Stoi(text[..sep]), Stoi(text[sep + 1..]);
      if first.None? || last.None? then None else Some((first.value, last.value))
  }

  function Range(first: int, last: int): (r: seq<int>)
    ensures |r| == if first <= last then last - first + 1 else 0
    ensures forall k :: 0 <= k < |r| ==> r[k] == first + k
  {
    if first <= last then seq(last - first + 1, k => first + k) else []
  }

  function Listed(text: string): seq<int> {
    var b := Bounds(text);
    if b.None? then [] else Range(b.value.0, b.value.1)
  }

  /** The loop over the range would have to count past the largest int. */
  predicate Overflows(text: string) {
    var b := Bounds(text);
    b.Some? && b.value.0 <= b.value.1 == INT_MAX
  }

  method ReadIsolatedCores(text: string) returns (list: seq<int>)
    requires !Overflows(text)
    ensures list == Listed(text)
    ensures '-' !in text ==> list == []
  {
    list := [];
    var sep := FindDash(text);
    if sep < |text| {
      var first, last := Stoi(text[..sep]), Stoi(text[sep + 1..]);
      if first.None? || last.None? {
        return;
      }
      var i := first.value;
      while i <= last.value
        invariant first.value <= i && Bounds(text) == Some((first.value, last.value)) && (i <= last.value + 1 || list == [])
        invariant list == Range(first.value, i - 1)
      {
        list := list + [i];
        i := i + 1;
      }
    }
  }

  /** `line` is the first line of the file, None if it cannot be opened. */
  method GetIsolatedCpus(line: Option<string>, cores: int) returns (cpus: Option<Cores>)
    requires line.Some? ==> !Overflows(line.value)
    ensures cpus.None? <==> line.None? || Listed(line.value) == []
    ensures cpus.Some? ==>
      var all := Listed(line.value);
      && |cpus.value| == (if cores <= 0 then 0 else if cores < |all| then cores else |all|)
      && forall k :: 0 <= k < |cpus.value| ==> cpus.value[k] == CpuInfo(all[k], 0)
  {
    if line.None? {
      return None;
    }
    var info := ReadIsolatedCores(line.value);
    if |info| == 0 {
      return None;
    }
    var list: Cores := [];
    var i := 0;
    while i < if |info| < cores then |info| else cores
      invariant |list| == i <= |info| && (0 < i ==> i <= cores)
      invariant forall k :: 0 <= k < i ==> list[k] == CpuInfo(info[k], 0)
    {
      list := list + [CpuInfo(info[i], 0)];
      i := i + 1;
    }
    cpus := Some(list);
  }

  method BuildCoreList(startCore: int, cores: int) returns (list: Cores)
    ensures |list| == (if cores <= 0 then 0 else cores)
    ensures forall k :: 0 <= k < |list| ==> list[k] == CpuInfo(startCore + k, 0)
    ensures Total(list) == 0
  {
    list := [];
    var i := startCore;
    while i < cores + startCore
      invariant i == startCore + |list| && (0 < |list| ==> |list| <= cores)
      invariant forall k :: 0 <= k < |list| ==> list[k] == CpuInfo(startCore + k, 0)
      invariant Total(list) == 0
    {
      assert (list + [CpuInfo(i, 0)])[..|list|] == list;
      list := list + [CpuInfo(i, 0)];
      i := i + 1;
    }
  }

  /** Decimal text. */
  function Decimal(n: nat): (s: string)
    ensures s != "" && forall k :: 0 <= k < |s| ==> IsDigit(s[k])
  {
    var d := ('0' as int + n % 10) as char;
    if n < 10 then [d] else Decimal(n / 10) + [d]
  }

  lemma {:induction false} DecimalValue(n: nat)
    ensures Value(Decimal(n)) == n
  {
    if n >= 10 {
      var s := Decimal(n);
      DecimalValue(n / 10);
      assert s[..|s| - 1] == Decimal(n / 10);
    } else {
      assert Decimal(n)[..0] == "";
    }
  }

  lemma {:induction false} AllDigits(s: string)
    requires forall k :: 0 <= k < |s| ==> IsDigit(s[k])
    ensures LeadingDigits(s) == |s|
  {
    if s != "" { AllDigits(s[1..]); }
  }

  lemma StoiDecimal(n: nat)
    requires n <= INT_MAX
    ensures Stoi(Decimal(n)) == Some(n)
  {
    var s := Decimal(n);
    AllDigits(s);
    DecimalValue(n);
    assert s[..|s|] == s;
  }

  lemma {:induction false} DashAfterDigits(s: string, rest: string)
    requires forall k :: 0 <= k < |s| ==> IsDigit(s[k])
    ensures FindDash(s + "-" + rest) == |s|
  {
    var t := s + "-" + rest;
    if s != "" {
      DashAfterDigits(s[1..], rest);
      assert t[1..] == s[1..] + "-" + rest;
    }
  }

  /** Reading the text "a-b" gives exactly the numbers from a to b. */
  lemma RangeRoundTrip(a: nat, b: nat)
    requires a <= INT_MAX && b <= INT_MAX
    ensures Bounds(Decimal(a) + "-" + Decimal(b)) == Some((a, b))
    ensures Listed(Decimal(a) + "-" + Decimal(b)) == Range(a, b)
  {
    var t := Decimal(a) + "-" + Decimal(b);
    DashAfterDigits(Decimal(a), Decimal(b));
    assert t[..|Decimal(a)|] == Decimal(a);
    assert t[|Decimal(a)| + 1..] == Decimal(b);
    StoiDecimal(a);
    StoiDecimal(b);
  }

  // ----- every text

  predicate AllSpace(s: string) {
    forall k :: 0 <= k < |s| ==> s[k] in " \t\n\r" || s[k] == 11 as char || s[k] == 12 as char
  }

  /** No number after the optional space and sign. */
  predicate Numberless(space: string, sign: string, rest: string) {
    && AllSpace(space) && (sign == "" || sign == "+" || sign == "-")
    && (rest == "" || !('0' <= rest[0] <= '9'))
    && (sign == "" && rest != "" ==> rest[0] != '+' && rest[0] != '-' && !AllSpace(rest[..1]))
  }

  function Zeros(k: nat): (s: string)
    ensures |s| == k && forall i :: 0 <= i < k ==> s[i] == '0'
  {
    seq(k, _ => '0')
  }

  /** A number as text: optional space and sign, zeros in front, and something that is no digit behind. */
  datatype Numeral = Numeral(space: string, sign: string, zeros: nat, n: nat, rest: string)
  {
    predicate Valid() {
      && AllSpace(space) && (sign == "" || sign == "+" || sign == "-")
      && (rest == "" || !('0' <= rest[0] <= '9'))
    }

    function Text(): string {
      space + (sign + (Zeros(zeros) + Decimal(n) + rest))
    }

    function Number(): int {
      var v: int := n;
      if sign == "-" then -v else v
    }
  }

  lemma {:induction false} SpaceSkipped(space: string, s: string)
    requires AllSpace(space) && (s == "" || !AllSpace(s[..1]))
    ensures SkipSpace(space + s) == s
    decreases |space|
  {
    if space == "" {
      assert space + s == s;
    } else {
      assert space[0] in " \t\n\r" ==> IsSpace(space[0]);
      assert (space + s)[1..] == space[1..] + s;
      SpaceSkipped(space[1..], s);
    }
  }

  lemma {:induction false} DigitsCounted(digits: string, rest: string)
    requires forall k :: 0 <= k < |digits| ==> IsDigit(digits[k])
    requires rest == "" || !IsDigit(rest[0])
    ensures LeadingDigits(digits + rest) == |digits|
    decreases |digits|
  {
    if digits == "" {
      assert digits + rest == rest;
    } else {
      assert (digits + rest)[1..] == digits[1..] + rest;
      DigitsCounted(digits[1..], rest);
    }
  }

  /** Zeros in front change nothing. */
  lemma {:induction false} ZerosValue(zeros: nat, s: string)
    ensures Value(Zeros(zeros) + s) == Value(s)
    decreases |s|, zeros
  {
    var t := Zeros(zeros) + s;
    if s == "" {
      assert t == Zeros(zeros);
      if zeros > 0 {
        assert t[..|t| - 1] == Zeros(zeros - 1) + "";
        ZerosValue(zeros - 1, "");
      }
    } else {
      assert t[..|t| - 1] == Zeros(zeros) + s[..|s| - 1];
      ZerosValue(zeros, s[..|s| - 1]);
    }
  }

  /** The signed text does not begin with space. */
  lemma SignedStart(sign: string, rest: string)
    requires sign == "" || sign == "+" || sign == "-"
    requires sign == "" && rest != "" ==> rest[0] != '+' && rest[0] != '-' && !AllSpace(rest[..1])
    ensures var s := sign + rest;
      && (s == "" || !AllSpace(s[..1]))
      && (if s != "" && (s[0] == '-' || s[0] == '+') then s[1..] else s) == rest
      && (s != "" && s[0] == '-' <==> sign == "-")
  {
    var s := sign + rest;
    if sign == "" {
      assert s == rest;
    } else {
      assert s[0] == sign[0] && s[1..] == rest && s[..1][0] == s[0];
    }
  }

  /** std::stoi once the space has been skipped. */
  lemma StoiOf(text: string, s: string)
    requires SkipSpace(text) == s
    ensures var rest := if s != "" && (s[0] == '-' || s[0] == '+') then s[1..] else s;
      var n := LeadingDigits(rest);
      var v := if s != "" && s[0] == '-' then -Value(rest[..n]) else Value(rest[..n]);
      Stoi(text) == if n == 0 || v < INT_MIN || v > INT_MAX then None else Some(v)
  {
    hide SkipSpace, LeadingDigits, Value;
  }

  lemma SignedStoi(space: string, sign: string, rest: string)
    requires AllSpace(space) && (sign == "" || sign == "+" || sign == "-")
    requires sign == "" && rest != "" ==> rest[0] != '+' && rest[0] != '-' && !AllSpace(rest[..1])
    ensures var n := LeadingDigits(rest); var v := if sign == "-" then -Value(rest[..n]) else Value(rest[..n]);
      Stoi(space + (sign + rest)) == if n == 0 || v < INT_MIN || v > INT_MAX then None else Some(v)
  {
    hide Stoi, SkipSpace, LeadingDigits, Value, AllSpace;
    SignedStart(sign, rest);
    SpaceSkipped(space, sign + rest);
    StoiOf(space + (sign + rest), sign + rest);
  }

  /** A side without a number is none. */
  lemma NumberlessStoi(space: string, sign: string, rest: string)
    requires Numberless(space, sign, rest)
    ensures Stoi(space + (sign + rest)) == None
  {
    SignedStoi(space, sign, rest);
  }

  /** A text that begins with a digit begins with neither space nor sign. */
  lemma DigitStarts(text: string)
    requires text != "" && IsDigit(text[0])
    ensures text[0] != '+' && text[0] != '-' && !AllSpace(text[..1])
  {
    assert text[..1][0] == text[0];
  }

  lemma DigitsOf(zeros: nat, n: nat)
    ensures var digits := Zeros(zeros) + Decimal(n);
      digits != "" && Value(digits) == n && forall k :: 0 <= k < |digits| ==> IsDigit(digits[k])
  {
    hide Value;
    ZerosValue(zeros, Decimal(n));
    DecimalValue(n);
  }

  /** A number is read for what it is, whatever comes in front of and behind its digits. */
  lemma NumeralStoi(a: Numeral)
    requires a.Valid()
    ensures Stoi(a.Text()) == if INT_MIN <= a.Number() <= INT_MAX then Some(a.Number()) else None
  {
    hide Stoi, Value, LeadingDigits, AllSpace, Decimal, Zeros;
    var digits := Zeros(a.zeros) + Decimal(a.n);
    DigitsOf(a.zeros, a.n);
    DigitsCounted(digits, a.rest);
    DigitStarts(digits + a.rest);
    assert (digits + a.rest)[..|digits|] == digits;
    SignedStoi(a.space, a.sign, digits + a.rest);
  }

  lemma {:induction false} FirstDash(left: string, right: string)
    requires '-' !in left
    ensures FindDash(left + ("-" + right)) == |left|
  {
    var t := left + ("-" + right);
    if left != "" {
      FirstDash(left[1..], right);
      assert left == [left[0]] + left[1..] && t[1..] == left[1..] + ("-" + right);
    }
  }

  /** Without a dash nothing is listed. */
  lemma NoDashListsNothing(text: string)
    requires '-' !in text
    ensures Listed(text) == []
  {
  }

  /** The two sides of the first dash decide what is listed. */
  lemma SidesDecide(left: string, right: string)
    requires '-' !in left
    ensures Listed(left + ("-" + right)) ==
      if Stoi(left).None? || Stoi(right).None? then [] else Range(Stoi(left).value, Stoi(right).value)
  {
    var t := left + ("-" + right);
    FirstDash(left, right);
    assert t[..|left|] == left && t[|left| + 1..] == right;
  }

  /** A side without a number lists nothing. */
  lemma NumberlessSideListsNothing(space: string, sign: string, rest: string, other: string)
    requires Numberless(space, sign, rest)
    ensures '-' !in other ==> Listed(other + ("-" + (space + (sign + rest)))) == []
    ensures '-' !in space + (sign + rest) ==> Listed(space + (sign + rest) + ("-" + other)) == []
  {
    NumberlessStoi(space, sign, rest);
    if '-' !in other { SidesDecide(other, space + (sign + rest)); }
    if '-' !in space + (sign + rest) { SidesDecide(space + (sign + rest), other); }
  }

  /** Two numbers around the first dash list the range between them, unless one does not fit an int. */
  lemma NumbersListRange(a: Numeral, b: Numeral)
    requires a.Valid() && b.Valid() && '-' !in a.Text()
    ensures Listed(a.Text() + ("-" + b.Text())) ==
      if INT_MIN <= a.Number() <= INT_MAX && INT_MIN <= b.Number() <= INT_MAX then Range(a.Number(), b.Number()) else []
  {
    hide Stoi;
    NumeralStoi(a);
    NumeralStoi(b);
    SidesDecide(a.Text(), b.Text());
  }
}
