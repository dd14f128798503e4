/**
 Regular expressions over characters, with the usual meaning of concatenation, alternatives and bounded repetition.
 */
module Regexes {
  import opened Wrappers

  datatype Regex =
    | Of(chars: set<char>)
    | Cat(first: Regex, second: Regex)
    | Or(left: Regex, right: Regex)
    | Times(body: Regex, least: nat, most: Option<nat>)

  function Fewer(n: nat): nat {
    if n == 0 then 0 else n - 1
  }

  function FewerAtMost(most: Option<nat>): Option<nat> {
    if most.Some? then Some(Fewer(most.value)) else None
  }

  // The whole string s matches r. Each repetition takes at least one character: no body used here matches the empty
  // string.
  predicate Matches(r: Regex, s: string)
    decreases |s|, r
  {
    match r
    case Of(chars) => |s| == 1 && s[0] in chars
    case Cat(a, b) => exists i :: 0 <= i <= |s| && Matches(a, s[..i]) && Matches(b, s[i..])
    case Or(a, b) => Matches(a, s) || Matches(b, s)
    case Times(body, least, most) =>
      || (s == "" && least == 0)
      || (most != Some(0) && exists i | 0 < i <= |s| ::
            Matches(body, s[..i]) && Matches(Times(body, Fewer(least), FewerAtMost(most)), s[i..]))
  }

  function Maybe(r: Regex): Regex {
    Times(r, 0, Some(1))
  }

  lemma MatchesCat(a: Regex, b: Regex, s: string, t: string)
    requires Matches(a, s) && Matches(b, t)
    ensures Matches(Cat(a, b), s + t)
  {
    assert (s + t)[..|s|] == s && (s + t)[|s|..] == t;
  }

  lemma SplitCat(a: Regex, b: Regex, whole: string) returns (s: string, t: string)
    requires Matches(Cat(a, b), whole)
    ensures whole == s + t && Matches(a, s) && Matches(b, t)
  {
    var i :| 0 <= i <= |whole| && Matches(a, whole[..i]) && Matches(b, whole[i..]);
    s, t := whole[..i], whole[i..];
  }

  /** An optional part is the part or nothing. */
  lemma MatchesMaybe(r: Regex, s: string)
    requires !Matches(r, "")
    ensures Matches(Maybe(r), s) <==> s == "" || Matches(r, s)
  {
    var none := Times(r, 0, Some(0));
    assert forall t :: Matches(none, t) <==> t == "";
    if s != "" {
      assert s[..|s|] == s && s[|s|..] == "";
      assert forall i :: 0 < i <= |s| && Matches(none, s[i..]) ==> i == |s|;
    }
  }
}

/** Amounts in euros as a person writes and reads them, and whole cents. */
module Money {
  import opened Wrappers
  import opened Regexes
  import opened Doubles
  import Text

  const MIN_SAFE: int := -MAX_SAFE

  // Digits

  predicate IsDigit(c: char) {
    '0' <= c <= '9'
  }

  predicate AllDigits(s: string) {
    forall i :: 0 <= i < |s| ==> IsDigit(s[i])
  }

  function DigitValue(c: char): (v: nat)
    requires IsDigit(c)
    ensures v < 10
  {
    c as int - '0' as int
  }

  function Digit(v: nat): (c: char)
    requires v < 10
    ensures IsDigit(c) && DigitValue(c) == v
  {
    ('0' as int + v) as char
  }

  // BigInt of a string of digits; of the empty string it is zero.
  function Number(s: string): nat
    requires AllDigits(s)
  {
    if s == "" then 0 else 10 * Number(s[..|s| - 1]) + DigitValue(s[|s| - 1])
  }

  // The decimal digits of a number.
  function Digits(n: nat): (s: string)
    ensures AllDigits(s) && |s| >= 1
    ensures s[0] == '0' ==> n == 0 && s == "0"
  {
    if n < 10 then [Digit(n)] else Digits(n / 10) + [Digit(n % 10)]
  }

  lemma {:induction false} NumberOfDigits(n: nat)
    ensures Number(Digits(n)) == n
  {
    if n >= 10 {
      NumberOfDigits(n / 10);
      var s := Digits(n);
      assert s[..|s| - 1] == Digits(n / 10);
    } else {
      assert Digits(n)[..0] == "";
    }
  }

  // String functions

  predicate IsSpace(c: char) {
    || c in {' ', '\t', '\n', '\r', '\U{000B}', '\U{000C}', '\U{00A0}', '\U{1680}'}
    || '\U{2000}' <= c <= '\U{200A}'
    || c in {'\U{2028}', '\U{2029}', '\U{202F}', '\U{205F}', '\U{3000}', '\U{FEFF}'}
  }

  function Trim(s: string): string {
    Text.Trimmed(s, IsSpace)
  }

  // The parts of a string between separators.
  function Split(s: string, separator: char): (parts: seq<string>)
    ensures |parts| >= 1
  {
    if s == "" then [""]
    else
      var rest := Split(s[1..], separator);
      if s[0] == separator then [""] + rest else [[s[0]] + rest[0]] + rest[1..]
  }

  function Without(s: string, c: char): string {
    if s == "" then ""
    else if s[0] == c then Without(s[1..], c)
    else [s[0]] + Without(s[1..], c)
  }

  function PadStart(s: string, width: nat, c: char): string
    decreases width - |s|
  {
    if |s| >= width then s else PadStart([c] + s, width, c)
  }

  function PadEnd(s: string, width: nat, c: char): string
    decreases width - |s|
  {
    if |s| >= width then s else PadEnd(s + [c], width, c)
  }

  // The string without the first occurrence of a pattern.
  function RemoveFirst(s: string, pattern: string): string {
    if pattern <= s then s[|pattern|..]
    else if s == "" then ""
    else [s[0]] + RemoveFirst(s[1..], pattern)
  }

  // The accepted spelling, as the program writes it

  const DIGIT := Of(set c: char | '0' <= c <= '9')
  const NONZERO := Of(set c: char | '1' <= c <= '9')
  const DIGITS := Times(DIGIT, 0, None)
  const GROUP := Cat(Of({'.'}), Times(DIGIT, 3, Some(3)))
  const PLAIN := Cat(NONZERO, DIGITS)
  const GROUPED := Cat(NONZERO, Cat(Times(DIGIT, 0, Some(2)), Times(GROUP, 1, None)))
  const EUROS := Or(Of({'0'}), Or(PLAIN, GROUPED))
  const CENTS := Cat(Of({','}), Times(DIGIT, 1, Some(2)))
  const EUR_INPUT := Cat(Maybe(Of({'-'})), Cat(EUROS, Maybe(CENTS)))

  datatype Parsed = Cents(value: int) | NotAnAmount | TooLarge

  ghost function Parse(input: string): Parsed {
    var normalized := Trim(input);
    if !Matches(EUR_INPUT, normalized) then NotAnAmount
    else
      var negative := "-" <= normalized;
      var unsigned := if negative then normalized[1..] else normalized;
      var parts := Split(unsigned, ',');
      var euros := Without(parts[0], '.');
      var cents := PadEnd(if |parts| > 1 then parts[1] else "", 2, '0');
      AcceptedPartsAreDigits(normalized);
      var value := 100 * Number(euros) + Number(cents);
      var signed := if negative then -value else value;
      if signed > MAX_SAFE || signed < MIN_SAFE then TooLarge else Cents(signed)
  }

  // A dot before every digit but the first that has a multiple of three digits from it to the end.
  function Group(digits: string): string {
    if |digits| <= 1 then digits
    else digits[..1] + (if (|digits| - 1) % 3 == 0 then "." else "") + Group(digits[1..])
  }

  ghost function Format(cents: int): string
    requires MIN_SAFE <= cents <= MAX_SAFE
  {
    var negative := cents < 0;
    var absolute: nat := if negative then -cents else cents;
    HundredthsRecombine(absolute);
    var euros := Group(Digits(FlooredHundredth(absolute)));
    var fraction := PadStart(Digits(absolute % 100), 2, '0');
    (if negative then "-" else "") + euros + "," + fraction + SUFFIX
  }

  const SUFFIX := " \U{20AC}"

  // What the amount field is filled with when a draft is edited.
  ghost function Printed(cents: int): string
    requires MIN_SAFE <= cents <= MAX_SAFE
  {
    RemoveFirst(Format(cents), SUFFIX)
  }

  // The accepted spelling, stated by its parts

  predicate IsPlain(s: string) {
    s != "" && AllDigits(s) && (s[0] == '0' ==> s == "0")
  }

  // One or more groups of a dot and three digits.
  predicate IsGroups(s: string) {
    |s| >= 4 && s[0] == '.' && AllDigits(s[1..4]) && (|s| == 4 || IsGroups(s[4..]))
  }

  predicate IsHead(s: string) {
    1 <= |s| <= 3 && AllDigits(s) && s[0] != '0'
  }

  predicate IsGrouped(s: string) {
    exists h :: 0 <= h <= |s| && IsHead(s[..h]) && IsGroups(s[h..])
  }

  predicate IsFraction(s: string) {
    s == "" || (2 <= |s| <= 3 && s[0] == ',' && AllDigits(s[1..]))
  }

  function Spelled(negative: bool, euros: string, fraction: string): string {
    (if negative then "-" else "") + euros + fraction
  }

  predicate IsEuros(s: string) {
    IsPlain(s) || IsGrouped(s)
  }

  ghost predicate IsSpelling(s: string, negative: bool, euros: string, fraction: string) {
    IsEuros(euros) && IsFraction(fraction) && s == Spelled(negative, euros, fraction)
  }

  ghost predicate IsAmount(s: string) {
    exists negative, euros, fraction :: IsSpelling(s, negative, euros, fraction)
  }

  // The regular expression describes exactly those spellings

  lemma {:induction false} TimesDigits(least: nat, most: Option<nat>, s: string)
    ensures Matches(Times(DIGIT, least, most), s)
       <==> AllDigits(s) && least <= |s| && (most.Some? ==> |s| <= most.value)
    decreases |s|
  {
    if s != "" {
      assert forall i :: 0 < i <= |s| && Matches(DIGIT, s[..i]) ==> i == 1;
      assert Matches(DIGIT, s[..1]) <==> IsDigit(s[0]);
      TimesDigits(Fewer(least), FewerAtMost(most), s[1..]);
      assert AllDigits(s) <==> IsDigit(s[0]) && AllDigits(s[1..]) by {
        assert forall i :: 0 < i < |s| ==> s[i] == s[1..][i - 1];
      }
    }
  }

  predicate IsGroup(s: string) {
    |s| == 4 && s[0] == '.' && AllDigits(s[1..])
  }

  lemma GroupMeans(s: string)
    ensures Matches(GROUP, s) <==> IsGroup(s)
  {
    var digits := Times(DIGIT, 3, Some(3));
    forall i | 0 <= i <= |s| ensures Matches(digits, s[i..]) <==> AllDigits(s[i..]) && |s[i..]| == 3 {
      TimesDigits(3, Some(3), s[i..]);
    }
    if IsGroup(s) {
      MatchesCat(Of({'.'}), digits, s[..1], s[1..]);
      assert s == s[..1] + s[1..];
    }
  }

  lemma {:induction false} TimesGroups(least: nat, s: string)
    requires least <= 1
    ensures Matches(Times(GROUP, least, None), s) <==> (s == "" && least == 0) || IsGroups(s)
    decreases |s|
  {
    if s != "" {
      forall i | 0 <= i <= |s| ensures Matches(GROUP, s[..i]) <==> IsGroup(s[..i]) {
        GroupMeans(s[..i]);
      }
      if |s| >= 4 {
        TimesGroups(0, s[4..]);
        assert s[..4][1..] == s[1..4];
      }
    }
  }

  lemma PlainMeans(s: string)
    ensures Matches(Or(Of({'0'}), PLAIN), s) <==> IsPlain(s)
  {
    forall i | 0 <= i <= |s| ensures Matches(DIGITS, s[i..]) <==> AllDigits(s[i..]) {
      TimesDigits(0, None, s[i..]);
    }
    if IsPlain(s) && s[0] != '0' {
      MatchesCat(NONZERO, DIGITS, s[..1], s[1..]);
      assert s == s[..1] + s[1..];
    }
    if Matches(PLAIN, s) {
      var a, b := SplitCat(NONZERO, DIGITS, s);
      assert s == a + b && s[|a|..] == b;
    }
  }

  const TAIL := Cat(Times(DIGIT, 0, Some(2)), Times(GROUP, 1, None))

  lemma TailMatches(digits: string, groups: string)
    requires AllDigits(digits) && |digits| <= 2 && IsGroups(groups)
    ensures Matches(TAIL, digits + groups)
  {
    TimesDigits(0, Some(2), digits);
    TimesGroups(1, groups);
    MatchesCat(Times(DIGIT, 0, Some(2)), Times(GROUP, 1, None), digits, groups);
  }

  lemma TailParts(s: string) returns (digits: string, groups: string)
    requires Matches(TAIL, s)
    ensures s == digits + groups && AllDigits(digits) && |digits| <= 2 && IsGroups(groups)
  {
    digits, groups := SplitCat(Times(DIGIT, 0, Some(2)), Times(GROUP, 1, None), s);
    TimesDigits(0, Some(2), digits);
    TimesGroups(1, groups);
  }

  lemma NonzeroMeans(s: string)
    ensures Matches(NONZERO, s) <==> |s| == 1 && IsDigit(s[0]) && s[0] != '0'
  {
  }

  lemma GroupedMeans(s: string)
    ensures Matches(GROUPED, s) <==> IsGrouped(s)
  {
    hide Matches, IsGroups;
    if Matches(GROUPED, s) {
      var a, b := SplitCat(NONZERO, TAIL, s);
      NonzeroMeans(a);
      var digits, groups := TailParts(b);
      var h := 1 + |digits|;
      assert s[..h] == a + digits && s[h..] == groups;
      assert IsHead(s[..h]);
    }
    if IsGrouped(s) {
      var h :| 0 <= h <= |s| && IsHead(s[..h]) && IsGroups(s[h..]);
      var a, digits := s[..1], s[1..h];
      assert s[..h] == a + digits;
      NonzeroMeans(a);
      TailMatches(digits, s[h..]);
      MatchesCat(NONZERO, TAIL, a, digits + s[h..]);
      assert s == a + (digits + s[h..]);
    }
  }

  lemma EurosMeans(s: string)
    ensures Matches(EUROS, s) <==> IsEuros(s)
  {
    PlainMeans(s);
    GroupedMeans(s);
  }

  lemma FractionMeans(s: string)
    ensures Matches(Maybe(CENTS), s) <==> IsFraction(s)
  {
    MatchesMaybe(CENTS, s);
    forall i | 0 <= i <= |s|
      ensures Matches(Times(DIGIT, 1, Some(2)), s[i..]) <==> AllDigits(s[i..]) && 1 <= |s[i..]| <= 2
    {
      TimesDigits(1, Some(2), s[i..]);
    }
    if s != "" && IsFraction(s) {
      MatchesCat(Of({','}), Times(DIGIT, 1, Some(2)), s[..1], s[1..]);
      assert s == s[..1] + s[1..];
    }
  }

  lemma SignMeans(s: string)
    ensures Matches(Maybe(Of({'-'})), s) <==> s == "" || s == "-"
  {
    MatchesMaybe(Of({'-'}), s);
  }

  /**
   The pattern accepts exactly an optional sign, plain or fully grouped euros, and an optional one or two digit
   fraction.
   */
  lemma PatternMeans(s: string)
    ensures Matches(EUR_INPUT, s) <==> IsAmount(s)
  {
    hide Matches, IsEuros, IsFraction;
    var sign, rest := Maybe(Of({'-'})), Cat(EUROS, Maybe(CENTS));
    if Matches(EUR_INPUT, s) {
      var a, b := SplitCat(sign, rest, s);
      var euros, fraction := SplitCat(EUROS, Maybe(CENTS), b);
      SignMeans(a);
      EurosMeans(euros);
      FractionMeans(fraction);
      assert IsSpelling(s, a == "-", euros, fraction);
    }
    if IsAmount(s) {
      var negative, euros, fraction :| IsSpelling(s, negative, euros, fraction);
      var a := if negative then "-" else "";
      SignMeans(a);
      EurosMeans(euros);
      FractionMeans(fraction);
      MatchesCat(EUROS, Maybe(CENTS), euros, fraction);
      MatchesCat(sign, rest, a, euros + fraction);
      assert s == a + (euros + fraction);
    }
  }

  // Strings without a character

  lemma {:induction false} SplitNone(s: string, c: char)
    requires c !in s
    ensures Split(s, c) == [s]
  {
    if s != "" {
      SplitNone(s[1..], c);
      assert [s[0]] + s[1..] == s;
    }
  }

  lemma {:induction false} SplitOnce(s: string, c: char, t: string)
    requires c !in s && c !in t
    ensures Split(s + [c] + t, c) == [s, t]
  {
    if s == "" {
      assert (s + [c] + t)[1..] == t;
      SplitNone(t, c);
    } else {
      assert (s + [c] + t)[1..] == s[1..] + [c] + t;
      SplitOnce(s[1..], c, t);
      assert [s[0]] + s[1..] == s;
    }
  }

  lemma {:induction false} WithoutNone(s: string, c: char)
    requires c !in s
    ensures Without(s, c) == s
  {
    if s != "" { WithoutNone(s[1..], c); }
  }

  lemma {:induction false} WithoutJoin(s: string, t: string, c: char)
    ensures Without(s + t, c) == Without(s, c) + Without(t, c)
  {
    if s == "" {
      assert s + t == t;
    } else {
      assert (s + t)[1..] == s[1..] + t;
      WithoutJoin(s[1..], t, c);
    }
  }

  lemma {:induction false} RemoveAtEnd(s: string, pattern: string)
    requires pattern != "" && pattern[0] !in s
    ensures RemoveFirst(s + pattern, pattern) == s
  {
    if s != "" {
      assert (s + pattern)[0] == s[0] && s[0] in s;
      assert (s + pattern)[1..] == s[1..] + pattern;
      RemoveAtEnd(s[1..], pattern);
    } else {
      assert s + pattern == pattern;
    }
  }

  // Grouping

  lemma {:induction false} GroupJoin(a: string, b: string)
    requires a != "" && b != "" && |b| % 3 == 0
    ensures Group(a + b) == Group(a) + "." + Group(b)
    decreases |a|
  {
    GroupStep(a + b);
    GroupStep(a);
    hide Group;
    if |a| == 1 {
      assert (a + b)[..1] == a && (a + b)[1..] == b;
    } else {
      assert (a + b)[..1] == a[..1] && (a + b)[1..] == a[1..] + b;
      GroupJoin(a[1..], b);
      Regroup(a[..1], if (|a| - 1) % 3 == 0 then "." else "", Group(a[1..]), Group(b));
    }
  }

  lemma GroupStep(s: string)
    ensures Group(s) == if |s| <= 1 then s else s[..1] + (if (|s| - 1) % 3 == 0 then "." else "") + Group(s[1..])
  {
  }

  lemma Regroup(first: string, dot: string, rest: string, last: string)
    ensures first + dot + (rest + "." + last) == first + dot + rest + "." + last
  {
  }

  lemma GroupShort(s: string)
    requires |s| <= 3
    ensures Group(s) == s
  {
    if |s| == 2 {
      assert s[1..] == [s[1]] && s == s[..1] + s[1..];
    } else if |s| == 3 {
      assert s[1..][1..] == [s[2]] && s[1..] == s[1..][..1] + s[1..][1..] && s == s[..1] + s[1..];
    }
  }

  /** The groups of a spelling are those that grouping its digits gives. */
  lemma {:induction false} GroupsAreGroup(s: string)
    requires IsGroups(s)
    ensures var digits := Without(s, '.');
            AllDigits(digits) && digits != "" && |digits| % 3 == 0 && s == "." + Group(digits)
    decreases |s|
  {
    var first, rest := s[1..4], s[4..];
    assert s == "." + first + rest;
    if |s| > 4 {
      GroupsAreGroup(rest);
    }
    hide IsGroups, Group, Without;
    WithoutOneGroup(first, rest);
    if |s| > 4 {
      OneMoreGroup(first, Without(rest, '.'));
    } else {
      assert rest == "" && first + "" == first;
      WithoutNone(rest, '.');
      GroupShort(first);
    }
  }

  lemma WithoutOneGroup(first: string, rest: string)
    requires AllDigits(first)
    ensures Without("." + first + rest, '.') == first + Without(rest, '.')
  {
    assert "." + first + rest == "" + ("." + (first + rest));
    WithoutDot("", first + rest);
    WithoutJoin(first, rest, '.');
    WithoutNone(first, '.');
  }

  lemma OneMoreGroup(first: string, digits: string)
    requires AllDigits(first) && |first| == 3 && AllDigits(digits) && digits != "" && |digits| % 3 == 0
    ensures Group(first + digits) == first + ("." + Group(digits))
  {
    hide Group;
    GroupJoin(first, digits);
    GroupShort(first);
    DotBefore(first, Group(digits));
  }

  lemma {:induction false} GroupGivesGroups(digits: string)
    requires AllDigits(digits) && digits != "" && |digits| % 3 == 0
    ensures IsGroups("." + Group(digits)) && Without(Group(digits), '.') == digits
    decreases |digits|
  {
    var first, rest := digits[..3], digits[3..];
    assert digits == first + rest;
    GroupShort(first);
    WithoutNone(first, '.');
    assert Without(".", '.') == "";
    hide Group, Without;
    var s := "." + Group(digits);
    if rest == "" {
      assert digits == first;
      assert s[1..4] == first;
    } else {
      GroupJoin(first, rest);
      GroupGivesGroups(rest);
      assert s[1..4] == first && s[4..] == "." + Group(rest);
      WithoutJoin(first + ".", Group(rest), '.');
      WithoutJoin(first, ".", '.');
    }
  }

  lemma HeadAndGroups(head: string, groups: string)
    requires IsHead(head) && IsGroups(groups)
    ensures var digits := Without(head + groups, '.'); IsPlain(digits) && head + groups == Group(digits)
  {
    hide Without, Group, IsGroups;
    WithoutJoin(head, groups, '.');
    WithoutNone(head, '.');
    GroupsAreGroup(groups);
    GroupShort(head);
    GroupJoin(head, Without(groups, '.'));
    assert head + groups == head + "." + Group(Without(groups, '.'));
  }

  /** Dots in accepted euros only group: they are those of the digits without them. */
  lemma EurosGroup(s: string)
    requires IsEuros(s)
    ensures IsPlain(Without(s, '.'))
    ensures s == Without(s, '.') || s == Group(Without(s, '.'))
  {
    hide Without, Group, IsGroups;
    if IsPlain(s) {
      WithoutNone(s, '.');
    } else {
      var h :| 0 <= h <= |s| && IsHead(s[..h]) && IsGroups(s[h..]);
      HeadAndGroups(s[..h], s[h..]);
      assert s == s[..h] + s[h..];
    }
  }

  lemma GroupLong(head: string, rest: string)
    requires IsHead(head) && AllDigits(rest) && rest != "" && |rest| % 3 == 0
    ensures Group(head + rest) == head + ("." + Group(rest)) && Without(Group(head + rest), '.') == head + rest
    ensures IsGroups("." + Group(rest))
  {
    hide Group, IsGroups, Without;
    GroupShort(head);
    GroupJoin(head, rest);
    GroupGivesGroups(rest);
    DotBefore(head, Group(rest));
    WithoutDot(head, Group(rest));
  }

  lemma DotBefore(head: string, s: string)
    ensures head + "." + s == head + ("." + s)
  {
  }

  lemma WithoutDot(head: string, s: string)
    requires '.' !in head
    ensures Without(head + ("." + s), '.') == head + Without(s, '.')
  {
    WithoutJoin(head, "." + s, '.');
    WithoutNone(head, '.');
    assert ("." + s)[1..] == s;
  }

  /** Grouping the digits of an amount gives accepted euros again, with the same digits. */
  lemma GroupIsEuros(digits: string)
    requires IsPlain(digits)
    ensures IsEuros(Group(digits)) && Without(Group(digits), '.') == digits
  {
    hide Group, Without, IsGroups;
    if |digits| <= 3 {
      GroupShort(digits);
      WithoutNone(digits, '.');
    } else {
      var h := (|digits| - 1) % 3 + 1;
      var head, rest := digits[..h], digits[h..];
      assert digits == head + rest;
      GroupLong(head, rest);
      var s := Group(digits);
      assert s[..h] == head && s[h..] == "." + Group(rest);
    }
  }

  // Plain digits are the digits of a number

  lemma {:induction false} DigitsOfNumber(s: string)
    requires IsPlain(s)
    ensures Digits(Number(s)) == s
    decreases |s|
  {
    var front, last := s[..|s| - 1], s[|s| - 1];
    assert Digit(DigitValue(last)) == last;
    assert s == front + [last] && Number(s) == 10 * Number(front) + DigitValue(last);
    if |s| == 1 {
      assert front == "" && s == [last];
    } else {
      DigitsOfNumber(front);
      assert Number(front) != 0;
      AppendDigit(Number(front), DigitValue(last));
    }
  }

  lemma AppendDigit(n: nat, v: nat)
    requires n > 0 && v < 10
    ensures Digits(10 * n + v) == Digits(n) + [Digit(v)]
  {
  }

  // The parts of an accepted spelling

  lemma {:induction false} GroupsCharacters(s: string)
    requires IsGroups(s)
    ensures IsDigit(s[|s| - 1]) && forall c :: c in s ==> IsDigit(c) || c == '.'
    decreases |s|
  {
    assert s == s[..1] + s[1..4] + s[4..];
    if |s| > 4 {
      GroupsCharacters(s[4..]);
    }
  }

  lemma EurosCharacters(s: string)
    requires IsEuros(s)
    ensures s != "" && IsDigit(s[0]) && IsDigit(s[|s| - 1]) && forall c :: c in s ==> IsDigit(c) || c == '.'
  {
    if !IsPlain(s) {
      var h :| 0 <= h <= |s| && IsHead(s[..h]) && IsGroups(s[h..]);
      GroupsCharacters(s[h..]);
      assert s == s[..h] + s[h..];
    }
  }

  function Decimals(fraction: string): string {
    if fraction == "" then "" else fraction[1..]
  }

  lemma SpellingParts(s: string, negative: bool, euros: string, fraction: string)
    requires IsSpelling(s, negative, euros, fraction)
    ensures IsEuros(euros) && IsFraction(fraction)
    ensures "-" <= s <==> negative
    ensures (if negative then s[1..] else s) == euros + fraction
    ensures Split(euros + fraction, ',') == if fraction == "" then [euros] else [euros, Decimals(fraction)]
  {
    hide IsEuros, Split;
    EurosCharacters(euros);
    assert s == (if negative then "-" else "") + (euros + fraction);
    assert s[0] == if negative then '-' else euros[0];
    assert "-" <= s <==> s[0] == '-' by { assert "-"[0] == '-'; }
    if fraction == "" {
      assert euros + fraction == euros;
      SplitNone(euros, ',');
    } else {
      assert euros + fraction == euros + [','] + Decimals(fraction);
      SplitOnce(euros, ',', Decimals(fraction));
    }
  }

  // The cents of an optional fraction: one digit counts tens.
  function Hundredths(fraction: string): int
    requires IsFraction(fraction)
  {
    if fraction == "" then 0
    else 10 * DigitValue(fraction[1]) + if |fraction| == 3 then DigitValue(fraction[2]) else 0
  }

  lemma PaddedDecimals(fraction: string)
    requires IsFraction(fraction)
    ensures AllDigits(PadEnd(Decimals(fraction), 2, '0'))
    ensures Number(PadEnd(Decimals(fraction), 2, '0')) == Hundredths(fraction)
  {
    if fraction == "" {
      assert PadEnd("", 2, '0') == "00" by { assert PadEnd("0", 2, '0') == "00"; }
      NumberOfTwo('0', '0');
    } else if |fraction| == 2 {
      assert PadEnd(Decimals(fraction), 2, '0') == [fraction[1], '0'];
      NumberOfTwo(fraction[1], '0');
    } else {
      assert Decimals(fraction) == [fraction[1], fraction[2]];
      NumberOfTwo(fraction[1], fraction[2]);
    }
  }

  lemma NumberOfTwo(a: char, b: char)
    requires IsDigit(a) && IsDigit(b)
    ensures Number([a, b]) == 10 * DigitValue(a) + DigitValue(b)
  {
    assert [a, b][..1] == [a] && [a][..0] == "";
    assert Number([a]) == 10 * Number("") + DigitValue(a);
  }

  /** Whatever the pattern accepts leaves only digits for the number conversions. */
  lemma AcceptedPartsAreDigits(s: string)
    requires Matches(EUR_INPUT, s)
    ensures var parts := Split(if "-" <= s then s[1..] else s, ',');
            && AllDigits(Without(parts[0], '.'))
            && AllDigits(PadEnd(if |parts| > 1 then parts[1] else "", 2, '0'))
  {
    hide Matches;
    PatternMeans(s);
    var negative, euros, fraction :| IsSpelling(s, negative, euros, fraction);
    SpellingParts(s, negative, euros, fraction);
    EurosGroup(euros);
    PaddedDecimals(fraction);
  }

  function Signed(negative: bool, magnitude: int): int {
    if negative then -magnitude else magnitude
  }

  function Bounded(v: int): Parsed {
    if MIN_SAFE <= v <= MAX_SAFE then Cents(v) else TooLarge
  }

  lemma ParseSpelling(input: string, negative: bool, euros: string, fraction: string)
    requires IsSpelling(Trim(input), negative, euros, fraction)
    ensures AllDigits(Without(euros, '.'))
    ensures Parse(input) == Bounded(Signed(negative, 100 * Number(Without(euros, '.')) + Hundredths(fraction)))
  {
    hide Matches, Trim, IsEuros, Split, Without, PadEnd, Number, Hundredths;
    var s := Trim(input);
    PatternMeans(s);
    SpellingParts(s, negative, euros, fraction);
    EurosGroup(euros);
    PaddedDecimals(fraction);
  }

  // What a text means, without reference to how it is parsed

  /** The text writes v cents: a sign, the euros with all or none of their grouping dots, and up to two decimals. */
  ghost predicate Writes(s: string, v: int) {
    exists negative, n: nat, grouped, fraction :: WritesAs(s, v, negative, n, grouped, fraction)
  }

  predicate WritesAs(s: string, v: int, negative: bool, n: nat, grouped: bool, fraction: string) {
    && IsFraction(fraction)
    && s == Spelled(negative, if grouped then Group(Digits(n)) else Digits(n), fraction)
    && v == Signed(negative, 100 * n + Hundredths(fraction))
  }

  lemma DigitsSpell(n: nat, grouped: bool)
    ensures var euros := if grouped then Group(Digits(n)) else Digits(n);
            IsEuros(euros) && Without(euros, '.') == Digits(n)
    ensures Number(Digits(n)) == n
  {
    NumberOfDigits(n);
    GroupIsEuros(Digits(n));
    WithoutNone(Digits(n), '.');
  }

  lemma ParseWritten(input: string, v: int)
    requires Writes(Trim(input), v)
    ensures Parse(input) == Bounded(v)
  {
    hide Parse, Trim, IsEuros, Group;
    var negative, n: nat, grouped, fraction :| WritesAs(Trim(input), v, negative, n, grouped, fraction);
    DigitsSpell(n, grouped);
    ParseSpelling(input, negative, if grouped then Group(Digits(n)) else Digits(n), fraction);
  }

  lemma AcceptedWrites(input: string) returns (v: int)
    requires Parse(input) != NotAnAmount
    ensures Writes(Trim(input), v)
  {
    hide Matches, Trim, Group;
    var s := Trim(input);
    PatternMeans(s);
    var negative, euros, fraction :| IsSpelling(s, negative, euros, fraction);
    EurosGroup(euros);
    var digits := Without(euros, '.');
    var n := Number(digits);
    DigitsOfNumber(digits);
    v := Signed(negative, 100 * n + Hundredths(fraction));
    assert WritesAs(s, v, negative, n, euros != digits, fraction);
  }

  /**
   The parser accepts a text with value v exactly when the text, without the white space around it, writes v cents and v
   is a safe integer. Grouped and ungrouped spellings of one amount therefore parse alike.
   */
  lemma ParseReadsWhatIsWritten(input: string, v: int)
    ensures Parse(input) == Cents(v) <==> Writes(Trim(input), v) && MIN_SAFE <= v <= MAX_SAFE
    ensures Parse(input) == NotAnAmount <==> forall u :: !Writes(Trim(input), u)
  {
    hide Parse, Writes, Trim;
    if Parse(input) != NotAnAmount {
      var u := AcceptedWrites(input);
      ParseWritten(input, u);
    }
    forall u | Writes(Trim(input), u) ensures Parse(input) == Bounded(u) {
      ParseWritten(input, u);
    }
  }

  /** Grouped or not, and with the fraction spelled or padded, one amount parses to one value. */
  lemma SpellingsAgree(negative: bool, n: nat, fraction: string, before: string, after: string)
    requires IsFraction(fraction) && Blank(before) && Blank(after)
    ensures Parse(before + Spelled(negative, Digits(n), fraction) + after)
         == Parse(before + Spelled(negative, Group(Digits(n)), fraction) + after)
         == Bounded(Signed(negative, 100 * n + Hundredths(fraction)))
  {
    SpellingParses(negative, n, false, fraction, before, after);
    SpellingParses(negative, n, true, fraction, before, after);
  }

  lemma SpellingParses(negative: bool, n: nat, grouped: bool, fraction: string, before: string, after: string)
    requires IsFraction(fraction) && Blank(before) && Blank(after)
    ensures Parse(before + Spelled(negative, if grouped then Group(Digits(n)) else Digits(n), fraction) + after)
         == Bounded(Signed(negative, 100 * n + Hundredths(fraction)))
  {
    hide Parse, Trim, Group, Digits, IsEuros, IsSpace;
    var euros := if grouped then Group(Digits(n)) else Digits(n);
    var s := Spelled(negative, euros, fraction);
    DigitsSpell(n, grouped);
    EurosCharacters(euros);
    assert s == (if negative then "-" else "") + (euros + fraction);
    assert s[0] == '-' || IsDigit(s[0]);
    assert IsDigit(s[|s| - 1]);
    NotSpace(s[0]);
    NotSpace(s[|s| - 1]);
    TrimBlanks(before, s, after);
    assert WritesAs(s, Signed(negative, 100 * n + Hundredths(fraction)), negative, n, grouped, fraction);
    ParseWritten(before + s + after, Signed(negative, 100 * n + Hundredths(fraction)));
  }

  lemma NotSpace(c: char)
    requires c == '-' || IsDigit(c)
    ensures !IsSpace(c)
  {
  }

  // Printing

  function TwoDigits(r: nat): string
    requires r < 100
  {
    [Digit(r / 10), Digit(r % 10)]
  }

  // The normal form of an amount.
  function Normal(v: int): string {
    var absolute: nat := if v < 0 then -v else v;
    Spelled(v < 0, Group(Digits(absolute / 100)), "," + TwoDigits(absolute % 100))
  }

  lemma PadTwo(r: nat)
    requires r < 100
    ensures PadStart(Digits(r), 2, '0') == TwoDigits(r)
  {
    if r < 10 {
      assert PadStart(Digits(r), 2, '0') == ['0'] + Digits(r);
    } else {
      assert Digits(r) == [Digit(r / 10)] + [Digit(r % 10)];
    }
  }

  lemma NormalCharacters(v: int)
    ensures var s := Normal(v);
            && |s| > 0 && !IsSpace(s[0]) && !IsSpace(s[|s| - 1])
            && forall c :: c in s ==> IsDigit(c) || c in {'-', '.', ','}
  {
    hide Group, Digits;
    var absolute: nat := if v < 0 then -v else v;
    GroupIsEuros(Digits(absolute / 100));
    EurosCharacters(Group(Digits(absolute / 100)));
  }

  lemma FormatIsNormal(cents: int)
    requires MIN_SAFE <= cents <= MAX_SAFE
    ensures Format(cents) == Normal(cents) + SUFFIX && Printed(cents) == Normal(cents)
  {
    hide Group, Digits, RemoveFirst;
    var absolute: nat := if cents < 0 then -cents else cents;
    HundredthsRecombine(absolute);
    PadTwo(absolute % 100);
    assert Format(cents) == Normal(cents) + SUFFIX;
    NormalCharacters(cents);
    RemoveAtEnd(Normal(cents), SUFFIX);
  }

  lemma NormalWrites(v: int)
    ensures Writes(Normal(v), v)
  {
    hide Group, Digits;
    var absolute: nat := if v < 0 then -v else v;
    assert WritesAs(Normal(v), v, v < 0, absolute / 100, true, "," + TwoDigits(absolute % 100));
  }

  predicate Blank(s: string) {
    forall c :: c in s ==> IsSpace(c)
  }

  lemma TrimBlanks(before: string, s: string, after: string)
    requires Blank(before) && Blank(after) && s != "" && !IsSpace(s[0]) && !IsSpace(s[|s| - 1])
    ensures Trim(before + s + after) == s
  {
    Text.TrimBlanks(before, s, after, IsSpace);
  }

  /** Every safe amount survives printing, taking off the suffix and parsing, with any white space around it. */
  lemma PrintedParsesBack(cents: int, before: string, after: string)
    requires MIN_SAFE <= cents <= MAX_SAFE && Blank(before) && Blank(after)
    ensures Parse(before + Printed(cents) + after) == Cents(cents)
  {
    hide Parse, Printed, Normal, Trim, Writes;
    FormatIsNormal(cents);
    NormalCharacters(cents);
    NormalWrites(cents);
    TrimBlanks(before, Printed(cents), after);
    ParseReadsWhatIsWritten(before + Printed(cents) + after, cents);
  }

  /** With its suffix a printed amount is refused: editing depends on taking the suffix off. */
  lemma SuffixIsRefused(cents: int)
    requires MIN_SAFE <= cents <= MAX_SAFE
    ensures Parse(Format(cents)) == NotAnAmount
  {
    hide Matches, Format, Trim;
    var s := Format(cents);
    FormatIsNormal(cents);
    NormalCharacters(cents);
    TrimBlanks("", s, "");
    assert "" + s + "" == s;
    PatternMeans(s);
    assert !IsDigit(s[|s| - 1]);
    if IsAmount(s) {
      AmountEnd(s);
    }
  }

  lemma AmountEnd(s: string)
    requires IsAmount(s)
    ensures s != "" && IsDigit(s[|s| - 1])
  {
    hide IsEuros;
    var negative, euros, fraction :| IsSpelling(s, negative, euros, fraction);
    EurosCharacters(euros);
  }

  /**
   Printing a parsed value gives a normal form: it parses to the same value, and two texts print alike after parsing
   exactly when they were parsed to the same value.
   */
  lemma PrintingNormalizes(s: string, t: string)
    requires Parse(s).Cents? && Parse(t).Cents?
    ensures MIN_SAFE <= Parse(s).value <= MAX_SAFE && MIN_SAFE <= Parse(t).value <= MAX_SAFE
    ensures Parse(Printed(Parse(s).value)) == Parse(s)
    ensures Printed(Parse(s).value) == Printed(Parse(t).value) <==> Parse(s) == Parse(t)
  {
    hide Parse, Printed, Writes;
    ParseReadsWhatIsWritten(s, Parse(s).value);
    ParseReadsWhatIsWritten(t, Parse(t).value);
    PrintedParsesBack(Parse(s).value, "", "");
    PrintedParsesBack(Parse(t).value, "", "");
    assert "" + Printed(Parse(s).value) + "" == Printed(Parse(s).value);
    assert "" + Printed(Parse(t).value) + "" == Printed(Parse(t).value);
  }
}
