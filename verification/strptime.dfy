/** `datetime.strptime` restricted to the directives the date normaliser uses
    (%Y, %m, %d and literal characters). Python compiles a format into a
    regular expression whose groups are alternations of fixed-width
    character-class runs, matches it at the start of the string with a
    backtracking engine (first alternative first), rejects a match that
    leaves characters over ("unconverted data remains"), and finally asks
    `datetime.date` whether the fields name a real date.

    `Search` models the engine; `Spelling` is an independent description of
    the strings a date format accepts, and `StrptimeOfSpelling` and
    `StrptimeSound` prove the two agree. */
module Strptime {
  import opened Wrappers
  import opened Dates

  /** One regex character class: a single character or a range `[lo-hi]`. */
  datatype CharClass = Exactly(c: char) | Span(lo: char, hi: char)

  datatype Directive = Year | Month | Day | Literal(c: char)

  predicate Admits(k: CharClass, c: char) {
    match k
    case Exactly(x) => c == x
    case Span(lo, hi) => lo <= c <= hi
  }

  /** `\d`, restricted to ASCII digits. */
  const AnyDigit := Span('0', '9')

  /** The alternatives of each directive's regex group, in the order the
      engine tries them:
        %Y  (?P<Y>\d\d\d\d)
        %m  (?P<m>1[0-2]|0[1-9]|[1-9])
        %d  (?P<d>3[01]|[12]\d|0[1-9]|[1-9]| [1-9])
      A literal format character matches only itself. */
  function Alternatives(d: Directive): seq<seq<CharClass>> {
    match d
    case Year => [[AnyDigit, AnyDigit, AnyDigit, AnyDigit]]
    case Month => [[Exactly('1'), Span('0', '2')], [Exactly('0'), Span('1', '9')], [Span('1', '9')]]
    case Day =>
      [[Exactly('3'), Span('0', '1')], [Span('1', '2'), AnyDigit], [Exactly('0'), Span('1', '9')],
       [Span('1', '9')], [Exactly(' '), Span('1', '9')]]
    case Literal(c) => [[Exactly(c)]]
  }

  /** The alternative matches the first |alt| characters of s. */
  predicate Fits(alt: seq<CharClass>, s: string) {
    |alt| <= |s| && forall i :: 0 <= i < |alt| ==> Admits(alt[i], s[i])
  }

  /** t is exactly one of the directive's alternatives. */
  predicate InLang(d: Directive, t: string) {
    exists k :: 0 <= k < |Alternatives(d)| && |Alternatives(d)[k]| == |t| && Fits(Alternatives(d)[k], t)
  }

  /** One captured group per directive, each in that directive's language. */
  predicate Captures(dirs: seq<Directive>, groups: seq<string>) {
    |groups| == |dirs| && forall i :: 0 <= i < |dirs| ==> InLang(dirs[i], groups[i])
  }

  function Concat(groups: seq<string>): string {
    if groups == [] then [] else groups[0] + Concat(groups[1..])
  }

  /** `re.match`: the first match of the directives at the start of s, in
      backtracking order, as the list of captured groups. */
  function Search(dirs: seq<Directive>, s: string): (r: Option<seq<string>>)
    ensures r.Some? ==> Captures(dirs, r.value) && Concat(r.value) <= s
    decreases |dirs|, 1, 0
  {
    if dirs == [] then Some([]) else TryAlternatives(dirs, 0, s)
  }

  /** Tries the alternatives of the first directive from the k-th on; the
      first one that fits and lets the remaining directives match wins. */
  function TryAlternatives(dirs: seq<Directive>, k: nat, s: string): (r: Option<seq<string>>)
    requires dirs != []
    ensures r.Some? ==> Captures(dirs, r.value) && Concat(r.value) <= s
    decreases |dirs|, 0, |Alternatives(dirs[0])| - k
  {
    var alts := Alternatives(dirs[0]);
    if k >= |alts| then None
    else if Fits(alts[k], s) then
      var n := |alts[k]|;
      match Search(dirs[1..], s[n..])
      case Some(rest) =>
        assert Fits(alts[k], s[..n]);
        assert Concat([s[..n]] + rest) == s[..n] + Concat(rest) by {
          assert ([s[..n]] + rest)[1..] == rest;
        }
        assert s == s[..n] + s[n..];
        Some([s[..n]] + rest)
      case None => TryAlternatives(dirs, k + 1, s)
    else TryAlternatives(dirs, k + 1, s)
  }

  /** Python's `int()` on a captured group: an optional leading blank (only
      the day's ` [1-9]` branch captures one), then ASCII digits. */
  predicate IsNumeral(t: string) {
    if |t| > 0 && t[0] == ' ' then AllDigits(t[1..]) else AllDigits(t)
  }

  function IntValue(t: string): nat
    requires IsNumeral(t)
  {
    if |t| > 0 && t[0] == ' ' then DecimalValue(t[1..]) else DecimalValue(t)
  }

  lemma NumeralOfLang(d: Directive, t: string)
    requires InLang(d, t) && !d.Literal?
    ensures IsNumeral(t)
  {
    var k :| 0 <= k < |Alternatives(d)| && |Alternatives(d)[k]| == |t| && Fits(Alternatives(d)[k], t);
    var alt := Alternatives(d)[k];
    if d == Day && k == 4 {
      assert Admits(alt[0], t[0]) && Admits(alt[1], t[1]);
      assert t[1..] == [t[1]];
    } else {
      forall i | 0 <= i < |t| ensures IsDigit(t[i]) {
        assert Admits(alt[i], t[i]);
      }
    }
  }

  /** Stores one captured group in the field its directive names. */
  function Assign(dir: Directive, t: string, acc: Date): Date
    requires InLang(dir, t)
  {
    if dir.Literal? then acc
    else
      NumeralOfLang(dir, t);
      var v := IntValue(t);
      match dir
      case Year => acc.(year := v)
      case Month => acc.(month := v)
      case Day => acc.(day := v)
  }

  /** The fields of the parsed date; `_strptime` starts from 1900-01-01 and
      overwrites what the format captures. */
  function Fields(fmt: seq<Directive>, groups: seq<string>, acc: Date): Date
    requires Captures(fmt, groups)
  {
    if fmt == [] then acc
    else
      var next := Assign(fmt[0], groups[0], acc);
      assert Captures(fmt[1..], groups[1..]) by {
        forall i | 0 <= i < |fmt| - 1 ensures InLang(fmt[1..][i], groups[1..][i]) {
          assert InLang(fmt[i + 1], groups[i + 1]);
        }
      }
      Fields(fmt[1..], groups[1..], next)
  }

  /** `datetime.strptime(s, fmt)`, None standing for ValueError. */
  function Strptime(s: string, fmt: seq<Directive>): (r: Option<Date>)
    ensures r.Some? ==> ValidDate(r.value)
  {
    match Search(fmt, s)
    case None => None
    case Some(groups) =>
      if |Concat(groups)| != |s| then None
      else
        var d := Fields(fmt, groups, Date(1900, 1, 1));
        if ValidDate(d) then Some(d) else None
  }

  /** The shape shared by the normaliser's four formats:
      %Y <sep1> %m <sep2> %d [<closing>]. */
  datatype Layout = Layout(sep1: char, sep2: char, closing: Option<char>)

  function ClosingText(l: Layout): string {
    if l.closing.Some? then [l.closing.value] else []
  }

  function Pattern(l: Layout): seq<Directive> {
    [Year, Literal(l.sep1), Month, Literal(l.sep2), Day]
    + (if l.closing.Some? then [Literal(l.closing.value)] else [])
  }

  /** How a day of the month may be written: "05", "5" or " 5". */
  datatype DayStyle = Padded | Bare | Blank

  function MonthText(m: int, padded: bool): string
    requires 1 <= m <= 12
  {
    if padded || m >= 10 then Digits(m, 2) else Digits(m, 1)
  }

  function DayText(d: int, style: DayStyle): string
    requires 1 <= d <= 31
  {
    if d >= 10 then Digits(d, 2)
    else match style
      case Padded => Digits(d, 2)
      case Bare => Digits(d, 1)
      case Blank => " " + Digits(d, 1)
  }

  /** The strings a layout accepts for a date: a four-digit year, a month
      with or without its leading zero, a day in one of its three styles. */
  function Spelling(l: Layout, d: Date, padMonth: bool, style: DayStyle): string
    requires 0 <= d.year <= 9999 && 1 <= d.month <= 12 && 1 <= d.day <= 31
  {
    Digits(d.year, 4) + [l.sep1] + MonthText(d.month, padMonth) + [l.sep2] + DayText(d.day, style) + ClosingText(l)
  }

  /** A layout whose separators after the month and the day are not digits,
      so that the month and day groups end where they should. */
  predicate Separated(l: Layout) {
    !IsDigit(l.sep2) && (l.closing.Some? ==> !IsDigit(l.closing.value))
  }

  // ---------------------------------------------------------------------
  // Completeness: the engine finds every spelling.

  /** Alternatives k..j-1 do not fit, so the engine moves on to j. */
  lemma {:induction false} SkipAlternatives(dirs: seq<Directive>, k: nat, j: nat, s: string)
    requires dirs != [] && k <= j <= |Alternatives(dirs[0])|
    requires forall i :: k <= i < j ==> !Fits(Alternatives(dirs[0])[i], s)
    ensures TryAlternatives(dirs, k, s) == TryAlternatives(dirs, j, s)
    decreases j - k
  {
    if k < j {
      assert !Fits(Alternatives(dirs[0])[k], s);
      assert TryAlternatives(dirs, k, s) == TryAlternatives(dirs, k + 1, s);
      SkipAlternatives(dirs, k + 1, j, s);
    }
  }

  /** The engine captures t for the first directive when alternative k is
      the first that fits and the rest of the directives match what follows. */
  lemma SearchStep(dirs: seq<Directive>, k: nat, t: string, rest: string, g: seq<string>)
    requires dirs != [] && k < |Alternatives(dirs[0])|
    requires |Alternatives(dirs[0])[k]| == |t| && Fits(Alternatives(dirs[0])[k], t + rest)
    requires forall i :: 0 <= i < k ==> !Fits(Alternatives(dirs[0])[i], t + rest)
    requires Search(dirs[1..], rest) == Some(g)
    ensures Search(dirs, t + rest) == Some([t] + g)
  {
    var s := t + rest;
    SkipAlternatives(dirs, 0, k, s);
    assert s[..|t|] == t && s[|t|..] == rest;
  }

  lemma YearStep(dirs: seq<Directive>, y: nat, rest: string, g: seq<string>)
    requires dirs != [] && dirs[0] == Year
    requires Search(dirs[1..], rest) == Some(g)
    ensures Search(dirs, Digits(y, 4) + rest) == Some([Digits(y, 4)] + g)
  {
    var t := Digits(y, 4);
    var alt := Alternatives(Year)[0];
    forall i | 0 <= i < 4 ensures Admits(alt[i], (t + rest)[i]) {
      assert IsDigit(t[i]);
    }
    SearchStep(dirs, 0, t, rest, g);
  }

  lemma LiteralStep(dirs: seq<Directive>, c: char, rest: string, g: seq<string>)
    requires dirs != [] && dirs[0] == Literal(c)
    requires Search(dirs[1..], rest) == Some(g)
    ensures Search(dirs, [c] + rest) == Some([[c]] + g)
  {
    SearchStep(dirs, 0, [c], rest, g);
  }

  /** Which alternative of `%m` the month's text takes. */
  function MonthAlternative(m: int, padded: bool): nat {
    if m >= 10 then 0 else if padded then 1 else 2
  }

  /** The month's text fits its alternative, and no earlier one, when a
      non-digit follows it. */
  lemma MonthFits(m: int, padded: bool, rest: string)
    requires 1 <= m <= 12
    requires rest != [] && !IsDigit(rest[0])
    ensures var t, k, alts := MonthText(m, padded), MonthAlternative(m, padded), Alternatives(Month);
      k < |alts| && |alts[k]| == |t| && Fits(alts[k], t + rest)
      && forall i :: 0 <= i < k ==> !Fits(alts[i], t + rest)
  {
    var t := MonthText(m, padded);
    var s := t + rest;
    var alts := Alternatives(Month);
    if m >= 10 {
      Digits2(m);
      assert s[0] == '1' && '0' <= s[1] <= '2';
      assert Fits(alts[0], s);
    } else if padded {
      Digits2(m);
      assert s[0] == '0' && '1' <= s[1] <= '9';
      assert !Fits(alts[0], s);
      assert Fits(alts[1], s);
    } else {
      Digits1(m);
      assert '1' <= s[0] <= '9' && s[1] == rest[0] && !IsDigit(s[1]);
      assert !Fits(alts[0], s) by {
        assert !Admits(alts[0][1], s[1]);
      }
      assert !Fits(alts[1], s);
      assert Fits(alts[2], s);
    }
  }

  lemma MonthStep(dirs: seq<Directive>, m: int, padded: bool, rest: string, g: seq<string>)
    requires dirs != [] && dirs[0] == Month && 1 <= m <= 12
    requires rest != [] && !IsDigit(rest[0])
    requires Search(dirs[1..], rest) == Some(g)
    ensures Search(dirs, MonthText(m, padded) + rest) == Some([MonthText(m, padded)] + g)
  {
    MonthFits(m, padded, rest);
    SearchStep(dirs, MonthAlternative(m, padded), MonthText(m, padded), rest, g);
  }

  /** Which alternative of `%d` the day's text takes. */
  function DayAlternative(d: int, style: DayStyle): nat {
    if d >= 30 then 0
    else if d >= 10 then 1
    else match style
      case Padded => 2
      case Bare => 3
      case Blank => 4
  }

  /** The day's text fits its alternative, and no earlier one, when no
      digit follows it. */
  lemma DayFits(d: int, style: DayStyle, rest: string)
    requires 1 <= d <= 31
    requires rest == [] || !IsDigit(rest[0])
    ensures var t, k, alts := DayText(d, style), DayAlternative(d, style), Alternatives(Day);
      k < |alts| && |alts[k]| == |t| && Fits(alts[k], t + rest)
      && forall i :: 0 <= i < k ==> !Fits(alts[i], t + rest)
  {
    if d >= 10 || style == Padded {
      assert DayText(d, style) == Digits(d, 2);
      TwoDigitDayFits(d, rest);
    } else if style == Bare {
      BareDayFits(d, rest);
    } else {
      BlankDayFits(d, rest);
    }
  }

  /** "05", "12", "31": one of the first three alternatives. */
  lemma TwoDigitDayFits(d: int, rest: string)
    requires 1 <= d <= 31
    ensures var t, k, alts := Digits(d, 2), DayAlternative(d, Padded), Alternatives(Day);
      k < 3 && |alts[k]| == |t| && Fits(alts[k], t + rest)
      && forall i :: 0 <= i < k ==> !Fits(alts[i], t + rest)
  {
    var s := Digits(d, 2) + rest;
    var alts := Alternatives(Day);
    Digits2(d);
    if d >= 30 {
      assert s[0] == '3' && '0' <= s[1] <= '1';
      assert Fits(alts[0], s);
    } else if d >= 10 {
      assert '1' <= s[0] <= '2' && IsDigit(s[1]);
      assert !Fits(alts[0], s);
      assert Fits(alts[1], s);
    } else {
      assert s[0] == '0' && '1' <= s[1] <= '9';
      assert !Fits(alts[0], s);
      assert !Fits(alts[1], s);
      assert Fits(alts[2], s);
    }
  }

  /** "5": the fourth alternative, the first three needing a second digit. */
  lemma BareDayFits(d: int, rest: string)
    requires 1 <= d <= 9
    requires rest == [] || !IsDigit(rest[0])
    ensures var t, alts := Digits(d, 1), Alternatives(Day);
      |alts[3]| == |t| && Fits(alts[3], t + rest)
      && forall i :: 0 <= i < 3 ==> !Fits(alts[i], t + rest)
  {
    var s := Digits(d, 1) + rest;
    var alts := Alternatives(Day);
    Digits1(d);
    assert '1' <= s[0] <= '9';
    assert |s| >= 2 ==> s[1] == rest[0] && !IsDigit(s[1]);
    assert !Fits(alts[0], s) by {
      if |s| >= 2 { assert !Admits(alts[0][1], s[1]); }
    }
    assert !Fits(alts[1], s) by {
      if |s| >= 2 { assert !Admits(alts[1][1], s[1]); }
    }
    assert !Fits(alts[2], s);
    assert Fits(alts[3], s);
  }

  /** " 5": the fifth alternative, the only one admitting a blank. */
  lemma BlankDayFits(d: int, rest: string)
    requires 1 <= d <= 9
    ensures var t, alts := " " + Digits(d, 1), Alternatives(Day);
      |alts[4]| == |t| && Fits(alts[4], t + rest)
      && forall i :: 0 <= i < 4 ==> !Fits(alts[i], t + rest)
  {
    var s := " " + Digits(d, 1) + rest;
    var alts := Alternatives(Day);
    Digits1(d);
    assert s[0] == ' ' && '1' <= s[1] <= '9';
    assert !Fits(alts[0], s);
    assert !Fits(alts[1], s);
    assert !Fits(alts[2], s);
    assert !Fits(alts[3], s);
    assert Fits(alts[4], s);
  }

  lemma DayStep(dirs: seq<Directive>, d: int, style: DayStyle, rest: string, g: seq<string>)
    requires dirs != [] && dirs[0] == Day && 1 <= d <= 31
    requires rest == [] || !IsDigit(rest[0])
    requires Search(dirs[1..], rest) == Some(g)
    ensures Search(dirs, DayText(d, style) + rest) == Some([DayText(d, style)] + g)
  {
    DayFits(d, style, rest);
    SearchStep(dirs, DayAlternative(d, style), DayText(d, style), rest, g);
  }

  lemma MonthTextValue(m: int, padded: bool)
    requires 1 <= m <= 12
    ensures IsNumeral(MonthText(m, padded)) && IntValue(MonthText(m, padded)) == m
  {
    if padded || m >= 10 {
      DigitsValue(m, 2);
    } else {
      DigitsValue(m, 1);
    }
  }

  lemma DayTextValue(d: int, style: DayStyle)
    requires 1 <= d <= 31
    ensures IsNumeral(DayText(d, style)) && IntValue(DayText(d, style)) == d
  {
    var t := DayText(d, style);
    if d >= 10 || style == Padded {
      assert t == Digits(d, 2) && IsDigit(t[0]);
      DigitsValue(d, 2);
    } else if style == Bare {
      assert t == Digits(d, 1) && IsDigit(t[0]);
      DigitsValue(d, 1);
    } else {
      assert t == " " + Digits(d, 1) && t[1..] == Digits(d, 1);
      DigitsValue(d, 1);
    }
  }

  /** The fields `_strptime` reads off a layout's captured groups. */
  lemma FieldsOfPattern(l: Layout, groups: seq<string>)
    requires Captures(Pattern(l), groups)
    ensures IsNumeral(groups[0]) && IsNumeral(groups[2]) && IsNumeral(groups[4])
    ensures Fields(Pattern(l), groups, Date(1900, 1, 1))
         == Date(IntValue(groups[0]), IntValue(groups[2]), IntValue(groups[4]))
  {
    var p := Pattern(l);
    NumeralOfLang(Year, groups[0]);
    NumeralOfLang(Month, groups[2]);
    NumeralOfLang(Day, groups[4]);
    var d1 := Date(IntValue(groups[0]), 1, 1);
    var d3 := Date(IntValue(groups[0]), IntValue(groups[2]), 1);
    var d5 := Date(IntValue(groups[0]), IntValue(groups[2]), IntValue(groups[4]));
    assert p[1..][1..][1..][1..][1..] == p[5..];
    assert groups[1..][1..][1..][1..][1..] == groups[5..];
    assert Fields(p[5..], groups[5..], d5) == d5 by {
      if l.closing.Some? {
        assert p[5..][1..] == [];
      }
    }
    assert Fields(p[4..], groups[4..], d3) == d5 by {
      assert p[4..][1..] == p[5..] && groups[4..][1..] == groups[5..];
    }
    assert Fields(p[3..], groups[3..], d3) == d5 by {
      assert p[3..][1..] == p[4..] && groups[3..][1..] == groups[4..];
    }
    assert Fields(p[2..], groups[2..], d1) == d5 by {
      assert p[2..][1..] == p[3..] && groups[2..][1..] == groups[3..];
    }
    assert Fields(p[1..], groups[1..], d1) == d5 by {
      assert p[1..][1..] == p[2..] && groups[1..][1..] == groups[2..];
    }
  }

  /** The group the closing literal captures, if the layout has one. */
  function ClosingGroups(l: Layout): seq<string> {
    if l.closing.Some? then [ClosingText(l)] else []
  }

  /** The groups the engine captures for a spelling. */
  function SpellingGroups(l: Layout, d: Date, padMonth: bool, style: DayStyle): seq<string>
    requires 0 <= d.year <= 9999 && 1 <= d.month <= 12 && 1 <= d.day <= 31
  {
    [Digits(d.year, 4), [l.sep1], MonthText(d.month, padMonth), [l.sep2], DayText(d.day, style)]
    + ClosingGroups(l)
  }

  /** The engine matches the day and what follows it. */
  lemma SearchDayOn(l: Layout, day: int, style: DayStyle)
    requires Separated(l) && 1 <= day <= 31
    ensures Search(Pattern(l)[4..], DayText(day, style) + ClosingText(l))
         == Some([DayText(day, style)] + ClosingGroups(l))
  {
    var p, c := Pattern(l), ClosingText(l);
    var tail := ClosingGroups(l);
    assert Search(p[5..], c) == Some(tail) by {
      if l.closing.Some? {
        assert p[5..] == [Literal(l.closing.value)];
        assert p[5..][1..] == [];
        assert c == [l.closing.value] + [];
        LiteralStep(p[5..], l.closing.value, [], []);
        assert tail == [[l.closing.value]] + [];
      } else {
        assert p[5..] == [];
        assert c == [] && tail == [];
      }
    }
    assert p[4..][1..] == p[5..];
    DayStep(p[4..], day, style, c, tail);
  }

  /** The engine matches everything from the month on. */
  lemma SearchMonthOn(l: Layout, month: int, padMonth: bool, day: int, style: DayStyle)
    requires Separated(l) && 1 <= month <= 12 && 1 <= day <= 31
    ensures Search(Pattern(l)[2..], MonthText(month, padMonth) + ([l.sep2] + (DayText(day, style) + ClosingText(l))))
         == Some([MonthText(month, padMonth)] + ([[l.sep2]] + ([DayText(day, style)] + ClosingGroups(l))))
  {
    var p := Pattern(l);
    var dd, c := DayText(day, style), ClosingText(l);
    var tail := ClosingGroups(l);
    SearchDayOn(l, day, style);
    assert p[3..][1..] == p[4..] && p[2..][1..] == p[3..];
    LiteralStep(p[3..], l.sep2, dd + c, [dd] + tail);
    MonthStep(p[2..], month, padMonth, [l.sep2] + (dd + c), [[l.sep2]] + ([dd] + tail));
  }

  /** The engine matches a whole spelling, one group per directive. */
  lemma SearchSpelling(l: Layout, d: Date, padMonth: bool, style: DayStyle)
    requires Separated(l)
    requires 0 <= d.year <= 9999 && 1 <= d.month <= 12 && 1 <= d.day <= 31
    ensures Search(Pattern(l), Spelling(l, d, padMonth, style)) == Some(SpellingGroups(l, d, padMonth, style))
  {
    var p := Pattern(l);
    var y, m, dd, c := Digits(d.year, 4), MonthText(d.month, padMonth), DayText(d.day, style), ClosingText(l);
    var tail := ClosingGroups(l);
    var mid := m + ([l.sep2] + (dd + c));
    var gmid := [m] + ([[l.sep2]] + ([dd] + tail));
    SearchMonthOn(l, d.month, padMonth, d.day, style);
    assert p[1..][1..] == p[2..];
    LiteralStep(p[1..], l.sep1, mid, gmid);
    YearStep(p, d.year, [l.sep1] + mid, [[l.sep1]] + gmid);
    SpellingNested(l, d, padMonth, style);
  }

  /** A spelling and its groups, nested to the right as the engine reads them. */
  lemma SpellingNested(l: Layout, d: Date, padMonth: bool, style: DayStyle)
    requires 0 <= d.year <= 9999 && 1 <= d.month <= 12 && 1 <= d.day <= 31
    ensures var y, m, dd, c := Digits(d.year, 4), MonthText(d.month, padMonth), DayText(d.day, style), ClosingText(l);
      Spelling(l, d, padMonth, style) == y + ([l.sep1] + (m + ([l.sep2] + (dd + c))))
    ensures var y, m, dd := Digits(d.year, 4), MonthText(d.month, padMonth), DayText(d.day, style);
      SpellingGroups(l, d, padMonth, style) == [y] + ([[l.sep1]] + ([m] + ([[l.sep2]] + ([dd] + ClosingGroups(l)))))
  {
  }

  /** Completeness: every spelling of an in-range date under a separated
      layout is matched in full, and strptime then returns the date exactly
      when it is a real calendar date (so "2023-02-29" and "0000-01-01"
      fail, "2024-02-29" succeeds). */
  lemma StrptimeOfSpelling(l: Layout, d: Date, padMonth: bool, style: DayStyle)
    requires Separated(l)
    requires 0 <= d.year <= 9999 && 1 <= d.month <= 12 && 1 <= d.day <= 31
    ensures Strptime(Spelling(l, d, padMonth, style), Pattern(l))
         == if ValidDate(d) then Some(d) else None
  {
    var s := Spelling(l, d, padMonth, style);
    var groups := SpellingGroups(l, d, padMonth, style);
    SearchSpelling(l, d, padMonth, style);
    ConcatPattern(l, groups);
    assert Concat(groups[5..]) == ClosingText(l) by {
      if l.closing.Some? {
        assert groups[5..][1..] == [];
      } else {
        assert groups[5..] == [];
      }
    }
    assert Concat(groups) == s;
    FieldsOfPattern(l, groups);
    DigitsValue(d.year, 4);
    MonthTextValue(d.month, padMonth);
    DayTextValue(d.day, style);
  }

  // ---------------------------------------------------------------------
  // Soundness: everything the engine accepts is a spelling.

  lemma YearGroup(t: string)
    requires InLang(Year, t)
    ensures |t| == 4 && AllDigits(t) && t == Digits(DecimalValue(t), 4) && DecimalValue(t) <= 9999
  {
    var alt := Alternatives(Year)[0];
    forall i | 0 <= i < |t| ensures IsDigit(t[i]) {
      assert Admits(alt[i], t[i]);
    }
    ValueDigits(t);
  }

  lemma LiteralGroup(c: char, t: string)
    requires InLang(Literal(c), t)
    ensures t == [c]
  {
    assert Admits(Alternatives(Literal(c))[0][0], t[0]);
  }

  lemma MonthGroup(t: string)
    requires InLang(Month, t)
    ensures IsNumeral(t) && 1 <= IntValue(t) <= 12 && t == MonthText(IntValue(t), |t| == 2)
  {
    var alts := Alternatives(Month);
    var k :| 0 <= k < |alts| && |alts[k]| == |t| && Fits(alts[k], t);
    NumeralOfLang(Month, t);
    assert Admits(alts[k][0], t[0]);
    assert |t| == 2 ==> Admits(alts[k][1], t[1]);
    assert t[0] != ' ';
    ValueDigits(t);
    assert t[..|t| - 1] == if |t| == 2 then [t[0]] else [];
    if |t| == 2 {
      assert [t[0]][..0] == [];
    }
  }

  function StyleOf(t: string): DayStyle {
    if |t| == 1 then Bare else if |t| > 0 && t[0] == ' ' then Blank else Padded
  }

  lemma DayGroup(t: string)
    requires InLang(Day, t)
    ensures IsNumeral(t) && 1 <= IntValue(t) <= 31 && t == DayText(IntValue(t), StyleOf(t))
  {
    var alts := Alternatives(Day);
    var k :| 0 <= k < |alts| && |alts[k]| == |t| && Fits(alts[k], t);
    NumeralOfLang(Day, t);
    assert Admits(alts[k][0], t[0]);
    assert |t| == 2 ==> Admits(alts[k][1], t[1]);
    if k == 4 {
      var u := t[1..];
      assert u == [t[1]];
      ValueDigits(u);
      assert u[..0] == [];
      assert t == " " + u;
    } else {
      assert t[0] != ' ';
      ValueDigits(t);
      assert t[..|t| - 1] == if |t| == 2 then [t[0]] else [];
      if |t| == 2 {
        assert [t[0]][..0] == [];
      }
    }
  }

  lemma ConcatPattern(l: Layout, groups: seq<string>)
    requires |groups| == |Pattern(l)|
    ensures Concat(groups) == groups[0] + groups[1] + groups[2] + groups[3] + groups[4] + Concat(groups[5..])
  {
    assert groups[1..][1..] == groups[2..] && groups[2..][1..] == groups[3..];
    assert groups[3..][1..] == groups[4..] && groups[4..][1..] == groups[5..];
    assert Concat(groups[4..]) == groups[4] + Concat(groups[5..]);
    assert Concat(groups[3..]) == groups[3] + Concat(groups[4..]);
    assert Concat(groups[2..]) == groups[2] + Concat(groups[3..]);
    assert Concat(groups[1..]) == groups[1] + Concat(groups[2..]);
  }

  /** Soundness: whatever a layout's strptime accepts is a real date and the
      input is one of that date's spellings. */
  lemma StrptimeSound(l: Layout, s: string)
    requires Strptime(s, Pattern(l)).Some?
    ensures ValidDate(Strptime(s, Pattern(l)).value)
    ensures exists padMonth, style :: s == Spelling(l, Strptime(s, Pattern(l)).value, padMonth, style)
  {
    var p := Pattern(l);
    var groups := Search(p, s).value;
    var d := Strptime(s, p).value;
    assert Concat(groups) == s;
    FieldsOfPattern(l, groups);
    assert InLang(p[0], groups[0]) && InLang(p[1], groups[1]) && InLang(p[2], groups[2]);
    assert InLang(p[3], groups[3]) && InLang(p[4], groups[4]);
    YearGroup(groups[0]);
    LiteralGroup(l.sep1, groups[1]);
    MonthGroup(groups[2]);
    LiteralGroup(l.sep2, groups[3]);
    DayGroup(groups[4]);
    assert IntValue(groups[0]) == DecimalValue(groups[0]);
    ConcatPattern(l, groups);
    assert Concat(groups[5..]) == ClosingText(l) by {
      if l.closing.Some? {
        assert InLang(p[5], groups[5]);
        LiteralGroup(l.closing.value, groups[5]);
        assert groups[5..][1..] == [];
      } else {
        assert groups[5..] == [];
      }
    }
    assert s == Spelling(l, d, |groups[2]| == 2, StyleOf(groups[4]));
  }

  /** A layout's strptime only accepts strings whose fifth character is the
      layout's first separator. */
  lemma FirstSeparatorAt4(l: Layout, s: string)
    requires Strptime(s, Pattern(l)).Some?
    ensures |s| > 4 && s[4] == l.sep1
  {
    StrptimeSound(l, s);
  }
}
