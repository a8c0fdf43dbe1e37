/** `ExcelProcessor._format_date`: try four strptime formats in a fixed
    order, render the first parse as YYYY-MM-DD, and hand the input back
    unchanged when none of them parses (the ValueError raised for that case
    is caught and logged, never propagated). */
module DateFormat {
  import opened Wrappers
  import opened Dates
  import opened Strptime

  /** '%Y年%m月%d日', '%Y-%m-%d', '%Y/%m/%d', '%Y.%m.%d', in the order tried. */
  const Layouts: seq<Layout> :=
    [Layout('年', '月', Some('日')), Layout('-', '-', None), Layout('/', '/', None), Layout('.', '.', None)]

  /** The index of the layout '%Y-%m-%d', the one the output is written in. */
  const IsoLayout := 1

  function ParseWith(s: string, k: nat): Option<Date>
    requires k < |Layouts|
  {
    Strptime.Strptime(s, Pattern(Layouts[k]))
  }

  /** The index of the first layout, from the k-th on, under which s
      parses; |Layouts| when there is none. */
  function FirstLayout(s: string, k: nat): (j: nat)
    requires k <= |Layouts|
    ensures k <= j <= |Layouts|
    ensures j < |Layouts| ==> ParseWith(s, j).Some?
    ensures forall i :: k <= i < j ==> ParseWith(s, i).None?
    decreases |Layouts| - k
  {
    if k == |Layouts| || ParseWith(s, k).Some? then k
    else FirstLayout(s, k + 1)
  }

  /** `_format_date(date_str)`. */
  function FormatDate(s: string): (r: string)
    ensures r == s || IsIsoDate(r)
  {
    var j := FirstLayout(s, 0);
    if j < |Layouts| then
      var d := ParseWith(s, j).value;
      RenderIsIso(d);
      Render(d)
    else s
  }

  /** The four layouts differ in their first separator, so at most one of
      them parses any string; the order in which they are tried never
      changes the result. */
  lemma LayoutsExclusive(s: string, i: nat, j: nat)
    requires i < |Layouts| && j < |Layouts|
    requires ParseWith(s, i).Some? && ParseWith(s, j).Some?
    ensures i == j
  {
    FirstSeparatorAt4(Layouts[i], s);
    FirstSeparatorAt4(Layouts[j], s);
  }

  /** Whichever layout parses the input, its date is what gets rendered. */
  lemma FormatDateParses(s: string, k: nat)
    requires k < |Layouts| && ParseWith(s, k).Some?
    ensures FormatDate(s) == Render(ParseWith(s, k).value)
  {
    LayoutsExclusive(s, FirstLayout(s, 0), k);
  }

  /** Fail-open: when no layout parses, the input comes back verbatim. */
  lemma FormatDateFailOpen(s: string)
    requires forall k :: 0 <= k < |Layouts| ==> ParseWith(s, k).None?
    ensures FormatDate(s) == s
  {
  }

  /** Soundness: a changed string was a spelling of a real date under one of
      the layouts, and the output renders that date. */
  lemma FormatDateSound(s: string)
    requires FormatDate(s) != s
    ensures exists k: nat, d: Date, padMonth: bool, style: DayStyle ::
      0 <= k < |Layouts| && 1 <= d.month <= 12 && 1 <= d.day <= 31 && ValidDate(d)
      && s == Spelling(Layouts[k], d, padMonth, style) && FormatDate(s) == Render(d)
  {
    var k := FirstLayout(s, 0);
    StrptimeSound(Layouts[k], s);
    var d := ParseWith(s, k).value;
    var padMonth, style :| s == Spelling(Layouts[k], d, padMonth, style);
    assert FormatDate(s) == Render(d);
  }

  /** A layout's spelling carries that layout's first separator at index 4,
      so no other layout parses it. */
  lemma OthersReject(k: nat, d: Date, padMonth: bool, style: DayStyle, j: nat)
    requires k < |Layouts| && j < |Layouts| && j != k
    requires 0 <= d.year <= 9999 && 1 <= d.month <= 12 && 1 <= d.day <= 31
    ensures ParseWith(Spelling(Layouts[k], d, padMonth, style), j).None?
  {
    var s := Spelling(Layouts[k], d, padMonth, style);
    assert s[4] == Layouts[k].sep1;
    if ParseWith(s, j).Some? {
      FirstSeparatorAt4(Layouts[j], s);
    }
  }

  /** Completeness: every spelling of an in-range date under one of the four
      layouts is normalised to that date's YYYY-MM-DD form when the date is
      real, and is handed back unchanged when it is not (a 29 February
      outside a leap year, a 31st in a 30-day month, year 0). */
  lemma FormatDateOfSpelling(k: nat, d: Date, padMonth: bool, style: DayStyle)
    requires k < |Layouts|
    requires 0 <= d.year <= 9999 && 1 <= d.month <= 12 && 1 <= d.day <= 31
    ensures var s := Spelling(Layouts[k], d, padMonth, style);
      FormatDate(s) == if ValidDate(d) then Render(d) else s
  {
    var s := Spelling(Layouts[k], d, padMonth, style);
    StrptimeOfSpelling(Layouts[k], d, padMonth, style);
    if ValidDate(d) {
      FormatDateParses(s, k);
    } else {
      forall j | 0 <= j < |Layouts| ensures ParseWith(s, j).None? {
        if j != k {
          OthersReject(k, d, padMonth, style, j);
        }
      }
      FormatDateFailOpen(s);
    }
  }

  /** A canonical date is its own spelling under '%Y-%m-%d'. */
  lemma IsoSpelling(d: Date)
    requires ValidDate(d)
    ensures Render(d) == Spelling(Layouts[IsoLayout], d, true, Padded)
  {
  }

  /** The output format is a fixed point: a YYYY-MM-DD date re-parses under
      '%Y-%m-%d' to itself. */
  lemma CanonicalFixedPoint(r: string)
    requires IsIsoDate(r)
    ensures FormatDate(r) == r
  {
    var d := IsoFields(r);
    IsoIsRender(r);
    IsoSpelling(d);
    FormatDateOfSpelling(IsoLayout, d, true, Padded);
  }

  /** Normalising twice is normalising once. */
  lemma FormatDateIdempotent(s: string)
    ensures FormatDate(FormatDate(s)) == FormatDate(s)
  {
    if FormatDate(s) != s {
      CanonicalFixedPoint(FormatDate(s));
    }
  }

  /** A string without one of the four separators at index 4 is never a
      date to any of the layouts. */
  lemma FormatDateNoSeparator(s: string)
    requires |s| <= 4 || forall k :: 0 <= k < |Layouts| ==> s[4] != Layouts[k].sep1
    ensures FormatDate(s) == s
  {
    forall k | 0 <= k < |Layouts| ensures ParseWith(s, k).None? {
      if ParseWith(s, k).Some? {
        FirstSeparatorAt4(Layouts[k], s);
      }
    }
  }

  // ---------------------------------------------------------------------
  // Worked examples.

  lemma ChineseDate()
    ensures FormatDate("2024年5月1日") == "2024-05-01"
  {
    var d := Date(2024, 5, 1);
    assert Digits(2024, 4) == "2024";
    assert "2024年5月1日" == Spelling(Layouts[0], d, false, Bare) by {
      Digits1(5);
      Digits1(1);
    }
    assert Render(d) == "2024-05-01" by {
      Digits2(5);
      Digits2(1);
    }
    FormatDateOfSpelling(0, d, false, Bare);
  }

  lemma SlashedDate()
    ensures FormatDate("2023/12/31") == "2023-12-31"
  {
    var d := Date(2023, 12, 31);
    assert Digits(2023, 4) == "2023";
    Digits2(12);
    Digits2(31);
    assert "2023/12/31" == Spelling(Layouts[2], d, true, Padded);
    assert Render(d) == "2023-12-31";
    FormatDateOfSpelling(2, d, true, Padded);
  }

  /** `%d` also admits a blank followed by one digit. */
  lemma BlankLedDay()
    ensures FormatDate("2024.05. 7") == "2024-05-07"
  {
    var d := Date(2024, 5, 7);
    assert Digits(2024, 4) == "2024";
    Digits2(5);
    assert "2024.05. 7" == Spelling(Layouts[3], d, true, Blank) by {
      Digits1(7);
    }
    assert Render(d) == "2024-05-07" by {
      Digits2(7);
    }
    FormatDateOfSpelling(3, d, true, Blank);
  }

  lemma LeapDay()
    ensures FormatDate("2024-02-29") == "2024-02-29"
  {
    var d := Date(2024, 2, 29);
    assert Digits(2024, 4) == "2024";
    Digits2(2);
    Digits2(29);
    assert "2024-02-29" == Spelling(Layouts[1], d, true, Padded);
    assert Render(d) == "2024-02-29";
    FormatDateOfSpelling(1, d, true, Padded);
  }

  lemma NotALeapDay()
    ensures FormatDate("2023-02-29") == "2023-02-29"
  {
    var d := Date(2023, 2, 29);
    assert Digits(2023, 4) == "2023";
    Digits2(2);
    Digits2(29);
    assert "2023-02-29" == Spelling(Layouts[1], d, true, Padded);
    FormatDateOfSpelling(1, d, true, Padded);
  }

  lemma YearZero()
    ensures FormatDate("0000-01-01") == "0000-01-01"
  {
    var d := Date(0, 1, 1);
    assert Digits(0, 4) == "0000";
    Digits2(1);
    assert "0000-01-01" == Spelling(Layouts[1], d, true, Padded);
    FormatDateOfSpelling(1, d, true, Padded);
  }

  lemma NotADate()
    ensures FormatDate("not-a-date") == "not-a-date"
  {
    FormatDateNoSeparator("not-a-date");
  }
}
