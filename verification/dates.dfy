/** Proleptic Gregorian calendar dates as Python's `datetime` accepts them,
    decimal digit strings, and the ISO 8601 calendar date in extended format
    (YYYY-MM-DD, ISO 8601:2004 section 4.1.2.2) that `strftime('%Y-%m-%d')`
    produces. */
module Dates {

  datatype Date = Date(year: int, month: int, day: int)

  /** `datetime.MINYEAR` and `datetime.MAXYEAR`. */
  const MinYear := 1
  const MaxYear := 9999

  predicate IsLeapYear(y: int) {
    y % 4 == 0 && (y % 100 != 0 || y % 400 == 0)
  }

  function DaysInMonth(y: int, m: int): (n: int)
    requires 1 <= m <= 12
    ensures 28 <= n <= 31
    ensures n == 29 <==> m == 2 && IsLeapYear(y)
  {
    if m == 2 then (if IsLeapYear(y) then 29 else 28)
    else if m == 4 || m == 6 || m == 9 || m == 11 then 30
    else 31
  }

  /** What `datetime.date(year, month, day)` accepts without ValueError. */
  predicate ValidDate(d: Date) {
    MinYear <= d.year <= MaxYear && 1 <= d.month <= 12 && 1 <= d.day <= DaysInMonth(d.year, d.month)
  }

  predicate IsDigit(c: char) {
    '0' <= c <= '9'
  }

  predicate AllDigits(t: string) {
    forall i :: 0 <= i < |t| ==> IsDigit(t[i])
  }

  function DigitChar(n: int): (c: char)
    requires 0 <= n < 10
    ensures IsDigit(c) && c as int - '0' as int == n
  {
    ('0' as int + n) as char
  }

  function DigitValue(c: char): (n: int)
    requires IsDigit(c)
    ensures 0 <= n < 10 && DigitChar(n) == c
  {
    c as int - '0' as int
  }

  function Pow10(w: nat): (p: nat)
    ensures p >= 1
  {
    if w == 0 then 1 else 10 * Pow10(w - 1)
  }

  /** Python's `int(t)` on a string of ASCII digits. */
  function DecimalValue(t: string): (v: nat)
    requires AllDigits(t)
    ensures v < Pow10(|t|)
  {
    if t == [] then 0 else DecimalValue(t[..|t| - 1]) * 10 + DigitValue(t[|t| - 1])
  }

  /** The last `w` decimal digits of `v`, zero-padded: `%04d`, `%02d`. */
  function Digits(v: nat, w: nat): (t: string)
    ensures |t| == w && AllDigits(t)
  {
    if w == 0 then [] else Digits(v / 10, w - 1) + [DigitChar(v % 10)]
  }

  lemma Digits1(v: nat)
    ensures Digits(v, 1) == [DigitChar(v % 10)]
  {
    assert Digits(v / 10, 0) == [];
  }

  lemma Digits2(v: nat)
    requires v < 100
    ensures Digits(v, 2) == [DigitChar(v / 10), DigitChar(v % 10)]
  {
    var hi := v / 10;
    assert hi % 10 == hi;
    Digits1(hi);
  }

  /** Rendering a number that fits in `w` digits and reading it back is the identity. */
  lemma {:induction false} DigitsValue(v: nat, w: nat)
    requires v < Pow10(w)
    ensures DecimalValue(Digits(v, w)) == v
  {
    if w > 0 {
      var t := Digits(v, w);
      assert t[..w - 1] == Digits(v / 10, w - 1);
      DigitsValue(v / 10, w - 1);
    }
  }

  /** Reading a digit string and rendering it back at its own width is the identity. */
  lemma {:induction false} ValueDigits(t: string)
    requires AllDigits(t)
    ensures Digits(DecimalValue(t), |t|) == t
  {
    if t != [] {
      var init := t[..|t| - 1];
      var v := DecimalValue(t);
      assert v / 10 == DecimalValue(init) && v % 10 == DigitValue(t[|t| - 1]);
      ValueDigits(init);
      assert t == init + [t[|t| - 1]];
    }
  }

  /** `date.strftime('%Y-%m-%d')`. */
  function Render(d: Date): string
    requires ValidDate(d)
  {
    Digits(d.year, 4) + "-" + Digits(d.month, 2) + "-" + Digits(d.day, 2)
  }

  /** A 10-character ISO 8601 extended calendar date naming a real date. */
  predicate IsIsoDate(r: string) {
    && |r| == 10
    && AllDigits(r[..4]) && r[4] == '-' && AllDigits(r[5..7]) && r[7] == '-' && AllDigits(r[8..])
    && ValidDate(IsoFields(r))
  }

  /** The date a YYYY-MM-DD string spells, field by field. */
  function IsoFields(r: string): Date
    requires |r| == 10 && AllDigits(r[..4]) && AllDigits(r[5..7]) && AllDigits(r[8..])
  {
    Date(DecimalValue(r[..4]), DecimalValue(r[5..7]), DecimalValue(r[8..]))
  }

  /** Every valid date renders as an ISO date that spells that same date. */
  lemma RenderIsIso(d: Date)
    requires ValidDate(d)
    ensures IsIsoDate(Render(d)) && IsoFields(Render(d)) == d
  {
    var r := Render(d);
    assert r[..4] == Digits(d.year, 4);
    assert r[5..7] == Digits(d.month, 2);
    assert r[8..] == Digits(d.day, 2);
    DigitsValue(d.year, 4);
    DigitsValue(d.month, 2);
    DigitsValue(d.day, 2);
  }

  /** Every ISO date is the rendering of the date it spells. */
  lemma IsoIsRender(r: string)
    requires IsIsoDate(r)
    ensures Render(IsoFields(r)) == r
  {
    ValueDigits(r[..4]);
    ValueDigits(r[5..7]);
    ValueDigits(r[8..]);
    assert r == r[..4] + "-" + r[5..7] + "-" + r[8..];
  }
}
