/**
 * Calendar dates without a time of day, the `%Y-%m-%d` format the dataset's dates are written in,
 * and the chronological order the pipeline sorts and filters by.
 */
module Dates {

  import opened Results
  import opened Decimal

  datatype Date = Date(year: int, month: int, day: int)

  /** Gregorian leap years, as Python's `calendar.isleap`. */
  predicate IsLeapYear(y: int) {
    y % 4 == 0 && (y % 100 != 0 || y % 400 == 0)
  }

  function DaysInMonth(y: int, m: int): (n: int)
    requires 1 <= m <= 12
    ensures 28 <= n <= 31
    ensures n == 29 <==> m == 2 && IsLeapYear(y)
    ensures n == 28 <==> m == 2 && !IsLeapYear(y)
    ensures n == 30 <==> m == 4 || m == 6 || m == 9 || m == 11
  {
    if m == 2 then (if IsLeapYear(y) then 29 else 28)
    else if m == 4 || m == 6 || m == 9 || m == 11 then 30
    else 31
  }

  /** The twelve months make up a year of 366 days in a leap year and 365 otherwise. */
  lemma YearLength(y: int)
    ensures DaysInMonth(y, 1) + DaysInMonth(y, 2) + DaysInMonth(y, 3) + DaysInMonth(y, 4)
          + DaysInMonth(y, 5) + DaysInMonth(y, 6) + DaysInMonth(y, 7) + DaysInMonth(y, 8)
          + DaysInMonth(y, 9) + DaysInMonth(y, 10) + DaysInMonth(y, 11) + DaysInMonth(y, 12)
          == if IsLeapYear(y) then 366 else 365
  {
  }

  /** A date Python's `datetime.date` can represent: years 1 to 9999, a real month and day. */
  predicate Valid(d: Date) {
    && 1 <= d.year <= 9999
    && 1 <= d.month <= 12
    && 1 <= d.day <= DaysInMonth(d.year, d.month)
  }

  /** Chronological order: year, then month, then day. */
  predicate LessEq(a: Date, b: Date) {
    || a.year < b.year
    || (a.year == b.year && a.month < b.month)
    || (a.year == b.year && a.month == b.month && a.day <= b.day)
  }

  lemma LessEqTotal(a: Date, b: Date)
    ensures LessEq(a, b) || LessEq(b, a)
  {
  }

  lemma LessEqTransitive(a: Date, b: Date, c: Date)
    requires LessEq(a, b) && LessEq(b, c)
    ensures LessEq(a, c)
  {
  }

  lemma LessEqAntisymmetric(a: Date, b: Date)
    requires LessEq(a, b) && LessEq(b, a)
    ensures a == b
  {
  }

  lemma Pow10Widths()
    ensures Pow10(2) == 100 && Pow10(4) == 10000
  {
    assert Pow10(1) == 10;
    assert Pow10(3) == 1000;
  }

  /** `d.strftime("%Y-%m-%d")`: four-digit year, dash, two-digit month, dash, two-digit day. */
  function Format(d: Date): (s: string)
    requires Valid(d)
    ensures |s| == 10 && s[4] == '-' && s[7] == '-'
    ensures AllDigits(s[..4]) && AllDigits(s[5..7]) && AllDigits(s[8..])
  {
    Pow10Widths();
    var s := PadDigits(d.year, 4) + "-" + PadDigits(d.month, 2) + "-" + PadDigits(d.day, 2);
    assert s[..4] == PadDigits(d.year, 4);
    assert s[5..7] == PadDigits(d.month, 2);
    assert s[8..] == PadDigits(d.day, 2);
    s
  }

  /** The shape `%Y-%m-%d` admits: four digits, dash, two digits, dash, two digits, and nothing else. */
  predicate MatchesIsoFormat(s: string) {
    && |s| == 10 && s[4] == '-' && s[7] == '-'
    && AllDigits(s[..4]) && AllDigits(s[5..7]) && AllDigits(s[8..])
  }

  /**
   * Parses one `%Y-%m-%d` date. There is no coercion: text of the wrong shape, or a shape
   * that names no calendar day ("2021-02-29", "2020-13-01"), is `None`.
   */
  function Parse(s: string): (r: Option<Date>)
    ensures r.Some? ==> Valid(r.value) && MatchesIsoFormat(s)
  {
    if !MatchesIsoFormat(s) then None
    else
      var d := Date(DecimalValue(s[..4]), DecimalValue(s[5..7]), DecimalValue(s[8..]));
      if Valid(d) then Some(d) else None
  }

  /** Formatting a date and parsing the text gives the date back. */
  lemma ParseFormat(d: Date)
    requires Valid(d)
    ensures Parse(Format(d)) == Some(d)
  {
    Pow10Widths();
    var s := Format(d);
    assert s[..4] == PadDigits(d.year, 4);
    assert s[5..7] == PadDigits(d.month, 2);
    assert s[8..] == PadDigits(d.day, 2);
    PadDigitsValue(d.year, 4);
    PadDigitsValue(d.month, 2);
    PadDigitsValue(d.day, 2);
  }

  /** The only text that parses to a date is that date's own formatting. */
  lemma FormatParse(s: string)
    requires Parse(s).Some?
    ensures Format(Parse(s).value) == s
  {
    var d := Parse(s).value;
    PadDigitsOfValue(s[..4]);
    PadDigitsOfValue(s[5..7]);
    PadDigitsOfValue(s[8..]);
    assert s == s[..4] + "-" + s[5..7] + "-" + s[8..];
  }

  /** Parsing is exactly the inverse of formatting on valid dates. */
  lemma ParseIffFormat(s: string, d: Date)
    ensures Parse(s) == Some(d) <==> Valid(d) && s == Format(d)
  {
    if Parse(s) == Some(d) {
      FormatParse(s);
    }
    if Valid(d) && s == Format(d) {
      ParseFormat(d);
    }
  }
}
