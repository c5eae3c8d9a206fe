/** Dates as the announcement block handles them. Parsing a date string and
    finding its local calendar date belong to the JavaScript engine and its time
    zone, so they are given (see `Browser.Host.parseDate`); what is modelled is how
    the block compares calendar days and prints a date. */
module Dates {
  import opened Wrappers
  import JsText

  /** A local calendar date: `getFullYear()`, `getMonth() + 1`, `getDate()`. */
  datatype CalendarDate = CalendarDate(year: int, month: int, day: int)

  /** What `new Date(s)` yields for a string it can read: the time value in
      milliseconds since the epoch and the local calendar date. */
  datatype Instant = Instant(ms: int, local: CalendarDate)

  /** The local midnight `new Date(y, m - 1, d)` builds from a calendar date:
      that constructor reads a year from 0 to 99 as 1900 to 1999. Of those,
      only year 0 is a leap year whose counterpart is not, so its February 29
      rolls over to March 1, 1900. */
  function Midnight(c: CalendarDate): (r: CalendarDate)
    ensures c == CalendarDate(0, 2, 29) ==> r == CalendarDate(1900, 3, 1)
    ensures c != CalendarDate(0, 2, 29) ==> r.month == c.month && r.day == c.day
    ensures r.year == (if 0 <= c.year <= 99 then c.year + 1900 else c.year)
  {
    if c == CalendarDate(0, 2, 29) then CalendarDate(1900, 3, 1)
    else CalendarDate(if 0 <= c.year <= 99 then c.year + 1900 else c.year, c.month, c.day)
  }

  /** Calendar order of two local midnights. */
  predicate DayLe(a: CalendarDate, b: CalendarDate) {
    a.year < b.year || (a.year == b.year && (a.month < b.month || (a.month == b.month && a.day <= b.day)))
  }

  /** `new Date(a.y, a.m, a.d) <= new Date(b.y, b.m, b.d)` */
  predicate NotAfter(a: CalendarDate, b: CalendarDate) {
    DayLe(Midnight(a), Midnight(b))
  }

  /** `formatDate(s)`: empty for an empty string, `NaN.NaN.NaN` for one the
      engine cannot read, otherwise the year, then the month and the day padded
      to two digits, separated by dots. */
  function FormatDate(s: string, parse: string -> Option<Instant>): (r: string)
    ensures s == [] <==> r == []
    ensures s != [] && parse(s).None? ==> r == "NaN.NaN.NaN"
  {
    if s == [] then []
    else match parse(s)
      case None => "NaN.NaN.NaN"
      case Some(t) =>
        JsText.Decimal(t.local.year) + "." + JsText.Pad2(t.local.month) + "." + JsText.Pad2(t.local.day)
  }

  lemma FourDigits(n: int)
    requires 1000 <= n <= 9999
    ensures |JsText.NatDecimal(n)| == 4
  {
    assert JsText.NatDecimal(n) == JsText.NatDecimal(n / 10) + [JsText.DigitChar(n % 10)];
    assert JsText.NatDecimal(n / 10) == JsText.NatDecimal(n / 100) + [JsText.DigitChar((n / 10) % 10)];
    assert JsText.NatDecimal(n / 100) == JsText.NatDecimal(n / 1000) + [JsText.DigitChar((n / 100) % 10)];
  }

  lemma TwoDigitsValue(n: int)
    requires 1 <= n <= 99
    ensures var p := JsText.Pad2(n);
      |p| == 2 && JsText.IsDigit(p[0]) && JsText.IsDigit(p[1]) && JsText.DigitsValue(p) == n
  {
    var p := JsText.Pad2(n);
    if n < 10 {
      assert p[..1] == "0" && p[1] == JsText.DigitChar(n);
      assert JsText.DigitsValue(p[..1]) == JsText.DigitsValue([]) * 10 + 0;
    } else {
      assert JsText.NatDecimal(n) == JsText.NatDecimal(n / 10) + [JsText.DigitChar(n % 10)];
      JsText.NatDecimalValue(n);
    }
  }

  /** A date in years 1000 to 9999 prints as `YYYY.MM.DD`, and the three digit
      groups read back as its year, month and day. */
  lemma FormatDateReadsBack(s: string, parse: string -> Option<Instant>)
    requires s != [] && parse(s).Some?
    requires var c := parse(s).value.local; 1000 <= c.year <= 9999 && 1 <= c.month <= 12 && 1 <= c.day <= 31
    ensures var r := FormatDate(s, parse); var c := parse(s).value.local;
      |r| == 10 && r[4] == '.' && r[7] == '.'
      && (forall i :: 0 <= i < 10 && i != 4 && i != 7 ==> JsText.IsDigit(r[i]))
      && JsText.DigitsValue(r[..4]) == c.year
      && JsText.DigitsValue(r[5..7]) == c.month
      && JsText.DigitsValue(r[8..]) == c.day
  {
    var c := parse(s).value.local;
    var r := FormatDate(s, parse);
    var y, m, d := JsText.Decimal(c.year), JsText.Pad2(c.month), JsText.Pad2(c.day);
    assert r == y + "." + m + "." + d;
    FourDigits(c.year);
    JsText.NatDecimalValue(c.year);
    TwoDigitsValue(c.month);
    TwoDigitsValue(c.day);
    assert r[..4] == y && r[5..7] == m && r[8..] == d;
  }
}
