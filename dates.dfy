/** Calendar dates as `datetime.strptime` reads them with the formats `%Y-%m-%d` and
    `%m/%d/%Y`, and the comparison of a parsed date with a cutoff instant. */
module Dates {
  import opened Wrappers
  import Text

  datatype Date = Date(year: int, month: int, day: int)

  /** A naive `datetime`: a date and the time of day in microseconds after midnight. */
  datatype DateTime = DateTime(date: Date, micros: nat)

  predicate IsLeapYear(y: int)
  {
    y % 4 == 0 && (y % 100 != 0 || y % 400 == 0)
  }

  function DaysInMonth(y: int, m: int): int
    requires 1 <= m <= 12
  {
    if m == 2 then (if IsLeapYear(y) then 29 else 28)
    else if m == 4 || m == 6 || m == 9 || m == 11 then 30
    else 31
  }

  /** The dates `datetime` can represent (year 1 to 9999, a day that exists in its month). */
  predicate ValidDate(d: Date)
  {
    1 <= d.year <= 9999 && 1 <= d.month <= 12 && 1 <= d.day <= DaysInMonth(d.year, d.month)
  }

  // The fields as the regular expressions of `strptime` accept them.

  /** `%Y`: exactly four digits. */
  predicate IsYearField(s: string)
  {
    |s| == 4 && forall i :: 0 <= i < 4 ==> Text.IsDigit(s[i])
  }

  /** `%m`: `1[0-2]`, `0[1-9]` or `[1-9]`. */
  predicate IsMonthField(s: string)
  {
    || (|s| == 2 && s[0] == '1' && '0' <= s[1] <= '2')
    || (|s| == 2 && s[0] == '0' && '1' <= s[1] <= '9')
    || (|s| == 1 && '1' <= s[0] <= '9')
  }

  /** `%d`: `3[01]`, `[12]` and a digit, `0[1-9]`, `[1-9]`, or a space and `[1-9]`. */
  predicate IsDayField(s: string)
  {
    || (|s| == 2 && s[0] == '3' && '0' <= s[1] <= '1')
    || (|s| == 2 && '1' <= s[0] <= '2' && Text.IsDigit(s[1]))
    || (|s| == 2 && s[0] == '0' && '1' <= s[1] <= '9')
    || (|s| == 1 && '1' <= s[0] <= '9')
    || (|s| == 2 && s[0] == ' ' && '1' <= s[1] <= '9')
  }

  /** The number a field stands for (`int(" 5") == 5`). */
  function FieldValue(s: string): nat
  {
    if |s| > 0 && s[0] == ' ' then Text.DigitsValue(s[1..]) else Text.DigitsValue(s)
  }

  /** The date named by three fields, or `None` where `strptime` raises `ValueError`. */
  function DateOfFields(y: string, m: string, d: string): (r: Option<Date>)
    ensures r.Some? ==> ValidDate(r.value)
    ensures r.Some? ==> IsYearField(y) && IsMonthField(m) && IsDayField(d)
  {
    if IsYearField(y) && IsMonthField(m) && IsDayField(d) then
      var date := Date(FieldValue(y), FieldValue(m), FieldValue(d));
      if ValidDate(date) then Some(date) else None
    else None
  }

  /** `datetime.strptime(s, "%Y-%m-%d")`. None of the three fields can hold a `-`, so
      the string parses exactly when it is three `-`-separated fields of the right forms. */
  function ParseIsoDate(s: string): (r: Option<Date>)
    ensures r.Some? ==> ValidDate(r.value)
  {
    var parts := Text.Split(s, '-');
    if |parts| == 3 then DateOfFields(parts[0], parts[1], parts[2]) else None
  }

  /** `datetime.strptime(s, "%m/%d/%Y")`. */
  function ParseUsDate(s: string): (r: Option<Date>)
    ensures r.Some? ==> ValidDate(r.value)
  {
    var parts := Text.Split(s, '/');
    if |parts| == 3 then DateOfFields(parts[2], parts[0], parts[1]) else None
  }

  // Zero-padded rendering, the form the scraped pages use; the inverse of parsing.

  function TwoDigits(n: nat): string
    requires n < 100
  {
    [Text.DigitChar(n / 10), Text.DigitChar(n % 10)]
  }

  function FourDigits(n: nat): string
    requires n < 10000
  {
    TwoDigits(n / 100) + TwoDigits(n % 100)
  }

  function FormatIsoDate(d: Date): string
    requires ValidDate(d)
  {
    FourDigits(d.year) + "-" + TwoDigits(d.month) + "-" + TwoDigits(d.day)
  }

  function FormatUsDate(d: Date): string
    requires ValidDate(d)
  {
    TwoDigits(d.month) + "/" + TwoDigits(d.day) + "/" + FourDigits(d.year)
  }

  lemma TwoDigitsValue(n: nat)
    requires n < 100
    ensures Text.DigitsValue(TwoDigits(n)) == n
  {
    var s := TwoDigits(n);
    assert s[..1][..0] == [];
    assert Text.DigitsValue(s[..1]) == n / 10;
  }

  lemma FourDigitsValue(n: nat)
    requires n < 10000
    ensures Text.DigitsValue(FourDigits(n)) == n
    ensures IsYearField(FourDigits(n))
  {
    var hi, lo := TwoDigits(n / 100), TwoDigits(n % 100);
    var s := hi + lo;
    TwoDigitsValue(n / 100);
    assert s[..3][..2] == hi;
    assert s[..3] == hi + [lo[0]];
    assert Text.DigitsValue(s[..3]) == 10 * (n / 100) + (n % 100) / 10;
  }

  lemma FieldsOfDate(d: Date)
    requires ValidDate(d)
    ensures IsYearField(FourDigits(d.year)) && FieldValue(FourDigits(d.year)) == d.year
    ensures IsMonthField(TwoDigits(d.month)) && FieldValue(TwoDigits(d.month)) == d.month
    ensures IsDayField(TwoDigits(d.day)) && FieldValue(TwoDigits(d.day)) == d.day
  {
    FourDigitsValue(d.year);
    TwoDigitsValue(d.month);
    TwoDigitsValue(d.day);
  }

  /** Parsing a zero-padded `YYYY-MM-DD` rendering gives the date back. */
  lemma IsoRoundTrip(d: Date)
    requires ValidDate(d)
    ensures ParseIsoDate(FormatIsoDate(d)) == Some(d)
  {
    var y, m, dd := FourDigits(d.year), TwoDigits(d.month), TwoDigits(d.day);
    Text.JoinThree('-', y, m, dd);
    assert FormatIsoDate(d) == Text.Join('-', [y, m, dd]);
    Text.SplitJoin('-', [y, m, dd]);
    FieldsOfDate(d);
  }

  /** Parsing a zero-padded `MM/DD/YYYY` rendering gives the date back. */
  lemma UsRoundTrip(d: Date)
    requires ValidDate(d)
    ensures ParseUsDate(FormatUsDate(d)) == Some(d)
  {
    var y, m, dd := FourDigits(d.year), TwoDigits(d.month), TwoDigits(d.day);
    Text.JoinThree('/', m, dd, y);
    assert FormatUsDate(d) == Text.Join('/', [m, dd, y]);
    Text.SplitJoin('/', [m, dd, y]);
    FieldsOfDate(d);
  }

  // Comparison of naive datetimes is lexicographic on (date, time of day).

  predicate DateBefore(a: Date, b: Date)
  {
    || a.year < b.year
    || (a.year == b.year && a.month < b.month)
    || (a.year == b.year && a.month == b.month && a.day < b.day)
  }

  predicate DateTimeBefore(a: DateTime, b: DateTime)
  {
    DateBefore(a.date, b.date) || (a.date == b.date && a.micros < b.micros)
  }

  /** `datetime.strptime(...) >= cutoff`: the parsed date denotes its midnight. */
  predicate FiledOnOrAfter(filed: Date, cutoff: DateTime)
  {
    !DateTimeBefore(DateTime(filed, 0), cutoff)
  }

  /** A date after the cutoff's day always passes; the cutoff's own day passes only when
      the cutoff is exactly midnight; an earlier day never passes. */
  lemma RecencyBoundary(filed: Date, cutoff: DateTime)
    ensures FiledOnOrAfter(filed, cutoff)
        <==> DateBefore(cutoff.date, filed) || (filed == cutoff.date && cutoff.micros == 0)
  {
  }
}
