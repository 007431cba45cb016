/**
 * The text forms of dates used by the dashboard: the `YYYY-MM-DD` strings of the local-date
 * helpers (`getTodayLocal`, `createLocalDate`) and of date-fns (`format`, `parseISO`), and the
 * `DD/MM/YYYY` display form.
 */
module DateText {
  import opened Wrappers
  import opened Text
  import opened Calendar

  /** `String(n).padStart(2, '0')`. */
  function Pad2(n: nat): string {
    PadStart(NatToDecimal(n), 2, '0')
  }

  /** `getTodayLocal`: the year as JavaScript prints it, month and day zero-padded to two digits. */
  function TodayLocal(d: Date): string
    requires Valid(d)
  {
    IntToDecimal(d.year) + "-" + Pad2(d.month) + "-" + Pad2(d.day)
  }

  /** The year date-fns prints for the `yyyy` token: years before 1 count back in the era. */
  function EraYear(y: int): nat {
    if y > 0 then y else 1 - y
  }

  function Pad4Year(y: int): string {
    PadStart(NatToDecimal(EraYear(y)), 4, '0')
  }

  /** date-fns `format(d, 'yyyy-MM-dd')`. */
  function FormatYmd(d: Date): string
    requires Valid(d)
  {
    Pad4Year(d.year) + "-" + Pad2(d.month) + "-" + Pad2(d.day)
  }

  /** date-fns `format(d, 'dd/MM/yyyy')`. */
  function FormatDmy(d: Date): string
    requires Valid(d)
  {
    Pad2(d.day) + "/" + Pad2(d.month) + "/" + Pad4Year(d.year)
  }

  /** The `Date` constructor reads a year from 0 to 99 as 1900 to 1999. */
  function FullYear(year: int): int {
    if 0 <= year <= 99 then 1900 + year else year
  }

  /**
   * `new Date(year, monthIndex, day)` at day granularity: a month index outside 0..11 and a day
   * outside the month roll over into neighbouring months and years.
   */
  function LocalDate(year: int, monthIndex: int, day: int): (r: Date)
    ensures Valid(r)
  {
    var y := FullYear(year);
    AddDays(Date(y + monthIndex / 12, monthIndex % 12 + 1, 1), day - 1)
  }

  /** Components already in range are taken as they are. */
  lemma LocalDateInRange(year: int, monthIndex: int, day: int)
    requires 0 <= monthIndex < 12 && 1 <= day <= DaysInMonth(FullYear(year), monthIndex + 1)
    ensures LocalDate(year, monthIndex, day) == Date(FullYear(year), monthIndex + 1, day)
  {
    var y := FullYear(year);
    assert monthIndex / 12 == 0 && monthIndex % 12 == monthIndex;
    var first := Date(y, monthIndex + 1, 1);
    var target := Date(y, monthIndex + 1, day);
    assert LocalDate(year, monthIndex, day) == AddDays(first, day - 1);
    DayOfMonthNumber(target);
    DayNumberInjective(AddDays(first, day - 1), target);
  }

  /** A day of a month is that many days, less one, after the first of the month. */
  lemma DayOfMonthNumber(d: Date)
    requires Valid(d)
    ensures Valid(Date(d.year, d.month, 1))
    ensures DayNumber(d) == DayNumber(Date(d.year, d.month, 1)) + d.day - 1
  {
  }

  /** Month index 12 of 2024 is January 2025. */
  lemma LocalDateRollsIntoNextYear(y: int)
    requires y == 2024
    ensures LocalDate(y, 12, 1) == Date(2025, 1, 1)
  {
    assert FullYear(y) == 2024;
    assert 12 / 12 == 1 && 12 % 12 == 0;
    AddDaysZero(Date(2025, 1, 1));
  }

  /** Day 0 of March 2024 is 29 February. */
  lemma LocalDateRollsBackToLeapDay(y: int)
    requires y == 2024
    ensures LocalDate(y, 2, 0) == Date(2024, 2, 29)
  {
    assert FullYear(y) == 2024;
    assert 2 / 12 == 0 && 2 % 12 == 2;
    var march := Date(2024, 3, 1);
    assert PrevDay(march) == Date(2024, 2, 29);
    DayNumberInjective(AddDays(march, -1), PrevDay(march));
  }

  /**
   * `createLocalDate`: split on '-', read the first three parts with `Number`, and build the
   * local date `new Date(year, month - 1, day)`. `None` stands for an Invalid Date.
   */
  function CreateLocalDate(s: string): Option<Date> {
    var parts := Split(s, '-');
    if |parts| < 3 then None
    else
      var y, m, d := ParseNat(parts[0]), ParseNat(parts[1]), ParseNat(parts[2]);
      if y.Some? && m.Some? && d.Some? then Some(LocalDate(y.value, m.value - 1, d.value)) else None
  }

  /**
   * date-fns `parseISO` for a calendar date in the extended format `YYYY-MM-DD` (section 4.1.2.2
   * of ISO 8601:2004); a date that does not exist is an Invalid Date (`None`).
   */
  function ParseIso(s: string): (r: Option<Date>)
    ensures r.Some? ==> Valid(r.value)
  {
    if |s| == 10 && s[4] == '-' && s[7] == '-'
       && AllDigits(s[..4]) && AllDigits(s[5..7]) && AllDigits(s[8..])
    then
      var d := Date(DecimalValue(s[..4]), DecimalValue(s[5..7]), DecimalValue(s[8..]));
      if Valid(d) then Some(d) else None
    else None
  }

  /** `formatDateLocal`: `DD/MM/YYYY` of the local date; `None` where date-fns would throw. */
  function FormatDateLocal(s: string): Option<string> {
    match CreateLocalDate(s)
    case Some(d) => Some(FormatDmy(d))
    case None => None
  }

  lemma DigitsHaveNoSeparator(s: string, sep: char)
    requires AllDigits(s) && !IsDigit(sep)
    ensures sep !in s
  {
  }

  lemma PaddedDigits(n: nat, width: nat)
    ensures AllDigits(PadStart(NatToDecimal(n), width, '0'))
  {
    var s := NatToDecimal(n);
    var r := PadStart(s, width, '0');
    assert r == r[..|r| - |s|] + s;
  }

  lemma Pad2Length(n: nat)
    requires n < 100
    ensures |Pad2(n)| == 2
  {
    NatToDecimalLength(n);
  }

  /** Splitting `a-b-c` on '-' gives back the three parts when none holds a '-'. */
  lemma SplitThree(a: string, b: string, c: string)
    requires '-' !in a && '-' !in b && '-' !in c
    ensures Split(a + "-" + b + "-" + c, '-') == [a, b, c]
  {
    assert a + "-" + b + "-" + c == a + ['-'] + (b + ['-'] + c);
    SplitAtSeparator(a, '-', b + ['-'] + c);
    SplitAtSeparator(b, '-', c);
    SplitNoSeparator(c, '-');
  }

  /** `createLocalDate(getTodayLocal())` recovers the same year, month and day from year 100 on. */
  lemma CreateLocalDateOfTodayLocal(d: Date)
    requires Valid(d) && d.year >= 100
    ensures CreateLocalDate(TodayLocal(d)) == Some(d)
  {
    var a, b, c := NatToDecimal(d.year), Pad2(d.month), Pad2(d.day);
    PaddedDigits(d.month, 2);
    PaddedDigits(d.day, 2);
    DigitsHaveNoSeparator(a, '-');
    DigitsHaveNoSeparator(b, '-');
    DigitsHaveNoSeparator(c, '-');
    SplitThree(a, b, c);
    ParseNatOfDecimal(d.year);
    ParseNatOfPadded(d.month, 2);
    ParseNatOfPadded(d.day, 2);
    LocalDateInRange(d.year, d.month - 1, d.day);
  }

  /** The two `YYYY-MM-DD` formatters agree on four-digit years. */
  lemma TodayLocalIsFormatYmd(d: Date)
    requires Valid(d) && 1000 <= d.year <= 9999
    ensures TodayLocal(d) == FormatYmd(d)
  {
    NatToDecimalLength(d.year);
  }

  /** `parseISO` reads a four-digit year, a two-digit month and a two-digit day back. */
  lemma ParseIsoOfParts(a: string, b: string, c: string)
    requires |a| == 4 && |b| == 2 && |c| == 2
    requires AllDigits(a) && AllDigits(b) && AllDigits(c)
    requires Valid(Date(DecimalValue(a), DecimalValue(b), DecimalValue(c)))
    ensures ParseIso(a + "-" + b + "-" + c) == Some(Date(DecimalValue(a), DecimalValue(b), DecimalValue(c)))
  {
    var s := a + "-" + b + "-" + c;
    assert s[..4] == a && s[5..7] == b && s[8..] == c;
  }

  /** `parseISO(format(d, 'yyyy-MM-dd'))` gives back `d` for the years 1 to 9999. */
  lemma ParseIsoOfFormatYmd(d: Date)
    requires Valid(d) && 1 <= d.year <= 9999
    ensures ParseIso(FormatYmd(d)) == Some(d)
  {
    NatToDecimalLength(d.year);
    Pad2Length(d.month);
    Pad2Length(d.day);
    ParseNatOfPadded(d.year, 4);
    ParseNatOfPadded(d.month, 2);
    ParseNatOfPadded(d.day, 2);
    ParseIsoOfParts(Pad4Year(d.year), Pad2(d.month), Pad2(d.day));
  }

  /** `format(parseISO(s), 'yyyy-MM-dd')` gives back `s` for the years 1 to 9999. */
  lemma FormatYmdOfIso(s: string, d: Date)
    requires ParseIso(s) == Some(d) && d.year >= 1
    ensures FormatYmd(d) == s
    ensures Pad4Year(d.year) == s[..4] && Pad2(d.month) == s[5..7] && Pad2(d.day) == s[8..]
  {
    CanonicalPadding(s[..4], 4);
    CanonicalPadding(s[5..7], 2);
    CanonicalPadding(s[8..], 2);
    assert s == s[..4] + "-" + s[5..7] + "-" + s[8..];
  }

  /** `createLocalDate` reads a well-formed `YYYY-MM-DD` as the same date from year 100 on. */
  lemma IsoIsLocalDate(s: string, d: Date)
    requires ParseIso(s) == Some(d) && d.year >= 100
    ensures CreateLocalDate(s) == Some(d)
  {
    var a, b, c := s[..4], s[5..7], s[8..];
    assert s == a + "-" + b + "-" + c;
    DigitsHaveNoSeparator(a, '-');
    DigitsHaveNoSeparator(b, '-');
    DigitsHaveNoSeparator(c, '-');
    SplitThree(a, b, c);
    LocalDateInRange(d.year, d.month - 1, d.day);
  }

  /**
   * `formatDateLocal` turns a well-formed `YYYY-MM-DD` into `DD/MM/YYYY` of the same day, month
   * and year (from year 100 on, where the `Date` constructor keeps the year).
   */
  lemma FormatDateLocalOfIso(s: string, d: Date)
    requires ParseIso(s) == Some(d) && d.year >= 100
    ensures FormatDateLocal(s) == Some(FormatDmy(d))
    ensures FormatDmy(d) == s[8..] + "/" + s[5..7] + "/" + s[..4]
  {
    IsoIsLocalDate(s, d);
    FormatYmdOfIso(s, d);
  }
}
