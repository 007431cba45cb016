/**
 * The cash register view: which transactions are listed (today's, or those in an inclusive date
 * range), the optional type filter, the newest-first order, and the income / expense / balance
 * figures of the summary cards.
 */
module Ledger {
  import opened Wrappers
  import opened Calendar
  import opened DateText
  import opened Seqs
  import opened Records

  datatype ViewMode = Today | Monthly

  /** The type selector: every row, or only one type. */
  datatype TypeFilter = All | Only(txType: TxType)

  /** The two `yyyy-MM-dd` bounds of the period view. */
  datatype DateRange = DateRange(start: string, end: string)

  /** The figures of the three summary cards. */
  datatype Summary = Summary(income: int, expense: int, balance: int)

  /** `getPeriodSummary`: the card figures plus the number of listed rows. */
  datatype PeriodSummary = PeriodSummary(income: int, expense: int, balance: int, totalTransactions: nat)

  /** `getCurrentMonthRange`: the first and the last day of today's month, `yyyy-MM-dd`. */
  function CurrentMonthRange(today: Date): DateRange
    requires Valid(today)
  {
    MonthBounds(today);
    DateRange(FormatYmd(FirstOfMonth(today)), FormatYmd(LastOfMonth(today)))
  }

  /** The seconds in a day, and the instant of a date's midnight counted in seconds. */
  const DaySeconds: int := 86400

  function Midnight(d: Date): int
    requires Valid(d)
  {
    DayNumber(d) * DaySeconds
  }

  /**
   * The period test: the row's date at midnight lies within the interval from the start at
   * midnight to the end at 23:59:59. `isWithinInterval` (date-fns 3 and later) orders the two
   * instants first, so a reversed range is the interval from the end's last second to the
   * start's midnight. A text that is not a date is an Invalid Date, which lies in no interval.
   */
  predicate InRange(t: Transaction, range: DateRange) {
    match (ParseIso(range.start), ParseIso(range.end), ParseIso(t.date))
    case (Some(s), Some(e), Some(d)) =>
      var a, b := Midnight(s), Midnight(e) + DaySeconds - 1;
      var lo, hi := if a <= b then a else b, if a <= b then b else a;
      lo <= Midnight(d) <= hi
    case _ => false
  }

  /** `.eq('date', key)`: the rows dated with exactly that text, in their order. */
  function RowsDated(rows: seq<Transaction>, key: string): seq<Transaction> {
    Filter(rows, (t: Transaction) => t.date == key)
  }

  /** Today view: the rows dated with today's local `YYYY-MM-DD`. */
  function TodayRows(rows: seq<Transaction>, today: Date): seq<Transaction>
    requires Valid(today)
  {
    RowsDated(rows, TodayLocal(today))
  }

  /** Period view: the rows inside the range. */
  function RangeRows(rows: seq<Transaction>, range: DateRange): seq<Transaction> {
    Filter(rows, (t: Transaction) => InRange(t, range))
  }

  function ByType(rows: seq<Transaction>, f: TypeFilter): seq<Transaction> {
    match f
    case All => rows
    case Only(ty) => Filter(rows, (t: Transaction) => t.txType == ty)
  }

  /**
   * `b.localeCompare(a) >= 0` on the date and time texts, taken as the order of their
   * characters (the texts are digits with '-' or ':' separators).
   */
  predicate TextLe(a: string, b: string) {
    if a == [] then true
    else if b == [] then false
    else if a[0] != b[0] then a[0] < b[0]
    else TextLe(a[1..], b[1..])
  }

  /** `a` may be listed before `b`: a later date, or the same date and a time not earlier. */
  predicate ListedBefore(a: Transaction, b: Transaction) {
    if a.date != b.date then TextLe(b.date, a.date) else TextLe(b.time, a.time)
  }

  predicate NewestFirst(s: seq<Transaction>) {
    forall i, j :: 0 <= i < j < |s| ==> ListedBefore(s[i], s[j])
  }

  function Insert(x: Transaction, s: seq<Transaction>): (r: seq<Transaction>)
    requires NewestFirst(s)
    ensures NewestFirst(r) && multiset(r) == multiset(s) + multiset{x}
  {
    if s == [] then [x]
    else if ListedBefore(x, s[0]) then
      ListedBeforeTransitiveFrom(x, s);
      [x] + s
    else
      ListedBeforeTotal(x, s[0]);
      var rest := Insert(x, s[1..]);
      assert s == [s[0]] + s[1..];
      InsertHead(s[0], x, s[1..], rest);
      [s[0]] + rest
  }

  /** The `.sort` of the listing: stable, newest date first, then newest time first. */
  function SortNewestFirst(s: seq<Transaction>): (r: seq<Transaction>)
    ensures NewestFirst(r) && multiset(r) == multiset(s) && |r| == |s|
  {
    if s == [] then []
    else
      assert s == [s[0]] + s[1..];
      var r := Insert(s[0], SortNewestFirst(s[1..]));
      assert |r| == |multiset(r)|;
      r
  }

  /** `getFilteredTransactions`. */
  function FilteredTransactions(rows: seq<Transaction>, mode: ViewMode, today: Date, range: DateRange,
                                f: TypeFilter): seq<Transaction>
    requires Valid(today)
  {
    var viewed := if mode == Today then TodayRows(rows, today) else RangeRows(rows, range);
    SortNewestFirst(ByType(viewed, f))
  }

  /** The sum of the amounts of the rows of one type: `filter(type).reduce(+, 0)`. */
  function SumOfType(rows: seq<Transaction>, ty: TxType): int {
    if rows == [] then 0
    else (if rows[0].txType == ty then rows[0].amount else 0) + SumOfType(rows[1..], ty)
  }

  /** Income, expense and balance of a list of rows. */
  function SummaryOf(rows: seq<Transaction>): (s: Summary) {
    var income := SumOfType(rows, Income);
    var expense := SumOfType(rows, Expense);
    Summary(income, expense, income - expense)
  }

  /** `getPeriodSummary` on the listed rows. */
  function PeriodSummaryOf(listed: seq<Transaction>): PeriodSummary {
    var s := SummaryOf(listed);
    PeriodSummary(s.income, s.expense, s.balance, |listed|)
  }

  /** The figures the three cards show: the hook's `todaySummary` in today view. */
  function CardFigures(mode: ViewMode, todaySummary: Summary, period: PeriodSummary): Summary {
    if mode == Today then todaySummary else Summary(period.income, period.expense, period.balance)
  }

  // ---------------------------------------------------------------------------------------------
  // The order of the listing

  lemma {:induction false} TextLeTotal(a: string, b: string)
    ensures TextLe(a, b) || TextLe(b, a)
  {
    if a != [] && b != [] && a[0] == b[0] {
      TextLeTotal(a[1..], b[1..]);
    }
  }

  lemma {:induction false} TextLeAntisymmetric(a: string, b: string)
    requires TextLe(a, b) && TextLe(b, a)
    ensures a == b
  {
    if a != [] && b != [] {
      TextLeAntisymmetric(a[1..], b[1..]);
      assert a == [a[0]] + a[1..] && b == [b[0]] + b[1..];
    }
  }

  lemma {:induction false} TextLeTransitive(a: string, b: string, c: string)
    requires TextLe(a, b) && TextLe(b, c)
    ensures TextLe(a, c)
  {
    if a != [] && b != [] && c != [] && a[0] == b[0] && b[0] == c[0] {
      TextLeTransitive(a[1..], b[1..], c[1..]);
    }
  }

  lemma ListedBeforeTotal(a: Transaction, b: Transaction)
    ensures ListedBefore(a, b) || ListedBefore(b, a)
  {
    TextLeTotal(a.date, b.date);
    TextLeTotal(a.time, b.time);
  }

  lemma ListedBeforeTransitive(a: Transaction, b: Transaction, c: Transaction)
    requires ListedBefore(a, b) && ListedBefore(b, c)
    ensures ListedBefore(a, c)
  {
    if a.date == b.date && b.date == c.date {
      TextLeTransitive(c.time, b.time, a.time);
    } else if a.date == b.date {
      assert TextLe(c.date, a.date);
    } else if b.date == c.date {
      assert TextLe(c.date, a.date);
    } else {
      TextLeTransitive(c.date, b.date, a.date);
      if a.date == c.date {
        TextLeAntisymmetric(a.date, b.date);
      }
    }
  }

  lemma ListedBeforeTransitiveFrom(x: Transaction, s: seq<Transaction>)
    requires NewestFirst(s) && s != [] && ListedBefore(x, s[0])
    ensures NewestFirst([x] + s)
  {
    forall j | 0 < j < |s| ensures ListedBefore(x, s[j]) {
      ListedBeforeTransitive(x, s[0], s[j]);
    }
  }

  lemma InsertHead(h: Transaction, x: Transaction, tail: seq<Transaction>, rest: seq<Transaction>)
    requires NewestFirst([h] + tail) && ListedBefore(h, x)
    requires NewestFirst(rest) && multiset(rest) == multiset(tail) + multiset{x}
    ensures NewestFirst([h] + rest)
  {
    forall j | 0 <= j < |rest| ensures ListedBefore(h, rest[j]) {
      assert rest[j] in multiset(rest);
      if rest[j] != x {
        assert rest[j] in multiset(tail);
        var k :| 0 <= k < |tail| && tail[k] == rest[j];
        assert ([h] + tail)[0] == h && ([h] + tail)[k + 1] == tail[k];
      }
    }
  }

  // ---------------------------------------------------------------------------------------------
  // Sums

  lemma {:induction false} SumOfTypeAppend(a: seq<Transaction>, b: seq<Transaction>, ty: TxType)
    ensures SumOfType(a + b, ty) == SumOfType(a, ty) + SumOfType(b, ty)
  {
    if a == [] {
      assert a + b == b;
    } else {
      SumOfTypeAppend(a[1..], b, ty);
      assert (a + b)[0] == a[0] && (a + b)[1..] == a[1..] + b;
    }
  }

  function Contribution(t: Transaction, ty: TxType): int {
    if t.txType == ty then t.amount else 0
  }

  lemma SumOfTypeRemove(b: seq<Transaction>, k: nat, ty: TxType)
    requires k < |b|
    ensures SumOfType(b, ty) == Contribution(b[k], ty) + SumOfType(b[..k] + b[k + 1..], ty)
  {
    assert b == b[..k] + [b[k]] + b[k + 1..];
    SumOfTypeAppend(b[..k] + [b[k]], b[k + 1..], ty);
    SumOfTypeAppend(b[..k], [b[k]], ty);
    SumOfTypeAppend(b[..k], b[k + 1..], ty);
  }

  lemma MultisetRemove(b: seq<Transaction>, k: nat)
    requires k < |b|
    ensures multiset(b[..k] + b[k + 1..]) == multiset(b) - multiset{b[k]}
  {
    assert b == b[..k] + [b[k]] + b[k + 1..];
  }

  /** The sums depend only on which rows there are, not on their order. */
  lemma {:induction false} SumOfTypePermutation(a: seq<Transaction>, b: seq<Transaction>, ty: TxType)
    requires multiset(a) == multiset(b)
    ensures SumOfType(a, ty) == SumOfType(b, ty)
    decreases |a|
  {
    if a == [] {
      assert |b| == |multiset(b)| == 0;
    } else {
      var x := a[0];
      assert x in multiset(b);
      var k := IndexOf(b, x);
      var a', b' := a[1..], b[..k] + b[k + 1..];
      MultisetRemove(b, k);
      assert a == [x] + a';
      assert multiset(a') == multiset(b');
      SumOfTypePermutation(a', b', ty);
      SumOfTypeRemove(b, k, ty);
    }
  }

  function IndexOf(s: seq<Transaction>, x: Transaction): (k: nat)
    requires x in s
    ensures k < |s| && s[k] == x
  {
    if s[0] == x then 0 else IndexOf(s[1..], x) + 1
  }

  // ---------------------------------------------------------------------------------------------
  // Properties of the view

  /** Today view keeps exactly the rows dated today, in their fetched order. */
  lemma TodayRowsExactly(rows: seq<Transaction>, today: Date)
    requires Valid(today)
    ensures forall t :: t in TodayRows(rows, today) <==> t in rows && t.date == TodayLocal(today)
    ensures SubsequenceOf(TodayRows(rows, today), rows)
  {
    RowsDatedExactly(rows, TodayLocal(today));
  }

  /** The date query keeps exactly the rows with that date, in their order. */
  lemma RowsDatedExactly(rows: seq<Transaction>, key: string)
    ensures forall t :: t in RowsDated(rows, key) <==> t in rows && t.date == key
    ensures SubsequenceOf(RowsDated(rows, key), rows)
  {
    FilterIsSubsequence(rows, (t: Transaction) => t.date == key);
  }

  /**
   * Period view keeps exactly the rows dated from start to end, both days included; with the
   * bounds reversed, those dated after the end up to the start, the end's own day excluded
   * (its midnight lies before its last second).
   */
  lemma RangeRowsExactly(rows: seq<Transaction>, range: DateRange, s: Date, e: Date)
    requires ParseIso(range.start) == Some(s) && ParseIso(range.end) == Some(e)
    ensures DayNumber(s) <= DayNumber(e) ==> forall t :: t in RangeRows(rows, range) <==>
      t in rows && ParseIso(t.date).Some? && DayNumber(s) <= DayNumber(ParseIso(t.date).value) <= DayNumber(e)
    ensures DayNumber(e) < DayNumber(s) ==> forall t :: t in RangeRows(rows, range) <==>
      t in rows && ParseIso(t.date).Some? && DayNumber(e) < DayNumber(ParseIso(t.date).value) <= DayNumber(s)
  {
    forall t: Transaction | ParseIso(t.date).Some? {
      InRangeByDays(t, range, s, e, ParseIso(t.date).value);
    }
  }

  /** The period test on whole days. */
  lemma InRangeByDays(t: Transaction, range: DateRange, s: Date, e: Date, d: Date)
    requires ParseIso(range.start) == Some(s) && ParseIso(range.end) == Some(e) && ParseIso(t.date) == Some(d)
    ensures DayNumber(s) <= DayNumber(e) ==> (InRange(t, range) <==> DayNumber(s) <= DayNumber(d) <= DayNumber(e))
    ensures DayNumber(e) < DayNumber(s) ==> (InRange(t, range) <==> DayNumber(e) < DayNumber(d) <= DayNumber(s))
  {
  }

  /** A range whose bounds are dates includes its first and its last day. */
  lemma RangeIncludesBounds(t: Transaction, range: DateRange, s: Date, e: Date)
    requires ParseIso(range.start) == Some(s) && ParseIso(range.end) == Some(e) && DayNumber(s) <= DayNumber(e)
    requires t.date == range.start || t.date == range.end
    ensures InRange(t, range)
  {
  }

  /** 'all' keeps every row; a type keeps exactly the rows of that type. */
  lemma TypeFilterExactly(rows: seq<Transaction>, f: TypeFilter)
    ensures f == All ==> ByType(rows, f) == rows
    ensures f.Only? ==> forall t :: t in ByType(rows, f) <==> t in rows && t.txType == f.txType
  {
  }

  /** The listing is the viewed and type-filtered rows, rearranged newest first. */
  lemma ListingIsSortedPermutation(rows: seq<Transaction>, mode: ViewMode, today: Date, range: DateRange,
                                   f: TypeFilter)
    requires Valid(today)
    ensures var viewed := if mode == Today then TodayRows(rows, today) else RangeRows(rows, range);
      var listed := FilteredTransactions(rows, mode, today, range, f);
      NewestFirst(listed) && multiset(listed) == multiset(ByType(viewed, f))
  {
  }

  /** Sorting does not change the summary. */
  lemma SummaryOfSorted(rows: seq<Transaction>)
    ensures SummaryOf(SortNewestFirst(rows)) == SummaryOf(rows)
  {
    SumOfTypePermutation(SortNewestFirst(rows), rows, Income);
    SumOfTypePermutation(SortNewestFirst(rows), rows, Expense);
  }

  /** The period summary: balance is income minus expense, and the count is the listing's length. */
  lemma PeriodSummaryFigures(rows: seq<Transaction>, mode: ViewMode, today: Date, range: DateRange,
                             f: TypeFilter)
    requires Valid(today)
    ensures var viewed := if mode == Today then TodayRows(rows, today) else RangeRows(rows, range);
      var p := PeriodSummaryOf(FilteredTransactions(rows, mode, today, range, f));
      p.balance == p.income - p.expense &&
      p.totalTransactions == |ByType(viewed, f)| &&
      p.income == SumOfType(ByType(viewed, f), Income) && p.expense == SumOfType(ByType(viewed, f), Expense)
  {
    var viewed := if mode == Today then TodayRows(rows, today) else RangeRows(rows, range);
    SummaryOfSorted(ByType(viewed, f));
  }

  /** Filtering by a type leaves that type's sum alone and zeroes the other. */
  lemma {:induction false} TypeFilterSums(rows: seq<Transaction>, ty: TxType, other: TxType)
    requires other != ty
    ensures SumOfType(ByType(rows, Only(ty)), ty) == SumOfType(rows, ty)
    ensures SumOfType(ByType(rows, Only(ty)), other) == 0
  {
    if rows != [] {
      TypeFilterSums(rows[1..], ty, other);
      var kept := if rows[0].txType == ty then [rows[0]] else [];
      assert ByType(rows, Only(ty)) == kept + ByType(rows[1..], Only(ty));
      SumOfTypeAppend(kept, ByType(rows[1..], Only(ty)), ty);
      SumOfTypeAppend(kept, ByType(rows[1..], Only(ty)), other);
    }
  }

  /** Income 100, expense 40 and income 25 sum to income 125, expense 40, balance 85, three rows. */
  lemma SummaryExample(rows: seq<Transaction>)
    requires rows == [Transaction(1, Income, 100, "a", "2024-01-15", "10:00"),
                      Transaction(2, Expense, 40, "b", "2024-01-15", "11:00"),
                      Transaction(3, Income, 25, "c", "2024-01-15", "12:00")]
    ensures PeriodSummaryOf(rows) == PeriodSummary(125, 40, 85, 3)
  {
    assert SumOfType(rows[2..], Income) == 25 && SumOfType(rows[2..], Expense) == 0;
    assert SumOfType(rows[1..], Income) == 25 && SumOfType(rows[1..], Expense) == 40;
    assert SumOfType(rows, Income) == 125 && SumOfType(rows, Expense) == 40;
  }

  /** In today view the cards show the hook's summary whatever the type filter. */
  lemma TodayCardsIgnoreTypeFilter(todaySummary: Summary, p: PeriodSummary, q: PeriodSummary)
    ensures CardFigures(Today, todaySummary, p) == CardFigures(Today, todaySummary, q) == todaySummary
    ensures CardFigures(Monthly, todaySummary, p) == Summary(p.income, p.expense, p.balance)
  {
  }

  /**
   * When every fetched row is dated today (as the hook's query makes them) and no type is
   * selected, the today listing holds all of them and its summary equals the hook's summary.
   */
  lemma TodayListingMatchesHookSummary(rows: seq<Transaction>, today: Date, range: DateRange)
    requires Valid(today) && 1000 <= today.year <= 9999
    requires forall i :: 0 <= i < |rows| ==> rows[i].date == FormatYmd(today)
    ensures multiset(FilteredTransactions(rows, Today, today, range, All)) == multiset(rows)
    ensures var p := PeriodSummaryOf(FilteredTransactions(rows, Today, today, range, All));
      Summary(p.income, p.expense, p.balance) == SummaryOf(rows) && p.totalTransactions == |rows|
  {
    TodayLocalIsFormatYmd(today);
    var key := TodayLocal(today);
    FilterKeepsAll(rows, (t: Transaction) => t.date == key);
    assert TodayRows(rows, today) == rows;
    SummaryOfSorted(rows);
  }

  /**
   * The current month's range holds exactly the dates of today's year and month: day 01 and
   * the month's last day (29 February in a leap year) are its bounds.
   */
  lemma CurrentMonthRangeExactly(today: Date, t: Transaction)
    requires Valid(today) && 1 <= today.year <= 9999
    ensures ParseIso(CurrentMonthRange(today).start) == Some(Date(today.year, today.month, 1))
    ensures ParseIso(CurrentMonthRange(today).end)
            == Some(Date(today.year, today.month, DaysInMonth(today.year, today.month)))
    ensures InRange(t, CurrentMonthRange(today)) <==>
      ParseIso(t.date).Some? && ParseIso(t.date).value.year == today.year
      && ParseIso(t.date).value.month == today.month
  {
    MonthBounds(today);
    var first, last := FirstOfMonth(today), LastOfMonth(today);
    ParseIsoOfFormatYmd(first);
    ParseIsoOfFormatYmd(last);
    match ParseIso(t.date)
    case None =>
    case Some(d) =>
      if d.year == today.year && d.month == today.month {
        MonthBounds(d);
      } else if d.year < today.year || (d.year == today.year && d.month < today.month) {
        DayNumberOrdered(d, first);
      } else {
        DayNumberOrdered(last, d);
      }
  }
}
