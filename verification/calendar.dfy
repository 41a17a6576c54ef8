/** The month-period arithmetic of the sales-report tasks in `cart/tasks.py`,
    on proleptic Gregorian dates as Python's `datetime.date` has them (years
    1 to 9999, compared field by field). */
module Calendar {
  import opened Wrappers

  const MaxYear := 9999

  datatype Date = Date(year: int, month: int, day: int)

  predicate IsLeap(y: int) {
    y % 4 == 0 && (y % 100 != 0 || y % 400 == 0)
  }

  /** The second component of `calendar.monthrange(y, m)`. */
  function DaysInMonth(y: int, m: int): (n: int)
    requires 1 <= m <= 12
    ensures 28 <= n <= 31
    ensures n == 29 <==> m == 2 && IsLeap(y)
    ensures n == 28 <==> m == 2 && !IsLeap(y)
    ensures n == 30 <==> m in {4, 6, 9, 11}
  {
    if m == 2 then (if IsLeap(y) then 29 else 28)
    else if m == 4 || m == 6 || m == 9 || m == 11 then 30
    else 31
  }

  /** A date `datetime.date` accepts. */
  predicate ValidDate(d: Date) {
    1 <= d.year <= MaxYear && 1 <= d.month <= 12 && 1 <= d.day <= DaysInMonth(d.year, d.month)
  }

  /** Dates compare by year, then month, then day. */
  predicate Le(a: Date, b: Date) {
    a.year < b.year
    || (a.year == b.year && a.month < b.month)
    || (a.year == b.year && a.month == b.month && a.day <= b.day)
  }

  /** The first and last day of a month. */
  datatype Period = Period(start: Date, end: Date)

  /** `today.replace(day=1)` to `today.replace(day=last_day)`. */
  function MonthOf(d: Date): (p: Period)
    requires ValidDate(d)
    ensures ValidDate(p.start) && ValidDate(p.end)
    ensures p.start.day == 1 && p.end.day == DaysInMonth(d.year, d.month)
    ensures p.start.year == p.end.year == d.year && p.start.month == p.end.month == d.month
  {
    Period(Date(d.year, d.month, 1), Date(d.year, d.month, DaysInMonth(d.year, d.month)))
  }

  predicate Covers(p: Period, d: Date) {
    Le(p.start, d) && Le(d, p.end)
  }

  /** A month's period holds exactly the valid dates of that month; in
      particular it holds the date it was made from. */
  lemma MonthCovers(today: Date, d: Date)
    requires ValidDate(today) && ValidDate(d)
    ensures Covers(MonthOf(today), d) <==> d.year == today.year && d.month == today.month
    ensures Covers(MonthOf(today), today)
  {
  }

  /** The year and month after `(y, m)`: December rolls over into January of
      the next year. */
  function NextMonth(y: int, m: int): (r: (int, int))
    requires 1 <= m <= 12
    ensures 1 <= r.1 <= 12
    ensures m == 12 ==> r == (y + 1, 1)
    ensures m < 12 ==> r == (y, m + 1)
  {
    if m == 12 then (y + 1, 1) else (y, m + 1)
  }

  /** The period of the month after `today`; `None` where `date()` raises
      because the year passes 9999. */
  function NextPeriod(today: Date): (r: Option<Period>)
    requires ValidDate(today)
    ensures r.Some? <==> !(today.year == MaxYear && today.month == 12)
    ensures r.Some? ==> ValidDate(r.value.start) && ValidDate(r.value.end) && r.value.start.day == 1
    ensures r.Some? ==> var (y, m) := NextMonth(today.year, today.month);
      r.value.start == Date(y, m, 1) && r.value.end == Date(y, m, DaysInMonth(y, m))
  {
    var (y, m) := NextMonth(today.year, today.month);
    if y > MaxYear then None
    else Some(MonthOf(Date(y, m, 1)))
  }

  /** The next period begins right after this month ends: it starts on the
      first of the next month, and no valid date lies strictly between
      this month's last day and that first. */
  lemma NextPeriodAdjacent(today: Date, d: Date)
    requires ValidDate(today) && ValidDate(d) && NextPeriod(today).Some?
    ensures Le(MonthOf(today).end, d) && d != MonthOf(today).end ==> Le(NextPeriod(today).value.start, d)
    ensures Le(NextPeriod(today).value.start, MonthOf(today).end) == false
  {
  }

  /** February has 29 days exactly in leap years; 2024 is one and 1900 and
      2023 are not. */
  lemma LeapFebruary(y: int)
    ensures DaysInMonth(y, 2) == 29 <==> IsLeap(y)
    ensures DaysInMonth(2024, 2) == 29 && DaysInMonth(1900, 2) == 28
    ensures DaysInMonth(2000, 2) == 29 && DaysInMonth(2023, 2) == 28
  {
  }
}
