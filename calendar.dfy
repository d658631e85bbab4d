/** Calendar dates in the local time zone, as JavaScript's Date builds them from (year, month, day).
    Months are numbered 1..12 here; the source's 0-based month indices are converted where they appear. */
module Calendar {

  predicate IsLeapYear(y: int) {
    (y % 4 == 0 && y % 100 != 0) || y % 400 == 0
  }

  function DaysInMonth(y: int, m: int): (n: int)
    requires 1 <= m <= 12
    ensures 28 <= n <= 31
    ensures n == 31 <==> m in {1, 3, 5, 7, 8, 10, 12}
    ensures n < 30 <==> m == 2
  {
    if m == 2 then (if IsLeapYear(y) then 29 else 28)
    else if m == 4 || m == 6 || m == 9 || m == 11 then 30
    else 31
  }

  datatype Date = Date(year: int, month: int, day: int)

  predicate ValidDate(d: Date) {
    1 <= d.month <= 12 && 1 <= d.day <= DaysInMonth(d.year, d.month)
  }

  /** Strict chronological order on dates. */
  predicate DateBefore(a: Date, b: Date) {
    a.year < b.year
    || (a.year == b.year && a.month < b.month)
    || (a.year == b.year && a.month == b.month && a.day < b.day)
  }

  const MillisPerDay: int := 86_400_000

  /** A point in time: a date and the milliseconds elapsed since its local midnight. */
  datatype Moment = Moment(date: Date, millis: int)

  predicate ValidMoment(t: Moment) {
    ValidDate(t.date) && 0 <= t.millis < MillisPerDay
  }

  /** `a < b` on two JavaScript Dates. */
  predicate Before(a: Moment, b: Moment) {
    DateBefore(a.date, b.date) || (a.date == b.date && a.millis < b.millis)
  }

  /** Midnight at the start of a date. */
  function Midnight(d: Date): (t: Moment)
    ensures t.date == d && t.millis == 0
    ensures ValidDate(d) ==> ValidMoment(t)
  {
    Moment(d, 0)
  }

  lemma BeforeIsStrictOrder(a: Moment, b: Moment, c: Moment)
    ensures !Before(a, a)
    ensures Before(a, b) ==> !Before(b, a)
    ensures Before(a, b) && Before(b, c) ==> Before(a, c)
    ensures a == b || Before(a, b) || Before(b, a)
  {
  }

  // ----- months -----

  /** The (year, month) that follows a month. */
  function NextMonth(y: int, m: int): (r: (int, int))
    requires 1 <= m <= 12
    ensures 1 <= r.1 <= 12
    ensures r.0 * 12 + r.1 == y * 12 + m + 1
  {
    if m == 12 then (y + 1, 1) else (y, m + 1)
  }

  /** `new Date(d.getFullYear(), d.getMonth() + 1, d.getDate())`: the same day number one month later,
      where a day the next month does not have rolls over into the month after it (31 January becomes
      2 or 3 March). */
  function AddOneMonth(d: Date): (r: Date)
    requires ValidDate(d)
    ensures ValidDate(r) && DateBefore(d, r)
    ensures var (y, m) := NextMonth(d.year, d.month);
      if d.day <= DaysInMonth(y, m) then r == Date(y, m, d.day)
      else r.day == d.day - DaysInMonth(y, m) && r.day <= 3 && (r.year, r.month) == NextMonth(y, m)
  {
    var (y, m) := NextMonth(d.year, d.month);
    if d.day <= DaysInMonth(y, m) then Date(y, m, d.day)
    else
      var (y2, m2) := NextMonth(y, m);
      Date(y2, m2, d.day - DaysInMonth(y, m))
  }

  /** The month-end case: 31 January 2024 becomes 2 March 2024, so February gets no due date. */
  lemma AddOneMonthRollsOver()
    ensures AddOneMonth(Date(2024, 1, 31)) == Date(2024, 3, 2)
    ensures AddOneMonth(Date(2023, 1, 31)) == Date(2023, 3, 3)
    ensures AddOneMonth(Date(2024, 3, 31)) == Date(2024, 5, 1)
  {
  }

  /** A (year, month) bucket, the key the reports group by. */
  datatype YearMonth = YearMonth(year: int, month: int)

  predicate ValidYearMonth(k: YearMonth) {
    1 <= k.month <= 12
  }

  /** The number of months since year 0: the chronological order of year-months. */
  function MonthIndex(k: YearMonth): int {
    k.year * 12 + (k.month - 1)
  }

  function FromMonthIndex(i: int): (k: YearMonth)
    ensures ValidYearMonth(k) && MonthIndex(k) == i
  {
    YearMonth(i / 12, i % 12 + 1)
  }

  lemma MonthIndexInjective(a: YearMonth, b: YearMonth)
    requires ValidYearMonth(a) && ValidYearMonth(b)
    ensures MonthIndex(a) == MonthIndex(b) <==> a == b
  {
    if MonthIndex(a) == MonthIndex(b) {
      assert a.year == b.year by {
        assert a.year * 12 <= MonthIndex(a) < a.year * 12 + 12;
        assert b.year * 12 <= MonthIndex(b) < b.year * 12 + 12;
      }
    }
  }

  /** startOfMonth: the bucket a date falls in. */
  function MonthOf(d: Date): (k: YearMonth)
    ensures k.year == d.year && k.month == d.month
  {
    YearMonth(d.year, d.month)
  }

  /** date-fns addMonths on month starts: k months later (earlier when k < 0). */
  function AddMonths(k: YearMonth, n: int): (r: YearMonth)
    ensures ValidYearMonth(r) && MonthIndex(r) == MonthIndex(k) + n
  {
    FromMonthIndex(MonthIndex(k) + n)
  }

  /** The bounds `new Date(year, month, 1)` and `new Date(year, month + 1, 1)` of the monthly payment
      query, with `month` 0-based as the source passes it. */
  function MonthWindow(year: int, month0: int): (w: (Moment, Moment))
    requires 0 <= month0 <= 11
    ensures ValidMoment(w.0) && ValidMoment(w.1) && Before(w.0, w.1)
    ensures w.0 == Midnight(Date(year, month0 + 1, 1))
    ensures MonthIndex(MonthOf(w.1.date)) == MonthIndex(MonthOf(w.0.date)) + 1 && w.1.date.day == 1 && w.1.millis == 0
  {
    var (y2, m2) := NextMonth(year, month0 + 1);
    (Midnight(Date(year, month0 + 1, 1)), Midnight(Date(y2, m2, 1)))
  }

  /** A moment lies in the half-open window [start, end) exactly when it falls in the queried month. */
  lemma MonthWindowIsMonth(year: int, month0: int, t: Moment)
    requires 0 <= month0 <= 11 && ValidMoment(t)
    ensures var (start, end) := MonthWindow(year, month0);
      (!Before(t, start) && Before(t, end)) <==> MonthOf(t.date) == YearMonth(year, month0 + 1)
  {
    var (start, end) := MonthWindow(year, month0);
    var (y2, m2) := NextMonth(year, month0 + 1);
    assert end.date == Date(y2, m2, 1);
  }
}
