/**
 * The proleptic Gregorian calendar as Python's `datetime` and dateutil's
 * `relativedelta` use it: day ordinals, midnight, month arithmetic with the day
 * clipped to the length of the target month, and time differences in seconds.
 */
module Calendar {

  predicate IsLeap(year: int) {
    year % 4 == 0 && (year % 100 != 0 || year % 400 == 0)
  }

  function DaysInMonth(year: int, month: int): (n: int)
    requires 1 <= month <= 12
    ensures 28 <= n <= 31
  {
    if month == 2 then (if IsLeap(year) then 29 else 28)
    else if month == 4 || month == 6 || month == 9 || month == 11 then 30
    else 31
  }

  datatype Date = Date(year: int, month: int, day: int)

  predicate ValidDate(d: Date) {
    1 <= d.month <= 12 && 1 <= d.day <= DaysInMonth(d.year, d.month)
  }

  const SecondsPerDay: int := 86400

  /** A naive `datetime` to the second: a date and the second of that day. */
  datatype DateTime = DateTime(date: Date, second: int)

  predicate ValidDateTime(t: DateTime) {
    ValidDate(t.date) && 0 <= t.second < SecondsPerDay
  }

  /** Days of the year before the first of `month`. */
  function DaysBeforeMonth(year: int, month: int): int
    requires 1 <= month <= 12
  {
    if month == 1 then 0 else DaysBeforeMonth(year, month - 1) + DaysInMonth(year, month - 1)
  }

  /** Days before January 1st of `year`, counted from January 1st of year 1. */
  function DaysBeforeYear(year: int): int {
    var p := year - 1;
    365 * p + p / 4 - p / 100 + p / 400
  }

  /** `date.toordinal()`: January 1st of year 1 is day 1. */
  function Ordinal(d: Date): int
    requires 1 <= d.month <= 12
  {
    DaysBeforeYear(d.year) + DaysBeforeMonth(d.year, d.month) + d.day
  }

  /** Seconds since the start of the ordinal count; only differences are used. */
  function Seconds(t: DateTime): int
    requires 1 <= t.date.month <= 12
  {
    Ordinal(t.date) * SecondsPerDay + t.second
  }

  /** `datetime.combine(d, time())`. */
  function Midnight(d: Date): DateTime {
    DateTime(d, 0)
  }

  /** `d + relativedelta(day=1)`. */
  function FirstOfMonth(d: Date): (r: Date)
    requires ValidDate(d)
    ensures ValidDate(r) && r.year == d.year && r.month == d.month && r.day == 1
  {
    d.(day := 1)
  }

  /**
   * `d + relativedelta(months=k)`: the year and month move by `k` months and the
   * day is clipped to the length of the new month.
   */
  function AddMonths(d: Date, k: int): (r: Date)
    requires ValidDate(d)
    ensures ValidDate(r)
    ensures r.year * 12 + r.month == d.year * 12 + d.month + k
    ensures r.day == if d.day <= DaysInMonth(r.year, r.month) then d.day else DaysInMonth(r.year, r.month)
  {
    var total := d.year * 12 + (d.month - 1) + k;
    var year, month := total / 12, total % 12 + 1;
    Date(year, month, if d.day <= DaysInMonth(year, month) then d.day else DaysInMonth(year, month))
  }

  /** `d - relativedelta(day=1, months=+1)`: the first day of the month before. */
  function FirstOfPreviousMonth(d: Date): (r: Date)
    requires ValidDate(d)
    ensures ValidDate(r) && r.day == 1
    ensures r.year * 12 + r.month == d.year * 12 + d.month - 1
  {
    FirstOfMonth(AddMonths(d, -1))
  }

  /** `d + timedelta(days=1)`. */
  function NextDay(d: Date): (r: Date)
    requires ValidDate(d)
    ensures ValidDate(r) && Ordinal(r) == Ordinal(d) + 1
  {
    if d.day < DaysInMonth(d.year, d.month) then d.(day := d.day + 1)
    else
      var first := FirstOfMonth(d);
      MonthLength(first);
      FirstOfMonth(AddMonths(first, 1))
  }

  /** `t + timedelta(seconds=n)` for less than a day. */
  function AddSeconds(t: DateTime, n: int): (r: DateTime)
    requires ValidDateTime(t) && 0 <= n < SecondsPerDay
    ensures ValidDateTime(r) && Seconds(r) == Seconds(t) + n
  {
    if t.second + n < SecondsPerDay then t.(second := t.second + n)
    else DateTime(NextDay(t.date), t.second + n - SecondsPerDay)
  }

  // ---------------------------------------------------------------- lemmas

  /** Floor division by a positive number steps up exactly at the multiples. */
  lemma DivStep(y: int, k: int)
    requires k > 0
    ensures y / k - (y - 1) / k == if y % k == 0 then 1 else 0
  {
    var q, r := y / k, y % k;
    assert y == k * q + r && 0 <= r < k;
    if r == 0 {
      assert y - 1 == k * (q - 1) + (k - 1);
      DivUnique(y - 1, k, q - 1, k - 1);
    } else {
      assert y - 1 == k * q + (r - 1);
      DivUnique(y - 1, k, q, r - 1);
    }
  }

  lemma DivUnique(x: int, k: int, q: int, r: int)
    requires k > 0 && 0 <= r < k && x == k * q + r
    ensures x / k == q && x % k == r
  {
    var q', r' := x / k, x % k;
    assert x == k * q' + r' && 0 <= r' < k;
    assert k * (q - q') == r' - r;
    if q > q' {
      MulAtLeast(k, q - q');
    } else if q < q' {
      MulAtLeast(k, q' - q);
    }
  }

  lemma MulAtLeast(k: int, d: int)
    requires k > 0 && d >= 1
    ensures k * d >= k
  {
    assert k * d == k * (d - 1) + k;
    assert k * (d - 1) >= 0;
  }

  /** A year has 365 days, 366 when it is a leap year. */
  lemma YearLength(year: int)
    ensures DaysBeforeYear(year + 1) - DaysBeforeYear(year) == if IsLeap(year) then 366 else 365
  {
    DivStep(year, 4);
    DivStep(year, 100);
    DivStep(year, 400);
    if year % 100 == 0 {
      assert year % 4 == 0 by { DivUnique(year, 4, 25 * (year / 100), 0); }
    }
    if year % 400 == 0 {
      assert year % 100 == 0 by { DivUnique(year, 100, 4 * (year / 400), 0); }
    }
  }

  /** December 1st is 334 days into the year, 335 in a leap year. */
  lemma DaysBeforeDecember(year: int)
    ensures DaysBeforeMonth(year, 12) == if IsLeap(year) then 335 else 334
  {
    var feb := if IsLeap(year) then 29 else 28;
    assert DaysBeforeMonth(year, 2) == 31;
    assert DaysBeforeMonth(year, 3) == 31 + feb;
    assert DaysBeforeMonth(year, 4) == 62 + feb;
    assert DaysBeforeMonth(year, 5) == 92 + feb;
    assert DaysBeforeMonth(year, 6) == 123 + feb;
    assert DaysBeforeMonth(year, 7) == 153 + feb;
    assert DaysBeforeMonth(year, 8) == 184 + feb;
    assert DaysBeforeMonth(year, 9) == 215 + feb;
    assert DaysBeforeMonth(year, 10) == 245 + feb;
    assert DaysBeforeMonth(year, 11) == 276 + feb;
  }

  /** From the first of a month to the first of the next is the length of the month. */
  lemma MonthLength(d: Date)
    requires ValidDate(d) && d.day == 1
    ensures Ordinal(AddMonths(d, 1)) - Ordinal(d) == DaysInMonth(d.year, d.month)
  {
    var n := AddMonths(d, 1);
    if d.month < 12 {
      DivUnique(d.year * 12 + d.month, 12, d.year, d.month);
      assert n.year == d.year && n.month == d.month + 1;
    } else {
      DivUnique(d.year * 12 + d.month, 12, d.year + 1, 0);
      assert n.year == d.year + 1 && n.month == 1;
      YearLength(d.year);
      DaysBeforeDecember(d.year);
    }
  }

  /** One month later is between 1 and 31 days later. */
  lemma NextMonthDistance(d: Date)
    requires ValidDate(d)
    ensures 1 <= Ordinal(AddMonths(d, 1)) - Ordinal(d) <= 31
  {
    var first := FirstOfMonth(d);
    MonthLength(first);
    assert AddMonths(first, 1).year == AddMonths(d, 1).year;
    assert AddMonths(first, 1).month == AddMonths(d, 1).month;
  }

  /** The first of the previous month lies one previous-month length before the first of this one. */
  lemma PreviousMonthDistance(d: Date)
    requires ValidDate(d)
    ensures var p := FirstOfPreviousMonth(d);
            Ordinal(FirstOfMonth(d)) - Ordinal(p) == DaysInMonth(p.year, p.month)
  {
    var p := FirstOfPreviousMonth(d);
    MonthLength(p);
    var n := AddMonths(p, 1);
    assert n.year * 12 + n.month == d.year * 12 + d.month;
    MonthIndexUnique(n.year, n.month, d.year, d.month);
  }

  lemma MonthIndexUnique(y1: int, m1: int, y2: int, m2: int)
    requires 1 <= m1 <= 12 && 1 <= m2 <= 12 && y1 * 12 + m1 == y2 * 12 + m2
    ensures y1 == y2 && m1 == m2
  {
    DivUnique(y1 * 12 + m1 - 1, 12, y1, m1 - 1);
    DivUnique(y2 * 12 + m2 - 1, 12, y2, m2 - 1);
  }
}
