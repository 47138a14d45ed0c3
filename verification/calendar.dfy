/**
 * Calendar dates as whole day numbers, and the wall clock as an explicit value.
 *
 * Dates in the store are ISO "YYYY-MM-DD" strings that compare lexically; a day
 * number compares the same way. Day 0 is 0001-01-01 of the proleptic Gregorian
 * calendar.
 */
module Calendar {
  import opened Numeric

  const MillisPerDay: int := 86_400_000

  predicate IsLeapYear(y: int) {
    y % 4 == 0 && (y % 100 != 0 || y % 400 == 0)
  }

  /** The last day of month `m` of year `y`, what `new Date(y, m, 0).getDate()` yields. */
  function DaysInMonth(y: int, m: int): (n: int)
    requires 1 <= m <= 12
    ensures 28 <= n <= 31
    ensures n == 29 <==> m == 2 && IsLeapYear(y)
  {
    if m == 2 then (if IsLeapYear(y) then 29 else 28)
    else if m == 4 || m == 6 || m == 9 || m == 11 then 30
    else 31
  }

  /** Days of year `y` that precede the first of month `m`. */
  function DaysBeforeMonth(y: int, m: int): int
    requires 1 <= m <= 12
  {
    [0, 31, 59, 90, 120, 151, 181, 212, 243, 273, 304, 334][m - 1]
      + (if m > 2 && IsLeapYear(y) then 1 else 0)
  }

  /** Days of all years before year `y`, counted from year 1. */
  function DaysBeforeYear(y: int): int {
    var p := y - 1;
    365 * p + p / 4 - p / 100 + p / 400
  }

  /** The day number of the date y-m-d. */
  function DayOf(y: int, m: int, d: int): int
    requires 1 <= m <= 12
  {
    DaysBeforeYear(y) + DaysBeforeMonth(y, m) + d - 1
  }

  /** The first of a month follows the last day of the month before it. */
  lemma MonthsAdjoin(y: int, m: int)
    requires 1 <= m < 12
    ensures DayOf(y, m, DaysInMonth(y, m)) + 1 == DayOf(y, m + 1, 1)
  {
  }

  /** A year has 366 days when it is a leap year and 365 otherwise. */
  lemma YearLength(y: int)
    ensures DaysBeforeYear(y + 1) - DaysBeforeYear(y) == if IsLeapYear(y) then 366 else 365
  {
    var a, b, c := y / 4 - (y - 1) / 4, y / 100 - (y - 1) / 100, y / 400 - (y - 1) / 400;
    assert DaysBeforeYear(y + 1) - DaysBeforeYear(y) == 365 + a - b + c;
    DivStep(y, 4);
    DivStep(y, 100);
    DivStep(y, 400);
    if y % 400 == 0 {
      DivUnique(y, 100, 4 * (y / 400), 0);
    }
    if y % 100 == 0 {
      DivUnique(y, 4, 25 * (y / 100), 0);
    }
  }

  /** Stepping down by one crosses a multiple of `k` exactly when it starts on one. */
  lemma DivStep(y: int, k: int)
    requires k > 0
    ensures y / k - (y - 1) / k == if y % k == 0 then 1 else 0
  {
    var q, r := (y - 1) / k, (y - 1) % k;
    assert y - 1 == k * q + r && 0 <= r < k;
    if r == k - 1 {
      DivUnique(y, k, q + 1, 0);
    } else {
      DivUnique(y, k, q, r + 1);
    }
  }

  /** Euclidean division is determined by its defining equation. */
  lemma DivUnique(y: int, k: int, q: int, r: int)
    requires k > 0 && 0 <= r < k && y == k * q + r
    ensures y / k == q && y % k == r
  {
    var d := y / k - q;
    assert k * d == r - y % k by {
      assert k * (y / k) + y % k == y;
    }
  }

  /** The first of January follows the 31st of December of the year before. */
  lemma YearsAdjoin(y: int)
    ensures DayOf(y, 12, 31) + 1 == DayOf(y + 1, 1, 1)
  {
    YearLength(y);
  }

  /** Within one year, day numbers grow with the date. */
  lemma DayOfMonotone(y: int, m1: int, d1: int, m2: int, d2: int)
    requires 1 <= m1 <= 12 && 1 <= m2 <= 12
    requires 1 <= d1 <= DaysInMonth(y, m1) && 1 <= d2
    requires m1 < m2 || (m1 == m2 && d1 <= d2)
    ensures DayOf(y, m1, d1) <= DayOf(y, m2, d2)
  {
  }

  /**
   * One reading of the wall clock: the calendar date (in the time zone the
   * store's `date('now')` uses) and the milliseconds elapsed since its midnight.
   */
  datatype Clock = Clock(year: int, month: int, day: int, millis: int) {
    predicate Valid() {
      1 <= month <= 12 && 1 <= day <= DaysInMonth(year, month) && 0 <= millis < MillisPerDay
    }

    /** `date('now')` as a day number. */
    function Today(): int
      requires Valid()
    {
      DayOf(year, month, day)
    }

    /** `date('now', 'start of month')` as a day number. */
    function MonthStart(): (d: int)
      requires Valid()
      ensures d <= Today() < d + DaysInMonth(year, month)
    {
      DayOf(year, month, 1)
    }
  }

  /**
   * `julianday('now') - julianday(since)`, and equally
   * `(Date.now() - new Date(since).getTime()) / (1000 * 60 * 60 * 24)`, for a
   * date `since` at midnight: whole days plus the fraction of today gone by.
   */
  function Elapsed(now: Clock, since: int): real
    requires now.Valid()
  {
    (now.Today() - since) as real + now.millis as real / MillisPerDay as real
  }

  /** Exceeding `n` days: more than `n` calendar days, or exactly `n` and any time after midnight. */
  lemma ElapsedExceeds(now: Clock, since: int, n: int)
    requires now.Valid()
    ensures Elapsed(now, since) > n as real
      <==> now.Today() - since > n || (now.Today() - since == n && now.millis > 0)
  {
  }

  /** `CAST(... AS INTEGER)` of a non-negative elapsed time is the number of calendar days. */
  lemma ElapsedTruncated(now: Clock, since: int)
    requires now.Valid() && since <= now.Today()
    ensures Trunc(Elapsed(now, since)) == now.Today() - since
  {
    var f := now.millis as real / MillisPerDay as real;
    assert 0.0 <= f < 1.0;
  }

  /** `Math.round` of an elapsed time adds one day from noon on. */
  lemma ElapsedRounded(now: Clock, since: int)
    requires now.Valid()
    ensures Round(Elapsed(now, since))
      == now.Today() - since + (if 2 * now.millis >= MillisPerDay then 1 else 0)
  {
    var f := now.millis as real / MillisPerDay as real;
    assert 0.0 <= f < 1.0;
    assert 2 * now.millis >= MillisPerDay <==> f >= 0.5;
  }
}
