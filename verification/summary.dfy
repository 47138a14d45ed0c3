/**
 * The revenue summary: current-quarter revenue against target, and the change
 * against last year's same quarter or, failing that, the previous quarter.
 */
module Summary {
  import opened Calendar
  import opened Tables

  /** An inclusive range of days. */
  datatype Period = Period(start: int, end: int)

  /** A calendar quarter with its inclusive range of days. */
  datatype QuarterSpan = QuarterSpan(start: int, end: int, quarter: int, year: int)

  datatype ChangeKind = YoY | QoQ

  datatype Change = Change(kind: ChangeKind, value: int, percentage: real)

  datatype SummaryReport = SummaryReport(
    currentQuarterRevenue: int,
    target: int,
    gap: int,
    gapPercentage: real,
    change: Change)

  /** The quarter a month falls in; a month beyond September counts as the fourth quarter. */
  function QuarterOfMonth(month: int): (q: int)
    ensures 1 <= q <= 4
    ensures 1 <= month <= 12 ==> 3 * q - 2 <= month <= 3 * q
  {
    if 1 <= month <= 3 then 1
    else if 4 <= month <= 6 then 2
    else if 7 <= month <= 9 then 3
    else 4
  }

  /** The first and last month of quarter `q`; a quarter other than 1 to 3 is the fourth. */
  function QuarterMonths(q: int): (months: (int, int))
    ensures 1 <= months.0 && months.1 == months.0 + 2 && months.1 <= 12
    ensures 1 <= q <= 4 ==> months == (3 * q - 2, 3 * q)
    ensures QuarterOfMonth(months.0) == QuarterOfMonth(months.1) == if 1 <= q <= 4 then q else 4
  {
    if q == 1 then (1, 3)
    else if q == 2 then (4, 6)
    else if q == 3 then (7, 9)
    else (10, 12)
  }

  /** From the first of the start month to the last day of the end month of quarter `q` of `year`. */
  function QuarterPeriod(q: int, year: int): (p: Period)
    ensures p.start < p.end
    ensures p.start == DayOf(year, QuarterMonths(q).0, 1)
  {
    var (sm, em) := QuarterMonths(q);
    DayOfMonotone(year, sm, 1, em, DaysInMonth(year, em));
    Period(DayOf(year, sm, 1), DayOf(year, em, DaysInMonth(year, em)))
  }

  /** The quarter's end month has 31 days in the first and fourth quarters and 30 in the others. */
  lemma QuarterEndDay(q: int, year: int)
    requires 1 <= q <= 4
    ensures DaysInMonth(year, QuarterMonths(q).1) == if q == 2 || q == 3 then 30 else 31
  {
  }

  /** The quarter holding today's date. */
  function CurrentQuarter(now: Clock): (cur: QuarterSpan)
    requires now.Valid()
    ensures cur.year == now.year && cur.quarter == QuarterOfMonth(now.month)
    ensures cur.start <= now.Today() <= cur.end
  {
    var q := QuarterOfMonth(now.month);
    var p := QuarterPeriod(q, now.year);
    var (sm, em) := QuarterMonths(q);
    DayOfMonotone(now.year, sm, 1, now.month, now.day);
    DayOfMonotone(now.year, now.month, now.day, em, DaysInMonth(now.year, em));
    QuarterSpan(p.start, p.end, q, now.year)
  }

  /** The quarter before quarter `q` of `year`; the first quarter steps back to last year's fourth. */
  function PreviousQuarter(q: int, year: int): (prev: QuarterSpan)
    ensures q == 1 ==> prev.quarter == 4 && prev.year == year - 1
    ensures q != 1 ==> prev.quarter == q - 1 && prev.year == year
  {
    var (pq, py) := if q - 1 == 0 then (4, year - 1) else (q - 1, year);
    var p := QuarterPeriod(pq, py);
    QuarterSpan(p.start, p.end, pq, py)
  }

  /** The previous quarter ends the day before the quarter starts: no day is skipped or shared. */
  lemma PreviousQuarterAdjoins(q: int, year: int)
    requires 1 <= q <= 4
    ensures PreviousQuarter(q, year).end + 1 == QuarterPeriod(q, year).start
  {
    if q == 1 {
      YearsAdjoin(year - 1);
    } else {
      MonthsAdjoin(year, QuarterMonths(q - 1).1);
    }
  }

  /** The same quarter one year earlier. */
  function SameQuarterLastYear(q: int, year: int): (p: Period)
    ensures p.end < QuarterPeriod(q, year).start
  {
    var last := QuarterPeriod(q, year - 1);
    var (sm, em) := QuarterMonths(q);
    YearsAdjoin(year - 1);
    DayOfMonotone(year - 1, em, DaysInMonth(year - 1, em), 12, 31);
    DayOfMonotone(year, 1, 1, sm, 1);
    last
  }

  /** Four steps back through the quarters land on the same quarter last year. */
  lemma {:induction false} FourQuartersBack(q: int, year: int)
    requires 1 <= q <= 4
    ensures var p1 := PreviousQuarter(q, year);
            var p2 := PreviousQuarter(p1.quarter, p1.year);
            var p3 := PreviousQuarter(p2.quarter, p2.year);
            var p4 := PreviousQuarter(p3.quarter, p3.year);
            p4.quarter == q && p4.year == year - 1
            && Period(p4.start, p4.end) == SameQuarterLastYear(q, year)
  {
  }

  /** What a deal adds to revenue for [start, end]: its amount, when it was won inside the range. */
  function WonAmountIn(d: Deal, start: int, end: int): Option<int> {
    if d.stage == ClosedWon && d.closedAt.Some? && start <= d.closedAt.value <= end
    then d.amount else None
  }

  /** Closed-won revenue with a close date in the inclusive range [start, end]. */
  function RevenueForPeriod(deals: seq<Deal>, start: int, end: int): (r: int)
    ensures AmountsNonNegative(deals) ==> r >= 0
    ensures (forall d | d in deals :: WonAmountIn(d, start, end).None?) ==> r == 0
  {
    Sum(deals, d => WonAmountIn(d, start, end))
  }

  /** Widening the range cannot lower the revenue. */
  lemma RevenueMonotone(deals: seq<Deal>, start: int, end: int, start': int, end': int)
    requires AmountsNonNegative(deals)
    requires start' <= start && end <= end'
    ensures RevenueForPeriod(deals, start, end) <= RevenueForPeriod(deals, start', end')
  {
    SumMonotone(deals, d => WonAmountIn(d, start, end), d => WonAmountIn(d, start', end'));
  }

  /** A deal that is not won, has no amount or closed outside the range adds nothing. */
  lemma RevenueIgnores(a: seq<Deal>, d: Deal, b: seq<Deal>, start: int, end: int)
    requires d.stage != ClosedWon || d.amount.None? || d.closedAt.None?
          || d.closedAt.value < start || end < d.closedAt.value
    ensures RevenueForPeriod(a + [d] + b, start, end) == RevenueForPeriod(a + b, start, end)
  {
    SumSkip(a, d, b, x => WonAmountIn(x, start, end));
  }

  /** The month keys of quarter `q` of `year`, pushed one month at a time. */
  method QuarterMonthKeys(q: int, year: int) returns (months: seq<MonthKey>)
    ensures |months| == 3
    ensures forall i | 0 <= i < 3 :: months[i] == MonthKey(year, QuarterMonths(q).0 + i)
    ensures 1 <= q <= 4 ==> (forall k ::
      k in months <==> k.year == year && 1 <= k.month <= 12 && QuarterOfMonth(k.month) == q)
  {
    var (sm, em) := QuarterMonths(q);
    months := [];
    var m := sm;
    while m <= em
      invariant sm <= m <= em + 1
      invariant |months| == m - sm
      invariant forall i | 0 <= i < |months| :: months[i] == MonthKey(year, sm + i)
    {
      months := months + [MonthKey(year, m)];
      m := m + 1;
    }
    assert months == [MonthKey(year, sm), MonthKey(year, sm + 1), MonthKey(year, sm + 2)];
  }

  /** `SUM(target) WHERE month IN months`. */
  function TargetSum(targets: seq<Target>, months: seq<MonthKey>): (r: int)
    ensures (forall t | t in targets :: t.month !in months) ==> r == 0
  {
    if targets == [] then 0
    else (if targets[0].month in months then targets[0].target else 0) + TargetSum(targets[1..], months)
  }

  /** The target of one month; a month without a row contributes 0. */
  function MonthTarget(targets: seq<Target>, k: MonthKey): (r: int)
    ensures (forall t | t in targets :: t.month != k) ==> r == 0
  {
    if targets == [] then 0
    else if targets[0].month == k then targets[0].target
    else MonthTarget(targets[1..], k)
  }

  /** The month is the key of the targets table. */
  predicate UniqueMonths(targets: seq<Target>) {
    forall i, j | 0 <= i < j < |targets| :: targets[i].month != targets[j].month
  }

  /** The sum of each listed month's own target. */
  function MonthTargets(targets: seq<Target>, months: seq<MonthKey>): int {
    if months == [] then 0 else MonthTarget(targets, months[0]) + MonthTargets(targets, months[1..])
  }

  /** Summing the rows whose month is listed is summing the listed months' targets. */
  lemma {:induction false} TargetSumByMonth(targets: seq<Target>, months: seq<MonthKey>)
    requires UniqueMonths(targets)
    requires forall i, j | 0 <= i < j < |months| :: months[i] != months[j]
    ensures TargetSum(targets, months) == MonthTargets(targets, months)
  {
    if targets == [] {
      MonthTargetsEmpty(months);
    } else {
      var t := targets[0];
      TargetSumByMonth(targets[1..], months);
      assert forall u | u in targets[1..] :: u.month != t.month;
      MonthTargetsPeel(targets, months);
    }
  }

  lemma {:induction false} MonthTargetsEmpty(months: seq<MonthKey>)
    ensures MonthTargets([], months) == 0
  {
    if months != [] {
      MonthTargetsEmpty(months[1..]);
    }
  }

  /** Taking the first target row out of each listed month's target. */
  lemma {:induction false} MonthTargetsPeel(targets: seq<Target>, months: seq<MonthKey>)
    requires targets != []
    requires forall u | u in targets[1..] :: u.month != targets[0].month
    requires forall i, j | 0 <= i < j < |months| :: months[i] != months[j]
    ensures MonthTargets(targets, months)
      == (if targets[0].month in months then targets[0].target else 0) + MonthTargets(targets[1..], months)
  {
    if months != [] {
      MonthTargetsPeel(targets, months[1..]);
      if months[0] == targets[0].month {
        assert targets[0].month !in months[1..];
      }
    }
  }

  /** The quarter's target: the targets of its three months added up. */
  method TargetForQuarter(targets: seq<Target>, q: int, year: int) returns (total: int)
    ensures total == TargetSum(targets, [QuarterKey(q, year, 0), QuarterKey(q, year, 1), QuarterKey(q, year, 2)])
    ensures UniqueMonths(targets) ==>
      total == MonthTarget(targets, QuarterKey(q, year, 0))
             + MonthTarget(targets, QuarterKey(q, year, 1))
             + MonthTarget(targets, QuarterKey(q, year, 2))
  {
    var months := QuarterMonthKeys(q, year);
    assert months == [QuarterKey(q, year, 0), QuarterKey(q, year, 1), QuarterKey(q, year, 2)];
    total := TargetSum(targets, months);
    if UniqueMonths(targets) {
      TargetSumByMonth(targets, months);
      assert months[1..][1..][1..] == [];
      assert MonthTargets(targets, months[1..][1..]) == MonthTarget(targets, months[2]);
    }
  }

  /** The key of month `i` (0, 1 or 2) of quarter `q` of `year`. */
  function QuarterKey(q: int, year: int, i: int): MonthKey {
    MonthKey(year, QuarterMonths(q).0 + i)
  }

  /** `change / base * 100`, or 0 when the base is not positive. */
  function Percentage(change: int, base: int): (p: real)
    ensures base > 0 ==> p * base as real == change as real * 100.0
    ensures base <= 0 ==> p == 0.0
    ensures p > 0.0 <==> base > 0 && change > 0
    ensures p < 0.0 <==> base > 0 && change < 0
  {
    if base > 0 then change as real / base as real * 100.0 else 0.0
  }

  /** The summary for the quarter holding today's date. */
  method GetSummary(store: Store, now: Clock) returns (s: SummaryReport)
    requires now.Valid()
    ensures var cur := CurrentQuarter(now);
            var prev := PreviousQuarter(cur.quarter, cur.year);
            var last := SameQuarterLastYear(cur.quarter, cur.year);
            var revenue := RevenueForPeriod(store.deals, cur.start, cur.end);
            var prevRevenue := RevenueForPeriod(store.deals, prev.start, prev.end);
            var lastRevenue := RevenueForPeriod(store.deals, last.start, last.end);
            && s.currentQuarterRevenue == revenue
            && s.target == TargetSum(store.targets,
                 [QuarterKey(cur.quarter, cur.year, 0), QuarterKey(cur.quarter, cur.year, 1),
                  QuarterKey(cur.quarter, cur.year, 2)])
            && s.gap == revenue - s.target
            && s.gapPercentage == Percentage(s.gap, s.target)
            && (s.change.kind == YoY <==> lastRevenue > 0)
            && s.change.value == revenue - (if lastRevenue > 0 then lastRevenue else prevRevenue)
            && s.change.percentage == Percentage(s.change.value, if lastRevenue > 0 then lastRevenue else prevRevenue)
  {
    var current := CurrentQuarter(now);
    var currentRevenue := RevenueForPeriod(store.deals, current.start, current.end);
    var target := TargetForQuarter(store.targets, current.quarter, current.year);
    var gap := currentRevenue - target;
    var gapPercentage := Percentage(gap, target);

    var previous := PreviousQuarter(current.quarter, current.year);
    var previousRevenue := RevenueForPeriod(store.deals, previous.start, previous.end);
    var qoqChange := currentRevenue - previousRevenue;
    var qoqPercentage := Percentage(qoqChange, previousRevenue);

    var lastYear := SameQuarterLastYear(current.quarter, current.year);
    var lastYearRevenue := RevenueForPeriod(store.deals, lastYear.start, lastYear.end);
    var yoyChange := currentRevenue - lastYearRevenue;
    var yoyPercentage := Percentage(yoyChange, lastYearRevenue);

    var useYoY := lastYearRevenue > 0;
    s := SummaryReport(
      currentRevenue, target, gap, gapPercentage,
      if useYoY then Change(YoY, yoyChange, yoyPercentage) else Change(QoQ, qoqChange, qoqPercentage));
  }
}
