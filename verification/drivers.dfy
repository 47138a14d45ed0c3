/**
 * The four leading indicators for the current quarter: open pipeline, win
 * rate, average won-deal size and average sales-cycle length.
 */
module Drivers {
  import opened Numeric
  import opened Calendar
  import opened Tables
  import Summary

  datatype DriversReport = DriversReport(
    pipelineSize: int,
    winRate: real,
    averageDealSize: int,
    salesCycleTime: int)

  /**
   * The current quarter's inclusive range of days, computed here from the
   * month of today's date on its own.
   */
  function CurrentQuarterRange(now: Clock): (p: Summary.Period)
    requires now.Valid()
  {
    var m := now.month;
    var (sm, em) :=
      if 1 <= m <= 3 then (1, 3)
      else if 4 <= m <= 6 then (4, 6)
      else if 7 <= m <= 9 then (7, 9)
      else (10, 12);
    Summary.Period(DayOf(now.year, sm, 1), DayOf(now.year, em, DaysInMonth(now.year, em)))
  }

  /** This quarter range is the summary's current quarter, for every date. */
  lemma QuarterRangeAgrees(now: Clock)
    requires now.Valid()
    ensures CurrentQuarterRange(now).start == Summary.CurrentQuarter(now).start
    ensures CurrentQuarterRange(now).end == Summary.CurrentQuarter(now).end
  {
  }

  predicate ClosedIn(d: Deal, start: int, end: int) {
    d.closedAt.Some? && start <= d.closedAt.value <= end
  }

  /** The amount of an open deal created no later than `end`. */
  function OpenAmountBy(d: Deal, end: int): Option<int> {
    if d.stage.Open? && d.createdAt <= end then d.amount else None
  }

  /** The value of open deals created on or before the quarter's last day. */
  function PipelineSize(deals: seq<Deal>, end: int): (r: int)
    ensures AmountsNonNegative(deals) ==> r >= 0
    ensures (forall d | d in deals :: OpenAmountBy(d, end).None?) ==> r == 0
  {
    Sum(deals, d => OpenAmountBy(d, end))
  }

  /** Marks a deal won (counted by `won`) or lost inside the range. */
  function WonIn(d: Deal, start: int, end: int): Option<int> {
    if d.stage == ClosedWon && ClosedIn(d, start, end) then Some(1) else None
  }

  function LostIn(d: Deal, start: int, end: int): Option<int> {
    if d.stage == ClosedLost && ClosedIn(d, start, end) then Some(1) else None
  }

  /** `COUNT(CASE WHEN stage = 'Closed Won' THEN 1 END)` over the deals closed inside the range. */
  function WonCount(deals: seq<Deal>, start: int, end: int): nat {
    Count(deals, d => WonIn(d, start, end))
  }

  function LostCount(deals: seq<Deal>, start: int, end: int): nat {
    Count(deals, d => LostIn(d, start, end))
  }

  /** `won / (won + lost) * 100`, or 0 when nothing closed. */
  function WinPercent(won: nat, lost: nat): (r: real)
    ensures 0.0 <= r <= 100.0
    ensures r == 0.0 <==> won == 0
    ensures r == 100.0 <==> won > 0 && lost == 0
  {
    var total := won + lost;
    if total > 0 then
      var q := won as real / total as real;
      assert q * total as real == won as real;
      assert q <= 1.0;
      assert q == 1.0 <==> lost == 0;
      q * 100.0
    else 0.0
  }

  /** The win rate over the deals closed inside the range. */
  function WinRate(deals: seq<Deal>, start: int, end: int): (r: real)
    ensures 0.0 <= r <= 100.0
    ensures r == 0.0 <==> WonCount(deals, start, end) == 0
    ensures r == 100.0 <==> WonCount(deals, start, end) > 0 && LostCount(deals, start, end) == 0
  {
    WinPercent(WonCount(deals, start, end), LostCount(deals, start, end))
  }

  /** The mean amount of deals won inside the range, rounded; 0 when there are none. */
  function AverageDealSize(deals: seq<Deal>, start: int, end: int): (r: int)
    ensures (forall d | d in deals :: Summary.WonAmountIn(d, start, end).None?) ==> r == 0
  {
    Round(Average(deals, d => Summary.WonAmountIn(d, start, end)).GetOr(0.0))
  }

  /** The average won deal lies between the smallest and largest amount won inside the range. */
  lemma AverageDealSizeBounds(deals: seq<Deal>, start: int, end: int, lo: int, hi: int)
    requires exists d | d in deals :: Summary.WonAmountIn(d, start, end).Some?
    requires forall d | d in deals :: Summary.WonAmountIn(d, start, end).Some? ==> lo <= Summary.WonAmountIn(d, start, end).value <= hi
    ensures lo <= AverageDealSize(deals, start, end) <= hi
  {
    var f := d => Summary.WonAmountIn(d, start, end);
    AverageBounds(deals, f, lo, hi);
    RoundBetween(Average(deals, f).value, lo, hi);
  }

  /** Days from creation to close of a deal won inside the range. */
  function CycleDaysIn(d: Deal, start: int, end: int): Option<int> {
    if d.stage == ClosedWon && ClosedIn(d, start, end) then Some(d.closedAt.value - d.createdAt) else None
  }

  /** The mean sales cycle in days of deals won inside the range, rounded; 0 when there are none. */
  function SalesCycleTime(deals: seq<Deal>, start: int, end: int): (r: int)
    ensures (forall d | d in deals :: CycleDaysIn(d, start, end).None?) ==> r == 0
  {
    var avg := Average(deals, d => CycleDaysIn(d, start, end));
    if avg.Some? && avg.value != 0.0 then Round(avg.value) else 0
  }

  /** The average cycle lies between the shortest and the longest cycle of a deal won inside the range. */
  lemma SalesCycleTimeBounds(deals: seq<Deal>, start: int, end: int, lo: int, hi: int)
    requires exists d | d in deals :: CycleDaysIn(d, start, end).Some?
    requires forall d | d in deals :: CycleDaysIn(d, start, end).Some? ==> lo <= CycleDaysIn(d, start, end).value <= hi
    ensures lo <= SalesCycleTime(deals, start, end) <= hi
  {
    var f := d => CycleDaysIn(d, start, end);
    AverageBounds(deals, f, lo, hi);
    RoundBetween(Average(deals, f).value, lo, hi);
  }

  /** The quarter's drivers. */
  function GetDrivers(deals: seq<Deal>, now: Clock): (r: DriversReport)
    requires now.Valid()
    ensures var p := CurrentQuarterRange(now);
            && r.pipelineSize == PipelineSize(deals, p.end)
            && r.winRate == WinRate(deals, p.start, p.end)
            && r.averageDealSize == AverageDealSize(deals, p.start, p.end)
            && r.salesCycleTime == SalesCycleTime(deals, p.start, p.end)
    ensures 0.0 <= r.winRate <= 100.0
    ensures AmountsNonNegative(deals) ==> r.pipelineSize >= 0
    ensures var p := CurrentQuarterRange(now);
            && ((forall d | d in deals :: OpenAmountBy(d, p.end).None?) ==> r.pipelineSize == 0)
            && (r.winRate == 0.0 <==> WonCount(deals, p.start, p.end) == 0)
            && ((forall d | d in deals :: Summary.WonAmountIn(d, p.start, p.end).None?) ==> r.averageDealSize == 0)
            && ((forall d | d in deals :: CycleDaysIn(d, p.start, p.end).None?) ==> r.salesCycleTime == 0)
  {
    var current := CurrentQuarterRange(now);
    DriversReport(
      PipelineSize(deals, current.end),
      WinRate(deals, current.start, current.end),
      AverageDealSize(deals, current.start, current.end),
      SalesCycleTime(deals, current.start, current.end))
  }

  lemma WinRateIgnores(a: seq<Deal>, d: Deal, b: seq<Deal>, start: int, end: int)
    requires !ClosedIn(d, start, end)
    ensures WinRate(a + [d] + b, start, end) == WinRate(a + b, start, end)
  {
    SumSkip(a, d, b, x => WonIn(x, start, end));
    SumSkip(a, d, b, x => LostIn(x, start, end));
    assert WonCount(a + [d] + b, start, end) == WonCount(a + b, start, end);
    assert LostCount(a + [d] + b, start, end) == LostCount(a + b, start, end);
  }

  lemma AverageDealSizeIgnores(a: seq<Deal>, d: Deal, b: seq<Deal>, start: int, end: int)
    requires !ClosedIn(d, start, end)
    ensures AverageDealSize(a + [d] + b, start, end) == AverageDealSize(a + b, start, end)
  {
    SumSkip(a, d, b, x => Summary.WonAmountIn(x, start, end));
  }

  lemma SalesCycleTimeIgnores(a: seq<Deal>, d: Deal, b: seq<Deal>, start: int, end: int)
    requires !ClosedIn(d, start, end)
    ensures SalesCycleTime(a + [d] + b, start, end) == SalesCycleTime(a + b, start, end)
  {
    SumSkip(a, d, b, x => CycleDaysIn(x, start, end));
  }

  /**
   * A deal closed outside the quarter, or never closed, moves neither the win
   * rate, nor the average deal size, nor the sales cycle.
   */
  lemma ClosedOutsideIgnored(a: seq<Deal>, d: Deal, b: seq<Deal>, now: Clock)
    requires now.Valid()
    requires !ClosedIn(d, CurrentQuarterRange(now).start, CurrentQuarterRange(now).end)
    ensures GetDrivers(a + [d] + b, now).winRate == GetDrivers(a + b, now).winRate
    ensures GetDrivers(a + [d] + b, now).averageDealSize == GetDrivers(a + b, now).averageDealSize
    ensures GetDrivers(a + [d] + b, now).salesCycleTime == GetDrivers(a + b, now).salesCycleTime
  {
    var p := CurrentQuarterRange(now);
    WinRateIgnores(a, d, b, p.start, p.end);
    AverageDealSizeIgnores(a, d, b, p.start, p.end);
    SalesCycleTimeIgnores(a, d, b, p.start, p.end);
  }

  /** A closed deal never adds to the pipeline. */
  lemma ClosedDealNotInPipeline(a: seq<Deal>, d: Deal, b: seq<Deal>, end: int)
    requires !d.stage.Open?
    ensures PipelineSize(a + [d] + b, end) == PipelineSize(a + b, end)
  {
    SumSkip(a, d, b, x => OpenAmountBy(x, end));
  }
}
