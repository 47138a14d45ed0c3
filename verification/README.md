# Sales analytics engine, modelled in Dafny

This project models the analytics engine behind the sales dashboard's four
backend services. Each service is a deterministic function of the current
instant and five tables: accounts, reps, deals, activities and monthly targets.

- **Summary** (`summary.dfy`): maps a month to its calendar quarter and finds
  the previous quarter and the same quarter last year. Using those, it
  computes Closed-Won revenue against the quarter's target, and the
  year-over-year change, or the quarter-over-quarter change when last year
  has no revenue.
- **Drivers** (`drivers.dfy`): the current quarter's open pipeline, win rate,
  average won-deal size and average sales cycle.
- **Risk factors** (`risk_factors.dfy`): three detectors.
  - Stale open deals.
  - Underperforming reps: at least five closures in 90 days and a win rate
    below 30%.
  - Accounts with open deals but no recent activity.
- **Recommendations** (`recommendations.dfy`): five rules, each adding at most
  one prioritised item in a fixed order. Then comes a filler item, then the
  cut to five.

The services' SQL queries become functions over sequences of rows:
- `Tables.Sum`, `Tables.Count` and `Tables.Average` are `SUM`, `COUNT` and
  `AVG` over a nullable per-row expression.
- `Ranking` is `ORDER BY`, JavaScript's stable `sort`, and `LIMIT` / `slice`.

Dates are whole day numbers (`Calendar.DayOf`). The wall clock is an explicit
`Calendar.Clock` of year, month, day and milliseconds into the day, so
`julianday('now') - julianday(d)` is the exact real `Calendar.Elapsed`.

Two parts of the source change state step by step, and both are methods with
loop invariants:
- the month-key loop of the quarter target;
- the recommendation list built push by push, with its segment tally built by
  a `reduce`.

The rest is functions.

Supporting modules:
- `Numeric`: `Math.round` and `CAST(... AS INTEGER)`.
- `Calendar`: the Gregorian calendar and the clock.
- `Tables`: the entities and the SQL aggregates.
- `Ranking`: sorting and limits.

## Model

| member | source | states |
|---|---|---|
| Numeric.Round | backend/src/services/driversService.ts:99 | `Math.round` of a real is the integer within half a unit of it, with halves rounded up |
| Numeric.Trunc | backend/src/services/riskFactorsService.ts:48 | `CAST(x AS INTEGER)` drops the fraction toward zero on both signs |
| Calendar.DaysInMonth | backend/src/services/summaryService.ts:43 | the last day of a month, `new Date(y, m, 0).getDate()`, lies in 28..31 and is 29 exactly for February of a leap year |
| Calendar.MonthsAdjoin | backend/src/services/summaryService.ts:42-44 | the last day of a month is followed by the first of the next month |
| Calendar.YearsAdjoin | backend/src/services/summaryService.ts:53-56 | 31 December is followed by 1 January of the next year |
| Calendar.Clock.MonthStart | backend/src/services/recommendationsService.ts:80 | `date('now', 'start of month')` is at most today and within the current month |
| Calendar.ElapsedExceeds | backend/src/services/riskFactorsService.ts:52 | an age in fractional days exceeds n exactly when the whole-day difference exceeds n, or equals n with some time elapsed today |
| Calendar.ElapsedTruncated | backend/src/services/riskFactorsService.ts:48 | the truncated fractional age is the whole-day difference |
| Calendar.ElapsedRounded | backend/src/services/riskFactorsService.ts:140 | the rounded fractional age is the whole-day difference, plus one from midday on |
| Tables.Sum | backend/src/services/summaryService.ts:113 | `COALESCE(SUM(...), 0)` is 0 when no row qualifies and non-negative over non-negative values |
| Tables.Count | backend/src/services/driversService.ts:57-58 | `COUNT(...)` is at most the number of rows and is 0 exactly when no row qualifies |
| Tables.Average | backend/src/services/driversService.ts:70 | `AVG(...)` is NULL exactly when no row qualifies |
| Tables.SumAppend | backend/src/services/summaryService.ts:113 | the sum and count over two row lists joined are the sums and counts of each list added |
| Tables.SumSkip | backend/src/services/driversService.ts:60-62 | a row the filter rejects changes no SUM, COUNT or AVG, wherever it stands |
| Tables.SumMonotone | backend/src/services/summaryService.ts:115-119 | admitting more rows with non-negative amounts cannot lower a sum |
| Tables.AverageBounds | backend/src/services/driversService.ts:70 | an average lies between the smallest and the largest value averaged |
| Ranking.SortDesc | backend/src/services/riskFactorsService.ts:53 | `ORDER BY ... DESC` returns a permutation of its rows in non-increasing key order |
| Ranking.SortAsc | backend/src/services/riskFactorsService.ts:110 | an ascending sort returns a permutation in non-decreasing key order |
| Ranking.Take | backend/src/services/riskFactorsService.ts:54 | `LIMIT n` keeps the first min(n, length) rows |
| Ranking.TakeKeepsLargest | backend/src/services/riskFactorsService.ts:53-54 | limiting a descending list keeps it sorted, and no row dropped has a larger key than a row kept |
| Summary.QuarterOfMonth | backend/src/services/summaryService.ts:24-40 | months 1-12 map to quarters 1-4, and quarter q holds months 3q-2 to 3q |
| Summary.QuarterMonths | backend/src/services/summaryService.ts:128-143 | quarter q runs from month 3q-2 to month 3q, and both months map back to q; any other q is the fourth quarter |
| Summary.QuarterPeriod | backend/src/services/summaryService.ts:42-44 | a quarter starts on the first of its start month and ends after it starts |
| Summary.QuarterEndDay | backend/src/services/summaryService.ts:43-44 | the quarter's last day is the 31st in Q1 and Q4 and the 30th in Q2 and Q3, in every year |
| Summary.CurrentQuarter | backend/src/services/summaryService.ts:15-47 | the current quarter is this year's quarter of this month, and its range holds today |
| Summary.PreviousQuarter | backend/src/services/summaryService.ts:49-80 | the quarter before Q1 is Q4 of last year, and before any other quarter it is q-1 of the same year |
| Summary.PreviousQuarterAdjoins | backend/src/services/summaryService.ts:49-80 | the previous quarter ends the day before the quarter starts |
| Summary.SameQuarterLastYear | backend/src/services/summaryService.ts:82-107 | the same quarter last year ends before this quarter starts |
| Summary.FourQuartersBack | backend/src/services/summaryService.ts:49-107 | four steps back through the previous quarter reach exactly the same quarter last year |
| Summary.RevenueForPeriod | backend/src/services/summaryService.ts:109-123 | revenue is non-negative, and it is 0 when no deal was won with an amount inside the range |
| Summary.RevenueMonotone | backend/src/services/summaryService.ts:112-120 | widening the range never lowers revenue |
| Summary.RevenueIgnores | backend/src/services/summaryService.ts:115-119 | a deal that is not won, has no amount, or closed outside the range leaves revenue unchanged |
| Summary.QuarterMonthKeys | backend/src/services/summaryService.ts:145-148 | the loop yields the quarter's three month keys in order, and a key is listed exactly when it falls in the quarter |
| Summary.TargetSum | backend/src/services/summaryService.ts:151-157 | summing targets over months no row has gives 0 |
| Summary.MonthTarget | backend/src/services/summaryService.ts:151-157 | a month without a target row contributes 0 |
| Summary.TargetSumByMonth | backend/src/services/summaryService.ts:145-157 | with month as the table's key, summing the rows whose month is listed equals adding up each listed month's own target |
| Summary.TargetForQuarter | backend/src/services/summaryService.ts:125-158 | the quarter target is the sum of targets over exactly its three month keys, which is the three months' targets added up |
| Summary.Percentage | backend/src/services/summaryService.ts:164-165 | the change is `change / base * 100` when base > 0 and 0 otherwise, positive or negative exactly as the change is |
| Summary.GetSummary | backend/src/services/summaryService.ts:160-193 | revenue, target, gap = revenue - target and its percentage; YoY exactly when last year's revenue is positive, with value and percentage taken from that same branch |
| Drivers.QuarterRangeAgrees | backend/src/services/driversService.ts:10-37 | this service's quarter range equals the summary's current quarter for every date |
| Drivers.PipelineSize | backend/src/services/driversService.ts:44-52 | the pipeline is non-negative, and it is 0 when no open deal with an amount was created by the quarter's end |
| Drivers.WinPercent | backend/src/services/driversService.ts:65-66 | the win rate lies in [0, 100], is 0 exactly when nothing was won, and is 100 exactly when something was won and nothing lost |
| Drivers.WinRate | backend/src/services/driversService.ts:55-66 | the same bounds, over the deals won and lost inside the quarter |
| Drivers.AverageDealSize | backend/src/services/driversService.ts:69-78 | the average is 0 when no deal with an amount was won inside the quarter |
| Drivers.AverageDealSizeBounds | backend/src/services/driversService.ts:69-78 | the rounded average lies between the smallest and the largest amount won inside the quarter |
| Drivers.SalesCycleTime | backend/src/services/driversService.ts:81-94 | the cycle is 0 when no deal was won inside the quarter |
| Drivers.SalesCycleTimeBounds | backend/src/services/driversService.ts:81-94 | the rounded average cycle lies between the shortest and the longest cycle of a deal won inside the quarter |
| Drivers.GetDrivers | backend/src/services/driversService.ts:39-102 | each figure is taken over the current quarter's range; the win rate lies in [0, 100] and is 0 exactly when nothing was won; the pipeline, average deal size and sales cycle are 0 when no deal qualifies, and the pipeline is non-negative when amounts are |
| Drivers.WinRateIgnores | backend/src/services/driversService.ts:55-63 | a deal not closed inside the quarter does not move the win rate |
| Drivers.AverageDealSizeIgnores | backend/src/services/driversService.ts:69-76 | a deal not closed inside the quarter does not move the average deal size |
| Drivers.SalesCycleTimeIgnores | backend/src/services/driversService.ts:81-92 | a deal not closed inside the quarter does not move the sales cycle |
| Drivers.ClosedOutsideIgnored | backend/src/services/driversService.ts:55-94 | a deal closed outside the quarter, or never closed, moves none of the three quarter indicators |
| Drivers.ClosedDealNotInPipeline | backend/src/services/driversService.ts:44-50 | a closed deal never adds to the pipeline |
| RiskFactors.StaleRowOf | backend/src/services/riskFactorsService.ts:40-52 | a stale deal's reported age is today minus its creation day, at least 30, and exactly 30 only once time has passed today |
| RiskFactors.StaleRows | backend/src/services/riskFactorsService.ts:40-52 | the query's rows are exactly the open, priced deals older than 30 days |
| RiskFactors.StaleQuery | backend/src/services/riskFactorsService.ts:40-54 | min(20, n) rows of the n stale deals, oldest first, all stale, and all of them when n is at most 20 |
| RiskFactors.StaleListed | backend/src/services/riskFactorsService.ts:40-73 | when at most 20 deals are stale, the formatted list holds every one of them |
| RiskFactors.StaleLimitKeepsOldest | backend/src/services/riskFactorsService.ts:53-54 | no stale deal cut by the limit is older than one kept |
| RiskFactors.FormatStale | backend/src/services/riskFactorsService.ts:65-73 | the formatting map keeps length, order and every field |
| RiskFactors.StaleDeals | backend/src/services/riskFactorsService.ts:40-73 | min(20, n) entries for the n stale deals, by descending age, each an open priced deal older than 30 days with its whole-day age, and every stale deal listed when n is at most 20 |
| RiskFactors.ClosuresSplit | backend/src/services/riskFactorsService.ts:80-82 | won plus lost closures in the window equal all closures in the window |
| RiskFactors.RepRowOf | backend/src/services/riskFactorsService.ts:76-87 | a rep's closedWon + closedLost equals totalClosed |
| RiskFactors.RepRows | backend/src/services/riskFactorsService.ts:76-88 | the grouped rows are exactly the reps with at least five closures in the window |
| RiskFactors.WinRateHundredths | backend/src/services/riskFactorsService.ts:99-103 | the win rate in hundredths lies in 0..10000, is 0 when nothing was won and 10000 when everything was |
| RiskFactors.WinRateRounding | backend/src/services/riskFactorsService.ts:103 | the rate in hundredths is within half a unit of won * 10000 / total |
| RiskFactors.BelowThreshold | backend/src/services/riskFactorsService.ts:97-109 | the filter keeps exactly the formatted rows below 30% |
| RiskFactors.UnderperformingReps | backend/src/services/riskFactorsService.ts:76-110 | the list is ascending by win rate, and every entry is a real rep with at least five closures in 90 days and a win rate below 30% |
| RiskFactors.EveryUnderperformerListed | backend/src/services/riskFactorsService.ts:76-110 | every rep with at least five closures in 90 days and a win rate below 30% is listed (the list is not capped) |
| RiskFactors.WorstRepFirst | backend/src/services/riskFactorsService.ts:97-110 | the first entry has the lowest win rate, below 30%, and at least five closures |
| RiskFactors.FewClosuresNeverListed | backend/src/services/riskFactorsService.ts:84-88 | a rep with fewer than five closures in the window, including none, never appears |
| RiskFactors.LastActivity | backend/src/services/riskFactorsService.ts:119-123 | `MAX(act.timestamp)` over the account's open deals is absent exactly when there is no such activity, and otherwise is the latest such activity |
| RiskFactors.AccountRows | backend/src/services/riskFactorsService.ts:113-127 | the grouped rows are exactly the accounts with an open deal whose last activity is absent or more than 30 days old |
| RiskFactors.AccountQuery | backend/src/services/riskFactorsService.ts:113-129 | min(20, n) rows of the n dormant accounts, by descending open-deal count, all dormant, and all of them when n is at most 20 |
| RiskFactors.AccountsListed | backend/src/services/riskFactorsService.ts:113-150 | when at most 20 accounts are dormant, the formatted list holds every one of them |
| RiskFactors.AccountLimitKeepsBusiest | backend/src/services/riskFactorsService.ts:128-129 | no account cut by the limit has more open deals than one kept |
| RiskFactors.DaysSinceLastActivity | backend/src/services/riskFactorsService.ts:139-141 | 999 when there was no activity; otherwise the rounded day difference, which is at least 30 for an account listed as inactive |
| RiskFactors.SentinelAlsoMeasured | backend/src/services/riskFactorsService.ts:139-141 | an activity exactly 999 days old, read before midday, also reports 999 |
| RiskFactors.FormatAccounts | backend/src/services/riskFactorsService.ts:138-150 | the formatting map keeps length and order and computes each entry's day count |
| RiskFactors.LowActivityAccounts | backend/src/services/riskFactorsService.ts:113-150 | min(20, n) entries for the n dormant accounts, by descending open deals, each an account with at least one open deal and either 999 days (never active) or more than 30 days since its last activity, and every dormant account listed when n is at most 20 |
| RiskFactors.GetRiskFactors | backend/src/services/riskFactorsService.ts:36-157 | the stale-deal and low-activity lists hold at most 20 entries each |
| Recommendations.SegmentOf | backend/src/services/recommendationsService.ts:19-20 | the account lookup gives the first matching account's segment, and nothing for a dangling id |
| Recommendations.EnterpriseStaleCount | backend/src/services/recommendationsService.ts:18-21 | the Enterprise filter is 0 exactly when no stale deal belongs to an Enterprise account |
| Recommendations.StaleRule | backend/src/services/recommendationsService.ts:17-38 | one high item exactly when a stale deal is Enterprise or there are more than five; it carries the Enterprise count, and otherwise the stale count |
| Recommendations.CoachingRule | backend/src/services/recommendationsService.ts:41-49 | one high item exactly when some rep underperforms, naming the first rep with its rate and counts |
| Recommendations.CoachesWorstRep | backend/src/services/recommendationsService.ts:41-49 | the coached rep has the lowest win rate of the list, below 30%, with at least five closures |
| Recommendations.SeenSegments | backend/src/services/recommendationsService.ts:53-58 | the tally's keys are distinct and cover every account's segment |
| Recommendations.SeenFromAccounts | backend/src/services/recommendationsService.ts:53-56 | every key of the tally is some account's segment |
| Recommendations.SeenInFirstSeenOrder | backend/src/services/recommendationsService.ts:53-58 | of any two tally keys, an account carries the earlier key before any account carries the later one: insertion order |
| Recommendations.SegmentCount | backend/src/services/recommendationsService.ts:53-56 | a segment's count is 0 exactly when no listed account is in it |
| Recommendations.SegmentCounts | backend/src/services/recommendationsService.ts:53-56 | the tally has an entry for exactly the segments seen, holding each one's account count |
| Recommendations.Bump | backend/src/services/recommendationsService.ts:54 | `acc[s] = (acc[s] or 0) + 1` adds one to s, creating it if needed, and changes no other entry |
| Recommendations.CountsSnoc | backend/src/services/recommendationsService.ts:53-56 | one more account bumps its segment's entry in the tally |
| Recommendations.TallyStep | backend/src/services/recommendationsService.ts:53-56 | each step of the reduce turns the tally of a prefix into the tally of the next prefix |
| Recommendations.CountBySegment | backend/src/services/recommendationsService.ts:53-56 | the reduce loop builds exactly the segment keys and the counts of the tally |
| Recommendations.TopIndex | backend/src/services/recommendationsService.ts:58 | the top entry after the stable descending sort has the largest count, and no earlier key has as many |
| Recommendations.ActivityRule | backend/src/services/recommendationsService.ts:52-68 | one medium item exactly when some account is inactive, naming a segment with the largest count (ties go to the first seen) and that count |
| Recommendations.TiesGoToFirstSeen | backend/src/services/recommendationsService.ts:53-58 | any other segment with the top count was first seen after the segment the campaign names |
| Recommendations.OpenPipeline | backend/src/services/recommendationsService.ts:71-76 | the rule's pipeline over all open deals is non-negative |
| Recommendations.MonthRevenue | backend/src/services/recommendationsService.ts:78-83 | this month's won revenue is non-negative |
| Recommendations.CoverageRule | backend/src/services/recommendationsService.ts:89-97 | one medium item exactly when 0 < pipeline < 3 x this month's revenue, quoting the pipeline in rounded thousands |
| Recommendations.PipelineCoversQuarterPipeline | backend/src/services/recommendationsService.ts:71-76 | without a creation bound, this pipeline is never smaller than the drivers' pipeline |
| Recommendations.DealSizeRule | backend/src/services/recommendationsService.ts:108-118 | one low item exactly when both averages are positive and the open one is below 0.7 of the won one, with open <= won quoted |
| Recommendations.LargerDealsNeedsSmallOpenDeal | backend/src/services/recommendationsService.ts:100-118 | when the deal-size rule fires, some open deal is below 0.7 of the average won deal |
| Recommendations.TiersOrdered | backend/src/services/recommendationsService.ts:14-118 | rules pushed in order (high, high, medium, medium, low) leave priorities non-increasing |
| Recommendations.Rules | backend/src/services/recommendationsService.ts:14-118 | the five rules give at most five items, high before medium before low |
| Recommendations.FinishKeepsOrder | backend/src/services/recommendationsService.ts:120-130 | the filler adds one item exactly when fewer than three fired; the slice drops nothing, and the order is kept |
| Recommendations.CollectRuleItems | backend/src/services/recommendationsService.ts:14-118 | the pushes of the five rules build exactly the rules' items in rule order |
| Recommendations.GetRecommendations | backend/src/services/recommendationsService.ts:11-131 | 1 to 5 items, ordered by priority, equal to the rules' items with the filler and the slice |
| Recommendations.EmptyStoreGetsOne | backend/src/services/recommendationsService.ts:120-128 | with no data, the list is the single filler item, short of the three intended |
| Recommendations.FinishPadded | backend/src/services/recommendationsService.ts:120-130 | padding until three items gives 3 to 5 items that keep the rules' items in front, followed only by fillers |
| Recommendations.FinishPaddedKeepsOrder | backend/src/services/recommendationsService.ts:120-130 | padding keeps priorities non-increasing |
| Recommendations.GetRecommendationsPadded | backend/src/services/recommendationsService.ts:120-130 | the corrected list has 3 to 5 items, ordered by priority |

## Left out

- Database I/O, the connection singleton and the HTTP layer. The tables are a `Tables.Store` value passed in.
- The wall clock is a `Calendar.Clock` parameter.
- Time zones. JavaScript's local calendar and SQLite's UTC calendar are taken to agree. Stored dates are whole days.
- ISO date strings, `padStart` and parsing. Dates are day numbers and compare as the strings do.
- Floating point. Averages and percentages are exact reals. The 0.7 factor is exactly 7/10. The rep win rate is integer hundredths of a percent.
- Rounding to two decimals in floating point is not modelled, nor is `toFixed`.
- Amounts are whole numbers of currency units.
- A NULL stage, a NULL segment and a NULL creation date are not modelled.
- Recommendation text. Each item keeps its priority and the figures and names its text quotes.
- `lastMonthRevenue` in the recommendations service is computed but never used, so it is not modelled.
- The order of `Object.entries` is insertion order, which JavaScript breaks for integer-like keys. Segment names are taken not to look like integers.
- Ranking.SortDesc: stability (rows with equal keys keep their input order) is not stated. Only order and permutation are.
- Ranking.SortAsc: stability (reps with equal win rates keep their row order) is not stated. Only order and permutation are. This does not change which rate the coached rep has, only which of several tied reps is named.
- Keys are taken to be unique: `deal_id`, `rep_id` and `account_id` are primary keys in backend/src/db/database.ts:39-51. Under that, `COUNT(DISTINCT d.deal_id)` is the plain count `RiskFactors.OpenDealCount`, and each `GROUP BY` group is one rep or account row (`RiskFactors.RepRows`, `RiskFactors.AccountRows`). `Tables.Store` does not carry the uniqueness invariant, and tables with repeated ids are not modelled.
- RiskFactors.WinRateHundredths: its contract states only the range and the two end cases. The rounding relation is stated by RiskFactors.WinRateRounding.
- RiskFactors.GetRiskFactors: its contract states only the length caps. Each list's contents and order are stated by RiskFactors.StaleDeals, RiskFactors.UnderperformingReps and RiskFactors.LowActivityAccounts.

## Findings

| source | as written | input that shows it | evidently intended | confidence | as-written member | corrected member |
|---|---|---|---|---|---|---|
| backend/src/services/recommendationsService.ts:120-128 | when fewer than three rules fire, exactly one filler item is pushed | an empty store: no rule fires, so the list holds a single item | "Ensure we have at least 3 recommendations": pad until three items | not executed | Recommendations.EmptyStoreGetsOne | Recommendations.GetRecommendationsPadded |
