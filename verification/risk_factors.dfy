/**
 * The three risk detectors: stale open deals, underperforming reps and
 * accounts with open deals but no recent activity.
 */
module RiskFactors {
  import opened Numeric
  import opened Calendar
  import opened Tables
  import opened Ranking

  /** An open deal is stale after this many days. */
  const StaleAfterDays: int := 30
  /** Longest stale-deal and low-activity lists. */
  const ListLimit: nat := 20
  /** The trailing window, in days, over which a rep's closures are counted. */
  const RepWindowDays: int := 90
  /** Fewest closures in the window for a rep to be scored at all. */
  const MinClosures: nat := 5
  /** A rep is underperforming below a 30.00% win rate, kept in hundredths of a percent. */
  const WinRateThreshold: int := 3000
  /** An account is inactive after this many days without activity. */
  const InactiveAfterDays: int := 30
  /** Days reported for an account that never had any activity. */
  const NeverActive: int := 999

  datatype StaleDeal = StaleDeal(
    dealId: string,
    accountId: string,
    repId: string,
    amount: int,
    stage: string,
    daysSinceUpdate: int,
    createdAt: int)

  /** `winRate` is in hundredths of a percent: 1667 stands for 16.67%. */
  datatype UnderperformingRep = UnderperformingRep(
    repId: string,
    name: string,
    winRate: int,
    totalDeals: nat,
    closedWon: nat,
    closedLost: nat)

  datatype LowActivityAccount = LowActivityAccount(
    accountId: string,
    name: string,
    segment: string,
    daysSinceLastActivity: int,
    openDeals: nat)

  datatype RiskFactorsReport = RiskFactorsReport(
    staleDeals: seq<StaleDeal>,
    underperformingReps: seq<UnderperformingRep>,
    lowActivityAccounts: seq<LowActivityAccount>)

  // ---------------------------------------------------------------- stale deals

  /** A row of the stale-deal query. */
  datatype StaleRow = StaleRow(
    dealId: string,
    accountId: string,
    repId: string,
    amount: int,
    stage: string,
    createdAt: int,
    daysSinceUpdate: int)

  /** An open deal with an amount, created more than 30 days before now. */
  predicate IsStale(d: Deal, now: Clock)
    requires now.Valid()
  {
    d.stage.Open? && d.amount.Some? && Elapsed(now, d.createdAt) > StaleAfterDays as real
  }

  /** The query row of a stale deal; its age is the whole number of days since creation. */
  function StaleRowOf(d: Deal, now: Clock): (r: StaleRow)
    requires now.Valid() && IsStale(d, now)
    ensures r.daysSinceUpdate == now.Today() - d.createdAt >= StaleAfterDays
    ensures r.daysSinceUpdate == StaleAfterDays ==> now.millis > 0
  {
    ElapsedExceeds(now, d.createdAt, StaleAfterDays);
    ElapsedTruncated(now, d.createdAt);
    StaleRow(d.dealId, d.accountId, d.repId, d.amount.value, d.stage.name, d.createdAt,
             Trunc(Elapsed(now, d.createdAt)))
  }

  /** The stale deals, in table order. */
  function StaleRows(deals: seq<Deal>, now: Clock): (rows: seq<StaleRow>)
    requires now.Valid()
    ensures forall r | r in rows :: exists d | d in deals :: IsStale(d, now) && r == StaleRowOf(d, now)
    ensures forall d | d in deals && IsStale(d, now) :: StaleRowOf(d, now) in rows
  {
    if deals == [] then []
    else
      var rest := StaleRows(deals[1..], now);
      assert forall d | d in deals[1..] :: d in deals;
      assert forall d | d in deals :: d == deals[0] || d in deals[1..];
      if IsStale(deals[0], now) then [StaleRowOf(deals[0], now)] + rest else rest
  }

  function DaysKey(r: StaleRow): int {
    r.daysSinceUpdate
  }

  /** `ORDER BY days_since_update DESC LIMIT 20`. */
  function StaleQuery(deals: seq<Deal>, now: Clock): (rows: seq<StaleRow>)
    requires now.Valid()
    ensures |rows| <= ListLimit
    ensures SortedDesc(rows, DaysKey)
    ensures forall r | r in rows :: r in StaleRows(deals, now)
    ensures |rows| == if |StaleRows(deals, now)| <= ListLimit then |StaleRows(deals, now)| else ListLimit
    ensures |StaleRows(deals, now)| <= ListLimit ==> multiset(rows) == multiset(StaleRows(deals, now))
  {
    var sorted := SortDesc(StaleRows(deals, now), DaysKey);
    assert |multiset(sorted)| == |multiset(StaleRows(deals, now))|;
    TakeKeepsLargest(sorted, ListLimit, DaysKey);
    var rows := Take(sorted, ListLimit);
    assert forall r | r in rows :: r in sorted by {
      assert rows == sorted[..|rows|];
    }
    assert forall r | r in sorted :: r in multiset(sorted);
    rows
  }

  /** Only the oldest stale deals are cut by the limit. */
  lemma StaleLimitKeepsOldest(deals: seq<Deal>, now: Clock)
    requires now.Valid()
    ensures var sorted := SortDesc(StaleRows(deals, now), DaysKey);
            forall i, j | 0 <= i < |StaleQuery(deals, now)| <= j < |sorted| ::
              sorted[j].daysSinceUpdate <= StaleQuery(deals, now)[i].daysSinceUpdate
  {
    var sorted := SortDesc(StaleRows(deals, now), DaysKey);
    TakeKeepsLargest(sorted, ListLimit, DaysKey);
  }

  function StaleDealOf(r: StaleRow): StaleDeal {
    StaleDeal(r.dealId, r.accountId, r.repId, r.amount, r.stage, r.daysSinceUpdate, r.createdAt)
  }

  /** The response records of the query rows, in the same order. */
  function FormatStale(rows: seq<StaleRow>): (out: seq<StaleDeal>)
    ensures |out| == |rows|
    ensures forall i | 0 <= i < |rows| ::
      && out[i].dealId == rows[i].dealId && out[i].accountId == rows[i].accountId
      && out[i].repId == rows[i].repId && out[i].amount == rows[i].amount
      && out[i].stage == rows[i].stage && out[i].daysSinceUpdate == rows[i].daysSinceUpdate
      && out[i].createdAt == rows[i].createdAt
  {
    if rows == [] then [] else [StaleDealOf(rows[0])] + FormatStale(rows[1..])
  }

  /** The stale-deal list of the response. */
  function StaleDeals(deals: seq<Deal>, now: Clock): (out: seq<StaleDeal>)
    requires now.Valid()
    ensures |out| <= ListLimit
    ensures forall i, j | 0 <= i < j < |out| :: out[i].daysSinceUpdate >= out[j].daysSinceUpdate
    ensures forall i | 0 <= i < |out| :: exists d | d in deals ::
      && d.stage.Open? && d.amount.Some? && Elapsed(now, d.createdAt) > StaleAfterDays as real
      && out[i] == StaleDeal(d.dealId, d.accountId, d.repId, d.amount.value, d.stage.name,
                             now.Today() - d.createdAt, d.createdAt)
    ensures |out| == if |StaleRows(deals, now)| <= ListLimit then |StaleRows(deals, now)| else ListLimit
    ensures |StaleRows(deals, now)| <= ListLimit ==>
      forall d | d in deals && IsStale(d, now) :: StaleDealOf(StaleRowOf(d, now)) in out
  {
    var rows := StaleQuery(deals, now);
    var out := FormatStale(rows);
    assert forall i | 0 <= i < |out| :: out[i] == StaleDealOf(rows[i]);
    assert forall i | 0 <= i < |rows| :: rows[i] in StaleRows(deals, now);
    StaleListed(deals, now);
    out
  }

  /** Below the limit, the formatted query lists every stale deal. */
  lemma StaleListed(deals: seq<Deal>, now: Clock)
    requires now.Valid()
    ensures |StaleRows(deals, now)| <= ListLimit ==>
      forall d | d in deals && IsStale(d, now) :: StaleDealOf(StaleRowOf(d, now)) in FormatStale(StaleQuery(deals, now))
  {
    var rows := StaleQuery(deals, now);
    var out := FormatStale(rows);
    if |StaleRows(deals, now)| <= ListLimit {
      forall d | d in deals && IsStale(d, now)
        ensures StaleDealOf(StaleRowOf(d, now)) in out
      {
        var r := StaleRowOf(d, now);
        assert r in multiset(StaleRows(deals, now));
        assert r in multiset(rows);
        var i :| 0 <= i < |rows| && rows[i] == r;
        assert out[i] == StaleDealOf(r);
      }
    }
  }

  // ------------------------------------------------------- underperforming reps

  /** A deal of rep `repId` closed (won or lost) on or after day `since`. */
  predicate RecentClosure(d: Deal, repId: string, since: int) {
    d.repId == repId && !d.stage.Open? && d.closedAt.Some? && d.closedAt.value >= since
  }

  function RecentWon(d: Deal, repId: string, since: int): Option<int> {
    if RecentClosure(d, repId, since) && d.stage == ClosedWon then Some(1) else None
  }

  function RecentLost(d: Deal, repId: string, since: int): Option<int> {
    if RecentClosure(d, repId, since) && d.stage == ClosedLost then Some(1) else None
  }

  function RecentClosed(d: Deal, repId: string, since: int): Option<int> {
    if RecentClosure(d, repId, since) then Some(1) else None
  }

  function WonCount(deals: seq<Deal>, repId: string, since: int): nat {
    Count(deals, d => RecentWon(d, repId, since))
  }

  function LostCount(deals: seq<Deal>, repId: string, since: int): nat {
    Count(deals, d => RecentLost(d, repId, since))
  }

  function ClosedCount(deals: seq<Deal>, repId: string, since: int): nat {
    Count(deals, d => RecentClosed(d, repId, since))
  }

  /** Every closure is either won or lost. */
  lemma {:induction false} ClosuresSplit(deals: seq<Deal>, repId: string, since: int)
    ensures WonCount(deals, repId, since) + LostCount(deals, repId, since) == ClosedCount(deals, repId, since)
  {
    if deals != [] {
      ClosuresSplit(deals[1..], repId, since);
    }
  }

  /** A row of the rep query: one per rep, with the closures in the window. */
  datatype RepRow = RepRow(repId: string, name: string, closedWon: nat, closedLost: nat, totalClosed: nat)

  function RepRowOf(rep: Rep, deals: seq<Deal>, since: int): (r: RepRow)
    ensures r.closedWon + r.closedLost == r.totalClosed
  {
    ClosuresSplit(deals, rep.repId, since);
    RepRow(rep.repId, rep.name, WonCount(deals, rep.repId, since), LostCount(deals, rep.repId, since),
           ClosedCount(deals, rep.repId, since))
  }

  /** The reps with at least five closures in the window (`HAVING total_closed >= 5`), in table order. */
  function RepRows(reps: seq<Rep>, deals: seq<Deal>, since: int): (rows: seq<RepRow>)
    ensures forall r | r in rows ::
      (r.totalClosed >= MinClosures && exists rep | rep in reps :: r == RepRowOf(rep, deals, since))
    ensures forall rep | rep in reps && ClosedCount(deals, rep.repId, since) >= MinClosures ::
      RepRowOf(rep, deals, since) in rows
  {
    if reps == [] then []
    else
      var rest := RepRows(reps[1..], deals, since);
      var row := RepRowOf(reps[0], deals, since);
      assert forall rep | rep in reps[1..] :: rep in reps;
      assert forall rep | rep in reps :: rep == reps[0] || rep in reps[1..];
      if row.totalClosed >= MinClosures then [row] + rest else rest
  }

  /** `Math.round(won / total * 100 * 100)`: the win rate in hundredths of a percent, 0 without closures. */
  function WinRateHundredths(won: nat, total: nat): (h: int)
    requires won <= total
    ensures 0 <= h <= 10000
    ensures won == 0 ==> h == 0
    ensures 0 < won == total ==> h == 10000
  {
    if total > 0 then
      var x := (won * 10000) as real / total as real;
      QuotientAtLeast(won * 10000, total, if won == total then 10000 else 0);
      QuotientAtMost(won * 10000, total, if won == 0 then 0 else 10000);
      RoundBetween(x, 0, 10000);
      Round(x)
    else 0
  }

  /** The win rate in hundredths is the exact ratio rounded to the nearest hundredth of a percent. */
  lemma WinRateRounding(won: nat, total: nat)
    requires won <= total && total > 0
    ensures var h := WinRateHundredths(won, total);
            h as real - 0.5 <= (won * 10000) as real / total as real < h as real + 0.5
  {
  }

  function FormatRep(row: RepRow): (u: UnderperformingRep)
    requires row.closedWon <= row.totalClosed
  {
    UnderperformingRep(row.repId, row.name, WinRateHundredths(row.closedWon, row.totalClosed),
                       row.totalClosed, row.closedWon, row.closedLost)
  }

  /** Rows whose win counts are consistent with their totals. */
  predicate Consistent(rows: seq<RepRow>) {
    forall r | r in rows :: r.closedWon + r.closedLost == r.totalClosed
  }

  /** `.map(...)` to response records, then `.filter(rep => rep.winRate < 30)`. */
  function BelowThreshold(rows: seq<RepRow>): (out: seq<UnderperformingRep>)
    requires Consistent(rows)
    ensures forall u | u in out :: u.winRate < WinRateThreshold
    ensures forall u | u in out :: exists r | r in rows :: u == FormatRep(r)
    ensures forall r | r in rows :: FormatRep(r).winRate < WinRateThreshold ==> FormatRep(r) in out
  {
    if rows == [] then []
    else
      var rest := BelowThreshold(rows[1..]);
      var u := FormatRep(rows[0]);
      assert forall r | r in rows[1..] :: r in rows;
      assert forall r | r in rows :: r == rows[0] || r in rows[1..];
      if u.winRate < WinRateThreshold then [u] + rest else rest
  }

  function WinRateKey(u: UnderperformingRep): int {
    u.winRate
  }

  /**
   * The underperforming reps, worst first: every rep with at least five
   * closures in the window and a win rate under 30%, not capped.
   */
  function UnderperformingReps(reps: seq<Rep>, deals: seq<Deal>, now: Clock): (out: seq<UnderperformingRep>)
    requires now.Valid()
    ensures SortedAsc(out, WinRateKey)
    ensures forall u | u in out :: Underperforms(u, reps, deals, now.Today() - RepWindowDays)
  {
    var since := now.Today() - RepWindowDays;
    var rows := RepRows(reps, deals, since);
    var below := BelowThreshold(rows);
    var out := SortAsc(below, WinRateKey);
    assert forall u | u in below :: u in multiset(out);
    assert forall u | u in out :: u in multiset(below);
    forall u | u in below
      ensures Underperforms(u, reps, deals, since)
    {
      var r :| r in rows && u == FormatRep(r);
      RowUnderperforms(r, reps, deals, since);
    }
    out
  }

  /** Every rep with at least five closures in the window and a win rate under 30% is listed. */
  lemma EveryUnderperformerListed(reps: seq<Rep>, deals: seq<Deal>, now: Clock, rep: Rep)
    requires now.Valid() && rep in reps
    requires ClosedCount(deals, rep.repId, now.Today() - RepWindowDays) >= MinClosures
    requires FormatRep(RepRowOf(rep, deals, now.Today() - RepWindowDays)).winRate < WinRateThreshold
    ensures FormatRep(RepRowOf(rep, deals, now.Today() - RepWindowDays)) in UnderperformingReps(reps, deals, now)
  {
    var since := now.Today() - RepWindowDays;
    var rows := RepRows(reps, deals, since);
    var below := BelowThreshold(rows);
    assert FormatRep(RepRowOf(rep, deals, since)) in below;
    assert FormatRep(RepRowOf(rep, deals, since)) in multiset(SortAsc(below, WinRateKey));
  }

  lemma RowUnderperforms(r: RepRow, reps: seq<Rep>, deals: seq<Deal>, since: int)
    requires r.totalClosed >= MinClosures
    requires exists rep | rep in reps :: r == RepRowOf(rep, deals, since)
    requires r.closedWon <= r.totalClosed && FormatRep(r).winRate < WinRateThreshold
    ensures Underperforms(FormatRep(r), reps, deals, since)
  {
    var rep :| rep in reps && r == RepRowOf(rep, deals, since);
  }

  /**
   * `u` scores a rep of the table over the closures since day `since`: at
   * least five of them, its won and lost counts, and a win rate, below 30%,
   * that is their ratio.
   */
  predicate Underperforms(u: UnderperformingRep, reps: seq<Rep>, deals: seq<Deal>, since: int) {
    && u.winRate < WinRateThreshold
    && u.totalDeals >= MinClosures
    && u.closedWon + u.closedLost == u.totalDeals
    && u.totalDeals == ClosedCount(deals, u.repId, since)
    && u.closedWon == WonCount(deals, u.repId, since)
    && u.winRate == WinRateHundredths(u.closedWon, u.totalDeals)
    && exists rep | rep in reps :: rep.repId == u.repId && rep.name == u.name
  }

  /**
   * In a list of underperformers sorted by win rate, the head has the lowest
   * win rate, under 30%, over at least five closures, and names a rep of the
   * table.
   */
  lemma WorstRepFirst(listed: seq<UnderperformingRep>, reps: seq<Rep>, deals: seq<Deal>, since: int)
    requires |listed| > 0 && SortedAsc(listed, WinRateKey)
    requires forall u | u in listed :: Underperforms(u, reps, deals, since)
    ensures forall u | u in listed :: listed[0].winRate <= u.winRate
    ensures listed[0].winRate < WinRateThreshold && listed[0].totalDeals >= MinClosures
    ensures exists rep | rep in reps :: rep.name == listed[0].name
  {
    var worst := listed[0];
    assert worst in listed;
    assert Underperforms(worst, reps, deals, since);
    forall u | u in listed
      ensures worst.winRate <= u.winRate
    {
      var k :| 0 <= k < |listed| && listed[k] == u;
      if k > 0 {
        assert WinRateKey(listed[0]) <= WinRateKey(listed[k]);
      }
    }
  }

  /** A rep with fewer than five closures in the window never appears in a list of underperformers. */
  lemma FewClosuresNeverListed(listed: seq<UnderperformingRep>, reps: seq<Rep>, deals: seq<Deal>, since: int, repId: string)
    requires forall u | u in listed :: Underperforms(u, reps, deals, since)
    requires ClosedCount(deals, repId, since) < MinClosures
    ensures forall u | u in listed :: u.repId != repId
  {
    forall u | u in listed
      ensures u.repId != repId
    {
      assert Underperforms(u, reps, deals, since);
    }
  }

  // ---------------------------------------------------- low-activity accounts

  function OpenDealOf(d: Deal, accountId: string): Option<int> {
    if d.accountId == accountId && d.stage.Open? then Some(1) else None
  }

  /** The account's open deals; closed deals are not counted. */
  function OpenDealCount(deals: seq<Deal>, accountId: string): nat {
    Count(deals, d => OpenDealOf(d, accountId))
  }

  /** Deal `dealId` is an open deal of the account. */
  predicate IsOpenDealOf(deals: seq<Deal>, accountId: string, dealId: string) {
    exists d | d in deals :: d.dealId == dealId && d.accountId == accountId && d.stage.Open?
  }

  /** `MAX(act.timestamp)` over the activities on the account's open deals; None when there are none. */
  function LastActivity(acts: seq<Activity>, deals: seq<Deal>, accountId: string): (r: Option<int>)
    ensures r.None? <==> forall a | a in acts :: !IsOpenDealOf(deals, accountId, a.dealId)
    ensures r.Some? ==> exists a | a in acts :: IsOpenDealOf(deals, accountId, a.dealId) && a.timestamp == r.value
    ensures r.Some? ==> forall a | a in acts && IsOpenDealOf(deals, accountId, a.dealId) :: a.timestamp <= r.value
  {
    if acts == [] then None
    else
      var rest := LastActivity(acts[1..], deals, accountId);
      assert forall a | a in acts[1..] :: a in acts;
      assert forall a | a in acts :: a == acts[0] || a in acts[1..];
      if !IsOpenDealOf(deals, accountId, acts[0].dealId) then rest
      else if rest.None? || rest.value < acts[0].timestamp then Some(acts[0].timestamp)
      else rest
  }

  /** A row of the account query: one per account. */
  datatype AccountRow = AccountRow(
    accountId: string,
    name: string,
    segment: string,
    openDeals: nat,
    lastActivity: Option<int>)

  function AccountRowOf(a: Account, store: Store): AccountRow {
    AccountRow(a.accountId, a.name, a.segment, OpenDealCount(store.deals, a.accountId),
               LastActivity(store.activities, store.deals, a.accountId))
  }

  /** At least one open deal, and no activity on them, or none within the last 30 days. */
  predicate IsDormant(row: AccountRow, now: Clock)
    requires now.Valid()
  {
    row.openDeals > 0
    && (row.lastActivity.None? || Elapsed(now, row.lastActivity.value) > InactiveAfterDays as real)
  }

  /** The dormant accounts, in table order. */
  function AccountRows(accounts: seq<Account>, store: Store, now: Clock): (rows: seq<AccountRow>)
    requires now.Valid()
    ensures forall r | r in rows :: IsDormant(r, now) && exists a | a in accounts :: r == AccountRowOf(a, store)
    ensures forall a | a in accounts && IsDormant(AccountRowOf(a, store), now) :: AccountRowOf(a, store) in rows
  {
    if accounts == [] then []
    else
      var rest := AccountRows(accounts[1..], store, now);
      var row := AccountRowOf(accounts[0], store);
      assert forall a | a in accounts[1..] :: a in accounts;
      assert forall a | a in accounts :: a == accounts[0] || a in accounts[1..];
      if IsDormant(row, now) then [row] + rest else rest
  }

  function OpenDealsKey(r: AccountRow): int {
    r.openDeals
  }

  /** `ORDER BY open_deals DESC LIMIT 20`. */
  function AccountQuery(store: Store, now: Clock): (rows: seq<AccountRow>)
    requires now.Valid()
    ensures |rows| <= ListLimit
    ensures SortedDesc(rows, OpenDealsKey)
    ensures forall r | r in rows :: r in AccountRows(store.accounts, store, now)
    ensures |AccountRows(store.accounts, store, now)| <= ListLimit ==>
      multiset(rows) == multiset(AccountRows(store.accounts, store, now))
    ensures |rows| == if |AccountRows(store.accounts, store, now)| <= ListLimit
                      then |AccountRows(store.accounts, store, now)| else ListLimit
  {
    var sorted := SortDesc(AccountRows(store.accounts, store, now), OpenDealsKey);
    assert |multiset(sorted)| == |multiset(AccountRows(store.accounts, store, now))|;
    TakeKeepsLargest(sorted, ListLimit, OpenDealsKey);
    var rows := Take(sorted, ListLimit);
    assert forall r | r in rows :: r in sorted by {
      assert rows == sorted[..|rows|];
    }
    assert forall r | r in sorted :: r in multiset(sorted);
    rows
  }

  /** Only the accounts with the fewest open deals are cut by the limit. */
  lemma AccountLimitKeepsBusiest(store: Store, now: Clock)
    requires now.Valid()
    ensures var sorted := SortDesc(AccountRows(store.accounts, store, now), OpenDealsKey);
            forall i, j | 0 <= i < |AccountQuery(store, now)| <= j < |sorted| ::
              sorted[j].openDeals <= AccountQuery(store, now)[i].openDeals
  {
    var sorted := SortDesc(AccountRows(store.accounts, store, now), OpenDealsKey);
    TakeKeepsLargest(sorted, ListLimit, OpenDealsKey);
  }

  /** Days since the last activity, rounded; 999 when there never was any. */
  function DaysSinceLastActivity(last: Option<int>, now: Clock): (days: int)
    requires now.Valid()
    ensures last.None? ==> days == NeverActive
    ensures last.Some? ==> days == now.Today() - last.value + (if 2 * now.millis >= MillisPerDay then 1 else 0)
    ensures last.Some? && Elapsed(now, last.value) > InactiveAfterDays as real ==> days >= InactiveAfterDays
  {
    if last.None? then NeverActive
    else
      ElapsedRounded(now, last.value);
      ElapsedExceeds(now, last.value, InactiveAfterDays);
      Round(Elapsed(now, last.value))
  }

  /**
   * The 999 sentinel is not exclusive to accounts without activity: an
   * activity 999 days old, read before midday, reports the same figure.
   */
  lemma SentinelAlsoMeasured(now: Clock)
    requires now.Valid() && 2 * now.millis < MillisPerDay
    ensures DaysSinceLastActivity(Some(now.Today() - NeverActive), now) == NeverActive
    ensures DaysSinceLastActivity(None, now) == NeverActive
  {
  }

  function AccountEntryOf(r: AccountRow, now: Clock): LowActivityAccount
    requires now.Valid()
  {
    LowActivityAccount(r.accountId, r.name, r.segment, DaysSinceLastActivity(r.lastActivity, now), r.openDeals)
  }

  function FormatAccounts(rows: seq<AccountRow>, now: Clock): (out: seq<LowActivityAccount>)
    requires now.Valid()
    ensures |out| == |rows|
    ensures forall i | 0 <= i < |rows| :: out[i] == AccountEntryOf(rows[i], now)
  {
    if rows == [] then [] else [AccountEntryOf(rows[0], now)] + FormatAccounts(rows[1..], now)
  }

  /** The low-activity list of the response. */
  function LowActivityAccounts(store: Store, now: Clock): (out: seq<LowActivityAccount>)
    requires now.Valid()
    ensures |out| <= ListLimit
    ensures forall i, j | 0 <= i < j < |out| :: out[i].openDeals >= out[j].openDeals
    ensures forall i | 0 <= i < |out| :: exists a | a in store.accounts :: Reports(out[i], a, store, now)
    ensures |out| == if |AccountRows(store.accounts, store, now)| <= ListLimit
                     then |AccountRows(store.accounts, store, now)| else ListLimit
    ensures |AccountRows(store.accounts, store, now)| <= ListLimit ==>
      forall a | a in store.accounts && IsDormant(AccountRowOf(a, store), now) ::
        AccountEntryOf(AccountRowOf(a, store), now) in out
  {
    var rows := AccountQuery(store, now);
    var out := FormatAccounts(rows, now);
    AccountsListed(store, now);
    forall i | 0 <= i < |out|
      ensures exists a | a in store.accounts :: Reports(out[i], a, store, now)
    {
      assert rows[i] in AccountRows(store.accounts, store, now);
      var a :| a in store.accounts && rows[i] == AccountRowOf(a, store);
      assert Reports(out[i], a, store, now);
    }
    out
  }

  /** Below the limit, the formatted query lists every dormant account. */
  lemma AccountsListed(store: Store, now: Clock)
    requires now.Valid()
    ensures |AccountRows(store.accounts, store, now)| <= ListLimit ==>
      forall a | a in store.accounts && IsDormant(AccountRowOf(a, store), now) ::
        AccountEntryOf(AccountRowOf(a, store), now) in FormatAccounts(AccountQuery(store, now), now)
  {
    var rows := AccountQuery(store, now);
    var out := FormatAccounts(rows, now);
    if |AccountRows(store.accounts, store, now)| <= ListLimit {
      forall a | a in store.accounts && IsDormant(AccountRowOf(a, store), now)
        ensures AccountEntryOf(AccountRowOf(a, store), now) in out
      {
        var r := AccountRowOf(a, store);
        assert r in multiset(AccountRows(store.accounts, store, now));
        assert r in multiset(rows);
        var i :| 0 <= i < |rows| && rows[i] == r;
        assert out[i] == AccountEntryOf(r, now);
      }
    }
  }

  /**
   * `e` reports account `a`: its identity, its open-deal count (at least one),
   * and either no activity on its open deals (999 days) or none for over 30
   * days.
   */
  predicate Reports(e: LowActivityAccount, a: Account, store: Store, now: Clock)
    requires now.Valid()
  {
    var last := LastActivity(store.activities, store.deals, a.accountId);
    && e.accountId == a.accountId && e.name == a.name && e.segment == a.segment
    && e.openDeals == OpenDealCount(store.deals, a.accountId) >= 1
    && (last.None? ==> e.daysSinceLastActivity == NeverActive)
    && (last.Some? ==> Elapsed(now, last.value) > InactiveAfterDays as real
                       && e.daysSinceLastActivity >= InactiveAfterDays)
  }

  /** All three lists. */
  function GetRiskFactors(store: Store, now: Clock): (r: RiskFactorsReport)
    requires now.Valid()
    ensures |r.staleDeals| <= ListLimit && |r.lowActivityAccounts| <= ListLimit
  {
    RiskFactorsReport(
      StaleDeals(store.deals, now),
      UnderperformingReps(store.reps, store.deals, now),
      LowActivityAccounts(store, now))
  }
}
