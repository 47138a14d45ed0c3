/**
 * The recommendation list: up to five prioritised actions derived from the
 * risk lists and from a few extra aggregates over the deals table.
 *
 * Each rule contributes at most one recommendation, in a fixed order; a
 * generic "maintain activity" recommendation is appended when fewer than
 * three rules fired, and the list is cut to five.
 */
module Recommendations {
  import opened Numeric
  import opened Calendar
  import opened Tables
  import opened Ranking
  import RiskFactors
  import Drivers

  datatype Priority = High | Medium | Low

  /** Position of a priority in the list: high first. */
  function Rank(p: Priority): nat {
    match p
    case High => 0
    case Medium => 1
    case Low => 2
  }

  /**
   * What a recommendation asks for, with the figures its text quotes; the
   * wording itself is not modelled.
   */
  datatype Advice =
    | EnterpriseStale(deals: nat)
    | StalePipeline(deals: nat)
    | CoachRep(repName: string, winRate: int, closedWon: nat, totalDeals: nat)
    | ActivityCampaign(segment: string, accounts: nat)
    | BuildPipeline(thousands: int)
    | LargerDeals(averageOpen: int, averageWon: int)
    | MaintainActivity

  datatype Recommendation = Recommendation(priority: Priority, advice: Advice)

  const MaxRecommendations: nat := 5
  /** The list is padded with the filler when it holds fewer than this many items. */
  const MinRecommendations: nat := 3
  /** More stale deals than this, none of them Enterprise, make the pipeline stale. */
  const StalePipelineCount: nat := 5
  const Enterprise: string := "Enterprise"
  /** Days of won deals averaged for the deal-size rule. */
  const WonWindowDays: int := 90

  const Filler: Recommendation := Recommendation(Low, MaintainActivity)

  // ---------------------------------------------------------------- rule 1

  /** The segment of the first account with that id, or None when no account has it. */
  function SegmentOf(accounts: seq<Account>, accountId: string): (r: Option<string>)
    ensures r.None? <==> forall a | a in accounts :: a.accountId != accountId
    ensures r.Some? ==> exists i | 0 <= i < |accounts| ::
      && accounts[i].accountId == accountId && accounts[i].segment == r.value
      && forall j | 0 <= j < i :: accounts[j].accountId != accountId
  {
    if accounts == [] then None
    else if accounts[0].accountId == accountId then Some(accounts[0].segment)
    else
      var r := SegmentOf(accounts[1..], accountId);
      assert forall a | a in accounts :: a == accounts[0] || a in accounts[1..];
      if r.Some? then
        var i :| 0 <= i < |accounts[1..]| && accounts[1..][i].accountId == accountId
                 && accounts[1..][i].segment == r.value
                 && forall j | 0 <= j < i :: accounts[1..][j].accountId != accountId;
        assert accounts[i + 1].accountId == accountId && accounts[i + 1].segment == r.value;
        r
      else r
  }

  /** The listed stale deals whose account is in the Enterprise segment. */
  function EnterpriseStaleCount(stale: seq<RiskFactors.StaleDeal>, accounts: seq<Account>): (n: nat)
    ensures n <= |stale|
    ensures n == 0 <==> forall d | d in stale :: SegmentOf(accounts, d.accountId) != Some(Enterprise)
  {
    if stale == [] then 0
    else
      assert forall d | d in stale :: d == stale[0] || d in stale[1..];
      (if SegmentOf(accounts, stale[0].accountId) == Some(Enterprise) then 1 else 0)
      + EnterpriseStaleCount(stale[1..], accounts)
  }

  /**
   * High priority: the stale Enterprise deals when there are any, else the
   * whole stale list when it holds more than five deals.
   */
  function StaleRule(stale: seq<RiskFactors.StaleDeal>, accounts: seq<Account>): (r: Option<Recommendation>)
    ensures r.Some? <==> EnterpriseStaleCount(stale, accounts) > 0 || |stale| > StalePipelineCount
    ensures r.Some? ==> r.value.priority == High
    ensures r.Some? && r.value.advice.EnterpriseStale? ==>
      0 < r.value.advice.deals == EnterpriseStaleCount(stale, accounts) <= |stale|
    ensures r.Some? && r.value.advice.StalePipeline? ==>
      r.value.advice.deals == |stale| > StalePipelineCount && EnterpriseStaleCount(stale, accounts) == 0
  {
    if |stale| > 0 then
      var enterprise := EnterpriseStaleCount(stale, accounts);
      if enterprise > 0 then Some(Recommendation(High, EnterpriseStale(enterprise)))
      else if |stale| > StalePipelineCount then Some(Recommendation(High, StalePipeline(|stale|)))
      else None
    else None
  }

  // ---------------------------------------------------------------- rule 2

  /** High priority: coach the first rep of the underperformer list. */
  function CoachingRule(reps: seq<RiskFactors.UnderperformingRep>): (r: Option<Recommendation>)
    ensures r.Some? <==> |reps| > 0
    ensures r.Some? ==>
      (r.value.priority == High && r.value.advice.CoachRep?
       && r.value.advice.repName == reps[0].name && r.value.advice.winRate == reps[0].winRate
       && r.value.advice.closedWon == reps[0].closedWon && r.value.advice.totalDeals == reps[0].totalDeals)
  {
    if |reps| > 0 then
      Some(Recommendation(High, CoachRep(reps[0].name, reps[0].winRate, reps[0].closedWon, reps[0].totalDeals)))
    else None
  }

  /**
   * The rep coached is the one with the lowest win rate in the window, and is
   * underperforming: at least five closures and under 30%.
   */
  lemma CoachesWorstRep(listed: seq<RiskFactors.UnderperformingRep>, reps: seq<Rep>, deals: seq<Deal>, since: int)
    requires |listed| > 0 && SortedAsc(listed, RiskFactors.WinRateKey)
    requires forall u | u in listed :: RiskFactors.Underperforms(u, reps, deals, since)
    ensures var adv := CoachingRule(listed).value.advice;
            && (forall u | u in listed :: adv.winRate <= u.winRate)
            && adv.winRate < RiskFactors.WinRateThreshold && adv.totalDeals >= RiskFactors.MinClosures
            && exists rep | rep in reps :: rep.name == adv.repName
  {
    RiskFactors.WorstRepFirst(listed, reps, deals, since);
  }

  // ---------------------------------------------------------------- rule 3

  /** The segments of the accounts, each once, in order of first appearance. */
  function SeenSegments(accts: seq<RiskFactors.LowActivityAccount>): (keys: seq<string>)
    ensures forall i, j | 0 <= i < j < |keys| :: keys[i] != keys[j]
    ensures forall a | a in accts :: a.segment in keys
  {
    if accts == [] then []
    else
      var init := accts[..|accts| - 1];
      var last := accts[|accts| - 1];
      var prev := SeenSegments(init);
      assert forall a | a in accts :: a in init || a == last;
      if last.segment in prev then prev else prev + [last.segment]
  }

  /** Every key of the tally is the segment of some account. */
  lemma {:induction false} SeenFromAccounts(accts: seq<RiskFactors.LowActivityAccount>)
    ensures forall k | k in SeenSegments(accts) :: exists a | a in accts :: a.segment == k
  {
    if accts != [] {
      var init := accts[..|accts| - 1];
      var last := accts[|accts| - 1];
      SeenFromAccounts(init);
      assert forall a | a in init :: a in accts;
      assert last in accts;
    }
  }

  /** Some account is in segment `x` before any account is in segment `y`. */
  predicate FirstSeenBefore(accts: seq<RiskFactors.LowActivityAccount>, x: string, y: string) {
    exists p | 0 <= p < |accts| && accts[p].segment == x ::
      forall q | 0 <= q <= p :: accts[q].segment != y
  }

  /** The segment tally's keys are in first-seen order. */
  lemma {:induction false} SeenInFirstSeenOrder(accts: seq<RiskFactors.LowActivityAccount>)
    ensures var keys := SeenSegments(accts);
            forall i, j | 0 <= i < j < |keys| :: FirstSeenBefore(accts, keys[i], keys[j])
  {
    if accts != [] {
      var init := accts[..|accts| - 1];
      var last := accts[|accts| - 1];
      assert accts == init + [last];
      SeenInFirstSeenOrder(init);
      var prev := SeenSegments(init);
      var keys := SeenSegments(accts);
      SeenSnoc(init, last);
      assert keys == if last.segment in prev then prev else prev + [last.segment];
      forall i, j | 0 <= i < j < |keys|
        ensures FirstSeenBefore(accts, keys[i], keys[j])
      {
        assert keys[i] == prev[i];
        if j < |prev| {
          assert keys[j] == prev[j];
          FirstSeenExtend(init, last, prev[i], prev[j]);
        } else {
          FirstSeenNew(init, last, prev[i]);
        }
      }
    }
  }

  lemma FirstSeenExtend(init: seq<RiskFactors.LowActivityAccount>, a: RiskFactors.LowActivityAccount, x: string, y: string)
    requires FirstSeenBefore(init, x, y)
    ensures FirstSeenBefore(init + [a], x, y)
  {
    var xs := init + [a];
    var p :| 0 <= p < |init| && init[p].segment == x && forall q | 0 <= q <= p :: init[q].segment != y;
    assert xs[p] == init[p];
    assert forall q | 0 <= q <= p :: xs[q] == init[q];
  }

  lemma FirstSeenNew(init: seq<RiskFactors.LowActivityAccount>, a: RiskFactors.LowActivityAccount, x: string)
    requires x in SeenSegments(init) && a.segment !in SeenSegments(init)
    ensures FirstSeenBefore(init + [a], x, a.segment)
  {
    var xs := init + [a];
    SeenFromAccounts(init);
    var b :| b in init && b.segment == x;
    var p :| 0 <= p < |init| && init[p] == b;
    assert xs[p] == b;
    forall q | 0 <= q <= p
      ensures xs[q].segment != a.segment
    {
      assert xs[q] == init[q] && init[q] in init;
    }
  }

  /** How many of the accounts are in segment `seg`. */
  function SegmentCount(accts: seq<RiskFactors.LowActivityAccount>, seg: string): (n: nat)
    ensures n <= |accts|
    ensures n == 0 <==> forall a | a in accts :: a.segment != seg
  {
    if accts == [] then 0
    else
      var init := accts[..|accts| - 1];
      assert forall a | a in accts :: a in init || a == accts[|accts| - 1];
      assert forall a | a in init :: a in accts;
      SegmentCount(init, seg) + (if accts[|accts| - 1].segment == seg then 1 else 0)
  }

  /** The tally the reduce builds: one entry per segment present, holding its count. */
  function SegmentCounts(accts: seq<RiskFactors.LowActivityAccount>): (m: map<string, nat>)
    ensures forall s :: s in m <==> s in SeenSegments(accts)
    ensures forall s | s in m :: m[s] == SegmentCount(accts, s)
  {
    if accts == [] then map[]
    else
      var init := accts[..|accts| - 1];
      var seg := accts[|accts| - 1].segment;
      SeenSnoc(init, accts[|accts| - 1]);
      assert init + [accts[|accts| - 1]] == accts;
      Bump(SegmentCounts(init), seg)
  }

  /** `acc[seg] = (acc[seg] || 0) + 1`. */
  function Bump(m: map<string, nat>, seg: string): (m': map<string, nat>)
    ensures m'.Keys == m.Keys + {seg}
    ensures m'[seg] == (if seg in m then m[seg] else 0) + 1
    ensures forall s | s in m && s != seg :: m'[s] == m[s]
  {
    m[seg := (if seg in m then m[seg] else 0) + 1]
  }

  lemma SeenSnoc(accts: seq<RiskFactors.LowActivityAccount>, a: RiskFactors.LowActivityAccount)
    ensures SeenSegments(accts + [a]) ==
      if a.segment in SeenSegments(accts) then SeenSegments(accts) else SeenSegments(accts) + [a.segment]
  {
    assert (accts + [a])[..|accts|] == accts;
  }

  /** Appending one account adds one to its segment's tally, creating the entry if needed. */
  lemma CountsSnoc(accts: seq<RiskFactors.LowActivityAccount>, a: RiskFactors.LowActivityAccount)
    ensures SegmentCounts(accts + [a]) == Bump(SegmentCounts(accts), a.segment)
  {
    var xs := accts + [a];
    assert xs[..|xs| - 1] == accts;
    assert xs[|xs| - 1] == a;
  }

  /**
   * The first key with the largest count: the head of the tally's entries
   * after a stable sort by descending count.
   */
  function TopIndex(keys: seq<string>, counts: map<string, nat>): (i: nat)
    requires |keys| > 0 && forall k | k in keys :: k in counts
    ensures i < |keys|
    ensures forall j | 0 <= j < |keys| :: counts[keys[j]] <= counts[keys[i]]
    ensures forall j | 0 <= j < i :: counts[keys[j]] < counts[keys[i]]
  {
    if |keys| == 1 then 0
    else
      var t := 1 + TopIndex(keys[1..], counts);
      if counts[keys[0]] >= counts[keys[t]] then 0 else t
  }

  /**
   * Medium priority, whenever the low-activity list is not empty: the
   * segment with the most listed accounts, the first one seen on a tie.
   */
  function ActivityRule(accts: seq<RiskFactors.LowActivityAccount>): (r: Option<Recommendation>)
    ensures r.Some? <==> |accts| > 0
    ensures r.Some? ==> r.value.priority == Medium && r.value.advice.ActivityCampaign?
    ensures r.Some? ==>
      var adv := r.value.advice;
      && adv.accounts == SegmentCount(accts, adv.segment) > 0
      && (forall a | a in accts :: SegmentCount(accts, a.segment) <= adv.accounts)
      && exists i | 0 <= i < |SeenSegments(accts)| ::
           SeenSegments(accts)[i] == adv.segment
           && forall j | 0 <= j < i :: SegmentCount(accts, SeenSegments(accts)[j]) < adv.accounts
  {
    if |accts| > 0 then
      var keys := SeenSegments(accts);
      var counts := SegmentCounts(accts);
      assert accts[0].segment in keys;
      var i := TopIndex(keys, counts);
      assert forall a | a in accts :: a.segment in keys && exists j | 0 <= j < |keys| :: keys[j] == a.segment;
      Some(Recommendation(Medium, ActivityCampaign(keys[i], counts[keys[i]])))
    else None
  }

  /** Among segments with the top count, the campaign names the one seen first. */
  lemma TiesGoToFirstSeen(accts: seq<RiskFactors.LowActivityAccount>)
    requires |accts| > 0
    ensures var adv := ActivityRule(accts).value.advice;
            forall a | a in accts && a.segment != adv.segment && SegmentCount(accts, a.segment) == adv.accounts ::
              FirstSeenBefore(accts, adv.segment, a.segment)
  {
    var adv := ActivityRule(accts).value.advice;
    var keys := SeenSegments(accts);
    var i :| 0 <= i < |keys| && keys[i] == adv.segment
             && forall j | 0 <= j < i :: SegmentCount(accts, keys[j]) < adv.accounts;
    forall a | a in accts && a.segment != adv.segment && SegmentCount(accts, a.segment) == adv.accounts
      ensures FirstSeenBefore(accts, adv.segment, a.segment)
    {
      TieAfter(accts, i, a);
    }
  }

  /** A segment as large as key `i`, and no earlier key as large, was first seen after key `i`. */
  lemma TieAfter(accts: seq<RiskFactors.LowActivityAccount>, i: nat, a: RiskFactors.LowActivityAccount)
    requires i < |SeenSegments(accts)|
    requires forall j | 0 <= j < i :: SegmentCount(accts, SeenSegments(accts)[j]) < SegmentCount(accts, SeenSegments(accts)[i])
    requires a in accts && a.segment != SeenSegments(accts)[i]
    requires SegmentCount(accts, a.segment) == SegmentCount(accts, SeenSegments(accts)[i])
    ensures FirstSeenBefore(accts, SeenSegments(accts)[i], a.segment)
  {
    var keys := SeenSegments(accts);
    var j :| 0 <= j < |keys| && keys[j] == a.segment;
    assert i < j;
    SeenInFirstSeenOrder(accts);
  }

  lemma PrefixSnoc<T>(s: seq<T>, i: nat)
    requires i < |s|
    ensures s[..i + 1] == s[..i] + [s[i]]
  {
  }

  /** One step of the reduce: the tally of the next prefix, from the tally of this one. */
  lemma TallyStep(accts: seq<RiskFactors.LowActivityAccount>, i: nat)
    requires i < |accts|
    ensures SeenSegments(accts[..i + 1]) ==
      if accts[i].segment in SegmentCounts(accts[..i]) then SeenSegments(accts[..i])
      else SeenSegments(accts[..i]) + [accts[i].segment]
    ensures SegmentCounts(accts[..i + 1]) == Bump(SegmentCounts(accts[..i]), accts[i].segment)
  {
    PrefixSnoc(accts, i);
    SeenSnoc(accts[..i], accts[i]);
    CountsSnoc(accts[..i], accts[i]);
  }

  /** The reduce over the low-activity list, building the segment tally entry by entry. */
  method CountBySegment(accts: seq<RiskFactors.LowActivityAccount>) returns (keys: seq<string>, counts: map<string, nat>)
    ensures keys == SeenSegments(accts) && counts == SegmentCounts(accts)
  {
    keys, counts := [], map[];
    var i := 0;
    while i < |accts|
      invariant 0 <= i <= |accts|
      invariant keys == SeenSegments(accts[..i]) && counts == SegmentCounts(accts[..i])
    {
      TallyStep(accts, i);
      var seg := accts[i].segment;
      if seg !in counts {
        keys := keys + [seg];
      }
      counts := Bump(counts, seg);
      i := i + 1;
    }
    assert accts[..i] == accts;
  }

  // ---------------------------------------------------------------- rule 4

  /** The amount of an open deal. */
  function OpenAmount(d: Deal): Option<int> {
    if d.stage.Open? then d.amount else None
  }

  /** The amount of a deal won on or after day `since`. */
  function WonAmountSince(d: Deal, since: int): Option<int> {
    if d.stage == ClosedWon && d.closedAt.Some? && d.closedAt.value >= since then d.amount else None
  }

  /** The value of every open deal. */
  function OpenPipeline(deals: seq<Deal>): (r: int)
    ensures AmountsNonNegative(deals) ==> r >= 0
  {
    Sum(deals, OpenAmount)
  }

  /** Revenue won since the first of the month (a later close date is not excluded). */
  function MonthRevenue(deals: seq<Deal>, monthStart: int): (r: int)
    ensures AmountsNonNegative(deals) ==> r >= 0
  {
    Sum(deals, d => WonAmountSince(d, monthStart))
  }

  /** Medium priority when the pipeline covers less than three months of this month's revenue. */
  function CoverageRule(pipeline: int, monthRevenue: int): (r: Option<Recommendation>)
    ensures r.Some? <==> 0 < pipeline < 3 * monthRevenue && monthRevenue > 0
    ensures r.Some? ==>
      (r.value.priority == Medium && r.value.advice.BuildPipeline?
       && r.value.advice.thousands as real - 0.5 <= pipeline as real / 1000.0 < r.value.advice.thousands as real + 0.5)
  {
    if pipeline > 0 && monthRevenue > 0 && pipeline < monthRevenue * 3 then
      Some(Recommendation(Medium, BuildPipeline(Round(pipeline as real / 1000.0))))
    else None
  }

  /**
   * The pipeline here counts every open deal, so it is never below the
   * quarter's pipeline figure, which drops deals created after the quarter.
   */
  lemma PipelineCoversQuarterPipeline(deals: seq<Deal>, end: int)
    requires AmountsNonNegative(deals)
    ensures Drivers.PipelineSize(deals, end) <= OpenPipeline(deals)
  {
    SumMonotone(deals, d => Drivers.OpenAmountBy(d, end), OpenAmount);
  }

  // ---------------------------------------------------------------- rule 5

  /** `AVG(...) || 0`: the mean, or 0 when nothing is averaged. */
  function MeanOrZero(deals: seq<Deal>, f: Deal -> Option<int>): real {
    Average(deals, f).GetOr(0.0)
  }

  /** Low priority when the average open deal is under 70% of the average recently won deal. */
  function DealSizeRule(averageOpen: real, averageWon: real): (r: Option<Recommendation>)
    ensures r.Some? <==> averageOpen > 0.0 && averageWon > 0.0 && averageOpen * 10.0 < averageWon * 7.0
    ensures r.Some? ==>
      (r.value.priority == Low && r.value.advice.LargerDeals?
       && r.value.advice.averageOpen <= r.value.advice.averageWon)
  {
    if averageOpen > 0.0 && averageWon > 0.0 && averageOpen < averageWon * 0.7 then
      Some(Recommendation(Low, LargerDeals(Round(averageOpen), Round(averageWon))))
    else None
  }

  /** The rule only fires when at least one open deal is below 70% of the average won deal. */
  lemma LargerDealsNeedsSmallOpenDeal(deals: seq<Deal>, since: int)
    requires DealSizeRule(MeanOrZero(deals, OpenAmount), MeanOrZero(deals, d => WonAmountSince(d, since))).Some?
    ensures exists d | d in deals ::
      (d.stage.Open? && d.amount.Some?
       && d.amount.value as real * 10.0 < MeanOrZero(deals, d => WonAmountSince(d, since)) * 7.0)
  {
    var won := MeanOrZero(deals, d => WonAmountSince(d, since));
    var t := won * 7.0 / 10.0;
    var lo := -((-t).Floor);
    assert t <= lo as real < t + 1.0;
    if forall d | d in deals :: d.stage.Open? && d.amount.Some? ==> d.amount.value as real * 10.0 >= won * 7.0 {
      forall d | d in deals && OpenAmount(d).Some?
        ensures lo <= OpenAmount(d).value
      {
        assert OpenAmount(d).value as real >= t;
      }
      AverageAtLeast(deals, OpenAmount, lo);
      assert false;
    }
  }

  // ------------------------------------------------------------- assembly

  function Items(r: Option<Recommendation>): seq<Recommendation> {
    if r.Some? then [r.value] else []
  }

  lemma ItemsPriority(r: Option<Recommendation>, p: Priority)
    requires r.Some? ==> r.value.priority == p
    ensures forall x | x in Items(r) :: x.priority == p
  {
  }

  /** Two high-priority lists, two medium and one low, joined in that order, are in priority order. */
  lemma TiersOrdered(a: seq<Recommendation>, b: seq<Recommendation>, c: seq<Recommendation>,
                     d: seq<Recommendation>, e: seq<Recommendation>)
    requires forall x | x in a || x in b :: x.priority == High
    requires forall x | x in c || x in d :: x.priority == Medium
    requires forall x | x in e :: x.priority == Low
    ensures var items := a + b + c + d + e;
            forall i, j | 0 <= i < j < |items| :: Rank(items[i].priority) <= Rank(items[j].priority)
  {
    var items := a + b + c + d + e;
    var hb, mb := |a| + |b|, |a| + |b| + |c| + |d|;
    forall i | 0 <= i < |items|
      ensures Rank(items[i].priority) == if i < hb then 0 else if i < mb then 1 else 2
    {
      if i < |a| {
        assert items[i] == a[i];
      } else if i < hb {
        assert items[i] == b[i - |a|];
      } else if i < hb + |c| {
        assert items[i] == c[i - hb];
      } else if i < mb {
        assert items[i] == d[i - hb - |c|];
      } else {
        assert items[i] == e[i - mb];
      }
    }
  }

  /** The figures the coverage and deal-size rules read from the deals table. */
  datatype Aggregates = Aggregates(openPipeline: int, monthRevenue: int, averageOpen: real, averageWon: real)

  function AggregatesOf(deals: seq<Deal>, now: Clock): Aggregates
    requires now.Valid()
  {
    Aggregates(
      OpenPipeline(deals),
      MonthRevenue(deals, now.MonthStart()),
      MeanOrZero(deals, OpenAmount),
      MeanOrZero(deals, d => WonAmountSince(d, now.Today() - WonWindowDays)))
  }

  /** The recommendations the five rules make, in rule order. */
  function Rules(risk: RiskFactors.RiskFactorsReport, accounts: seq<Account>, agg: Aggregates): (items: seq<Recommendation>)
    ensures |items| <= MaxRecommendations
    ensures forall i, j | 0 <= i < j < |items| :: Rank(items[i].priority) <= Rank(items[j].priority)
  {
    var stale := StaleRule(risk.staleDeals, accounts);
    var coach := CoachingRule(risk.underperformingReps);
    var activity := ActivityRule(risk.lowActivityAccounts);
    var coverage := CoverageRule(agg.openPipeline, agg.monthRevenue);
    var dealSize := DealSizeRule(agg.averageOpen, agg.averageWon);
    ItemsPriority(stale, High);
    ItemsPriority(coach, High);
    ItemsPriority(activity, Medium);
    ItemsPriority(coverage, Medium);
    ItemsPriority(dealSize, Low);
    TiersOrdered(Items(stale), Items(coach), Items(activity), Items(coverage), Items(dealSize));
    Items(stale) + Items(coach) + Items(activity) + Items(coverage) + Items(dealSize)
  }

  /** The rules applied to the store's risk lists and aggregates. */
  function RuleItems(store: Store, now: Clock): seq<Recommendation>
    requires now.Valid()
  {
    Rules(RiskFactors.GetRiskFactors(store, now), store.accounts, AggregatesOf(store.deals, now))
  }

  /** Append the filler when fewer than three rules fired, then keep the first five. */
  function Finish(items: seq<Recommendation>): seq<Recommendation> {
    Take(if |items| < MinRecommendations then items + [Filler] else items, MaxRecommendations)
  }

  /** Low priority comes last, so the filler never breaks the order. */
  lemma FinishKeepsOrder(items: seq<Recommendation>)
    requires |items| <= MaxRecommendations
    requires forall i, j | 0 <= i < j < |items| :: Rank(items[i].priority) <= Rank(items[j].priority)
    ensures |Finish(items)| == if |items| < MinRecommendations then |items| + 1 else |items|
    ensures Finish(items)[..|items|] == items
    ensures forall i, j | 0 <= i < j < |Finish(items)| ::
      Rank(Finish(items)[i].priority) <= Rank(Finish(items)[j].priority)
  {
  }

  /**
   * Runs the five rules in order, pushing each recommendation that fires;
   * the segment tally is built by the reduce loop.
   */
  method CollectRuleItems(risk: RiskFactors.RiskFactorsReport, store: Store, now: Clock) returns (recs: seq<Recommendation>)
    requires now.Valid()
    ensures recs == Rules(risk, store.accounts, AggregatesOf(store.deals, now))
  {
    var stale := StaleRule(risk.staleDeals, store.accounts);
    recs := Items(stale);
    var coach := CoachingRule(risk.underperformingReps);
    recs := recs + Items(coach);
    if |risk.lowActivityAccounts| > 0 {
      var keys, counts := CountBySegment(risk.lowActivityAccounts);
      var top := TopIndex(keys, counts);
      recs := recs + [Recommendation(Medium, ActivityCampaign(keys[top], counts[keys[top]]))];
    } else {
      recs := recs + [];
    }
    var agg := AggregatesOf(store.deals, now);
    recs := recs + Items(CoverageRule(agg.openPipeline, agg.monthRevenue));
    recs := recs + Items(DealSizeRule(agg.averageOpen, agg.averageWon));
  }

  /** The recommendation list as the service builds it. */
  method GetRecommendations(store: Store, now: Clock) returns (recs: seq<Recommendation>)
    requires now.Valid()
    ensures recs == Finish(RuleItems(store, now))
    ensures 1 <= |recs| <= MaxRecommendations
    ensures forall i, j | 0 <= i < j < |recs| :: Rank(recs[i].priority) <= Rank(recs[j].priority)
  {
    var risk := RiskFactors.GetRiskFactors(store, now);
    recs := CollectRuleItems(risk, store, now);
    FinishKeepsOrder(recs);
    if |recs| < MinRecommendations {
      recs := recs + [Filler];
    }
    recs := Take(recs, MaxRecommendations);
  }

  /**
   * With an empty store no rule fires, and the list holds the filler alone,
   * though the padding step means to guarantee three recommendations.
   */
  lemma EmptyStoreGetsOne(now: Clock)
    requires now.Valid()
    ensures Finish(RuleItems(Store([], [], [], [], []), now)) == [Filler]
  {
    var store := Store([], [], [], [], []);
    var risk := RiskFactors.GetRiskFactors(store, now);
    assert risk.staleDeals == [];
    assert risk.underperformingReps == [];
    assert risk.lowActivityAccounts == [];
    assert RuleItems(store, now) == [];
  }

  /** Pad with the filler until the list holds three recommendations, then keep the first five. */
  function FinishPadded(items: seq<Recommendation>): (r: seq<Recommendation>)
    ensures MinRecommendations <= |r| <= MaxRecommendations
    ensures |items| <= MaxRecommendations ==>
      |items| <= |r| && r[..|items|] == items && forall i | |items| <= i < |r| :: r[i] == Filler
    decreases MinRecommendations - |items|
  {
    if |items| < MinRecommendations then FinishPadded(items + [Filler]) else Take(items, MaxRecommendations)
  }

  /** The padding is low priority, so it keeps the list in priority order. */
  lemma {:induction false} FinishPaddedKeepsOrder(items: seq<Recommendation>)
    requires forall i, j | 0 <= i < j < |items| :: Rank(items[i].priority) <= Rank(items[j].priority)
    ensures forall i, j | 0 <= i < j < |FinishPadded(items)| ::
      Rank(FinishPadded(items)[i].priority) <= Rank(FinishPadded(items)[j].priority)
    decreases MinRecommendations - |items|
  {
    if |items| < MinRecommendations {
      var longer := items + [Filler];
      assert forall i | 0 <= i < |longer| :: Rank(longer[i].priority) <= Rank(Low);
      FinishPaddedKeepsOrder(longer);
    }
  }

  /** The list with the padding the service intends: always three to five recommendations. */
  method GetRecommendationsPadded(store: Store, now: Clock) returns (recs: seq<Recommendation>)
    requires now.Valid()
    ensures recs == FinishPadded(RuleItems(store, now))
    ensures MinRecommendations <= |recs| <= MaxRecommendations
    ensures forall i, j | 0 <= i < j < |recs| :: Rank(recs[i].priority) <= Rank(recs[j].priority)
  {
    var risk := RiskFactors.GetRiskFactors(store, now);
    recs := CollectRuleItems(risk, store, now);
    ghost var items := recs;
    FinishPaddedKeepsOrder(items);
    while |recs| < MinRecommendations
      invariant FinishPadded(recs) == FinishPadded(items)
      decreases MinRecommendations - |recs|
    {
      recs := recs + [Filler];
    }
    recs := Take(recs, MaxRecommendations);
  }
}
