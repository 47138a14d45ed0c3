/**
 * The five tables the analytics engine reads, and the SQL aggregates it runs
 * over them.
 *
 * An aggregate is given a per-row expression `f` that is `None` where SQL's
 * expression is NULL (the row is filtered out, or its value is missing), so
 * `SUM(CASE WHEN cond THEN amount END)`, `COUNT(...)` and `AVG(...)` all have
 * one shape.
 */
module Tables {

  datatype Option<+T> = None | Some(value: T) {
    /** `x || default` for a nullable number: what the services write for a missing aggregate. */
    function GetOr(default: T): T {
      if Some? then value else default
    }
  }

  /** A deal's stage; the two closed sentinels "Closed Won" and "Closed Lost", every other text is open. */
  datatype Stage = Open(name: string) | ClosedWon | ClosedLost

  datatype Account = Account(accountId: string, name: string, industry: string, segment: string)

  datatype Rep = Rep(repId: string, name: string)

  /** Dates are day numbers; `closedAt` is set once the deal reaches a closed stage. */
  datatype Deal = Deal(
    dealId: string,
    accountId: string,
    repId: string,
    stage: Stage,
    amount: Option<int>,
    createdAt: int,
    closedAt: Option<int>)

  datatype Activity = Activity(activityId: string, dealId: string, kind: string, timestamp: int)

  /** A "YYYY-MM" month key. */
  datatype MonthKey = MonthKey(year: int, month: int)

  datatype Target = Target(month: MonthKey, target: int)

  datatype Store = Store(
    accounts: seq<Account>,
    reps: seq<Rep>,
    deals: seq<Deal>,
    activities: seq<Activity>,
    targets: seq<Target>)

  /** Currency amounts in the store are never negative. */
  predicate AmountsNonNegative(deals: seq<Deal>) {
    forall d | d in deals :: d.amount.Some? ==> d.amount.value >= 0
  }

  /** The value a row contributes to a SUM: its expression, or nothing when that is NULL. */
  function Contribution(v: Option<int>): int {
    if v.Some? then v.value else 0
  }

  /** `COALESCE(SUM(f), 0)` over the deals. */
  function Sum(ds: seq<Deal>, f: Deal -> Option<int>): (r: int)
    ensures (forall d | d in ds :: f(d).None?) ==> r == 0
    ensures (forall d | d in ds :: f(d).Some? ==> f(d).value >= 0) ==> r >= 0
  {
    if ds == [] then 0 else Contribution(f(ds[0])) + Sum(ds[1..], f)
  }

  /** `COUNT(f)`: the deals whose expression is not NULL. */
  function Count(ds: seq<Deal>, f: Deal -> Option<int>): (n: nat)
    ensures n <= |ds|
    ensures n == 0 <==> forall d | d in ds :: f(d).None?
  {
    if ds == [] then 0 else (if f(ds[0]).Some? then 1 else 0) + Count(ds[1..], f)
  }

  /** `AVG(f)`: NULL when no deal has a non-NULL expression. */
  function Average(ds: seq<Deal>, f: Deal -> Option<int>): (r: Option<real>)
    ensures r.None? <==> forall d | d in ds :: f(d).None?
  {
    var n := Count(ds, f);
    if n == 0 then None else Some(Sum(ds, f) as real / n as real)
  }

  lemma {:induction false} SumAppend(a: seq<Deal>, b: seq<Deal>, f: Deal -> Option<int>)
    ensures Sum(a + b, f) == Sum(a, f) + Sum(b, f)
    ensures Count(a + b, f) == Count(a, f) + Count(b, f)
  {
    if a != [] {
      assert (a + b)[1..] == a[1..] + b;
      SumAppend(a[1..], b, f);
    } else {
      assert a + b == b;
    }
  }

  /** A deal whose expression is NULL changes no aggregate, wherever it stands. */
  lemma SumSkip(a: seq<Deal>, d: Deal, b: seq<Deal>, f: Deal -> Option<int>)
    requires f(d).None?
    ensures Sum(a + [d] + b, f) == Sum(a + b, f)
    ensures Count(a + [d] + b, f) == Count(a + b, f)
    ensures Average(a + [d] + b, f) == Average(a + b, f)
  {
    SumAppend(a + [d], b, f);
    SumAppend(a, [d], f);
    SumAppend(a, b, f);
    assert [d][1..] == [];
  }

  /**
   * Widening the set of rows summed (every row `f` takes, `g` takes with the same
   * value) cannot lower a sum of non-negative values.
   */
  lemma {:induction false} SumMonotone(ds: seq<Deal>, f: Deal -> Option<int>, g: Deal -> Option<int>)
    requires forall d | d in ds :: f(d).Some? ==> g(d) == f(d)
    requires forall d | d in ds :: g(d).Some? ==> g(d).value >= 0
    ensures Sum(ds, f) <= Sum(ds, g)
  {
    if ds != [] {
      assert forall d | d in ds[1..] :: d in ds;
      SumMonotone(ds[1..], f, g);
    }
  }

  /** When every non-NULL value is at least `lo`, the sum is at least `lo` times the count. */
  lemma {:induction false} SumAtLeast(ds: seq<Deal>, f: Deal -> Option<int>, lo: int)
    requires forall d | d in ds :: f(d).Some? ==> lo <= f(d).value
    ensures lo * Count(ds, f) <= Sum(ds, f)
  {
    if ds != [] {
      assert forall d | d in ds[1..] :: d in ds;
      SumAtLeast(ds[1..], f, lo);
      var c, s := Count(ds[1..], f), Sum(ds[1..], f);
      if f(ds[0]).Some? {
        assert Count(ds, f) == c + 1 && Sum(ds, f) == s + f(ds[0]).value;
        MulStep(lo, c);
      } else {
        assert Count(ds, f) == c && Sum(ds, f) == s;
      }
    }
  }

  /** When every non-NULL value is at most `hi`, the sum is at most `hi` times the count. */
  lemma {:induction false} SumAtMost(ds: seq<Deal>, f: Deal -> Option<int>, hi: int)
    requires forall d | d in ds :: f(d).Some? ==> f(d).value <= hi
    ensures Sum(ds, f) <= hi * Count(ds, f)
  {
    if ds != [] {
      assert forall d | d in ds[1..] :: d in ds;
      SumAtMost(ds[1..], f, hi);
      var c, s := Count(ds[1..], f), Sum(ds[1..], f);
      if f(ds[0]).Some? {
        assert Count(ds, f) == c + 1 && Sum(ds, f) == s + f(ds[0]).value;
        MulStep(hi, c);
      } else {
        assert Count(ds, f) == c && Sum(ds, f) == s;
      }
    }
  }

  lemma MulStep(x: int, c: int)
    ensures x * (c + 1) == x * c + x
  {
  }

  /** An average is at least the smallest value averaged. */
  lemma AverageAtLeast(ds: seq<Deal>, f: Deal -> Option<int>, lo: int)
    requires forall d | d in ds :: f(d).Some? ==> lo <= f(d).value
    ensures Average(ds, f).Some? ==> lo as real <= Average(ds, f).value
  {
    var n := Count(ds, f);
    if n > 0 {
      SumAtLeast(ds, f, lo);
      QuotientAtLeast(Sum(ds, f), n, lo);
    }
  }

  lemma QuotientAtLeast(s: int, n: int, lo: int)
    requires n > 0 && lo * n <= s
    ensures lo as real <= s as real / n as real
  {
    var m := s as real / n as real;
    assert m * n as real == s as real;
    assert lo as real * n as real <= s as real;
  }

  /** An average is at most the largest value averaged. */
  lemma AverageAtMost(ds: seq<Deal>, f: Deal -> Option<int>, hi: int)
    requires forall d | d in ds :: f(d).Some? ==> f(d).value <= hi
    ensures Average(ds, f).Some? ==> Average(ds, f).value <= hi as real
  {
    var n := Count(ds, f);
    if n > 0 {
      SumAtMost(ds, f, hi);
      QuotientAtMost(Sum(ds, f), n, hi);
    }
  }

  lemma QuotientAtMost(s: int, n: int, hi: int)
    requires n > 0 && s <= hi * n
    ensures s as real / n as real <= hi as real
  {
    var m := s as real / n as real;
    assert m * n as real == s as real;
    assert s as real <= hi as real * n as real;
  }

  /** An average lies between the smallest and the largest value averaged. */
  lemma AverageBounds(ds: seq<Deal>, f: Deal -> Option<int>, lo: int, hi: int)
    requires forall d | d in ds :: f(d).Some? ==> lo <= f(d).value <= hi
    ensures Average(ds, f).Some? ==> lo as real <= Average(ds, f).value <= hi as real
  {
    AverageAtLeast(ds, f, lo);
    AverageAtMost(ds, f, hi);
  }
}
