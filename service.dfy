/** `RewardService.getRewardsByCustomer`: the not-found check, then one pass over
    the customer's transactions that merges each one's points into a map keyed
    by month of the year and into a running total. */
module RewardService {
  import opened RewardModel
  import opened RewardRule

  /** The message of the not-found failure, before the customer id. */
  const NotFoundPrefix: string := "No transactions found for customer: "

  /** The points of one transaction. */
  function TransactionPoints(t: Transaction): (r: int)
    ensures 0 <= r
    ensures t.amount <= LowerThreshold ==> r == 0
  {
    RewardPoints(t.amount)
  }

  /** `Map.merge(month, points, Integer::sum)`: an absent month is inserted with
      `points`, a present one has `points` added; no other entry changes. */
  function Merge(m: map<Month, int>, month: Month, points: int): (r: map<Month, int>)
    ensures r.Keys == m.Keys + {month}
    ensures r[month] == points + (if month in m then m[month] else 0)
    ensures forall k :: k in m && k != month ==> r[k] == m[k]
  {
    if month in m then m[month := m[month] + points] else m[month := points]
  }

  /** Which transactions a sum of points counts: all of them, or one month's. */
  datatype MonthFilter = AnyMonth | OnlyMonth(month: Month)

  /** What one transaction adds to a sum under `filter`. */
  function Share(t: Transaction, filter: MonthFilter): (r: int)
  {
    match filter
    case AnyMonth => TransactionPoints(t)
    case OnlyMonth(m) => if t.date.month == m then TransactionPoints(t) else 0
  }

  /** The points of the transactions `filter` selects. */
  function PointsIn(ts: seq<Transaction>, filter: MonthFilter): (r: int)
  {
    if ts == [] then 0 else PointsIn(ts[..|ts| - 1], filter) + Share(ts[|ts| - 1], filter)
  }

  /** The points of all of the transactions. */
  function TotalPoints(ts: seq<Transaction>): (r: int)
  {
    PointsIn(ts, AnyMonth)
  }

  /** The months of the year in which the customer has transactions; the year is dropped. */
  function MonthsOf(ts: seq<Transaction>): (months: set<Month>)
  {
    set t | t in ts :: t.date.month
  }

  /** The map the service's loop builds: each transaction merged in list order. */
  function MonthlyPoints(ts: seq<Transaction>): (m: map<Month, int>)
  {
    if ts == [] then map[]
    else
      var last := ts[|ts| - 1];
      Merge(MonthlyPoints(ts[..|ts| - 1]), last.date.month, TransactionPoints(last))
  }

  /** The sum of the values a monthly map holds for the months 1 to `n`. */
  function MonthsTotal(m: map<Month, int>, n: nat): (r: int)
    requires n <= 12
  {
    if n == 0 then 0 else MonthsTotal(m, n - 1) + (if n as Month in m then m[n as Month] else 0)
  }

  /** The sum of all values of a monthly map. */
  function SumOfValues(m: map<Month, int>): (r: int)
  {
    MonthsTotal(m, 12)
  }

  /** A summary's total is the sum of its monthly points. */
  predicate Consistent(s: RewardSummary)
  {
    s.totalPoints == SumOfValues(s.monthlyPoints)
  }

  /** Merging adds the points to the sum of the months at or before the merged one. */
  lemma {:induction false} MergeAddsToMonthsTotal(m: map<Month, int>, month: Month, points: int, n: nat)
    requires n <= 12
    ensures MonthsTotal(Merge(m, month, points), n) == MonthsTotal(m, n) + (if month <= n then points else 0)
  {
    if n > 0 {
      MergeAddsToMonthsTotal(m, month, points, n - 1);
    }
  }

  lemma {:induction false} NoMonthsTotalNothing(n: nat)
    requires n <= 12
    ensures MonthsTotal(map[], n) == 0
  {
    if n > 0 {
      NoMonthsTotalNothing(n - 1);
    }
  }

  /** The total the loop keeps equals the sum of the monthly map it keeps. */
  lemma {:induction false} MonthlyPointsSumToTotal(ts: seq<Transaction>)
    ensures SumOfValues(MonthlyPoints(ts)) == TotalPoints(ts)
  {
    if ts != [] {
      var init, last := ts[..|ts| - 1], ts[|ts| - 1];
      MonthlyPointsSumToTotal(init);
      MergeAddsToMonthsTotal(MonthlyPoints(init), last.date.month, TransactionPoints(last), 12);
      assert MonthlyPoints(ts) == Merge(MonthlyPoints(init), last.date.month, TransactionPoints(last));
      assert TotalPoints(ts) == TotalPoints(init) + TransactionPoints(last);
    } else {
      NoMonthsTotalNothing(12);
    }
  }

  /** The months of the map are exactly the months of the transactions, those
      whose transactions earn nothing included. */
  lemma {:induction false} MonthlyPointsKeys(ts: seq<Transaction>)
    ensures MonthlyPoints(ts).Keys == MonthsOf(ts)
  {
    if ts != [] {
      var init, last := ts[..|ts| - 1], ts[|ts| - 1];
      MonthlyPointsKeys(init);
      assert ts == init + [last];
      assert MonthsOf(ts) == MonthsOf(init) + {last.date.month};
    }
  }

  /** Each month's entry is the sum of the points of that month's transactions. */
  lemma {:induction false} MonthlyPointsValue(ts: seq<Transaction>, m: Month)
    requires m in MonthlyPoints(ts)
    ensures MonthlyPoints(ts)[m] == PointsIn(ts, OnlyMonth(m))
  {
    var init, last := ts[..|ts| - 1], ts[|ts| - 1];
    if m in MonthlyPoints(init) {
      MonthlyPointsValue(init, m);
    } else {
      assert PointsIn(init, OnlyMonth(m)) == 0 by {
        MonthlyPointsKeys(init);
        NoPointsOutsideMonths(init, m);
      }
    }
  }

  /** A month without transactions has no points. */
  lemma {:induction false} NoPointsOutsideMonths(ts: seq<Transaction>, m: Month)
    requires m !in MonthsOf(ts)
    ensures PointsIn(ts, OnlyMonth(m)) == 0
  {
    if ts != [] {
      var init := ts[..|ts| - 1];
      assert MonthsOf(init) <= MonthsOf(ts);
      NoPointsOutsideMonths(init, m);
    }
  }

  /** Sums split over concatenation. */
  lemma {:induction false} PointsInAppend(a: seq<Transaction>, b: seq<Transaction>, filter: MonthFilter)
    ensures PointsIn(a + b, filter) == PointsIn(a, filter) + PointsIn(b, filter)
  {
    if b != [] {
      var init := b[..|b| - 1];
      assert (a + b)[..|a + b| - 1] == a + init;
      PointsInAppend(a, init, filter);
    } else {
      assert a + b == a;
    }
  }

  /** Taking one transaction out of a list takes its share out of every sum. */
  lemma PointsInRemove(us: seq<Transaction>, j: nat, filter: MonthFilter)
    requires j < |us|
    ensures PointsIn(us, filter) == PointsIn(us[..j] + us[j + 1..], filter) + Share(us[j], filter)
  {
    assert us == us[..j] + [us[j]] + us[j + 1..];
    PointsInAppend(us[..j] + [us[j]], us[j + 1..], filter);
    PointsInAppend(us[..j], [us[j]], filter);
    PointsInAppend(us[..j], us[j + 1..], filter);
    assert [us[j]][..0] == [];
  }

  /** Taking the same transaction out of two permutations of each other leaves two
      permutations of each other. */
  lemma MultisetRemove(ts: seq<Transaction>, us: seq<Transaction>, j: nat)
    requires ts != [] && j < |us| && us[j] == ts[|ts| - 1]
    requires multiset(ts) == multiset(us)
    ensures multiset(ts[..|ts| - 1]) == multiset(us[..j] + us[j + 1..])
  {
    assert ts == ts[..|ts| - 1] + [ts[|ts| - 1]];
    assert us == us[..j] + [us[j]] + us[j + 1..];
    assert multiset(ts[..|ts| - 1]) == multiset(ts) - multiset{us[j]};
    assert multiset(us[..j] + us[j + 1..]) == multiset(us) - multiset{us[j]};
  }

  /** Sums do not depend on the order of the transactions. */
  lemma {:induction false} PointsInPermutation(ts: seq<Transaction>, us: seq<Transaction>, filter: MonthFilter)
    requires multiset(ts) == multiset(us)
    ensures PointsIn(ts, filter) == PointsIn(us, filter)
  {
    if ts != [] {
      var last := ts[|ts| - 1];
      assert last in multiset(us);
      var j :| 0 <= j < |us| && us[j] == last;
      MultisetRemove(ts, us, j);
      PointsInPermutation(ts[..|ts| - 1], us[..j] + us[j + 1..], filter);
      PointsInRemove(us, j, filter);
    } else {
      assert us == [] by {
        assert |us| == |multiset(us)|;
      }
    }
  }

  /** The monthly map does not depend on the order of the transactions. */
  lemma MonthlyPointsPermutation(ts: seq<Transaction>, us: seq<Transaction>)
    requires multiset(ts) == multiset(us)
    ensures MonthlyPoints(ts) == MonthlyPoints(us)
  {
    MonthlyPointsKeys(ts);
    MonthlyPointsKeys(us);
    assert MonthsOf(ts) == MonthsOf(us) by {
      assert forall t :: t in ts <==> t in us by {
        forall t ensures t in ts <==> t in us {
          assert t in ts <==> t in multiset(ts);
          assert t in us <==> t in multiset(us);
        }
      }
    }
    forall m | m in MonthlyPoints(ts)
      ensures MonthlyPoints(ts)[m] == MonthlyPoints(us)[m]
    {
      MonthlyPointsValue(ts, m);
      MonthlyPointsValue(us, m);
      PointsInPermutation(ts, us, OnlyMonth(m));
    }
  }

  /** The outcome of a request for `customerId`, given what the transaction
      lookup returned for that customer. */
  function Summarize(customerId: string, lookup: Option<seq<Transaction>>): (r: Result<RewardSummary>)
    ensures r.Err? <==> lookup == None || lookup == Some([])
    ensures r.Err? ==> r.error == NotFound(NotFoundPrefix + customerId)
    ensures r.Ok? ==> r.value.customerId == customerId && Consistent(r.value)
    ensures r.Ok? ==> r.value.monthlyPoints.Keys == MonthsOf(lookup.value)
    ensures r.Ok? ==> forall m :: m in r.value.monthlyPoints ==>
                        r.value.monthlyPoints[m] == PointsIn(lookup.value, OnlyMonth(m))
    ensures r.Ok? ==> r.value.totalPoints == TotalPoints(lookup.value)
  {
    match lookup
    case None => Err(NotFound(NotFoundPrefix + customerId))
    case Some(ts) =>
      if ts == [] then Err(NotFound(NotFoundPrefix + customerId))
      else
        MonthlyPointsSumToTotal(ts);
        MonthlyPointsKeys(ts);
        assert forall m :: m in MonthlyPoints(ts) ==> MonthlyPoints(ts)[m] == PointsIn(ts, OnlyMonth(m)) by {
          forall m | m in MonthlyPoints(ts) ensures MonthlyPoints(ts)[m] == PointsIn(ts, OnlyMonth(m)) {
            MonthlyPointsValue(ts, m);
          }
        }
        Ok(RewardSummary(customerId, MonthlyPoints(ts), TotalPoints(ts)))
  }

  /** The summary does not depend on the order in which the lookup lists the transactions. */
  lemma SummarizeOrderIndependent(customerId: string, ts: seq<Transaction>, us: seq<Transaction>)
    requires multiset(ts) == multiset(us)
    ensures Summarize(customerId, Some(ts)) == Summarize(customerId, Some(us))
  {
    MonthlyPointsPermutation(ts, us);
    PointsInPermutation(ts, us, AnyMonth);
    assert ts == [] <==> us == [] by {
      assert |ts| == |multiset(ts)| && |us| == |multiset(us)|;
    }
  }

  /** Only the amount and the month of each transaction matter: ids, customer ids,
      years, days and times do not. */
  lemma {:induction false} OnlyAmountAndMonthMatter(ts: seq<Transaction>, us: seq<Transaction>)
    requires |ts| == |us|
    requires forall i :: 0 <= i < |ts| ==> ts[i].amount == us[i].amount && ts[i].date.month == us[i].date.month
    ensures MonthlyPoints(ts) == MonthlyPoints(us)
    ensures TotalPoints(ts) == TotalPoints(us)
  {
    if ts != [] {
      OnlyAmountAndMonthMatter(ts[..|ts| - 1], us[..|us| - 1]);
    }
  }

  /** A month whose transactions all earn nothing still gets an entry, worth 0. */
  lemma MonthWithoutPointsKept(ts: seq<Transaction>, m: Month)
    requires m in MonthsOf(ts)
    requires forall t :: t in ts && t.date.month == m ==> TransactionPoints(t) == 0
    ensures m in MonthlyPoints(ts) && MonthlyPoints(ts)[m] == 0
  {
    MonthlyPointsKeys(ts);
    MonthlyPointsValue(ts, m);
    NothingEarnedInMonth(ts, m);
  }

  lemma {:induction false} NothingEarnedInMonth(ts: seq<Transaction>, m: Month)
    requires forall t :: t in ts && t.date.month == m ==> TransactionPoints(t) == 0
    ensures PointsIn(ts, OnlyMonth(m)) == 0
  {
    if ts != [] {
      var init := ts[..|ts| - 1];
      assert forall t :: t in init ==> t in ts;
      NothingEarnedInMonth(init, m);
    }
  }

  /** `getRewardsByCustomer`, with the lookup's answer for `customerId` as input. */
  method GetRewardsByCustomer(customerId: string, lookup: Option<seq<Transaction>>) returns (r: Result<RewardSummary>)
    ensures r == Summarize(customerId, lookup)
  {
    if lookup.None? || |lookup.value| == 0 {
      return Err(NotFound(NotFoundPrefix + customerId));
    }
    var transactions := lookup.value;
    var monthlyPoints: map<Month, int> := map[];
    var totalPoints := 0;
    for i := 0 to |transactions|
      invariant monthlyPoints == MonthlyPoints(transactions[..i])
      invariant totalPoints == TotalPoints(transactions[..i])
    {
      var transaction := transactions[i];
      var points := RewardPoints(transaction.amount);
      var month := transaction.date.month;
      assert transactions[..i + 1][..i] == transactions[..i];
      monthlyPoints := Merge(monthlyPoints, month, points);
      totalPoints := totalPoints + points;
    }
    assert transactions[..|transactions|] == transactions;
    return Ok(RewardSummary(customerId, monthlyPoints, totalPoints));
  }
}
