/** The service's unit-test scenarios, stated about the model. */
module RewardScenarios {
  import opened RewardModel
  import opened RewardRule
  import opened RewardService

  /** 120.0 in January, 80.0 in February and 45.0 in March: 90, 30 and 0 points,
      120 in all. March keeps an entry worth 0, so the map has three entries. */
  lemma ValidTransactionsScenario()
    ensures var ts := [
        Transaction("1", "cust123", 120.0, DateTime(2024, 1, 10, 10, 0)),
        Transaction("2", "cust123", 80.0, DateTime(2024, 2, 15, 10, 0)),
        Transaction("3", "cust123", 45.0, DateTime(2024, 3, 20, 10, 0))];
      Summarize("cust123", Some(ts)) == Ok(RewardSummary("cust123", map[1 := 90, 2 := 30, 3 := 0], 120))
  {
    var ts := [
        Transaction("1", "cust123", 120.0, DateTime(2024, 1, 10, 10, 0)),
        Transaction("2", "cust123", 80.0, DateTime(2024, 2, 15, 10, 0)),
        Transaction("3", "cust123", 45.0, DateTime(2024, 3, 20, 10, 0))];
    assert TransactionPoints(ts[0]) == 90 by {
      assert Trunc((120.0 - UpperThreshold) * TwoPoints) == 40;
      assert Trunc((UpperThreshold - LowerThreshold) * OnePoint) == 50;
    }
    assert TransactionPoints(ts[1]) == 30 by {
      assert Trunc((80.0 - LowerThreshold) * OnePoint) == 30;
    }
    assert TransactionPoints(ts[2]) == 0;
    assert ts[..2][..1] == ts[..1] && ts[..1][..0] == [] && ts[..3] == ts;
    assert MonthlyPoints(ts[..1]) == map[1 := 90];
    assert MonthlyPoints(ts[..2]) == map[1 := 90, 2 := 30];
    assert MonthlyPoints(ts) == map[1 := 90, 2 := 30, 3 := 0];
    assert TotalPoints(ts[..1]) == TotalPoints([]) + Share(ts[0], AnyMonth) == 90;
    assert TotalPoints(ts[..2]) == TotalPoints(ts[..1]) + Share(ts[1], AnyMonth) == 120;
    assert TotalPoints(ts) == TotalPoints(ts[..2]) + Share(ts[2], AnyMonth) == 120;
  }

  /** No transactions: the not-found failure naming the customer. */
  lemma NoTransactionsScenario()
    ensures Summarize("emptyUser", Some([])) == Err(NotFound("No transactions found for customer: emptyUser"))
  {
  }

  /** An amount exactly at the lower threshold earns nothing. */
  lemma LowerThresholdScenario(date: DateTime)
    ensures var s := Summarize("custLow", Some([Transaction("1", "custLow", LowerThreshold, date)]));
      s.Ok? && s.value.totalPoints == 0
  {
    var ts := [Transaction("1", "custLow", LowerThreshold, date)];
    assert ts[..0] == [];
    assert TotalPoints(ts) == TotalPoints([]) + Share(ts[0], AnyMonth) == 0;
  }

  /** 75.0 in April: 25 points, all of them April's. */
  lemma MiddleRangeScenario()
    ensures var s := Summarize("custMid", Some([Transaction("1", "custMid", 75.0, DateTime(2024, 4, 1, 12, 0))]));
      s.Ok? && s.value.totalPoints == 25 && s.value.monthlyPoints == map[4 := 25]
  {
  }

  /** 200.0 in May: 200 points for the part above 100 plus 50 for the band, all May's. */
  lemma HighValueScenario()
    ensures var s := Summarize("custHigh", Some([Transaction("1", "custHigh", 200.0, DateTime(2024, 5, 1, 12, 0))]));
      s.Ok? && s.value.totalPoints == 250 && s.value.monthlyPoints == map[5 := 250]
  {
  }
}
