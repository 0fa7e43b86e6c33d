# Customer rewards: a verified model of the reward calculation

This project models the reward service of `customer-rewards-app`. The service
turns a customer's transactions into loyalty points and reports them per month
of the year and in total.

- `model.dfy` (module `RewardModel`) holds the values the service reads and returns.
  A `Transaction` has an id, a customer id, an amount and a timestamp. Only the
  timestamp's month is ever read. A `RewardSummary` holds the customer id, the
  points per `Month` (1..12) and the total. `NotFound` is the one failure. The
  transaction lookup's answer is an `Option`, where `None` stands for a null list.
- `points.dfy` (module `RewardRule`) models `calculateRewardPoints` as the pure
  function `RewardPoints`. It uses the named constants `LowerThreshold` = 50,
  `UpperThreshold` = 100, `OnePoint` = 1 and `TwoPoints` = 2, and truncates each tier
  on its own. Lemmas state the three tiers, non-negativity and monotonicity. A
  lemma shows that per-tier truncation equals flooring the exact accrual
  `ExactPoints`. A table-driven form, `TablePoints`, is proved equal to the rule.
  The same file models the rule as written in Java's 32-bit `int` arithmetic
  (`RewardPointsAsWritten`); see Findings.
- `service.dfy` (module `RewardService`) models `getRewardsByCustomer` as the method
  `GetRewardsByCustomer`. It is the service's loop, with `Map.merge` modelled by
  `Merge` and a running total. The method is proved equal to the specification
  function `Summarize`. Lemmas about `Summarize` show the following:
  - the failure happens exactly when the lookup answers null or an empty list, and
    it carries the exact message;
  - the total equals the sum of the monthly values;
  - the map's months are exactly the transactions' months;
  - each month holds the sum of that month's points;
  - the result depends neither on the order of the transactions nor on anything
    but their amounts and months.
- `scenarios.dfy` (module `RewardScenarios`) restates the service's unit tests as
  lemmas about `Summarize`.

One might expect months whose transactions earn no points to be left out of the
monthly map. `Map.merge` inserts such a month with the value 0, and the model
keeps that entry (`MonthWithoutPointsKept`). So the first unit-test scenario
yields three entries, March's worth 0. That test's own size assertion is
commented out for this reason.

## Model

| member | source | states |
|---|---|---|
| `RewardRule.Trunc` | customer-rewards-app/src/main/java/com/customer/rewards/service/RewardService.java:68-71 | the `(int)` cast rounds toward zero: for x ≥ 0 the result is the largest integer not above x, for x < 0 the smallest not below x |
| `RewardRule.RewardPoints` | customer-rewards-app/src/main/java/com/customer/rewards/service/RewardService.java:64-75 | every amount earns a non-negative number of points, negative amounts included |
| `RewardRule.NothingAtOrBelowLower` | customer-rewards-app/src/main/java/com/customer/rewards/service/RewardService.java:65-74 | an amount ≤ 50, exactly 50 and negative amounts included, earns 0 |
| `RewardRule.MiddleTier` | customer-rewards-app/src/main/java/com/customer/rewards/service/RewardService.java:70-71 | for 50 < amount ≤ 100 the points are the whole units above 50, at most 50; exactly 100 takes this tier |
| `RewardRule.HighTier` | customer-rewards-app/src/main/java/com/customer/rewards/service/RewardService.java:67-69 | above 100 the points are the full 50-point middle band plus 2 × (amount − 100) rounded down |
| `RewardRule.ExactPoints` | customer-rewards-app/src/main/java/com/customer/rewards/service/RewardService.java:64-75 | the accrual before rounding, as a reference definition, is never negative |
| `RewardRule.PerTierTruncationIsFloorOfExact` | customer-rewards-app/src/main/java/com/customer/rewards/service/RewardService.java:67-72 | with these constants, truncating each tier on its own equals flooring the exact accrual once |
| `RewardRule.PointsMonotonic` | customer-rewards-app/src/main/java/com/customer/rewards/service/RewardService.java:64-75 | a larger amount never earns fewer points |
| `RewardRule.TierShare` | customer-rewards-app/src/main/java/com/customer/rewards/service/RewardService.java:68-71 | one tier's share is non-negative when its rate is and the tier's top is not below its threshold |
| `RewardRule.TablePointsNonNegative` | customer-rewards-app/src/main/java/com/customer/rewards/service/RewardService.java:64-75 | any tier table with ascending thresholds and non-negative rates awards non-negative points |
| `RewardRule.TableAgreesWithRule` | customer-rewards-app/src/main/java/com/customer/rewards/service/RewardService.java:64-75 | the table (50 at rate 1, 100 at rate 2) is well formed and awards exactly what the conditional rule awards, for every amount |
| `RewardRule.NarrowToInt` | customer-rewards-app/src/main/java/com/customer/rewards/service/RewardService.java:68-71 | Java's `(int)` of a double lies in the `int` range, equals truncation when that fits, and is between 0 and the truncation for non-negative input |
| `RewardRule.AddInt` | customer-rewards-app/src/main/java/com/customer/rewards/service/RewardService.java:68-69 | `int` addition stays in range, is congruent to the exact sum modulo 2^32, and is exact when the sum fits |
| `RewardRule.RewardPointsAsWritten` | customer-rewards-app/src/main/java/com/customer/rewards/service/RewardService.java:64-75 | the rule evaluated in 32-bit arithmetic always returns an `int` |
| `RewardRule.AsWrittenAgreesBelowOverflow` | customer-rewards-app/src/main/java/com/customer/rewards/service/RewardService.java:64-75 | below 1073741899 the 32-bit evaluation equals the exact rule |
| `RewardRule.AsWrittenNegativeFromOverflow` | customer-rewards-app/src/main/java/com/customer/rewards/service/RewardService.java:67-69 | from 1073741899 on, the 32-bit evaluation is negative while the exact rule is not |
| `RewardRule.AsWrittenOverflowExample` | customer-rewards-app/src/main/java/com/customer/rewards/service/RewardService.java:67-69 | 1073741899 earns 2^31 points exactly and Integer.MIN_VALUE as written |
| `RewardService.TransactionPoints` | customer-rewards-app/src/main/java/com/customer/rewards/service/RewardService.java:45 | a transaction's points are non-negative and 0 at or below the lower threshold |
| `RewardService.Merge` | customer-rewards-app/src/main/java/com/customer/rewards/service/RewardService.java:47 | `merge(month, points, Integer::sum)` adds the month to the keys, sets it to the old value (0 if absent) plus the points, and changes no other entry |
| `RewardService.MergeAddsToMonthsTotal` | customer-rewards-app/src/main/java/com/customer/rewards/service/RewardService.java:47-48 | a merge raises the sum of the map's values by exactly the merged points, the amount the total is raised by |
| `RewardService.MonthlyPointsSumToTotal` | customer-rewards-app/src/main/java/com/customer/rewards/service/RewardService.java:44-49 | after any prefix of the loop, the sum of the monthly values equals the total of all points |
| `RewardService.MonthlyPointsKeys` | customer-rewards-app/src/main/java/com/customer/rewards/service/RewardService.java:46-47 | the map's keys are exactly the months of the transactions, the year dropped, zero-point months included |
| `RewardService.MonthlyPointsValue` | customer-rewards-app/src/main/java/com/customer/rewards/service/RewardService.java:44-47 | each month's entry is the sum of the points of that month's transactions |
| `RewardService.PointsInPermutation` | customer-rewards-app/src/main/java/com/customer/rewards/service/RewardService.java:44-49 | any sum of points, in total or per month, is the same for every reordering of the transactions |
| `RewardService.MonthlyPointsPermutation` | customer-rewards-app/src/main/java/com/customer/rewards/service/RewardService.java:44-49 | the monthly map is the same for every reordering of the transactions |
| `RewardService.Summarize` | customer-rewards-app/src/main/java/com/customer/rewards/service/RewardService.java:34-56 | the request fails exactly when the lookup answers null or an empty list, with message "No transactions found for customer: " + id; otherwise the summary carries the id, its total is the sum of its monthly values and of all points, its months are the transactions' months and each month holds that month's points |
| `RewardService.SummarizeOrderIndependent` | customer-rewards-app/src/main/java/com/customer/rewards/service/RewardService.java:44-55 | the outcome is the same for every reordering of the lookup's list |
| `RewardService.OnlyAmountAndMonthMatter` | customer-rewards-app/src/main/java/com/customer/rewards/service/RewardService.java:45-46 | transactions that agree in amount and month give the same map and total, whatever their ids, years, days or times |
| `RewardService.MonthWithoutPointsKept` | customer-rewards-app/src/main/java/com/customer/rewards/service/RewardService.java:46-47 | a month whose transactions all earn 0 points (amounts up to 50, or up to just under 51) still has an entry, worth 0 |
| `RewardService.GetRewardsByCustomer` | customer-rewards-app/src/main/java/com/customer/rewards/service/RewardService.java:34-56 | the loop over the transactions, merging into a local map and adding to a running total, returns exactly `Summarize`'s outcome |
| `RewardScenarios.ValidTransactionsScenario` | customer-rewards-app/src/test/java/com/customer/rewards/service/RewardServiceTest.java:37-56 | 120.0 in January, 80.0 in February and 45.0 in March give {1: 90, 2: 30, 3: 0} and a total of 120 |
| `RewardScenarios.NoTransactionsScenario` | customer-rewards-app/src/test/java/com/customer/rewards/service/RewardServiceTest.java:61-74 | an empty list fails with "No transactions found for customer: emptyUser" |
| `RewardScenarios.LowerThresholdScenario` | customer-rewards-app/src/test/java/com/customer/rewards/service/RewardServiceTest.java:79-91 | one transaction of exactly 50, at any date, totals 0 |
| `RewardScenarios.MiddleRangeScenario` | customer-rewards-app/src/test/java/com/customer/rewards/service/RewardServiceTest.java:96-109 | 75.0 in April gives 25 points, all in April |
| `RewardScenarios.HighValueScenario` | customer-rewards-app/src/test/java/com/customer/rewards/service/RewardServiceTest.java:114-130 | 200.0 in May gives 250 points, all in May |

## Left out

- The Spring wiring, the `@Service` annotation, constructor injection and `TransactionRepository`. `GetRewardsByCustomer` takes the lookup's answer for the customer as an input (`Option<seq<Transaction>>`). Failures of the lookup itself are outside the model.
- The `Constants` class is not part of this model. The values 50, 100, 1 and 2 are assumed and appear here as named constants. The unit tests agree with them (75 earns 25, 80 earns 30, 120 earns 90, 45 and 50 earn 0) but do not determine them. The 200-amount test computes its expected value from `Constants` itself.
- Amounts are exact reals, not IEEE-754 doubles. Rounding in `amount - threshold` and in the multiplication is not modelled, and neither are NaN or infinite amounts.
- `LocalDateTime` is reduced to a record whose month (1..12) is the only field read. Calendar validity is not checked.
- `RewardService.GetRewardsByCustomer`: it uses the corrected per-transaction rule `RewardPoints`, and its running total and merged month values are unbounded integers. Java's `int` wrap-around is not modelled, neither per transaction nor once one customer's summed points pass 2^31 − 1. For one transaction of 2000000000.0 the source totals −2147483599 and the model 3999999850. The 32-bit per-transaction form exists only in `RewardRule.RewardPointsAsWritten` (Findings).
- `RewardService.Summarize`: the same as `GetRewardsByCustomer`. It uses the corrected rule `RewardPoints` and unbounded sums.
- The iteration order of the `HashMap` and the Lombok builder of `RewardSummary`. The monthly points are a Dafny `map`.
- The second constructor of `ResourceNotFoundException` (message and cause), its serial version id, and the exception mechanism itself. The failure is the `NotFound(message)` result.
- The controller and its test, which only pass the service's result through.

## Findings

| source | as written | input that shows it | evidently intended | confidence | as-written member | corrected member |
|---|---|---|---|---|---|---|
| customer-rewards-app/src/main/java/com/customer/rewards/service/RewardService.java:67-69 | `points` is an `int`. The high tier's cast saturates at 2^31 − 1, and `points +=` wraps around. | The amount 1073741899.0 has (1073741899 − 100) × 2 = 2147483598, and adding the 50-point band gives 2^31, which wraps to −2147483648 (`AsWrittenOverflowExample`). Every amount from 1073741899 on earns negative points (`AsWrittenNegativeFromOverflow`). Below it the 32-bit result is exact (`AsWrittenAgreesBelowOverflow`). | Points are never negative and grow with the amount. | not executed | `RewardRule.RewardPointsAsWritten` | `RewardRule.RewardPoints` |

The rest of the model uses the corrected rule `RewardPoints`, which is proved non-negative (its contract) and monotone (`PointsMonotonic`).
