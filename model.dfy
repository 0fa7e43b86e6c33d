/** The values the reward service reads and returns: a customer's transactions,
    the reward summary built from them, and the not-found failure. */
module RewardModel {

  /** A month of the year, JANUARY = 1 … DECEMBER = 12, as `java.time.Month`. */
  type Month = m: int | 1 <= m <= 12 witness 1

  /** The timestamp of a transaction. Only the month is ever read; the other
      fields are carried so that a model can show they are ignored. Calendar
      validity (day within month, hour within day) is not checked. */
  datatype DateTime = DateTime(year: int, month: Month, day: int, hour: int, minute: int)

  /** One purchase of a customer. The amount is an exact real, not a double. */
  datatype Transaction = Transaction(id: string, customerId: string, amount: real, date: DateTime)

  /** The result of a successful request: points per month of the year and in all. */
  datatype RewardSummary = RewardSummary(customerId: string, monthlyPoints: map<Month, int>, totalPoints: int)

  /** The only failure the service raises: no transactions for the customer. */
  datatype Error = NotFound(message: string)

  /** What the transaction lookup answers: `None` stands for a null list. */
  datatype Option<T> = None | Some(value: T)

  /** A summary, or the failure raised instead of it. */
  datatype Result<T> = Ok(value: T) | Err(error: Error)
}
