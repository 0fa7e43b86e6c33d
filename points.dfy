/** The tiered rule that turns one transaction amount into reward points
    (`RewardService.calculateRewardPoints`), with the properties the rule
    promises, an equivalent table-driven form, and the rule as Java's 32-bit
    `int` arithmetic actually evaluates it. */
module RewardRule {

  /** Amounts at or below this threshold earn nothing. */
  const LowerThreshold: real := 50.0
  /** Above this threshold the part of the amount beyond it earns the higher rate. */
  const UpperThreshold: real := 100.0
  /** Points per currency unit between the two thresholds. */
  const OnePoint: real := 1.0
  /** Points per currency unit above the upper threshold. */
  const TwoPoints: real := 2.0

  /** Java's `(int)` narrowing of a number, ignoring the range of `int`:
      rounding toward zero. */
  function Trunc(x: real): (r: int)
    ensures 0.0 <= x ==> 0 <= r && r as real <= x < r as real + 1.0
    ensures x < 0.0 ==> r <= 0 && r as real - 1.0 < x <= r as real
  {
    if x < 0.0 then -((-x).Floor) else x.Floor
  }

  /** The points one transaction of `amount` earns. Each tier is truncated
      on its own, as the source does. */
  function RewardPoints(amount: real): (r: int)
    ensures 0 <= r
  {
    if amount > UpperThreshold then
      Trunc((amount - UpperThreshold) * TwoPoints) + Trunc((UpperThreshold - LowerThreshold) * OnePoint)
    else if amount > LowerThreshold then
      Trunc((amount - LowerThreshold) * OnePoint)
    else
      0
  }

  /** Any amount up to and including the lower threshold, negative ones too, earns nothing. */
  lemma NothingAtOrBelowLower(amount: real)
    requires amount <= LowerThreshold
    ensures RewardPoints(amount) == 0
  {
  }

  /** Between the thresholds, the upper one included, an amount earns one point per
      whole unit above the lower threshold, so at most the 50 points of the band. */
  lemma MiddleTier(amount: real)
    requires LowerThreshold < amount <= UpperThreshold
    ensures var r := RewardPoints(amount);
      r as real <= amount - LowerThreshold < r as real + 1.0 && r <= 50
  {
  }

  /** Above the upper threshold an amount earns the whole middle band (50 points)
      plus two points per whole unit above the upper threshold, the product rounded down. */
  lemma HighTier(amount: real)
    requires amount > UpperThreshold
    ensures var k := RewardPoints(amount) - 50;
      0 <= k && k as real <= (amount - UpperThreshold) * 2.0 < k as real + 1.0
  {
  }

  /** The points the rule accrues before anything is rounded: a continuous,
      piecewise-linear function of the amount. */
  function ExactPoints(amount: real): (p: real)
    ensures 0.0 <= p
  {
    if amount <= LowerThreshold then 0.0
    else if amount <= UpperThreshold then (amount - LowerThreshold) * OnePoint
    else (UpperThreshold - LowerThreshold) * OnePoint + (amount - UpperThreshold) * TwoPoints
  }

  /** With these constants, truncating each tier on its own gives the same points
      as rounding the exact accrual down once: the middle band is a whole number. */
  lemma PerTierTruncationIsFloorOfExact(amount: real)
    ensures RewardPoints(amount) == ExactPoints(amount).Floor
  {
  }

  /** A larger amount never earns fewer points. */
  lemma PointsMonotonic(a: real, b: real)
    requires a <= b
    ensures RewardPoints(a) <= RewardPoints(b)
  {
  }

  /** One tier of an ordered table: from `threshold` up to the next tier's
      threshold, each currency unit earns `rate` points. */
  datatype Tier = Tier(threshold: real, rate: real)

  /** The rule above as a table. */
  const RewardTiers: seq<Tier> := [Tier(LowerThreshold, OnePoint), Tier(UpperThreshold, TwoPoints)]

  /** Thresholds ascend and rates are not negative. */
  ghost predicate WellFormedTable(tiers: seq<Tier>)
  {
    && (forall i :: 0 <= i < |tiers| ==> 0.0 <= tiers[i].rate)
    && (forall i :: 0 < i < |tiers| ==> tiers[i - 1].threshold <= tiers[i].threshold)
  }

  /** What one tier contributes when the next tier starts at `top`: its rate times
      the part of the amount inside the tier, truncated on its own. */
  function TierShare(tier: Tier, top: real, amount: real): (r: int)
    ensures 0.0 <= tier.rate && (amount > tier.threshold ==> tier.threshold <= top) ==> 0 <= r
  {
    if amount > tier.threshold then
      ProductNonNegative(top - tier.threshold, tier.rate);
      Trunc((top - tier.threshold) * tier.rate)
    else
      0
  }

  /** Table-driven points: the sum of the shares of every tier. */
  function TablePoints(tiers: seq<Tier>, amount: real): (r: int)
  {
    if tiers == [] then 0
    else
      var top := if |tiers| == 1 || amount <= tiers[1].threshold then amount else tiers[1].threshold;
      TierShare(tiers[0], top, amount) + TablePoints(tiers[1..], amount)
  }

  lemma ProductNonNegative(x: real, y: real)
    ensures 0.0 <= x && 0.0 <= y ==> 0.0 <= x * y
  {
  }

  /** Any well-formed table never awards negative points. */
  lemma {:induction false} TablePointsNonNegative(tiers: seq<Tier>, amount: real)
    requires WellFormedTable(tiers)
    ensures 0 <= TablePoints(tiers, amount)
  {
    if tiers != [] {
      assert WellFormedTable(tiers[1..]) by {
        forall i | 0 < i < |tiers[1..]|
          ensures tiers[1..][i - 1].threshold <= tiers[1..][i].threshold
        {
          assert tiers[1..][i - 1] == tiers[i] && tiers[1..][i] == tiers[i + 1];
        }
      }
      TablePointsNonNegative(tiers[1..], amount);
    }
  }

  /** The configured table is well formed and awards exactly what the rule does. */
  lemma TableAgreesWithRule(amount: real)
    ensures WellFormedTable(RewardTiers)
    ensures TablePoints(RewardTiers, amount) == RewardPoints(amount)
  {
    var low, high := Tier(LowerThreshold, OnePoint), Tier(UpperThreshold, TwoPoints);
    assert RewardTiers[1..] == [high] && [high][1..] == [];
    assert TablePoints([high], amount) == TierShare(high, amount, amount);
    if amount > UpperThreshold {
      assert TablePoints(RewardTiers, amount) == TierShare(low, UpperThreshold, amount) + TierShare(high, amount, amount);
      assert TierShare(low, UpperThreshold, amount) == Trunc((UpperThreshold - LowerThreshold) * OnePoint);
      assert TierShare(high, amount, amount) == Trunc((amount - UpperThreshold) * TwoPoints);
    } else {
      assert TablePoints(RewardTiers, amount) == TierShare(low, amount, amount) + TierShare(high, amount, amount);
    }
  }

  // Java's 32-bit `int`, in which the source evaluates the rule.

  const IntMinValue: int := -0x8000_0000
  const IntMaxValue: int := 0x7fff_ffff

  predicate InIntRange(x: int)
  {
    IntMinValue <= x <= IntMaxValue
  }

  /** Java's `(int)` cast of a finite double: truncation toward zero, saturating
      at the bounds of `int` (section 5.1.3 of the Java Language Specification). */
  function NarrowToInt(x: real): (r: int)
    ensures InIntRange(r)
    ensures InIntRange(Trunc(x)) ==> r == Trunc(x)
    ensures x >= 0.0 ==> 0 <= r <= Trunc(x)
  {
    var t := Trunc(x);
    if t > IntMaxValue then IntMaxValue else if t < IntMinValue then IntMinValue else t
  }

  /** Java's `int` addition: the exact sum wrapped around into the range of `int`. */
  function AddInt(a: int, b: int): (r: int)
    requires InIntRange(a) && InIntRange(b)
    ensures InIntRange(r)
    ensures (r - (a + b)) % 0x1_0000_0000 == 0
    ensures InIntRange(a + b) ==> r == a + b
  {
    var s := a + b;
    if s > IntMaxValue then s - 0x1_0000_0000 else if s < IntMinValue then s + 0x1_0000_0000 else s
  }

  /** `calculateRewardPoints` as written: the local `int points` accumulator,
      narrowing casts and `+=` in 32-bit arithmetic. */
  function RewardPointsAsWritten(amount: real): (r: int)
    ensures InIntRange(r)
  {
    if amount > UpperThreshold then
      AddInt(AddInt(0, NarrowToInt((amount - UpperThreshold) * TwoPoints)),
             NarrowToInt((UpperThreshold - LowerThreshold) * OnePoint))
    else if amount > LowerThreshold then
      AddInt(0, NarrowToInt((amount - LowerThreshold) * OnePoint))
    else
      0
  }

  /** The smallest amount whose points no longer fit in an `int`. */
  const OverflowAmount: real := 1073741899.0

  /** Below the overflow amount the 32-bit evaluation is exact. */
  lemma AsWrittenAgreesBelowOverflow(amount: real)
    requires amount < OverflowAmount
    ensures RewardPointsAsWritten(amount) == RewardPoints(amount)
  {
  }

  /** From the overflow amount on, the 32-bit evaluation returns negative points,
      although the rule never awards fewer than zero. */
  lemma AsWrittenNegativeFromOverflow(amount: real)
    requires amount >= OverflowAmount
    ensures RewardPointsAsWritten(amount) < 0 <= RewardPoints(amount)
  {
  }

  /** The first overflowing amount earns Integer.MIN_VALUE points instead of 2^31. */
  lemma AsWrittenOverflowExample()
    ensures RewardPoints(OverflowAmount) == 0x8000_0000
    ensures RewardPointsAsWritten(OverflowAmount) == IntMinValue
  {
  }
}
