/**
 * `StatisticCharPriceCalculator`: the point price of a new cell, drawn from
 * a fixed discrete distribution. The random roll is a parameter here; the
 * source draws it with `Random.Range(1, 100)`, an integer in 1..99.
 */
module PriceCalculation {

  /** Smallest roll the source can draw. */
  const MinRoll := 1
  /** One past the largest roll the source can draw (the upper bound is exclusive). */
  const RollBound := 100

  /** The price for roll `r`: thresholds 85, 90 and 95. */
  function CalculatePrice(r: int): (p: int)
    ensures 1 <= p <= 4
  {
    if r < 85 then 1
    else if r < 90 then 2
    else if r < 95 then 3
    else 4
  }

  /** How many rolls in [lo, hi) give price `p`. */
  function CountRolls(p: int, lo: int, hi: int): nat
    decreases hi - lo
  {
    if hi <= lo then 0
    else CountRolls(p, lo, hi - 1) + (if CalculatePrice(hi - 1) == p then 1 else 0)
  }

  lemma {:induction false} CountRollsSplit(p: int, lo: int, mid: int, hi: int)
    requires lo <= mid <= hi
    ensures CountRolls(p, lo, hi) == CountRolls(p, lo, mid) + CountRolls(p, mid, hi)
    decreases hi - mid
  {
    if mid < hi {
      CountRollsSplit(p, lo, mid, hi - 1);
    }
  }

  lemma {:induction false} CountRollsBand(p: int, lo: int, hi: int)
    requires lo <= hi
    ensures (forall r :: lo <= r < hi ==> CalculatePrice(r) == p) ==> CountRolls(p, lo, hi) == hi - lo
    ensures (forall r :: lo <= r < hi ==> CalculatePrice(r) != p) ==> CountRolls(p, lo, hi) == 0
    decreases hi - lo
  {
    if lo < hi {
      CountRollsBand(p, lo, hi - 1);
    }
  }

  /** The count over all rolls, split at the three thresholds. */
  lemma CountRollsAtThresholds(p: int)
    ensures CountRolls(p, MinRoll, RollBound)
      == CountRolls(p, 1, 85) + CountRolls(p, 85, 90) + CountRolls(p, 90, 95) + CountRolls(p, 95, 100)
  {
    CountRollsSplit(p, 1, 85, 100);
    CountRollsSplit(p, 85, 90, 100);
    CountRollsSplit(p, 90, 95, 100);
  }

  /** The number of rolls in each of the four bands that give price `p`. */
  lemma CountRollsPerBand(p: int)
    ensures CountRolls(p, 1, 85) == (if p == 1 then 84 else 0)
    ensures CountRolls(p, 85, 90) == (if p == 2 then 5 else 0)
    ensures CountRolls(p, 90, 95) == (if p == 3 then 5 else 0)
    ensures CountRolls(p, 95, 100) == (if p == 4 then 5 else 0)
  {
    CountRollsBand(p, 1, 85);
    CountRollsBand(p, 85, 90);
    CountRollsBand(p, 90, 95);
    CountRollsBand(p, 95, 100);
  }

  /** The number of rolls in 1..99 that give price `p`. */
  lemma CountRollsOfPrice(p: int)
    requires 1 <= p <= 4
    ensures CountRolls(p, MinRoll, RollBound) == if p == 1 then 84 else 5
  {
    CountRollsAtThresholds(p);
    CountRollsPerBand(p);
  }

  /**
   * Of the 99 rolls the source can draw, 84 give price 1 and 5 give each of
   * prices 2, 3 and 4.
   */
  lemma PriceDistribution()
    ensures CountRolls(1, MinRoll, RollBound) == 84
    ensures CountRolls(2, MinRoll, RollBound) == 5
    ensures CountRolls(3, MinRoll, RollBound) == 5
    ensures CountRolls(4, MinRoll, RollBound) == 5
  {
    CountRollsOfPrice(1);
    CountRollsOfPrice(2);
    CountRollsOfPrice(3);
    CountRollsOfPrice(4);
  }
}
