/** The backend's low-stock calculator: how many full days a package
    lasts at a pet's consumption rate, and whether that is few enough to
    alert. Weights and grams are integers here. */
module Notify {

  /** `calculateDaysRemaining`: 0 when either rate is not positive,
      otherwise the number of whole days the weight covers, i.e. the floor
      of weight / daily consumption (`/` on a positive divisor is
      floor division in Dafny, as `Math.floor` of the quotient). */
  function CalculateDaysRemaining(weightInGrams: int, gramsPerMeal: int, mealsPerDay: int): (days: int)
    ensures gramsPerMeal <= 0 || mealsPerDay <= 0 ==> days == 0
    ensures gramsPerMeal > 0 && mealsPerDay > 0 ==>
      var daily := gramsPerMeal * mealsPerDay;
      days * daily <= weightInGrams < (days + 1) * daily
  {
    if gramsPerMeal <= 0 || mealsPerDay <= 0 then 0
    else
      var dailyConsumption := gramsPerMeal * mealsPerDay;
      FloorDivBounds(weightInGrams, dailyConsumption);
      weightInGrams / dailyConsumption
  }

  lemma FloorDivBounds(w: int, d: int)
    requires d > 0
    ensures (w / d) * d <= w < (w / d + 1) * d
  {
  }

  /** The bounds pin the result down: any `k` with
      `k * daily <= weight < (k + 1) * daily` is the result. */
  lemma {:induction false} DaysRemainingIsFloor(weightInGrams: int, gramsPerMeal: int, mealsPerDay: int, k: int)
    requires gramsPerMeal > 0 && mealsPerDay > 0
    requires k * (gramsPerMeal * mealsPerDay) <= weightInGrams < (k + 1) * (gramsPerMeal * mealsPerDay)
    ensures CalculateDaysRemaining(weightInGrams, gramsPerMeal, mealsPerDay) == k
  {
    var daily := gramsPerMeal * mealsPerDay;
    var d := CalculateDaysRemaining(weightInGrams, gramsPerMeal, mealsPerDay);
    FloorUnique(weightInGrams, daily, d, k);
  }

  lemma FloorUnique(w: int, daily: int, d: int, k: int)
    requires daily > 0
    requires d * daily <= w < (d + 1) * daily
    requires k * daily <= w < (k + 1) * daily
    ensures d == k
  {
    if d < k {
      MulMonotone(d + 1, k, daily);
    } else if k < d {
      MulMonotone(k + 1, d, daily);
    }
  }

  lemma MulMonotone(a: int, b: int, c: int)
    requires a <= b && c > 0
    ensures a * c <= b * c
  {
  }

  /** With a non-negative weight the number of days is non-negative. */
  lemma {:induction false} DaysRemainingNonNegative(weightInGrams: int, gramsPerMeal: int, mealsPerDay: int)
    requires weightInGrams >= 0
    ensures CalculateDaysRemaining(weightInGrams, gramsPerMeal, mealsPerDay) >= 0
  {
    if gramsPerMeal > 0 && mealsPerDay > 0 {
      var daily := gramsPerMeal * mealsPerDay;
      var d := CalculateDaysRemaining(weightInGrams, gramsPerMeal, mealsPerDay);
      if d < 0 {
        MulMonotone(d + 1, 0, daily);
      }
    }
  }

  /** At fixed rates, more food never means fewer days. */
  lemma {:induction false} DaysRemainingMonotone(w1: int, w2: int, gramsPerMeal: int, mealsPerDay: int)
    requires w1 <= w2
    ensures CalculateDaysRemaining(w1, gramsPerMeal, mealsPerDay) <= CalculateDaysRemaining(w2, gramsPerMeal, mealsPerDay)
  {
    if gramsPerMeal > 0 && mealsPerDay > 0 {
      var daily := gramsPerMeal * mealsPerDay;
      var d1 := CalculateDaysRemaining(w1, gramsPerMeal, mealsPerDay);
      var d2 := CalculateDaysRemaining(w2, gramsPerMeal, mealsPerDay);
      if d2 < d1 {
        MulMonotone(d2 + 1, d1, daily);
      }
    }
  }

  /** The worked examples: 1000 g at 50 g twice a day lasts 10 days, 999 g
      lasts 9 (a partial day does not count), and a zero rate gives 0. */
  lemma DaysRemainingExamples()
    ensures CalculateDaysRemaining(1000, 50, 2) == 10
    ensures CalculateDaysRemaining(999, 50, 2) == 9
    ensures CalculateDaysRemaining(1000, 0, 2) == 0
    ensures CalculateDaysRemaining(1000, 50, -1) == 0
  {
  }

  /** `shouldNotify`: alert when the days left are at most the threshold. */
  function ShouldNotify(daysRemaining: int, thresholdDays: int): bool {
    daysRemaining <= thresholdDays
  }

  /** The boundary is inclusive: exactly `t` days left alerts, `t + 1` does
      not. */
  lemma ShouldNotifyBoundary(t: int)
    ensures ShouldNotify(t, t)
    ensures !ShouldNotify(t + 1, t)
  {
  }

  /** Raising the threshold never silences an alert, and fewer days left
      never silences one either. */
  lemma ShouldNotifyMonotone(d: int, t: int, d': int, t': int)
    requires ShouldNotify(d, t)
    requires d' <= d && t <= t'
    ensures ShouldNotify(d', t')
  {
  }
}
