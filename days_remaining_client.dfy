/** The frontend's copy of the days-remaining rule. */
module ClientDaysRemaining {
  import Notify

  /** `calculateDaysRemaining` of the client utilities: the number of full
      days of food left; 0 when a rate is not positive. */
  function CalculateDaysRemaining(weightInGrams: int, gramsPerMeal: int, mealsPerDay: int): (days: int)
    ensures gramsPerMeal <= 0 || mealsPerDay <= 0 ==> days == 0
    ensures gramsPerMeal > 0 && mealsPerDay > 0 ==>
      var daily := gramsPerMeal * mealsPerDay;
      days * daily <= weightInGrams < (days + 1) * daily
  {
    if gramsPerMeal <= 0 || mealsPerDay <= 0 then
      0
    else
      var dailyConsumption := gramsPerMeal * mealsPerDay;
      Notify.FloorDivBounds(weightInGrams, dailyConsumption);
      weightInGrams / dailyConsumption
  }

  /** The frontend and backend compute the same number on every input. */
  lemma AgreesWithBackend(weightInGrams: int, gramsPerMeal: int, mealsPerDay: int)
    ensures CalculateDaysRemaining(weightInGrams, gramsPerMeal, mealsPerDay)
         == Notify.CalculateDaysRemaining(weightInGrams, gramsPerMeal, mealsPerDay)
  {
  }

  /** Full days only: with a non-negative weight the count is non-negative
      and what is left over is less than one day's consumption. */
  lemma {:induction false} PartialDayNotCounted(weightInGrams: int, gramsPerMeal: int, mealsPerDay: int)
    requires weightInGrams >= 0 && gramsPerMeal > 0 && mealsPerDay > 0
    ensures var d := CalculateDaysRemaining(weightInGrams, gramsPerMeal, mealsPerDay);
      d >= 0 && 0 <= weightInGrams - d * (gramsPerMeal * mealsPerDay) < gramsPerMeal * mealsPerDay
  {
    AgreesWithBackend(weightInGrams, gramsPerMeal, mealsPerDay);
    Notify.DaysRemainingNonNegative(weightInGrams, gramsPerMeal, mealsPerDay);
    var d := CalculateDaysRemaining(weightInGrams, gramsPerMeal, mealsPerDay);
    var daily := gramsPerMeal * mealsPerDay;
    assert (d + 1) * daily == d * daily + daily;
  }
}
