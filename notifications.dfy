/** The client's low-stock alert aggregation: pets as the API returns them
    (each with its food resolved, or not), mapped to alerts and filtered. */
module Notifications {
  import opened Wrappers
  import JsStrings
  import Notify
  import ClientDaysRemaining
  import FoodModel
  import PetModel

  /** The resolved food of a fetched pet, as far as the alerts read it;
      `weight` may be absent from the JSON. */
  datatype JoinedFood = JoinedFood(isOpen: bool, weight: Option<int>)

  /** A pet as `getPets()` returns it, `food` resolved to one document or
      not at all. */
  datatype FetchedPet = FetchedPet(
    id: string,
    name: string,
    gramsPerMeal: int,
    mealsPerDay: int,
    food: Option<JoinedFood>)

  datatype Alert = Alert(petId: string, petName: string, daysRemaining: int, message: string)

  /** The default of `getLowStockAlerts`'s threshold parameter. */
  const DefaultThresholdDays: int := 10

  /** `populate('food')`: the pet's food reference resolved against the
      food collection; a dangling reference resolves to nothing. */
  function Populate(p: PetModel.Pet, foods: map<string, FoodModel.Food>): (r: FetchedPet)
    ensures r.id == p.id && r.name == p.name
    ensures r.gramsPerMeal == p.gramsPerMeal && r.mealsPerDay == p.mealsPerDay
    ensures r.food.Some? <==> p.food in foods
    ensures r.food.Some? ==>
      r.food.value.isOpen == foods[p.food].isOpen && r.food.value.weight == Some(foods[p.food].weight)
  {
    var food := if p.food in foods then Some(JoinedFood(foods[p.food].isOpen, Some(foods[p.food].weight))) else None;
    FetchedPet(p.id, p.name, p.gramsPerMeal, p.mealsPerDay, food)
  }

  /** `food.weight || 0`: an absent weight counts as 0 grams. */
  function WeightOrZero(food: JoinedFood): int {
    food.weight.GetOr(0)
  }

  /** `"{name} has only {d} day(s) of food left."`, singular exactly when
      `d` is 1. */
  function AlertMessage(petName: string, daysRemaining: int): string {
    petName + " has only " + JsStrings.IntToString(daysRemaining) + " day"
    + (if daysRemaining != 1 then "s" else "") + " of food left."
  }

  /** The `map` callback: `None` (the JavaScript `null`) for a pet that is
      skipped, otherwise its alert. */
  function AlertFor(pet: FetchedPet, thresholdDays: int): Option<Alert> {
    if pet.food.None? || !pet.food.value.isOpen then None
    else
      var weightInGrams := WeightOrZero(pet.food.value);
      var daysRemaining := ClientDaysRemaining.CalculateDaysRemaining(weightInGrams, pet.gramsPerMeal, pet.mealsPerDay);
      if !Notify.ShouldNotify(daysRemaining, thresholdDays) then None
      else Some(Alert(pet.id, pet.name, daysRemaining, AlertMessage(pet.name, daysRemaining)))
  }

  /** The days a pet with open food has left, as the alert computes them. */
  function DaysFor(pet: FetchedPet): int
    requires pet.food.Some?
  {
    ClientDaysRemaining.CalculateDaysRemaining(WeightOrZero(pet.food.value), pet.gramsPerMeal, pet.mealsPerDay)
  }

  /** Whether a pet yields an alert. */
  predicate Qualifies(pet: FetchedPet, thresholdDays: int) {
    pet.food.Some? && pet.food.value.isOpen && DaysFor(pet) <= thresholdDays
  }

  /** `getLowStockAlerts(thresholdDays)` over the fetched pets: the map and
      the `filter(alert => alert !== null)` in one pass. Every alert is
      within the threshold. */
  function LowStockAlerts(pets: seq<FetchedPet>, thresholdDays: int): (alerts: seq<Alert>)
    ensures |alerts| <= |pets|
    ensures forall k :: 0 <= k < |alerts| ==> alerts[k].daysRemaining <= thresholdDays
  {
    if pets == [] then []
    else
      var head := match AlertFor(pets[0], thresholdDays) case None => [] case Some(a) => [a];
      head + LowStockAlerts(pets[1..], thresholdDays)
  }

  /** `getLowStockAlerts()` called without an argument: the threshold
      defaults to 10 days. */
  function DefaultLowStockAlerts(pets: seq<FetchedPet>): (alerts: seq<Alert>)
    ensures |alerts| <= |pets|
    ensures forall k :: 0 <= k < |alerts| ==> alerts[k].daysRemaining <= 10
  {
    LowStockAlerts(pets, DefaultThresholdDays)
  }

  /** The alert of a qualifying pet, in full. */
  lemma AlertForQualifying(pet: FetchedPet, thresholdDays: int)
    ensures AlertFor(pet, thresholdDays).Some? <==> Qualifies(pet, thresholdDays)
    ensures Qualifies(pet, thresholdDays) ==>
      AlertFor(pet, thresholdDays) == Some(Alert(pet.id, pet.name, DaysFor(pet), AlertMessage(pet.name, DaysFor(pet))))
  {
  }

  /** The positions `start..` of the qualifying pets, in increasing
      order; every qualifying position is listed. */
  function QualifyingIndices(pets: seq<FetchedPet>, thresholdDays: int, start: nat): (idx: seq<nat>)
    requires start <= |pets|
    ensures forall k :: 0 <= k < |idx| ==> start <= idx[k] < |pets| && Qualifies(pets[idx[k]], thresholdDays)
    ensures forall k, l :: 0 <= k < l < |idx| ==> idx[k] < idx[l]
    ensures forall i :: start <= i < |pets| && Qualifies(pets[i], thresholdDays) ==> i in idx
    decreases |pets| - start
  {
    if start == |pets| then []
    else (if Qualifies(pets[start], thresholdDays) then [start] else []) + QualifyingIndices(pets, thresholdDays, start + 1)
  }

  /** Alerts and qualifying pets correspond one to one and in order: the
      k-th alert is the alert of the k-th qualifying pet. So no pet without
      open food yields an alert, every qualifying pet yields exactly one,
      and alerts follow the pets' order. */
  lemma AlertsMatchQualifyingPets(pets: seq<FetchedPet>, thresholdDays: int)
    ensures var alerts := LowStockAlerts(pets, thresholdDays);
      var idx := QualifyingIndices(pets, thresholdDays, 0);
      |alerts| == |idx| &&
      forall k :: 0 <= k < |idx| ==> Some(alerts[k]) == AlertFor(pets[idx[k]], thresholdDays)
  {
    AlertsFrom(pets, thresholdDays, 0);
  }

  lemma {:induction false} AlertsFrom(pets: seq<FetchedPet>, thresholdDays: int, start: nat)
    requires start <= |pets|
    ensures var alerts := LowStockAlerts(pets[start..], thresholdDays);
      var idx := QualifyingIndices(pets, thresholdDays, start);
      |alerts| == |idx| &&
      forall k :: 0 <= k < |idx| ==> Some(alerts[k]) == AlertFor(pets[idx[k]], thresholdDays)
    decreases |pets| - start
  {
    if start < |pets| {
      AlertsFrom(pets, thresholdDays, start + 1);
      var here := pets[start..];
      assert here[0] == pets[start];
      assert here[1..] == pets[start + 1..];
      var tail := LowStockAlerts(pets[start + 1..], thresholdDays);
      var rest := QualifyingIndices(pets, thresholdDays, start + 1);
      match AlertFor(pets[start], thresholdDays)
      case None =>
        assert !Qualifies(pets[start], thresholdDays) by { AlertForQualifying(pets[start], thresholdDays); }
        assert LowStockAlerts(here, thresholdDays) == tail;
        assert QualifyingIndices(pets, thresholdDays, start) == rest;
      case Some(a) =>
        assert Qualifies(pets[start], thresholdDays) by { AlertForQualifying(pets[start], thresholdDays); }
        assert LowStockAlerts(here, thresholdDays) == [a] + tail;
        assert QualifyingIndices(pets, thresholdDays, start) == [start] + rest;
        ConsCorrespondence(pets, thresholdDays, a, tail, start, rest);
    }
  }

  /** One more matched pair in front keeps alerts and positions matched. */
  lemma ConsCorrespondence(pets: seq<FetchedPet>, thresholdDays: int, a: Alert, tail: seq<Alert>, start: nat, rest: seq<nat>)
    requires start < |pets| && Some(a) == AlertFor(pets[start], thresholdDays)
    requires |tail| == |rest| && forall k :: 0 <= k < |rest| ==> rest[k] < |pets|
    requires forall k :: 0 <= k < |rest| ==> Some(tail[k]) == AlertFor(pets[rest[k]], thresholdDays)
    ensures forall k :: 0 <= k < |rest| + 1 ==> Some(([a] + tail)[k]) == AlertFor(pets[([start] + rest)[k]], thresholdDays)
  {
    forall k | 1 <= k < |rest| + 1
      ensures Some(([a] + tail)[k]) == AlertFor(pets[([start] + rest)[k]], thresholdDays)
    {
      assert ([a] + tail)[k] == tail[k - 1];
      assert ([start] + rest)[k] == rest[k - 1];
    }
  }

  /** A pet with no food, or whose package is closed, is never the source
      of an alert, whatever its weight and rates. */
  lemma ClosedOrMissingFoodNeverAlerts(pets: seq<FetchedPet>, thresholdDays: int, i: nat)
    requires i < |pets| && (pets[i].food.None? || !pets[i].food.value.isOpen)
    ensures i !in QualifyingIndices(pets, thresholdDays, 0)
  {
  }

  /** The output is a subsequence of the input by pet id: the alerts' ids
      and names are those of the qualifying pets, at strictly increasing
      positions. */
  lemma AlertIdsFollowPets(pets: seq<FetchedPet>, thresholdDays: int)
    ensures var alerts := LowStockAlerts(pets, thresholdDays);
      var idx := QualifyingIndices(pets, thresholdDays, 0);
      |alerts| == |idx| &&
      (forall k :: 0 <= k < |alerts| ==>
        alerts[k].petId == pets[idx[k]].id && alerts[k].petName == pets[idx[k]].name
        && alerts[k].daysRemaining == DaysFor(pets[idx[k]]))
  {
    AlertsMatchQualifyingPets(pets, thresholdDays);
    var idx := QualifyingIndices(pets, thresholdDays, 0);
    forall k | 0 <= k < |idx| ensures AlertFor(pets[idx[k]], thresholdDays).Some? {
      AlertForQualifying(pets[idx[k]], thresholdDays);
    }
  }

  /** Alerts over a concatenation are the alerts of each part, in order. */
  lemma {:induction false} AlertsOfConcat(a: seq<FetchedPet>, b: seq<FetchedPet>, thresholdDays: int)
    ensures LowStockAlerts(a + b, thresholdDays) == LowStockAlerts(a, thresholdDays) + LowStockAlerts(b, thresholdDays)
  {
    if a == [] {
      assert a + b == b;
    } else {
      assert (a + b)[0] == a[0];
      assert (a + b)[1..] == a[1..] + b;
      AlertsOfConcat(a[1..], b, thresholdDays);
    }
  }

  /** A higher threshold keeps every alert of a lower one (and possibly
      adds more): alerting is monotone in the threshold. */
  lemma {:induction false} ThresholdMonotone(pets: seq<FetchedPet>, t: int, t': int, i: nat)
    requires t <= t' && i < |pets|
    requires i in QualifyingIndices(pets, t, 0)
    ensures i in QualifyingIndices(pets, t', 0)
  {
  }

  /** The message reads "day" for exactly one day and "days" for every
      other count, whatever the pet's name. */
  lemma AlertMessageSingular(petName: string)
    ensures AlertMessage(petName, 1) == petName + " has only 1 day of food left."
  {
    assert JsStrings.IntToString(1) == "1";
  }

  lemma AlertMessagePlural(petName: string, daysRemaining: int)
    requires daysRemaining != 1
    ensures AlertMessage(petName, daysRemaining)
         == petName + " has only " + JsStrings.IntToString(daysRemaining) + " days of food left."
  {
  }

  /** The number in the message is the alert's `daysRemaining`: two
      messages for the same pet name are equal only for equal day counts. */
  lemma {:induction false} AlertMessageDeterminesDays(petName: string, d1: int, d2: int)
    requires AlertMessage(petName, d1) == AlertMessage(petName, d2)
    ensures d1 == d2
  {
    var s1 := JsStrings.IntToString(d1);
    var s2 := JsStrings.IntToString(d2);
    var p := petName + " has only ";
    AlertMessageShape(petName, d1);
    AlertMessageShape(petName, d2);
    DropPrefix(p, s1 + DayTail(d1), s2 + DayTail(d2));
    SuffixedDigitsEqual(s1, DayTail(d1), s2, DayTail(d2));
    JsStrings.IntToStringInjective(d1, d2);
  }

  /** What follows the number in the message. */
  function DayTail(daysRemaining: int): (t: string)
    ensures |t| > 0 && t[0] == ' '
  {
    " day" + (if daysRemaining != 1 then "s" else "") + " of food left."
  }

  lemma AlertMessageShape(petName: string, daysRemaining: int)
    ensures AlertMessage(petName, daysRemaining)
         == (petName + " has only ") + (JsStrings.IntToString(daysRemaining) + DayTail(daysRemaining))
  {
  }

  lemma DropPrefix(p: string, u: string, v: string)
    requires p + u == p + v
    ensures u == v
  {
    assert (p + u)[|p|..] == u;
    assert (p + v)[|p|..] == v;
  }

  /** A rendered number followed by text starting with a space is
      determined by the whole string. */
  lemma {:induction false} SuffixedDigitsEqual(s1: string, t1: string, s2: string, t2: string)
    requires s1 + t1 == s2 + t2
    requires forall i :: 0 <= i < |s1| ==> s1[i] != ' '
    requires forall i :: 0 <= i < |s2| ==> s2[i] != ' '
    requires |t1| > 0 && t1[0] == ' ' && |t2| > 0 && t2[0] == ' '
    ensures s1 == s2
  {
    if |s1| < |s2| {
      ConcatIndex(s1, t1, |s1|);
      assert false;
    } else if |s2| < |s1| {
      ConcatIndex(s2, t2, |s2|);
      assert false;
    } else {
      assert s1 == (s1 + t1)[..|s1|] == (s2 + t2)[..|s2|] == s2;
    }
  }

  lemma ConcatIndex(s: string, t: string, i: int)
    requires 0 <= i < |s| + |t|
    ensures (s + t)[i] == if i < |s| then s[i] else t[i - |s|]
  {
  }

  /** Joined against the food collection, a pet alerts exactly when its
      referenced food exists, is open, and the stored weight lasts at most
      the threshold. */
  lemma PopulatedPetAlerts(p: PetModel.Pet, foods: map<string, FoodModel.Food>, thresholdDays: int)
    ensures Qualifies(Populate(p, foods), thresholdDays) <==>
      && p.food in foods && foods[p.food].isOpen
      && Notify.ShouldNotify(Notify.CalculateDaysRemaining(foods[p.food].weight, p.gramsPerMeal, p.mealsPerDay), thresholdDays)
  {
    if p.food in foods {
      ClientDaysRemaining.AgreesWithBackend(foods[p.food].weight, p.gramsPerMeal, p.mealsPerDay);
    }
  }

  /** A pet whose open food has no weight on record is treated as having
      0 grams, so it alerts for every non-negative threshold. */
  lemma MissingWeightIsZero(pet: FetchedPet, thresholdDays: int)
    requires pet.food.Some? && pet.food.value.isOpen && pet.food.value.weight.None?
    requires thresholdDays >= 0
    ensures DaysFor(pet) == 0
    ensures Qualifies(pet, thresholdDays)
  {
  }
}
