/** The Pet schema: a pet and the single food package it eats from. */
module PetModel {
  import opened Wrappers
  import FoodModel

  datatype Pet = Pet(
    id: string,
    name: string,
    age: int,
    allergies: seq<string>,
    gramsPerMeal: int,
    mealsPerDay: int,
    food: string)   // the id of one Food document

  datatype PetFields = PetFields(
    name: Option<string>,
    age: Option<int>,
    allergies: Option<seq<string>>,
    gramsPerMeal: Option<int>,
    mealsPerDay: Option<int>,
    food: Option<string>)

  /** The paths that fail the `required` validator, in schema order. */
  function MissingPetPaths(fields: PetFields): seq<string> {
    (if FoodModel.HasString(fields.name) then [] else ["name"])
    + (if fields.age.Some? then [] else ["age"])
    + (if fields.gramsPerMeal.Some? then [] else ["gramsPerMeal"])
    + (if fields.mealsPerDay.Some? then [] else ["mealsPerDay"])
    + (if fields.food.Some? then [] else ["food"])
  }

  /** `new Pet(fields)` followed by validation: every field but
      `allergies` is required, and `allergies` defaults to `[]`. */
  function NewPet(id: string, fields: PetFields): (r: Result<Pet, seq<string>>)
    ensures r.Success? <==>
      FoodModel.HasString(fields.name) && fields.age.Some? && fields.gramsPerMeal.Some?
      && fields.mealsPerDay.Some? && fields.food.Some?
    ensures r.Failure? ==> r.error != []
    ensures r.Success? ==>
      && r.value.id == id && r.value.name == fields.name.value && r.value.age == fields.age.value
      && r.value.allergies == fields.allergies.GetOr([])
      && r.value.gramsPerMeal == fields.gramsPerMeal.value && r.value.mealsPerDay == fields.mealsPerDay.value
      && r.value.food == fields.food.value
  {
    var missing := MissingPetPaths(fields);
    if missing != [] then Failure(missing)
    else Success(Pet(id, fields.name.value, fields.age.value, fields.allergies.GetOr([]),
                     fields.gramsPerMeal.value, fields.mealsPerDay.value, fields.food.value))
  }
}
