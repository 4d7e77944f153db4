/** The pet form: the initial food choice, the allergies list and the
    required-field check of `handleSubmit`. */
module PetForm {
  import opened Wrappers
  import opened CommaList

  const MissingFieldsError: string := "Please fill in all required fields"

  /** An entry of the `foods` prop offered in the food select. */
  datatype FoodChoice = FoodChoice(id: string, name: string)

  /** The value passed to `onSubmit`. */
  datatype PetSubmission = PetSubmission(
    name: string,
    age: int,
    allergies: seq<string>,
    gramsPerMeal: int,
    mealsPerDay: int,
    food: string,
    image: string)

  /** `foods[0]?._id || ''`: the first offered food, or nothing. */
  function InitialFood(foods: seq<FoodChoice>): (id: string)
    ensures foods == [] ==> id == ""
    ensures foods != [] ==> id == foods[0].id
  {
    if foods == [] then "" else foods[0].id
  }

  /** What `handleSubmit` does with the current field values: nothing to
      submit when any required field is empty, otherwise the numbers
      converted and the allergies parsed. */
  function PetSubmissionFor(name: string, age: string, allergies: string, gramsPerMeal: string,
                            mealsPerDay: string, food: string, image: string,
                            toNumber: string -> int): Option<PetSubmission>
  {
    var allergiesArray := ParseCommaList(allergies);
    if name == "" || age == "" || gramsPerMeal == "" || mealsPerDay == "" || food == "" then None
    else Some(PetSubmission(name, toNumber(age), allergiesArray, toNumber(gramsPerMeal),
                            toNumber(mealsPerDay), food, image))
  }

  /** Submission happens exactly when the five required fields are filled
      (the image is optional); then name, food and image pass unchanged and
      the allergies hold only clean items. */
  lemma PetSubmissionValidation(name: string, age: string, allergies: string, gramsPerMeal: string,
                                mealsPerDay: string, food: string, image: string,
                                toNumber: string -> int)
    ensures var s := PetSubmissionFor(name, age, allergies, gramsPerMeal, mealsPerDay, food, image, toNumber);
      s.Some? <==> name != "" && age != "" && gramsPerMeal != "" && mealsPerDay != "" && food != ""
    ensures var s := PetSubmissionFor(name, age, allergies, gramsPerMeal, mealsPerDay, food, image, toNumber);
      s.Some? ==>
        && s.value.name == name && s.value.food == food && s.value.image == image
        && AllClean(s.value.allergies)
  {
  }

  class PetFormState {
    var name: string
    var age: string
    var allergies: string
    var gramsPerMeal: string
    var mealsPerDay: string
    var food: string
    var image: string
    var error: string

    /** Every field empty except the food, which starts at the first
        offered food. */
    constructor(foods: seq<FoodChoice>)
      ensures name == "" && age == "" && allergies == "" && gramsPerMeal == "" && mealsPerDay == ""
      ensures food == InitialFood(foods) && image == "" && error == ""
    {
      name := "";
      age := "";
      allergies := "";
      gramsPerMeal := "";
      mealsPerDay := "";
      food := if foods == [] then "" else foods[0].id;
      image := "";
      error := "";
    }

    /** The change handlers of the text inputs and the image selector. */
    method EditDetails(newName: string, newAge: string, newAllergies: string, newGramsPerMeal: string,
                       newMealsPerDay: string, newImage: string)
      modifies this`name, this`age, this`allergies, this`gramsPerMeal, this`mealsPerDay, this`image
      ensures name == newName && age == newAge && allergies == newAllergies
      ensures gramsPerMeal == newGramsPerMeal && mealsPerDay == newMealsPerDay && image == newImage
    {
      name := newName;
      age := newAge;
      allergies := newAllergies;
      gramsPerMeal := newGramsPerMeal;
      mealsPerDay := newMealsPerDay;
      image := newImage;
    }

    /** The change handler of the food select. */
    method SelectFood(id: string)
      modifies this`food
      ensures food == id
    {
      food := id;
    }

    /** handleSubmit: the submission for the current fields, or, when a
        required field is empty, the error message and no submission. Only
        `error` may change. */
    method HandleSubmit(toNumber: string -> int) returns (submitted: Option<PetSubmission>)
      modifies this`error
      ensures submitted == PetSubmissionFor(old(name), old(age), old(allergies), old(gramsPerMeal),
                                            old(mealsPerDay), old(food), old(image), toNumber)
      ensures submitted.None? ==> error == MissingFieldsError
      ensures submitted.Some? ==> error == old(error)
    {
      var allergiesArray := ParseCommaList(allergies);
      if name == "" || age == "" || gramsPerMeal == "" || mealsPerDay == "" || food == "" {
        error := MissingFieldsError;
        return None;
      }
      submitted := Some(PetSubmission(name, toNumber(age), allergiesArray, toNumber(gramsPerMeal),
                                      toNumber(mealsPerDay), food, image));
    }
  }

  /** Filling in the details and leaving the food select alone submits the
      first offered food. */
  method SubmitWithDefaultFood(foods: seq<FoodChoice>, name: string, age: string, allergies: string,
                               gramsPerMeal: string, mealsPerDay: string, toNumber: string -> int)
    returns (submitted: Option<PetSubmission>)
    requires foods != [] && foods[0].id != ""
    requires name != "" && age != "" && gramsPerMeal != "" && mealsPerDay != ""
    ensures submitted.Some? && submitted.value.food == foods[0].id
    ensures submitted.value.allergies == ParseCommaList(allergies)
  {
    var form := new PetFormState(foods);
    form.EditDetails(name, age, allergies, gramsPerMeal, mealsPerDay, "");
    submitted := form.HandleSubmit(toNumber);
  }

  /** With no food to offer and no selection made, the form cannot be
      submitted. */
  method SubmitWithoutFoods(name: string, age: string, allergies: string, gramsPerMeal: string,
                            mealsPerDay: string, toNumber: string -> int)
    returns (submitted: Option<PetSubmission>, error: string)
    ensures submitted == None && error == MissingFieldsError
  {
    var form := new PetFormState([]);
    form.EditDetails(name, age, allergies, gramsPerMeal, mealsPerDay, "");
    submitted := form.HandleSubmit(toNumber);
    error := form.error;
  }
}
