/** The food form: its field state, the reset it performs whenever the
    food being edited changes, and the validation and conversion of
    `handleSubmit`. */
module FoodForm {
  import opened Wrappers
  import opened CommaList
  import opened FoodModel

  const MissingFieldsError: string := "Please fill in name, brand, and weight"

  /** The `initialData` prop: the fields of the food being edited, any of
      which may be absent. */
  datatype InitialData = InitialData(
    name: Option<string>,
    brand: Option<string>,
    specifications: Option<seq<string>>,
    weight: Option<int>,
    buyLinks: Option<seq<string>>)

  /** The prop's default, for adding a food; its empty weight text is an
      absent number. */
  const DefaultInitialData: InitialData := InitialData(Some(""), Some(""), Some([]), None, Some([]))

  function FromFood(f: Food): InitialData {
    InitialData(Some(f.name), Some(f.brand), Some(f.specifications), Some(f.weight), Some(f.buyLinks))
  }

  /** The weight state: the stored number put there by a reset, or the text
      last typed into the input. */
  datatype WeightValue = WeightNumber(n: int) | WeightText(text: string)

  /** JavaScript truthiness of the weight state. */
  predicate IsFilled(w: WeightValue) {
    match w
    case WeightNumber(n) => n != 0
    case WeightText(t) => t != ""
  }

  /** `Number(weight)`: a number stays itself, text goes through the
      number parser. */
  function NumberOf(w: WeightValue, toNumber: string -> int): int {
    match w
    case WeightNumber(n) => n
    case WeightText(t) => toNumber(t)
  }

  /** The value passed to `onSubmit`. */
  datatype Submission = Submission(
    name: string,
    brand: string,
    specifications: seq<string>,
    weight: int,
    buyLinks: seq<string>)

  /** What `handleSubmit` does with the current field values: nothing to
      submit when name, brand or weight is empty, otherwise the two lists
      parsed and the weight converted. */
  function SubmissionFor(name: string, brand: string, specifications: string, weight: WeightValue,
                         buyLinks: string, toNumber: string -> int): Option<Submission>
  {
    var specsArray := ParseCommaList(specifications);
    var linksArray := ParseCommaList(buyLinks);
    if name == "" || brand == "" || !IsFilled(weight) then None
    else Some(Submission(name, brand, specsArray, NumberOf(weight, toNumber), linksArray))
  }

  /** Submission happens exactly when the three required fields are filled;
      then name and brand pass unchanged and both lists hold only clean
      items. */
  lemma SubmissionValidation(name: string, brand: string, specifications: string, weight: WeightValue,
                             buyLinks: string, toNumber: string -> int)
    ensures var s := SubmissionFor(name, brand, specifications, weight, buyLinks, toNumber);
      s.Some? <==> name != "" && brand != "" && IsFilled(weight)
    ensures var s := SubmissionFor(name, brand, specifications, weight, buyLinks, toNumber);
      s.Some? ==>
        && s.value.name == name && s.value.brand == brand
        && AllClean(s.value.specifications) && AllClean(s.value.buyLinks)
        && (weight.WeightNumber? ==> s.value.weight == weight.n)
        && (weight.WeightText? ==> s.value.weight == toNumber(weight.text))
  {
  }

  class FoodFormState {
    var name: string
    var brand: string
    var specifications: string
    var weight: WeightValue
    var buyLinks: string
    var error: string

    /** The state once mounted: the reset effect runs on the first render.
        The first render itself reads `initialData.specifications` without
        a fallback, so a prop without specifications never gets this far. */
    constructor(initial: InitialData)
      requires initial.specifications.Some?
      ensures name == initial.name.GetOr("") && brand == initial.brand.GetOr("")
      ensures specifications == JoinCommaList(initial.specifications.GetOr([]))
      ensures weight == (if initial.weight.Some? && initial.weight.value != 0 then WeightNumber(initial.weight.value) else WeightText(""))
      ensures buyLinks == JoinCommaList(initial.buyLinks.GetOr([]))
      ensures error == ""
    {
      name := initial.name.GetOr("");
      brand := initial.brand.GetOr("");
      specifications := JoinCommaList(initial.specifications.GetOr([]));
      weight := if initial.weight.Some? && initial.weight.value != 0 then WeightNumber(initial.weight.value) else WeightText("");
      buyLinks := JoinCommaList(initial.buyLinks.GetOr([]));
      error := "";
    }

    /** The reset effect when `initialData` changes: every field from the
        prop, a missing (or zero) one as empty text, and the error cleared. */
    method Reset(initial: InitialData)
      modifies this
      ensures name == initial.name.GetOr("") && brand == initial.brand.GetOr("")
      ensures specifications == JoinCommaList(initial.specifications.GetOr([]))
      ensures weight == (if initial.weight.Some? && initial.weight.value != 0 then WeightNumber(initial.weight.value) else WeightText(""))
      ensures buyLinks == JoinCommaList(initial.buyLinks.GetOr([]))
      ensures error == ""
    {
      name := initial.name.GetOr("");
      brand := initial.brand.GetOr("");
      specifications := JoinCommaList(initial.specifications.GetOr([]));
      if initial.weight.Some? && initial.weight.value != 0 {
        weight := WeightNumber(initial.weight.value);
      } else {
        weight := WeightText("");
      }
      buyLinks := JoinCommaList(initial.buyLinks.GetOr([]));
      error := "";
    }

    /** The inputs' change handlers: each replaces its own field by the
        input's text and leaves every other field as it is. */
    method EditName(text: string)
      modifies this`name
      ensures name == text
    {
      name := text;
    }

    method EditBrand(text: string)
      modifies this`brand
      ensures brand == text
    {
      brand := text;
    }

    method EditSpecifications(text: string)
      modifies this`specifications
      ensures specifications == text
    {
      specifications := text;
    }

    /** The number input hands over its text, so a weight the user has
        touched is text from then on. */
    method EditWeight(text: string)
      modifies this`weight
      ensures weight == WeightText(text)
    {
      weight := WeightText(text);
    }

    method EditBuyLinks(text: string)
      modifies this`buyLinks
      ensures buyLinks == text
    {
      buyLinks := text;
    }

    /** handleSubmit: the submission for the current fields, or, when a
        required field is empty, the error message and no submission. The
        fields themselves are not touched. */
    method HandleSubmit(toNumber: string -> int) returns (submitted: Option<Submission>)
      modifies this`error
      ensures submitted == SubmissionFor(old(name), old(brand), old(specifications), old(weight), old(buyLinks), toNumber)
      ensures submitted.None? ==> error == MissingFieldsError
      ensures submitted.Some? ==> error == old(error)
    {
      // The handler sees the field values of the render it belongs to.
      var name, brand, specifications, weight, buyLinks := this.name, this.brand, this.specifications, this.weight, this.buyLinks;
      var specsArray := ParseCommaList(specifications);
      var linksArray := ParseCommaList(buyLinks);
      if name == "" || brand == "" || !IsFilled(weight) {
        error := MissingFieldsError;
        return None;
      }
      submitted := Some(Submission(name, brand, specsArray, NumberOf(weight, toNumber), linksArray));
    }
  }

  /** Opening a stored food in the form and saving it without edits submits
      that food's own fields, lists included, as long as its list items are
      clean. */
  method ResubmitUnchanged(f: Food, toNumber: string -> int) returns (submitted: Option<Submission>)
    requires f.name != "" && f.brand != "" && f.weight != 0
    requires AllClean(f.specifications) && AllClean(f.buyLinks)
    ensures submitted == Some(Submission(f.name, f.brand, f.specifications, f.weight, f.buyLinks))
  {
    var form := new FoodFormState(FromFood(f));
    ParseJoinedList(f.specifications);
    ParseJoinedList(f.buyLinks);
    submitted := form.HandleSubmit(toNumber);
  }

  /** Renaming a stored food in the form leaves its weight the stored
      number, so the submission carries that weight as it was, whatever the
      number parser would make of text. */
  method RenameStoredFood(f: Food, newName: string, toNumber: string -> int)
    returns (submitted: Option<Submission>)
    requires newName != "" && f.brand != "" && f.weight != 0
    ensures submitted.Some?
    ensures submitted.value.name == newName && submitted.value.brand == f.brand
    ensures submitted.value.weight == f.weight
  {
    var form := new FoodFormState(FromFood(f));
    form.EditName(newName);
    submitted := form.HandleSubmit(toNumber);
  }

  /** A stored weight of 0 is reset to empty text, so the unchanged form
      is refused. */
  method ResubmitZeroWeight(f: Food, toNumber: string -> int) returns (submitted: Option<Submission>, error: string)
    requires f.weight == 0
    ensures submitted == None && error == MissingFieldsError
  {
    var form := new FoodFormState(FromFood(f));
    submitted := form.HandleSubmit(toNumber);
    error := form.error;
  }
}
