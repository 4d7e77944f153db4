/** The Food schema: a package of pet food with its open/closed state. */
module FoodModel {
  import opened Wrappers

  /** Milliseconds since the epoch, as a JavaScript `Date` holds it. */
  type Timestamp = int

  datatype Food = Food(
    id: string,
    name: string,
    brand: string,
    specifications: seq<string>,
    weight: int,
    buyLinks: seq<string>,
    isOpen: bool,
    openedAt: Option<Timestamp>)

  /** The documented invariant of the open flag: an open package has an
      opening date, a closed one has none. */
  predicate OpenStateConsistent(f: Food) {
    f.isOpen <==> f.openedAt.Some?
  }

  /** The fields a new document is built from; `None` is an absent field. */
  datatype FoodFields = FoodFields(
    name: Option<string>,
    brand: Option<string>,
    specifications: Option<seq<string>>,
    weight: Option<int>,
    buyLinks: Option<seq<string>>)

  /** A required String path is missing when absent or empty (the schema
      validator rejects `''`); a required Number only when absent. */
  predicate HasString(v: Option<string>) {
    v.Some? && v.value != ""
  }

  /** The paths that fail the `required` validator, in schema order. */
  function MissingFoodPaths(fields: FoodFields): seq<string> {
    (if HasString(fields.name) then [] else ["name"])
    + (if HasString(fields.brand) then [] else ["brand"])
    + (if fields.weight.Some? then [] else ["weight"])
  }

  /** `new Food(fields)` followed by validation: the defaults fill in
      `specifications`, `buyLinks`, `isOpen` and `openedAt`. */
  function NewFood(id: string, fields: FoodFields): (r: Result<Food, seq<string>>)
    ensures r.Success? <==> HasString(fields.name) && HasString(fields.brand) && fields.weight.Some?
    ensures r.Failure? ==> r.error != [] && forall p :: p in r.error ==> p in ["name", "brand", "weight"]
    ensures r.Success? ==>
      && r.value.id == id
      && r.value.name == fields.name.value && r.value.brand == fields.brand.value
      && r.value.weight == fields.weight.value
      && r.value.specifications == fields.specifications.GetOr([])
      && r.value.buyLinks == fields.buyLinks.GetOr([])
      && !r.value.isOpen && r.value.openedAt == None
  {
    var missing := MissingFoodPaths(fields);
    if missing != [] then Failure(missing)
    else Success(Food(id, fields.name.value, fields.brand.value, fields.specifications.GetOr([]),
                      fields.weight.value, fields.buyLinks.GetOr([]), false, None))
  }

  /** A freshly created Food satisfies the open-state invariant. */
  lemma NewFoodConsistent(id: string, fields: FoodFields)
    requires NewFood(id, fields).Success?
    ensures OpenStateConsistent(NewFood(id, fields).value)
  {
  }
}
