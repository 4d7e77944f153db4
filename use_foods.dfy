/** The `useFoods` hook: the cached food list with its `loading` and
    `error` flags. The same shape as the pets hook, except that it starts
    out loading and stores a fetched result without inspecting it. */
module FoodsHook {
  import opened Wrappers
  import opened ClientLists
  import opened FoodModel

  function FoodId(f: Food): string {
    f.id
  }

  class FoodsState {
    var foods: seq<Food>
    var loading: bool
    var error: Option<string>

    /** `useState([])`, `useState(true)`, `useState(null)`. */
    constructor()
      ensures foods == [] && loading && error == None
    {
      foods := [];
      loading := true;
      error := None;
    }

    /** fetchFoods: the result is stored as it came; a failure records the
        error and empties the list. */
    method FetchFoods(outcome: ApiOutcome<seq<Food>>)
      modifies this
      ensures !loading
      ensures outcome.Resolved? ==> error == None && foods == outcome.value
      ensures outcome.Rejected? ==> error == Some(outcome.error) && foods == []
    {
      loading := true;
      error := None;
      match outcome {
        case Resolved(data) =>
          foods := data;
        case Rejected(err) =>
          error := Some(err);
          foods := [];
      }
      loading := false;
    }

    /** createFood: the new food is appended; a failure leaves the list
        alone, records the error and is rethrown. */
    method CreateFood(outcome: ApiOutcome<Food>) returns (result: ApiOutcome<Food>)
      modifies this
      ensures result == outcome && !loading
      ensures outcome.Resolved? ==> foods == old(foods) + [outcome.value] && error == None
      ensures outcome.Rejected? ==> foods == old(foods) && error == Some(outcome.error)
    {
      loading := true;
      error := None;
      match outcome {
        case Resolved(newFood) =>
          foods := foods + [newFood];
        case Rejected(err) =>
          error := Some(err);
      }
      result := outcome;
      loading := false;
    }

    /** updateFood: every food with the id is replaced by the returned one;
        failure as for createFood. */
    method UpdateFood(id: string, outcome: ApiOutcome<Food>) returns (result: ApiOutcome<Food>)
      modifies this
      ensures result == outcome && !loading
      ensures outcome.Resolved? ==> foods == ReplaceById(old(foods), id, outcome.value, FoodId) && error == None
      ensures outcome.Rejected? ==> foods == old(foods) && error == Some(outcome.error)
    {
      loading := true;
      error := None;
      match outcome {
        case Resolved(updatedFood) =>
          foods := ReplaceById(foods, id, updatedFood, FoodId);
        case Rejected(err) =>
          error := Some(err);
      }
      result := outcome;
      loading := false;
    }

    /** deleteFood: every food with the id is dropped, the rest keep their
        order; on failure the list is kept and the error is rethrown. */
    method DeleteFood(id: string, outcome: ApiOutcome<()>) returns (thrown: Option<string>)
      modifies this
      ensures !loading
      ensures outcome.Resolved? ==> foods == RemoveById(old(foods), id, FoodId) && error == None && thrown == None
      ensures outcome.Rejected? ==>
        foods == old(foods) && error == Some(outcome.error) && thrown == Some(outcome.error)
    {
      loading := true;
      error := None;
      thrown := None;
      match outcome {
        case Resolved(_) =>
          foods := RemoveById(foods, id, FoodId);
        case Rejected(err) =>
          error := Some(err);
          thrown := Some(err);
      }
      loading := false;
    }
  }

  /** The open-state invariant of every cached food survives an update to
      a food that satisfies it and a delete. */
  lemma EditsKeepOpenState(foods: seq<Food>, id: string, updated: Food)
    requires forall i :: 0 <= i < |foods| ==> OpenStateConsistent(foods[i])
    requires OpenStateConsistent(updated)
    ensures forall i :: 0 <= i < |foods| ==> OpenStateConsistent(ReplaceById(foods, id, updated, FoodId)[i])
    ensures forall x :: x in RemoveById(foods, id, FoodId) ==> OpenStateConsistent(x)
  {
  }
}
