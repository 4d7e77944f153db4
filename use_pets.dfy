/** The `usePets` hook: the cached pet list with its `loading` and `error`
    flags, and the four operations that reload or edit it. Each operation
    awaits one API call, whose settled outcome is a parameter. */
module PetsHook {
  import opened Wrappers
  import opened ClientLists
  import opened Notifications

  function PetId(p: FetchedPet): string {
    p.id
  }

  class PetsState {
    var pets: seq<FetchedPet>
    var loading: bool
    var error: Option<string>

    /** `useState([])`, `useState(false)`, `useState(null)`. */
    constructor()
      ensures pets == [] && !loading && error == None
    {
      pets := [];
      loading := false;
      error := None;
    }

    /** fetchPets: an array result replaces the list, any other value
        empties it; a failure records the error and empties the list. */
    method FetchPets(outcome: ApiOutcome<Payload<FetchedPet>>)
      modifies this
      ensures !loading
      ensures outcome.Resolved? ==>
        error == None && pets == (if outcome.value.ArrayValue? then outcome.value.items else [])
      ensures outcome.Rejected? ==> error == Some(outcome.error) && pets == []
    {
      loading := true;
      error := None;
      match outcome {
        case Resolved(dataArray) =>
          pets := if dataArray.ArrayValue? then dataArray.items else [];
        case Rejected(err) =>
          error := Some(err);
          pets := [];
      }
      loading := false;
    }

    /** createPet: the new pet is appended after the earlier ones; a failure
        leaves the list alone, records the error and is rethrown. */
    method CreatePet(outcome: ApiOutcome<FetchedPet>) returns (result: ApiOutcome<FetchedPet>)
      modifies this
      ensures result == outcome && !loading
      ensures outcome.Resolved? ==> pets == old(pets) + [outcome.value] && error == None
      ensures outcome.Rejected? ==> pets == old(pets) && error == Some(outcome.error)
    {
      loading := true;
      error := None;
      match outcome {
        case Resolved(newPet) =>
          pets := pets + [newPet];
        case Rejected(err) =>
          error := Some(err);
      }
      result := outcome;
      loading := false;
    }

    /** updatePet: every pet with the id is replaced by the returned one;
        failure as for createPet. */
    method UpdatePet(id: string, outcome: ApiOutcome<FetchedPet>) returns (result: ApiOutcome<FetchedPet>)
      modifies this
      ensures result == outcome && !loading
      ensures outcome.Resolved? ==> pets == ReplaceById(old(pets), id, outcome.value, PetId) && error == None
      ensures outcome.Rejected? ==> pets == old(pets) && error == Some(outcome.error)
    {
      loading := true;
      error := None;
      match outcome {
        case Resolved(updatedPet) =>
          pets := ReplaceById(pets, id, updatedPet, PetId);
        case Rejected(err) =>
          error := Some(err);
      }
      result := outcome;
      loading := false;
    }

    /** deletePet: every pet with the id is dropped, the rest keep their
        order; on failure the list is kept and the error is rethrown (the
        returned `Some`). */
    method DeletePet(id: string, outcome: ApiOutcome<()>) returns (thrown: Option<string>)
      modifies this
      ensures !loading
      ensures outcome.Resolved? ==> pets == RemoveById(old(pets), id, PetId) && error == None && thrown == None
      ensures outcome.Rejected? ==>
        pets == old(pets) && error == Some(outcome.error) && thrown == Some(outcome.error)
    {
      loading := true;
      error := None;
      thrown := None;
      match outcome {
        case Resolved(_) =>
          pets := RemoveById(pets, id, PetId);
        case Rejected(err) =>
          error := Some(err);
          thrown := Some(err);
      }
      loading := false;
    }
  }

  /** Creating a pet and then deleting it by its (fresh) id leaves the list
      as it was before the create. */
  method CreateThenDelete(before: seq<FetchedPet>, p: FetchedPet) returns (after: seq<FetchedPet>)
    requires forall i :: 0 <= i < |before| ==> before[i].id != p.id
    ensures after == before
  {
    var state := new PetsState();
    state.FetchPets(Resolved(ArrayValue(before)));
    var created := state.CreatePet(Resolved(p));
    var thrown := state.DeletePet(p.id, Resolved(()));
    RemoveAppended(before, p, PetId);
    after := state.pets;
  }
}
