/** The list updates both data hooks apply to their cached arrays: append
    on create, `prev.map(x => x._id === id ? updated : x)` on update and
    `prev.filter(x => x._id !== id)` on delete, written once for any element
    type with an id. Also the outcome of an awaited API call. */
module ClientLists {

  /** A settled API promise: its value, or the error it was rejected with. */
  datatype ApiOutcome<+T> = Resolved(value: T) | Rejected(error: string)

  /** A fetched JSON value as a list hook inspects it: an array of items,
      or anything else. */
  datatype Payload<+T> = ArrayValue(items: seq<T>) | NotArray

  /** Every element whose id is `id` becomes `y`; all others stay where and
      what they are. */
  function ReplaceById<T>(s: seq<T>, id: string, y: T, idOf: T -> string): (r: seq<T>)
    ensures |r| == |s|
    ensures forall i :: 0 <= i < |s| && idOf(s[i]) == id ==> r[i] == y
    ensures forall i :: 0 <= i < |s| && idOf(s[i]) != id ==> r[i] == s[i]
  {
    if s == [] then []
    else [if idOf(s[0]) == id then y else s[0]] + ReplaceById(s[1..], id, y, idOf)
  }

  /** How many elements carry the id. */
  function CountId<T>(s: seq<T>, id: string, idOf: T -> string): nat
  {
    if s == [] then 0 else (if idOf(s[0]) == id then 1 else 0) + CountId(s[1..], id, idOf)
  }

  /** The elements whose id is not `id`: none of the removed id is left,
      every other element is kept, and the length drops by exactly the
      number of matches. */
  function RemoveById<T>(s: seq<T>, id: string, idOf: T -> string): (r: seq<T>)
    ensures forall i :: 0 <= i < |r| ==> idOf(r[i]) != id
    ensures forall i :: 0 <= i < |s| && idOf(s[i]) != id ==> s[i] in r
    ensures forall x :: x in r ==> x in s
    ensures |r| == |s| - CountId(s, id, idOf)
  {
    if s == [] then []
    else if idOf(s[0]) == id then RemoveById(s[1..], id, idOf)
    else [s[0]] + RemoveById(s[1..], id, idOf)
  }

  /** Removal works piecewise, so it keeps the relative order of what
      remains. */
  lemma {:induction false} RemoveOfConcat<T>(a: seq<T>, b: seq<T>, id: string, idOf: T -> string)
    ensures RemoveById(a + b, id, idOf) == RemoveById(a, id, idOf) + RemoveById(b, id, idOf)
  {
    if a == [] {
      assert a + b == b;
    } else {
      assert (a + b)[0] == a[0];
      assert (a + b)[1..] == a[1..] + b;
      RemoveOfConcat(a[1..], b, id, idOf);
    }
  }

  /** A list without the id is left as it is. */
  lemma {:induction false} RemoveAbsent<T>(s: seq<T>, id: string, idOf: T -> string)
    requires forall i :: 0 <= i < |s| ==> idOf(s[i]) != id
    ensures RemoveById(s, id, idOf) == s
  {
    if s != [] {
      RemoveAbsent(s[1..], id, idOf);
    }
  }

  /** Deleting twice is deleting once. */
  lemma RemoveIdempotent<T>(s: seq<T>, id: string, idOf: T -> string)
    ensures RemoveById(RemoveById(s, id, idOf), id, idOf) == RemoveById(s, id, idOf)
  {
    RemoveAbsent(RemoveById(s, id, idOf), id, idOf);
  }

  /** A list without the id is left as it is by an update too. */
  lemma {:induction false} ReplaceAbsent<T>(s: seq<T>, id: string, y: T, idOf: T -> string)
    requires forall i :: 0 <= i < |s| ==> idOf(s[i]) != id
    ensures ReplaceById(s, id, y, idOf) == s
  {
    if s != [] {
      ReplaceAbsent(s[1..], id, y, idOf);
    }
  }

  /** Updating an element to a value with the same id and then deleting
      that id is the same as deleting it straight away. */
  lemma {:induction false} RemoveAfterReplace<T>(s: seq<T>, id: string, y: T, idOf: T -> string)
    requires idOf(y) == id
    ensures RemoveById(ReplaceById(s, id, y, idOf), id, idOf) == RemoveById(s, id, idOf)
  {
    if s != [] {
      RemoveAfterReplace(s[1..], id, y, idOf);
      assert ReplaceById(s, id, y, idOf)[1..] == ReplaceById(s[1..], id, y, idOf);
    }
  }

  /** Deleting the id of an element just appended to a list that did not
      hold it gives back the list from before the append. */
  lemma RemoveAppended<T>(s: seq<T>, x: T, idOf: T -> string)
    requires forall i :: 0 <= i < |s| ==> idOf(s[i]) != idOf(x)
    ensures RemoveById(s + [x], idOf(x), idOf) == s
  {
    RemoveOfConcat(s, [x], idOf(x), idOf);
    RemoveAbsent(s, idOf(x), idOf);
    assert RemoveById([x], idOf(x), idOf) == [];
  }
}
