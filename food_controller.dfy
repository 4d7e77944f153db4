/** The Food REST handlers: create with a default purchase link, fetch,
    update, delete, and the open/close toggle, over a store of documents
    keyed by id. */
module FoodController {
  import opened Wrappers
  import opened Http
  import opened FoodModel
  import UriComponent

  const SearchUrlPrefix: string := "https://www.amazon.co.uk/s?k="
  const NotFoundMessage: string := "Food not found"
  const DeletedMessage: string := "Food deleted"

  /** How a template literal renders a body field: the string itself, or
      `"undefined"` when the field is absent. */
  function TemplateText(v: Option<string>): string {
    match v
    case Some(s) => s
    case None => "undefined"
  }

  /** The marketplace search link for a name. Its query value decodes back
      to exactly that name, so different names give different links. */
  function SearchLink(name: string): (url: string)
    ensures |url| >= |SearchUrlPrefix| && url[..|SearchUrlPrefix|] == SearchUrlPrefix
    ensures UriComponent.Decode(url[|SearchUrlPrefix|..]) == Some(name)
  {
    var url := SearchUrlPrefix + UriComponent.EncodeURIComponent(name);
    UriComponent.DecodeEncode(name);
    assert url[|SearchUrlPrefix|..] == UriComponent.EncodeURIComponent(name);
    url
  }

  /** A request body for create or update. An absent field is `None`; a
      `buyLinks` value that is not an array is treated as absent (both take
      the same branch of `Array.isArray`). `openedAt` may be sent as `null`,
      which is `Some(None)`. */
  datatype FoodBody = FoodBody(
    name: Option<string>,
    brand: Option<string>,
    specifications: Option<seq<string>>,
    weight: Option<int>,
    buyLinks: Option<seq<string>>,
    isOpen: Option<bool>,
    openedAt: Option<Option<Timestamp>>)

  predicate HasLinks(buyLinks: Option<seq<string>>) {
    buyLinks.Some? && |buyLinks.value| > 0
  }

  /** `linksToSave` of createFood: the given links when they are a
      non-empty array, otherwise the one search link for the name. Never
      empty. */
  function LinksToSave(buyLinks: Option<seq<string>>, name: Option<string>): (links: seq<string>)
    ensures |links| >= 1
  {
    if HasLinks(buyLinks) then buyLinks.value else [SearchLink(TemplateText(name))]
  }

  /** The document createFood builds and validates (`isOpen` and
      `openedAt` are left to their defaults). */
  function CreatedFood(id: string, body: FoodBody): Result<Food, seq<string>> {
    NewFood(id, FoodFields(body.name, body.brand, body.specifications, body.weight,
                           Some(LinksToSave(body.buyLinks, body.name))))
  }

  /** A created food keeps non-empty given links exactly, otherwise gets
      the search link for its own name; it starts closed, satisfies the
      open-state invariant and always has a link. */
  lemma CreatedFoodLinks(id: string, body: FoodBody)
    requires CreatedFood(id, body).Success?
    ensures var f := CreatedFood(id, body).value;
      && (HasLinks(body.buyLinks) ==> f.buyLinks == body.buyLinks.value)
      && (!HasLinks(body.buyLinks) ==> f.buyLinks == [SearchLink(f.name)])
      && |f.buyLinks| >= 1
      && !f.isOpen && OpenStateConsistent(f)
  {
  }

  /** createFood fails validation exactly when name or brand is missing or
      empty, or weight is missing. */
  lemma CreatedFoodValidation(id: string, body: FoodBody)
    ensures CreatedFood(id, body).Failure? <==>
      !HasString(body.name) || !HasString(body.brand) || body.weight.None?
  {
  }

  /** `updatedData` of updateFood: the body, with `buyLinks` replaced by the
      search link for the body's `name` whenever the body has no non-empty
      array of links. */
  function UpdatedData(body: FoodBody): FoodBody {
    if !HasLinks(body.buyLinks) then body.(buyLinks := Some([SearchLink(TemplateText(body.name))]))
    else body
  }

  /** `findByIdAndUpdate(id, data, { new: true })` on a found document:
      every field present in `data` is overwritten. */
  function ApplyUpdate(f: Food, data: FoodBody): Food {
    Food(f.id,
         data.name.GetOr(f.name),
         data.brand.GetOr(f.brand),
         data.specifications.GetOr(f.specifications),
         data.weight.GetOr(f.weight),
         data.buyLinks.GetOr(f.buyLinks),
         data.isOpen.GetOr(f.isOpen),
         data.openedAt.GetOr(f.openedAt))
  }

  /** The document updateFood leaves behind. */
  function UpdatedFood(f: Food, body: FoodBody): Food {
    ApplyUpdate(f, UpdatedData(body))
  }

  /** Fields the body carries are overwritten, fields it lacks are kept,
      the id never changes, given non-empty links are stored as given, and
      the result always has links. */
  lemma UpdateOverwritesPresentFields(f: Food, body: FoodBody)
    ensures var g := UpdatedFood(f, body);
      && g.id == f.id
      && (body.name.Some? ==> g.name == body.name.value) && (body.name.None? ==> g.name == f.name)
      && (body.brand.Some? ==> g.brand == body.brand.value) && (body.brand.None? ==> g.brand == f.brand)
      && (body.weight.Some? ==> g.weight == body.weight.value) && (body.weight.None? ==> g.weight == f.weight)
      && (body.specifications.Some? ==> g.specifications == body.specifications.value)
      && (body.specifications.None? ==> g.specifications == f.specifications)
      && (body.isOpen.Some? ==> g.isOpen == body.isOpen.value) && (body.isOpen.None? ==> g.isOpen == f.isOpen)
      && (body.openedAt.Some? ==> g.openedAt == body.openedAt.value)
      && (body.openedAt.None? ==> g.openedAt == f.openedAt)
      && (HasLinks(body.buyLinks) ==> g.buyLinks == body.buyLinks.value)
      && |g.buyLinks| >= 1
  {
  }

  /** A body without links replaces the stored links by the default even
      when the document had links of its own. */
  lemma UpdateDropsStoredLinks(f: Food, body: FoodBody)
    requires !HasLinks(body.buyLinks)
    ensures UpdatedFood(f, body).buyLinks == [SearchLink(TemplateText(body.name))]
  {
  }

  /** A body with neither links nor a name gets the search link for the
      word "undefined", not for the stored name. */
  lemma UpdateWithoutNameLinksToUndefined(f: Food, body: FoodBody)
    requires !HasLinks(body.buyLinks) && body.name.None?
    ensures UpdatedFood(f, body).buyLinks == [SearchLink("undefined")]
    ensures UpdatedFood(f, body).name == f.name
  {
  }

  /** An update that does not touch `isOpen` or `openedAt` keeps the
      open-state invariant. */
  lemma UpdateKeepsOpenState(f: Food, body: FoodBody)
    requires OpenStateConsistent(f)
    requires body.isOpen.None? && body.openedAt.None?
    ensures OpenStateConsistent(UpdatedFood(f, body))
  {
  }

  /** An update may break the invariant, though: setting only `isOpen` on a
      closed package leaves it open with no opening date. */
  lemma UpdateCanBreakOpenState(f: Food, links: seq<string>)
    requires !f.isOpen && f.openedAt.None?
    ensures var body := FoodBody(None, None, None, None, Some(links), Some(true), None);
      !OpenStateConsistent(UpdatedFood(f, body))
  {
  }

  /** The toggle transition: the flag flips, `openedAt` is `now` when the
      package opens and cleared when it closes, nothing else changes. The
      result satisfies the open-state invariant whatever the state before. */
  function Toggled(f: Food, now: Timestamp): (g: Food)
    ensures g.isOpen == !f.isOpen
    ensures OpenStateConsistent(g)
    ensures g.isOpen ==> g.openedAt == Some(now)
    ensures g.(isOpen := f.isOpen, openedAt := f.openedAt) == f
  {
    var nowOpen := !f.isOpen;
    f.(isOpen := nowOpen, openedAt := if nowOpen then Some(now) else None)
  }

  /** Opening and then closing a closed package leaves it closed with no
      opening date and every other field as it was; for a package that
      satisfied the invariant, that is the package itself. */
  lemma ToggleTwiceFromClosed(f: Food, openTime: Timestamp, closeTime: Timestamp)
    requires !f.isOpen
    ensures Toggled(f, openTime).isOpen && Toggled(f, openTime).openedAt == Some(openTime)
    ensures Toggled(Toggled(f, openTime), closeTime) == f.(openedAt := None)
    ensures OpenStateConsistent(f) ==> Toggled(Toggled(f, openTime), closeTime) == f
  {
  }

  /** Closing and reopening an open package keeps everything but the
      opening date, which becomes the time of reopening. */
  lemma ToggleTwiceFromOpen(f: Food, closed: Timestamp, reopened: Timestamp)
    requires f.isOpen
    ensures Toggled(Toggled(f, closed), reopened) == f.(openedAt := Some(reopened))
  {
  }

  /** The food collection and the handlers acting on it. */
  class FoodStore {
    var foods: map<string, Food>

    constructor()
      ensures foods == map[]
    {
      foods := map[];
    }

    /** createFood: 201 with the saved document; a validation failure or an
        id already taken is caught as 500 and stores nothing. `newId` is the
        id the driver generates. */
    method CreateFood(newId: string, body: FoodBody) returns (reply: Reply<Food>)
      modifies this
      ensures match CreatedFood(newId, body)
        case Success(f) =>
          if newId !in old(foods) then foods == old(foods)[newId := f] && reply == Reply(201, Doc(f))
          else foods == old(foods) && reply == Reply(500, Message(ServerError))
        case Failure(_) =>
          foods == old(foods) && reply == Reply(500, Message(ServerError))
    {
      var linksToSave := LinksToSave(body.buyLinks, body.name);
      var food := NewFood(newId, FoodFields(body.name, body.brand, body.specifications, body.weight, Some(linksToSave)));
      if food.Failure? || newId in foods {
        reply := Reply(500, Message(ServerError));
        return;
      }
      foods := foods[newId := food.value];
      reply := Reply(201, Doc(food.value));
    }

    /** getFoodById: the document, or 404. */
    method GetFoodById(id: string) returns (reply: Reply<Food>)
      ensures id in foods ==> reply == Reply(200, Doc(foods[id]))
      ensures id !in foods ==> reply == Reply(404, Message(NotFoundMessage))
    {
      if id !in foods {
        return Reply(404, Message(NotFoundMessage));
      }
      reply := Reply(200, Doc(foods[id]));
    }

    /** updateFood: 404 and no change for an unknown id, otherwise the
        updated document. */
    method UpdateFood(id: string, body: FoodBody) returns (reply: Reply<Food>)
      modifies this
      ensures id !in old(foods) ==> foods == old(foods) && reply == Reply(404, Message(NotFoundMessage))
      ensures id in old(foods) ==>
        && foods == old(foods)[id := UpdatedFood(old(foods)[id], body)]
        && reply == Reply(200, Doc(foods[id]))
    {
      var updatedData := UpdatedData(body);
      if id !in foods {
        return Reply(404, Message(NotFoundMessage));
      }
      var updated := ApplyUpdate(foods[id], updatedData);
      foods := foods[id := updated];
      reply := Reply(200, Doc(updated));
    }

    /** deleteFood: 404 and no change for an unknown id, otherwise the
        document is gone and the reply is a confirmation. */
    method DeleteFood(id: string) returns (reply: Reply<Food>)
      modifies this
      ensures id !in old(foods) ==> foods == old(foods) && reply == Reply(404, Message(NotFoundMessage))
      ensures id in old(foods) ==> foods == old(foods) - {id} && reply == Reply(200, Message(DeletedMessage))
    {
      if id !in foods {
        return Reply(404, Message(NotFoundMessage));
      }
      foods := foods - {id};
      reply := Reply(200, Message(DeletedMessage));
    }

    /** toggleOpen: loads the document, flips `isOpen`, then sets or clears
        `openedAt`, and saves. 404 and no change for an unknown id. */
    method ToggleOpen(id: string, now: Timestamp) returns (reply: Reply<Food>)
      modifies this
      ensures id !in old(foods) ==> foods == old(foods) && reply == Reply(404, Message(NotFoundMessage))
      ensures id in old(foods) ==>
        && foods == old(foods)[id := Toggled(old(foods)[id], now)]
        && reply == Reply(200, Doc(foods[id]))
    {
      if id !in foods {
        return Reply(404, Message(NotFoundMessage));
      }
      var food := foods[id];
      var nowOpen := !food.isOpen;
      food := food.(isOpen := nowOpen);
      if nowOpen {
        food := food.(openedAt := Some(now));
      } else {
        food := food.(openedAt := None);
      }
      foods := foods[id := food];
      reply := Reply(200, Doc(food));
    }
  }
}
