/** What a food card derives from a food: the one "Buy" link and the
    specifications line. */
module FoodItem {
  import opened Wrappers
  import opened JsStrings
  import opened CommaList
  import opened FoodModel
  import FoodController
  import UriComponent

  /** `buyUrl`: the first link when the food has a non-empty array of
      links, otherwise the marketplace search for its name. */
  function BuyUrl(buyLinks: Option<seq<string>>, name: string): string {
    if FoodController.HasLinks(buyLinks) then buyLinks.value[0] else FoodController.SearchLink(name)
  }

  /** Only the first link matters; the later ones are never shown. */
  lemma BuyUrlIgnoresLaterLinks(first: string, rest1: seq<string>, rest2: seq<string>, name: string)
    ensures BuyUrl(Some([first] + rest1), name) == first
    ensures BuyUrl(Some([first] + rest1), name) == BuyUrl(Some([first] + rest2), name)
  {
  }

  /** Without links, the card falls back to the very link the server
      stores by default for a food of that name. */
  lemma FallbackMatchesServerDefault(buyLinks: Option<seq<string>>, name: string)
    requires !FoodController.HasLinks(buyLinks)
    ensures BuyUrl(buyLinks, name) == FoodController.LinksToSave(buyLinks, Some(name))[0]
    ensures UriComponent.Decode(BuyUrl(buyLinks, name)[|FoodController.SearchUrlPrefix|..]) == Some(name)
  {
  }

  /** For a food the server created, the card's link is the one the
      request body would have produced directly, so the server's default
      and the card's fallback never disagree. */
  lemma CreatedFoodBuyUrl(id: string, body: FoodController.FoodBody)
    requires FoodController.CreatedFood(id, body).Success?
    ensures var f := FoodController.CreatedFood(id, body).value;
      BuyUrl(Some(f.buyLinks), f.name) == BuyUrl(body.buyLinks, f.name)
  {
    FoodController.CreatedFoodLinks(id, body);
  }

  /** The specifications line: shown only for a non-empty array, as its
      items joined with `", "`. */
  function SpecsLine(specifications: Option<seq<string>>): (line: Option<string>)
    ensures line.Some? <==> specifications.Some? && |specifications.value| > 0
  {
    if specifications.Some? && |specifications.value| > 0 then Some(JoinCommaList(specifications.value))
    else None
  }

  /** A shown line of clean items reads back as the same list in the form. */
  lemma SpecsLineReadsBack(specifications: seq<string>)
    requires |specifications| > 0 && AllClean(specifications)
    ensures ParseCommaList(SpecsLine(Some(specifications)).value) == specifications
  {
    ParseJoinedList(specifications);
  }
}
