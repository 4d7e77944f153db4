/** The age selector: the numeric options of each age category, the
    category images and the reset of the numeric value on a category
    change. */
module PetAgeSelector {
  import opened Wrappers
  import opened JsStrings

  const Categories: seq<string> := ["young", "adult", "old"]

  /** `Array.from({ length: n }, (_, i) => i + first)`. */
  function Range(first: int, n: nat): (r: seq<int>)
    ensures |r| == n
    ensures forall i :: 0 <= i < n ==> r[i] == first + i
    decreases n
  {
    if n == 0 then [] else [first] + Range(first + 1, n - 1)
  }

  /** `getAgeOptions`: months 0 to 12 for a young pet, years 1 to 7 for an
      adult and 7 to 30 for an old one, nothing otherwise. Every list counts
      up by one. */
  function AgeOptions(category: string): (opts: seq<int>)
    ensures forall i :: 0 <= i < |opts| - 1 ==> opts[i + 1] == opts[i] + 1
  {
    if category == "young" then Range(0, 13)
    else if category == "adult" then Range(1, 7)
    else if category == "old" then Range(7, 24)
    else []
  }

  /** The bounds and sizes of the three option lists. */
  lemma AgeOptionBounds(category: string)
    ensures category == "young" ==> |AgeOptions(category)| == 13 && AgeOptions(category)[0] == 0 && AgeOptions(category)[12] == 12
    ensures category == "adult" ==> |AgeOptions(category)| == 7 && AgeOptions(category)[0] == 1 && AgeOptions(category)[6] == 7
    ensures category == "old" ==> |AgeOptions(category)| == 24 && AgeOptions(category)[0] == 7 && AgeOptions(category)[23] == 30
    ensures category !in Categories ==> AgeOptions(category) == []
  {
  }

  /** Within a list the options are strictly increasing, so no option
      appears twice. */
  lemma {:induction false} AgeOptionsIncreasing(category: string, i: int, j: int)
    requires 0 <= i < j < |AgeOptions(category)|
    ensures AgeOptions(category)[i] < AgeOptions(category)[j]
  {
    var opts := AgeOptions(category);
    if j > i + 1 {
      AgeOptionsIncreasing(category, i, j - 1);
    }
    assert opts[j] == opts[j - 1] + 1;
  }

  /** `str.charAt(0).toUpperCase() + str.slice(1)`. */
  function Capitalize(s: string): (r: string)
    ensures |r| == |s|
    ensures s != [] ==> r[0] == ToUpperAscii(s[0]) && r[1..] == s[1..]
  {
    if s == [] then [] else [ToUpperAscii(s[0])] + s[1..]
  }

  /** Capitalizing twice is capitalizing once. */
  lemma CapitalizeIdempotent(s: string)
    ensures Capitalize(Capitalize(s)) == Capitalize(s)
  {
    if s != [] {
      var c := ToUpperAscii(s[0]);
      assert ToUpperAscii(c) == c;
      assert Capitalize(s)[1..] == s[1..];
    }
  }

  const ImageFolder: string := "/assets/images/"

  /** The image for one animal and category: a `.png` file in the image
      folder, named by the capitalized animal type followed by the
      capitalized category. */
  function ImagePath(animalType: string, category: string): (path: string)
    ensures |path| == |ImageFolder| + |animalType| + |category| + 4
    ensures path[..|ImageFolder|] == ImageFolder && path[|path| - 4..] == ".png"
    ensures path[|ImageFolder|..|path| - 4] == Capitalize(animalType) + Capitalize(category)
  {
    var name := Capitalize(animalType) + Capitalize(category);
    var path := ImageFolder + name + ".png";
    assert path[|ImageFolder|..|path| - 4] == name;
    path
  }

  /** The images shown for an animal type: none when the type is empty (the
      selector renders nothing), otherwise one per category, in the order of
      the categories, each the image of that animal and category. */
  function CategoryImages(animalType: string): (images: Option<seq<string>>)
    ensures images.None? <==> animalType == ""
    ensures images.Some? ==> |images.value| == |Categories|
    ensures images.Some? ==> forall i :: 0 <= i < |Categories| ==>
      images.value[i] == ImageFolder + Capitalize(animalType) + Capitalize(Categories[i]) + ".png"
  {
    if animalType == "" then None
    else Some(seq(|Categories|, i requires 0 <= i < |Categories| => ImagePath(animalType, Categories[i])))
  }

  /** The three images of one animal are three different files: they differ
      in the first letter after the animal's name. */
  lemma CategoryImagesDistinct(animalType: string)
    requires animalType != ""
    ensures var images := CategoryImages(animalType).value;
      images[0] != images[1] && images[1] != images[2] && images[0] != images[2]
  {
    var images := CategoryImages(animalType).value;
    var k := |ImageFolder| + |animalType|;
    CategoryLetter(animalType, Categories[0]);
    CategoryLetter(animalType, Categories[1]);
    CategoryLetter(animalType, Categories[2]);
    assert images[0][k] == 'Y' && images[1][k] == 'A' && images[2][k] == 'O';
  }

  /** Right after the animal's name an image path shows its category's
      capital letter. */
  lemma CategoryLetter(animalType: string, category: string)
    requires category != ""
    ensures ImagePath(animalType, category)[|ImageFolder| + |animalType|] == ToUpperAscii(category[0])
  {
    var path := ImagePath(animalType, category);
    var name := path[|ImageFolder|..|path| - 4];
    assert path[|ImageFolder| + |animalType|] == name[|animalType|];
  }

  /** The parent's selection the two callbacks update. */
  datatype Selection = Selection(category: string, value: string)

  /** Clicking a category selects it and clears the numeric value, so a
      value chosen under the old category never stays selected: the empty
      value is not the text of any option. */
  function OnCategoryClick(sel: Selection, category: string): (r: Selection)
    ensures r.category == category
    ensures r.value == ""
    ensures forall n :: 0 <= n < |AgeOptions(category)| ==> r.value != IntToString(AgeOptions(category)[n])
  {
    var r := Selection(category, "");
    assert forall m :: |IntToString(m)| >= 1 by {
      forall m ensures |IntToString(m)| >= 1 {
        if m < 0 {
          assert |NatToString(-m)| >= 1;
        } else {
          assert |NatToString(m)| >= 1;
        }
      }
    }
    r
  }
}
