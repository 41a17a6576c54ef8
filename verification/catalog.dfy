/** The catalogue records of `products/models.py`: shops, categories,
    products and review ratings, with the few rules those classes carry. */
module Catalog {
  import opened Text
  import opened Wrappers

  // ---------------------------------------------------------------------
  // Shop

  /** `Shop.TYPE_OPTIONS`, plus any other stored code (the choices are not
      enforced by the database, and `set_shop_info_cache` has a branch for them). */
  datatype ShopType = SelfEmployed | IndividualEntrepreneur | LegalPerson | Unlisted(code: string)

  const DefaultShopType: ShopType := SelfEmployed

  function ShopTypeCode(t: ShopType): string {
    match t
    case SelfEmployed => "self-employed"
    case IndividualEntrepreneur => "individual_entrepreneur"
    case LegalPerson => "legal_person"
    case Unlisted(c) => c
  }

  predicate IsListedShopCode(code: string) {
    code == "self-employed" || code == "individual_entrepreneur" || code == "legal_person"
  }

  /** A shop type value as stored: an `Unlisted` code is never one of the listed ones. */
  predicate ValidShopType(t: ShopType) {
    t.Unlisted? ==> !IsListedShopCode(t.code)
  }

  function ParseShopType(code: string): (t: ShopType)
    ensures ValidShopType(t)
    ensures t.Unlisted? <==> !IsListedShopCode(code)
  {
    if code == "self-employed" then SelfEmployed
    else if code == "individual_entrepreneur" then IndividualEntrepreneur
    else if code == "legal_person" then LegalPerson
    else Unlisted(code)
  }

  /** Stored codes and shop types are in one-to-one correspondence, and the
      field default is the listed code "self-employed". */
  lemma ShopTypeRoundTrip(t: ShopType, code: string)
    ensures ValidShopType(t) ==> ParseShopType(ShopTypeCode(t)) == t
    ensures ShopTypeCode(ParseShopType(code)) == code
    ensures ValidShopType(DefaultShopType) && ShopTypeCode(DefaultShopType) == "self-employed"
  {
  }

  /** `get_type_display()`: the label of a listed code, the raw code otherwise. */
  function TypeDisplay(t: ShopType): string {
    match t
    case SelfEmployed => "самозанятый"
    case IndividualEntrepreneur => "Индивидуальный предприниматель"
    case LegalPerson => "юрлицо"
    case Unlisted(c) => c
  }

  datatype Shop = Shop(
    id: nat,
    title: string,
    slug: string,
    shopType: ShopType,
    inn: string,
    ogrnip: Option<string>,
    ogrn: Option<string>,
    verified: bool)

  // ---------------------------------------------------------------------
  // Category

  datatype Category = Category(title: string, slug: string)

  /** `string.ascii_lowercase + string.digits`. */
  const SlugAlphabet: string := "abcdefghijklmnopqrstuvwxyz0123456789"

  /** `Category._rand_slug()`: three independent picks from the alphabet; the
      picks themselves are the randomness and arrive as a parameter. */
  function RandSlug(picks: seq<nat>): (r: string)
    requires |picks| == 3 && forall i :: 0 <= i < 3 ==> picks[i] < |SlugAlphabet|
    ensures |r| == 3
    ensures forall i :: 0 <= i < 3 ==> r[i] in SlugAlphabet
  {
    [SlugAlphabet[picks[0]], SlugAlphabet[picks[1]], SlugAlphabet[picks[2]]]
  }

  function IndexIn(c: char, s: string): (i: nat)
    requires c in s
    ensures i < |s| && s[i] == c
  {
    if s[0] == c then 0 else 1 + IndexIn(c, s[1..])
  }

  /** Every three-character string over the alphabet can come out of `_rand_slug`. */
  lemma RandSlugCovers(s: string)
    requires |s| == 3 && forall i :: 0 <= i < 3 ==> s[i] in SlugAlphabet
    ensures exists picks: seq<nat> ::
      |picks| == 3 && (forall i :: 0 <= i < 3 ==> picks[i] < |SlugAlphabet|) && RandSlug(picks) == s
  {
    var picks := PicksFor(SlugAlphabet, s);
    assert RandSlug(picks) == [s[0], s[1], s[2]] == s;
  }

  /** The positions in `alphabet` that spell a three-character string. */
  lemma PicksFor(alphabet: string, s: string) returns (picks: seq<nat>)
    requires |s| == 3 && forall i :: 0 <= i < 3 ==> s[i] in alphabet
    ensures |picks| == 3
    ensures forall i :: 0 <= i < 3 ==> picks[i] < |alphabet| && alphabet[picks[i]] == s[i]
  {
    picks := [IndexIn(s[0], alphabet), IndexIn(s[1], alphabet), IndexIn(s[2], alphabet)];
  }

  /** `Category.save`: an empty slug is replaced by
      `slugify(_rand_slug() + '-pickBetter' + title)`; a non-empty one is kept.
      `slugify` is a library routine and arrives as a parameter. */
  function SaveSlug(slug: string, title: string, rand: string, slugify: string -> string): string {
    if slug == [] then slugify(rand + "-pickBetter" + title) else slug
  }

  /** Saving a category again never regenerates its slug, once the first save
      produced a non-empty one. */
  lemma SaveSlugStable(slug: string, title: string, rand1: string, rand2: string, slugify: string -> string)
    requires slug != [] || slugify(rand1 + "-pickBetter" + title) != []
    ensures var s1 := SaveSlug(slug, title, rand1, slugify);
            SaveSlug(s1, title, rand2, slugify) == s1
    ensures slug != [] ==> SaveSlug(slug, title, rand1, slugify) == slug
  {
  }

  // ---------------------------------------------------------------------
  // Product

  /** Shipping dimensions (cm) and weight (kg) after the `Decimal(...)`
      conversions of the checkout; `None` when a conversion fails. */
  datatype Dims = Dims(width: real, length: real, height: real, weight: real)

  datatype Product = Product(
    id: nat,
    name: string,
    categories: seq<Category>,
    shopSlug: string,
    description: Option<string>,
    price: real,
    itemsLeft: Option<int>,
    brand: Option<string>,
    productType: Option<string>,
    compatibility: Option<string>,
    threadType: Option<string>,
    mountingType: Option<string>,
    principleOfOperation: Option<string>,
    show: bool,
    verified: bool,
    warehouseCity: string,
    dims: Option<Dims>)

  function Titles(cs: seq<Category>): (ts: seq<string>)
    ensures |ts| == |cs| && forall i :: 0 <= i < |cs| ==> ts[i] == cs[i].title
  {
    if cs == [] then [] else [cs[0].title] + Titles(cs[1..])
  }

  /** `Product.categories()`: the category titles joined by `","`. */
  function CategoriesLabel(p: Product): string {
    JoinWith(",", Titles(p.categories))
  }

  /** The label splits back into the category titles when no title holds a comma. */
  lemma CategoriesLabelSplits(p: Product)
    requires |p.categories| >= 1
    requires forall i :: 0 <= i < |p.categories| ==> ',' !in p.categories[i].title
    ensures SplitOn(',', CategoriesLabel(p)) == Titles(p.categories)
  {
    SplitJoin(',', Titles(p.categories));
  }

  // ---------------------------------------------------------------------
  // Review

  /** `Review.RATING_OPTIONS`. */
  const RatingOptions: seq<int> := [1, 2, 3, 4, 5]

  /** The field default is the string `'5'`, stored as the integer 5. */
  const DefaultRating: int := 5

  predicate ValidRating(r: int) {
    r in RatingOptions
  }

  lemma RatingRange(r: int)
    ensures ValidRating(r) <==> 1 <= r <= 5
    ensures ValidRating(DefaultRating)
  {
  }
}
