/** The string builders of `products/utils.py`: the text a product is
    compared by, the one-line legal description of a shop, and the cache
    entries they feed. */
module ProductText {
  import opened Wrappers
  import opened Text
  import opened Catalog
  import Cache

  /** `value or ""`: both a missing and an empty value read as empty. */
  function OrEmpty(o: Option<string>): (r: string)
    ensures o.Some? ==> r == o.value
    ensures o.None? ==> r == ""
  {
    o.GetOr("")
  }

  /** The six characteristics that close the text, in source order. */
  function Attributes(p: Product): (r: seq<string>)
    ensures |r| == 6
  {
    [OrEmpty(p.brand), OrEmpty(p.productType), OrEmpty(p.compatibility),
     OrEmpty(p.threadType), OrEmpty(p.mountingType), OrEmpty(p.principleOfOperation)]
  }

  /** `get_product_text`: the name, the category titles, then the six
      characteristics, one space between each; an empty field still takes
      its place. */
  function ProductText(p: Product): (r: string)
    ensures IsPrefix(p.name + " ", r)
  {
    var fields := [p.name, JoinWith(" ", Titles(p.categories))] + Attributes(p);
    assert fields[1..] == [JoinWith(" ", Titles(p.categories))] + Attributes(p);
    assert (p.name + " " + JoinWith(" ", fields[1..]))[..|p.name + " "|] == p.name + " ";
    JoinWith(" ", fields)
  }

  predicate NoSpace(s: string) {
    ' ' !in s
  }

  /** When no name, title or characteristic holds a space, the text splits on
      spaces back into the name, the titles (a single empty field when there
      are none) and the six characteristics, empty ones included. */
  lemma ProductTextSplits(p: Product)
    requires NoSpace(p.name)
    requires forall i :: 0 <= i < |p.categories| ==> NoSpace(p.categories[i].title)
    requires forall i :: 0 <= i < 6 ==> NoSpace(Attributes(p)[i])
    ensures SplitOn(' ', ProductText(p)) ==
      [p.name] + (if p.categories == [] then [""] else Titles(p.categories)) + Attributes(p)
    ensures |SplitOn(' ', ProductText(p))| == 7 + (if p.categories == [] then 1 else |p.categories|)
  {
    var cats := JoinWith(" ", Titles(p.categories));
    var attrs := Attributes(p);
    var fields := [p.name, cats] + attrs;
    assert " " == [' '];
    SplitJoinAll(' ', fields);
    SplitAllAppend(' ', [p.name, cats], attrs);
    SplitAllWithout(' ', attrs);
    SplitAllPair(' ', p.name, cats);
    SplitWithout(' ', p.name);
    CategoriesSplit(p.categories);
  }

  /** The joined category titles split back into the titles, or into one
      empty field when there are none. */
  lemma CategoriesSplit(cs: seq<Category>)
    requires forall i :: 0 <= i < |cs| ==> NoSpace(cs[i].title)
    ensures SplitOn(' ', JoinWith(" ", Titles(cs))) == if cs == [] then [""] else Titles(cs)
  {
    var titles := Titles(cs);
    assert " " == [' '];
    if titles == [] {
      assert JoinWith(" ", titles) == "";
    } else {
      SplitJoin(' ', titles);
    }
  }

  // ---------------------------------------------------------------------
  // Shop line

  /** The first seller of the shop; a missing name part is the empty string. */
  datatype Owner = Owner(lastName: string, firstName: string, patronymic: string)

  /** `filter(None, ...)`: the non-empty strings, in order. */
  function NonEmpty(parts: seq<string>): (r: seq<string>)
    ensures forall i :: 0 <= i < |r| ==> r[i] != ""
    ensures forall s :: s in r <==> s in parts && s != ""
    ensures |r| <= |parts|
  {
    if parts == [] then []
    else (if parts[0] == "" then [] else [parts[0]]) + NonEmpty(parts[1..])
  }

  /** The owner's full name: the non-empty name parts joined by spaces;
      no owner gives the empty string. */
  function Fio(owner: Option<Owner>): (r: string)
    ensures owner.None? ==> r == ""
  {
    match owner
    case None => ""
    case Some(o) => JoinWith(" ", NonEmpty([o.lastName, o.firstName, o.patronymic]))
  }

  /** With space-free name parts the full name splits back into exactly the
      non-empty ones, so none is lost and no empty one leaves a double space. */
  lemma FioSplits(o: Owner)
    requires NoSpace(o.lastName) && NoSpace(o.firstName) && NoSpace(o.patronymic)
    requires o.lastName != "" || o.firstName != "" || o.patronymic != ""
    ensures SplitOn(' ', Fio(Some(o))) == NonEmpty([o.lastName, o.firstName, o.patronymic])
  {
    var parts := NonEmpty([o.lastName, o.firstName, o.patronymic]);
    assert o.lastName in parts || o.firstName in parts || o.patronymic in parts;
    assert forall i :: 0 <= i < |parts| ==> parts[i] in parts;
    assert " " == [' '];
    SplitJoin(' ', parts);
  }

  /** The `ИНН` and `ОГРНИП` notes of an individual entrepreneur, for the
      values that are present. */
  function Extra(s: Shop): (r: seq<string>)
    ensures |r| <= 2
    ensures r == [] <==> s.inn == "" && OrEmpty(s.ogrnip) == ""
  {
    (if s.inn != "" then ["ИНН: " + s.inn] else [])
    + (if OrEmpty(s.ogrnip) != "" then ["ОГРНИП: " + OrEmpty(s.ogrnip)] else [])
  }

  /** The f-string rendering of an optional value: `None` prints as "None". */
  function Render(o: Option<string>): string {
    match o
    case None => "None"
    case Some(v) => v
  }

  /** The tail of an entrepreneur's line: exactly the notes of the
      registration numbers the shop has, in the order ИНН then ОГРНИП, each
      after ", ", and nothing when it has neither. */
  function Notes(s: Shop): (r: string)
    ensures var ogrnip := OrEmpty(s.ogrnip);
      (s.inn == "" && ogrnip == "" ==> r == "") &&
      (s.inn != "" && ogrnip == "" ==> r == ", ИНН: " + s.inn) &&
      (s.inn == "" && ogrnip != "" ==> r == ", ОГРНИП: " + ogrnip) &&
      (s.inn != "" && ogrnip != "" ==> r == ", ИНН: " + s.inn + ", ОГРНИП: " + ogrnip)
  {
    var extra := Extra(s);
    var a := "ИНН: " + s.inn;
    var b := "ОГРНИП: " + OrEmpty(s.ogrnip);
    assert [a, b][1..] == [b];
    assert JoinWith(", ", [a, b]) == a + ", " + b;
    assert ", " + (a + ", " + b) == ", " + a + ", " + b;
    if extra != [] then ", " + JoinWith(", ", extra) else ""
  }

  /** The line `set_shop_info_cache` stores for a shop. */
  function ShopInfo(s: Shop, owner: Option<Owner>): (r: string)
    ensures s.shopType == IndividualEntrepreneur ==>
      r == "Индивидуальный предприниматель " + Fio(owner) + Notes(s)
    ensures !(s.shopType.SelfEmployed? || s.shopType.IndividualEntrepreneur? || s.shopType.LegalPerson?) ==> r == s.title
  {
    match s.shopType
    case SelfEmployed => TypeDisplay(s.shopType) + " " + Fio(owner)
    case IndividualEntrepreneur => TypeDisplay(s.shopType) + " " + Fio(owner) + Notes(s)
    case LegalPerson => TypeDisplay(s.shopType) + " " + s.title + ", ОГРН: " + Render(s.ogrn)
    case Unlisted(_) => s.title
  }

  /** The self-employed line is the label and the full name; the legal
      person's names the shop and its ОГРН, printing a missing one as "None";
      a shop type outside the three listed gets its bare title. */
  lemma ShopInfoLines(s: Shop, o: Owner)
    ensures s.shopType == SelfEmployed && o.lastName != "" && o.firstName != "" && o.patronymic != "" ==>
      ShopInfo(s, Some(o)) == "самозанятый " + o.lastName + " " + o.firstName + " " + o.patronymic
    ensures s.shopType == SelfEmployed ==> ShopInfo(s, None) == "самозанятый "
    ensures s.shopType == LegalPerson ==>
      ShopInfo(s, None) == "юрлицо " + s.title + ", ОГРН: " + (if s.ogrn.None? then "None" else s.ogrn.value)
    ensures s.shopType.Unlisted? ==> ShopInfo(s, Some(o)) == s.title
  {
    if s.shopType == SelfEmployed && o.lastName != "" && o.firstName != "" && o.patronymic != "" {
      FioFull(o);
      var t := "самозанятый ";
      assert ShopInfo(s, Some(o)) == t + Fio(Some(o));
      assert t + (o.lastName + " " + (o.firstName + " " + o.patronymic))
          == t + o.lastName + " " + o.firstName + " " + o.patronymic;
    }
  }

  /** With all three name parts present, the full name is all three. */
  lemma FioFull(o: Owner)
    requires o.lastName != "" && o.firstName != "" && o.patronymic != ""
    ensures Fio(Some(o)) == o.lastName + " " + (o.firstName + " " + o.patronymic)
  {
    var parts := [o.lastName, o.firstName, o.patronymic];
    assert parts[1..] == [o.firstName, o.patronymic] && parts[1..][1..] == [o.patronymic];
    assert parts[1..][1..][1..] == [];
    assert NonEmpty([o.patronymic]) == [o.patronymic] + NonEmpty([]);
    assert NonEmpty([o.firstName, o.patronymic]) == [o.firstName] + NonEmpty([o.patronymic]);
    assert NonEmpty(parts) == [o.lastName] + NonEmpty([o.firstName, o.patronymic]);
    assert JoinWith(" ", [o.firstName, o.patronymic]) == o.firstName + " " + o.patronymic;
    assert JoinWith(" ", parts) == o.lastName + " " + JoinWith(" ", [o.firstName, o.patronymic]);
    assert NonEmpty(parts) == parts;
  }

  /** The key the shop line is cached under. */
  function ShopInfoKey(slug: string): (k: string)
    ensures IsPrefix("shop_", k)
  {
    "shop_" + slug + "_info_cache"
  }

  /** A day, in seconds. */
  const ShopInfoTtl: nat := 60 * 60 * 24

  /** `set_shop_info_cache`: the shop's line stored for a day under its key;
      the other entries stay as they were. */
  function SetShopInfoCache(c: Cache.Store<string>, s: Shop, owner: Option<Owner>): (r: Cache.Store<string>)
    ensures ShopInfoKey(s.slug) in r && r[ShopInfoKey(s.slug)].ttl == 86400
    ensures r[ShopInfoKey(s.slug)].value == ShopInfo(s, owner)
    ensures forall k :: k != ShopInfoKey(s.slug) ==> (k in r <==> k in c) && (k in c ==> r[k] == c[k])
  {
    Cache.Set(c, ShopInfoKey(s.slug), ShopInfo(s, owner), ShopInfoTtl)
  }

  /** Shops with different slugs are cached under different keys. */
  lemma ShopInfoKeyInjective(a: string, b: string)
    requires ShopInfoKey(a) == ShopInfoKey(b)
    ensures a == b
  {
    var ka := ShopInfoKey(a);
    assert ka[5..|ka| - 11] == a;
    var kb := ShopInfoKey(b);
    assert kb[5..|kb| - 11] == b;
  }

  /** `CACHE_TIMEOUT`: ten minutes. */
  const ItemsTtl: nat := 10 * 60

  /** `get_cached_items`: a read-through lookup kept for ten minutes. */
  function GetCachedItems<V>(c: Cache.Store<V>, key: string, items: V): (r: Cache.Got<V>)
    ensures key in r.store && r.store[key].value == r.value
    ensures key !in c ==> r.store[key] == Cache.Entry(items, 600)
    ensures key in c ==> r.store == c
  {
    Cache.GetOrSet(c, key, items, ItemsTtl)
  }
}
