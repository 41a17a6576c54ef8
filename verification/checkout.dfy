/** The arithmetic of the checkout views in `cart/views.py`: the quantity
    clamp of `cart_update`, the per-shop grouping of `cart_view`, the shop
    filter of `order_view`, and the shipping quote that `order_view` returns
    for a city and delivery method. */
module Checkout {
  import opened Text
  import opened Wrappers
  import opened Money
  import opened Catalog
  import opened SessionCart
  import opened Tariff
  import opened Grouping
  import opened Seqs

  // ---------------------------------------------------------------------
  // cart_update

  /** The stock assumed for a product whose `items_left` is unset. */
  const MissingStock: int := 10000

  /** The quantity `cart_update` stores: at least 1 for any request of 1 or
      less, otherwise the request capped by the stock. */
  function ClampQty(requested: int, itemsLeft: Option<int>): (q: int)
    ensures requested <= 1 ==> q == 1
    ensures requested > 1 ==> q <= requested && q <= itemsLeft.GetOr(MissingStock)
    ensures requested > 1 ==> q == requested || q == itemsLeft.GetOr(MissingStock)
  {
    var stock := itemsLeft.GetOr(MissingStock);
    if requested < stock && requested > 1 then requested
    else if requested <= 1 then 1
    else stock
  }

  /** With a positive stock the clamp lands in `1..stock` and clamping again
      changes nothing; a sold-out product clamps any request above 1 to its
      stock, below 1. */
  lemma ClampRange(requested: int, itemsLeft: Option<int>)
    ensures itemsLeft.GetOr(MissingStock) >= 1 ==>
      1 <= ClampQty(requested, itemsLeft) <= itemsLeft.GetOr(MissingStock)
      && ClampQty(ClampQty(requested, itemsLeft), itemsLeft) == ClampQty(requested, itemsLeft)
    ensures itemsLeft.GetOr(MissingStock) < 1 && requested > 1 ==>
      ClampQty(requested, itemsLeft) == itemsLeft.GetOr(MissingStock)
    ensures itemsLeft.None? && 1 <= requested <= MissingStock ==> ClampQty(requested, itemsLeft) == requested
  {
  }

  // ---------------------------------------------------------------------
  // cart_view

  function ShopOf(e: Entry): string {
    e.item.shopSlug
  }

  datatype ShopGroup = ShopGroup(shop: string, items: Cart, total: real)

  /** The shops `cart_view` lists: those of existing shops, in order of
      their first item in the cart. */
  function ShopSlugs(c: Cart, shops: set<string>): seq<string> {
    Keep(Keys(c, ShopOf), shops)
  }

  /** The group of one shop: its items in cart order and their cost. */
  function GroupOf(c: Cart, s: string): ShopGroup {
    ShopGroup(s, Members(c, ShopOf, s), Sum(Members(c, ShopOf, s), LineCost))
  }

  function Expected(c: Cart, shops: set<string>): seq<ShopGroup> {
    var slugs := ShopSlugs(c, shops);
    seq(|slugs|, i requires 0 <= i < |slugs| => GroupOf(c, slugs[i]))
  }

  function ShopNames(gs: seq<ShopGroup>): (r: seq<string>)
    ensures |r| == |gs| && forall i :: 0 <= i < |gs| ==> r[i] == gs[i].shop
  {
    seq(|gs|, i requires 0 <= i < |gs| => gs[i].shop)
  }

  function Extend(g: ShopGroup, e: Entry): ShopGroup {
    ShopGroup(g.shop, g.items + [e], g.total + LineCost(e))
  }

  /** `cart_view`: walks the cart once, opening a group the first time an
      existing shop is met, skipping items of shops that do not exist, and
      adding each item and its cost to its shop's group. */
  method CartView(c: Cart, shops: set<string>) returns (groups: seq<ShopGroup>)
    ensures |groups| == |ShopSlugs(c, shops)|
    ensures forall i :: 0 <= i < |groups| ==> groups[i] == GroupOf(c, ShopSlugs(c, shops)[i])
  {
    groups := [];
    var k := 0;
    while k < |c|
      invariant 0 <= k <= |c|
      invariant groups == Expected(c[..k], shops)
    {
      var e := c[k];
      assert c[..k + 1] == c[..k] + [e];
      ViewStep(c[..k], e, shops);
      var j := Position(ShopNames(groups), e.item.shopSlug);
      if j == |groups| {
        if e.item.shopSlug !in shops {
          k := k + 1;
          continue;
        }
        groups := groups + [ShopGroup(e.item.shopSlug, [], 0.0)];
      }
      groups := groups[j := Extend(groups[j], e)];
      k := k + 1;
    }
    assert c[..|c|] == c;
  }

  lemma GroupOfOther(p: Cart, e: Entry, s: string)
    requires ShopOf(e) != s
    ensures GroupOf(p + [e], s) == GroupOf(p, s)
  {
    MembersAppend(p, e, ShopOf, s);
  }

  lemma GroupOfSame(p: Cart, e: Entry)
    ensures GroupOf(p + [e], ShopOf(e)) == Extend(GroupOf(p, ShopOf(e)), e)
  {
    MembersAppend(p, e, ShopOf, ShopOf(e));
    SumAppend(Members(p, ShopOf, ShopOf(e)), e, LineCost);
  }

  /** How one more cart item changes the expected groups. */
  lemma ViewStep(p: Cart, e: Entry, shops: set<string>)
    ensures ShopNames(Expected(p, shops)) == ShopSlugs(p, shops)
    ensures var slugs := ShopSlugs(p, shops); var g := Expected(p, shops); var s := ShopOf(e);
      (s !in slugs && s !in shops ==> Expected(p + [e], shops) == g)
      && (s !in slugs && s in shops ==>
            Expected(p + [e], shops) == (g + [ShopGroup(s, [], 0.0)])[|g| := Extend(ShopGroup(s, [], 0.0), e)])
      && (s in slugs ==> Expected(p + [e], shops) == g[Position(slugs, s) := Extend(g[Position(slugs, s)], e)])
  {
    var slugs := ShopSlugs(p, shops);
    var s := ShopOf(e);
    KeysAppend(p, e, ShopOf);
    KeysDistinct(p, ShopOf);
    KeepDistinct(Keys(p, ShopOf), shops);
    KeepSpec(Keys(p, ShopOf), shops, s);
    if s in Keys(p, ShopOf) {
      ViewStepKnown(p, e, shops);
    } else {
      KeepAppend(Keys(p, ShopOf), s, shops);
      KeysMembers(p, ShopOf, s);
      if s in shops {
        ViewStepNew(p, e, shops);
      } else {
        assert ShopSlugs(p + [e], shops) == slugs;
        ViewStepUnlisted(p, e, shops);
      }
    }
  }

  lemma ViewStepKnown(p: Cart, e: Entry, shops: set<string>)
    requires ShopOf(e) in Keys(p, ShopOf)
    requires Distinct(ShopSlugs(p, shops))
    ensures var slugs := ShopSlugs(p, shops); var g := Expected(p, shops); var s := ShopOf(e);
      (s !in slugs ==> Expected(p + [e], shops) == g)
      && (s in slugs ==> Expected(p + [e], shops) == g[Position(slugs, s) := Extend(g[Position(slugs, s)], e)])
  {
    var slugs := ShopSlugs(p, shops);
    var s := ShopOf(e);
    KeysAppend(p, e, ShopOf);
    assert ShopSlugs(p + [e], shops) == slugs;
    var j := Position(slugs, s);
    if j < |slugs| {
      ViewStepListed(p, e, shops, j);
    } else {
      ViewStepUnlisted(p, e, shops);
    }
  }

  /** An item of a shop that is not listed changes no group. */
  lemma ViewStepUnlisted(p: Cart, e: Entry, shops: set<string>)
    requires ShopSlugs(p + [e], shops) == ShopSlugs(p, shops)
    requires ShopOf(e) !in ShopSlugs(p, shops)
    ensures Expected(p + [e], shops) == Expected(p, shops)
  {
    var slugs := ShopSlugs(p, shops);
    forall i | 0 <= i < |slugs| ensures GroupOf(p + [e], slugs[i]) == GroupOf(p, slugs[i]) {
      GroupOfOther(p, e, slugs[i]);
    }
  }

  /** An item of the `j`-th listed shop extends that group only. */
  lemma ViewStepListed(p: Cart, e: Entry, shops: set<string>, j: nat)
    requires ShopSlugs(p + [e], shops) == ShopSlugs(p, shops)
    requires Distinct(ShopSlugs(p, shops))
    requires j < |ShopSlugs(p, shops)| && ShopSlugs(p, shops)[j] == ShopOf(e)
    ensures var g := Expected(p, shops); Expected(p + [e], shops) == g[j := Extend(g[j], e)]
  {
    var slugs := ShopSlugs(p, shops);
    forall i | 0 <= i < |slugs| && i != j ensures GroupOf(p + [e], slugs[i]) == GroupOf(p, slugs[i]) {
      assert slugs[i] != slugs[j];
      GroupOfOther(p, e, slugs[i]);
    }
    GroupOfSame(p, e);
  }

  lemma ViewStepNew(p: Cart, e: Entry, shops: set<string>)
    requires ShopOf(e) !in Keys(p, ShopOf) && ShopOf(e) in shops
    ensures var g := Expected(p, shops); var s := ShopOf(e);
      Expected(p + [e], shops) == (g + [ShopGroup(s, [], 0.0)])[|g| := Extend(ShopGroup(s, [], 0.0), e)]
  {
    var s := ShopOf(e);
    KeysAppend(p, e, ShopOf);
    KeepAppend(Keys(p, ShopOf), s, shops);
    KeepSpec(Keys(p, ShopOf), shops, s);
    assert ShopSlugs(p + [e], shops) == ShopSlugs(p, shops) + [s];
    ViewStepOpened(p, e, shops);
  }

  /** The first item of a listed shop opens its group behind the others. */
  lemma ViewStepOpened(p: Cart, e: Entry, shops: set<string>)
    requires ShopOf(e) !in Keys(p, ShopOf) && ShopOf(e) !in ShopSlugs(p, shops)
    requires ShopSlugs(p + [e], shops) == ShopSlugs(p, shops) + [ShopOf(e)]
    ensures var g := Expected(p, shops); var s := ShopOf(e);
      Expected(p + [e], shops) == (g + [ShopGroup(s, [], 0.0)])[|g| := Extend(ShopGroup(s, [], 0.0), e)]
  {
    var slugs := ShopSlugs(p, shops);
    var s := ShopOf(e);
    var g := Expected(p, shops);
    var lhs := Expected(p + [e], shops);
    var rhs := (g + [ShopGroup(s, [], 0.0)])[|g| := Extend(ShopGroup(s, [], 0.0), e)];
    assert |lhs| == |rhs| == |slugs| + 1;
    forall i | 0 <= i < |lhs| ensures lhs[i] == rhs[i] {
      if i < |slugs| {
        assert ShopSlugs(p + [e], shops)[i] == slugs[i];
        GroupOfOther(p, e, slugs[i]);
      } else {
        OpenedGroup(p, e);
      }
    }
  }

  lemma OpenedGroup(p: Cart, e: Entry)
    requires ShopOf(e) !in Keys(p, ShopOf)
    ensures GroupOf(p + [e], ShopOf(e)) == Extend(ShopGroup(ShopOf(e), [], 0.0), e)
  {
    KeysMembers(p, ShopOf, ShopOf(e));
    GroupOfSame(p, e);
  }

  /** The listed shops are distinct existing shops; every item of an
      existing shop lies in its shop's group; and when every shop exists the
      group totals add up to the cart's `get_total_price()`. */
  lemma CartViewPartition(c: Cart, shops: set<string>)
    ensures Distinct(ShopSlugs(c, shops))
    ensures forall i :: 0 <= i < |ShopSlugs(c, shops)| ==> ShopSlugs(c, shops)[i] in shops
    ensures forall i :: 0 <= i < |c| && ShopOf(c[i]) in shops ==>
      ShopOf(c[i]) in ShopSlugs(c, shops) && c[i] in GroupOf(c, ShopOf(c[i])).items
    ensures (forall i :: 0 <= i < |c| ==> ShopOf(c[i]) in shops) ==>
      SumGroups(ShopSlugs(c, shops), c, ShopOf, LineCost) == Total(c)
  {
    KeysDistinct(c, ShopOf);
    KeepDistinct(Keys(c, ShopOf), shops);
    KeysComplete(c, ShopOf);
    forall i | 0 <= i < |c| && ShopOf(c[i]) in shops
      ensures ShopOf(c[i]) in ShopSlugs(c, shops) && c[i] in GroupOf(c, ShopOf(c[i])).items
    {
      KeepSpec(Keys(c, ShopOf), shops, ShopOf(c[i]));
      MembersSpec(c, ShopOf, ShopOf(c[i]));
    }
    if forall i :: 0 <= i < |c| ==> ShopOf(c[i]) in shops {
      KeepAll(c, shops);
      Partition(c, ShopOf, LineCost);
      SumIsTotal(c);
    }
  }

  lemma {:induction false} KeepAll(c: Cart, shops: set<string>)
    requires forall i :: 0 <= i < |c| ==> ShopOf(c[i]) in shops
    ensures ShopSlugs(c, shops) == Keys(c, ShopOf)
  {
    if c != [] {
      var p := c[..|c| - 1];
      assert forall i :: 0 <= i < |p| ==> p[i] == c[i];
      KeepAll(p, shops);
      assert c == p + [c[|c| - 1]];
      KeepAllStep(p, c[|c| - 1], shops);
    }
  }

  lemma KeepAllStep(p: Cart, x: Entry, shops: set<string>)
    requires ShopOf(x) in shops && ShopSlugs(p, shops) == Keys(p, ShopOf)
    ensures ShopSlugs(p + [x], shops) == Keys(p + [x], ShopOf)
  {
    KeysAppend(p, x, ShopOf);
    var ks := Keys(p, ShopOf);
    if ShopOf(x) !in ks {
      KeepAppend(ks, ShopOf(x), shops);
    }
  }

  lemma {:induction false} SumIsTotal(c: Cart)
    ensures Sum(c, LineCost) == Total(c)
  {
    if c != [] {
      SumIsTotal(c[..|c| - 1]);
    }
  }

  // ---------------------------------------------------------------------
  // order_view

  /** What `order_view` shows before the shipping form: a redirect, the
      shop's lines, or the server error of `Product.objects.get` raising. */
  datatype OrderLines = Redirect | Lines(items: Cart, total: real) | ServerError

  /** Some entry of the shop names a product (by its `str(pk)` key) that no
      longer exists. */
  predicate Stale(c: Cart, slug: string, products: set<string>) {
    exists i :: 0 <= i < |c| && c[i].item.shopSlug == slug && c[i].key !in products
  }

  /** `order_view`: a redirect when the shop does not exist or the cart holds
      nothing of it; a server error when one of its entries names a deleted
      product (`Product.objects.get` raises `DoesNotExist`, which nothing
      catches); otherwise that shop's entries in cart order and their cost.
      `products` holds the keys of the products that exist. */
  method OrderView(c: Cart, slug: string, shops: set<string>, products: set<string>) returns (r: OrderLines)
    ensures r.ServerError? <==> slug in shops && Stale(c, slug, products)
    ensures r.Redirect? <==> slug !in shops || Members(c, ShopOf, slug) == []
    ensures r.Lines? ==> r.items == Members(c, ShopOf, slug) && r.total == Sum(r.items, LineCost)
    ensures r.Lines? ==> forall e :: e in r.items ==> e.key in products
  {
    if slug !in shops {
      return Redirect;
    }
    var stale := FindStale(c, slug, products);
    if stale {
      StaleListed(c, slug, products);
      return ServerError;
    }
    var items, total := ShopLines(c, slug);
    FreshListed(c, slug, products);
    if items == [] {
      return Redirect;
    }
    return Lines(items, total);
  }

  /** The loop's lookups: whether one of the shop's entries names a deleted
      product. */
  method FindStale(c: Cart, slug: string, products: set<string>) returns (stale: bool)
    ensures stale <==> Stale(c, slug, products)
  {
    var k := 0;
    while k < |c|
      invariant 0 <= k <= |c|
      invariant forall i :: 0 <= i < k && c[i].item.shopSlug == slug ==> c[i].key in products
    {
      if c[k].item.shopSlug == slug && c[k].key !in products {
        return true;
      }
      k := k + 1;
    }
    return false;
  }

  /** The loop's accumulation: the shop's entries in cart order and the sum
      of their line costs, started at 0.00. */
  method ShopLines(c: Cart, slug: string) returns (items: Cart, total: real)
    ensures items == Members(c, ShopOf, slug) && total == Sum(items, LineCost)
  {
    items := [];
    total := 0.0;
    var k := 0;
    while k < |c|
      invariant 0 <= k <= |c|
      invariant items == Members(c[..k], ShopOf, slug)
      invariant total == Sum(items, LineCost)
    {
      assert c[..k + 1] == c[..k] + [c[k]];
      MembersAppend(c[..k], c[k], ShopOf, slug);
      if c[k].item.shopSlug == slug {
        SumAppend(items, c[k], LineCost);
        total := total + LineCost(c[k]);
        items := items + [c[k]];
      }
      k := k + 1;
    }
    assert c[..|c|] == c;
  }

  /** A stale entry of the shop is one of its entries, so the shop has some. */
  lemma StaleListed(c: Cart, slug: string, products: set<string>)
    requires Stale(c, slug, products)
    ensures Members(c, ShopOf, slug) != []
  {
    var i :| 0 <= i < |c| && c[i].item.shopSlug == slug && c[i].key !in products;
    MembersSpec(c, ShopOf, slug);
    assert ShopOf(c[i]) == slug;
  }

  /** Without a stale entry every entry of the shop names an existing product. */
  lemma FreshListed(c: Cart, slug: string, products: set<string>)
    requires !Stale(c, slug, products)
    ensures forall e :: e in Members(c, ShopOf, slug) ==> e.key in products
  {
    MembersSpec(c, ShopOf, slug);
    var m := Members(c, ShopOf, slug);
    forall e | e in m
      ensures e.key in products
    {
      var j :| 0 <= j < |m| && m[j] == e;
      assert ShopOf(e) == slug;
      assert e in multiset(m);
      assert e in multiset(c);
      var i :| 0 <= i < |c| && c[i] == e;
    }
  }

  /** A shop's order page opens exactly for the shops the cart page lists,
      and shows the same items and total as that shop's group there. */
  lemma OrderMatchesCartView(c: Cart, slug: string, shops: set<string>)
    ensures slug in ShopSlugs(c, shops) <==> slug in shops && Members(c, ShopOf, slug) != []
    ensures GroupOf(c, slug).items == Members(c, ShopOf, slug)
    ensures GroupOf(c, slug).total == Sum(Members(c, ShopOf, slug), LineCost)
  {
    KeepSpec(Keys(c, ShopOf), shops, slug);
    KeysMembers(c, ShopOf, slug);
  }

  // ---------------------------------------------------------------------
  // The shipping quote of order_view

  datatype Response = BadRequest | Quote(shippingCost: string)

  /** `max(w * l * h / 5000, weight)`. */
  function Billable(d: Dims): (r: real)
    ensures r >= d.weight && r >= d.width * d.length * d.height / 5000.0
    ensures r == d.weight || r == d.width * d.length * d.height / 5000.0
  {
    var volumetric := d.width * d.length * d.height / 5000.0;
    if volumetric >= d.weight then volumetric else d.weight
  }

  /** A product's contribution to its parcel: nothing when its dimensions do
      not convert (the loop's `continue`), and its quantity never matters. */
  function ParcelWeight(p: Product): real {
    match p.dims
    case None => 0.0
    case Some(d) => Billable(d)
  }

  function WarehouseOf(p: Product): string {
    p.warehouseCity
  }

  /** The billable weight of the parcel leaving warehouse `w`. */
  function GroupWeight(ps: seq<Product>, w: string): real {
    Sum(Members(ps, WarehouseOf, w), ParcelWeight)
  }

  /** The resolver's quote for warehouse `w`'s parcel; the warehouse key is
      trimmed and lower-cased before the call. */
  function GroupQuote(t: Tables, ps: seq<Product>, w: string, city: string, how: string): Option<real> {
    Estimate(t, Normalize(w), city, GroupWeight(ps, w), how)
  }

  /** The quotes for the warehouses `ws`, in order. */
  function Quotes(t: Tables, ps: seq<Product>, ws: seq<string>, city: string, how: string): (qs: seq<Option<real>>)
    ensures |qs| == |ws|
    ensures forall i :: 0 <= i < |ws| ==> qs[i] == GroupQuote(t, ps, ws[i], city, how)
    ensures AllCents(qs)
  {
    seq(|ws|, i requires 0 <= i < |ws| => GroupQuote(t, ps, ws[i], city, how))
  }

  predicate AllCents(qs: seq<Option<real>>) {
    forall i :: 0 <= i < |qs| ==> qs[i].Some? ==> IsCents(qs[i].value)
  }

  /** `total_shipping += cost`: `None` once either side is missing. */
  function AddQuote(acc: Option<real>, cost: Option<real>): (r: Option<real>)
    requires acc.Some? ==> IsCents(acc.value)
    requires cost.Some? ==> IsCents(cost.value)
    ensures r.Some? <==> acc.Some? && cost.Some?
    ensures r.Some? ==> IsCents(r.value) && r.value == acc.value + cost.value
  {
    if acc.Some? && cost.Some? then CentsSum(acc.value, cost.value); Some(acc.value + cost.value) else None
  }

  lemma CentsZero()
    ensures IsCents(0.0)
  {
    assert (0.0 * 100.0).Floor == 0;
  }

  lemma AllCentsPrefix(qs: seq<Option<real>>)
    requires AllCents(qs) && qs != []
    ensures AllCents(qs[..|qs| - 1])
  {
    assert forall i :: 0 <= i < |qs| - 1 ==> qs[..|qs| - 1][i] == qs[i];
  }

  /** The running `total_shipping` over the quotes; `None` as soon as one is
      missing (adding `None` raises and the view answers 400). */
  function AddAll(qs: seq<Option<real>>): (r: Option<real>)
    requires AllCents(qs)
    ensures r.Some? ==> IsCents(r.value)
  {
    if qs == [] then CentsZero(); Some(0.0)
    else AllCentsPrefix(qs); AddQuote(AddAll(qs[..|qs| - 1]), qs[|qs| - 1])
  }

  /** The total for the warehouses `ws`. */
  function QuoteAll(t: Tables, ps: seq<Product>, ws: seq<string>, city: string, how: string): (r: Option<real>)
    ensures r.Some? ==> IsCents(r.value)
  {
    AddAll(Quotes(t, ps, ws, city, how))
  }

  /** The shipping branch of `order_view` for the products of one shop's
      cart lines, in cart order. */
  function ShippingQuote(t: Tables, ps: seq<Product>, cityField: string, how: string): (r: Response)
    ensures Normalize(cityField) == [] || how == [] ==> r == BadRequest
  {
    var city := Normalize(cityField);
    if city == [] || how == [] then BadRequest
    else
      match QuoteAll(t, ps, Keys(ps, WarehouseOf), city, how)
      case None => BadRequest
      case Some(total) => Quote(FormatSigned(total))
  }

  /** The sum of the quotes, read as zero where one is missing. */
  function SumValues(qs: seq<Option<real>>): real {
    if qs == [] then 0.0 else SumValues(qs[..|qs| - 1]) + qs[|qs| - 1].GetOr(0.0)
  }

  /** All or nothing: the running total exists exactly when every quote
      does, and it is then their sum. */
  lemma {:induction false} AddAllSpec(qs: seq<Option<real>>)
    requires AllCents(qs)
    ensures AddAll(qs).Some? <==> forall i :: 0 <= i < |qs| ==> qs[i].Some?
    ensures AddAll(qs).Some? ==> AddAll(qs).value == SumValues(qs)
  {
    if qs != [] {
      var p := qs[..|qs| - 1];
      AllCentsPrefix(qs);
      AddAllSpec(p);
      assert forall i :: 0 <= i < |p| ==> p[i] == qs[i];
    }
  }

  /** Every warehouse's parcel can be quoted. */
  predicate AllQuoted(t: Tables, ps: seq<Product>, ws: seq<string>, city: string, how: string) {
    forall i :: 0 <= i < |ws| ==> GroupQuote(t, ps, ws[i], city, how).Some?
  }

  /** The shipping answer is a quote exactly when the city and method are
      given and every warehouse's parcel can be quoted; the amount is then
      the sum of the parcel quotes. */
  lemma ShippingAllOrNothing(t: Tables, ps: seq<Product>, cityField: string, how: string)
    ensures var ws := Keys(ps, WarehouseOf); var city := Normalize(cityField);
      ShippingQuote(t, ps, cityField, how).Quote? <==>
        city != [] && how != [] && AllQuoted(t, ps, ws, city, how)
    ensures var ws := Keys(ps, WarehouseOf); var city := Normalize(cityField);
      ShippingQuote(t, ps, cityField, how).Quote? ==>
        QuoteAll(t, ps, ws, city, how) == Some(SumValues(Quotes(t, ps, ws, city, how)))
  {
    var ws := Keys(ps, WarehouseOf);
    var city := Normalize(cityField);
    var qs := Quotes(t, ps, ws, city, how);
    AddAllSpec(qs);
    assert AddAll(qs).Some? <==> AllQuoted(t, ps, ws, city, how);
    ShippingQuoteSome(t, ps, cityField, how);
  }

  /** The answer is a quote exactly when the city and method are given and
      the running total exists. */
  lemma ShippingQuoteSome(t: Tables, ps: seq<Product>, cityField: string, how: string)
    ensures ShippingQuote(t, ps, cityField, how).Quote? <==>
      Normalize(cityField) != [] && how != [] &&
      QuoteAll(t, ps, Keys(ps, WarehouseOf), Normalize(cityField), how).Some?
  {
  }

  /** The parcels together weigh what the products weigh: splitting by
      warehouse counts every product exactly once. */
  lemma ParcelsPartition(ps: seq<Product>)
    ensures SumGroups(Keys(ps, WarehouseOf), ps, WarehouseOf, ParcelWeight) == Sum(ps, ParcelWeight)
    ensures Distinct(Keys(ps, WarehouseOf))
  {
    Partition(ps, WarehouseOf, ParcelWeight);
    KeysDistinct(ps, WarehouseOf);
  }

  /** With well-formed tables a quote is non-negative, printed with exactly
      two decimals, and reads back as the summed amount. */
  lemma ShippingQuoteRoundTrip(t: Tables, ps: seq<Product>, cityField: string, how: string)
    requires WellFormed(t)
    requires ShippingQuote(t, ps, cityField, how).Quote?
    ensures var total := QuoteAll(t, ps, Keys(ps, WarehouseOf), Normalize(cityField), how);
      total.Some? && total.value >= 0.0
      && ParseAmount(ShippingQuote(t, ps, cityField, how).shippingCost) == Some(total.value)
      && |SplitOn('.', ShippingQuote(t, ps, cityField, how).shippingCost)[1]| == 2
  {
    var ws := Keys(ps, WarehouseOf);
    var city := Normalize(cityField);
    QuoteAllNonNegative(t, ps, ws, city, how);
    var total := QuoteAll(t, ps, ws, city, how).value;
    FormatParse(total);
  }

  lemma {:induction false} AddAllNonNegative(qs: seq<Option<real>>)
    requires AllCents(qs)
    requires forall i :: 0 <= i < |qs| ==> qs[i].Some? ==> qs[i].value >= 0.0
    requires AddAll(qs).Some?
    ensures AddAll(qs).value >= 0.0
  {
    if qs != [] {
      var p := qs[..|qs| - 1];
      AllCentsPrefix(qs);
      assert forall i :: 0 <= i < |p| ==> p[i] == qs[i];
      AddAllNonNegative(p);
    }
  }

  lemma QuoteAllNonNegative(t: Tables, ps: seq<Product>, ws: seq<string>, city: string, how: string)
    requires WellFormed(t)
    requires QuoteAll(t, ps, ws, city, how).Some?
    ensures QuoteAll(t, ps, ws, city, how).value >= 0.0
  {
    var qs := Quotes(t, ps, ws, city, how);
    forall i | 0 <= i < |qs| && qs[i].Some? ensures qs[i].value >= 0.0 {
      EstimateNonNegative(t, Normalize(ws[i]), city, GroupWeight(ps, ws[i]), how);
    }
    AddAllNonNegative(qs);
  }

  /** Whitespace around the typed city never changes the answer. */
  lemma ShippingCityPadded(t: Tables, ps: seq<Product>, cityField: string, pre: string, post: string, how: string)
    requires AllSpace(pre) && AllSpace(post)
    ensures ShippingQuote(t, ps, pre + cityField + post, how) == ShippingQuote(t, ps, cityField, how)
  {
    NormalizePadded(cityField, pre, post);
  }

  /** A shop shipping everything from one warehouse gets that single parcel's
      quote, for the weight of all its products. */
  lemma SingleWarehouse(t: Tables, ps: seq<Product>, w: string, city: string, how: string)
    requires ps != [] && forall i :: 0 <= i < |ps| ==> ps[i].warehouseCity == w
    ensures Keys(ps, WarehouseOf) == [w]
    ensures QuoteAll(t, ps, [w], city, how) == Estimate(t, Normalize(w), city, Sum(ps, ParcelWeight), how)
  {
    SingleKey(ps, w);
    QuoteAllSingle(t, ps, w, city, how);
    assert GroupWeight(ps, w) == Sum(ps, ParcelWeight);
  }

  lemma QuoteAllSingle(t: Tables, ps: seq<Product>, w: string, city: string, how: string)
    ensures QuoteAll(t, ps, [w], city, how) == GroupQuote(t, ps, w, city, how)
  {
    AddAllSingle(Quotes(t, ps, [w], city, how));
  }

  lemma AddAllSingle(qs: seq<Option<real>>)
    requires |qs| == 1 && AllCents(qs)
    ensures AddAll(qs) == qs[0]
  {
    assert qs[..0] == [];
    assert AddAll(qs[..0]) == Some(0.0);
  }

  lemma {:induction false} SingleKey(ps: seq<Product>, w: string)
    requires ps != [] && forall i :: 0 <= i < |ps| ==> ps[i].warehouseCity == w
    ensures Keys(ps, WarehouseOf) == [w]
    ensures Members(ps, WarehouseOf, w) == ps
  {
    var p := ps[..|ps| - 1];
    assert ps == p + [ps[|ps| - 1]];
    if p != [] {
      assert forall i :: 0 <= i < |p| ==> p[i] == ps[i];
      SingleKey(p, w);
    }
  }
}
