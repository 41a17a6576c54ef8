/** The set logic of `find_recommended_products_for_user` in
    `products/tasks.py`: which products the user has touched, which products
    may be offered, and the top of their ranking written to the per-user
    cache entry. The similarity score is an arbitrary function of the
    product. */
module Recommend {
  import opened Wrappers
  import opened Text
  import opened Catalog
  import opened Ranking
  import Cache

  /** An order as the purchase query sees it: its buyer, its creation time in
      seconds, and the product of each of its lines (`None` for a line
      without one). */
  datatype Purchase = Purchase(user: Option<nat>, created: int, products: seq<Option<nat>>)

  /** Ninety days, in seconds. */
  const Window: int := 90 * 24 * 60 * 60

  /** The `items__product` values one order contributes: an order without
      lines still yields one row, holding `None`. */
  function Rows(o: Purchase): (r: set<Option<int>>)
    ensures o.products == [] ==> r == {None}
    ensures o.products != [] ==> forall x :: x in r <==> exists i :: 0 <= i < |o.products| && x == Lift(o.products[i])
  {
    if o.products == [] then {None}
    else set i | 0 <= i < |o.products| :: Lift(o.products[i])
  }

  function Lift(x: Option<nat>): Option<int> {
    match x
    case None => None
    case Some(v) => Some(v as int)
  }

  /** Whether the order is the user's and recent enough to count. */
  predicate Recent(o: Purchase, user: nat, now: int) {
    o.user == Some(user) && o.created >= now - Window
  }

  /** `purchased_ids`: the distinct products of the user's orders of the last
      ninety days. */
  function Purchased(orders: seq<Purchase>, user: nat, now: int): (r: set<Option<int>>)
    ensures forall x :: x in r <==> exists k :: 0 <= k < |orders| && Recent(orders[k], user, now) && x in Rows(orders[k])
  {
    if orders == [] then {}
    else
      var rest := Purchased(orders[1..], user, now);
      assert forall k :: 0 < k < |orders| ==> orders[k] == orders[1..][k - 1];
      (if Recent(orders[0], user, now) then Rows(orders[0]) else {}) + rest
  }

  /** The session's viewed ids as a set; a missing list is empty. */
  function Viewed(viewed: Option<seq<int>>): (r: set<int>)
    ensures viewed.None? ==> r == {}
    ensures viewed.Some? ==> forall x :: x in r <==> x in viewed.value
  {
    match viewed
    case None => {}
    case Some(ids) => set x | x in ids
  }

  /** `interacted_ids`: purchases and views together. */
  function Interacted(orders: seq<Purchase>, user: nat, now: int, viewed: Option<seq<int>>): (r: set<Option<int>>)
    ensures forall x :: Some(x) in r <==> Some(x) in Purchased(orders, user, now) || x in Viewed(viewed)
  {
    Purchased(orders, user, now) + set x | x in Viewed(viewed) :: Some(x)
  }

  /** The ids an `id__in` lookup sees: `None` is dropped from the list. */
  function Known(ids: set<Option<int>>): (r: set<int>)
    ensures forall x :: x in r <==> Some(x) in ids
  {
    set o | o in ids && o.Some? :: o.value
  }

  /** `verified=True, show=True, items_left__gt=0`. */
  predicate Eligible(p: Product) {
    p.verified && p.show && p.itemsLeft.Some? && p.itemsLeft.value > 0
  }

  /** The eligible products whose id is not in `excluded`, in catalogue order. */
  function Offerable(products: seq<Product>, excluded: set<int>): (r: seq<Product>)
    ensures forall p :: p in r <==> p in products && Eligible(p) && p.id !in excluded
    ensures |r| <= |products|
  {
    if products == [] then []
    else
      var p := products[0];
      (if Eligible(p) && p.id !in excluded then [p] else []) + Offerable(products[1..], excluded)
  }

  /** The candidate pool: the eligible products the user has not touched,
      or every eligible product when that leaves none. */
  function Candidates(products: seq<Product>, interacted: set<Option<int>>): (r: seq<Product>)
    ensures forall p :: p in r ==> p in products && Eligible(p)
    ensures (exists p :: p in products && Eligible(p) && p.id !in Known(interacted)) ==>
      forall p :: p in r <==> p in products && Eligible(p) && p.id !in Known(interacted)
    ensures (forall p :: p in products && Eligible(p) ==> p.id in Known(interacted)) ==>
      (forall p :: p in r <==> p in products && Eligible(p))
  {
    var untouched := Offerable(products, Known(interacted));
    if untouched != [] then (assert untouched[0] in untouched; untouched) else Offerable(products, {})
  }

  /** How many recommendations are kept. */
  const TopCount: nat := 10

  /** An hour, in seconds. */
  const RecommendTtl: nat := 60 * 60

  function CacheKey(user: nat): (k: string)
    ensures IsPrefix("recommended_products_cache_user_", k)
  {
    "recommended_products_cache_user_" + NatToString(user)
  }

  /** Different users get different cache entries. */
  lemma CacheKeyInjective(a: nat, b: nat)
    requires CacheKey(a) == CacheKey(b)
    ensures a == b
  {
    var prefix := "recommended_products_cache_user_";
    assert CacheKey(a)[|prefix|..] == NatToString(a);
    assert CacheKey(b)[|prefix|..] == NatToString(b);
    NatToStringInjective(a, b);
  }

  function Ids(ps: seq<Product>): (r: seq<nat>)
    ensures |r| == |ps| && forall i :: 0 <= i < |ps| ==> r[i] == ps[i].id
  {
    if ps == [] then [] else [ps[0].id] + Ids(ps[1..])
  }

  /** The products kept: the first ten of the candidates ranked by score,
      ties in catalogue order. */
  function Best(cands: seq<Product>, score: Product -> real): (r: seq<Product>)
    ensures |r| == if |cands| < TopCount then |cands| else TopCount
  {
    Top(SortDesc(cands, score), TopCount)
  }

  /** The list the Celery task caches, or `None` when it writes nothing: there is
      nothing to go on, or no product to offer (the vectoriser then has no
      text and raises). */
  function Recommended(orders: seq<Purchase>, user: nat, now: int, viewed: Option<seq<int>>,
                       products: seq<Product>, score: Product -> real): (r: Option<seq<nat>>)
    ensures r.Some? ==> Interacted(orders, user, now, viewed) != {}
    ensures r.Some? ==> 1 <= |r.value| <= TopCount
  {
    var interacted := Interacted(orders, user, now, viewed);
    if interacted == {} then None
    else
      var cands := Candidates(products, interacted);
      if cands == [] then None else Some(Ids(Best(cands, score)))
  }

  /** `find_recommended_products_for_user`: the cache after the Celery task. */
  function FindRecommended(c: Cache.Store<seq<nat>>, orders: seq<Purchase>, user: nat, now: int,
                           viewed: Option<seq<int>>, products: seq<Product>, score: Product -> real)
    : (r: Cache.Store<seq<nat>>)
    ensures forall k :: k != CacheKey(user) ==> (k in r <==> k in c) && (k in c ==> r[k] == c[k])
  {
    match Recommended(orders, user, now, viewed, products, score)
    case None => c
    case Some(ids) => Cache.Set(c, CacheKey(user), ids, RecommendTtl)
  }

  // ---------------------------------------------------------------------
  // What the Celery task promises

  /** A user with no recent purchase and no view leaves the cache untouched;
      one with either gets an hour-long entry under their key as soon as
      some eligible product exists. */
  lemma WritesIff(c: Cache.Store<seq<nat>>, orders: seq<Purchase>, user: nat, now: int,
                  viewed: Option<seq<int>>, products: seq<Product>, score: Product -> real)
    ensures Interacted(orders, user, now, viewed) == {} ==>
      FindRecommended(c, orders, user, now, viewed, products, score) == c
    ensures Interacted(orders, user, now, viewed) != {} && (exists p :: p in products && Eligible(p)) ==>
      var r := FindRecommended(c, orders, user, now, viewed, products, score);
      CacheKey(user) in r && r[CacheKey(user)].ttl == 3600
  {
    var interacted := Interacted(orders, user, now, viewed);
    if interacted != {} && (exists p :: p in products && Eligible(p)) {
      CandidatesNonEmpty(products, interacted);
    }
  }

  /** Some eligible product always leaves the pool non-empty. */
  lemma CandidatesNonEmpty(products: seq<Product>, interacted: set<Option<int>>)
    requires exists p :: p in products && Eligible(p)
    ensures Candidates(products, interacted) != []
  {
    var cands := Candidates(products, interacted);
    if exists p :: p in products && Eligible(p) && p.id !in Known(interacted) {
      var p :| p in products && Eligible(p) && p.id !in Known(interacted);
      assert p in cands;
    } else {
      var p :| p in products && Eligible(p);
      assert p in cands;
    }
  }

  /** The kept products are candidates, in descending score order, and no
      candidate left out scores above one kept. */
  lemma BestSpec(cands: seq<Product>, score: Product -> real)
    ensures var best := Best(cands, score);
      (forall p :: p in best ==> p in cands) &&
      SortedDesc(best, score) &&
      (forall p, q :: p in best && q in cands && q !in best ==> score(p) >= score(q))
  {
    TopSortedSpec(cands, score, TopCount);
  }

  /** Every recommended product is eligible and, unless the user has touched
      every eligible product, untouched; the list is in descending score
      order; and no candidate left out scores above one kept. */
  lemma RecommendedSpec(orders: seq<Purchase>, user: nat, now: int, viewed: Option<seq<int>>,
                        products: seq<Product>, score: Product -> real)
    requires Recommended(orders, user, now, viewed, products, score).Some?
    ensures var interacted := Interacted(orders, user, now, viewed);
      var cands := Candidates(products, interacted);
      var best := Best(cands, score);
      Recommended(orders, user, now, viewed, products, score) == Some(Ids(best)) &&
      (forall p :: p in best ==> p in products && Eligible(p)) &&
      ((exists q :: q in products && Eligible(q) && q.id !in Known(interacted)) ==>
        forall p :: p in best ==> p.id !in Known(interacted)) &&
      SortedDesc(best, score) &&
      (forall p, q :: p in best && q in cands && q !in best ==> score(p) >= score(q))
  {
    var interacted := Interacted(orders, user, now, viewed);
    BestSpec(Candidates(products, interacted), score);
  }

  /** Candidates of equal score keep their catalogue order. */
  lemma TiesKeepOrder(cands: seq<Product>, score: Product -> real, v: real)
    ensures WithScore(SortDesc(cands, score), score, v) == WithScore(cands, score, v)
    ensures Best(cands, score) == SortDesc(cands, score)[..|Best(cands, score)|]
  {
    SortDescSpec(cands, score, v);
  }

  /** The viewed ids count once each whatever their repetitions, and a missing
      list counts as none. */
  lemma ViewedAsSet(ids: seq<int>)
    ensures Viewed(Some(ids + ids)) == Viewed(Some(ids))
    ensures Viewed(None) == Viewed(Some([]))
  {
  }

  /** Three eligible products; the user bought the first within the window
      and viewed the second: only the third is recommended. */
  lemma BoughtAndViewedExample(score: Product -> real)
    ensures var p1 := Product(1, "P1", [], "s", None, 1.0, Some(1), None, None, None, None, None, None, true, true, "", None);
      var p2 := p1.(id := 2, name := "P2", price := 2.0);
      var p3 := p1.(id := 3, name := "P3", price := 3.0);
      Recommended([Purchase(Some(7), 100, [Some(1)])], 7, 100, Some([2]), [p1, p2, p3], score) == Some([3])
  {
    var p1 := Product(1, "P1", [], "s", None, 1.0, Some(1), None, None, None, None, None, None, true, true, "", None);
    var p2 := p1.(id := 2, name := "P2", price := 2.0);
    var p3 := p1.(id := 3, name := "P3", price := 3.0);
    var orders := [Purchase(Some(7), 100, [Some(1)])];
    var interacted := Interacted(orders, 7, 100, Some([2]));
    ExampleInteracted();
    var ps := [p1, p2, p3];
    ExampleOfferable(ps);
    var cands := Candidates(ps, interacted);
    assert cands == [p3];
    SingleBest(p3, score);
  }

  /** The purchase counts, being recent and the user's, and so does the view. */
  lemma ExampleInteracted()
    ensures Interacted([Purchase(Some(7), 100, [Some(1)])], 7, 100, Some([2])) == {Some(1), Some(2)}
  {
    var orders := [Purchase(Some(7), 100, [Some(1)])];
    assert Rows(orders[0]) == {Some(1)} by {
      assert orders[0].products[0] == Some(1) && Lift(Some(1)) == Some(1);
    }
    assert Recent(orders[0], 7, 100);
    assert Purchased(orders, 7, 100) == {Some(1)} by {
      assert orders[1..] == [];
    }
  }

  /** Of three eligible products with ids 1, 2 and 3, excluding 1 and 2
      leaves the third. */
  lemma ExampleOfferable(ps: seq<Product>)
    requires |ps| == 3 && ps[0].id == 1 && ps[1].id == 2 && ps[2].id == 3
    requires Eligible(ps[2])
    ensures Offerable(ps, Known({Some(1), Some(2)})) == [ps[2]]
  {
    var known := Known({Some(1), Some(2)});
    assert known == {1, 2};
    assert ps[1..][1..][1..] == [];
    assert Offerable(ps[1..][1..], known) == [ps[2]];
  }

  /** A single candidate is the whole list. */
  lemma SingleBest(p: Product, score: Product -> real)
    ensures Ids(Best([p], score)) == [p.id]
  {
    assert SortDesc([p], score) == [p] by {
      assert [p][..0] == [];
    }
  }
}
