/** The `recommendations_data` context processor of
    `core/context_processors/recommendations_data.py`: whether a page shows
    the user's own cached recommendations or the shared list of popular
    products, and when it queues the recommender task. Tasks are recorded,
    not run. */
module RecommendationsData {
  import opened Wrappers
  import opened Text
  import opened Catalog
  import opened Ranking
  import Cache
  import ProductText
  import Recommend

  /** The local `get_product_text`: the name, the category titles and the
      description, one space between each. The module defines it but never
      calls it; the recommender builds its texts with the one in
      `products/utils.py` (`ProductText.ProductText`). */
  function LocalText(p: Product): (r: string)
    ensures IsPrefix(p.name + " ", r)
  {
    var cats := JoinWith(" ", Titles(p.categories));
    var desc := ProductText.OrEmpty(p.description);
    assert [p.name, cats, desc][1..] == [cats, desc] && [cats, desc][1..] == [desc];
    assert (p.name + " " + JoinWith(" ", [cats, desc]))[..|p.name + " "|] == p.name + " ";
    JoinWith(" ", [p.name, cats, desc])
  }

  /** With space-free name, titles and description the text splits back into
      them, a missing description and an empty category list each leaving
      one empty field. */
  lemma LocalTextSplits(p: Product)
    requires ProductText.NoSpace(p.name)
    requires forall i :: 0 <= i < |p.categories| ==> ProductText.NoSpace(p.categories[i].title)
    requires ProductText.NoSpace(ProductText.OrEmpty(p.description))
    ensures SplitOn(' ', LocalText(p)) ==
      [p.name] + (if p.categories == [] then [""] else Titles(p.categories)) + [ProductText.OrEmpty(p.description)]
  {
    var cats := JoinWith(" ", Titles(p.categories));
    var desc := ProductText.OrEmpty(p.description);
    assert " " == [' '];
    SplitJoinAll(' ', [p.name, cats, desc]);
    assert [p.name, cats, desc] == [p.name, cats] + [desc];
    SplitAllAppend(' ', [p.name, cats], [desc]);
    SplitAllPair(' ', p.name, cats);
    SplitAllWithout(' ', [desc]);
    SplitWithout(' ', p.name);
    ProductText.CategoriesSplit(p.categories);
  }

  // ---------------------------------------------------------------------
  // The popular list

  /** A product with its review average (`None` without reviews) and the
      number of order lines naming it. */
  datatype Stats = Stats(product: Product, avgRating: Option<real>, orderCount: nat)

  /** Verified, shown, and rated 4 or more on average; an unrated product
      fails the rating filter. */
  predicate Popular(s: Stats) {
    s.product.verified && s.product.show && s.avgRating.Some? && s.avgRating.value >= 4.0
  }

  function PopularOf(stats: seq<Stats>): (r: seq<Stats>)
    ensures forall s :: s in r <==> s in stats && Popular(s)
  {
    if stats == [] then []
    else (if Popular(stats[0]) then [stats[0]] else []) + PopularOf(stats[1..])
  }

  function OrderCount(s: Stats): real {
    s.orderCount as real
  }

  const FallbackCount: nat := 10

  /** The popular products, most ordered first, at most ten. */
  function Fallback(stats: seq<Stats>): (r: seq<Stats>)
    ensures |r| <= FallbackCount
  {
    Top(SortDesc(PopularOf(stats), OrderCount), FallbackCount)
  }

  /** The fallback holds only popular products, most ordered first, and no
      popular product left out was ordered more often than one kept. */
  lemma FallbackSpec(stats: seq<Stats>)
    ensures var r := Fallback(stats);
      (forall s :: s in r ==> s in stats && Popular(s)) &&
      (forall i, j :: 0 <= i < j < |r| ==> r[i].orderCount >= r[j].orderCount) &&
      (forall s, t :: s in r && t in stats && Popular(t) && t !in r ==> s.orderCount >= t.orderCount)
  {
    var pop := PopularOf(stats);
    var r := Fallback(stats);
    TopSortedSpec(pop, OrderCount, FallbackCount);
    forall i, j | 0 <= i < j < |r| ensures r[i].orderCount >= r[j].orderCount {
      assert OrderCount(r[i]) >= OrderCount(r[j]);
    }
    forall s, t | s in r && t in stats && Popular(t) && t !in r ensures s.orderCount >= t.orderCount {
      assert t in pop;
      assert OrderCount(s) >= OrderCount(t);
    }
  }

  function StatIds(ss: seq<Stats>): (r: seq<nat>)
    ensures |r| == |ss| && forall i :: 0 <= i < |ss| ==> r[i] == ss[i].product.id
  {
    if ss == [] then [] else [ss[0].product.id] + StatIds(ss[1..])
  }

  const FallbackKey: string := "recommended_products_cache"

  /** Ten minutes, in seconds. */
  const FallbackTtl: nat := 10 * 60

  /** The shared entry never collides with a user's own. */
  lemma FallbackKeyDistinct(user: nat)
    ensures Recommend.CacheKey(user) != FallbackKey
  {
    assert |Recommend.CacheKey(user)| > |FallbackKey|;
  }

  // ---------------------------------------------------------------------
  // The processor

  /** `find_recommended_products_for_user.delay(pk, viewed_ids)`. */
  datatype Dispatch = Dispatch(user: nat, viewed: seq<int>)

  /** What the processor hands the template, the tasks it queued and the
      cache it leaves. */
  datatype Context = Context(recommended: seq<nat>, tasks: seq<Dispatch>, store: Cache.Store<seq<nat>>)

  /** Whether the user's own entry is there and non-empty (the truth test
      on `cache.get`). */
  predicate Hit(c: Cache.Store<seq<nat>>, user: nat) {
    Recommend.CacheKey(user) in c && c[Recommend.CacheKey(user)].value != []
  }

  /** `recommendations_data`: `user` is the signed-in user's key, `None` for
      an anonymous visitor; `session` is the session's recently viewed list. */
  function Data(user: Option<nat>, session: Option<seq<int>>, c: Cache.Store<seq<nat>>, stats: seq<Stats>): (r: Context)
    ensures |r.tasks| <= 1
  {
    if user.Some? && Hit(c, user.value) then
      Context(c[Recommend.CacheKey(user.value)].value, [], c)
    else
      var tasks := if user.Some? then [Dispatch(user.value, session.GetOr([]))] else [];
      var got := Cache.GetOrSet(c, FallbackKey, StatIds(Fallback(stats)), FallbackTtl);
      Context(got.value, tasks, got.store)
  }

  /** A signed-in user with recommendations waiting gets them, queues nothing
      and leaves the cache as it was. */
  lemma HitServed(user: nat, session: Option<seq<int>>, c: Cache.Store<seq<nat>>, stats: seq<Stats>)
    requires Hit(c, user)
    ensures var r := Data(Some(user), session, c, stats);
      r.recommended == c[Recommend.CacheKey(user)].value && r.recommended != [] &&
      r.tasks == [] && r.store == c
  {
  }

  /** A signed-in user without recommendations queues exactly one task, for
      that user and the session's list (empty when there is none), and is
      shown the shared list: the cached one, or the popular products, which
      are then cached for ten minutes. */
  lemma MissDispatches(user: nat, session: Option<seq<int>>, c: Cache.Store<seq<nat>>, stats: seq<Stats>)
    requires !Hit(c, user)
    ensures var r := Data(Some(user), session, c, stats);
      r.tasks == [Dispatch(user, if session.Some? then session.value else [])] &&
      (FallbackKey in c ==> r.recommended == c[FallbackKey].value && r.store == c) &&
      (FallbackKey !in c ==>
        r.recommended == StatIds(Fallback(stats)) &&
        r.store == c[FallbackKey := Cache.Entry(StatIds(Fallback(stats)), 600)])
  {
  }

  /** An anonymous visitor queues nothing and sees the shared list. */
  lemma AnonymousFallback(session: Option<seq<int>>, c: Cache.Store<seq<nat>>, stats: seq<Stats>)
    ensures var r := Data(None, session, c, stats);
      r.tasks == [] &&
      r.recommended == (if FallbackKey in c then c[FallbackKey].value else StatIds(Fallback(stats)))
  {
  }

  /** A task is queued exactly for a signed-in user whose own entry is
      missing or empty; the user's own entry is never written here. */
  lemma DispatchIff(user: Option<nat>, session: Option<seq<int>>, c: Cache.Store<seq<nat>>, stats: seq<Stats>)
    ensures var r := Data(user, session, c, stats);
      (r.tasks != [] <==> user.Some? && !Hit(c, user.value)) &&
      (user.Some? ==> (Recommend.CacheKey(user.value) in r.store <==> Recommend.CacheKey(user.value) in c))
  {
    if user.Some? {
      FallbackKeyDistinct(user.value);
    }
  }

  /** The session list of the test, [1, 2, 3], is passed on unchanged. */
  lemma DispatchExample(c: Cache.Store<seq<nat>>, stats: seq<Stats>)
    requires Recommend.CacheKey(5) !in c
    ensures Data(Some(5), Some([1, 2, 3]), c, stats).tasks == [Dispatch(5, [1, 2, 3])]
  {
  }
}
