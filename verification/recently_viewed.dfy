/** The `recently_viewed` context processor of
    `core/context_processors/recently_viewed.py`: the products of the
    session's list, sorted by where their id stands in it. Products are
    represented by their ids. */
module RecentlyViewed {
  import opened Wrappers
  import opened Seqs
  import opened Ranking

  /** The sort key `product_ids.index(prod.id)`, negated so that the stable
      descending sort puts the earliest position first. */
  function Rank(ids: seq<nat>): nat -> real {
    x => -(Position(ids, x) as real)
  }

  /** The elements of `a` that occur in `b`, in the order of `a`. */
  function Listed(a: seq<nat>, b: seq<nat>): (r: seq<nat>)
    ensures |r| <= |a|
  {
    if a == [] then []
    else (if a[0] in b then [a[0]] else []) + Listed(a[1..], b)
  }

  /** `Listed` keeps exactly the elements of `a` that occur in `b`. */
  lemma {:induction false} ListedMembers(a: seq<nat>, b: seq<nat>)
    ensures forall x :: x in Listed(a, b) <==> x in a && x in b
  {
    if a != [] {
      ListedMembers(a[1..], b);
      assert a == [a[0]] + a[1..];
    }
  }

  /** `recently_viewed`: `None` is the empty context `{}` returned for a
      missing or empty list; otherwise the listed products, in the order of
      the list. */
  function RecentlyViewedProducts(session: Option<seq<nat>>, products: seq<nat>): (r: Option<seq<nat>>)
    ensures r.None? <==> session.None? || session.value == []
    ensures r.Some? ==> forall x :: x in r.value <==> x in products && x in session.value
  {
    var ids := session.GetOr([]);
    if ids == [] then None
    else
      ListedMembers(products, ids);
      var r := SortDesc(Listed(products, ids), Rank(ids));
      assert forall x :: x in r <==> x in multiset(r);
      Some(r)
  }

  /** The products come out in the order their ids take in the list. */
  lemma OrderedByList(session: Option<seq<nat>>, products: seq<nat>, i: nat, j: nat)
    requires RecentlyViewedProducts(session, products).Some?
    requires i < j < |RecentlyViewedProducts(session, products).value|
    ensures var r := RecentlyViewedProducts(session, products).value;
      Position(session.value, r[i]) <= Position(session.value, r[j])
  {
    var ids := session.value;
    SortDescSpec(Listed(products, ids), Rank(ids), 0.0);
  }

  lemma {:induction false} ListedNoDup(a: seq<nat>, b: seq<nat>)
    requires NoDup(a)
    ensures NoDup(Listed(a, b))
  {
    if a != [] {
      var t := a[1..];
      NoDupTail(a);
      ListedNoDup(t, b);
      ListedMembers(t, b);
      var lt := Listed(t, b);
      if a[0] in b {
        var full := [a[0]] + lt;
        forall i, j | 0 <= i < j < |full| ensures full[i] != full[j] {
          assert full[j] == lt[j - 1] && lt[j - 1] in lt;
          if i > 0 {
            assert full[i] == lt[i - 1];
          }
        }
      } else {
        assert Listed(a, b) == lt;
      }
    }
  }

  /** What `Listed` keeps stays in the order of `a`. */
  lemma {:induction false} ListedInOrder(a: seq<nat>, b: seq<nat>, i: nat, j: nat)
    requires NoDup(a) && i < j < |Listed(a, b)|
    ensures Position(a, Listed(a, b)[i]) < Position(a, Listed(a, b)[j])
  {
    var t := a[1..];
    NoDupTail(a);
    ListedCons(a, b);
    if a[0] in b {
      if i == 0 {
        ListedKeptFirst(a, b, j);
      } else {
        ListedInOrder(t, b, i - 1, j - 1);
        ListedKeptLater(a, b, i, j);
      }
    } else {
      ListedInOrder(t, b, i, j);
      ListedSkippedHead(a, b, i, j);
    }
  }

  lemma ListedCons(a: seq<nat>, b: seq<nat>)
    requires a != []
    ensures |Listed(a, b)| == (if a[0] in b then 1 else 0) + |Listed(a[1..], b)|
  {
  }

  /** The `i`-th and `j`-th listed products keep their order in `a`. */
  predicate InOrder(a: seq<nat>, b: seq<nat>, i: nat, j: nat) {
    i < j < |Listed(a, b)| && Position(a, Listed(a, b)[i]) < Position(a, Listed(a, b)[j])
  }

  /** A listed head of `a` comes first. */
  lemma ListedKeptFirst(a: seq<nat>, b: seq<nat>, j: nat)
    requires a != [] && a[0] in b && a[0] !in a[1..]
    requires 0 < j < |Listed(a, b)|
    ensures Position(a, Listed(a, b)[0]) < Position(a, Listed(a, b)[j])
  {
    var lt := Listed(a[1..], b);
    ListedMembers(a[1..], b);
    assert Listed(a, b) == [a[0]] + lt;
    var y := lt[j - 1];
    assert Listed(a, b)[j] == y && y in a[1..];
    PositionTail(a, y);
  }

  /** Behind a listed head, an entry is the tail's entry one place earlier,
      one place further down `a`. */
  lemma ListedBehindHead(a: seq<nat>, b: seq<nat>, k: nat)
    requires a != [] && a[0] in b && a[0] !in a[1..]
    requires 0 < k < |Listed(a, b)|
    ensures Listed(a, b)[k] == Listed(a[1..], b)[k - 1]
    ensures Position(a, Listed(a, b)[k]) == 1 + Position(a[1..], Listed(a[1..], b)[k - 1])
  {
    var lt := Listed(a[1..], b);
    ListedMembers(a[1..], b);
    assert Listed(a, b) == [a[0]] + lt;
    assert lt[k - 1] in a[1..];
    PositionTail(a, lt[k - 1]);
  }

  /** Behind a listed head, the order is the tail's. */
  lemma ListedKeptLater(a: seq<nat>, b: seq<nat>, i: nat, j: nat)
    requires a != [] && a[0] in b && a[0] !in a[1..]
    requires 0 < i < j < |Listed(a, b)|
    requires InOrder(a[1..], b, i - 1, j - 1)
    ensures Position(a, Listed(a, b)[i]) < Position(a, Listed(a, b)[j])
  {
    ListedBehindHead(a, b, i);
    ListedBehindHead(a, b, j);
  }

  /** The step of `ListedInOrder` when the head of `a` is not listed. */
  lemma ListedSkippedHead(a: seq<nat>, b: seq<nat>, i: nat, j: nat)
    requires a != [] && a[0] !in b
    requires i < j < |Listed(a, b)|
    requires InOrder(a[1..], b, i, j)
    ensures Position(a, Listed(a, b)[i]) < Position(a, Listed(a, b)[j])
  {
    var lt := Listed(a[1..], b);
    ListedMembers(a[1..], b);
    assert Listed(a, b) == lt;
    assert lt[i] in a[1..] && lt[j] in a[1..];
    PositionTail(a, lt[i]);
    PositionTail(a, lt[j]);
  }

  lemma RankOf(ids: seq<nat>, x: nat)
    ensures Rank(ids)(x) == -(Position(ids, x) as real)
  {
  }

  /** The sorted products never tie: distinct products stand at distinct
      positions of the list. */
  lemma SortedStrict(ids: seq<nat>, products: seq<nat>)
    requires NoDup(products)
    ensures StrictDesc(SortDesc(Listed(products, ids), Rank(ids)), Rank(ids))
  {
    var listed := Listed(products, ids);
    var out := SortDesc(listed, Rank(ids));
    SortDescSpec(listed, Rank(ids), 0.0);
    ListedNoDup(products, ids);
    ListedMembers(products, ids);
    NoDupPermutation(listed, out);
    forall i, j | 0 <= i < j < |out| ensures Rank(ids)(out[i]) > Rank(ids)(out[j]) {
      assert out[i] in multiset(out) && out[j] in multiset(out);
      assert out[i] in ids && out[j] in ids;
      RankOf(ids, out[i]);
      RankOf(ids, out[j]);
      PositionInjective(ids, out[i], out[j]);
    }
  }

  lemma ListStrict(ids: seq<nat>, products: seq<nat>)
    requires NoDup(ids)
    ensures StrictDesc(Listed(ids, products), Rank(ids))
  {
    var ref := Listed(ids, products);
    forall i, j | 0 <= i < j < |ref| ensures Rank(ids)(ref[i]) > Rank(ids)(ref[j]) {
      RankOf(ids, ref[i]);
      RankOf(ids, ref[j]);
      ListedInOrder(ids, products, i, j);
    }
  }

  /** For a duplicate-free list and distinct products the result is simply
      the list with the ids of missing products dropped. */
  lemma MatchesList(session: Option<seq<nat>>, products: seq<nat>)
    requires session.Some? && session.value != []
    requires NoDup(session.value) && NoDup(products)
    ensures RecentlyViewedProducts(session, products) == Some(Listed(session.value, products))
  {
    SortedIsList(session.value, products);
  }

  lemma SortedIsList(ids: seq<nat>, products: seq<nat>)
    requires NoDup(ids) && NoDup(products)
    ensures SortDesc(Listed(products, ids), Rank(ids)) == Listed(ids, products)
  {
    var listed := Listed(products, ids);
    var out := SortDesc(listed, Rank(ids));
    var ref := Listed(ids, products);
    ListedMembers(products, ids);
    ListedMembers(ids, products);
    assert forall x :: x in out <==> x in ref by {
      forall x ensures x in out <==> x in ref {
        assert x in out <==> x in multiset(out);
        assert x in listed <==> x in multiset(listed);
      }
    }
    SortedStrict(ids, products);
    ListStrict(ids, products);
    StrictUnique(out, ref, Rank(ids));
  }

  lemma ListedExample()
    ensures Listed([2, 5, 1], [1, 2]) == [2, 1]
  {
    var ids := [2, 5, 1];
    assert ids[1..] == [5, 1] && ids[1..][1..] == [1] && ids[1..][1..][1..] == [];
    assert Listed([1], [1, 2]) == [1] + Listed([], [1, 2]);
    assert Listed([5, 1], [1, 2]) == Listed([1], [1, 2]);
  }

  /** An empty or missing list gives the empty context. */
  lemma EmptyListExamples(products: seq<nat>)
    ensures RecentlyViewedProducts(None, products) == None
    ensures RecentlyViewedProducts(Some([]), products) == None
  {
  }

  /** Ids whose product is gone are dropped: with products 1 and 2 only, the
      list [2, 5, 1] shows 2 then 1. */
  lemma RecentlyViewedExample()
    ensures RecentlyViewedProducts(Some([2, 5, 1]), [1, 2]) == Some([2, 1])
  {
    var ids := [2, 5, 1];
    var ps := [1, 2];
    assert NoDup(ids) by {
      assert ids[0] != ids[1] && ids[0] != ids[2] && ids[1] != ids[2];
    }
    assert NoDup(ps);
    MatchesList(Some(ids), ps);
    ListedExample();
  }
}
