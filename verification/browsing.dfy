/** The browsing state kept by `products/views.py`: the session's
    recently-viewed list updated by `product_detail`, and the rule deciding
    who may review a product (`can_review` there, and the gate of
    `add_review`). */
module Browsing {
  import opened Wrappers
  import opened Seqs
  import opened Ranking

  /** How many recently viewed products the session keeps. */
  const RecentLimit: nat := 10

  /** `list.remove(x)`: drops the first occurrence only. */
  function RemoveFirst(s: seq<nat>, x: nat): (r: seq<nat>)
    ensures x !in s ==> r == s
    ensures x in s ==> |r| == |s| - 1 && multiset(r) == multiset(s) - multiset{x}
  {
    if s == [] then []
    else
      assert s == [s[0]] + s[1..];
      if s[0] == x then s[1..] else [s[0]] + RemoveFirst(s[1..], x)
  }

  /** `s` with every occurrence of `x` dropped, the rest in order. */
  function Without(s: seq<nat>, x: nat): (r: seq<nat>)
    ensures x !in r
    ensures forall y :: y != x ==> (y in r <==> y in s)
    ensures |r| <= |s|
  {
    if s == [] then []
    else (if s[0] == x then [] else [s[0]]) + Without(s[1..], x)
  }

  /** The list after viewing product `p`: `p` moved to the front, then cut
      to the limit. */
  function RecordView(recent: seq<nat>, p: nat): (r: seq<nat>)
    ensures |r| >= 1 && r[0] == p
    ensures |r| <= RecentLimit
    ensures |r| == if |recent| + (if p in recent then 0 else 1) < RecentLimit
                   then |recent| + (if p in recent then 0 else 1) else RecentLimit
  {
    Top([p] + RemoveFirst(recent, p), RecentLimit)
  }

  /** `product_detail`: a session without the list starts from `[]`. */
  function ProductDetail(session: Option<seq<nat>>, p: nat): (r: seq<nat>)
    ensures session.None? || session.value == [] ==> r == [p]
  {
    RecordView(session.GetOr([]), p)
  }

  // ---------------------------------------------------------------------
  // Properties of the history

  lemma {:induction false} RemoveFirstNoDup(s: seq<nat>, x: nat)
    requires NoDup(s)
    ensures RemoveFirst(s, x) == Without(s, x)
    ensures NoDup(Without(s, x))
  {
    if s != [] {
      var t := s[1..];
      assert NoDup(t) && s[0] !in t by {
        assert forall i :: 0 <= i < |t| ==> t[i] == s[i + 1];
      }
      RemoveFirstNoDup(t, x);
      if s[0] == x {
        WithoutAbsent(t, x);
        assert Without(s, x) == [] + Without(t, x);
      } else {
        assert RemoveFirst(s, x) == [s[0]] + RemoveFirst(t, x);
        assert Without(s, x) == [s[0]] + Without(t, x);
        ConsNoDup(s[0], Without(t, x));
      }
    }
  }

  lemma ConsNoDup(x: nat, w: seq<nat>)
    requires NoDup(w) && x !in w
    ensures NoDup([x] + w)
  {
    var full := [x] + w;
    forall i, j | 0 <= i < j < |full| ensures full[i] != full[j] {
      assert full[j] == w[j - 1];
      if i > 0 {
        assert full[i] == w[i - 1];
      }
    }
  }

  lemma {:induction false} WithoutAbsent(s: seq<nat>, x: nat)
    requires x !in s
    ensures Without(s, x) == s
  {
    if s != [] {
      WithoutAbsent(s[1..], x);
      assert s == [s[0]] + s[1..];
    }
  }

  /** For a duplicate-free history the update keeps it duplicate-free, holds
      `p` exactly once, and is `[p]` followed by the old list without `p`,
      cut to the limit, so the other products keep their relative order. */
  lemma RecordViewNoDup(recent: seq<nat>, p: nat)
    requires NoDup(recent)
    ensures var r := RecordView(recent, p);
      NoDup(r) && p !in r[1..] &&
      r == Top([p] + Without(recent, p), RecentLimit) &&
      r[1..] == Without(recent, p)[..|r| - 1]
  {
    RemoveFirstNoDup(recent, p);
    var w := Without(recent, p);
    ConsNoDup(p, w);
    var r := RecordView(recent, p);
    PrefixNoDup([p] + w, |r|);
    FrontTail(p, w, |r|);
  }

  /** Cutting `[x] + w` to `n >= 1` leaves `x` and then a prefix of `w`,
      which holds `x` only if `w` does. */
  lemma FrontTail(x: nat, w: seq<nat>, n: nat)
    requires 1 <= n <= |w| + 1
    ensures ([x] + w)[..n][1..] == w[..n - 1]
    ensures x !in w ==> x !in w[..n - 1]
  {
    assert forall y :: y in w[..n - 1] ==> y in w;
  }

  /** Viewing the same product twice in a row is the same as viewing it once. */
  lemma RecordViewIdempotent(recent: seq<nat>, p: nat)
    ensures RecordView(RecordView(recent, p), p) == RecordView(recent, p)
  {
    var r := RecordView(recent, p);
    assert RemoveFirst(r, p) == r[1..] by {
      assert r == [r[0]] + r[1..];
    }
    assert [p] + r[1..] == r;
  }

  // ---------------------------------------------------------------------
  // Reviews

  /** `can_review`: an authenticated user who has ordered the product more
      times than they have reviewed it. */
  function CanReview(authenticated: bool, ordered: nat, reviews: nat): bool {
    authenticated && ordered > reviews
  }

  /** The refusal at the top of `add_review` (a logged-in view). */
  function AddReviewRefused(ordered: nat, reviews: nat): bool {
    reviews >= ordered
  }

  /** The review page refuses exactly the logged-in users the product page
      does not invite to review; anonymous users are never invited; and a
      user who starts with no more reviews than orders never gets past the
      gate to more. */
  lemma ReviewGate(authenticated: bool, ordered: nat, reviews: nat)
    ensures authenticated ==> (AddReviewRefused(ordered, reviews) <==> !CanReview(authenticated, ordered, reviews))
    ensures !authenticated ==> !CanReview(authenticated, ordered, reviews)
    ensures !AddReviewRefused(ordered, reviews) ==> reviews + 1 <= ordered
    ensures CanReview(true, 1, 0) && !CanReview(true, 1, 1) && !CanReview(false, 5, 0)
  {
  }
}
