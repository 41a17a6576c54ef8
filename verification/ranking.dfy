/** Python's `sorted(xs, key=score, reverse=True)` on sequences: a stable
    sort into descending score order, as the recommender and the
    recently-viewed list use it. */
module Ranking {

  predicate SortedDesc<T>(xs: seq<T>, score: T -> real) {
    forall i, j :: 0 <= i < j < |xs| ==> score(xs[i]) >= score(xs[j])
  }

  /** Descending with no ties. */
  predicate StrictDesc<T>(xs: seq<T>, score: T -> real) {
    forall i, j :: 0 <= i < j < |xs| ==> score(xs[i]) > score(xs[j])
  }

  /** The elements of `xs` scoring exactly `v`, in order. */
  function WithScore<T>(xs: seq<T>, score: T -> real, v: real): seq<T> {
    if xs == [] then []
    else WithScore(xs[..|xs| - 1], score, v) + (if score(xs[|xs| - 1]) == v then [xs[|xs| - 1]] else [])
  }

  /** `x` placed after every element scoring at least as high. */
  function Insert<T>(x: T, t: seq<T>, score: T -> real): (r: seq<T>)
    ensures multiset(r) == multiset(t) + multiset{x}
    ensures |r| == |t| + 1
  {
    if t == [] then [x]
    else
      assert t == [t[0]] + t[1..];
      if score(t[0]) >= score(x) then [t[0]] + Insert(x, t[1..], score)
      else [x] + t
  }

  /** Insertion sort, each later element inserted after the earlier ones
      it ties with. */
  function SortDesc<T>(xs: seq<T>, score: T -> real): (r: seq<T>)
    ensures multiset(r) == multiset(xs)
    ensures |r| == |xs|
  {
    if xs == [] then []
    else
      assert xs == xs[..|xs| - 1] + [xs[|xs| - 1]];
      Insert(xs[|xs| - 1], SortDesc(xs[..|xs| - 1], score), score)
  }

  // ---------------------------------------------------------------------
  // Insertion keeps the order

  lemma {:induction false} InsertSorted<T>(x: T, t: seq<T>, score: T -> real)
    requires SortedDesc(t, score)
    ensures SortedDesc(Insert(x, t, score), score)
  {
    if t != [] && score(t[0]) >= score(x) {
      var rest := t[1..];
      assert SortedDesc(rest, score) by {
        assert forall i :: 0 <= i < |rest| ==> rest[i] == t[i + 1];
      }
      InsertSorted(x, rest, score);
      var r := Insert(x, rest, score);
      forall k | 0 <= k < |r| ensures score(t[0]) >= score(r[k]) {
        assert r[k] in multiset(r);
        assert r[k] in multiset(rest) + multiset{x};
        if r[k] in multiset(rest) {
          var m :| 0 <= m < |rest| && rest[m] == r[k];
          assert rest[m] == t[m + 1];
        }
      }
    }
  }

  /** The insertion leaves every score class in order, with `x` last in its
      own class. */
  lemma {:induction false} InsertClass<T>(x: T, t: seq<T>, score: T -> real, v: real)
    requires SortedDesc(t, score)
    ensures WithScore(Insert(x, t, score), score, v) == WithScore(t, score, v) + (if score(x) == v then [x] else [])
  {
    if t == [] {
      WithScoreSingle(x, score, v);
    } else if score(t[0]) >= score(x) {
      var rest := t[1..];
      assert SortedDesc(rest, score) by {
        assert forall i :: 0 <= i < |rest| ==> rest[i] == t[i + 1];
      }
      InsertClass(x, rest, score, v);
      InsertClassBehind(x, t, score, v);
    } else {
      InsertClassAhead(x, t, score, v);
    }
  }

  /** `x` goes behind the head of `t`: the head's class gains nothing. */
  lemma InsertClassBehind<T>(x: T, t: seq<T>, score: T -> real, v: real)
    requires t != [] && score(t[0]) >= score(x)
    requires WithScore(Insert(x, t[1..], score), score, v) ==
      WithScore(t[1..], score, v) + (if score(x) == v then [x] else [])
    ensures WithScore(Insert(x, t, score), score, v) == WithScore(t, score, v) + (if score(x) == v then [x] else [])
  {
    var rest := t[1..];
    var ins := Insert(x, rest, score);
    var head := WithScore([t[0]], score, v);
    var tail := if score(x) == v then [x] else [];
    assert WithScore(t, score, v) == head + WithScore(rest, score, v) by {
      assert t == [t[0]] + rest;
      WithScoreConcat([t[0]], rest, score, v);
    }
    assert WithScore(Insert(x, t, score), score, v) == head + WithScore(ins, score, v) by {
      assert Insert(x, t, score) == [t[0]] + ins;
      WithScoreConcat([t[0]], ins, score, v);
    }
    Regroup(WithScore(Insert(x, t, score), score, v), head, WithScore(ins, score, v),
      WithScore(rest, score, v), WithScore(t, score, v), tail);
  }

  lemma Regroup<T>(a: seq<T>, b: seq<T>, c: seq<T>, d: seq<T>, e: seq<T>, f: seq<T>)
    requires a == b + c && c == d + f && e == b + d
    ensures a == e + f
  {
    assert b + (d + f) == (b + d) + f;
  }

  /** `x` goes in front of a sorted `t` whose head scores below it, so `x` is
      outside each class of `t` it could join. */
  lemma InsertClassAhead<T>(x: T, t: seq<T>, score: T -> real, v: real)
    requires SortedDesc(t, score)
    requires t != [] && score(t[0]) < score(x)
    ensures WithScore(Insert(x, t, score), score, v) == WithScore(t, score, v) + (if score(x) == v then [x] else [])
  {
    assert Insert(x, t, score) == [x] + t;
    assert forall i :: 0 <= i < |t| ==> score(t[i]) <= score(t[0]) < score(x);
    WithScoreConcat([x], t, score, v);
    WithScoreSingle(x, score, v);
    if score(x) == v {
      WithScoreNone(t, score, v);
    }
  }

  lemma WithScoreSingle<T>(x: T, score: T -> real, v: real)
    ensures WithScore([x], score, v) == if score(x) == v then [x] else []
  {
    assert [x][..0] == [];
  }

  lemma {:induction false} WithScoreNone<T>(t: seq<T>, score: T -> real, v: real)
    requires forall i :: 0 <= i < |t| ==> score(t[i]) < v
    ensures WithScore(t, score, v) == []
  {
    if t != [] {
      WithScoreNone(t[..|t| - 1], score, v);
    }
  }

  lemma {:induction false} WithScoreConcat<T>(a: seq<T>, b: seq<T>, score: T -> real, v: real)
    ensures WithScore(a + b, score, v) == WithScore(a, score, v) + WithScore(b, score, v)
  {
    if b == [] {
      assert a + b == a;
    } else {
      var p := b[..|b| - 1];
      var y := b[|b| - 1];
      assert a + b == (a + p) + [y];
      assert (a + b)[..|a + b| - 1] == a + p;
      WithScoreConcat(a, p, score, v);
    }
  }

  // ---------------------------------------------------------------------
  // What the sort guarantees

  /** The result is in descending score order, and ties keep their input
      order: each score class reads the same before and after. */
  lemma {:induction false} SortDescSpec<T>(xs: seq<T>, score: T -> real, v: real)
    ensures SortedDesc(SortDesc(xs, score), score)
    ensures WithScore(SortDesc(xs, score), score, v) == WithScore(xs, score, v)
  {
    if xs != [] {
      var p := xs[..|xs| - 1];
      var x := xs[|xs| - 1];
      SortDescSpec(p, score, v);
      InsertSorted(x, SortDesc(p, score), score);
      InsertClass(x, SortDesc(p, score), score, v);
    }
  }

  /** The first `n` of the ranking: none of the rest scores higher than any
      of them. */
  function Top<T>(xs: seq<T>, n: nat): (r: seq<T>)
    ensures |r| == if |xs| < n then |xs| else n
    ensures r == xs[..|r|]
  {
    if |xs| <= n then xs else xs[..n]
  }

  lemma TopDominates<T>(xs: seq<T>, score: T -> real, n: nat, i: nat, j: nat)
    requires i < |Top(SortDesc(xs, score), n)| <= j < |xs|
    ensures score(SortDesc(xs, score)[i]) >= score(SortDesc(xs, score)[j])
  {
    SortDescSpec(xs, score, 0.0);
  }

  /** The first `n` of the ranking are members of `xs`, in descending
      order, and every member left out scores no higher than each kept one. */
  lemma TopSortedSpec<T>(xs: seq<T>, score: T -> real, n: nat)
    ensures var best := Top(SortDesc(xs, score), n);
      (forall x :: x in best ==> x in xs) &&
      SortedDesc(best, score) &&
      (forall x, y :: x in best && y in xs && y !in best ==> score(x) >= score(y))
  {
    var ranked := SortDesc(xs, score);
    var best := Top(ranked, n);
    SortDescSpec(xs, score, 0.0);
    forall x | x in best ensures x in xs {
      var i :| 0 <= i < |best| && best[i] == x;
      assert ranked[i] in multiset(ranked);
    }
    assert forall k :: 0 <= k < |best| ==> ranked[k] in best;
    forall x, y | x in best && y in xs && y !in best ensures score(x) >= score(y) {
      var i :| 0 <= i < |best| && best[i] == x;
      assert y in multiset(ranked);
      var j :| 0 <= j < |ranked| && ranked[j] == y;
    }
  }

  /** Sequences with the same members are empty together. */
  lemma SameMembersEmpty<T>(a: seq<T>, b: seq<T>)
    requires forall x :: x in a <==> x in b
    ensures a == [] <==> b == []
  {
    if a != [] {
      assert a[0] in b;
    }
    if b != [] {
      assert b[0] in a;
    }
  }

  /** Two sequences in strictly descending order with the same elements are
      equal: a strict ranking is determined by what it ranks. */
  lemma {:induction false} StrictUnique<T>(a: seq<T>, b: seq<T>, score: T -> real)
    requires StrictDesc(a, score) && StrictDesc(b, score)
    requires forall x :: x in a <==> x in b
    ensures a == b
  {
    SameMembersEmpty(a, b);
    if a != [] {
      assert a[0] in b;
      assert b[0] in a;
      var ia :| 0 <= ia < |a| && a[ia] == b[0];
      var ib :| 0 <= ib < |b| && b[ib] == a[0];
      assert ia == 0 && ib == 0;
      var a' := a[1..];
      var b' := b[1..];
      forall x ensures x in a' <==> x in b' {
        if x in a' {
          var k :| 0 <= k < |a'| && a'[k] == x;
          assert a[k + 1] == x && score(a[0]) > score(x);
          assert x in b && x != b[0];
          var m :| 0 <= m < |b| && b[m] == x;
          assert b'[m - 1] == x;
        }
        if x in b' {
          var k :| 0 <= k < |b'| && b'[k] == x;
          assert b[k + 1] == x && score(b[0]) > score(x);
          assert x in a && x != a[0];
          var m :| 0 <= m < |a| && a[m] == x;
          assert a'[m - 1] == x;
        }
      }
      assert StrictDesc(a', score) by {
        assert forall i :: 0 <= i < |a'| ==> a'[i] == a[i + 1];
      }
      assert StrictDesc(b', score) by {
        assert forall i :: 0 <= i < |b'| ==> b'[i] == b[i + 1];
      }
      StrictUnique(a', b', score);
      assert a == [a[0]] + a' && b == [b[0]] + b';
    }
  }
}
