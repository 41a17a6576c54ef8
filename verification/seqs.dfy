/** Duplicate-free sequences and first positions, shared by the browsing
    history and the lists built from it. */
module Seqs {

  predicate NoDup<T(==)>(s: seq<T>) {
    forall i, j :: 0 <= i < j < |s| ==> s[i] != s[j]
  }

  /** The first position of `x` in `s`, or `|s|` when absent
      (`list.index`, where absence cannot arise). */
  function Position<T(==)>(s: seq<T>, x: T): (k: nat)
    ensures k <= |s|
    ensures k < |s| ==> s[k] == x
    ensures forall i :: 0 <= i < k ==> s[i] != x
    ensures k == |s| <==> x !in s
  {
    if s == [] then 0
    else if s[0] == x then 0
    else 1 + Position(s[1..], x)
  }

  /** Different members of `s` are found at different positions. */
  lemma PositionInjective<T>(s: seq<T>, x: T, y: T)
    requires x in s && y in s && x != y
    ensures Position(s, x) != Position(s, y)
  {
  }

  /** In a duplicate-free sequence the element at `k` is first found at `k`. */
  lemma PositionAt<T>(s: seq<T>, k: nat)
    requires NoDup(s) && k < |s|
    ensures Position(s, s[k]) == k
  {
    var j := Position(s, s[k]);
    assert j <= k;
  }

  /** A sequence is duplicate-free exactly when it holds each value at most once. */
  lemma {:induction false} NoDupCount<T>(s: seq<T>)
    ensures NoDup(s) <==> forall x :: multiset(s)[x] <= 1
  {
    if NoDup(s) {
      forall x ensures multiset(s)[x] <= 1 {
        NoDupCountOne(s, x);
      }
    } else {
      var i, j :| 0 <= i < j < |s| && s[i] == s[j];
      assert s == s[..j] + s[j..];
      assert s[i] == s[..j][i];
      assert s[j] == s[j..][0];
      assert multiset(s)[s[i]] == multiset(s[..j])[s[i]] + multiset(s[j..])[s[i]];
    }
  }

  lemma {:induction false} NoDupCountOne<T>(s: seq<T>, x: T)
    requires NoDup(s)
    ensures multiset(s)[x] <= 1
  {
    if s != [] {
      var p := s[..|s| - 1];
      assert s == p + [s[|s| - 1]];
      assert NoDup(p) by {
        assert forall i :: 0 <= i < |p| ==> p[i] == s[i];
      }
      NoDupCountOne(p, x);
      if s[|s| - 1] == x {
        assert x !in p by {
          assert forall i :: 0 <= i < |p| ==> p[i] == s[i];
        }
      }
    }
  }

  /** Duplicate-freedom is a property of the multiset, so it survives any
      reordering. */
  lemma NoDupPermutation<T>(a: seq<T>, b: seq<T>)
    requires multiset(a) == multiset(b) && NoDup(a)
    ensures NoDup(b)
  {
    NoDupCount(a);
    NoDupCount(b);
  }

  /** A prefix of a duplicate-free sequence is duplicate-free. */
  lemma PrefixNoDup<T>(s: seq<T>, n: nat)
    requires NoDup(s) && n <= |s|
    ensures NoDup(s[..n])
  {
    assert forall i :: 0 <= i < n ==> s[..n][i] == s[i];
  }

  /** Past a different head, the position is one more than in the tail. */
  lemma PositionTail<T>(s: seq<T>, x: T)
    requires s != [] && s[0] != x
    ensures Position(s, x) == 1 + Position(s[1..], x)
  {
  }

  /** The tail of a duplicate-free sequence is duplicate-free and misses the
      head. */
  lemma NoDupTail<T>(s: seq<T>)
    requires s != [] && NoDup(s)
    ensures NoDup(s[1..]) && s[0] !in s[1..]
  {
    assert forall k :: 0 <= k < |s[1..]| ==> s[1..][k] == s[k + 1];
  }
}
