/** Grouping a sequence by a string key the way the checkout views do with a
    dictionary: the keys in order of first appearance, the members of each
    key in their original order, and sums over members. */
module Grouping {

  predicate Distinct(ks: seq<string>) {
    forall i, j :: 0 <= i < j < |ks| ==> ks[i] != ks[j]
  }

  /** The distinct keys of `xs`, each where it first appears. */
  function Keys<T>(xs: seq<T>, key: T -> string): seq<string> {
    if xs == [] then []
    else
      var ks := Keys(xs[..|xs| - 1], key);
      if key(xs[|xs| - 1]) in ks then ks else ks + [key(xs[|xs| - 1])]
  }

  /** The elements of `xs` under key `k`, in order. */
  function Members<T>(xs: seq<T>, key: T -> string, k: string): seq<T> {
    if xs == [] then []
    else Members(xs[..|xs| - 1], key, k) + (if key(xs[|xs| - 1]) == k then [xs[|xs| - 1]] else [])
  }

  function Sum<T>(xs: seq<T>, w: T -> real): real {
    if xs == [] then 0.0 else Sum(xs[..|xs| - 1], w) + w(xs[|xs| - 1])
  }

  /** The sum over keys `ks` of the member sums. */
  function SumGroups<T>(ks: seq<string>, xs: seq<T>, key: T -> string, w: T -> real): real {
    if ks == [] then 0.0 else SumGroups(ks[..|ks| - 1], xs, key, w) + Sum(Members(xs, key, ks[|ks| - 1]), w)
  }

  /** The keys of `ks` that lie in `allowed`, in order. */
  function Keep(ks: seq<string>, allowed: set<string>): (r: seq<string>)
    ensures forall i :: 0 <= i < |r| ==> r[i] in allowed
  {
    if ks == [] then []
    else Keep(ks[..|ks| - 1], allowed) + (if ks[|ks| - 1] in allowed then [ks[|ks| - 1]] else [])
  }

  // ---------------------------------------------------------------------
  // One more element

  lemma Snoc<T>(xs: seq<T>, x: T)
    ensures (xs + [x])[..|xs|] == xs && (xs + [x])[|xs|] == x
  {
  }

  lemma KeysAppend<T>(xs: seq<T>, x: T, key: T -> string)
    ensures Keys(xs + [x], key) == if key(x) in Keys(xs, key) then Keys(xs, key) else Keys(xs, key) + [key(x)]
  {
    Snoc(xs, x);
  }

  lemma MembersAppend<T>(xs: seq<T>, x: T, key: T -> string, k: string)
    ensures Members(xs + [x], key, k) == Members(xs, key, k) + (if key(x) == k then [x] else [])
    ensures key(x) != k ==> Members(xs + [x], key, k) == Members(xs, key, k)
  {
    Snoc(xs, x);
    assert Members(xs, key, k) + [] == Members(xs, key, k);
  }

  lemma SumAppend<T>(xs: seq<T>, x: T, w: T -> real)
    ensures Sum(xs + [x], w) == Sum(xs, w) + w(x)
  {
    Snoc(xs, x);
  }

  lemma KeepAppend(ks: seq<string>, k: string, allowed: set<string>)
    ensures Keep(ks + [k], allowed) == Keep(ks, allowed) + (if k in allowed then [k] else [])
  {
    assert (ks + [k])[..|ks|] == ks;
  }

  // ---------------------------------------------------------------------
  // What the definitions mean

  /** Every key occurs once. */
  lemma {:induction false} KeysDistinct<T>(xs: seq<T>, key: T -> string)
    ensures Distinct(Keys(xs, key))
  {
    if xs != [] {
      KeysDistinct(xs[..|xs| - 1], key);
    }
  }

  /** A key is listed exactly when some element carries it. */
  lemma {:induction false} KeysMembers<T>(xs: seq<T>, key: T -> string, k: string)
    ensures k in Keys(xs, key) <==> Members(xs, key, k) != []
  {
    if xs != [] {
      KeysMembers(xs[..|xs| - 1], key, k);
    }
  }

  /** Every element's key is listed. */
  lemma {:induction false} KeysComplete<T>(xs: seq<T>, key: T -> string)
    ensures forall i :: 0 <= i < |xs| ==> key(xs[i]) in Keys(xs, key)
  {
    if xs != [] {
      var p := xs[..|xs| - 1];
      KeysComplete(p, key);
      forall i | 0 <= i < |xs| ensures key(xs[i]) in Keys(xs, key) {
        if i < |p| {
          assert xs[i] == p[i];
        }
      }
    }
  }

  /** The members of `k` are exactly the elements carrying `k`, in order. */
  lemma {:induction false} MembersSpec<T>(xs: seq<T>, key: T -> string, k: string)
    ensures |Members(xs, key, k)| <= |xs|
    ensures forall i :: 0 <= i < |Members(xs, key, k)| ==> key(Members(xs, key, k)[i]) == k
    ensures multiset(Members(xs, key, k)) <= multiset(xs)
    ensures forall i :: 0 <= i < |xs| && key(xs[i]) == k ==> xs[i] in Members(xs, key, k)
  {
    if xs != [] {
      var p := xs[..|xs| - 1];
      var x := xs[|xs| - 1];
      MembersSpec(p, key, k);
      assert xs == p + [x];
      forall i | 0 <= i < |xs| && key(xs[i]) == k ensures xs[i] in Members(xs, key, k) {
        if i < |p| {
          assert xs[i] == p[i];
        }
      }
    }
  }

  lemma {:induction false} KeepSpec(ks: seq<string>, allowed: set<string>, k: string)
    ensures k in Keep(ks, allowed) <==> k in ks && k in allowed
  {
    if ks != [] {
      KeepSpec(ks[..|ks| - 1], allowed, k);
      assert ks == ks[..|ks| - 1] + [ks[|ks| - 1]];
    }
  }

  lemma {:induction false} KeepDistinct(ks: seq<string>, allowed: set<string>)
    requires Distinct(ks)
    ensures Distinct(Keep(ks, allowed))
  {
    if ks != [] {
      var p := ks[..|ks| - 1];
      KeepDistinct(p, allowed);
      KeepSpec(p, allowed, ks[|ks| - 1]);
    }
  }

  lemma DistinctSplit(p: seq<string>, k: string)
    requires Distinct(p + [k])
    ensures Distinct(p) && k !in p
  {
    var q := p + [k];
    forall i | 0 <= i < |p| ensures p[i] != k {
      assert q[i] == p[i] && q[|p|] == k;
    }
    forall i, j | 0 <= i < j < |p| ensures p[i] != p[j] {
      assert q[i] == p[i] && q[j] == p[j];
    }
  }

  // ---------------------------------------------------------------------
  // Grouping loses and duplicates nothing

  lemma {:induction false} SumGroupsOther<T>(ks: seq<string>, xs: seq<T>, x: T, key: T -> string, w: T -> real)
    requires key(x) !in ks
    ensures SumGroups(ks, xs + [x], key, w) == SumGroups(ks, xs, key, w)
  {
    if ks != [] {
      var p := ks[..|ks| - 1];
      assert key(x) != ks[|ks| - 1];
      assert key(x) !in p by {
        assert forall i :: 0 <= i < |p| ==> p[i] == ks[i];
      }
      SumGroupsOther(p, xs, x, key, w);
      MembersAppend(xs, x, key, ks[|ks| - 1]);
      assert SumGroups(ks, xs + [x], key, w)
        == SumGroups(p, xs + [x], key, w) + Sum(Members(xs + [x], key, ks[|ks| - 1]), w);
    }
  }

  lemma {:induction false} SumGroupsIn<T>(ks: seq<string>, xs: seq<T>, x: T, key: T -> string, w: T -> real)
    requires key(x) in ks && Distinct(ks)
    ensures SumGroups(ks, xs + [x], key, w) == SumGroups(ks, xs, key, w) + w(x)
  {
    var p := ks[..|ks| - 1];
    var k := ks[|ks| - 1];
    assert ks == p + [k];
    DistinctSplit(p, k);
    MembersAppend(xs, x, key, k);
    assert SumGroups(ks, xs + [x], key, w) == SumGroups(p, xs + [x], key, w) + Sum(Members(xs + [x], key, k), w);
    assert SumGroups(ks, xs, key, w) == SumGroups(p, xs, key, w) + Sum(Members(xs, key, k), w);
    if key(x) == k {
      SumGroupsOther(p, xs, x, key, w);
      SumAppend(Members(xs, key, k), x, w);
    } else {
      assert key(x) in p;
      SumGroupsIn(p, xs, x, key, w);
    }
  }

  /** Summing per group and adding the group sums gives the plain sum: each
      element is counted in exactly one group. */
  lemma {:induction false} Partition<T>(xs: seq<T>, key: T -> string, w: T -> real)
    ensures SumGroups(Keys(xs, key), xs, key, w) == Sum(xs, w)
  {
    if xs != [] {
      var p := xs[..|xs| - 1];
      var x := xs[|xs| - 1];
      assert xs == p + [x];
      Partition(p, key, w);
      PartitionStep(p, x, key, w);
    }
  }

  /** Appending an element adds its weight to exactly one group. */
  lemma PartitionStep<T>(p: seq<T>, x: T, key: T -> string, w: T -> real)
    requires SumGroups(Keys(p, key), p, key, w) == Sum(p, w)
    ensures SumGroups(Keys(p + [x], key), p + [x], key, w) == Sum(p + [x], w)
  {
    KeysAppend(p, x, key);
    SumAppend(p, x, w);
    var ks := Keys(p, key);
    if key(x) in ks {
      KeysDistinct(p, key);
      SumGroupsIn(ks, p, x, key, w);
    } else {
      NewGroup(p, x, key, w);
    }
  }

  /** An element with a key not seen before opens a group of its own. */
  lemma NewGroup<T>(p: seq<T>, x: T, key: T -> string, w: T -> real)
    requires key(x) !in Keys(p, key)
    ensures SumGroups(Keys(p, key) + [key(x)], p + [x], key, w) == SumGroups(Keys(p, key), p, key, w) + w(x)
  {
    var ks := Keys(p, key);
    SumGroupsOther(ks, p, x, key, w);
    KeysMembers(p, key, key(x));
    MembersAppend(p, x, key, key(x));
    assert Members(p + [x], key, key(x)) == [x];
    SumAppend([], x, w);
    assert ks + [key(x)] != [];
    assert (ks + [key(x)])[..|ks|] == ks;
  }
}
