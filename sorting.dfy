/**
 * Ruby's `Enumerable#sort_by` over natural-number keys, which is what the
 * ranked `to_a` calls. `sort_by` promises a permutation whose keys do not
 * decrease and nothing about the order of entries with equal keys, so the
 * lemmas here say when that is enough to fix the result.
 */
module Sorting {

  ghost predicate SortedBy<T>(s: seq<T>, key: T -> nat)
  {
    forall i, j :: 0 <= i < j < |s| ==> key(s[i]) <= key(s[j])
  }

  ghost predicate DistinctKeys<T>(s: seq<T>, key: T -> nat)
  {
    forall i, j :: 0 <= i < j < |s| ==> key(s[i]) != key(s[j])
  }

  /** What any run of `sort_by` may return for `s`. */
  ghost predicate IsSortByOutcome<T>(s: seq<T>, key: T -> nat, out: seq<T>)
  {
    multiset(out) == multiset(s) && SortedBy(out, key)
  }

  lemma ConsSorted<T>(y: T, t: seq<T>, key: T -> nat)
    requires SortedBy(t, key)
    requires t != [] ==> key(y) <= key(t[0])
    ensures SortedBy([y] + t, key)
  {
  }

  function InsertBy<T>(x: T, s: seq<T>, key: T -> nat): (r: seq<T>)
    requires SortedBy(s, key)
    ensures multiset(r) == multiset(s) + multiset{x}
    ensures SortedBy(r, key)
    ensures r != [] && (r[0] == x || (s != [] && r[0] == s[0]))
  {
    if s == [] then [x]
    else if key(x) <= key(s[0]) then
      ConsSorted(x, s, key);
      [x] + s
    else
      assert s == [s[0]] + s[1..];
      assert |s| > 1 ==> key(s[0]) <= key(s[1]);
      var t := InsertBy(x, s[1..], key);
      ConsSorted(s[0], t, key);
      [s[0]] + t
  }

  /** One outcome of `sort_by`: insertion sort, which happens to be stable. */
  function SortBy<T>(s: seq<T>, key: T -> nat): (r: seq<T>)
    ensures IsSortByOutcome(s, key, r)
  {
    if s == [] then []
    else
      assert s == [s[0]] + s[1..];
      InsertBy(s[0], SortBy(s[1..], key), key)
  }

  lemma TwiceInMultiset<T>(b: seq<T>, i: nat, j: nat)
    requires i < j < |b| && b[i] == b[j]
    ensures multiset(b)[b[i]] >= 2
  {
    assert b == b[..j] + [b[j]] + b[j+1..];
    assert b[..j][i] == b[i];
  }

  lemma {:induction false} OnceInMultiset<T>(a: seq<T>, p: nat, key: T -> nat)
    requires p < |a| && DistinctKeys(a, key)
    ensures multiset(a)[a[p]] == 1
  {
    assert a == [a[0]] + a[1..];
    if p == 0 {
      assert a[0] !in multiset(a[1..]);
    } else {
      assert a[1..][p - 1] == a[p];
      OnceInMultiset(a[1..], p - 1, key);
      assert a[0] != a[p];
    }
  }

  /** Distinct keys survive a permutation. */
  lemma DistinctKeysPermutation<T>(a: seq<T>, b: seq<T>, key: T -> nat)
    requires multiset(a) == multiset(b) && DistinctKeys(a, key)
    ensures DistinctKeys(b, key)
  {
    forall i, j | 0 <= i < j < |b| ensures key(b[i]) != key(b[j]) {
      assert b[i] in multiset(a) && b[j] in multiset(a);
      var p :| 0 <= p < |a| && a[p] == b[i];
      var q :| 0 <= q < |a| && a[q] == b[j];
      if p == q {
        TwiceInMultiset(b, i, j);
        OnceInMultiset(a, p, key);
        assert false;
      }
    }
  }

  lemma TailSorted<T>(a: seq<T>, key: T -> nat)
    requires a != [] && SortedBy(a, key)
    ensures SortedBy(a[1..], key)
    ensures DistinctKeys(a, key) ==> DistinctKeys(a[1..], key)
  {
  }

  /**
   * With distinct keys `sort_by` has one possible outcome: two sorted
   * permutations of the same entries are the same sequence.
   */
  lemma {:induction false} SortedPermutationsEqual<T>(a: seq<T>, b: seq<T>, key: T -> nat)
    requires multiset(a) == multiset(b)
    requires SortedBy(a, key) && SortedBy(b, key)
    requires DistinctKeys(a, key)
    ensures a == b
    decreases |a|
  {
    assert |a| == |multiset(a)| == |multiset(b)| == |b|;
    if a != [] {
      assert a[0] in multiset(b);
      var j :| 0 <= j < |b| && b[j] == a[0];
      assert b[0] in multiset(a);
      var i :| 0 <= i < |a| && a[i] == b[0];
      assert key(a[0]) <= key(a[i]) && key(b[0]) <= key(b[j]);
      assert i == 0 && a[0] == b[0];
      assert a == [a[0]] + a[1..] && b == [b[0]] + b[1..];
      assert multiset(a[1..]) == multiset(a) - multiset{a[0]};
      assert multiset(b[1..]) == multiset(b) - multiset{b[0]};
      TailSorted(a, key);
      TailSorted(b, key);
      SortedPermutationsEqual(a[1..], b[1..], key);
    }
  }

  /** Whatever `sort_by` returns on entries with distinct keys is `SortBy`. */
  lemma SortByDeterminate<T>(s: seq<T>, key: T -> nat, out: seq<T>)
    requires DistinctKeys(s, key) && IsSortByOutcome(s, key, out)
    ensures out == SortBy(s, key)
  {
    var r := SortBy(s, key);
    DistinctKeysPermutation(s, out, key);
    SortedPermutationsEqual(out, r, key);
  }

  lemma {:induction false} IncreasingAtLeastIndex(ks: seq<nat>)
    requires forall i, j :: 0 <= i < j < |ks| ==> ks[i] < ks[j]
    ensures forall i :: 0 <= i < |ks| ==> ks[i] >= i
  {
    if ks != [] {
      var init := ks[..|ks| - 1];
      assert forall i :: 0 <= i < |init| ==> init[i] == ks[i];
      IncreasingAtLeastIndex(init);
      if |ks| > 1 {
        assert ks[|ks| - 2] < ks[|ks| - 1];
      }
    }
  }

  lemma {:induction false} IncreasingAtMostBound(ks: seq<nat>, n: nat)
    requires forall i :: 0 <= i < |ks| ==> ks[i] < n
    requires forall i, j :: 0 <= i < j < |ks| ==> ks[i] < ks[j]
    ensures forall i :: 0 <= i < |ks| ==> ks[i] + |ks| - i <= n
  {
    if ks != [] {
      var tail := ks[1..];
      assert forall i :: 1 <= i < |ks| ==> tail[i - 1] == ks[i];
      IncreasingAtMostBound(tail, n);
      if |ks| > 1 {
        assert ks[0] < ks[1];
      }
    }
  }

  /**
   * A sorted sequence of n entries with distinct keys below n has, at
   * position i, the entry whose key is i.
   */
  lemma SortedDistinctKeysAreIndices<T>(s: seq<T>, key: T -> nat)
    requires SortedBy(s, key) && DistinctKeys(s, key)
    requires forall i :: 0 <= i < |s| ==> key(s[i]) < |s|
    ensures forall i :: 0 <= i < |s| ==> key(s[i]) == i
  {
    var ks := seq(|s|, i requires 0 <= i < |s| => key(s[i]));
    assert forall i, j :: 0 <= i < j < |ks| ==> ks[i] < ks[j] by {
      forall i, j | 0 <= i < j < |ks| ensures ks[i] < ks[j] {
        assert ks[i] == key(s[i]) && ks[j] == key(s[j]);
      }
    }
    IncreasingAtLeastIndex(ks);
    IncreasingAtMostBound(ks, |s|);
    forall i | 0 <= i < |s| ensures key(s[i]) == i {
      assert ks[i] == key(s[i]);
    }
  }
}
