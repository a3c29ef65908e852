/**
 * ORDER BY <column> DESC. The store returns its rows sorted by one integer
 * column; rows with equal keys come back in an order it does not specify,
 * so the model promises only that the result is sorted and is a
 * permutation of the rows it sorts.
 */
module Ordering {

  /** `s` is sorted by `key`, largest first. */
  predicate SortedDesc<T>(s: seq<T>, key: T -> int) {
    forall i, j :: 0 <= i < j < |s| ==> key(s[i]) >= key(s[j])
  }

  /** Putting `x` between a prefix of keys at least `key(x)` and a suffix of smaller keys keeps the order. */
  lemma InsertKeepsOrder<T>(s: seq<T>, k: nat, x: T, key: T -> int)
    requires SortedDesc(s, key) && k <= |s|
    requires forall j :: 0 <= j < k ==> key(s[j]) >= key(x)
    requires forall j :: k <= j < |s| ==> key(s[j]) < key(x)
    ensures SortedDesc(s[..k] + [x] + s[k..], key)
  {
    var r := s[..k] + [x] + s[k..];
    forall i, j | 0 <= i < j < |r| ensures key(r[i]) >= key(r[j]) {
      var ki := if i < k then key(s[i]) else if i == k then key(x) else key(s[i - 1]);
      var kj := if j < k then key(s[j]) else if j == k then key(x) else key(s[j - 1]);
      assert key(r[i]) == ki && key(r[j]) == kj;
    }
  }

  /** Inserts `x` into a sorted sequence after every element whose key is at least `x`'s. */
  method InsertDesc<T>(s: seq<T>, x: T, key: T -> int) returns (r: seq<T>, k: nat)
    requires SortedDesc(s, key)
    ensures SortedDesc(r, key)
    ensures k <= |s| && r == s[..k] + [x] + s[k..]
    ensures multiset(r) == multiset(s) + multiset{x}
  {
    k := 0;
    while k < |s| && key(s[k]) >= key(x)
      invariant 0 <= k <= |s|
      invariant forall j :: 0 <= j < k ==> key(s[j]) >= key(x)
    {
      k := k + 1;
    }
    forall j | k <= j < |s| ensures key(s[j]) < key(x) {
      assert key(s[k]) >= key(s[j]);
    }
    InsertKeepsOrder(s, k, x, key);
    r := s[..k] + [x] + s[k..];
    assert s == s[..k] + s[k..];
  }

  /** Sorts `s` by `key`, largest first, by inserting its elements one at a time. */
  method SortDesc<T>(s: seq<T>, key: T -> int) returns (r: seq<T>)
    ensures SortedDesc(r, key)
    ensures multiset(r) == multiset(s)
    ensures |r| == |s|
  {
    r := [];
    var i := 0;
    while i < |s|
      invariant 0 <= i <= |s|
      invariant SortedDesc(r, key)
      invariant multiset(r) == multiset(s[..i])
    {
      var k;
      r, k := InsertDesc(r, s[i], key);
      assert s[..i + 1] == s[..i] + [s[i]];
      i := i + 1;
    }
    assert s[..|s|] == s;
    assert |multiset(r)| == |multiset(s)|;
  }

  /**
   * The first `k` elements of a sorted permutation of `s`: the sequence is
   * sorted, has min(k, |s|) elements taken from `s`, and no element of `s`
   * that was left out has a larger key than an element that was kept.
   */
  lemma {:induction false} TopOfSorted<T>(s: seq<T>, sorted: seq<T>, k: nat, key: T -> int)
    requires SortedDesc(sorted, key) && multiset(sorted) == multiset(s)
    requires k <= |sorted|
    ensures SortedDesc(sorted[..k], key)
    ensures multiset(sorted[..k]) <= multiset(s)
    ensures forall x, j :: x in multiset(s) - multiset(sorted[..k]) && 0 <= j < k ==> key(x) <= key(sorted[j])
  {
    assert sorted == sorted[..k] + sorted[k..];
    assert multiset(sorted) == multiset(sorted[..k]) + multiset(sorted[k..]);
    forall x, j | x in multiset(s) - multiset(sorted[..k]) && 0 <= j < k
      ensures key(x) <= key(sorted[j])
    {
      assert x in multiset(sorted[k..]);
      assert x in sorted[k..];
      var m :| k <= m < |sorted| && sorted[m] == x;
    }
  }
}
