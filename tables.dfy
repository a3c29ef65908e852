/**
 * A table is a sequence of rows in the store's natural order. A WHERE clause
 * is a predicate on one row; `Filter` is SELECT * with that clause and
 * `Count` is SELECT count(*) with it.
 */
module Tables {

  /** The rows of `s` that satisfy `p`, in table order. */
  function Filter<T>(s: seq<T>, p: T -> bool): (r: seq<T>)
    ensures |r| <= |s|
    ensures forall i :: 0 <= i < |r| ==> p(r[i])
    ensures multiset(r) <= multiset(s)
  {
    if |s| == 0 then []
    else
      var init := s[..|s| - 1];
      assert s == init + [s[|s| - 1]];
      Filter(init, p) + (if p(s[|s| - 1]) then [s[|s| - 1]] else [])
  }

  /** The number of rows of `s` that satisfy `p`. */
  function Count<T>(s: seq<T>, p: T -> bool): (n: nat)
    ensures n <= |s|
  {
    if |s| == 0 then 0
    else Count(s[..|s| - 1], p) + (if p(s[|s| - 1]) then 1 else 0)
  }

  /** Extending a table by one row extends the selection by that row when it matches. */
  lemma FilterSnoc<T>(s: seq<T>, x: T, p: T -> bool)
    ensures Filter(s + [x], p) == Filter(s, p) + (if p(x) then [x] else [])
    ensures Count(s + [x], p) == Count(s, p) + (if p(x) then 1 else 0)
  {
    assert (s + [x])[..|s + [x]| - 1] == s;
  }

  /** The same, stated for the prefixes a loop walks through. */
  lemma FilterPrefix<T>(s: seq<T>, i: nat, p: T -> bool)
    requires i < |s|
    ensures Filter(s[..i + 1], p) == Filter(s[..i], p) + (if p(s[i]) then [s[i]] else [])
    ensures Count(s[..i + 1], p) == Count(s[..i], p) + (if p(s[i]) then 1 else 0)
  {
    assert s[..i + 1] == s[..i] + [s[i]];
    FilterSnoc(s[..i], s[i], p);
  }

  /** Counting the matching rows is the length of the selection. */
  lemma {:induction false} FilterCount<T>(s: seq<T>, p: T -> bool)
    ensures |Filter(s, p)| == Count(s, p)
  {
    if |s| > 0 {
      FilterCount(s[..|s| - 1], p);
    }
  }

  /** A row is selected exactly when it is in the table and matches. */
  lemma {:induction false} FilterMembership<T>(s: seq<T>, p: T -> bool, x: T)
    ensures x in Filter(s, p) <==> x in s && p(x)
  {
    if |s| > 0 {
      var init := s[..|s| - 1];
      assert s == init + [s[|s| - 1]];
      FilterMembership(init, p, x);
    }
  }

  /** `FilterMembership` for every row at once. */
  lemma FilterMembers<T>(s: seq<T>, p: T -> bool)
    ensures forall x :: x in Filter(s, p) <==> x in s && p(x)
  {
    forall x ensures x in Filter(s, p) <==> x in s && p(x) {
      FilterMembership(s, p, x);
    }
  }

  /** Every row of the table satisfies `p`, so selecting with `p` changes nothing. */
  lemma {:induction false} FilterAll<T>(s: seq<T>, p: T -> bool)
    requires forall i :: 0 <= i < |s| ==> p(s[i])
    ensures Filter(s, p) == s
  {
    if |s| > 0 {
      var init := s[..|s| - 1];
      assert s == init + [s[|s| - 1]];
      FilterAll(init, p);
    }
  }

  /** Selecting twice with the same clause selects the same rows as once. */
  lemma FilterIdempotent<T>(s: seq<T>, p: T -> bool)
    ensures Filter(Filter(s, p), p) == Filter(s, p)
  {
    FilterAll(Filter(s, p), p);
  }

  /** When `q` implies `p`, the `q`-selection is the `q`-selection of the `p`-selection (a subsequence). */
  lemma {:induction false} FilterNarrow<T>(s: seq<T>, p: T -> bool, q: T -> bool)
    requires forall x :: q(x) ==> p(x)
    ensures Filter(Filter(s, p), q) == Filter(s, q)
  {
    if |s| > 0 {
      var init, x := s[..|s| - 1], s[|s| - 1];
      FilterNarrow(init, p, q);
      assert Filter(s, p) == Filter(init, p) + (if p(x) then [x] else []);
      assert Filter(s, q) == Filter(init, q) + (if q(x) then [x] else []);
      if p(x) {
        FilterSnoc(Filter(init, p), x, q);
      } else {
        assert !q(x);
        assert Filter(s, p) == Filter(init, p) + [];
        assert Filter(init, p) + [] == Filter(init, p);
      }
    }
  }

  /** Counting `q`-rows among the `p`-rows counts all `q`-rows when `q` implies `p`. */
  lemma CountNarrow<T>(s: seq<T>, p: T -> bool, q: T -> bool)
    requires forall x :: q(x) ==> p(x)
    ensures Count(Filter(s, p), q) == Count(s, q)
  {
    FilterNarrow(s, p, q);
    FilterCount(Filter(s, p), q);
    FilterCount(s, q);
  }

  /** A clause every row meets counts the whole table. */
  lemma {:induction false} CountTotal<T>(s: seq<T>, p: T -> bool)
    requires forall x :: p(x)
    ensures Count(s, p) == |s|
  {
    if |s| > 0 {
      CountTotal(s[..|s| - 1], p);
    }
  }

  /** The rows of a table that match `p` split into those matching `a` and those matching `b`. */
  lemma {:induction false} CountPartition<T>(s: seq<T>, p: T -> bool, a: T -> bool, b: T -> bool)
    requires forall x :: p(x) <==> a(x) || b(x)
    requires forall x :: !(a(x) && b(x))
    ensures Count(s, p) == Count(s, a) + Count(s, b)
  {
    if |s| > 0 {
      CountPartition(s[..|s| - 1], p, a, b);
    }
  }

  /** A weaker clause counts at least as many rows. */
  lemma {:induction false} CountMonotone<T>(s: seq<T>, a: T -> bool, b: T -> bool)
    requires forall x :: a(x) ==> b(x)
    ensures Count(s, a) <= Count(s, b)
  {
    if |s| > 0 {
      CountMonotone(s[..|s| - 1], a, b);
    }
  }

  /** A count is positive exactly when some row matches. */
  lemma {:induction false} CountPositive<T>(s: seq<T>, p: T -> bool)
    ensures Count(s, p) > 0 <==> exists i :: 0 <= i < |s| && p(s[i])
  {
    if |s| > 0 {
      var init := s[..|s| - 1];
      CountPositive(init, p);
      if Count(init, p) > 0 {
        var i :| 0 <= i < |init| && p(init[i]);
        assert s[i] == init[i];
      }
      if exists i :: 0 <= i < |s| && p(s[i]) {
        var i :| 0 <= i < |s| && p(s[i]);
        if i < |init| {
          assert init[i] == s[i];
        }
      }
    }
  }
}
