/**
 * The array operations the card and the editor rely on: `filter`, and
 * `sort` with a comparator. `Array.prototype.sort` is stable; it is modelled
 * as insertion sort. Its result is a permutation of its input, and for an
 * antisymmetric comparator every neighbouring pair is in order.
 */
module Lists {

  /** `s.filter(keep)`: the elements that pass, in their original order. */
  function Filter<T(!new)>(s: seq<T>, keep: T -> bool): (r: seq<T>)
    ensures |r| <= |s|
    ensures forall x :: x in r <==> x in s && keep(x)
    ensures multiset(r) <= multiset(s)
    decreases |s|
  {
    if s == [] then []
    else
      var rest := Filter(s[1..], keep);
      assert s == [s[0]] + s[1..];
      if keep(s[0]) then [s[0]] + rest else rest
  }

  /** Filtering a list with one more element at the end filters that element last. */
  lemma {:induction false} FilterSnoc<T(!new)>(s: seq<T>, x: T, keep: T -> bool)
    ensures Filter(s + [x], keep) == Filter(s, keep) + (if keep(x) then [x] else [])
    decreases |s|
  {
    if s == [] {
      assert [x][1..] == [];
    } else {
      assert (s + [x])[1..] == s[1..] + [x];
      FilterSnoc(s[1..], x, keep);
    }
  }

  /** Filtering by three tests of which each element passes exactly one splits a list three ways. */
  lemma {:induction false} FilterThreeWays<T(!new)>(s: seq<T>, p: T -> bool, q: T -> bool, r: T -> bool)
    requires forall x :: (p(x) || q(x) || r(x)) && !(p(x) && q(x)) && !(p(x) && r(x)) && !(q(x) && r(x))
    ensures multiset(Filter(s, p)) + multiset(Filter(s, q)) + multiset(Filter(s, r)) == multiset(s)
    decreases |s|
  {
    if s != [] {
      var x, t := s[0], s[1..];
      FilterThreeWays(t, p, q, r);
      assert multiset(s) == multiset{x} + multiset(t) by { assert s == [x] + t; }
      FilterCons(s, p);
      FilterCons(s, q);
      FilterCons(s, r);
    }
  }

  /** Filtering by a test and by its negation splits a list: every element goes to exactly one side. */
  lemma {:induction false} FilterSplits<T(!new)>(s: seq<T>, keep: T -> bool, drop: T -> bool)
    requires forall x :: drop(x) == !keep(x)
    ensures multiset(Filter(s, keep)) + multiset(Filter(s, drop)) == multiset(s)
    decreases |s|
  {
    if s != [] {
      var x, t := s[0], s[1..];
      FilterSplits(t, keep, drop);
      assert multiset(s) == multiset{x} + multiset(t) by { assert s == [x] + t; }
      FilterCons(s, keep);
      FilterCons(s, drop);
    }
  }

  /** The multiset of a filtered non-empty list: its head if it passes, plus the filtered tail. */
  lemma FilterCons<T(!new)>(s: seq<T>, keep: T -> bool)
    requires s != []
    ensures multiset(Filter(s, keep)) == (if keep(s[0]) then multiset{s[0]} else multiset{}) + multiset(Filter(s[1..], keep))
  {
    if keep(s[0]) {
      assert Filter(s, keep) == [s[0]] + Filter(s[1..], keep);
    }
  }

  /** Every neighbouring pair is in order. */
  predicate SortedBy<T>(s: seq<T>, cmp: (T, T) -> int)
  {
    forall i :: 0 <= i < |s| - 1 ==> cmp(s[i], s[i + 1]) <= 0
  }

  /** Swapping the arguments negates the result. */
  ghost predicate Antisymmetric<T(!new)>(cmp: (T, T) -> int)
  {
    forall a, b :: cmp(a, b) == -cmp(b, a)
  }

  /** Inserts `x` after every leading element it does not sort before (so equal elements keep their order). */
  function Insert<T>(x: T, s: seq<T>, cmp: (T, T) -> int): (r: seq<T>)
    ensures |r| == |s| + 1
    ensures multiset(r) == multiset(s) + multiset{x}
    decreases |s|
  {
    if s == [] then [x]
    else if cmp(x, s[0]) < 0 then [x] + s
    else
      var rest := Insert(x, s[1..], cmp);
      assert s == [s[0]] + s[1..];
      [s[0]] + rest
  }

  /** Sorting the first `n - 1` elements and inserting the last one. */
  function Sort<T>(s: seq<T>, cmp: (T, T) -> int): (r: seq<T>)
    ensures |r| == |s|
    ensures multiset(r) == multiset(s)
    decreases |s|
  {
    if s == [] then []
    else
      var r := Insert(s[|s| - 1], Sort(s[..|s| - 1], cmp), cmp);
      assert s == s[..|s| - 1] + [s[|s| - 1]];
      r
  }

  lemma {:induction false} InsertKeepsOrder<T(!new)>(x: T, s: seq<T>, cmp: (T, T) -> int)
    requires Antisymmetric(cmp)
    requires SortedBy(s, cmp)
    ensures SortedBy(Insert(x, s, cmp), cmp)
    ensures s != [] ==> Insert(x, s, cmp)[0] == x || Insert(x, s, cmp)[0] == s[0]
    decreases |s|
  {
    if s != [] && cmp(x, s[0]) >= 0 {
      var rest := Insert(x, s[1..], cmp);
      InsertKeepsOrder(x, s[1..], cmp);
      var r := [s[0]] + rest;
      assert r == Insert(x, s, cmp);
      forall i | 0 <= i < |r| - 1
        ensures cmp(r[i], r[i + 1]) <= 0
      {
        if i == 0 {
          if s[1..] == [] {
            assert r[1] == x;
          } else {
            assert r[1] == x || r[1] == s[1];
          }
        } else {
          assert r[i] == rest[i - 1] && r[i + 1] == rest[i];
        }
      }
    }
  }

  /** A sort by an antisymmetric comparator leaves every neighbouring pair in order. */
  lemma {:induction false} SortIsSorted<T(!new)>(s: seq<T>, cmp: (T, T) -> int)
    requires Antisymmetric(cmp)
    ensures SortedBy(Sort(s, cmp), cmp)
    decreases |s|
  {
    if s != [] {
      SortIsSorted(s[..|s| - 1], cmp);
      InsertKeepsOrder(s[|s| - 1], Sort(s[..|s| - 1], cmp), cmp);
    }
  }
}
