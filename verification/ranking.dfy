/**
 * The list operations the rankers share: Python's prefix slice `xs[:k]`, a filter that keeps
 * order, and the stable descending sort of `sorted(..., reverse=True)` / `list.sort(reverse=True)`.
 */
module Ranking {

  /** `xs[:k]` with Python's meaning for every integer `k` (a negative `k` drops `-k` items from the end). */
  function Prefix<T>(xs: seq<T>, k: int): (r: seq<T>)
    ensures |r| <= |xs| && r == xs[..|r|]
    ensures k >= 0 ==> |r| <= k && (|r| == k || r == xs)
    ensures k < 0 ==> |r| == if |xs| + k > 0 then |xs| + k else 0
  {
    if k >= 0 then (if k < |xs| then xs[..k] else xs)
    else (if |xs| + k > 0 then xs[..|xs| + k] else [])
  }

  /** Keys never increase along `xs`. */
  ghost predicate NonIncreasing<T>(xs: seq<T>, key: T -> real) {
    forall i, j | 0 <= i < j < |xs| :: key(xs[i]) >= key(xs[j])
  }

  /** `[x for x in xs if keep(x)]`. */
  function Filter<T>(xs: seq<T>, keep: T -> bool): (r: seq<T>)
    ensures |r| <= |xs|
    ensures forall x | x in r :: x in xs && keep(x)
    ensures forall x | x in xs && keep(x) :: x in r
  {
    if xs == [] then []
    else (if keep(xs[0]) then [xs[0]] else []) + Filter(xs[1..], keep)
  }

  /** Filtering keeps the relative order, so it keeps a descending order. */
  lemma {:induction false} FilterKeepsOrder<T>(xs: seq<T>, keep: T -> bool, key: T -> real)
    requires NonIncreasing(xs, key)
    ensures NonIncreasing(Filter(xs, keep), key)
  {
    if xs != [] {
      FilterKeepsOrder(xs[1..], keep, key);
      var rest := Filter(xs[1..], keep);
      forall y | y in rest ensures key(xs[0]) >= key(y) {
        var j :| 0 <= j < |xs[1..]| && xs[1..][j] == y;
        assert xs[j + 1] == y;
      }
    }
  }

  /** Filtering with a test every element passes changes nothing. */
  lemma {:induction false} FilterAllKept<T>(xs: seq<T>, keep: T -> bool)
    requires forall x | x in xs :: keep(x)
    ensures Filter(xs, keep) == xs
  {
    if xs != [] {
      FilterAllKept(xs[1..], keep);
    }
  }

  /** Puts `x` in front of the first element whose key is at most `key(x)`. */
  function Insert<T(==)>(x: T, ys: seq<T>, key: T -> real): (r: seq<T>)
    requires NonIncreasing(ys, key)
    ensures multiset(r) == multiset(ys) + multiset{x}
    ensures NonIncreasing(r, key)
  {
    if ys == [] || key(x) >= key(ys[0]) then
      if ys != [] then
        HeadIsLargest(ys, key);
        ConsOrdered(x, ys, key);
        [x] + ys
      else
        [x]
    else
      var rest := Insert(x, ys[1..], key);
      InsertedBelowHead(x, ys, rest, key);
      ConsOrdered(ys[0], rest, key);
      assert ys == [ys[0]] + ys[1..];
      [ys[0]] + rest
  }

  /** The first element of a descending list has the largest key. */
  lemma HeadIsLargest<T>(ys: seq<T>, key: T -> real)
    requires NonIncreasing(ys, key) && ys != []
    ensures forall z | z in ys :: key(ys[0]) >= key(z)
  {
    forall z | z in ys ensures key(ys[0]) >= key(z) {
      var j :| 0 <= j < |ys| && ys[j] == z;
    }
  }

  /** An element at least as large as every element of a descending list can go in front of it. */
  lemma ConsOrdered<T>(y: T, rest: seq<T>, key: T -> real)
    requires NonIncreasing(rest, key)
    requires forall z | z in rest :: key(y) >= key(z)
    ensures NonIncreasing([y] + rest, key)
  {
    var r := [y] + rest;
    forall i, j | 0 <= i < j < |r| ensures key(r[i]) >= key(r[j]) {
      assert r[j] == rest[j - 1];
      if i > 0 {
        assert r[i] == rest[i - 1];
      } else {
        assert rest[j - 1] in rest;
      }
    }
  }

  /** Inserting `x` behind the head of a descending list keeps every element at or below the head. */
  lemma InsertedBelowHead<T>(x: T, ys: seq<T>, rest: seq<T>, key: T -> real)
    requires NonIncreasing(ys, key) && ys != [] && key(x) < key(ys[0])
    requires multiset(rest) == multiset(ys[1..]) + multiset{x}
    ensures forall z | z in rest :: key(ys[0]) >= key(z)
  {
    HeadIsLargest(ys, key);
    forall z | z in rest ensures key(ys[0]) >= key(z) {
      assert z in multiset(rest);
      if z != x {
        assert z in multiset(ys[1..]);
        assert z in ys[1..];
        assert z in ys;
      }
    }
  }

  /**
   * Stable sort by descending key: an element that came first in `xs` stays ahead of a later
   * one with the same key, as Python's sort with `reverse=True` promises.
   */
  function SortDesc<T(==)>(xs: seq<T>, key: T -> real): (r: seq<T>)
    ensures multiset(r) == multiset(xs)
    ensures |r| == |xs|
    ensures NonIncreasing(r, key)
  {
    if xs == [] then []
    else
      assert xs == [xs[0]] + xs[1..];
      Insert(xs[0], SortDesc(xs[1..], key), key)
  }

  /** In a descending list, an element with a strictly larger key comes first. */
  lemma LargerKeyComesFirst<T>(xs: seq<T>, key: T -> real, i: nat, j: nat)
    requires NonIncreasing(xs, key)
    requires i < |xs| && j < |xs| && key(xs[i]) > key(xs[j])
    ensures i < j
  {
  }

  /**
   * Taking the first `k` (k >= 0) of a descending sort keeps the best: an element of `xs`
   * that was cut has a key no larger than any kept element, and then exactly `k` were kept.
   */
  lemma {:induction false} TopKeepsBest<T>(xs: seq<T>, key: T -> real, k: nat, x: T)
    requires x in xs && x !in Prefix(SortDesc(xs, key), k)
    ensures |Prefix(SortDesc(xs, key), k)| == k
    ensures forall y | y in Prefix(SortDesc(xs, key), k) :: key(y) >= key(x)
  {
    var s := SortDesc(xs, key);
    assert x in multiset(s);
    PrefixKeepsBest(s, key, k, x);
  }

  /** Cutting an ordered list to `k` drops an element only when `k` better-or-equal ones are kept. */
  lemma PrefixKeepsBest<T>(xs: seq<T>, key: T -> real, k: nat, x: T)
    requires NonIncreasing(xs, key)
    requires x in xs && x !in Prefix(xs, k)
    ensures |Prefix(xs, k)| == k
    ensures forall y | y in Prefix(xs, k) :: key(y) >= key(x)
  {
    var j :| 0 <= j < |xs| && xs[j] == x;
    assert j >= |Prefix(xs, k)|;
    forall y | y in Prefix(xs, k) ensures key(y) >= key(x) {
      var i :| 0 <= i < |Prefix(xs, k)| && Prefix(xs, k)[i] == y;
      assert xs[i] == y;
    }
  }

  /** A cut of an ordered list is ordered. */
  lemma PrefixOrdered<T>(xs: seq<T>, key: T -> real, k: int)
    requires NonIncreasing(xs, key)
    ensures NonIncreasing(Prefix(xs, k), key)
  {
    var p := Prefix(xs, k);
    forall i, j | 0 <= i < j < |p| ensures key(p[i]) >= key(p[j]) {
      assert p[i] == xs[i] && p[j] == xs[j];
    }
  }

  /** No element occurs twice. */
  ghost predicate Distinct<T>(xs: seq<T>) {
    forall i, j | 0 <= i < j < |xs| :: xs[i] != xs[j]
  }

  /** A list is free of repeats exactly when no element is counted twice in its multiset. */
  lemma {:induction false} DistinctIffSingleCounts<T>(xs: seq<T>)
    ensures Distinct(xs) <==> forall x | x in xs :: multiset(xs)[x] == 1
  {
    if xs != [] {
      DistinctIffSingleCounts(xs[1..]);
      assert xs == [xs[0]] + xs[1..];
      assert multiset(xs) == multiset{xs[0]} + multiset(xs[1..]);
      if Distinct(xs) {
        assert xs[0] !in xs[1..] by {
          forall j | 0 <= j < |xs[1..]| ensures xs[1..][j] != xs[0] {
            assert xs[1..][j] == xs[j + 1];
          }
        }
        assert Distinct(xs[1..]) by {
          forall i, j | 0 <= i < j < |xs[1..]| ensures xs[1..][i] != xs[1..][j] {
            assert xs[1..][i] == xs[i + 1] && xs[1..][j] == xs[j + 1];
          }
        }
      }
      if forall x | x in xs :: multiset(xs)[x] == 1 {
        assert multiset(xs)[xs[0]] == 1;
        assert xs[0] !in multiset(xs[1..]);
        forall x | x in xs[1..] ensures multiset(xs[1..])[x] == 1 {
          assert x in xs;
        }
        forall i, j | 0 <= i < j < |xs| ensures xs[i] != xs[j] {
          if i == 0 {
            assert xs[j] == xs[1..][j - 1];
          } else {
            assert xs[i] == xs[1..][i - 1] && xs[j] == xs[1..][j - 1];
          }
        }
      }
    }
  }

  /** Sorting does not introduce repeats. */
  lemma SortDescDistinct<T>(xs: seq<T>, key: T -> real)
    requires Distinct(xs)
    ensures Distinct(SortDesc(xs, key))
  {
    var s := SortDesc(xs, key);
    DistinctIffSingleCounts(xs);
    DistinctIffSingleCounts(s);
    forall x | x in s ensures multiset(s)[x] == 1 {
      assert x in multiset(s);
    }
  }

  /** Inserting under two keys that agree on every element involved gives the same list. */
  lemma {:induction false} InsertCongruent<T>(x: T, ys: seq<T>, f: T -> real, g: T -> real)
    requires NonIncreasing(ys, f) && NonIncreasing(ys, g)
    requires f(x) == g(x) && forall y | y in ys :: f(y) == g(y)
    ensures Insert(x, ys, f) == Insert(x, ys, g)
  {
    if ys != [] && f(x) < f(ys[0]) {
      assert forall y | y in ys[1..] :: y in ys;
      InsertCongruent(x, ys[1..], f, g);
    }
  }

  /** The sort depends only on the keys of the elements being sorted. */
  lemma {:induction false} SortDescCongruent<T>(xs: seq<T>, f: T -> real, g: T -> real)
    requires forall x | x in xs :: f(x) == g(x)
    ensures SortDesc(xs, f) == SortDesc(xs, g)
  {
    if xs != [] {
      assert forall x | x in xs[1..] :: x in xs;
      SortDescCongruent(xs[1..], f, g);
      var s := SortDesc(xs[1..], f);
      forall y | y in s ensures f(y) == g(y) {
        assert y in multiset(s);
      }
      assert NonIncreasing(s, g) by {
        forall i, j | 0 <= i < j < |s| ensures g(s[i]) >= g(s[j]) {
          assert s[i] in s && s[j] in s;
        }
      }
      InsertCongruent(xs[0], s, f, g);
    }
  }

  /** An element of the sorted list is an element of the input. */
  lemma SortDescMembers<T>(xs: seq<T>, key: T -> real)
    ensures forall x | x in SortDesc(xs, key) :: x in xs
  {
    var s := SortDesc(xs, key);
    forall x | x in s ensures x in xs {
      assert x in multiset(s);
    }
  }
}
