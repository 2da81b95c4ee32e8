/** The Kotlin collection operations the trade core relies on, over Dafny sequences:
    `filter`, `distinct`, and the stable `sortedBy`.
 */
module Sequences {

  /** `r` keeps some of the elements of `xs`, in their original order. */
  ghost predicate SubsequenceOf<T>(r: seq<T>, xs: seq<T>)
    decreases |xs|
  {
    if |r| == 0 then true
    else if |xs| == 0 then false
    else (r[0] == xs[0] && SubsequenceOf(r[1..], xs[1..])) || SubsequenceOf(r, xs[1..])
  }

  /** No element occurs twice. */
  ghost predicate NoDuplicates<T>(xs: seq<T>) {
    forall i, j :: 0 <= i < j < |xs| ==> xs[i] != xs[j]
  }

  /** Kotlin `filter`: the elements satisfying `p`, in order. */
  function Filter<T(!new)>(xs: seq<T>, p: T -> bool): (r: seq<T>)
    ensures |r| <= |xs|
    ensures forall x :: x in r <==> x in xs && p(x)
    ensures forall i :: 0 <= i < |r| ==> p(r[i])
    ensures SubsequenceOf(r, xs)
  {
    if |xs| == 0 then []
    else if p(xs[0]) then [xs[0]] + Filter(xs[1..], p)
    else Filter(xs[1..], p)
  }

  /** Filtering with two predicates that agree everywhere gives the same result. */
  lemma {:induction false} FilterExtensional<T(!new)>(xs: seq<T>, p: T -> bool, q: T -> bool)
    requires forall x :: p(x) == q(x)
    ensures Filter(xs, p) == Filter(xs, q)
  {
    if |xs| > 0 {
      FilterExtensional(xs[1..], p, q);
    }
  }

  /** Filtering twice is filtering once by the conjunction, the first predicate tested first. */
  lemma {:induction false} FilterFilter<T(!new)>(xs: seq<T>, p: T -> bool, q: T -> bool, pq: T -> bool)
    requires forall x :: pq(x) == (p(x) && q(x))
    ensures Filter(Filter(xs, p), q) == Filter(xs, pq)
  {
    if |xs| > 0 {
      FilterFilter(xs[1..], p, q, pq);
      if p(xs[0]) {
        assert Filter(xs, p) == [xs[0]] + Filter(xs[1..], p);
        assert Filter(xs, p)[1..] == Filter(xs[1..], p);
      }
    }
  }

  /** Filtering distributes over concatenation. */
  lemma {:induction false} FilterAppend<T(!new)>(xs: seq<T>, ys: seq<T>, p: T -> bool)
    ensures Filter(xs + ys, p) == Filter(xs, p) + Filter(ys, p)
  {
    if |xs| == 0 {
      assert xs + ys == ys;
    } else {
      assert (xs + ys)[1..] == xs[1..] + ys;
      FilterAppend(xs[1..], ys, p);
    }
  }

  /** Where `x` first occurs in `xs`. */
  function FirstIndex<T(==)>(xs: seq<T>, x: T): (i: nat)
    requires x in xs
    ensures i < |xs| && xs[i] == x && x !in xs[..i]
  {
    if xs[0] == x then 0 else 1 + FirstIndex(xs[1..], x)
  }

  /** Kotlin `distinct`, after the elements already in `seen`: first occurrences only, in order. */
  function DistinctFrom<T(==,!new)>(xs: seq<T>, seen: set<T>): (r: seq<T>)
    ensures forall x :: x in r <==> x in xs && x !in seen
    ensures NoDuplicates(r)
    ensures SubsequenceOf(r, xs)
    ensures forall i, j :: 0 <= i < j < |r| ==> FirstIndex(xs, r[i]) < FirstIndex(xs, r[j])
  {
    if |xs| == 0 then []
    else if xs[0] in seen then DistinctFrom(xs[1..], seen)
    else [xs[0]] + DistinctFrom(xs[1..], seen + {xs[0]})
  }

  /** Kotlin `distinct`: every element of `xs` once, at the place it first occurs. */
  function Distinct<T(==,!new)>(xs: seq<T>): (r: seq<T>)
    ensures forall x :: x in r <==> x in xs
    ensures NoDuplicates(r)
    ensures SubsequenceOf(r, xs)
    ensures forall i, j :: 0 <= i < j < |r| ==> FirstIndex(xs, r[i]) < FirstIndex(xs, r[j])
  {
    DistinctFrom(xs, {})
  }

  /** The keys of `xs` are in ascending order. */
  ghost predicate SortedBy<T>(xs: seq<T>, key: T -> real) {
    forall i, j :: 0 <= i < j < |xs| ==> key(xs[i]) <= key(xs[j])
  }

  /** Places `x` in front of the first element whose key is not below its own. */
  function InsertBy<T>(x: T, ys: seq<T>, key: T -> real): (r: seq<T>)
    ensures |r| == |ys| + 1
    ensures multiset(r) == multiset(ys) + multiset{x}
    ensures forall i :: 0 <= i < |r| ==> r[i] == x || r[i] in ys
  {
    if |ys| == 0 || key(x) <= key(ys[0]) then [x] + ys
    else
      assert ys == [ys[0]] + ys[1..];
      [ys[0]] + InsertBy(x, ys[1..], key)
  }

  /** Inserting into a sorted sequence keeps it sorted. */
  lemma {:induction false} InsertBySorted<T>(x: T, ys: seq<T>, key: T -> real)
    requires SortedBy(ys, key)
    ensures SortedBy(InsertBy(x, ys, key), key)
  {
    if |ys| > 0 && key(x) > key(ys[0]) {
      InsertBySorted(x, ys[1..], key);
      var rest := InsertBy(x, ys[1..], key);
      forall j | 0 <= j < |rest| ensures key(ys[0]) <= key(rest[j]) {
        if rest[j] != x {
          var k :| 0 <= k < |ys[1..]| && ys[1..][k] == rest[j];
          assert ys[k + 1] == rest[j];
        }
      }
    }
  }

  /** Kotlin `sortedBy`: a stable insertion sort, ascending by `key`. */
  function SortBy<T>(xs: seq<T>, key: T -> real): (r: seq<T>)
    ensures |r| == |xs|
    ensures multiset(r) == multiset(xs)
    ensures SortedBy(r, key)
  {
    if |xs| == 0 then []
    else
      assert xs == [xs[0]] + xs[1..];
      InsertBySorted(xs[0], SortBy(xs[1..], key), key);
      InsertBy(xs[0], SortBy(xs[1..], key), key)
  }

  /** The predicate "has key `v`". */
  function KeyIs<T>(key: T -> real, v: real): T -> bool {
    x => key(x) == v
  }

  /** Inserting `x` keeps it in front of every element of equal key. */
  lemma {:induction false} InsertByStable<T(!new)>(x: T, ys: seq<T>, key: T -> real, v: real)
    requires SortedBy(ys, key)
    ensures Filter(InsertBy(x, ys, key), KeyIs(key, v))
         == if key(x) == v then [x] + Filter(ys, KeyIs(key, v)) else Filter(ys, KeyIs(key, v))
  {
    var p := KeyIs(key, v);
    if |ys| == 0 || key(x) <= key(ys[0]) {
      assert InsertBy(x, ys, key) == [x] + ys;
      assert ([x] + ys)[1..] == ys;
    } else {
      assert InsertBy(x, ys, key) == [ys[0]] + InsertBy(x, ys[1..], key);
      InsertByStable(x, ys[1..], key, v);
      assert ([ys[0]] + InsertBy(x, ys[1..], key))[1..] == InsertBy(x, ys[1..], key);
      if key(x) == v && p(ys[0]) {
        assert false;
      }
    }
  }

  /** Stability: the elements sharing any one key keep their relative order. */
  lemma {:induction false} SortByStable<T(!new)>(xs: seq<T>, key: T -> real, v: real)
    ensures Filter(SortBy(xs, key), KeyIs(key, v)) == Filter(xs, KeyIs(key, v))
  {
    if |xs| > 0 {
      SortByStable(xs[1..], key, v);
      InsertByStable(xs[0], SortBy(xs[1..], key), key, v);
    }
  }

  /** No element is counted twice. */
  ghost predicate Single<T(!new)>(xs: seq<T>) {
    forall x :: multiset(xs)[x] <= 1
  }

  /** An element equal at two positions is counted twice. */
  lemma CountedTwice<T>(xs: seq<T>, i: int, j: int)
    requires 0 <= i < j < |xs| && xs[i] == xs[j]
    ensures multiset(xs)[xs[i]] >= 2
  {
    assert xs == xs[..j] + xs[j..];
    assert xs[i] in xs[..j] && xs[j..][0] == xs[j];
  }

  /** An element counted twice occurs at two positions. */
  lemma TwoPositions<T>(xs: seq<T>, x: T) returns (i: int, j: int)
    requires multiset(xs)[x] >= 2
    ensures 0 <= i < j < |xs| && xs[i] == x && xs[j] == x
  {
    var k :| 0 <= k < |xs| && xs[k] == x;
    assert xs == xs[..k] + [x] + xs[k + 1..];
    assert x in multiset(xs[..k] + xs[k + 1..]);
    if x in xs[..k] {
      i :| 0 <= i < k && xs[i] == x;
      j := k;
    } else {
      var m :| 0 <= m < |xs[k + 1..]| && xs[k + 1..][m] == x;
      i, j := k, k + 1 + m;
    }
  }

  /** Having no duplicates is having every element counted at most once, so it carries over
      to every permutation. */
  lemma NoDuplicatesIffSingle<T(!new)>(xs: seq<T>)
    ensures NoDuplicates(xs) <==> Single(xs)
  {
    if NoDuplicates(xs) && !Single(xs) {
      var x :| multiset(xs)[x] > 1;
      var i, j := TwoPositions(xs, x);
    }
    if Single(xs) && !NoDuplicates(xs) {
      var i, j :| 0 <= i < j < |xs| && xs[i] == xs[j];
      CountedTwice(xs, i, j);
    }
  }

  /** Filtering counts every element at most as often as before. */
  lemma {:induction false} FilterCounts<T(!new)>(xs: seq<T>, p: T -> bool)
    ensures multiset(Filter(xs, p)) <= multiset(xs)
  {
    if |xs| > 0 {
      FilterCounts(xs[1..], p);
      assert xs == [xs[0]] + xs[1..];
    }
  }

  /** Filtering a sequence without duplicates leaves one without duplicates. */
  lemma FilterNoDuplicates<T(!new)>(xs: seq<T>, p: T -> bool)
    requires NoDuplicates(xs)
    ensures NoDuplicates(Filter(xs, p))
  {
    NoDuplicatesIffSingle(xs);
    FilterCounts(xs, p);
    NoDuplicatesIffSingle(Filter(xs, p));
  }
}
