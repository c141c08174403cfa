/** Optional values, as Python's `None`-or-value results. */
module Wrappers {
  datatype Option<T> = None | Some(value: T)
}

/** The two list idioms the driver is built from: an early-return loop that
    stops at the first element satisfying a test, and a list comprehension
    (or an append loop) that keeps the elements satisfying a test. */
module Search {

  /** The index of the first element of `xs` satisfying `p`, or `|xs|`. */
  function First<T>(xs: seq<T>, p: T -> bool): (k: nat)
    ensures k <= |xs|
    ensures k < |xs| ==> p(xs[k])
    ensures forall j :: 0 <= j < k ==> !p(xs[j])
  {
    if xs == [] then 0 else if p(xs[0]) then 0 else 1 + First(xs[1..], p)
  }

  /** `a` is `b` with some elements left out, the rest in the same order. */
  predicate IsSubsequence<T(==)>(a: seq<T>, b: seq<T>)
    decreases |b|
  {
    if a == [] then true
    else if b == [] then false
    else if a[0] == b[0] then IsSubsequence(a[1..], b[1..])
    else IsSubsequence(a, b[1..])
  }

  /** `[x for x in xs if p(x)]` */
  function Filter<T(==)>(xs: seq<T>, p: T -> bool): (r: seq<T>)
    ensures |r| <= |xs|
  {
    if xs == [] then []
    else if p(xs[0]) then [xs[0]] + Filter(xs[1..], p)
    else Filter(xs[1..], p)
  }

  /** Everything kept comes from the list and passes the test. */
  lemma {:induction false} FilterSound<T>(xs: seq<T>, p: T -> bool)
    ensures forall i :: 0 <= i < |Filter(xs, p)| ==> Filter(xs, p)[i] in xs && p(Filter(xs, p)[i])
  {
    if xs != [] {
      FilterSound(xs[1..], p);
      var r := Filter(xs, p);
      forall i | 0 <= i < |r|
        ensures r[i] in xs && p(r[i])
      {
        if (p(xs[0]) && i > 0) || !p(xs[0]) {
          var t := if p(xs[0]) then i - 1 else i;
          assert r[i] == Filter(xs[1..], p)[t];
          var j :| 0 <= j < |xs[1..]| && xs[1..][j] == r[i];
          assert xs[j + 1] == r[i];
        }
      }
    }
  }

  /** Everything in the list that passes the test is kept. */
  lemma {:induction false} FilterComplete<T>(xs: seq<T>, p: T -> bool)
    ensures forall i :: 0 <= i < |xs| && p(xs[i]) ==> xs[i] in Filter(xs, p)
  {
    if xs != [] {
      FilterComplete(xs[1..], p);
      forall i | 0 <= i < |xs| && p(xs[i])
        ensures xs[i] in Filter(xs, p)
      {
        if i > 0 {
          assert xs[i] == xs[1..][i - 1];
        }
      }
    }
  }

  /** What is kept stays in the order of the list. */
  lemma {:induction false} FilterSubsequence<T>(xs: seq<T>, p: T -> bool)
    ensures IsSubsequence(Filter(xs, p), xs)
  {
    if xs != [] {
      FilterSubsequence(xs[1..], p);
      var r := Filter(xs, p);
      if p(xs[0]) {
        assert r[0] == xs[0] && r[1..] == Filter(xs[1..], p);
      } else if r != [] {
        SkipHead(r, xs);
      }
    }
  }

  /** Every list is a subsequence of itself. */
  lemma {:induction false} SubsequenceOfSelf<T>(a: seq<T>)
    ensures IsSubsequence(a, a)
    decreases |a|
  {
    if a != [] {
      SubsequenceOfSelf(a[1..]);
    }
  }

  /** A subsequence of the tail is a subsequence of the whole. */
  lemma {:induction false} SkipHead<T>(a: seq<T>, b: seq<T>)
    requires a != [] && b != [] && IsSubsequence(a, b[1..])
    ensures IsSubsequence(a, b)
    decreases |b|, 0
  {
    if a[0] == b[0] {
      SubsequenceTail(a, b[1..]);
    }
  }

  /** Dropping the head of a subsequence keeps it a subsequence. */
  lemma {:induction false} SubsequenceTail<T>(a: seq<T>, b: seq<T>)
    requires a != [] && IsSubsequence(a, b)
    ensures IsSubsequence(a[1..], b)
    decreases |b|, 1
  {
    assert b != [];
    if a[0] == b[0] {
      if a[1..] != [] {
        SkipHead(a[1..], b);
      }
    } else {
      SubsequenceTail(a, b[1..]);
      if a[1..] != [] {
        SkipHead(a[1..], b);
      }
    }
  }

  /** One step of a filter over the suffix that starts at `k`. */
  lemma FilterStep<T>(xs: seq<T>, p: T -> bool, k: nat)
    requires k < |xs|
    ensures Filter(xs[k..], p) == (if p(xs[k]) then [xs[k]] else []) + Filter(xs[k + 1..], p)
  {
    assert xs[k..][0] == xs[k] && xs[k..][1..] == xs[k + 1..];
  }
}
