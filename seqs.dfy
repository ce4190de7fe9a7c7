/** Order-preserving selection over sequences: the `Array.prototype.filter`
    that every list view of the application is built from. The predicate is
    a named two-argument function and its second argument (the search term,
    the status set, ...) is passed alongside, so that two filters with the
    same criterion are the same term. */
module Seqs {

  /** `a` is `b` with some elements dropped, the rest kept in order. */
  ghost predicate IsSubsequence<T>(a: seq<T>, b: seq<T>)
    decreases |b|
  {
    a == [] || (b != [] && ((a[0] == b[0] && IsSubsequence(a[1..], b[1..])) || IsSubsequence(a, b[1..])))
  }

  /** Keeps every occurrence of each element the criterion accepts, as
      often as it occurs, drops every other, and keeps the order. */
  function Filter<T(!new), K>(s: seq<T>, p: (T, K) -> bool, k: K): (r: seq<T>)
    ensures |r| <= |s|
    ensures forall x :: x in r <==> x in s && p(x, k)
    ensures forall x :: multiset(r)[x] == if p(x, k) then multiset(s)[x] else 0
    ensures IsSubsequence(r, s)
    decreases |s|
  {
    if s == [] then []
    else
      assert s == [s[0]] + s[1..];
      if p(s[0], k) then [s[0]] + Filter(s[1..], p, k)
      else Filter(s[1..], p, k)
  }

  /** A filter whose criterion holds of every element keeps the sequence. */
  lemma {:induction false} FilterKeepsAll<T(!new), K>(s: seq<T>, p: (T, K) -> bool, k: K)
    requires forall i :: 0 <= i < |s| ==> p(s[i], k)
    ensures Filter(s, p, k) == s
    decreases |s|
  {
    if s != [] {
      FilterKeepsAll(s[1..], p, k);
    }
  }

  /** Two criteria that agree on every element filter alike. */
  lemma {:induction false} FilterSameVerdicts<T(!new), K>(s: seq<T>, p: (T, K) -> bool, k1: K, k2: K)
    requires forall i :: 0 <= i < |s| ==> (p(s[i], k1) <==> p(s[i], k2))
    ensures Filter(s, p, k1) == Filter(s, p, k2)
    decreases |s|
  {
    if s != [] {
      FilterSameVerdicts(s[1..], p, k1, k2);
    }
  }

  /** A filter whose criterion holds of no element yields nothing. */
  lemma {:induction false} FilterDropsAll<T(!new), K>(s: seq<T>, p: (T, K) -> bool, k: K)
    requires forall i :: 0 <= i < |s| ==> !p(s[i], k)
    ensures Filter(s, p, k) == []
    decreases |s|
  {
    if s != [] {
      FilterDropsAll(s[1..], p, k);
    }
  }

  /** When criterion `k` holds exactly when one of the two exclusive criteria
      `k1`, `k2` holds, the filter by `k` is as long as the other two together. */
  lemma {:induction false} FilterSplitLength<T(!new), K>(s: seq<T>, p: (T, K) -> bool, k: K, k1: K, k2: K)
    requires forall i :: 0 <= i < |s| ==> (p(s[i], k) <==> p(s[i], k1) || p(s[i], k2))
    requires forall i :: 0 <= i < |s| ==> !(p(s[i], k1) && p(s[i], k2))
    ensures |Filter(s, p, k)| == |Filter(s, p, k1)| + |Filter(s, p, k2)|
    decreases |s|
  {
    if s != [] {
      FilterSplitLength(s[1..], p, k, k1, k2);
    }
  }

  lemma {:induction false} SubsequenceOfItself<T>(s: seq<T>)
    ensures IsSubsequence(s, s)
    decreases |s|
  {
    if s != [] {
      SubsequenceOfItself(s[1..]);
    }
  }

  /** Dropping elements twice is dropping elements once. */
  lemma {:induction false} SubsequenceTransitive<T>(a: seq<T>, b: seq<T>, c: seq<T>)
    requires IsSubsequence(a, b) && IsSubsequence(b, c)
    ensures IsSubsequence(a, c)
    decreases |c|
  {
    if a != [] {
      if IsSubsequence(b, c[1..]) {
        SubsequenceTransitive(a, b, c[1..]);
      } else if a[0] == b[0] && IsSubsequence(a[1..], b[1..]) {
        SubsequenceTransitive(a[1..], b[1..], c[1..]);
      } else {
        SubsequenceTransitive(a, b[1..], c[1..]);
      }
    }
  }

  /** The terms f(x) of `s` added up from zero, over exact reals, where the
      order of the additions does not matter. */
  function Sum<T>(s: seq<T>, f: T -> real): real
    decreases |s|
  {
    if s == [] then 0.0 else f(s[0]) + Sum(s[1..], f)
  }

  /** n copies of x added up: the product n * x, spelled out additively. */
  function Times(n: nat, x: real): real
  {
    if n == 0 then 0.0 else x + Times(n - 1, x)
  }

  lemma {:induction false} TimesIsProduct(n: nat, x: real)
    ensures Times(n, x) == n as real * x
  {
    if n > 0 {
      TimesIsProduct(n - 1, x);
    }
  }

  /** The sum of n terms each between lo and hi lies between n copies of lo
      and n copies of hi. */
  lemma {:induction false} SumBounds<T>(s: seq<T>, f: T -> real, lo: real, hi: real)
    requires forall i :: 0 <= i < |s| ==> lo <= f(s[i]) <= hi
    ensures Times(|s|, lo) <= Sum(s, f) <= Times(|s|, hi)
    decreases |s|
  {
    if s != [] {
      SumBounds(s[1..], f, lo, hi);
    }
  }

  lemma {:induction false} SumNonNegative<T>(s: seq<T>, f: T -> real)
    requires forall i :: 0 <= i < |s| ==> f(s[i]) >= 0.0
    ensures Sum(s, f) >= 0.0
    decreases |s|
  {
    if s != [] {
      SumNonNegative(s[1..], f);
    }
  }

  /** With non-negative terms, a subsequence never sums to more. */
  lemma {:induction false} SumOfSubsequence<T>(a: seq<T>, b: seq<T>, f: T -> real)
    requires IsSubsequence(a, b)
    requires forall i :: 0 <= i < |b| ==> f(b[i]) >= 0.0
    ensures Sum(a, f) <= Sum(b, f)
    decreases |b|
  {
    if a == [] {
      SumNonNegative(b, f);
    } else if a[0] == b[0] && IsSubsequence(a[1..], b[1..]) {
      SumOfSubsequence(a[1..], b[1..], f);
    } else {
      SumOfSubsequence(a, b[1..], f);
    }
  }
}
