/** In-order subsequences and filters. */
module Subsequence {
  function Front<T>(s: seq<T>): seq<T> requires s != [] { s[..|s| - 1] }

  function Last<T>(s: seq<T>): T requires s != [] { s[|s| - 1] }

  /** `a` is obtained from `b` by leaving elements out. */
  predicate Subseq<T(==)>(a: seq<T>, b: seq<T>)
    decreases |b|
  {
    || a == []
    || (b != [] && ((Last(a) == Last(b) && Subseq(Front(a), Front(b))) || Subseq(a, Front(b))))
  }

  function Filter<T>(s: seq<T>, p: T -> bool): seq<T> {
    if s == [] then [] else Filter(Front(s), p) + (if p(Last(s)) then [Last(s)] else [])
  }

  lemma SubseqExtend<T>(a: seq<T>, b: seq<T>, x: T)
    requires Subseq(a, b)
    ensures Subseq(a + [x], b + [x]) && Subseq(a, b + [x])
  {
    assert Front(a + [x]) == a && Front(b + [x]) == b;
  }

  /** Leaving out one more element. */
  lemma {:induction false} SubseqDrop<T>(a: seq<T>, b: seq<T>, i: nat)
    requires Subseq(a, b) && i < |a|
    ensures Subseq(a[..i] + a[i + 1..], b)
    decreases |b|
  {
    var d := a[..i] + a[i + 1..];
    if Last(a) == Last(b) && Subseq(Front(a), Front(b)) {
      if i == |a| - 1 {
        assert d == Front(a);
      } else {
        SubseqDrop(Front(a), Front(b), i);
        assert Front(d) == Front(a)[..i] + Front(a)[i + 1..] && Last(d) == Last(a);
      }
    } else {
      SubseqDrop(a, Front(b), i);
    }
  }

  lemma {:induction false} SubseqPrefix<T>(a: seq<T>, b: seq<T>, k: nat)
    requires Subseq(a, b) && k <= |a|
    ensures Subseq(a[..k], b)
    decreases |a|
  {
    if k < |a| {
      SubseqDrop(a, b, |a| - 1);
      assert a[..|a| - 1] + a[|a|..] == Front(a);
      SubseqPrefix(Front(a), b, k);
      assert Front(a)[..k] == a[..k];
    } else {
      assert a[..k] == a;
    }
  }

  lemma {:induction false} SubseqLength<T>(a: seq<T>, b: seq<T>)
    requires Subseq(a, b)
    ensures |a| <= |b| && (|a| == |b| ==> a == b)
    decreases |b|
  {
    if a != [] {
      if Last(a) == Last(b) && Subseq(Front(a), Front(b)) {
        SubseqLength(Front(a), Front(b));
        assert a == Front(a) + [Last(a)] && b == Front(b) + [Last(b)];
      } else {
        SubseqLength(a, Front(b));
      }
    }
  }

  lemma {:induction false} SubseqFilter<T>(a: seq<T>, b: seq<T>, p: T -> bool)
    requires Subseq(a, b)
    ensures Subseq(Filter(a, p), Filter(b, p))
    decreases |b|
  {
    if a != [] {
      if Last(a) == Last(b) && Subseq(Front(a), Front(b)) {
        SubseqFilter(Front(a), Front(b), p);
        SubseqExtend(Filter(Front(a), p), Filter(Front(b), p), Last(a));
      } else {
        SubseqFilter(a, Front(b), p);
        SubseqExtend(Filter(a, p), Filter(Front(b), p), Last(b));
      }
      FilterLast(a, p);
      FilterLast(b, p);
    }
  }

  lemma FilterLast<T>(s: seq<T>, p: T -> bool)
    ensures s != [] && p(Last(s)) ==> Filter(s, p) == Filter(Front(s), p) + [Last(s)]
    ensures s != [] && !p(Last(s)) ==> Filter(s, p) == Filter(Front(s), p)
  {
  }

  lemma {:induction false} FilterConcat<T>(a: seq<T>, b: seq<T>, p: T -> bool)
    ensures Filter(a + b, p) == Filter(a, p) + Filter(b, p)
    decreases |b|
  {
    if b == [] {
      assert a + b == a;
    } else {
      FilterConcat(a, Front(b), p);
      assert Front(a + b) == a + Front(b);
    }
  }

  /** A stricter filter makes a laxer one before it superfluous. */
  lemma {:induction false} FilterTwice<T(!new)>(s: seq<T>, p: T -> bool, q: T -> bool)
    requires forall x :: p(x) ==> q(x)
    ensures Filter(Filter(s, q), p) == Filter(s, p)
  {
    if s != [] {
      FilterTwice(Front(s), p, q);
      if q(Last(s)) {
        var f := Filter(Front(s), q);
        FilterConcat(f, [Last(s)], p);
        FilterLast([Last(s)], p);
      }
      FilterLast(s, q);
      FilterLast(s, p);
    }
  }

  lemma {:induction false} FilterAll<T>(s: seq<T>, p: T -> bool)
    requires forall x :: x in s ==> p(x)
    ensures Filter(s, p) == s
  {
    if s != [] { FilterAll(Front(s), p); }
  }

  lemma {:induction false} FilterNone<T>(s: seq<T>, p: T -> bool)
    requires forall x :: x in s ==> !p(x)
    ensures Filter(s, p) == []
  {
    if s != [] { FilterNone(Front(s), p); }
  }

  /** Exactly the elements that pass. */
  lemma {:induction false} FilterIn<T>(s: seq<T>, p: T -> bool, x: T)
    ensures x in Filter(s, p) <==> x in s && p(x)
  {
    if s != [] {
      FilterIn(Front(s), p, x);
      assert s == Front(s) + [Last(s)];
    }
  }

  /** On the same sequence two filters agree exactly when their tests agree on its elements. */
  lemma {:induction false} FilterAgree<T>(s: seq<T>, p: T -> bool, q: T -> bool)
    ensures Filter(s, p) == Filter(s, q) <==> forall x :: x in s ==> p(x) == q(x)
  {
    if forall x :: x in s ==> p(x) == q(x) {
      FilterSame(s, p, q);
    } else {
      var x :| x in s && p(x) != q(x);
      FilterIn(s, p, x);
      FilterIn(s, q, x);
    }
  }

  lemma {:induction false} FilterSame<T>(s: seq<T>, p: T -> bool, q: T -> bool)
    requires forall x :: x in s ==> p(x) == q(x)
    ensures Filter(s, p) == Filter(s, q)
  {
    if s != [] { FilterSame(Front(s), p, q); }
  }

  /** Two filters in a row are one. */
  lemma {:induction false} FilterBoth<T>(s: seq<T>, p: T -> bool, q: T -> bool, both: T -> bool)
    requires forall x :: x in s ==> both(x) == (p(x) && q(x))
    ensures Filter(Filter(s, p), q) == Filter(s, both)
  {
    if s != [] {
      FilterBoth(Front(s), p, q, both);
      FilterLast(s, p);
      FilterLast(s, both);
      if p(Last(s)) {
        var f := Filter(Front(s), p);
        FilterConcat(f, [Last(s)], q);
        FilterLast([Last(s)], q);
      }
    }
  }
}
