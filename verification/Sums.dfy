/** Sums over sequences, whatever their order. */
module Sums {

  function SumBy<T>(f: T -> real, s: seq<T>): real {
    if s == [] then 0.0 else SumBy(f, s[..|s| - 1]) + f(s[|s| - 1])
  }

  lemma SumSnoc<T>(f: T -> real, s: seq<T>, x: T)
    ensures SumBy(f, s + [x]) == SumBy(f, s) + f(x)
  {
    assert (s + [x])[..|s|] == s;
  }

  lemma {:induction false} SumJoin<T>(f: T -> real, a: seq<T>, b: seq<T>)
    ensures SumBy(f, a + b) == SumBy(f, a) + SumBy(f, b)
  {
    if b == [] {
      assert a + b == a;
    } else {
      assert (a + b)[..|a + b| - 1] == a + b[..|b| - 1];
      SumJoin(f, a, b[..|b| - 1]);
    }
  }

  /** Take one item off the end of one ordering and out of the middle of another. */
  lemma SplitPermutation<T>(a: seq<T>, b: seq<T>) returns (front: seq<T>, x: T, before: seq<T>, after: seq<T>)
    requires multiset(a) == multiset(b) && a != []
    ensures a == front + [x] && b == (before + [x]) + after
    ensures multiset(front) == multiset(before + after)
  {
    front, x := a[..|a| - 1], a[|a| - 1];
    assert a == front + [x];
    assert x in multiset(b);
    var k :| 0 <= k < |b| && b[k] == x;
    before, after := b[..k], b[k + 1..];
    assert b == (before + [x]) + after;
    assert multiset(front) == multiset(a) - multiset{x};
    assert multiset(before + after) == multiset(b) - multiset{x};
  }

  lemma NothingPermuted<T>(a: seq<T>, b: seq<T>)
    requires multiset(a) == multiset(b)
    ensures |a| == |b|
  {
    assert |multiset(a)| == |a| && |multiset(b)| == |b|;
  }

  lemma {:induction false} SumPermuted<T>(f: T -> real, a: seq<T>, b: seq<T>)
    requires multiset(a) == multiset(b)
    ensures SumBy(f, a) == SumBy(f, b)
    decreases |a|
  {
    NothingPermuted(a, b);
    if a != [] {
      var front, x, before, after := SplitPermutation(a, b);
      SumPermuted(f, front, before + after);
      SumJoin(f, before, after);
      SumSnoc(f, before, x);
      SumSnoc(f, front, x);
      SumJoin(f, before + [x], after);
    }
  }

  function Map<T, U>(f: T -> U, s: seq<T>): (r: seq<U>)
    ensures |r| == |s| && forall i :: 0 <= i < |s| ==> r[i] == f(s[i])
  {
    seq(|s|, i requires 0 <= i < |s| => f(s[i]))
  }

  lemma MapJoin<T, U>(f: T -> U, a: seq<T>, b: seq<T>)
    ensures Map(f, a + b) == Map(f, a) + Map(f, b)
  {
  }

  /** A permutation of the items is a permutation of their images. */
  lemma {:induction false} MapPermuted<T, U>(f: T -> U, a: seq<T>, b: seq<T>)
    requires multiset(a) == multiset(b)
    ensures multiset(Map(f, a)) == multiset(Map(f, b))
    decreases |a|
  {
    NothingPermuted(a, b);
    if a != [] {
      var front, x, before, after := SplitPermutation(a, b);
      assert multiset(Map(f, front)) == multiset(Map(f, before + after)) by { MapPermuted(f, front, before + after); }
      MapWithOne(f, front, x, []);
      MapWithOne(f, before, x, after);
      assert front + [] == front && front + [x] + [] == a;
    }
  }

  lemma MapWithOne<T, U>(f: T -> U, before: seq<T>, x: T, after: seq<T>)
    ensures multiset(Map(f, before + [x] + after)) == multiset(Map(f, before + after)) + multiset{f(x)}
  {
    hide Map;
    MapJoin(f, before, after);
    MapJoin(f, before, [x]);
    MapJoin(f, before + [x], after);
    assert Map(f, [x]) == [f(x)];
  }
}
