/** Texts in code-point order, pairs of texts, and stable sorting by such a pair. */
module Ordering {

  type Key = (string, string)

  predicate TextLess(a: string, b: string) {
    b != "" && (a == "" || a[0] < b[0] || (a[0] == b[0] && TextLess(a[1..], b[1..])))
  }

  predicate Before(a: Key, b: Key) { TextLess(a.0, b.0) || (a.0 == b.0 && TextLess(a.1, b.1)) }

  lemma {:induction false} TextIsOrdered(a: string, b: string)
    ensures TextLess(a, b) ==> a != b && !TextLess(b, a)
    ensures a == b || TextLess(a, b) || TextLess(b, a)
  {
    if a != "" && b != "" {
      TextIsOrdered(a[1..], b[1..]);
      assert a == [a[0]] + a[1..] && b == [b[0]] + b[1..];
    }
  }

  lemma {:induction false} TextIsTransitive(a: string, b: string, c: string)
    requires TextLess(a, b) && TextLess(b, c)
    ensures TextLess(a, c)
  {
    if a != "" && a[0] == b[0] && b[0] == c[0] { TextIsTransitive(a[1..], b[1..], c[1..]); }
  }

  /** One text is before another when it ends, or has the smaller character, where they first part. */
  lemma {:induction false} LessExactly(a: string, b: string)
    ensures TextLess(a, b) <==>
              exists k: nat :: k <= |a| && k < |b| && a[..k] == b[..k] && (k == |a| || a[k] < b[k])
  {
    if TextLess(a, b) {
      if a == "" || a[0] < b[0] {
        assert a[..0] == b[..0];
      } else {
        LessExactly(a[1..], b[1..]);
        var k: nat :| k <= |a[1..]| && k < |b[1..]| && a[1..][..k] == b[1..][..k]
          && (k == |a[1..]| || a[1..][k] < b[1..][k]);
        assert a[..k + 1] == [a[0]] + a[1..][..k] && b[..k + 1] == [b[0]] + b[1..][..k];
      }
    }
    if k: nat :| k <= |a| && k < |b| && a[..k] == b[..k] && (k == |a| || a[k] < b[k]) {
      if k > 0 {
        assert a[0] == a[..k][0] == b[..k][0] == b[0];
        assert a[1..][..k - 1] == a[..k][1..] == b[..k][1..] == b[1..][..k - 1];
        LessExactly(a[1..], b[1..]);
      }
    }
  }

  /** Any two different keys are ordered one way and not the other. */
  lemma KeysAreOrdered(a: Key, b: Key)
    ensures Before(a, b) ==> a != b && !Before(b, a)
    ensures a == b || Before(a, b) || Before(b, a)
  {
    TextIsOrdered(a.0, b.0);
    TextIsOrdered(a.1, b.1);
  }

  lemma KeysAreTransitive(a: Key, b: Key, c: Key)
    requires Before(a, b) && Before(b, c)
    ensures Before(a, c)
  {
    if TextLess(a.0, b.0) && TextLess(b.0, c.0) { TextIsTransitive(a.0, b.0, c.0); }
    if TextLess(a.1, b.1) && TextLess(b.1, c.1) { TextIsTransitive(a.1, b.1, c.1); }
  }

  ghost predicate Sorted<T>(key: T -> Key, s: seq<T>) {
    forall i, j :: 0 <= i < j < |s| ==> Before(key(s[i]), key(s[j]))
  }

  ghost predicate DistinctKeys<T, K>(key: T -> K, s: seq<T>) {
    forall i, j :: 0 <= i < j < |s| ==> key(s[i]) != key(s[j])
  }

  function Insert<T>(key: T -> Key, x: T, s: seq<T>): seq<T> {
    if s == [] || Before(key(x), key(s[0])) then [x] + s else [s[0]] + Insert(key, x, s[1..])
  }

  function Sort<T>(key: T -> Key, s: seq<T>): seq<T> {
    if s == [] then [] else Insert(key, s[|s| - 1], Sort(key, s[..|s| - 1]))
  }

  ghost predicate AfterAll<T>(key: T -> Key, k: Key, s: seq<T>) {
    forall i :: 0 <= i < |s| ==> Before(k, key(s[i]))
  }

  lemma SortedCons<T>(key: T -> Key, x: T, s: seq<T>)
    requires Sorted(key, s) && AfterAll(key, key(x), s)
    ensures Sorted(key, [x] + s)
  {
    hide Before;
  }

  lemma SortedTail<T>(key: T -> Key, s: seq<T>)
    requires Sorted(key, s) && s != []
    ensures Sorted(key, s[1..]) && AfterAll(key, key(s[0]), s[1..])
  {
    hide Before;
  }

  lemma AfterAllLater<T>(key: T -> Key, j: Key, k: Key, s: seq<T>)
    requires Before(j, k) && AfterAll(key, k, s)
    ensures AfterAll(key, j, s)
  {
    forall i | 0 <= i < |s| ensures Before(j, key(s[i])) { KeysAreTransitive(j, k, key(s[i])); }
  }

  /** Inserting a new key keeps the order and adds just that item. */
  lemma {:induction false} InsertKeepsSorted<T>(key: T -> Key, x: T, s: seq<T>)
    requires Sorted(key, s) && forall i :: 0 <= i < |s| ==> key(s[i]) != key(x)
    ensures Sorted(key, Insert(key, x, s))
    ensures forall k :: AfterAll(key, k, s) && Before(k, key(x)) ==> AfterAll(key, k, Insert(key, x, s))
  {
    hide Before;
    if s != [] {
      KeysAreOrdered(key(x), key(s[0]));
      SortedTail(key, s);
      if Before(key(x), key(s[0])) {
        AfterAllLater(key, key(x), key(s[0]), s[1..]);
        assert s == [s[0]] + s[1..];
        SortedCons(key, x, s);
      } else {
        InsertKeepsSorted(key, x, s[1..]);
        SortedCons(key, s[0], Insert(key, x, s[1..]));
      }
    }
  }

  lemma {:induction false} InsertAdds<T>(key: T -> Key, x: T, s: seq<T>)
    ensures multiset(Insert(key, x, s)) == multiset(s) + multiset{x}
  {
    if s != [] && !Before(key(x), key(s[0])) {
      InsertAdds(key, x, s[1..]);
      assert s == [s[0]] + s[1..];
    }
  }

  lemma {:induction false} SortPermutes<T>(key: T -> Key, s: seq<T>)
    ensures multiset(Sort(key, s)) == multiset(s)
  {
    if s != [] {
      SortPermutes(key, s[..|s| - 1]);
      InsertAdds(key, s[|s| - 1], Sort(key, s[..|s| - 1]));
      assert s == s[..|s| - 1] + [s[|s| - 1]];
    }
  }

  lemma {:induction false} SortSorts<T>(key: T -> Key, s: seq<T>)
    requires DistinctKeys(key, s)
    ensures Sorted(key, Sort(key, s))
  {
    if s != [] {
      var front, x := s[..|s| - 1], s[|s| - 1];
      SortSorts(key, front);
      SortPermutes(key, front);
      var sorted := Sort(key, front);
      forall i | 0 <= i < |sorted| ensures key(sorted[i]) != key(x) {
        assert sorted[i] in multiset(sorted);
        var j :| 0 <= j < |front| && front[j] == sorted[i];
      }
      InsertKeepsSorted(key, x, sorted);
    }
  }

  lemma LastIsLast<T>(key: T -> Key, a: seq<T>, b: seq<T>)
    requires Sorted(key, a) && Sorted(key, b) && a != [] && b != []
    requires a[|a| - 1] in b && b[|b| - 1] in a
    ensures a[|a| - 1] == b[|b| - 1]
  {
    hide Before;
    var x, y := a[|a| - 1], b[|b| - 1];
    var i :| 0 <= i < |b| && b[i] == x;
    var j :| 0 <= j < |a| && a[j] == y;
    KeysAreOrdered(key(x), key(y));
  }

  lemma LastIsAlone<T>(key: T -> Key, a: seq<T>, x: T)
    requires Sorted(key, a) && a != []
    ensures x in a[..|a| - 1] <==> x in a && x != a[|a| - 1]
  {
    hide Before;
    var last := a[|a| - 1];
    KeysAreOrdered(key(last), key(last));
    assert a == a[..|a| - 1] + [last];
  }

  /** A sorted sequence is determined by its items. */
  lemma {:induction false} SortedIsUnique<T>(key: T -> Key, a: seq<T>, b: seq<T>)
    requires Sorted(key, a) && Sorted(key, b) && forall x :: x in a <==> x in b
    ensures a == b
  {
    assert (a != [] ==> a[0] in b) && (b != [] ==> b[0] in a);
    if a != [] && b != [] {
      LastIsLast(key, a, b);
      var front, other := a[..|a| - 1], b[..|b| - 1];
      forall x ensures x in front <==> x in other {
        LastIsAlone(key, a, x);
        LastIsAlone(key, b, x);
      }
      SortedIsUnique(key, front, other);
      assert a == front + [a[|a| - 1]] && b == other + [b[|b| - 1]];
    }
  }

  /** Sorting by distinct keys forgets the order of the input. */
  lemma SortIgnoresOrder<T>(key: T -> Key, a: seq<T>, b: seq<T>)
    requires multiset(a) == multiset(b) && DistinctKeys(key, a) && DistinctKeys(key, b)
    ensures Sort(key, a) == Sort(key, b)
  {
    SortSorts(key, a);
    SortSorts(key, b);
    SortPermutes(key, a);
    SortPermutes(key, b);
    forall x ensures x in Sort(key, a) <==> x in Sort(key, b) {
      assert x in Sort(key, a) <==> x in multiset(Sort(key, a));
      assert x in Sort(key, b) <==> x in multiset(Sort(key, b));
    }
    SortedIsUnique(key, Sort(key, a), Sort(key, b));
  }

  // ---------- distinct keys ----------

  function Image<T, K>(key: T -> K, s: seq<T>): set<K> { set i | 0 <= i < |s| :: key(s[i]) }

  lemma ImageSnoc<T, K>(key: T -> K, s: seq<T>, x: T)
    ensures Image(key, s + [x]) == Image(key, s) + {key(x)}
  {
    var all := s + [x];
    assert key(all[|s|]) == key(x);
    forall k | k in Image(key, s) ensures k in Image(key, all) {
      var i :| 0 <= i < |s| && key(s[i]) == k;
      assert key(all[i]) == k;
    }
  }

  /** Keys are distinct exactly when there are as many of them as items. */
  lemma {:induction false} ImageSize<T, K>(key: T -> K, s: seq<T>)
    ensures |Image(key, s)| <= |s|
    ensures |Image(key, s)| == |s| <==> DistinctKeys(key, s)
  {
    if s == [] {
      assert Image(key, s) == {};
    } else {
      var front, x := s[..|s| - 1], s[|s| - 1];
      ImageSize(key, front);
      ImageSnoc(key, front, x);
      assert s == front + [x];
      if key(x) in Image(key, front) {
        var i :| 0 <= i < |front| && key(front[i]) == key(x);
        assert key(s[i]) == key(s[|s| - 1]);
      } else {
        assert forall i :: 0 <= i < |front| ==> key(front[i]) in Image(key, front);
      }
    }
  }

  lemma SameImage<T, K>(key: T -> K, a: seq<T>, b: seq<T>)
    requires multiset(a) == multiset(b)
    ensures Image(key, a) == Image(key, b)
  {
    forall i | 0 <= i < |a| ensures key(a[i]) in Image(key, b) {
      assert a[i] in multiset(b);
      var j :| 0 <= j < |b| && b[j] == a[i];
    }
    forall i | 0 <= i < |b| ensures key(b[i]) in Image(key, a) {
      assert b[i] in multiset(a);
      var j :| 0 <= j < |a| && a[j] == b[i];
    }
  }

  lemma PermutedIsDistinct<T, K>(key: T -> K, a: seq<T>, b: seq<T>)
    requires multiset(a) == multiset(b) && DistinctKeys(key, a)
    ensures DistinctKeys(key, b)
  {
    assert |multiset(a)| == |a| && |multiset(b)| == |b|;
    SameImage(key, a, b);
    ImageSize(key, a);
    ImageSize(key, b);
  }

  lemma {:induction false} DistinctCount<T, K>(key: T -> K, s: seq<T>, x: T)
    requires DistinctKeys(key, s)
    ensures multiset(s)[x] == if x in s then 1 else 0
  {
    if s != [] {
      var front, last := s[..|s| - 1], s[|s| - 1];
      DistinctCount(key, front, x);
      assert s == front + [last];
    }
  }

  /** Two sequences with distinct keys and the same members are permutations of one another. */
  lemma SameMembersPermute<T, K>(key: T -> K, a: seq<T>, b: seq<T>)
    requires DistinctKeys(key, a) && DistinctKeys(key, b) && forall x :: x in a <==> x in b
    ensures multiset(a) == multiset(b)
  {
    hide DistinctKeys;
    forall x ensures multiset(a)[x] == multiset(b)[x] {
      DistinctCount(key, a, x);
      DistinctCount(key, b, x);
    }
  }

  lemma SubsetSize<T>(a: set<T>, b: set<T>)
    requires a <= b
    ensures |a| <= |b|
  {
    if a != b { assert b == a + (b - a); }
  }
}
