/** `Array.prototype.sort` with a comparator that compares an integer key:
    a stable sort (as the language has required since ES2019) by that key,
    done in place on an array. */
module JsSort {
  import JsArray

  /** `s` is in non-decreasing key order. */
  predicate SortedBy<T>(s: seq<T>, key: T -> int) {
    forall i, j :: 0 <= i < j < |s| ==> key(s[i]) <= key(s[j])
  }

  /** `x` put into `s` just after the last element whose key is at most
      `key(x)`, looking from the right. */
  function Insert<T>(s: seq<T>, x: T, key: T -> int): (r: seq<T>)
    ensures |r| == |s| + 1
  {
    if s == [] || key(s[|s| - 1]) <= key(x) then s + [x]
    else Insert(s[..|s| - 1], x, key) + [s[|s| - 1]]
  }

  /** The stable sort of `s` by `key`: each element in turn inserted into
      the sorted prefix before it. */
  function SortByKey<T>(s: seq<T>, key: T -> int): (r: seq<T>)
    ensures |r| == |s|
  {
    if s == [] then [] else Insert(SortByKey(s[..|s| - 1], key), s[|s| - 1], key)
  }

  /** Three elements whose keys rank the second, the third, then the first
      come out in that order. */
  lemma SortThree<T>(a: T, b: T, c: T, key: T -> int)
    requires key(b) < key(c) < key(a)
    ensures SortByKey([a, b, c], key) == [b, c, a]
  {
    assert SortByKey([a], key) == [a];
    assert [a, b][..1] == [a];
    assert Insert([a], b, key) == [b, a];
    assert SortByKey([a, b], key) == [b, a];
    assert [a, b, c][..2] == [a, b];
    assert Insert([b], c, key) == [b, c];
    assert Insert([b, a], c, key) == [b, c, a];
  }

  /** Inserting splits `s` in two: the elements before `x` keep their place
      and all elements after it have a larger key. */
  lemma {:induction false} InsertSplit<T>(s: seq<T>, x: T, key: T -> int) returns (p: nat)
    ensures p <= |s| && Insert(s, x, key) == s[..p] + [x] + s[p..]
    ensures forall i :: p <= i < |s| ==> key(s[i]) > key(x)
    ensures p > 0 ==> key(s[p - 1]) <= key(x)
  {
    if s == [] || key(s[|s| - 1]) <= key(x) {
      p := |s|;
      assert s[..p] == s;
    } else {
      var init := s[..|s| - 1];
      p := InsertSplit(init, x, key);
      assert init[..p] == s[..p];
      assert init[p..] + [s[|s| - 1]] == s[p..];
    }
  }

  lemma InsertSorted<T>(s: seq<T>, x: T, key: T -> int)
    requires SortedBy(s, key)
    ensures SortedBy(Insert(s, x, key), key)
  {
    var p := InsertSplit(s, x, key);
    var r := Insert(s, x, key);
    forall i, j | 0 <= i < j < |r| ensures key(r[i]) <= key(r[j]) {
      if j < p {
        assert r[i] == s[i] && r[j] == s[j];
      } else if j == p {
        assert r[i] == s[i];
        if i < p - 1 {
          assert key(s[i]) <= key(s[p - 1]);
        }
      } else if i == p {
        assert r[j] == s[j - 1];
      } else {
        assert r[j] == s[j - 1];
        if i < p { assert r[i] == s[i]; } else { assert r[i] == s[i - 1]; }
      }
    }
  }

  lemma {:induction false} SortByKeySorted<T>(s: seq<T>, key: T -> int)
    ensures SortedBy(SortByKey(s, key), key)
  {
    if s != [] {
      SortByKeySorted(s[..|s| - 1], key);
      InsertSorted(SortByKey(s[..|s| - 1], key), s[|s| - 1], key);
    }
  }

  lemma InsertPermutes<T>(s: seq<T>, x: T, key: T -> int)
    ensures multiset(Insert(s, x, key)) == multiset(s) + multiset{x}
  {
    var p := InsertSplit(s, x, key);
    assert s == s[..p] + s[p..];
  }

  /** The sort returns a permutation of its input. */
  lemma {:induction false} SortByKeyPermutes<T>(s: seq<T>, key: T -> int)
    ensures multiset(SortByKey(s, key)) == multiset(s)
  {
    if s != [] {
      var init := s[..|s| - 1];
      SortByKeyPermutes(init, key);
      InsertPermutes(SortByKey(init, key), s[|s| - 1], key);
      assert s == init + [s[|s| - 1]];
    }
  }

  /** The predicate "has key `k`". */
  function KeyIs<T>(key: T -> int, k: int): T -> bool {
    y => key(y) == k
  }

  lemma FilterSingle<T>(x: T, keep: T -> bool)
    ensures JsArray.Filter([x], keep) == if keep(x) then [x] else []
  {
    assert [x][1..] == [];
  }

  lemma InsertStable<T>(s: seq<T>, x: T, key: T -> int, k: int)
    ensures JsArray.Filter(Insert(s, x, key), KeyIs(key, k)) ==
      JsArray.Filter(s, KeyIs(key, k)) + (if key(x) == k then [x] else [])
  {
    InsertStableBy(s, x, key, k, KeyIs(key, k));
  }

  lemma InsertStableBy<T>(s: seq<T>, x: T, key: T -> int, k: int, eq: T -> bool)
    requires forall y :: eq(y) == (key(y) == k)
    ensures JsArray.Filter(Insert(s, x, key), eq) ==
      JsArray.Filter(s, eq) + (if key(x) == k then [x] else [])
  {
    var p := InsertSplit(s, x, key);
    assert s == s[..p] + s[p..];
    StableAround(s[..p], x, s[p..], key, k, eq);
  }

  /** Putting `x` before elements of larger keys keeps the order of the
      elements of each key. */
  lemma StableAround<T>(front: seq<T>, x: T, back: seq<T>, key: T -> int, k: int, eq: T -> bool)
    requires forall y :: eq(y) == (key(y) == k)
    requires forall i :: 0 <= i < |back| ==> key(back[i]) > key(x)
    ensures JsArray.Filter(front + [x] + back, eq) ==
      JsArray.Filter(front + back, eq) + (if key(x) == k then [x] else [])
  {
    var ff, fb := JsArray.Filter(front, eq), JsArray.Filter(back, eq);
    FilterAround(front, x, back, eq);
    JsArray.FilterAppend(front, back, eq);
    if key(x) == k {
      JsArray.FilterNone(back, eq);
      assert ff + [x] + fb == (ff + fb) + [x];
    } else {
      assert ff + [] + fb == (ff + fb) + [];
    }
  }

  /** Filtering a sequence with one element picked out. */
  lemma FilterAround<T>(front: seq<T>, x: T, back: seq<T>, keep: T -> bool)
    ensures JsArray.Filter(front + [x] + back, keep) ==
      JsArray.Filter(front, keep) + (if keep(x) then [x] else []) + JsArray.Filter(back, keep)
  {
    JsArray.FilterAppend(front + [x], back, keep);
    JsArray.FilterAppend(front, [x], keep);
    FilterSingle(x, keep);
  }

  /** Stability: the elements of one key come out in their input order. */
  lemma {:induction false} SortByKeyStable<T>(s: seq<T>, key: T -> int, k: int)
    ensures JsArray.Filter(SortByKey(s, key), KeyIs(key, k)) == JsArray.Filter(s, KeyIs(key, k))
  {
    if s != [] {
      var init, x := s[..|s| - 1], s[|s| - 1];
      SortByKeyStable(init, key, k);
      InsertStable(SortByKey(init, key), x, key, k);
      assert s == init + [x];
      JsArray.FilterAppend(init, [x], KeyIs(key, k));
      assert [x][1..] == [];
    }
  }

  /** Moves `a[i]` left past the elements before it with a larger key,
      shifting them one place right. */
  method InsertInPlace<T>(a: array<T>, i: int, key: T -> int)
    requires 0 <= i < a.Length
    modifies a
    ensures a[..i + 1] == Insert(old(a[..i]), old(a[i]), key)
    ensures a[i + 1..] == old(a[i + 1..])
  {
    var x := a[i];
    ghost var p := a[..i];
    var j := i;
    while j > 0 && key(a[j - 1]) > key(x)
      invariant 0 <= j <= i
      invariant forall k :: 0 <= k < j ==> a[k] == p[k]
      invariant forall k :: j < k <= i ==> a[k] == p[k - 1]
      invariant forall k :: j <= k < i ==> key(p[k]) > key(x)
      invariant forall k :: i < k < a.Length ==> a[k] == old(a[k])
    {
      a[j] := a[j - 1];
      j := j - 1;
    }
    a[j] := x;
    InsertAt(p, j, x, key);
    InsertPlaced(a[..], p, j, x);
    assert a[i + 1..] == old(a[i + 1..]);
  }

  /** `x` goes in just after the last element whose key is at most its own. */
  lemma {:induction false} InsertAt<T>(p: seq<T>, j: nat, x: T, key: T -> int)
    requires j <= |p| && (j == 0 || key(p[j - 1]) <= key(x))
    requires forall k :: j <= k < |p| ==> key(p[k]) > key(x)
    ensures Insert(p, x, key) == p[..j] + [x] + p[j..]
  {
    if j == |p| {
      assert p[..j] == p && p[j..] == [];
    } else {
      var init := p[..|p| - 1];
      InsertAt(init, j, x, key);
      assert init[..j] == p[..j];
      assert init[j..] + [p[|p| - 1]] == p[j..];
    }
  }

  /** The array after the loop, as a sequence. */
  lemma InsertPlaced<T>(b: seq<T>, p: seq<T>, j: nat, x: T)
    requires j <= |p| < |b| && b[j] == x
    requires forall k :: 0 <= k < j ==> b[k] == p[k]
    requires forall k :: j < k <= |p| ==> b[k] == p[k - 1]
    ensures b[..|p| + 1] == p[..j] + [x] + p[j..]
  {
  }

  /** Insertion sort in place: `a[..i]` is the sorted prefix, and each
      next element is inserted into it. */
  method SortInPlace<T>(a: array<T>, key: T -> int)
    modifies a
    ensures a[..] == SortByKey(old(a[..]), key)
  {
    ghost var s := a[..];
    var i := 0;
    while i < a.Length
      invariant 0 <= i <= a.Length
      invariant a[..i] == SortByKey(s[..i], key)
      invariant a[i..] == s[i..]
    {
      InsertInPlace(a, i, key);
      assert s[..i + 1][..i] == s[..i];
      i := i + 1;
    }
    assert s[..a.Length] == s;
  }
}
