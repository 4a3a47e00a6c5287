/** The stable descending sort that both the feed script and the homepage get
    from `Array.prototype.sort` with the comparator `(a, b) => key(b) - key(a)`.
    Specified by an insertion sort on sequences; the in-place method is proved
    to compute exactly that sequence. */
module StableSort {

  /** Places `x` after every element whose key is at least `key(x)`. */
  function Insert<T>(s: seq<T>, x: T, key: T -> int): (r: seq<T>)
    ensures |r| == |s| + 1
  {
    if s == [] then [x]
    else if key(s[0]) >= key(x) then [s[0]] + Insert(s[1..], x, key)
    else [x] + s
  }

  /** Inserting adds exactly `x`. */
  lemma {:induction false} InsertPermutation<T>(s: seq<T>, x: T, key: T -> int)
    ensures multiset(Insert(s, x, key)) == multiset(s) + multiset{x}
  {
    if s != [] && key(s[0]) >= key(x) {
      InsertPermutation(s[1..], x, key);
      assert s == [s[0]] + s[1..];
    }
  }

  /** The stably sorted sequence: elements ordered by non-increasing key,
      equal keys in their original order. */
  function SortDesc<T>(s: seq<T>, key: T -> int): (r: seq<T>)
    ensures |r| == |s|
  {
    if s == [] then [] else Insert(SortDesc(s[..|s| - 1], key), s[|s| - 1], key)
  }

  ghost predicate NonIncreasing<T>(s: seq<T>, key: T -> int) {
    forall i, j :: 0 <= i < j < |s| ==> key(s[i]) >= key(s[j])
  }

  /** The elements whose key is `k`, in order. */
  function WithKey<T>(s: seq<T>, k: int, key: T -> int): (r: seq<T>)
    ensures |r| <= |s|
  {
    if s == [] then []
    else (if key(s[0]) == k then [s[0]] else []) + WithKey(s[1..], k, key)
  }

  lemma {:induction false} WithKeyAppend<T>(a: seq<T>, b: seq<T>, k: int, key: T -> int)
    ensures WithKey(a + b, k, key) == WithKey(a, k, key) + WithKey(b, k, key)
  {
    if a != [] {
      var h := if key(a[0]) == k then [a[0]] else [];
      assert (a + b)[0] == a[0];
      assert a + b != [];
      assert (a + b)[1..] == a[1..] + b;
      WithKeyAppend(a[1..], b, k, key);
      calc {
        WithKey(a + b, k, key);
        h + WithKey(a[1..] + b, k, key);
        h + (WithKey(a[1..], k, key) + WithKey(b, k, key));
        (h + WithKey(a[1..], k, key)) + WithKey(b, k, key);
      }
    } else {
      assert a + b == b;
    }
  }

  lemma {:induction false} InsertSorted<T>(s: seq<T>, x: T, key: T -> int)
    requires NonIncreasing(s, key)
    ensures NonIncreasing(Insert(s, x, key), key)
  {
    if s != [] && key(s[0]) >= key(x) {
      InsertSorted(s[1..], x, key);
      InsertPermutation(s[1..], x, key);
      var r := Insert(s, x, key);
      assert r == [s[0]] + Insert(s[1..], x, key);
      forall j | 0 < j < |r| ensures key(r[0]) >= key(r[j]) {
        assert r[j] in multiset(Insert(s[1..], x, key));
        assert r[j] in multiset(s[1..]) + multiset{x};
        if r[j] != x {
          assert r[j] in s[1..];
        }
      }
    }
  }

  /** The elements of `[y] + t` with key `k`. */
  lemma WithKeyCons<T>(y: T, t: seq<T>, k: int, key: T -> int)
    ensures WithKey([y] + t, k, key) == (if key(y) == k then [y] else []) + WithKey(t, k, key)
  {
    assert ([y] + t)[0] == y;
    assert ([y] + t)[1..] == t;
  }

  /** Inserting keeps the per-key order and puts `x` after the elements with its key. */
  lemma {:induction false} InsertStable<T>(s: seq<T>, x: T, k: int, key: T -> int)
    requires NonIncreasing(s, key)
    ensures WithKey(Insert(s, x, key), k, key) ==
      WithKey(s, k, key) + (if key(x) == k then [x] else [])
  {
    if s == [] {
      WithKeyCons(x, [], k, key);
      assert Insert(s, x, key) == [x] + [];
    } else if key(s[0]) >= key(x) {
      var t := s[1..];
      NonIncreasingTail(s, key);
      InsertStable(t, x, k, key);
      InsertStableStep(s, x, k, key);
    } else {
      InsertStableFront(s, x, k, key);
    }
  }

  lemma NonIncreasingTail<T>(s: seq<T>, key: T -> int)
    requires s != [] && NonIncreasing(s, key)
    ensures NonIncreasing(s[1..], key)
  {
    var t := s[1..];
    forall i, j | 0 <= i < j < |t| ensures key(t[i]) >= key(t[j]) {
      assert t[i] == s[i + 1] && t[j] == s[j + 1];
    }
  }

  /** The step of InsertStable where `x` goes after the first element. */
  lemma InsertStableStep<T>(s: seq<T>, x: T, k: int, key: T -> int)
    requires s != [] && key(s[0]) >= key(x)
    requires WithKey(Insert(s[1..], x, key), k, key) ==
      WithKey(s[1..], k, key) + (if key(x) == k then [x] else [])
    ensures WithKey(Insert(s, x, key), k, key) ==
      WithKey(s, k, key) + (if key(x) == k then [x] else [])
  {
    var t := s[1..];
    assert Insert(s, x, key) == [s[0]] + Insert(t, x, key);
    WithKeyCons(s[0], Insert(t, x, key), k, key);
    assert s == [s[0]] + t;
    WithKeyCons(s[0], t, k, key);
  }

  /** The case of InsertStable where `x` goes in front. */
  lemma InsertStableFront<T>(s: seq<T>, x: T, k: int, key: T -> int)
    requires NonIncreasing(s, key)
    requires s != [] && key(s[0]) < key(x)
    ensures WithKey(Insert(s, x, key), k, key) ==
      WithKey(s, k, key) + (if key(x) == k then [x] else [])
  {
    assert Insert(s, x, key) == [x] + s;
    WithKeyCons(x, s, k, key);
    if key(x) == k {
      forall i | 0 <= i < |s| ensures key(s[i]) < k {
        assert key(s[0]) >= key(s[i]);
      }
      NoneWithKey(s, k, key);
    }
  }

  lemma {:induction false} NoneWithKey<T>(s: seq<T>, k: int, key: T -> int)
    requires forall i :: 0 <= i < |s| ==> key(s[i]) < k
    ensures WithKey(s, k, key) == []
  {
    if s != [] {
      NoneWithKey(s[1..], k, key);
    }
  }

  /** SortDesc sorts: keys are non-increasing. */
  lemma {:induction false} SortDescSorted<T>(s: seq<T>, key: T -> int)
    ensures NonIncreasing(SortDesc(s, key), key)
  {
    if s != [] {
      SortDescSorted(s[..|s| - 1], key);
      InsertSorted(SortDesc(s[..|s| - 1], key), s[|s| - 1], key);
    }
  }

  /** SortDesc is a permutation. */
  lemma {:induction false} SortDescPermutation<T>(s: seq<T>, key: T -> int)
    ensures multiset(SortDesc(s, key)) == multiset(s)
  {
    if s != [] {
      SortDescPermutation(s[..|s| - 1], key);
      InsertPermutation(SortDesc(s[..|s| - 1], key), s[|s| - 1], key);
      assert s == s[..|s| - 1] + [s[|s| - 1]];
    }
  }

  /** SortDesc is stable: the elements with any given key keep their order. */
  lemma {:induction false} SortDescStable<T>(s: seq<T>, k: int, key: T -> int)
    ensures WithKey(SortDesc(s, key), k, key) == WithKey(s, k, key)
  {
    if s != [] {
      var p, x := s[..|s| - 1], s[|s| - 1];
      SortDescStable(p, k, key);
      SortDescSorted(p, key);
      InsertStable(SortDesc(p, key), x, k, key);
      assert s == p + [x];
      WithKeyAppend(p, [x], k, key);
      assert WithKey([x], k, key) == if key(x) == k then [x] else [];
    }
  }

  /** Where the insertion point lies in a sorted sequence. */
  lemma {:induction false} InsertAt<T>(s: seq<T>, x: T, j: nat, key: T -> int)
    requires j <= |s|
    requires forall i :: 0 <= i < j ==> key(s[i]) >= key(x)
    requires forall i :: j <= i < |s| ==> key(s[i]) < key(x)
    ensures Insert(s, x, key) == s[..j] + [x] + s[j..]
  {
    if j == 0 {
      assert s != [] ==> key(s[0]) < key(x);
      assert s[..0] == [] && s[0..] == s;
    } else {
      var t := s[1..];
      forall i | 0 <= i < j - 1 ensures key(t[i]) >= key(x) {
        assert t[i] == s[i + 1];
      }
      forall i | j - 1 <= i < |t| ensures key(t[i]) < key(x) {
        assert t[i] == s[i + 1];
      }
      InsertAt(t, x, j - 1, key);
      assert key(s[0]) >= key(x);
      assert Insert(s, x, key) == [s[0]] + Insert(t, x, key);
      assert s[..j] == [s[0]] + t[..j - 1];
      assert s[j..] == t[j - 1..];
    }
  }

  lemma SortDescSnoc<T>(s: seq<T>, i: nat, key: T -> int)
    requires i < |s|
    ensures SortDesc(s[..i + 1], key) == Insert(SortDesc(s[..i], key), s[i], key)
  {
    assert s[..i + 1][..i] == s[..i];
  }

  /** Moves `a[i]` left past the elements of the sorted prefix `a[..i]` whose
      key is smaller. */
  method InsertInPlace<T>(a: array<T>, i: nat, key: T -> int)
    requires i < a.Length
    requires NonIncreasing(a[..i], key)
    modifies a
    ensures a[..i + 1] == Insert(old(a[..i]), old(a[i]), key)
    ensures a[i + 1..] == old(a[i + 1..])
  {
    ghost var sorted := a[..i];
    var x := a[i];
    var j := i;
    while j > 0 && key(a[j - 1]) < key(x)
      invariant 0 <= j <= i
      invariant a[..j] == sorted[..j]
      invariant a[j + 1..i + 1] == sorted[j..]
      invariant a[i + 1..] == old(a[i + 1..])
      invariant forall k :: j <= k < i ==> key(sorted[k]) < key(x)
    {
      a[j] := a[j - 1];
      j := j - 1;
    }
    assert j > 0 ==> a[j - 1] == sorted[j - 1];
    ghost var cur := a[..];
    a[j] := x;
    assert a[..] == cur[j := x];
    InsertFinish(sorted, x, j, key, cur);
  }

  /** After the shifting loop of InsertInPlace, writing `x` into the gap at
      `j` yields the insertion of `x` into the sorted prefix. */
  lemma InsertFinish<T>(sorted: seq<T>, x: T, j: nat, key: T -> int, cur: seq<T>)
    requires NonIncreasing(sorted, key)
    requires j <= |sorted| < |cur|
    requires cur[..j] == sorted[..j]
    requires cur[j + 1..|sorted| + 1] == sorted[j..]
    requires j > 0 ==> key(sorted[j - 1]) >= key(x)
    requires forall k :: j <= k < |sorted| ==> key(sorted[k]) < key(x)
    ensures cur[j := x][..|sorted| + 1] == Insert(sorted, x, key)
    ensures cur[j := x][|sorted| + 1..] == cur[|sorted| + 1..]
  {
    PrefixAbove(sorted, x, j, key);
    InsertAt(sorted, x, j, key);
    UpdateSplit(cur, j, x, |sorted| + 1);
  }

  /** In a sorted sequence, everything before a position whose key is at
      least `key(x)` has a key at least `key(x)`. */
  lemma PrefixAbove<T>(s: seq<T>, x: T, j: nat, key: T -> int)
    requires NonIncreasing(s, key) && j <= |s|
    requires j > 0 ==> key(s[j - 1]) >= key(x)
    ensures forall k :: 0 <= k < j ==> key(s[k]) >= key(x)
  {
    forall k | 0 <= k < j ensures key(s[k]) >= key(x) {
      assert key(s[k]) >= key(s[j - 1]);
    }
  }

  /** Writing `x` at `j` splits the first `n` elements around it. */
  lemma UpdateSplit<T>(cur: seq<T>, j: nat, x: T, n: nat)
    requires j < n <= |cur|
    ensures cur[j := x][..n] == cur[..j] + [x] + cur[j + 1..n]
    ensures cur[j := x][n..] == cur[n..]
  {
    var r := cur[j := x][..n];
    assert r[..j] == cur[..j];
    assert r[j + 1..] == cur[j + 1..n];
    assert r == r[..j] + [x] + r[j + 1..];
  }

  /** Sorts `a` in place by non-increasing key, keeping equal keys in order. */
  method SortInPlace<T>(a: array<T>, key: T -> int)
    modifies a
    ensures a[..] == SortDesc(old(a[..]), key)
  {
    ghost var orig := a[..];
    var i := 0;
    while i < a.Length
      invariant 0 <= i <= a.Length
      invariant a[..i] == SortDesc(orig[..i], key)
      invariant a[i..] == orig[i..]
    {
      SortDescSorted(orig[..i], key);
      assert a[i] == orig[i];
      InsertInPlace(a, i, key);
      SortDescSnoc(orig, i, key);
      assert a[i + 1..] == orig[i + 1..] by {
        assert orig[i + 1..] == orig[i..][1..];
      }
      i := i + 1;
    }
    assert orig[..a.Length] == orig;
  }
}
