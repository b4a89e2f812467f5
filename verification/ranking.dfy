/** Ordering results by score: a stable sort on a descending key and the
    `limit` that keeps a prefix of it.

    `Stream.sorted` with `Comparator.comparingDouble(key).reversed()` is a
    stable sort, so among equal scores the input order survives;
    `Stream.limit(n)` then keeps the first `n` elements. The same pair
    describes an `ORDER BY score DESC LIMIT n` query.
 */
module Ranking {

  import opened Basics

  predicate SortedDesc<T>(xs: seq<T>, key: T -> real) {
    forall i, j :: 0 <= i < j < |xs| ==> key(xs[j]) <= key(xs[i])
  }

  /** The elements whose key is `k`, in their original order. Two sequences
      with the same elements are the same stable arrangement exactly when
      this agrees for every `k`. */
  function WithKey<T>(xs: seq<T>, key: T -> real, k: real): seq<T>
  {
    if |xs| == 0 then []
    else (if key(xs[0]) == k then [xs[0]] else []) + WithKey(xs[1..], key, k)
  }

  lemma WithKeyCons<T>(x: T, xs: seq<T>, key: T -> real, k: real)
    ensures WithKey([x] + xs, key, k) == (if key(x) == k then [x] else []) + WithKey(xs, key, k)
  {
    assert ([x] + xs)[1..] == xs;
  }

  /** Inserts `x` in front of the first element whose key is not above its
      own: `x` comes after every strictly better element and before every
      equal one. */
  function Insert<T(==)>(x: T, xs: seq<T>, key: T -> real): (r: seq<T>)
    requires SortedDesc(xs, key)
    ensures SortedDesc(r, key)
    ensures multiset(r) == multiset(xs) + multiset{x}
    ensures |r| > 0 && (r[0] == x || (|xs| > 0 && r[0] == xs[0]))
  {
    if |xs| == 0 then [x]
    else if key(xs[0]) <= key(x) then [x] + xs
    else
      var rest := Insert(x, xs[1..], key);
      assert xs == [xs[0]] + xs[1..];
      assert key(rest[0]) <= key(xs[0]);
      [xs[0]] + rest
  }

  /** Inserting `x` adds it in front of the elements with its key and leaves
      the other keys' orders alone. */
  lemma {:induction false} InsertWithKey<T>(x: T, xs: seq<T>, key: T -> real, k: real)
    requires SortedDesc(xs, key)
    ensures WithKey(Insert(x, xs, key), key, k)
            == (if key(x) == k then [x] else []) + WithKey(xs, key, k)
  {
    if |xs| == 0 {
      WithKeyCons(x, [], key, k);
    } else if key(xs[0]) <= key(x) {
      WithKeyCons(x, xs, key, k);
    } else {
      InsertWithKey(x, xs[1..], key, k);
      assert Insert(x, xs, key) == [xs[0]] + Insert(x, xs[1..], key);
      assert xs == [xs[0]] + xs[1..];
      WithKeyBehind(x, xs[0], xs[1..], Insert(x, xs[1..], key), key, k);
    }
  }

  /** Putting a better head `h` in front of both sides keeps `x` in front of
      the elements with its key. */
  lemma WithKeyBehind<T>(x: T, h: T, tail: seq<T>, rest: seq<T>, key: T -> real, k: real)
    requires key(x) < key(h)
    requires WithKey(rest, key, k) == (if key(x) == k then [x] else []) + WithKey(tail, key, k)
    ensures WithKey([h] + rest, key, k)
            == (if key(x) == k then [x] else []) + WithKey([h] + tail, key, k)
  {
    WithKeyCons(h, rest, key, k);
    WithKeyCons(h, tail, key, k);
    if key(x) == k {
      assert key(h) != k;
    }
  }

  /** The stable descending sort: an insertion sort that inserts each head
      into the sorted tail, in front of the tail's equal keys. */
  function SortDesc<T(==)>(xs: seq<T>, key: T -> real): (r: seq<T>)
    ensures SortedDesc(r, key)
    ensures multiset(r) == multiset(xs)
    ensures |r| == |xs|
    ensures forall k :: WithKey(r, key, k) == WithKey(xs, key, k)
  {
    if |xs| == 0 then []
    else
      var rest := SortDesc(xs[1..], key);
      var r := Insert(xs[0], rest, key);
      assert xs == [xs[0]] + xs[1..];
      forall k ensures WithKey(r, key, k) == WithKey(xs, key, k) {
        InsertWithKey(xs[0], rest, key, k);
        WithKeyCons(xs[0], xs[1..], key, k);
      }
      assert |r| == |multiset(r)|;
      r
  }

  /** `sorted(...).limit(n)`: the first `n` of the stable descending sort. */
  function TopK<T(==)>(xs: seq<T>, key: T -> real, n: nat): (r: seq<T>)
    ensures |r| == Min(n, |xs|) && SortedDesc(r, key)
    ensures forall i :: 0 <= i < |r| ==> r[i] in xs
  {
    TopKFrom(xs, key, n);
    SortDesc(xs, key)[..Min(n, |xs|)]
  }

  /** What it means to be the best `n` elements, ties broken by input order:
      as many as `n` allows, best first, drawn from the input, and nothing
      left out that beats something kept; for every key the kept elements
      with that key are the earliest ones in the input. */
  ghost predicate IsStableTopK<T>(r: seq<T>, xs: seq<T>, key: T -> real, n: nat) {
    && |r| == Min(n, |xs|)
    && SortedDesc(r, key)
    && multiset(r) <= multiset(xs)
    && (forall y, i :: y in multiset(xs) - multiset(r) && 0 <= i < |r| ==> key(y) <= key(r[i]))
    && (forall k :: WithKey(r, key, k) <= WithKey(xs, key, k))
  }

  lemma {:induction false} WithKeyPrefix<T>(xs: seq<T>, key: T -> real, k: real, m: nat)
    requires m <= |xs|
    ensures WithKey(xs[..m], key, k) <= WithKey(xs, key, k)
  {
    if m > 0 {
      WithKeyPrefix(xs[1..], key, k, m - 1);
      assert xs[..m][1..] == xs[1..][..m - 1];
    }
  }

  /** What a sorted sequence leaves out past position `m` is no better than
      anything it keeps before `m`. */
  lemma DroppedNoBetter<T>(s: seq<T>, key: T -> real, m: nat)
    requires m <= |s| && SortedDesc(s, key)
    ensures forall y, i :: y in multiset(s) - multiset(s[..m]) && 0 <= i < m ==> key(y) <= key(s[i])
  {
    assert s == s[..m] + s[m..];
    assert multiset(s) - multiset(s[..m]) == multiset(s[m..]);
    forall y, i | y in multiset(s) - multiset(s[..m]) && 0 <= i < m
      ensures key(y) <= key(s[i])
    {
      assert y in s[m..];
      var j :| m <= j < |s| && s[j] == y;
    }
  }

  lemma TopKFrom<T>(xs: seq<T>, key: T -> real, n: nat)
    ensures forall i :: 0 <= i < Min(n, |xs|) ==> SortDesc(xs, key)[i] in xs
  {
    var s := SortDesc(xs, key);
    forall i | 0 <= i < Min(n, |xs|) ensures s[i] in xs {
      assert s[i] in multiset(s);
    }
  }

  lemma TopKIsStableTopK<T>(xs: seq<T>, key: T -> real, n: nat)
    ensures IsStableTopK(TopK(xs, key, n), xs, key, n)
  {
    TopKDrawn(xs, key, n);
    TopKStable(xs, key, n);
  }

  /** The kept elements come from the input, and what is left out is no
      better than anything kept. */
  lemma TopKDrawn<T>(xs: seq<T>, key: T -> real, n: nat)
    ensures var r := TopK(xs, key, n);
            && multiset(r) <= multiset(xs)
            && forall y, i :: y in multiset(xs) - multiset(r) && 0 <= i < |r| ==> key(y) <= key(r[i])
  {
    var s := SortDesc(xs, key);
    var m := Min(n, |xs|);
    var r := s[..m];
    assert s == r + s[m..];
    assert multiset(s) == multiset(r) + multiset(s[m..]);
    DroppedNoBetter(s, key, m);
  }

  /** For every key the kept elements are the earliest of the input. */
  lemma TopKStable<T>(xs: seq<T>, key: T -> real, n: nat)
    ensures forall k :: WithKey(TopK(xs, key, n), key, k) <= WithKey(xs, key, k)
  {
    var s := SortDesc(xs, key);
    forall k ensures WithKey(s[..Min(n, |xs|)], key, k) <= WithKey(xs, key, k) {
      WithKeyPrefix(s, key, k, Min(n, |xs|));
    }
  }

  /** Sorting an already sorted sequence changes nothing. */
  lemma {:induction false} SortSorted<T>(xs: seq<T>, key: T -> real)
    requires SortedDesc(xs, key)
    ensures SortDesc(xs, key) == xs
  {
    if |xs| > 0 {
      SortSorted(xs[1..], key);
      assert xs == [xs[0]] + xs[1..];
    }
  }

  /** An input already best first and no longer than the limit comes back
      whole. */
  lemma TopKSorted<T>(xs: seq<T>, key: T -> real, n: nat)
    requires SortedDesc(xs, key) && |xs| <= n
    ensures TopK(xs, key, n) == xs
  {
    SortSorted(xs, key);
  }

  /** One step of the sort: the head goes into the sorted tail. */
  lemma SortStep<T>(xs: seq<T>, key: T -> real)
    requires |xs| > 0
    ensures SortDesc(xs, key) == Insert(xs[0], SortDesc(xs[1..], key), key)
  {
  }

  lemma InsertFront<T>(x: T, xs: seq<T>, key: T -> real)
    requires SortedDesc(xs, key)
    requires |xs| == 0 || key(xs[0]) <= key(x)
    ensures Insert(x, xs, key) == [x] + xs
  {
  }

  lemma InsertBehind<T>(x: T, xs: seq<T>, key: T -> real)
    requires SortedDesc(xs, key)
    requires |xs| > 0 && key(x) < key(xs[0])
    ensures Insert(x, xs, key) == [xs[0]] + Insert(x, xs[1..], key)
  {
  }

  function Identity(x: real): real {
    x
  }

  lemma SortPairExample()
    ensures SortDesc([0.9, 0.5], Identity) == [0.9, 0.5]
  {
    var s1, s2 := [0.5], [0.9, 0.5];
    assert s2[1..] == s1 && s1[1..] == [];
    SortStep(s1, Identity);
    InsertFront(0.5, [], Identity);
    SortStep(s2, Identity);
    InsertFront(0.9, s1, Identity);
  }

  lemma InsertLastExample()
    ensures Insert(0.2, [0.9, 0.5], Identity) == [0.9, 0.5, 0.2]
  {
    var s1, s2 := [0.5], [0.9, 0.5];
    assert s2[1..] == s1 && s1[1..] == [];
    InsertBehind(0.2, s2, Identity);
    InsertBehind(0.2, s1, Identity);
    InsertFront(0.2, [], Identity);
  }

  /** Scores `[0.2, 0.9, 0.5]` come back as `[0.9, 0.5, 0.2]`. */
  lemma SortExample()
    ensures SortDesc([0.2, 0.9, 0.5], Identity) == [0.9, 0.5, 0.2]
  {
    assert [0.2, 0.9, 0.5][1..] == [0.9, 0.5];
    SortStep([0.2, 0.9, 0.5], Identity);
    SortPairExample();
    InsertLastExample();
  }
}
