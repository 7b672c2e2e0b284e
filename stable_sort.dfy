/** A stable sort in descending order of an integer key, and the selection
    of the first n elements of its result.

    Every ranking in the core is `[...xs].sort((a, b) => key(b) - key(a))`
    followed, in some places, by `slice(0, n)`. Array.prototype.sort is
    stable since ECMAScript 2019 (section 23.1.3.30 of ECMA-262): elements
    the comparator calls equal keep their input order. `SortDesc` is an
    insertion sort with that behaviour, and `StableSortIsUnique` shows that
    every stable descending sort returns the same sequence, so the choice
    of algorithm is immaterial. Sequences are values: the input of a sort
    is never changed, as with the source's sort of a copy. */
module StableSort {

  /** Keys never increase from left to right. */
  predicate NonIncreasing<T>(s: seq<T>, key: T -> int) {
    forall i, j | 0 <= i < j < |s| :: key(s[i]) >= key(s[j])
  }

  /** The elements of `s` whose key is `k`, in their order in `s`. */
  function WithKey<T>(s: seq<T>, key: T -> int, k: int): seq<T> {
    if s == [] then []
    else (if key(s[0]) == k then [s[0]] else []) + WithKey(s[1..], key, k)
  }

  /** Inserts `x` in front of the first element whose key is not greater
      than its own, so that it precedes the elements of equal key. */
  function Insert<T>(x: T, s: seq<T>, key: T -> int): (r: seq<T>)
    ensures |r| == |s| + 1
    ensures multiset(r) == multiset(s) + multiset{x}
  {
    if s == [] || key(s[0]) <= key(x) then [x] + s
    else
      assert s == [s[0]] + s[1..];
      [s[0]] + Insert(x, s[1..], key)
  }

  /** The stable descending sort. */
  function SortDesc<T>(s: seq<T>, key: T -> int): (r: seq<T>)
    ensures |r| == |s|
    ensures multiset(r) == multiset(s)
  {
    if s == [] then []
    else
      assert s == [s[0]] + s[1..];
      Insert(s[0], SortDesc(s[1..], key), key)
  }

  /** The first `n` elements of the sorted sequence (all of them when
      there are fewer), as `slice(0, n)` gives them. */
  function Top<T>(s: seq<T>, key: T -> int, n: nat): (r: seq<T>)
    ensures |r| == if n < |s| then n else |s|
    ensures multiset(r) <= multiset(s)
  {
    var sorted := SortDesc(s, key);
    var m := if n < |sorted| then n else |sorted|;
    assert sorted == sorted[..m] + sorted[m..];
    sorted[..m]
  }

  lemma {:induction false} WithKeyAppend<T>(a: seq<T>, b: seq<T>, key: T -> int, k: int)
    ensures WithKey(a + b, key, k) == WithKey(a, key, k) + WithKey(b, key, k)
  {
    if a == [] {
      assert a + b == b;
    } else {
      var head := if key(a[0]) == k then [a[0]] else [];
      assert (a + b)[0] == a[0];
      assert (a + b)[1..] == a[1..] + b;
      WithKeyAppend(a[1..], b, key, k);
      assert WithKey(a + b, key, k) == head + WithKey(a[1..] + b, key, k);
      assert WithKey(a, key, k) == head + WithKey(a[1..], key, k);
    }
  }

  lemma {:induction false} WithKeyMember<T>(s: seq<T>, key: T -> int, k: int, y: T)
    requires y in WithKey(s, key, k)
    ensures y in s && key(y) == k
  {
    var head := if key(s[0]) == k then [s[0]] else [];
    assert WithKey(s, key, k) == head + WithKey(s[1..], key, k);
    if y !in head {
      WithKeyMember(s[1..], key, k, y);
    }
  }

  /** Removing the first element removes it from its own key class only. */
  lemma WithKeyTail<T>(s: seq<T>, key: T -> int, k: int)
    requires s != []
    ensures WithKey(s, key, k)
         == (if key(s[0]) == k then [s[0]] else []) + WithKey(s[1..], key, k)
  {
  }

  lemma EmptyKeyClasses<T>(s: seq<T>, key: T -> int)
    requires forall k :: WithKey(s, key, k) == []
    ensures s == []
  {
    if s != [] {
      assert s[0] in WithKey(s, key, key(s[0]));
    }
  }

  /** Inserting `x` adds it in front of the elements of its own key and
      leaves the order of every key class otherwise as it was. */
  lemma {:induction false} InsertWithKey<T>(x: T, s: seq<T>, key: T -> int, k: int)
    ensures WithKey(Insert(x, s, key), key, k)
         == (if key(x) == k then [x] else []) + WithKey(s, key, k)
  {
    if s == [] || key(s[0]) <= key(x) {
      WithKeyTail([x] + s, key, k);
      assert ([x] + s)[0] == x && ([x] + s)[1..] == s;
    } else {
      var r := Insert(x, s[1..], key);
      InsertWithKey(x, s[1..], key, k);
      WithKeyTail([s[0]] + r, key, k);
      WithKeyTail(s, key, k);
      assert ([s[0]] + r)[0] == s[0] && ([s[0]] + r)[1..] == r;
    }
  }

  lemma {:induction false} InsertNonIncreasing<T>(x: T, s: seq<T>, key: T -> int)
    requires NonIncreasing(s, key)
    ensures NonIncreasing(Insert(x, s, key), key)
  {
    if s == [] || key(s[0]) <= key(x) {
    } else {
      var r := Insert(x, s[1..], key);
      InsertNonIncreasing(x, s[1..], key);
      assert multiset(r) == multiset(s[1..]) + multiset{x};
      forall j | 0 <= j < |r| ensures key(s[0]) >= key(r[j]) {
        assert r[j] in multiset(r);
        if r[j] != x {
          assert r[j] in multiset(s[1..]);
          var i :| 0 <= i < |s[1..]| && s[1..][i] == r[j];
          assert s[i + 1] == r[j];
        }
      }
      assert Insert(x, s, key) == [s[0]] + r;
    }
  }

  /** The sort's result is in non-increasing key order. */
  lemma {:induction false} SortDescNonIncreasing<T>(s: seq<T>, key: T -> int)
    ensures NonIncreasing(SortDesc(s, key), key)
  {
    if s != [] {
      SortDescNonIncreasing(s[1..], key);
      InsertNonIncreasing(s[0], SortDesc(s[1..], key), key);
    }
  }

  /** The sort is stable: within each key, elements keep their input order. */
  lemma {:induction false} SortDescStable<T>(s: seq<T>, key: T -> int, k: int)
    ensures WithKey(SortDesc(s, key), key, k) == WithKey(s, key, k)
  {
    if s != [] {
      SortDescStable(s[1..], key, k);
      InsertWithKey(s[0], SortDesc(s[1..], key), key, k);
    }
  }

  /** Everything promised of the sort: a permutation of the input, in
      non-increasing key order, with ties in input order. */
  lemma SortDescIsStableSort<T>(s: seq<T>, key: T -> int)
    ensures var r := SortDesc(s, key);
      && multiset(r) == multiset(s)
      && NonIncreasing(r, key)
      && forall k :: WithKey(r, key, k) == WithKey(s, key, k)
  {
    SortDescNonIncreasing(s, key);
    forall k ensures WithKey(SortDesc(s, key), key, k) == WithKey(s, key, k) {
      SortDescStable(s, key, k);
    }
  }

  /** No key class of a non-increasing sequence is above its first key. */
  lemma HeadBoundsClasses<T>(a: seq<T>, key: T -> int, k: int)
    requires a != [] && NonIncreasing(a, key)
    requires WithKey(a, key, k) != []
    ensures key(a[0]) >= k
  {
  }

  /** The first elements of two such sequences carry the largest key, so
      both lead their key class and coincide. */
  lemma SameHead<T>(a: seq<T>, b: seq<T>, key: T -> int)
    requires a != [] && b != []
    requires NonIncreasing(a, key) && NonIncreasing(b, key)
    requires forall k :: WithKey(a, key, k) == WithKey(b, key, k)
    ensures a[0] == b[0]
  {
    var ka, kb := key(a[0]), key(b[0]);
    WithKeyTail(a, key, ka);
    WithKeyTail(b, key, kb);
    assert WithKey(a, key, kb) == WithKey(b, key, kb);
    assert WithKey(b, key, ka) == WithKey(a, key, ka);
    HeadBoundsClasses(a, key, kb);
    HeadBoundsClasses(b, key, ka);
    assert ka == kb;
    assert WithKey(a, key, ka)[0] == a[0];
    assert WithKey(b, key, ka)[0] == b[0];
  }

  lemma SameTailClasses<T>(a: seq<T>, b: seq<T>, key: T -> int, k: int)
    requires a != [] && b != [] && a[0] == b[0]
    requires WithKey(a, key, k) == WithKey(b, key, k)
    ensures WithKey(a[1..], key, k) == WithKey(b[1..], key, k)
  {
    var head := if key(a[0]) == k then [a[0]] else [];
    WithKeyTail(a, key, k);
    WithKeyTail(b, key, k);
    assert WithKey(a[1..], key, k) == WithKey(a, key, k)[|head|..];
    assert WithKey(b[1..], key, k) == WithKey(b, key, k)[|head|..];
  }

  /** Two sequences in non-increasing key order with the same elements, in
      the same order, within every key are equal: a stable descending sort
      has exactly one possible result. */
  lemma {:induction false} StableSortIsUnique<T>(a: seq<T>, b: seq<T>, key: T -> int)
    requires NonIncreasing(a, key) && NonIncreasing(b, key)
    requires forall k :: WithKey(a, key, k) == WithKey(b, key, k)
    ensures a == b
  {
    if a == [] || b == [] {
      var e := if a == [] then b else a;
      forall k ensures WithKey(e, key, k) == [] {
        assert WithKey(a, key, k) == WithKey(b, key, k);
      }
      EmptyKeyClasses(e, key);
    } else {
      SameHead(a, b, key);
      forall k ensures WithKey(a[1..], key, k) == WithKey(b[1..], key, k) {
        SameTailClasses(a, b, key, k);
      }
      StableSortIsUnique(a[1..], b[1..], key);
      assert a == [a[0]] + a[1..];
      assert b == [b[0]] + b[1..];
    }
  }

  /** A sequence that is a stable descending sort of `s` is `SortDesc(s)`. */
  lemma StableSortIsSortDesc<T>(s: seq<T>, r: seq<T>, key: T -> int)
    requires NonIncreasing(r, key)
    requires forall k :: WithKey(r, key, k) == WithKey(s, key, k)
    ensures r == SortDesc(s, key)
  {
    SortDescIsStableSort(s, key);
    StableSortIsUnique(r, SortDesc(s, key), key);
  }

  /** Splitting a non-increasing sequence: nothing after the split point
      outranks anything before it. */
  lemma SplitRanks<T>(r: seq<T>, rest: seq<T>, key: T -> int, x: T, y: T)
    requires NonIncreasing(r + rest, key)
    requires x in r && y in multiset(rest)
    ensures key(y) <= key(x)
  {
    var i :| 0 <= i < |r| && r[i] == x;
    var j :| 0 <= j < |rest| && rest[j] == y;
    assert (r + rest)[i] == x && (r + rest)[|r| + j] == y;
  }

  /** Nothing the first `n` leave out outranks anything they keep. */
  lemma TopOutranksRest<T>(s: seq<T>, key: T -> int, n: nat)
    ensures var r := Top(s, key, n);
      && multiset(r) <= multiset(s)
      && forall x, y | x in r && y in multiset(s) - multiset(r) :: key(y) <= key(x)
  {
    var sorted := SortDesc(s, key);
    var r := Top(s, key, n);
    var rest := sorted[|r|..];
    assert sorted == r + rest;
    SortDescNonIncreasing(s, key);
    assert multiset(s) == multiset(r) + multiset(rest);
    forall x, y | x in r && y in multiset(s) - multiset(r) ensures key(y) <= key(x) {
      SplitRanks(r, rest, key, x, y);
    }
  }

  /** Within each key, the first `n` are the leading elements of that key
      in input order. */
  lemma TopKeepsTies<T>(s: seq<T>, key: T -> int, n: nat, k: int)
    ensures WithKey(Top(s, key, n), key, k) <= WithKey(s, key, k)
  {
    var sorted := SortDesc(s, key);
    var r := Top(s, key, n);
    assert sorted == r + sorted[|r|..];
    WithKeyAppend(r, sorted[|r|..], key, k);
    SortDescStable(s, key, k);
  }

  /** What the first `n` of the ranking are: as many as `n` allows, in
      non-increasing key order, distinct positions of the input, ranked at
      least as high as every element left out, and in input order within
      each key. */
  lemma TopSelects<T>(s: seq<T>, key: T -> int, n: nat)
    ensures var r := Top(s, key, n);
      && |r| == (if n < |s| then n else |s|)
      && r == SortDesc(s, key)[..|r|]
      && NonIncreasing(r, key)
      && multiset(r) <= multiset(s)
      && (forall x, y | x in r && y in multiset(s) - multiset(r) :: key(y) <= key(x))
      && (forall k :: WithKey(r, key, k) <= WithKey(s, key, k))
  {
    SortDescNonIncreasing(s, key);
    TopOutranksRest(s, key, n);
    forall k ensures WithKey(Top(s, key, n), key, k) <= WithKey(s, key, k) {
      TopKeepsTies(s, key, n, k);
    }
  }
}
