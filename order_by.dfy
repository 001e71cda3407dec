/** lodash `orderBy(collection, iteratee, 'desc')` on a numeric key: a stable
    sort into non-increasing key order. lodash breaks ties by the original
    index, so elements with equal keys keep their relative order. */
module OrderBy {
  import opened Seqs

  ghost predicate NonIncreasing<T>(s: seq<T>, key: T -> real) {
    forall i, j :: 0 <= i < j < |s| ==> key(s[i]) >= key(s[j])
  }

  /** The elements of `s` whose key is `k`, in their order in `s`. */
  function WithKey<T>(s: seq<T>, key: T -> real, k: real): seq<T> {
    if s == [] then []
    else (if key(s[0]) == k then [s[0]] else []) + WithKey(s[1..], key, k)
  }

  /** Places `x` in front of the first element whose key is not greater than
      its own, so that `x` precedes every element of `s` with the same key. */
  function Insert<T>(x: T, s: seq<T>, key: T -> real): seq<T> {
    if s == [] || key(x) >= key(s[0]) then [x] + s
    else [s[0]] + Insert(x, s[1..], key)
  }

  /** The stable descending order of `s` by `key`. */
  function SortDesc<T>(s: seq<T>, key: T -> real): seq<T> {
    if s == [] then [] else Insert(s[0], SortDesc(s[1..], key), key)
  }

  lemma WithKeyCons<T>(x: T, s: seq<T>, key: T -> real, k: real)
    ensures WithKey([x] + s, key, k) == (if key(x) == k then [x] else []) + WithKey(s, key, k)
  {
    var r := [x] + s;
    assert r[0] == x && r[1..] == s;
  }

  lemma FirstIsLargest<T>(s: seq<T>, key: T -> real)
    requires s != [] && NonIncreasing(s, key)
    ensures NonIncreasing(s[1..], key)
    ensures forall y :: y in s ==> key(y) <= key(s[0])
  {
    forall y | y in s ensures key(y) <= key(s[0]) {
      var i :| 0 <= i < |s| && s[i] == y;
    }
  }

  lemma {:induction false} InsertPermutes<T>(x: T, s: seq<T>, key: T -> real)
    ensures multiset(Insert(x, s, key)) == multiset(s) + multiset{x}
  {
    if s != [] && key(x) < key(s[0]) {
      InsertPermutes(x, s[1..], key);
      assert s == [s[0]] + s[1..];
    }
  }

  /** An element no smaller than everything in an ordered sequence may be
      put in front of it. */
  lemma ConsKeepsOrder<T>(a: T, t: seq<T>, key: T -> real)
    requires NonIncreasing(t, key)
    requires forall y :: y in t ==> key(y) <= key(a)
    ensures NonIncreasing([a] + t, key)
  {
    var r := [a] + t;
    forall i, j | 0 <= i < j < |r| ensures key(r[i]) >= key(r[j]) {
      assert r[j] == t[j - 1];
      if i > 0 {
        assert r[i] == t[i - 1];
      }
    }
  }

  lemma {:induction false} InsertKeepsOrder<T>(x: T, s: seq<T>, key: T -> real)
    requires NonIncreasing(s, key)
    ensures NonIncreasing(Insert(x, s, key), key)
  {
    if s == [] || key(x) >= key(s[0]) {
      if s != [] {
        FirstIsLargest(s, key);
      }
      ConsKeepsOrder(x, s, key);
    } else {
      FirstIsLargest(s, key);
      var t := Insert(x, s[1..], key);
      InsertKeepsOrder(x, s[1..], key);
      InsertPermutes(x, s[1..], key);
      forall y | y in t ensures key(y) <= key(s[0]) {
        assert y in multiset(t);
        assert y == x || y in s[1..];
      }
      ConsKeepsOrder(s[0], t, key);
    }
  }

  /** Inserting adds `x` to the front of the elements with its key and leaves the other keys' elements alone. */
  lemma {:induction false} InsertWithKey<T>(x: T, s: seq<T>, key: T -> real, k: real)
    ensures WithKey(Insert(x, s, key), key, k)
      == (if key(x) == k then [x] else []) + WithKey(s, key, k)
  {
    if s == [] || key(x) >= key(s[0]) {
      WithKeyCons(x, s, key, k);
    } else {
      var t := Insert(x, s[1..], key);
      var h: seq<T> := if key(s[0]) == k then [s[0]] else [];
      var hx: seq<T> := if key(x) == k then [x] else [];
      var w := WithKey(s[1..], key, k);
      calc {
        WithKey(Insert(x, s, key), key, k);
        WithKey([s[0]] + t, key, k);
        { WithKeyCons(s[0], t, key, k); }
        h + WithKey(t, key, k);
        { InsertWithKey(x, s[1..], key, k); }
        h + (hx + w);
        { assert h == [] || hx == []; }
        hx + (h + w);
        { WithKeyCons(s[0], s[1..], key, k); assert s == [s[0]] + s[1..]; }
        hx + WithKey(s, key, k);
      }
    }
  }

  /** The sorted sequence holds exactly the elements of the input. */
  lemma {:induction false} SortDescPermutes<T>(s: seq<T>, key: T -> real)
    ensures multiset(SortDesc(s, key)) == multiset(s)
    ensures |SortDesc(s, key)| == |s|
  {
    if s != [] {
      SortDescPermutes(s[1..], key);
      InsertPermutes(s[0], SortDesc(s[1..], key), key);
      assert s == [s[0]] + s[1..];
    }
  }

  /** The sorted sequence is in non-increasing key order. */
  lemma {:induction false} SortDescOrdered<T>(s: seq<T>, key: T -> real)
    ensures NonIncreasing(SortDesc(s, key), key)
  {
    if s != [] {
      SortDescOrdered(s[1..], key);
      InsertKeepsOrder(s[0], SortDesc(s[1..], key), key);
    }
  }

  /** The sort is stable: for every key, the elements with that key appear in
      the sorted sequence in the order they had in the input. */
  lemma {:induction false} SortDescStable<T>(s: seq<T>, key: T -> real, k: real)
    ensures WithKey(SortDesc(s, key), key, k) == WithKey(s, key, k)
  {
    if s != [] {
      SortDescStable(s[1..], key, k);
      InsertWithKey(s[0], SortDesc(s[1..], key), key, k);
    }
  }

  /** Order and stability determine the result: two sequences in
      non-increasing key order that agree, key by key, on the order of their
      elements are equal. So `SortDesc` is the only stable descending order. */
  lemma {:induction false} OrderedAndStableIsUnique<T>(r1: seq<T>, r2: seq<T>, key: T -> real)
    requires NonIncreasing(r1, key) && NonIncreasing(r2, key)
    requires forall k :: WithKey(r1, key, k) == WithKey(r2, key, k)
    ensures r1 == r2
    decreases |r1|
  {
    if r1 != [] {
      NonEmptyAgree(r1, r2, key);
    }
    if r2 != [] {
      NonEmptyAgree(r2, r1, key);
    }
    if r1 != [] && r2 != [] {
      HeadsAgree(r1, r2, key);
      TailsAgree(r1, r2, key);
      FirstIsLargest(r1, key);
      FirstIsLargest(r2, key);
      OrderedAndStableIsUnique(r1[1..], r2[1..], key);
    }
  }

  /** The elements with key `k` are the elements of `s` with that key. */
  lemma {:induction false} WithKeyMember<T>(s: seq<T>, key: T -> real, k: real, x: T)
    ensures x in WithKey(s, key, k) <==> x in s && key(x) == k
  {
    if s != [] {
      WithKeyMember(s[1..], key, k, x);
      WithKeyCons(s[0], s[1..], key, k);
      assert s == [s[0]] + s[1..];
    }
  }

  lemma NonEmptyAgree<T>(r1: seq<T>, r2: seq<T>, key: T -> real)
    requires r1 != []
    requires forall k :: WithKey(r1, key, k) == WithKey(r2, key, k)
    ensures r2 != []
  {
    var k := key(r1[0]);
    assert WithKey(r1, key, k) == WithKey(r2, key, k);
    WithKeyMember(r1, key, k, r1[0]);
    WithKeyMember(r2, key, k, r1[0]);
  }

  /** The first element of `r1` also occurs in `r2`, so its key is at most
      that of the first element of `r2`. */
  lemma HeadKeyAtMost<T>(r1: seq<T>, r2: seq<T>, key: T -> real)
    requires r1 != [] && r2 != [] && NonIncreasing(r2, key)
    requires WithKey(r1, key, key(r1[0])) == WithKey(r2, key, key(r1[0]))
    ensures key(r1[0]) <= key(r2[0])
  {
    FirstIsLargest(r2, key);
    WithKeyMember(r1, key, key(r1[0]), r1[0]);
    WithKeyMember(r2, key, key(r1[0]), r1[0]);
  }

  lemma HeadsAgree<T>(r1: seq<T>, r2: seq<T>, key: T -> real)
    requires r1 != [] && r2 != []
    requires NonIncreasing(r1, key) && NonIncreasing(r2, key)
    requires forall k :: WithKey(r1, key, k) == WithKey(r2, key, k)
    ensures r1[0] == r2[0]
  {
    var k := key(r1[0]);
    HeadKeyAtMost(r1, r2, key);
    HeadKeyAtMost(r2, r1, key);
    assert r1 == [r1[0]] + r1[1..] && r2 == [r2[0]] + r2[1..];
    WithKeyCons(r1[0], r1[1..], key, k);
    WithKeyCons(r2[0], r2[1..], key, k);
    assert WithKey(r1, key, k)[0] == WithKey(r2, key, k)[0];
  }

  lemma TailsAgree<T>(r1: seq<T>, r2: seq<T>, key: T -> real)
    requires r1 != [] && r2 != [] && r1[0] == r2[0]
    requires forall k :: WithKey(r1, key, k) == WithKey(r2, key, k)
    ensures forall k :: WithKey(r1[1..], key, k) == WithKey(r2[1..], key, k)
  {
    assert r1 == [r1[0]] + r1[1..] && r2 == [r2[0]] + r2[1..];
    forall k ensures WithKey(r1[1..], key, k) == WithKey(r2[1..], key, k) {
      var h := if key(r1[0]) == k then [r1[0]] else [];
      assert WithKey(r1, key, k) == WithKey(r2, key, k);
      WithKeyCons(r1[0], r1[1..], key, k);
      WithKeyCons(r2[0], r2[1..], key, k);
      assert h + WithKey(r1[1..], key, k) == h + WithKey(r2[1..], key, k);
      assert WithKey(r1[1..], key, k) == (h + WithKey(r1[1..], key, k))[|h|..];
      assert WithKey(r2[1..], key, k) == (h + WithKey(r2[1..], key, k))[|h|..];
    }
  }

  /** When every element has key `k`, selecting key `k` keeps everything. */
  lemma {:induction false} WithKeyAll<T>(s: seq<T>, key: T -> real, k: real)
    requires forall x :: x in s ==> key(x) == k
    ensures WithKey(s, key, k) == s
  {
    if s != [] {
      assert forall x :: x in s[1..] ==> x in s;
      WithKeyAll(s[1..], key, k);
      assert s == [s[0]] + s[1..];
    }
  }

  /** When every element has the same key, sorting changes nothing. */
  lemma SortDescAllTies<T>(s: seq<T>, key: T -> real, k: real)
    requires forall x :: x in s ==> key(x) == k
    ensures SortDesc(s, key) == s
  {
    SortDescStable(s, key, k);
    SortDescPermutes(s, key);
    var r := SortDesc(s, key);
    assert forall x :: x in r ==> x in multiset(s);
    WithKeyAll(s, key, k);
    WithKeyAll(r, key, k);
  }
}
