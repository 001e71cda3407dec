/** Sequences as JavaScript arrays are used by the farm list: an optional value
    for fields that may be absent, `Array.prototype.filter`, and the
    "is a subsequence of" relation that filtering establishes. */
module Seqs {

  /** A value that may be absent. Which source values count as absent is
      stated per field where an `Option` is used. */
  datatype Option<T> = None | Some(value: T)

  /** `s.filter(p)`: the elements of `s` that satisfy `p`, in their original order. */
  function Filter<T>(s: seq<T>, p: T -> bool): (r: seq<T>)
    ensures |r| <= |s|
    ensures forall x :: x in r ==> x in s && p(x)
    ensures forall x :: x in s && p(x) ==> x in r
    ensures multiset(r) <= multiset(s)
    ensures forall x :: x in s && p(x) ==> multiset(r)[x] == multiset(s)[x]
  {
    if s == [] then []
    else
      assert s == [s[0]] + s[1..];
      if p(s[0]) then [s[0]] + Filter(s[1..], p) else Filter(s[1..], p)
  }

  /** `a` can be obtained from `b` by deleting some of its elements: each
      element of `b` is either kept (and is then the next element of `a`) or dropped. */
  ghost predicate IsSubseq<T>(a: seq<T>, b: seq<T>)
    decreases |b|
  {
    if b == [] then a == []
    else (a != [] && a[0] == b[0] && IsSubseq(a[1..], b[1..])) || IsSubseq(a, b[1..])
  }

  /** Filtering only deletes elements: the result keeps the input's order. */
  lemma {:induction false} FilterIsSubseq<T>(s: seq<T>, p: T -> bool)
    ensures IsSubseq(Filter(s, p), s)
  {
    if s != [] {
      FilterIsSubseq(s[1..], p);
      if p(s[0]) {
        var r := Filter(s, p);
        assert r[0] == s[0] && r[1..] == Filter(s[1..], p);
      }
    }
  }

  /** Filtering twice is filtering once by the conjunction. */
  lemma {:induction false} FilterOfFilter<T>(s: seq<T>, p: T -> bool, q: T -> bool, pq: T -> bool)
    requires forall x :: pq(x) == (p(x) && q(x))
    ensures Filter(Filter(s, p), q) == Filter(s, pq)
  {
    if s != [] {
      FilterOfFilter(s[1..], p, q, pq);
      if p(s[0]) {
        assert Filter(s, p)[1..] == Filter(s[1..], p);
      }
    }
  }

  /** Splitting the elements that satisfy `p` by a second test `q` loses and
      duplicates nothing: the two parts together hold exactly those elements. */
  lemma {:induction false} FilterSplit<T>(s: seq<T>, p: T -> bool, pq: T -> bool, pnq: T -> bool, q: T -> bool)
    requires forall x :: pq(x) == (p(x) && q(x))
    requires forall x :: pnq(x) == (p(x) && !q(x))
    ensures multiset(Filter(s, pq)) + multiset(Filter(s, pnq)) == multiset(Filter(s, p))
    ensures |Filter(s, pq)| + |Filter(s, pnq)| == |Filter(s, p)|
  {
    if s != [] {
      FilterSplit(s[1..], p, pq, pnq, q);
    }
  }

  /** A filter that every element passes returns its input. */
  lemma {:induction false} FilterAll<T>(s: seq<T>, p: T -> bool)
    requires forall x :: x in s ==> p(x)
    ensures Filter(s, p) == s
  {
    if s != [] {
      assert forall x :: x in s[1..] ==> x in s;
      FilterAll(s[1..], p);
    }
  }
}
