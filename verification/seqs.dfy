/**
  Order-preserving filtering over sequences, and the subsequence relation it
  establishes. Both `Objects` and `Enum` filter an ordered list (of entries, or
  of keys) with a predicate, so the shared facts live here once.
 */
module Seqs {

  /** `a` can be obtained from `b` by deleting elements, keeping the rest in order. */
  predicate IsSubsequence<T(==)>(a: seq<T>, b: seq<T>)
    decreases |b|
  {
    if |a| == 0 then true
    else if |b| == 0 then false
    else (a[0] == b[0] && IsSubsequence(a[1..], b[1..])) || IsSubsequence(a, b[1..])
  }

  /** The elements of `s` that satisfy `p`, in their original order
      (the behaviour of JavaScript's `Array.prototype.filter`). */
  function Filter<T(==)>(s: seq<T>, p: T -> bool): (r: seq<T>)
    ensures |r| <= |s|
    ensures forall i :: 0 <= i < |r| ==> r[i] in s && p(r[i])
    ensures forall i :: 0 <= i < |s| && p(s[i]) ==> s[i] in r
    decreases |s|
  {
    if |s| == 0 then []
    else if p(s[0]) then [s[0]] + Filter(s[1..], p)
    else Filter(s[1..], p)
  }

  /** A filter keeps every copy of each element it accepts and no copy of one it rejects. */
  lemma {:induction false} FilterCounts<T>(s: seq<T>, p: T -> bool)
    ensures forall x :: multiset(Filter(s, p))[x] == if p(x) then multiset(s)[x] else 0
    decreases |s|
  {
    if |s| > 0 {
      FilterCounts(s[1..], p);
      assert s == [s[0]] + s[1..];
      assert multiset(s) == multiset([s[0]]) + multiset(s[1..]);
    }
  }

  /** The element-wise image of `s` under `f` (JavaScript's `Array.prototype.map`). */
  function Map<T, U>(s: seq<T>, f: T -> U): (r: seq<U>)
    ensures |r| == |s|
    ensures forall i :: 0 <= i < |s| ==> r[i] == f(s[i])
  {
    seq(|s|, i requires 0 <= i < |s| => f(s[i]))
  }

  /** Mapping distributes over concatenation. */
  lemma MapAppend<T, U>(a: seq<T>, b: seq<T>, f: T -> U)
    ensures Map(a + b, f) == Map(a, f) + Map(b, f)
  {
    var l, r := Map(a + b, f), Map(a, f) + Map(b, f);
    forall i | 0 <= i < |l|
      ensures l[i] == r[i]
    {
      if i < |a| {
        assert (a + b)[i] == a[i];
      } else {
        assert (a + b)[i] == b[i - |a|];
      }
    }
  }

  /** Two functions that agree on every element map a sequence alike. */
  lemma MapCongruent<T, U>(s: seq<T>, f: T -> U, g: T -> U)
    requires forall i :: 0 <= i < |s| ==> f(s[i]) == g(s[i])
    ensures Map(s, f) == Map(s, g)
  {
  }

  /** A filter never invents, duplicates or reorders elements. */
  lemma {:induction false} FilterIsSubsequence<T>(s: seq<T>, p: T -> bool)
    ensures IsSubsequence(Filter(s, p), s)
    decreases |s|
  {
    if |s| > 0 {
      FilterIsSubsequence(s[1..], p);
      var rest := Filter(s[1..], p);
      if p(s[0]) {
        assert Filter(s, p) == [s[0]] + rest;
        assert (Filter(s, p))[1..] == rest;
      } else {
        assert Filter(s, p) == rest;
        if |rest| > 0 {
          assert IsSubsequence(rest, s[1..]);
        }
      }
    }
  }

  /** Filtering twice with the same predicate is the same as filtering once. */
  lemma {:induction false} FilterIdempotent<T>(s: seq<T>, p: T -> bool)
    ensures Filter(Filter(s, p), p) == Filter(s, p)
    decreases |s|
  {
    if |s| > 0 {
      FilterIdempotent(s[1..], p);
      var rest := Filter(s[1..], p);
      if p(s[0]) {
        var once := [s[0]] + rest;
        assert once[0] == s[0] && once[1..] == rest;
        assert Filter(once, p) == [s[0]] + Filter(rest, p);
      }
    }
  }

  /** A predicate that holds of every element keeps the whole sequence. */
  lemma {:induction false} FilterKeepsAll<T>(s: seq<T>, p: T -> bool)
    requires forall i :: 0 <= i < |s| ==> p(s[i])
    ensures Filter(s, p) == s
    decreases |s|
  {
    if |s| > 0 {
      assert p(s[0]);
      FilterKeepsAll(s[1..], p);
      assert [s[0]] + s[1..] == s;
    }
  }

  /** Two predicates that agree on every element of `s` filter it identically. */
  lemma {:induction false} FilterCongruent<T>(s: seq<T>, p: T -> bool, q: T -> bool)
    requires forall i :: 0 <= i < |s| ==> p(s[i]) == q(s[i])
    ensures Filter(s, p) == Filter(s, q)
    decreases |s|
  {
    if |s| > 0 {
      assert p(s[0]) == q(s[0]);
      FilterCongruent(s[1..], p, q);
    }
  }

  /** Two predicates that split every element of `s` between them split its length too. */
  lemma {:induction false} FilterPartition<T>(s: seq<T>, p: T -> bool, q: T -> bool)
    requires forall i :: 0 <= i < |s| ==> p(s[i]) != q(s[i])
    ensures |Filter(s, p)| + |Filter(s, q)| == |s|
    decreases |s|
  {
    if |s| > 0 {
      assert p(s[0]) != q(s[0]);
      FilterPartition(s[1..], p, q);
    }
  }
}
