/** Order-preserving filtering of sequences, the shape shared by JavaScript's
    `Array.prototype.filter` and by SQL `WHERE` clauses read in table order. */
module Seqs {

  /** `sub` is obtained from `xs` by deleting elements, keeping the order of the rest. */
  ghost predicate IsSubsequence<T>(sub: seq<T>, xs: seq<T>)
    decreases |xs|
  {
    if sub == [] then true
    else if xs == [] then false
    else if sub[0] == xs[0] then IsSubsequence(sub[1..], xs[1..])
    else IsSubsequence(sub, xs[1..])
  }

  /** The elements of `xs` that satisfy `p`, in their original order. */
  function Filter<T>(p: T -> bool, xs: seq<T>): (r: seq<T>)
    ensures |r| <= |xs|
    ensures forall x <- r :: x in xs && p(x)
  {
    if xs == [] then []
    else if p(xs[0]) then [xs[0]] + Filter(p, xs[1..])
    else Filter(p, xs[1..])
  }

  lemma {:induction false} FilterMembership<T>(p: T -> bool, xs: seq<T>, x: T)
    ensures x in Filter(p, xs) <==> x in xs && p(x)
  {
    if xs != [] {
      FilterMembership(p, xs[1..], x);
      assert xs == [xs[0]] + xs[1..];
    }
  }

  lemma {:induction false} FilterIsSubsequence<T>(p: T -> bool, xs: seq<T>)
    ensures IsSubsequence(Filter(p, xs), xs)
  {
    if xs != [] {
      FilterIsSubsequence(p, xs[1..]);
      if p(xs[0]) {
        assert Filter(p, xs)[1..] == Filter(p, xs[1..]);
      }
    }
  }

  /** Nothing is dropped when every element passes. */
  lemma {:induction false} FilterAllPass<T>(p: T -> bool, xs: seq<T>)
    requires forall x <- xs :: p(x)
    ensures Filter(p, xs) == xs
  {
    if xs != [] {
      FilterAllPass(p, xs[1..]);
      assert xs == [xs[0]] + xs[1..];
    }
  }

  /** Nothing is kept when no element passes. */
  lemma {:induction false} FilterNonePass<T>(p: T -> bool, xs: seq<T>)
    requires forall x <- xs :: !p(x)
    ensures Filter(p, xs) == []
  {
    if xs != [] {
      FilterNonePass(p, xs[1..]);
    }
  }

  /** Filtering twice with the same predicate is filtering once. */
  lemma {:induction false} FilterIdempotent<T>(p: T -> bool, xs: seq<T>)
    ensures Filter(p, Filter(p, xs)) == Filter(p, xs)
  {
    FilterAllPass(p, Filter(p, xs));
  }

  /** A stronger predicate keeps a subsequence of what a weaker one keeps. */
  lemma {:induction false} FilterStrongerKeepsLess<T>(p: T -> bool, q: T -> bool, xs: seq<T>)
    requires forall x <- xs :: p(x) ==> q(x)
    ensures IsSubsequence(Filter(p, xs), Filter(q, xs))
  {
    if xs != [] {
      FilterStrongerKeepsLess(p, q, xs[1..]);
      var fp, fq := Filter(p, xs[1..]), Filter(q, xs[1..]);
      if p(xs[0]) {
        assert Filter(p, xs) == [xs[0]] + fp && Filter(q, xs) == [xs[0]] + fq;
        assert ([xs[0]] + fp)[1..] == fp && ([xs[0]] + fq)[1..] == fq;
      } else if q(xs[0]) {
        SubsequenceOfTail(Filter(p, xs), fq, xs[0]);
      }
    }
  }

  lemma {:induction false} SubsequenceOfTail<T>(sub: seq<T>, xs: seq<T>, x: T)
    requires IsSubsequence(sub, xs)
    ensures IsSubsequence(sub, [x] + xs)
    decreases |xs| + 1, 0
  {
    assert ([x] + xs)[1..] == xs;
    if sub != [] && sub[0] == x {
      SubsequenceDropHead(sub, xs);
    }
  }

  /** Dropping the first element of a subsequence keeps it a subsequence. */
  lemma {:induction false} SubsequenceDropHead<T>(sub: seq<T>, xs: seq<T>)
    requires sub != [] && IsSubsequence(sub, xs)
    ensures IsSubsequence(sub[1..], xs)
    decreases |xs|, 1
  {
    if sub[1..] != [] {
      assert xs != [];
      if sub[0] == xs[0] {
        SubsequenceOfTail(sub[1..], xs[1..], xs[0]);
        assert [xs[0]] + xs[1..] == xs;
      } else {
        SubsequenceDropHead(sub, xs[1..]);
        SubsequenceOfTail(sub[1..], xs[1..], xs[0]);
        assert [xs[0]] + xs[1..] == xs;
      }
    }
  }

  /** Filtering keeps every copy of an element that passes and no copy of one that fails. */
  lemma {:induction false} FilterMultiplicity<T>(p: T -> bool, xs: seq<T>, x: T)
    ensures multiset(Filter(p, xs))[x] == if p(x) then multiset(xs)[x] else 0
  {
    if xs != [] {
      FilterMultiplicity(p, xs[1..], x);
      assert xs == [xs[0]] + xs[1..];
      assert multiset(xs) == multiset{xs[0]} + multiset(xs[1..]);
    }
  }

  /** What `Filter` keeps, all at once: a subsequence of `xs` holding exactly the
      elements that pass, each as often as it occurs in `xs`. */
  lemma {:induction false} FilterCharacterised<T>(p: T -> bool, xs: seq<T>)
    ensures IsSubsequence(Filter(p, xs), xs)
    ensures forall x :: x in Filter(p, xs) <==> x in xs && p(x)
    ensures forall x :: multiset(Filter(p, xs))[x] == if p(x) then multiset(xs)[x] else 0
  {
    FilterIsSubsequence(p, xs);
    forall x
      ensures x in Filter(p, xs) <==> x in xs && p(x)
      ensures multiset(Filter(p, xs))[x] == if p(x) then multiset(xs)[x] else 0
    {
      FilterMembership(p, xs, x);
      FilterMultiplicity(p, xs, x);
    }
  }

  /** Filtering distributes over appending one element, as a loop that pushes the
      elements that pass one at a time does. */
  lemma {:induction false} FilterAppend<T>(p: T -> bool, xs: seq<T>, x: T)
    ensures Filter(p, xs + [x]) == Filter(p, xs) + (if p(x) then [x] else [])
  {
    if xs == [] {
      assert [] + [x] == [x];
    } else {
      assert (xs + [x])[1..] == xs[1..] + [x];
      FilterAppend(p, xs[1..], x);
    }
  }

  predicate IncreasingBy<T>(key: T -> int, xs: seq<T>)
  {
    forall i, j :: 0 <= i < j < |xs| ==> key(xs[i]) < key(xs[j])
  }

  /** Filtering keeps a sequence sorted by a strictly increasing key. */
  lemma {:induction false} FilterKeepsIncreasing<T>(p: T -> bool, key: T -> int, xs: seq<T>)
    requires IncreasingBy(key, xs)
    ensures IncreasingBy(key, Filter(p, xs))
  {
    if xs != [] {
      var tail := xs[1..];
      FilterKeepsIncreasing(p, key, tail);
      if p(xs[0]) {
        var rest := Filter(p, tail);
        forall y <- rest ensures key(xs[0]) < key(y) {
          FilterMembership(p, tail, y);
          var m :| 0 <= m < |tail| && tail[m] == y;
          assert xs[m + 1] == y;
        }
        ConsKeepsIncreasing(key, xs[0], rest);
      }
    }
  }

  lemma {:induction false} ConsKeepsIncreasing<T>(key: T -> int, x: T, rest: seq<T>)
    requires IncreasingBy(key, rest)
    requires forall y <- rest :: key(x) < key(y)
    ensures IncreasingBy(key, [x] + rest)
  {
    var r := [x] + rest;
    forall i, j | 0 <= i < j < |r| ensures key(r[i]) < key(r[j]) {
      assert r[j] == rest[j - 1];
      if i > 0 {
        assert r[i] == rest[i - 1];
      }
    }
  }

  /** The reverse of a sequence, used for `ORDER BY created_at DESC` over rows kept in insertion order. */
  function Reverse<T>(xs: seq<T>): (r: seq<T>)
    ensures |r| == |xs|
    ensures forall i :: 0 <= i < |xs| ==> r[i] == xs[|xs| - 1 - i]
  {
    if xs == [] then [] else Reverse(xs[1..]) + [xs[0]]
  }
}
