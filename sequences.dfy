/** Order-preserving filtering and counting over sequences: the meaning of
    JavaScript's `Array.prototype.filter` and of a counter bumped once per
    element that satisfies a test. Both are defined from the back, so that
    a loop that walks a sequence front to back extends them one element at
    a time. */
module Sequences {

  /** The elements of `xs` that satisfy `p`, in their original order. */
  function Filter<T>(xs: seq<T>, p: T -> bool): seq<T>
  {
    if |xs| == 0 then []
    else Filter(xs[..|xs| - 1], p) + (if p(xs[|xs| - 1]) then [xs[|xs| - 1]] else [])
  }

  /** How many elements of `xs` satisfy `p`. */
  function CountWhere<T>(xs: seq<T>, p: T -> bool): nat
  {
    if |xs| == 0 then 0
    else CountWhere(xs[..|xs| - 1], p) + (if p(xs[|xs| - 1]) then 1 else 0)
  }

  /** `xs` can be obtained from `ys` by deleting elements (order kept). */
  predicate IsSubsequence<T(==)>(xs: seq<T>, ys: seq<T>)
    decreases |ys|
  {
    if |xs| == 0 then true
    else if |ys| == 0 then false
    else (xs[|xs| - 1] == ys[|ys| - 1] && IsSubsequence(xs[..|xs| - 1], ys[..|ys| - 1]))
         || IsSubsequence(xs, ys[..|ys| - 1])
  }

  /** Filtering keeps exactly the satisfying elements, each with its full
      multiplicity, and drops every other element. */
  lemma {:induction false} FilterMultiset<T>(xs: seq<T>, p: T -> bool, x: T)
    ensures multiset(Filter(xs, p))[x] == if p(x) then multiset(xs)[x] else 0
  {
    if |xs| > 0 {
      var init, last := xs[..|xs| - 1], xs[|xs| - 1];
      assert xs == init + [last];
      FilterMultiset(init, p, x);
    }
  }

  /** An element is kept exactly when it occurs and satisfies the test. */
  lemma FilterMembership<T>(xs: seq<T>, p: T -> bool, x: T)
    ensures x in Filter(xs, p) <==> x in xs && p(x)
  {
    FilterMultiset(xs, p, x);
  }

  /** Filtering only deletes: the result is a subsequence of the input. */
  lemma {:induction false} FilterIsSubsequence<T>(xs: seq<T>, p: T -> bool)
    ensures IsSubsequence(Filter(xs, p), xs)
  {
    if |xs| > 0 {
      var init, last := xs[..|xs| - 1], xs[|xs| - 1];
      FilterIsSubsequence(init, p);
      if p(last) {
        var f := Filter(xs, p);
        assert f == Filter(init, p) + [last];
        assert f[..|f| - 1] == Filter(init, p);
      } else {
        assert Filter(xs, p) == Filter(init, p);
        SubsequenceOfInit(Filter(init, p), xs);
      }
    }
  }

  /** A subsequence of the prefix `ys[..|ys|-1]` is a subsequence of `ys`. */
  lemma SubsequenceOfInit<T>(xs: seq<T>, ys: seq<T>)
    requires |ys| > 0 && IsSubsequence(xs, ys[..|ys| - 1])
    ensures IsSubsequence(xs, ys)
  {
  }

  /** Every element is either kept by `p` or counted by its complement `q`. */
  lemma {:induction false} FilterCountPartition<T>(xs: seq<T>, p: T -> bool, q: T -> bool)
    requires forall x :: q(x) == !p(x)
    ensures |Filter(xs, p)| + CountWhere(xs, q) == |xs|
  {
    if |xs| > 0 {
      FilterCountPartition(xs[..|xs| - 1], p, q);
    }
  }

  /** Every kept element satisfies the test, and nothing is added. */
  lemma FilterKeeps<T>(xs: seq<T>, p: T -> bool)
    ensures |Filter(xs, p)| <= |xs|
    ensures forall i :: 0 <= i < |Filter(xs, p)| ==> p(Filter(xs, p)[i])
  {
    forall i | 0 <= i < |Filter(xs, p)|
      ensures p(Filter(xs, p)[i])
    {
      FilterMembership(xs, p, Filter(xs, p)[i]);
    }
    FilterLength(xs, p);
    FilterCountPartition(xs, p, x => !p(x));
  }

  /** The number of kept elements is the number of satisfying elements. */
  lemma {:induction false} FilterLength<T>(xs: seq<T>, p: T -> bool)
    ensures |Filter(xs, p)| == CountWhere(xs, p)
  {
    if |xs| > 0 {
      FilterLength(xs[..|xs| - 1], p);
    }
  }

  /** Filtering seen from the front: the head is kept or dropped on its own
      test, and the tail is filtered independently. */
  lemma {:induction false} FilterCons<T>(x: T, xs: seq<T>, p: T -> bool)
    ensures Filter([x] + xs, p) == (if p(x) then [x] else []) + Filter(xs, p)
    decreases |xs|
  {
    var ys := [x] + xs;
    if |xs| > 0 {
      var init, last := xs[..|xs| - 1], xs[|xs| - 1];
      assert ys[..|ys| - 1] == [x] + init;
      FilterCons(x, init, p);
    } else {
      assert ys[..|ys| - 1] == [];
    }
  }
}
