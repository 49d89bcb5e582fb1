/**
  Boolean-mask selection over a sequence of records, and sums over a
  sequence: the two table primitives the filter and the aggregation are
  built from (`df[mask]`, `sum`, `count`).
 */
module Selection {

  /** The elements of `xs` for which `p` holds, in their original order. */
  function Keep<T>(xs: seq<T>, p: T -> bool): (r: seq<T>)
    ensures |r| <= |xs|
    ensures forall i :: 0 <= i < |r| ==> p(r[i])
    decreases |xs|
  {
    if xs == [] then []
    else
      var init, last := xs[..|xs| - 1], xs[|xs| - 1];
      assert xs == init + [last];
      Keep(init, p) + (if p(last) then [last] else [])
  }

  /** Conjunction and disjunction of two row tests. */
  function And<T>(p: T -> bool, q: T -> bool): T -> bool
  {
    x => p(x) && q(x)
  }

  function Or<T>(p: T -> bool, q: T -> bool): T -> bool
  {
    x => p(x) || q(x)
  }

  /**
    The positions of `xs` that `Keep` selects: strictly increasing, each
    one holding the element `Keep` puts at that place, and including every
    position whose element passes `p`. So `Keep(xs, p)` is exactly the
    subsequence of the passing elements, in input order.
   */
  function KeptPositions<T>(xs: seq<T>, p: T -> bool): (f: seq<nat>)
    ensures |f| == |Keep(xs, p)|
    ensures forall k :: 0 <= k < |f| ==> f[k] < |xs| && xs[f[k]] == Keep(xs, p)[k]
    ensures forall k, l :: 0 <= k < l < |f| ==> f[k] < f[l]
    ensures forall i :: 0 <= i < |xs| && p(xs[i]) ==> i in f
    decreases |xs|
  {
    if xs == [] then []
    else
      var n := |xs| - 1;
      var init := xs[..n];
      var kept0 := Keep(init, p);
      var f0 := KeptPositions(init, p);
      assert Keep(xs, p) == kept0 + (if p(xs[n]) then [xs[n]] else []);
      assert forall k :: 0 <= k < |f0| ==> Keep(xs, p)[k] == kept0[k] == init[f0[k]] == xs[f0[k]];
      assert forall i :: 0 <= i < n ==> xs[i] == init[i];
      f0 + (if p(xs[n]) then [n] else [])
  }

  /** Appending one element extends the selection by that element when it passes. */
  lemma KeepSnoc<T>(xs: seq<T>, x: T, p: T -> bool)
    ensures Keep(xs + [x], p) == Keep(xs, p) + (if p(x) then [x] else [])
  {
    assert (xs + [x])[..|xs|] == xs;
  }

  /** How often each value occurs in the selection. */
  lemma {:induction false} KeepMultiset<T>(xs: seq<T>, p: T -> bool)
    ensures forall x ::
      multiset(Keep(xs, p))[x] == if p(x) then multiset(xs)[x] else 0
    decreases |xs|
  {
    if xs != [] {
      var n := |xs| - 1;
      assert xs == xs[..n] + [xs[n]];
      KeepMultiset(xs[..n], p);
      KeepSnoc(xs[..n], xs[n], p);
    }
  }

  /** Soundness and completeness: a value is selected exactly when it occurs and passes. */
  lemma KeepMembers<T>(xs: seq<T>, p: T -> bool)
    ensures forall x :: x in Keep(xs, p) <==> x in xs && p(x)
  {
    KeepMultiset(xs, p);
    forall x
      ensures x in Keep(xs, p) <==> x in xs && p(x)
    {
      assert x in Keep(xs, p) <==> multiset(Keep(xs, p))[x] > 0;
      assert x in xs <==> multiset(xs)[x] > 0;
    }
  }

  /** A test no element passes selects nothing. */
  lemma {:induction false} KeepNone<T>(xs: seq<T>, p: T -> bool)
    requires forall i :: 0 <= i < |xs| ==> !p(xs[i])
    ensures Keep(xs, p) == []
    decreases |xs|
  {
    if xs != [] {
      var n := |xs| - 1;
      assert forall i :: 0 <= i < n ==> xs[..n][i] == xs[i];
      KeepNone(xs[..n], p);
    }
  }

  /** Only the test's values on the elements themselves matter. */
  lemma {:induction false} KeepCongruence<T>(xs: seq<T>, p: T -> bool, q: T -> bool)
    requires forall i :: 0 <= i < |xs| ==> p(xs[i]) == q(xs[i])
    ensures Keep(xs, p) == Keep(xs, q)
    decreases |xs|
  {
    if xs != [] {
      var n := |xs| - 1;
      assert forall i :: 0 <= i < n ==> xs[..n][i] == xs[i];
      KeepCongruence(xs[..n], p, q);
    }
  }

  /** A test every element passes selects everything. */
  lemma {:induction false} KeepAll<T>(xs: seq<T>, p: T -> bool)
    requires forall i :: 0 <= i < |xs| ==> p(xs[i])
    ensures Keep(xs, p) == xs
    decreases |xs|
  {
    if xs != [] {
      var n := |xs| - 1;
      assert forall i :: 0 <= i < n ==> xs[..n][i] == xs[i];
      KeepAll(xs[..n], p);
      assert xs == xs[..n] + [xs[n]];
    }
  }

  /** Selecting twice is selecting once by the conjunction of the tests. */
  lemma {:induction false} KeepKeep<T>(xs: seq<T>, p: T -> bool, q: T -> bool)
    ensures Keep(Keep(xs, p), q) == Keep(xs, And(p, q))
    decreases |xs|
  {
    if xs != [] {
      var n := |xs| - 1;
      var init, last := xs[..n], xs[n];
      KeepKeep(init, p, q);
      assert Keep(xs, And(p, q)) == Keep(init, And(p, q)) + (if p(last) && q(last) then [last] else []);
      if p(last) {
        assert Keep(xs, p) == Keep(init, p) + [last];
        KeepSnoc(Keep(init, p), last, q);
      } else {
        assert !And(p, q)(last);
        assert Keep(init, p) + [] == Keep(init, p);
        assert Keep(init, And(p, q)) + [] == Keep(init, And(p, q));
        assert Keep(xs, p) == Keep(init, p);
      }
    }
  }

  /** With disjoint tests, the disjunction selects as many as both together. */
  lemma {:induction false} KeepDisjointCount<T>(xs: seq<T>, p: T -> bool, q: T -> bool)
    requires forall i :: 0 <= i < |xs| ==> !(p(xs[i]) && q(xs[i]))
    ensures |Keep(xs, Or(p, q))| == |Keep(xs, p)| + |Keep(xs, q)|
    decreases |xs|
  {
    if xs != [] {
      var n := |xs| - 1;
      assert forall i :: 0 <= i < n ==> xs[..n][i] == xs[i];
      KeepDisjointCount(xs[..n], p, q);
    }
  }

  /** The sum of the weights `w` over `xs`. */
  function SumBy<T>(xs: seq<T>, w: T -> nat): nat
    decreases |xs|
  {
    if xs == [] then 0 else SumBy(xs[..|xs| - 1], w) + w(xs[|xs| - 1])
  }

  lemma SumBySnoc<T>(xs: seq<T>, x: T, w: T -> nat)
    ensures SumBy(xs + [x], w) == SumBy(xs, w) + w(x)
  {
    assert (xs + [x])[..|xs|] == xs;
  }

  lemma {:induction false} SumByConcat<T>(a: seq<T>, b: seq<T>, w: T -> nat)
    ensures SumBy(a + b, w) == SumBy(a, w) + SumBy(b, w)
    decreases |b|
  {
    if b != [] {
      var n := |b| - 1;
      assert (a + b)[..|a + b| - 1] == a + b[..n];
      assert SumBy(a + b, w) == SumBy(a + b[..n], w) + w(b[n]);
      SumByConcat(a, b[..n], w);
    } else {
      assert a + b == a;
    }
  }

  /** Reordering does not change a sum. */
  lemma {:induction false} SumByPermutation<T>(a: seq<T>, b: seq<T>, w: T -> nat)
    requires multiset(a) == multiset(b)
    ensures SumBy(a, w) == SumBy(b, w)
    decreases |a|
  {
    if a == [] {
      assert |b| == |multiset(b)| == 0;
    } else {
      var n := |a| - 1;
      var x := a[n];
      assert a == a[..n] + [x];
      assert x in multiset(b);
      var i :| 0 <= i < |b| && b[i] == x;
      assert b == b[..i] + [x] + b[i + 1..];
      var rest := b[..i] + b[i + 1..];
      assert multiset(b) == multiset(b[..i]) + multiset{x} + multiset(b[i + 1..]);
      assert multiset(rest) == multiset(b[..i]) + multiset(b[i + 1..]);
      assert multiset(a) == multiset(a[..n]) + multiset{x};
      assert multiset(rest) == multiset(b) - multiset{x};
      assert multiset(a[..n]) == multiset(a) - multiset{x};
      SumByPermutation(a[..n], rest, w);
      SumByConcat(b[..i] + [x], b[i + 1..], w);
      SumByConcat(b[..i], [x], w);
      SumByConcat(b[..i], b[i + 1..], w);
      assert SumBy([x], w) == w(x) by {
        assert [x][..0] == [];
      }
    }
  }

  /** With disjoint tests, the disjunction's selection weighs as much as both together. */
  lemma {:induction false} KeepDisjointSum<T>(xs: seq<T>, p: T -> bool, q: T -> bool, w: T -> nat)
    requires forall i :: 0 <= i < |xs| ==> !(p(xs[i]) && q(xs[i]))
    ensures SumBy(Keep(xs, Or(p, q)), w) == SumBy(Keep(xs, p), w) + SumBy(Keep(xs, q), w)
    decreases |xs|
  {
    if xs != [] {
      var n := |xs| - 1;
      var init, last := xs[..n], xs[n];
      assert forall i :: 0 <= i < n ==> init[i] == xs[i];
      KeepDisjointSum(init, p, q, w);
      var tail := if p(last) || q(last) then [last] else [];
      SumByConcat(Keep(init, Or(p, q)), tail, w);
      SumByConcat(Keep(init, p), if p(last) then [last] else [], w);
      SumByConcat(Keep(init, q), if q(last) then [last] else [], w);
      assert SumBy([last], w) == w(last) by {
        assert [last][..0] == [];
      }
    }
  }
}
