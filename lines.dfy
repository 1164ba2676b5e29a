/**
 * Keeping the lines of a listing that satisfy a test, in their order.
 * The xinput helper keeps lines this way twice (all pointers, then
 * pointers that are not excluded); this module states once what keeping
 * means: which positions survive, in which order, and that the survivors
 * form a subsequence.
 */
module Lines {

  /** The elements of `xs` that satisfy `p`, in order. */
  function Filter<T>(xs: seq<T>, p: T -> bool): seq<T>
  {
    if xs == [] then [] else (if p(xs[0]) then [xs[0]] else []) + Filter(xs[1..], p)
  }

  /** Filtering distributes over concatenation: the loops of the helper walk
      the lines from first to last. */
  lemma {:induction false} FilterConcat<T>(xs: seq<T>, ys: seq<T>, p: T -> bool)
    ensures Filter(xs + ys, p) == Filter(xs, p) + Filter(ys, p)
  {
    if xs == [] {
      assert xs + ys == ys;
    } else {
      var zs := xs + ys;
      assert zs[0] == xs[0] && zs[1..] == xs[1..] + ys;
      FilterConcat(xs[1..], ys, p);
      var h := if p(xs[0]) then [xs[0]] else [];
      calc {
        Filter(zs, p);
        h + Filter(xs[1..] + ys, p);
        h + (Filter(xs[1..], p) + Filter(ys, p));
        (h + Filter(xs[1..], p)) + Filter(ys, p);
      }
    }
  }

  /** One loop step: the first `i + 1` elements filter to those of the first
      `i`, plus element `i` if it passes. */
  lemma FilterStep<T>(xs: seq<T>, i: nat, p: T -> bool)
    requires i < |xs|
    ensures p(xs[i]) ==> Filter(xs[..i + 1], p) == Filter(xs[..i], p) + [xs[i]]
    ensures !p(xs[i]) ==> Filter(xs[..i + 1], p) == Filter(xs[..i], p)
  {
    assert xs[..i + 1] == xs[..i] + [xs[i]];
    FilterConcat(xs[..i], [xs[i]], p);
    assert Filter([xs[i]], p) == (if p(xs[i]) then [xs[i]] else []) + Filter([xs[i]][1..], p);
    assert Filter(xs[..i], p) + [] == Filter(xs[..i], p);
  }

  /** Positions of `xs` that satisfy `p`, in increasing order, counted from `base`. */
  function KeptFrom<T>(xs: seq<T>, p: T -> bool, base: nat): seq<nat>
  {
    if xs == [] then [] else (if p(xs[0]) then [base] else []) + KeptFrom(xs[1..], p, base + 1)
  }

  function KeptIndices<T>(xs: seq<T>, p: T -> bool): seq<nat>
  {
    KeptFrom(xs, p, 0)
  }

  /** Each kept position lies in range, passes `p`, and supplies the element
      `Filter` keeps at the same rank. */
  lemma {:induction false} KeptFromSource<T>(xs: seq<T>, p: T -> bool, base: nat)
    ensures |KeptFrom(xs, p, base)| == |Filter(xs, p)|
    ensures forall k :: 0 <= k < |KeptFrom(xs, p, base)| ==>
              var i := KeptFrom(xs, p, base)[k];
              base <= i < base + |xs| && p(xs[i - base]) && Filter(xs, p)[k] == xs[i - base]
  {
    if xs != [] {
      KeptFromSource(xs[1..], p, base + 1);
      var idx, f := KeptFrom(xs, p, base), Filter(xs, p);
      var tail, ft := KeptFrom(xs[1..], p, base + 1), Filter(xs[1..], p);
      var n := if p(xs[0]) then 1 else 0;
      assert idx == (if p(xs[0]) then [base] else []) + tail;
      assert f == (if p(xs[0]) then [xs[0]] else []) + ft;
      forall k | n <= k < |idx|
        ensures base <= idx[k] < base + |xs| && p(xs[idx[k] - base]) && f[k] == xs[idx[k] - base]
      {
        assert idx[k] == tail[k - n] && f[k] == ft[k - n];
        assert xs[idx[k] - base] == xs[1..][tail[k - n] - (base + 1)];
      }
    }
  }

  lemma {:induction false} KeptFromBounds<T>(xs: seq<T>, p: T -> bool, base: nat)
    ensures forall k :: 0 <= k < |KeptFrom(xs, p, base)| ==> base <= KeptFrom(xs, p, base)[k]
  {
    if xs != [] {
      KeptFromBounds(xs[1..], p, base + 1);
    }
  }

  lemma {:induction false} KeptFromIncreasing<T>(xs: seq<T>, p: T -> bool, base: nat)
    ensures forall k, l :: 0 <= k < l < |KeptFrom(xs, p, base)| ==>
              KeptFrom(xs, p, base)[k] < KeptFrom(xs, p, base)[l]
  {
    if xs != [] {
      KeptFromIncreasing(xs[1..], p, base + 1);
      KeptFromBounds(xs[1..], p, base + 1);
      var tail := KeptFrom(xs[1..], p, base + 1);
      assert KeptFrom(xs, p, base) == (if p(xs[0]) then [base] else []) + tail;
    }
  }

  lemma {:induction false} KeptFromComplete<T>(xs: seq<T>, p: T -> bool, base: nat)
    ensures forall i :: base <= i < base + |xs| && p(xs[i - base]) ==> i in KeptFrom(xs, p, base)
  {
    if xs != [] {
      KeptFromComplete(xs[1..], p, base + 1);
      var tail := KeptFrom(xs[1..], p, base + 1);
      assert KeptFrom(xs, p, base) == (if p(xs[0]) then [base] else []) + tail;
      forall i | base < i < base + |xs| && p(xs[i - base])
        ensures i in KeptFrom(xs, p, base)
      {
        assert xs[1..][i - (base + 1)] == xs[i - base];
      }
    }
  }

  /** What `Filter` keeps: exactly one element per position that satisfies
      `p`, each taken from that position, positions strictly increasing. */
  lemma FilterKeeps<T>(xs: seq<T>, p: T -> bool)
    ensures var idx, f := KeptIndices(xs, p), Filter(xs, p);
      && |idx| == |f|
      && (forall k :: 0 <= k < |idx| ==> idx[k] < |xs| && p(xs[idx[k]]) && f[k] == xs[idx[k]])
      && (forall k, l :: 0 <= k < l < |idx| ==> idx[k] < idx[l])
      && (forall i :: 0 <= i < |xs| && p(xs[i]) ==> i in idx)
  {
    KeptFromSource(xs, p, 0);
    KeptFromIncreasing(xs, p, 0);
    KeptFromComplete(xs, p, 0);
  }

  /** `a` is `b` with some elements left out, the rest in the same order. */
  predicate IsSubseq<T(==)>(a: seq<T>, b: seq<T>)
    decreases |b|
  {
    a == [] || (b != [] && ((a[0] == b[0] && IsSubseq(a[1..], b[1..])) || IsSubseq(a, b[1..])))
  }

  lemma {:induction false} FilterIsSubseq<T>(xs: seq<T>, p: T -> bool)
    ensures IsSubseq(Filter(xs, p), xs)
  {
    if xs != [] {
      FilterIsSubseq(xs[1..], p);
      var f := Filter(xs, p);
      if p(xs[0]) {
        assert f == [xs[0]] + Filter(xs[1..], p);
        assert f[0] == xs[0] && f[1..] == Filter(xs[1..], p);
      } else {
        assert f == Filter(xs[1..], p);
      }
    }
  }

  /** Filtering twice keeps what passes both tests. */
  lemma {:induction false} FilterFilter<T>(xs: seq<T>, p: T -> bool, q: T -> bool, pq: T -> bool)
    requires forall x :: pq(x) == (p(x) && q(x))
    ensures Filter(Filter(xs, p), q) == Filter(xs, pq)
  {
    if xs != [] {
      FilterFilter(xs[1..], p, q, pq);
      var fp := Filter(xs, p);
      if p(xs[0]) {
        assert fp == [xs[0]] + Filter(xs[1..], p);
        assert fp != [] && fp[0] == xs[0] && fp[1..] == Filter(xs[1..], p);
      } else {
        assert fp == Filter(xs[1..], p);
      }
    }
  }
}
