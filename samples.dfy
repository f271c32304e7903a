/** Shared vocabulary of the signal analyzer: extrema, sums and means of
    real-valued samples, ordering of time stamps, and subsequences. */
module Samples {

  datatype Option<+T> = None | Some(value: T)

  /** One crest or trough of a signal: the sample time and the sample value. */
  datatype Extremum = Extremum(time: real, value: real)

  function Abs(x: real): real
  {
    if x < 0.0 then -x else x
  }

  /** Sum from left to right, the way std::accumulate folds a vector from 0.0. */
  function Sum(xs: seq<real>): real
    decreases |xs|
  {
    if xs == [] then 0.0 else Sum(xs[..|xs| - 1]) + xs[|xs| - 1]
  }

  /** Arithmetic mean: accumulate(...) / size(). */
  function Mean(xs: seq<real>): real
    requires |xs| > 0
  {
    Sum(xs) / (|xs| as real)
  }

  /** The parallel time and value vectors of one extremum set, read as pairs. */
  function Zip(times: seq<real>, values: seq<real>): (r: seq<Extremum>)
    requires |times| == |values|
    ensures |r| == |times|
  {
    seq(|times|, k requires 0 <= k < |times| => Extremum(times[k], values[k]))
  }

  function Times(es: seq<Extremum>): (r: seq<real>)
    ensures |r| == |es|
  {
    seq(|es|, k requires 0 <= k < |es| => es[k].time)
  }

  function Values(es: seq<Extremum>): (r: seq<real>)
    ensures |r| == |es|
  {
    seq(|es|, k requires 0 <= k < |es| => es[k].value)
  }

  predicate StrictlyIncreasing(ts: seq<real>)
  {
    forall i, j :: 0 <= i < j < |ts| ==> ts[i] < ts[j]
  }

  predicate NonDecreasing(ts: seq<real>)
  {
    forall i, j :: 0 <= i < j < |ts| ==> ts[i] <= ts[j]
  }

  /** `w` lists, in increasing order, the positions of `b` that make up `a`. */
  ghost predicate Embeds<T>(w: seq<nat>, a: seq<T>, b: seq<T>)
  {
    && |w| == |a|
    && (forall k {:trigger w[k]} :: 0 <= k < |w| ==> w[k] < |b| && a[k] == b[w[k]])
    && (forall k, l :: 0 <= k < l < |w| ==> w[k] < w[l])
  }

  /** `a` is obtained from `b` by deleting elements, keeping the order of the rest. */
  ghost predicate IsSubsequence<T>(a: seq<T>, b: seq<T>)
  {
    exists w :: Embeds(w, a, b)
  }

  // ---------------------------------------------------------------------------
  // Zip, Times and Values

  lemma ZipRoundTrip(times: seq<real>, values: seq<real>)
    requires |times| == |values|
    ensures Times(Zip(times, values)) == times
    ensures Values(Zip(times, values)) == values
  {
  }

  /** push_back on both parallel vectors appends one pair. */
  lemma ZipAppend(times: seq<real>, values: seq<real>, t: real, v: real)
    requires |times| == |values|
    ensures Zip(times + [t], values + [v]) == Zip(times, values) + [Extremum(t, v)]
  {
  }

  /** erase(begin() + n) on both parallel vectors erases one pair. */
  lemma ZipErase(times: seq<real>, values: seq<real>, n: nat)
    requires |times| == |values| && n < |times|
    ensures Zip(times[..n] + times[n + 1..], values[..n] + values[n + 1..])
         == Zip(times, values)[..n] + Zip(times, values)[n + 1..]
  {
  }

  /** erase(begin()) and pop_back() on both parallel vectors. */
  lemma ZipSlice(times: seq<real>, values: seq<real>, a: nat, b: nat)
    requires |times| == |values| && a <= b <= |times|
    ensures Zip(times[a..b], values[a..b]) == Zip(times, values)[a..b]
  {
  }

  /** The times of a slice are the slice of the times. */
  lemma TimesSlice(es: seq<Extremum>, a: nat, b: nat)
    requires a <= b <= |es|
    ensures Times(es[a..b]) == Times(es)[a..b]
  {
  }

  // ---------------------------------------------------------------------------
  // Sums and means

  lemma {:induction false} SumAppend(xs: seq<real>, ys: seq<real>)
    ensures Sum(xs + ys) == Sum(xs) + Sum(ys)
    decreases |ys|
  {
    if ys == [] {
      assert xs + ys == xs;
    } else {
      var ys' := ys[..|ys| - 1];
      assert (xs + ys)[..|xs + ys| - 1] == xs + ys';
      SumAppend(xs, ys');
    }
  }

  lemma {:induction false} SumConstant(xs: seq<real>, c: real)
    requires forall k :: 0 <= k < |xs| ==> xs[k] == c
    ensures Sum(xs) == (|xs| as real) * c
    decreases |xs|
  {
    if xs != [] {
      SumConstant(xs[..|xs| - 1], c);
    }
  }

  lemma {:induction false} SumLowerBound(xs: seq<real>, lo: real)
    requires forall k :: 0 <= k < |xs| ==> lo <= xs[k]
    ensures (|xs| as real) * lo <= Sum(xs)
    decreases |xs|
  {
    if xs != [] {
      SumLowerBound(xs[..|xs| - 1], lo);
    }
  }

  lemma {:induction false} SumStrictLowerBound(xs: seq<real>, lo: real)
    requires |xs| > 0
    requires forall k :: 0 <= k < |xs| ==> lo < xs[k]
    ensures (|xs| as real) * lo < Sum(xs)
    decreases |xs|
  {
    if |xs| > 1 {
      SumStrictLowerBound(xs[..|xs| - 1], lo);
    }
  }

  lemma {:induction false} SumUpperBound(xs: seq<real>, hi: real)
    requires forall k :: 0 <= k < |xs| ==> xs[k] <= hi
    ensures Sum(xs) <= (|xs| as real) * hi
    decreases |xs|
  {
    if xs != [] {
      SumUpperBound(xs[..|xs| - 1], hi);
    }
  }

  lemma {:induction false} SumStrictUpperBound(xs: seq<real>, hi: real)
    requires |xs| > 0
    requires forall k :: 0 <= k < |xs| ==> xs[k] < hi
    ensures Sum(xs) < (|xs| as real) * hi
    decreases |xs|
  {
    if |xs| > 1 {
      SumStrictUpperBound(xs[..|xs| - 1], hi);
    }
  }

  /** A mean lies between the smallest and the largest bound of its values. */
  lemma MeanWithin(xs: seq<real>, lo: real, hi: real)
    requires |xs| > 0
    requires forall k :: 0 <= k < |xs| ==> lo <= xs[k] <= hi
    ensures lo <= Mean(xs) <= hi
  {
    SumLowerBound(xs, lo);
    SumUpperBound(xs, hi);
    var n := |xs| as real;
    assert Mean(xs) * n == Sum(xs);
  }

  /** The mean of values all equal to `c` is `c`. */
  lemma MeanConstant(xs: seq<real>, c: real)
    requires |xs| > 0
    requires forall k :: 0 <= k < |xs| ==> xs[k] == c
    ensures Mean(xs) == c
  {
    SumConstant(xs, c);
    var n := |xs| as real;
    assert Mean(xs) * n == Sum(xs);
  }

  /** A mean of values all strictly above `lo` is strictly above `lo`. */
  lemma MeanAbove(xs: seq<real>, lo: real)
    requires |xs| > 0
    requires forall k :: 0 <= k < |xs| ==> lo < xs[k]
    ensures lo < Mean(xs)
  {
    SumStrictLowerBound(xs, lo);
    var n := |xs| as real;
    assert Mean(xs) * n == Sum(xs);
  }

  /** A mean of values all strictly below `hi` is strictly below `hi`. */
  lemma MeanBelow(xs: seq<real>, hi: real)
    requires |xs| > 0
    requires forall k :: 0 <= k < |xs| ==> xs[k] < hi
    ensures Mean(xs) < hi
  {
    SumStrictUpperBound(xs, hi);
    var n := |xs| as real;
    assert Mean(xs) * n == Sum(xs);
  }

  // ---------------------------------------------------------------------------
  // Subsequences

  lemma SubsequenceRefl<T>(a: seq<T>)
    ensures IsSubsequence(a, a)
  {
    var w := seq(|a|, k requires 0 <= k < |a| => k as nat);
    assert Embeds(w, a, a);
  }

  /** Erasing one element leaves a subsequence. */
  lemma SubsequenceErase<T>(a: seq<T>, n: nat)
    requires n < |a|
    ensures IsSubsequence(a[..n] + a[n + 1..], a)
  {
    var e := a[..n] + a[n + 1..];
    var w := seq(|a| - 1, k requires 0 <= k < |a| - 1 => if k < n then k as nat else (k + 1) as nat);
    assert Embeds(w, e, a);
  }

  /** A contiguous slice is a subsequence. */
  lemma SubsequenceSlice<T>(a: seq<T>, lo: nat, hi: nat)
    requires lo <= hi <= |a|
    ensures IsSubsequence(a[lo..hi], a)
  {
    var w := seq(hi - lo, k requires 0 <= k < hi - lo => (lo + k) as nat);
    assert Embeds(w, a[lo..hi], a);
  }

  lemma SubsequenceEmpty<T>(b: seq<T>)
    ensures IsSubsequence([], b)
  {
    assert Embeds([], [], b);
  }

  /** Keeping the same first element on both sides keeps a subsequence. */
  lemma SubsequenceCons<T>(x: T, a: seq<T>, b: seq<T>)
    requires IsSubsequence(a, b)
    ensures IsSubsequence([x] + a, [x] + b)
  {
    var w :| Embeds(w, a, b);
    var v := seq(|a| + 1, k requires 0 <= k < |a| + 1 => if k == 0 then 0 else w[k - 1] + 1);
    assert Embeds(v, [x] + a, [x] + b);
  }

  /** Appending the same element to both sides keeps a subsequence. */
  lemma SubsequenceSnoc<T>(a: seq<T>, b: seq<T>, x: T)
    requires IsSubsequence(a, b)
    ensures IsSubsequence(a + [x], b + [x])
  {
    var w :| Embeds(w, a, b);
    var last: nat := |b|;
    var v := w + [last];
    forall k | 0 <= k < |v|
      ensures v[k] < |b| + 1 && (a + [x])[k] == (b + [x])[v[k]]
    {
      if k < |w| {
        assert v[k] == w[k] && w[k] < |b|;
      }
    }
    assert Embeds(v, a + [x], b + [x]);
  }

  /** Appending an element to the longer side only keeps a subsequence. */
  lemma SubsequenceExtend<T>(a: seq<T>, b: seq<T>, x: T)
    requires IsSubsequence(a, b)
    ensures IsSubsequence(a, b + [x])
  {
    var w :| Embeds(w, a, b);
    assert Embeds(w, a, b + [x]);
  }

  lemma SubsequenceTrans<T>(a: seq<T>, b: seq<T>, c: seq<T>)
    requires IsSubsequence(a, b) && IsSubsequence(b, c)
    ensures IsSubsequence(a, c)
  {
    var u :| Embeds(u, a, b);
    var v :| Embeds(v, b, c);
    var w := seq(|u|, k requires 0 <= k < |u| => v[u[k]]);
    assert Embeds(w, a, c);
  }

  lemma {:induction false} EmbeddingGrows<T>(w: seq<nat>, a: seq<T>, b: seq<T>, k: nat)
    requires Embeds(w, a, b) && k < |w|
    ensures k <= w[k]
    decreases k
  {
    if k > 0 {
      EmbeddingGrows(w, a, b, k - 1);
    }
  }

  /** A subsequence is never longer and holds only elements of the original. */
  lemma SubsequenceShrinks<T>(a: seq<T>, b: seq<T>)
    requires IsSubsequence(a, b)
    ensures |a| <= |b|
    ensures forall x :: x in a ==> x in b
  {
    var w :| Embeds(w, a, b);
    if |a| > 0 {
      EmbeddingGrows(w, a, b, |a| - 1);
    }
    forall x | x in a
      ensures x in b
    {
      var k :| 0 <= k < |a| && a[k] == x;
      assert b[w[k]] == x;
    }
  }

  /** The times of a subsequence are a subsequence of the times. */
  lemma SubsequenceTimes(a: seq<Extremum>, b: seq<Extremum>)
    requires IsSubsequence(a, b)
    ensures IsSubsequence(Times(a), Times(b))
  {
    var w :| Embeds(w, a, b);
    assert Embeds(w, Times(a), Times(b));
  }

  /** A subsequence of a strictly increasing sequence is strictly increasing. */
  lemma SubsequenceIncreasing(a: seq<real>, b: seq<real>)
    requires IsSubsequence(a, b) && StrictlyIncreasing(b)
    ensures StrictlyIncreasing(a)
  {
    var w :| Embeds(w, a, b);
    forall i, j | 0 <= i < j < |a|
      ensures a[i] < a[j]
    {
      assert a[i] == b[w[i]] && a[j] == b[w[j]];
    }
  }
}
