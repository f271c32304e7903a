/** What filter_signal does to the extremum lists of all signals, as a
    fold: each epoch filters signal i against signal j for every ordered
    pair in row-major order, crests before troughs, each step seeing the
    lists that earlier steps have already pruned. */
module Rounds {
  import opened Samples
  import opened Pairs
  import opened Consolidation

  /** The crest and trough lists of one signal. */
  datatype Lists = Lists(crests: seq<Extremum>, troughs: seq<Extremum>)

  /** filter_signal_crest then filter_signal_trough of signal p.i against
      signal p.j; None where either call exits (and for a pair outside the
      list, which the driver never forms). */
  function FilterPair(st: seq<Lists>, p: Pair): (r: Option<seq<Lists>>)
    ensures r.Some? ==> |r.value| == |st|
  {
    if p.i >= |st| || p.j >= |st| then None
    else
      match Filter(st[p.i].crests, Times(st[p.j].crests), Crest)
      case None => None
      case Some(c) =>
        match Filter(st[p.i].troughs, Times(st[p.j].troughs), Trough)
        case None => None
        case Some(t) => Some(st[p.i := Lists(c, t)])
  }

  /** The steps `step` for the pairs `ps`, in order; the first None ends it. */
  function Fold(st: seq<Lists>, ps: seq<Pair>, step: (seq<Lists>, Pair) -> Option<seq<Lists>>): Option<seq<Lists>>
    decreases |ps|
  {
    if ps == [] then Some(st)
    else
      match Fold(st, ps[..|ps| - 1], step)
      case None => None
      case Some(s) => step(s, ps[|ps| - 1])
  }

  /** The filter steps for the pairs `ps`, in order. */
  function Apply(st: seq<Lists>, ps: seq<Pair>): Option<seq<Lists>>
  {
    Fold(st, ps, FilterPair)
  }

  /** `epochs` rounds over all ordered pairs of distinct signals. */
  function Epochs(st: seq<Lists>, epochs: nat): Option<seq<Lists>>
    decreases epochs
  {
    if epochs == 0 then Some(st)
    else
      match Epochs(st, epochs - 1)
      case None => None
      case Some(s) => Apply(s, OrderedPairs(|st|))
  }

  // ---------------------------------------------------------------------------
  // Folding in pieces

  lemma {:induction false} FoldAppend(st: seq<Lists>, a: seq<Pair>, b: seq<Pair>, step: (seq<Lists>, Pair) -> Option<seq<Lists>>)
    ensures Fold(st, a + b, step) == match Fold(st, a, step)
                                     case None => None
                                     case Some(s) => Fold(s, b, step)
    decreases |b|
  {
    if b == [] {
      assert a + b == a;
    } else {
      FoldAppend(st, a, b[..|b| - 1], step);
      assert (a + b)[..|a + b| - 1] == a + b[..|b| - 1];
    }
  }

  lemma FoldOne(st: seq<Lists>, a: seq<Pair>, p: Pair, step: (seq<Lists>, Pair) -> Option<seq<Lists>>)
    ensures Fold(st, a + [p], step) == match Fold(st, a, step)
                                       case None => None
                                       case Some(s) => step(s, p)
  {
    assert (a + [p])[..|a|] == a;
  }

  /** Once a step exits, the program is gone: no longer pair list succeeds. */
  lemma {:induction false} FoldPrefixFails(st: seq<Lists>, ps: seq<Pair>, k: nat, step: (seq<Lists>, Pair) -> Option<seq<Lists>>)
    requires k <= |ps| && Fold(st, ps[..k], step).None?
    ensures Fold(st, ps, step).None?
    decreases |ps| - k
  {
    if k < |ps| {
      assert ps[..k + 1][..k] == ps[..k];
      FoldPrefixFails(st, ps, k + 1, step);
    } else {
      assert ps[..k] == ps;
    }
  }

  /** Filtering keeps the number of signals. */
  lemma {:induction false} ApplyKeepsLength(st: seq<Lists>, ps: seq<Pair>)
    ensures Apply(st, ps).Some? ==> |Apply(st, ps).value| == |st|
    decreases |ps|
  {
    if ps != [] {
      ApplyKeepsLength(st, ps[..|ps| - 1]);
    }
  }

  lemma {:induction false} EpochsKeepLength(st: seq<Lists>, epochs: nat)
    ensures Epochs(st, epochs).Some? ==> |Epochs(st, epochs).value| == |st|
    decreases epochs
  {
    if epochs > 0 {
      EpochsKeepLength(st, epochs - 1);
      if Epochs(st, epochs - 1).Some? {
        ApplyKeepsLength(Epochs(st, epochs - 1).value, OrderedPairs(|st|));
      }
    }
  }

  lemma {:induction false} EpochsFailLater(st: seq<Lists>, e: nat, e': nat)
    requires e <= e' && Epochs(st, e).None?
    ensures Epochs(st, e').None?
    decreases e' - e
  {
    if e < e' {
      EpochsFailLater(st, e + 1, e');
    }
  }

  lemma {:induction false} OrderedRowPrefix(i: nat, a: nat, b: nat)
    requires a <= b
    ensures |OrderedRow(i, a)| <= |OrderedRow(i, b)|
    ensures OrderedRow(i, a) == OrderedRow(i, b)[..|OrderedRow(i, a)|]
    decreases b
  {
    if a < b {
      OrderedRowPrefix(i, a, b - 1);
    }
  }

  lemma {:induction false} OrderedRowsPrefix(n: nat, a: nat, b: nat)
    requires a <= b
    ensures |OrderedRows(n, a)| <= |OrderedRows(n, b)|
    ensures OrderedRows(n, a) == OrderedRows(n, b)[..|OrderedRows(n, a)|]
    decreases b
  {
    if a < b {
      OrderedRowsPrefix(n, a, b - 1);
    }
  }

  /** One more column of row i: a step for (i, j) unless j == i. */
  lemma RowStep(st0: seq<Lists>, i: nat, j: nat, st: seq<Lists>)
    requires Apply(st0, OrderedRow(i, j)) == Some(st)
    ensures Apply(st0, OrderedRow(i, j + 1)) == if i != j then FilterPair(st, Pair(i, j)) else Some(st)
  {
    FoldOne(st0, OrderedRow(i, j), Pair(i, j), FilterPair);
    assert OrderedRow(i, j) + [] == OrderedRow(i, j);
  }

  /** A row that fails at column j fails as a whole. */
  lemma RowFails(st0: seq<Lists>, i: nat, j: nat, n: nat)
    requires j < n && Apply(st0, OrderedRow(i, j + 1)).None?
    ensures Apply(st0, OrderedRow(i, n)).None?
  {
    OrderedRowPrefix(i, j + 1, n);
    FoldPrefixFails(st0, OrderedRow(i, n), |OrderedRow(i, j + 1)|, FilterPair);
  }

  /** One more row of an epoch. */
  lemma RowsStep(st0: seq<Lists>, n: nat, i: nat, st: seq<Lists>)
    requires Apply(st0, OrderedRows(n, i)) == Some(st)
    ensures Apply(st0, OrderedRows(n, i + 1)) == Apply(st, OrderedRow(i, n))
  {
    FoldAppend(st0, OrderedRows(n, i), OrderedRow(i, n), FilterPair);
  }

  /** An epoch that fails in row i fails as a whole. */
  lemma RowsFail(st0: seq<Lists>, n: nat, i: nat)
    requires i < n && Apply(st0, OrderedRows(n, i + 1)).None?
    ensures Apply(st0, OrderedPairs(n)).None?
  {
    OrderedRowsPrefix(n, i + 1, n);
    FoldPrefixFails(st0, OrderedRows(n, n), |OrderedRows(n, i + 1)|, FilterPair);
  }

  /** One more epoch. */
  lemma EpochStep(st0: seq<Lists>, e: nat, st: seq<Lists>)
    requires Epochs(st0, e) == Some(st)
    ensures Epochs(st0, e + 1) == Apply(st, OrderedPairs(|st0|))
  {
  }

  // ---------------------------------------------------------------------------
  // Properties

  /** `a` keeps some of the crests and some of the troughs of `b`, in order. */
  ghost predicate Pruned(a: Lists, b: Lists)
  {
    IsSubsequence(a.crests, b.crests) && IsSubsequence(a.troughs, b.troughs)
  }

  ghost predicate AllPruned(r: seq<Lists>, st: seq<Lists>)
  {
    |r| == |st| && forall k :: 0 <= k < |st| ==> Pruned(r[k], st[k])
  }

  lemma PrunedTrans(a: Lists, b: Lists, c: Lists)
    requires Pruned(a, b) && Pruned(b, c)
    ensures Pruned(a, c)
  {
    SubsequenceTrans(a.crests, b.crests, c.crests);
    SubsequenceTrans(a.troughs, b.troughs, c.troughs);
  }

  lemma AllPrunedRefl(st: seq<Lists>)
    ensures AllPruned(st, st)
  {
    forall k | 0 <= k < |st|
      ensures Pruned(st[k], st[k])
    {
      SubsequenceRefl(st[k].crests);
      SubsequenceRefl(st[k].troughs);
    }
  }

  lemma AllPrunedTrans(a: seq<Lists>, b: seq<Lists>, c: seq<Lists>)
    requires AllPruned(a, b) && AllPruned(b, c)
    ensures AllPruned(a, c)
  {
    forall k | 0 <= k < |c|
      ensures Pruned(a[k], c[k])
    {
      PrunedTrans(a[k], b[k], c[k]);
    }
  }

  /** One filter step only erases, and only from the subject signal. */
  lemma FilterPairPrunes(st: seq<Lists>, p: Pair)
    requires FilterPair(st, p).Some?
    ensures AllPruned(FilterPair(st, p).value, st)
    ensures forall k :: 0 <= k < |st| && k != p.i ==> FilterPair(st, p).value[k] == st[k]
  {
    var r := FilterPair(st, p).value;
    FilterOnlyErases(st[p.i].crests, Times(st[p.j].crests), Crest);
    FilterOnlyErases(st[p.i].troughs, Times(st[p.j].troughs), Trough);
    forall k | 0 <= k < |st|
      ensures Pruned(r[k], st[k])
    {
      if k != p.i {
        SubsequenceRefl(st[k].crests);
        SubsequenceRefl(st[k].troughs);
      }
    }
  }

  lemma {:induction false} ApplyPrunes(st: seq<Lists>, ps: seq<Pair>)
    requires Apply(st, ps).Some?
    ensures AllPruned(Apply(st, ps).value, st)
    decreases |ps|
  {
    if ps == [] {
      AllPrunedRefl(st);
    } else {
      ApplyPrunes(st, ps[..|ps| - 1]);
      var s := Apply(st, ps[..|ps| - 1]).value;
      FilterPairPrunes(s, ps[|ps| - 1]);
      AllPrunedTrans(Apply(st, ps).value, s, st);
    }
  }

  /** filter_signal never adds an extremum: every signal keeps a subsequence
      of its crests and of its troughs, so neither count grows. */
  lemma {:induction false} EpochsPrune(st: seq<Lists>, epochs: nat)
    requires Epochs(st, epochs).Some?
    ensures AllPruned(Epochs(st, epochs).value, st)
    ensures forall k :: 0 <= k < |st| ==>
              |Epochs(st, epochs).value[k].crests| <= |st[k].crests|
              && |Epochs(st, epochs).value[k].troughs| <= |st[k].troughs|
    decreases epochs
  {
    var r := Epochs(st, epochs).value;
    if epochs == 0 {
      AllPrunedRefl(st);
    } else {
      EpochsPrune(st, epochs - 1);
      var s := Epochs(st, epochs - 1).value;
      ApplyPrunes(s, OrderedPairs(|st|));
      AllPrunedTrans(r, s, st);
    }
    forall k | 0 <= k < |st|
      ensures |r[k].crests| <= |st[k].crests| && |r[k].troughs| <= |st[k].troughs|
    {
      SubsequenceShrinks(r[k].crests, st[k].crests);
      SubsequenceShrinks(r[k].troughs, st[k].troughs);
    }
  }

  /** Crest and trough times of every signal in strictly increasing order. */
  predicate Ordered(st: seq<Lists>)
  {
    forall k :: 0 <= k < |st| ==>
      StrictlyIncreasing(Times(st[k].crests)) && StrictlyIncreasing(Times(st[k].troughs))
  }

  /** After the step for (i, j), on ordered lists, signal i has at most one
      crest in each closed window between consecutive crests of signal j,
      and at most one trough between consecutive troughs of signal j. */
  lemma FilterPairSettles(st: seq<Lists>, p: Pair)
    requires p.i != p.j && Ordered(st) && FilterPair(st, p).Some?
    ensures Ordered(FilterPair(st, p).value)
    ensures var r := FilterPair(st, p).value;
            && (|st[p.j].crests| > 0 ==> OnePerWindow(r[p.i].crests, Times(st[p.j].crests), |st[p.j].crests| - 1))
            && (|st[p.j].troughs| > 0 ==> OnePerWindow(r[p.i].troughs, Times(st[p.j].troughs), |st[p.j].troughs| - 1))
  {
    var r := FilterPair(st, p).value;
    FilterLeavesOnePerWindow(st[p.i].crests, Times(st[p.j].crests), Crest, r[p.i].crests);
    FilterLeavesOnePerWindow(st[p.i].troughs, Times(st[p.j].troughs), Trough, r[p.i].troughs);
  }

  lemma {:induction false} ApplyKeepsOrder(st: seq<Lists>, ps: seq<Pair>)
    requires Ordered(st) && Apply(st, ps).Some?
    requires forall k :: 0 <= k < |ps| ==> ps[k].i != ps[k].j
    ensures Ordered(Apply(st, ps).value)
    decreases |ps|
  {
    if ps != [] {
      ApplyKeepsOrder(st, ps[..|ps| - 1]);
      FilterPairSettles(Apply(st, ps[..|ps| - 1]).value, ps[|ps| - 1]);
    }
  }

  /** Filtering keeps every list in strictly increasing time order. */
  lemma {:induction false} EpochsKeepOrder(st: seq<Lists>, epochs: nat)
    requires Ordered(st) && Epochs(st, epochs).Some?
    ensures Ordered(Epochs(st, epochs).value)
    decreases epochs
  {
    if epochs > 0 {
      EpochsKeepOrder(st, epochs - 1);
      var s := Epochs(st, epochs - 1).value;
      OrderedPairsExact(|st|);
      forall k | 0 <= k < |OrderedPairs(|st|)|
        ensures OrderedPairs(|st|)[k].i != OrderedPairs(|st|)[k].j
      {
        assert OrderedPairs(|st|)[k] in OrderedPairs(|st|);
      }
      ApplyKeepsOrder(s, OrderedPairs(|st|));
    }
  }
}
