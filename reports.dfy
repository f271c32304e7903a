/** The read-only parts of the driver over the extremum lists of all
    signals: the per-pair phase matrices, the phase table, the average
    phase per pair (show_phase_relation_*), the oscillation range of each
    signal (show_signal_range) and the average frequency
    (show_signal_frequency). */
module Reports {
  import opened Samples
  import opened Pairs
  import opened Rounds
  import opened Phase
  import PhaseTable
  import Features
  import Consolidation

  function TimesOf(l: Lists, kind: Consolidation.Kind): seq<real>
  {
    match kind
    case Crest => Times(l.crests)
    case Trough => Times(l.troughs)
  }

  /** The phase matrix of signal p.i against signal p.j, for every pair (an
      empty matrix for a pair naming a signal that does not exist). */
  function PairTables(st: seq<Lists>, ps: seq<Pair>, kind: Consolidation.Kind): (r: seq<seq<PhaseSample>>)
    ensures |r| == |ps|
  {
    seq(|ps|, k requires 0 <= k < |ps| => PairTable(st, ps[k], kind))
  }

  function PairTable(st: seq<Lists>, p: Pair, kind: Consolidation.Kind): seq<PhaseSample>
  {
    if p.i < |st| && p.j < |st| then PhaseSamples(TimesOf(st[p.i], kind), TimesOf(st[p.j], kind)) else []
  }

  /** Matrices are pushed one pair at a time. */
  lemma PairTablesSnoc(st: seq<Lists>, ps: seq<Pair>, p: Pair, kind: Consolidation.Kind)
    ensures PairTables(st, ps + [p], kind) == PairTables(st, ps, kind) + [PairTable(st, p, kind)]
  {
  }

  /** One more column of row i of the pair loops. */
  lemma RowTablesStep(st: seq<Lists>, i: nat, j: nat, kind: Consolidation.Kind)
    requires i + 1 <= j
    ensures PairTables(st, UnorderedRow(i, j + 1), kind) == PairTables(st, UnorderedRow(i, j), kind) + [PairTable(st, Pair(i, j), kind)]
  {
    PairTablesSnoc(st, UnorderedRow(i, j), Pair(i, j), kind);
  }

  /** The matrices of a prefix of the pairs are a prefix of the matrices. */
  lemma PairTablesPrefix(st: seq<Lists>, ps: seq<Pair>, m: nat, kind: Consolidation.Kind)
    requires m <= |ps|
    ensures PairTables(st, ps[..m], kind) == PairTables(st, ps, kind)[..m]
  {
    assert forall k :: 0 <= k < m ==> PairTables(st, ps[..m], kind)[k] == PairTables(st, ps, kind)[k];
  }

  lemma {:induction false} UnorderedRowPrefix(i: nat, a: nat, b: nat)
    requires i + 1 <= a <= b
    ensures |UnorderedRow(i, b)| == b - i - 1
    ensures UnorderedRow(i, a) == UnorderedRow(i, b)[..a - i - 1]
    decreases b
  {
    UnorderedRowCount(i, a);
    UnorderedRowCount(i, b);
    if a < b {
      UnorderedRowPrefix(i, a, b - 1);
      UnorderedRowCount(i, b - 1);
    }
  }

  /** The matrices of row i pushed so far, columns i + 1 to j - 1, are the
      first ones of the whole row. */
  lemma RowTablesPrefix(st: seq<Lists>, i: nat, j: nat, n: nat, kind: Consolidation.Kind)
    requires i + 1 <= j <= n
    ensures |PairTables(st, UnorderedRow(i, n), kind)| == n - i - 1
    ensures PairTables(st, UnorderedRow(i, j), kind) == PairTables(st, UnorderedRow(i, n), kind)[..j - i - 1]
  {
    UnorderedRowCount(i, n);
    UnorderedRowPrefix(i, j, n);
    PairTablesPrefix(st, UnorderedRow(i, n), j - i - 1, kind);
  }

  /** Pushing the matrix of (i, j) extends the prefix of row i by one. */
  lemma RowTablesPush(st: seq<Lists>, i: nat, j: nat, n: nat, kind: Consolidation.Kind,
                      phase: seq<seq<PhaseSample>>, m: seq<PhaseSample>)
    requires i + 1 <= j < n
    requires |PairTables(st, UnorderedRow(i, n), kind)| == n - i - 1
    requires phase == PairTables(st, UnorderedRow(i, n), kind)[..j - i - 1]
    requires m == PairTable(st, Pair(i, j), kind)
    ensures phase + [m] == PairTables(st, UnorderedRow(i, n), kind)[..j - i]
  {
    RowTablesPrefix(st, i, j, n, kind);
    assert phase == PairTables(st, UnorderedRow(i, j), kind);
    RowTablesStep(st, i, j, kind);
    assert phase + [m] == PairTables(st, UnorderedRow(i, j + 1), kind);
    RowTablesPrefix(st, i, j + 1, n, kind);
  }

  lemma PairTablesAppend(st: seq<Lists>, a: seq<Pair>, b: seq<Pair>, kind: Consolidation.Kind)
    ensures PairTables(st, a + b, kind) == PairTables(st, a, kind) + PairTables(st, b, kind)
  {
  }

  /** The phase matrices of calculate_phaseVector_* and
      show_phase_relation_*: one per pair i < j, in lexicographic order. */
  function PhaseTables(st: seq<Lists>, kind: Consolidation.Kind): (r: seq<seq<PhaseSample>>)
    ensures |r| == |UnorderedPairs(|st|)|
  {
    PairTables(st, UnorderedPairs(|st|), kind)
  }

  /** calculate_phaseVector_crest / _trough without the file output. */
  function PhaseVector(st: seq<Lists>, kind: Consolidation.Kind): seq<PhaseTable.TableRow>
  {
    PhaseTable.Table(PhaseTables(st, kind))
  }

  /** show_phase_relation_*: the mean signed phase of each pair's matrix, in
      pair order; None where the matrix is empty and the program divides
      0.0 by 0. */
  function PhaseRelation(st: seq<Lists>, kind: Consolidation.Kind): (r: seq<Option<real>>)
    ensures |r| == |UnorderedPairs(|st|)|
  {
    var tables := PhaseTables(st, kind);
    seq(|tables|, k requires 0 <= k < |tables| =>
      if |tables[k]| == 0 then None else Some(Mean(SignedPhases(tables[k]))))
  }

  /** Every average phase the driver reports lies in (-180, 180], and one is
      reported exactly for the pairs with at least one phase row. */
  lemma PhaseRelationInRange(st: seq<Lists>, kind: Consolidation.Kind)
    ensures forall k :: 0 <= k < |PhaseRelation(st, kind)| ==>
              (PhaseRelation(st, kind)[k].Some? <==> |PhaseTables(st, kind)[k]| > 0)
    ensures forall k :: 0 <= k < |PhaseRelation(st, kind)| && PhaseRelation(st, kind)[k].Some? ==>
              -180.0 < PhaseRelation(st, kind)[k].value <= 180.0
  {
    var tables := PhaseTables(st, kind);
    var r := PhaseRelation(st, kind);
    forall k | 0 <= k < |r| && r[k].Some?
      ensures -180.0 < r[k].value <= 180.0
    {
      var p := UnorderedPairs(|st|)[k];
      UnorderedPairsExact(|st|);
      assert p in UnorderedPairs(|st|);
      PhaseSamplesInRange(TimesOf(st[p.i], kind), TimesOf(st[p.j], kind));
      AveragePhaseInRange(tables[k]);
    }
  }

  /** Every signal has at least one crest and one trough. */
  predicate HasExtrema(st: seq<Lists>)
  {
    forall k :: 0 <= k < |st| ==> |st[k].crests| > 0 && |st[k].troughs| > 0
  }

  /** show_signal_range: [amplitude + offset : -amplitude + offset] per
      signal. */
  function SignalRange(st: seq<Lists>): (r: seq<(real, real)>)
    requires HasExtrema(st)
    ensures |r| == |st|
  {
    seq(|st|, k requires 0 <= k < |st| =>
      var a := Features.Amplitude(Values(st[k].crests), Values(st[k].troughs));
      var o := Features.Offset(Values(st[k].crests), Values(st[k].troughs));
      (a + o, -a + o))
  }

  /** The reported range runs from the crest mean down to the trough mean;
      with crests above some level and troughs below it, the upper end is
      above the lower end. */
  lemma RangeIsMeans(st: seq<Lists>, k: nat)
    requires HasExtrema(st) && k < |st|
    ensures SignalRange(st)[k] == (Mean(Values(st[k].crests)), Mean(Values(st[k].troughs)))
  {
    Features.RangeEnds(Values(st[k].crests), Values(st[k].troughs));
  }

  lemma RangeOrdered(st: seq<Lists>, k: nat, m: real)
    requires HasExtrema(st) && k < |st|
    requires forall e :: e in st[k].crests ==> e.value > m
    requires forall e :: e in st[k].troughs ==> e.value < m
    ensures SignalRange(st)[k].0 > SignalRange(st)[k].1
  {
    var cs := Values(st[k].crests);
    var ts := Values(st[k].troughs);
    forall i | 0 <= i < |cs|
      ensures cs[i] > m
    {
      assert st[k].crests[i] in st[k].crests;
    }
    forall i | 0 <= i < |ts|
      ensures ts[i] < m
    {
      assert st[k].troughs[i] in st[k].troughs;
    }
    Features.AmplitudePositive(cs, ts, m);
  }

  /** estimate_frequency is defined for signal k: no two consecutive
      extrema share a time, and there are at least two crests or two
      troughs. */
  predicate FrequencyDefined(l: Lists)
  {
    && Features.DistinctNeighbours(Times(l.crests))
    && Features.DistinctNeighbours(Times(l.troughs))
    && (|l.crests| > 1 || |l.troughs| > 1)
  }

  /** estimate_frequency of one signal's lists. */
  function FrequencyOf(l: Lists): real
    requires FrequencyDefined(l)
  {
    assert |Times(l.crests)| == |l.crests| && |Times(l.troughs)| == |l.troughs|;
    Features.Frequency(Times(l.crests), Times(l.troughs))
  }

  function Frequencies(st: seq<Lists>): (r: seq<real>)
    requires forall k :: 0 <= k < |st| ==> FrequencyDefined(st[k])
    ensures |r| == |st|
  {
    seq(|st|, k requires 0 <= k < |st| => FrequencyOf(st[k]))
  }

  /** show_signal_frequency: the mean of the signals' frequency estimates. */
  function AverageFrequency(st: seq<Lists>): real
    requires |st| > 0
    requires forall k :: 0 <= k < |st| ==> FrequencyDefined(st[k])
  {
    Mean(Frequencies(st))
  }

  /** With every list in strictly increasing time order, the average
      frequency is positive. */
  lemma AverageFrequencyPositive(st: seq<Lists>)
    requires |st| > 0 && Ordered(st)
    requires forall k :: 0 <= k < |st| ==> |st[k].crests| > 1 || |st[k].troughs| > 1
    ensures forall k :: 0 <= k < |st| ==> FrequencyDefined(st[k])
    ensures AverageFrequency(st) > 0.0
  {
    forall k | 0 <= k < |st|
      ensures FrequencyDefined(st[k]) && FrequencyOf(st[k]) > 0.0
    {
      Features.FrequencyPositive(Times(st[k].crests), Times(st[k].troughs));
    }
    MeanAbove(Frequencies(st), 0.0);
  }
}
