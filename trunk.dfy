/** The older Signal_Analyzer_List kept under trunk/: the same filtering
    rounds, no cropping, and a phase table and phase relation computed from
    crests only. Its constructor and show_signal_frequency are the current
    driver's; the operations here run the current driver's code with the
    trunk's fixed choices. */
module Trunk {
  import opened Samples
  import opened Pairs
  import opened Rounds
  import Consolidation
  import PhaseTable
  import Reports
  import opened Driver

  /** filter_signal: FILTER_EPOCH rounds over all ordered pairs. On success
      every signal keeps a subsequence of its crests and of its troughs. */
  method FilterSignal(list: SignalAnalyzerList) returns (ok: bool)
    requires list.Valid()
    modifies list.signals
    ensures list.Valid()
    ensures ok ==> Epochs(old(list.State()), FilterEpoch) == Some(list.State())
    ensures ok ==> AllPruned(list.State(), old(list.State()))
    ensures !ok ==> Epochs(old(list.State()), FilterEpoch).None?
  {
    ghost var st0 := list.State();
    ok := list.FilterSignal(FilterEpoch);
    if ok {
      EpochsPrune(st0, FilterEpoch);
    }
  }

  /** calculate_phaseVector: the crest phase matrix of every pair i < j, then
      one table row per time of the axis, which is strictly ascending and
      holds every crest phase time exactly once. */
  method CalculatePhaseVector(list: SignalAnalyzerList) returns (rows: seq<PhaseTable.TableRow>)
    requires list.Valid()
    ensures rows == Reports.PhaseVector(list.State(), Consolidation.Crest)
    ensures var tables := Reports.PhaseTables(list.State(), Consolidation.Crest);
            var axis := PhaseTable.Axis(tables);
            && |rows| == |axis|
            && StrictlyIncreasing(axis)
            && (forall n :: 0 <= n < |rows| ==> rows[n].time == axis[n])
            && (forall t :: t in axis <==> t in PhaseTable.AllTimes(tables))
  {
    rows := list.CalculatePhaseVector(Consolidation.Crest);
    PhaseTable.AxisExact(Reports.PhaseTables(list.State(), Consolidation.Crest));
  }

  /** show_phase_relation: the mean signed crest phase of each pair i < j,
      None where the pair has no phase row and the program divides by zero. */
  function PhaseRelation(st: seq<Lists>): (r: seq<Option<real>>)
    ensures |r| == |UnorderedPairs(|st|)|
    ensures forall k :: 0 <= k < |r| ==>
              (r[k].Some? <==> |Reports.PhaseTables(st, Consolidation.Crest)[k]| > 0)
    ensures forall k :: 0 <= k < |r| && r[k].Some? ==> -180.0 < r[k].value <= 180.0
  {
    Reports.PhaseRelationInRange(st, Consolidation.Crest);
    Reports.PhaseRelation(st, Consolidation.Crest)
  }
}
