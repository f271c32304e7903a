/** Signal_Analyzer_List: the list of signal analysers and the driver
    operations over all of them — filtering every signal against every
    other, cropping, and building the phase table. The extremum lists of
    all signals, read as one value, are State(); each operation is proved
    against the pure definitions over that value in Rounds, Reports and
    PhaseTable. */
module Driver {
  import opened Samples
  import opened Pairs
  import opened Rounds
  import Detection
  import Cropping
  import Consolidation
  import Phase
  import PhaseTable
  import Reports
  import opened Signal

  /** FILTER_EPOCH of the program. */
  const FilterEpoch: nat := 1

  /** One signal as the data file provides it: its id, and its sample times
      and values. */
  datatype SignalData = SignalData(id: nat, time: seq<real>, signal: seq<real>)

  predicate WellFormed(data: seq<SignalData>)
  {
    forall k :: 0 <= k < |data| ==> |data[k].time| == |data[k].signal| > 0
  }

  /** The extremum lists right after construction: every signal's crests and
      troughs as selected around its own mean. */
  function Initial(data: seq<SignalData>, threshold: real): (r: seq<Lists>)
    requires WellFormed(data)
    ensures |r| == |data|
  {
    seq(|data|, k requires 0 <= k < |data| =>
      var d := data[k];
      Lists(Detection.SelectCrests(d.time, d.signal, Mean(d.signal), threshold),
            Detection.SelectTroughs(d.time, d.signal, Mean(d.signal), threshold)))
  }

  /** With every signal sampled at strictly increasing times, the initial
      lists are in time order, every crest lies above its signal's mean and
      every trough below it. */
  lemma InitialOrdered(data: seq<SignalData>, threshold: real)
    requires WellFormed(data)
    requires forall k :: 0 <= k < |data| ==> StrictlyIncreasing(data[k].time)
    ensures Ordered(Initial(data, threshold))
    ensures forall k, e :: 0 <= k < |data| && e in Initial(data, threshold)[k].crests ==> e.value > Mean(data[k].signal)
    ensures forall k, e :: 0 <= k < |data| && e in Initial(data, threshold)[k].troughs ==> e.value < Mean(data[k].signal)
  {
    var st := Initial(data, threshold);
    forall k | 0 <= k < |data|
      ensures StrictlyIncreasing(Times(st[k].crests)) && StrictlyIncreasing(Times(st[k].troughs))
      ensures forall e :: e in st[k].crests ==> e.value > Mean(data[k].signal)
      ensures forall e :: e in st[k].troughs ==> e.value < Mean(data[k].signal)
    {
      var d := data[k];
      Detection.CrestsFollowTime(d.time, d.signal, Mean(d.signal), threshold);
      Detection.TroughsFollowTime(d.time, d.signal, Mean(d.signal), threshold);
      Detection.SelectionSidesOfMean(d.time, d.signal, Mean(d.signal), threshold);
    }
  }

  /** After filtering, whatever is left of a signal still has its crests
      above and its troughs below its mean, so the range the driver reports
      runs downwards from a higher crest mean to a lower trough mean. */
  lemma FilteredRangeOrdered(data: seq<SignalData>, threshold: real, epochs: nat, k: nat)
    requires WellFormed(data) && k < |data|
    requires Epochs(Initial(data, threshold), epochs).Some?
    requires Reports.HasExtrema(Epochs(Initial(data, threshold), epochs).value)
    ensures k < |Epochs(Initial(data, threshold), epochs).value|
    ensures Reports.SignalRange(Epochs(Initial(data, threshold), epochs).value)[k].0 >
            Reports.SignalRange(Epochs(Initial(data, threshold), epochs).value)[k].1
  {
    var st0 := Initial(data, threshold);
    var st := Epochs(st0, epochs).value;
    var d := data[k];
    var m := Mean(d.signal);
    EpochsPrune(st0, epochs);
    assert Pruned(st[k], st0[k]);
    SubsequenceShrinks(st[k].crests, st0[k].crests);
    SubsequenceShrinks(st[k].troughs, st0[k].troughs);
    Detection.SelectionSidesOfMean(d.time, d.signal, m, threshold);
    Reports.RangeOrdered(st, k, m);
  }

  /** crop_length can run on every signal: each list keeps at least one
      extremum in range (the program reads front() and back() of the lists). */
  predicate Croppable(st: seq<Lists>, lower: real, upper: real)
  {
    forall k :: 0 <= k < |st| ==>
      Cropping.Crop(st[k].crests, lower, upper).Some? && Cropping.Crop(st[k].troughs, lower, upper).Some?
  }

  /** crop_signal_length on the lists of all signals. */
  function Cropped(st: seq<Lists>, lower: real, upper: real): (r: seq<Lists>)
    requires Croppable(st, lower, upper)
    ensures |r| == |st|
  {
    seq(|st|, k requires 0 <= k < |st| =>
      Lists(Cropping.Crop(st[k].crests, lower, upper).value, Cropping.Crop(st[k].troughs, lower, upper).value))
  }

  /** On time-ordered lists, cropping keeps the order and keeps exactly the
      extrema whose time lies in [lower, upper]. */
  lemma CroppedExact(st: seq<Lists>, lower: real, upper: real)
    requires Ordered(st) && Croppable(st, lower, upper)
    ensures Ordered(Cropped(st, lower, upper))
    ensures forall k, e :: 0 <= k < |st| ==>
              (e in Cropped(st, lower, upper)[k].crests <==> e in st[k].crests && lower <= e.time <= upper)
    ensures forall k, e :: 0 <= k < |st| ==>
              (e in Cropped(st, lower, upper)[k].troughs <==> e in st[k].troughs && lower <= e.time <= upper)
  {
    forall k | 0 <= k < |st|
      ensures StrictlyIncreasing(Times(Cropped(st, lower, upper)[k].crests))
      ensures StrictlyIncreasing(Times(Cropped(st, lower, upper)[k].troughs))
      ensures forall e :: e in Cropped(st, lower, upper)[k].crests <==> e in st[k].crests && lower <= e.time <= upper
      ensures forall e :: e in Cropped(st, lower, upper)[k].troughs <==> e in st[k].troughs && lower <= e.time <= upper
    {
      Cropping.CropSortedKeepsRange(st[k].crests, lower, upper);
      Cropping.CropSortedKeepsRange(st[k].troughs, lower, upper);
    }
  }

  /** The lists after the first i passes of crop_signal_length's loop. */
  function CroppedUpTo(st: seq<Lists>, lower: real, upper: real, i: nat): (r: seq<Lists>)
    requires Croppable(st, lower, upper)
    ensures |r| == |st|
  {
    seq(|st|, k requires 0 <= k < |st| =>
      if k < i then Cropped(st, lower, upper)[k] else st[k])
  }

  /** One more pass of the loop replaces the next signal's lists by their
      cropped form. */
  lemma CroppedUpToStep(st: seq<Lists>, lower: real, upper: real, i: nat)
    requires Croppable(st, lower, upper) && i < |st|
    ensures CroppedUpTo(st, lower, upper, i + 1) ==
            CroppedUpTo(st, lower, upper, i)[i := Lists(Cropping.Crop(st[i].crests, lower, upper).value,
                                                        Cropping.Crop(st[i].troughs, lower, upper).value)]
  {
    var a := CroppedUpTo(st, lower, upper, i + 1);
    var b := CroppedUpTo(st, lower, upper, i)[i := Cropped(st, lower, upper)[i]];
    assert forall k :: 0 <= k < |st| ==> a[k] == b[k];
  }

  /** Creates the analysers one by one, in data order. */
  method CreateSignals(data: seq<SignalData>, threshold: real) returns (list: seq<SignalAnalyzer>)
    requires WellFormed(data)
    ensures |list| == |data|
    ensures forall a, b :: 0 <= a < b < |list| ==> list[a] != list[b]
    ensures forall k :: 0 <= k < |list| ==> list[k].Valid() && list[k].id == data[k].id
    ensures forall k :: 0 <= k < |list| ==> Lists(list[k].Crests(), list[k].Troughs()) == Initial(data, threshold)[k]
  {
    list := [];
    var i := 0;
    while i < |data|
      invariant i <= |data| && |list| == i
      invariant forall a, b :: 0 <= a < b < |list| ==> list[a] != list[b]
      invariant forall k :: 0 <= k < |list| ==> list[k].Valid() && list[k].id == data[k].id
      invariant forall k :: 0 <= k < |list| ==> Lists(list[k].Crests(), list[k].Troughs()) == Initial(data, threshold)[k]
    {
      var s := new SignalAnalyzer(data[i].id, data[i].time, data[i].signal, threshold);
      list := list + [s];
      i := i + 1;
    }
  }

  class SignalAnalyzerList {
    const signals: seq<SignalAnalyzer>

    /** At least one signal, every analyser consistent, and each held once
        (the program keeps them by value in a vector). */
    predicate Valid()
      reads this, signals
    {
      && |signals| > 0
      && (forall k :: 0 <= k < |signals| ==> signals[k].Valid())
      && (forall a, b :: 0 <= a < b < |signals| ==> signals[a] != signals[b])
    }

    /** The extremum lists of all signals, in list order. */
    function State(): (r: seq<Lists>)
      reads this, signals
      requires Valid()
      ensures |r| == |signals|
    {
      seq(|signals|, k reads signals requires 0 <= k < |signals| && signals[k].Valid() =>
        Lists(signals[k].Crests(), signals[k].Troughs()))
    }

    /** The constructor taking a list of signal ids, without the file
        reading: one analyser per signal, in order. */
    constructor (data: seq<SignalData>, threshold: real)
      requires |data| > 0 && WellFormed(data)
      ensures Valid()
      ensures |signals| == |data| && forall k :: 0 <= k < |data| ==> signals[k].id == data[k].id
      ensures State() == Initial(data, threshold)
    {
      var list := CreateSignals(data, threshold);
      signals := list;
    }

    /** Both constructors exit when there is no signal to analyse. */
    static method Create(data: seq<SignalData>, threshold: real) returns (r: Option<SignalAnalyzerList>)
      requires WellFormed(data)
      ensures r.None? <==> |data| == 0
      ensures r.Some? ==> r.value.Valid() && r.value.State() == Initial(data, threshold)
    {
      if |data| == 0 {
        return None;
      }
      var list := new SignalAnalyzerList(data, threshold);
      return Some(list);
    }

    /** The body of the pair loop of filter_signal: filter the crests, then
        the troughs, of signal i against signal j. On false the program has
        exited. */
    method FilterPairStep(i: nat, j: nat) returns (ok: bool)
      requires Valid() && i < |signals| && j < |signals| && i != j
      modifies signals[i]
      ensures Valid()
      ensures ok ==> FilterPair(old(State()), Pair(i, j)) == Some(State())
      ensures !ok ==> FilterPair(old(State()), Pair(i, j)).None?
    {
      ghost var st := State();
      var s := signals[i];
      var ref := signals[j];
      ZipRoundTrip(ref.crestTime, ref.crest);
      ZipRoundTrip(ref.troughTime, ref.trough);
      ok := s.FilterCrest(ref);
      if !ok {
        return;
      }
      ok := s.FilterTrough(ref);
      if ok {
        assert forall k :: 0 <= k < |signals| && k != i ==> signals[k] != s;
        assert State() == st[i := Lists(s.Crests(), s.Troughs())];
      }
    }

    /** Row i of filter_signal's pair loops: signal i against every other. */
    method FilterRow(i: nat) returns (ok: bool)
      requires Valid() && i < |signals|
      modifies signals[i]
      ensures Valid()
      ensures ok ==> Apply(old(State()), OrderedRow(i, |signals|)) == Some(State())
      ensures !ok ==> Apply(old(State()), OrderedRow(i, |signals|)).None?
    {
      ghost var st0 := State();
      var n := |signals|;
      var j := 0;
      while j < n
        invariant j <= n && Valid()
        invariant Apply(st0, OrderedRow(i, j)) == Some(State())
      {
        ok := FilterColumn(st0, i, j);
        if !ok {
          RowFails(st0, i, j, n);
          return;
        }
        j := j + 1;
      }
      ok := true;
    }

    /** One pass of the inner loop of filter_signal: the step for (i, j)
        when i != j, nothing otherwise. */
    method FilterColumn(ghost st0: seq<Lists>, i: nat, j: nat) returns (ok: bool)
      requires Valid() && i < |signals| && j < |signals|
      requires Apply(st0, OrderedRow(i, j)) == Some(State())
      modifies signals[i]
      ensures Valid()
      ensures ok ==> Apply(st0, OrderedRow(i, j + 1)) == Some(State())
      ensures !ok ==> Apply(st0, OrderedRow(i, j + 1)).None?
    {
      RowStep(st0, i, j, State());
      if i != j {
        ok := FilterPairStep(i, j);
      } else {
        ok := true;
      }
    }

    /** One epoch of filter_signal: every row in order. */
    method FilterRound() returns (ok: bool)
      requires Valid()
      modifies signals
      ensures Valid()
      ensures ok ==> Apply(old(State()), OrderedPairs(|signals|)) == Some(State())
      ensures !ok ==> Apply(old(State()), OrderedPairs(|signals|)).None?
    {
      ghost var st0 := State();
      var n := |signals|;
      var i := 0;
      while i < n
        invariant i <= n && Valid()
        invariant Apply(st0, OrderedRows(n, i)) == Some(State())
      {
        ok := FilterRowStep(st0, i);
        if !ok {
          RowsFail(st0, n, i);
          return;
        }
        i := i + 1;
      }
      ok := true;
    }

    /** One pass of the outer loop of filter_signal: row i after the rows
        before it. */
    method FilterRowStep(ghost st0: seq<Lists>, i: nat) returns (ok: bool)
      requires Valid() && i < |signals|
      requires Apply(st0, OrderedRows(|signals|, i)) == Some(State())
      modifies signals
      ensures Valid()
      ensures ok ==> Apply(st0, OrderedRows(|signals|, i + 1)) == Some(State())
      ensures !ok ==> Apply(st0, OrderedRows(|signals|, i + 1)).None?
    {
      RowsStep(st0, |signals|, i, State());
      ok := FilterRow(i);
    }

    /** filter_signal with `epochs` epochs (FILTER_EPOCH in the program); on
        false a filter step has exited the program. */
    method FilterSignal(epochs: nat) returns (ok: bool)
      requires Valid()
      modifies signals
      ensures Valid()
      ensures ok ==> Epochs(old(State()), epochs) == Some(State())
      ensures !ok ==> Epochs(old(State()), epochs).None?
    {
      ghost var st0 := State();
      var e := 0;
      while e < epochs
        invariant e <= epochs && Valid()
        invariant Epochs(st0, e) == Some(State())
      {
        EpochStep(st0, e, State());
        ok := FilterRound();
        if !ok {
          EpochsFailLater(st0, e + 1, epochs);
          return;
        }
        e := e + 1;
      }
      ok := true;
    }

    /** crop_signal_length: crop every signal to [lower, upper]. */
    method CropSignalLength(lower: real, upper: real)
      requires Valid() && Croppable(State(), lower, upper)
      modifies signals
      ensures Valid()
      ensures State() == Cropped(old(State()), lower, upper)
    {
      ghost var st0 := State();
      var n := |signals|;
      var i := 0;
      while i < n
        invariant i <= n && Valid()
        invariant State() == CroppedUpTo(st0, lower, upper, i)
      {
        ghost var cur := State();
        assert cur[i] == st0[i];
        CropOne(i, lower, upper);
        CroppedUpToStep(st0, lower, upper, i);
        i := i + 1;
      }
    }

    /** One pass of crop_signal_length's loop: crop signal i and leave the
        others as they are. */
    method CropOne(i: nat, lower: real, upper: real)
      requires Valid() && i < |signals|
      requires Cropping.Crop(State()[i].crests, lower, upper).Some?
      requires Cropping.Crop(State()[i].troughs, lower, upper).Some?
      modifies signals[i]
      ensures Valid()
      ensures State() == old(State())[i := Lists(Cropping.Crop(old(State())[i].crests, lower, upper).value,
                                                 Cropping.Crop(old(State())[i].troughs, lower, upper).value)]
    {
      ghost var before := State();
      var s := signals[i];
      assert Lists(s.Crests(), s.Troughs()) == before[i];
      s.CropLength(lower, upper);
      assert State() == before[i := Lists(s.Crests(), s.Troughs())];
    }

    /** calculate_phase_crest / _trough of signal i against signal j. */
    method PairPhase(i: nat, j: nat, kind: Consolidation.Kind) returns (phase: seq<Phase.PhaseSample>)
      requires Valid() && i < |signals| && j < |signals|
      ensures phase == Reports.PairTable(State(), Pair(i, j), kind)
    {
      var s := signals[i];
      var ref := signals[j];
      ZipRoundTrip(s.crestTime, s.crest);
      ZipRoundTrip(s.troughTime, s.trough);
      ZipRoundTrip(ref.crestTime, ref.crest);
      ZipRoundTrip(ref.troughTime, ref.trough);
      match kind
      case Crest => phase := s.CalculatePhaseCrest(ref);
      case Trough => phase := s.CalculatePhaseTrough(ref);
    }

    /** Row i of the pair loops of calculate_phaseVector_*: the matrices of
        i against every later signal. */
    method PairRow(i: nat, kind: Consolidation.Kind) returns (phase: seq<seq<Phase.PhaseSample>>)
      requires Valid() && i < |signals|
      ensures phase == Reports.PairTables(State(), UnorderedRow(i, |signals|), kind)
    {
      ghost var st := State();
      var n := |signals|;
      ghost var row := Reports.PairTables(st, UnorderedRow(i, n), kind);
      Reports.RowTablesPrefix(st, i, n, n, kind);
      phase := [];
      var j := i + 1;
      while j < n
        invariant i + 1 <= j <= n && st == State()
        invariant phase == row[..j - i - 1]
      {
        phase := PairColumn(st, row, phase, i, j, kind);
        j := j + 1;
      }
    }

    /** One pass of the inner pair loop of calculate_phaseVector_*: push the
        matrix of i against j onto those of the columns before it. */
    method PairColumn(ghost st: seq<Lists>, ghost row: seq<seq<Phase.PhaseSample>>, phase: seq<seq<Phase.PhaseSample>>,
                      i: nat, j: nat, kind: Consolidation.Kind)
      returns (next: seq<seq<Phase.PhaseSample>>)
      requires Valid() && st == State() && i + 1 <= j < |signals|
      requires row == Reports.PairTables(st, UnorderedRow(i, |signals|), kind) && |row| == |signals| - i - 1
      requires phase == row[..j - i - 1]
      ensures next == row[..j - i]
    {
      var m := PairPhase(i, j, kind);
      Reports.RowTablesPush(st, i, j, |signals|, kind, phase, m);
      next := phase + [m];
    }

    /** calculate_phaseVector_crest / _trough: the phase matrix of every pair
        i < j, then the table over all their times. */
    method CalculatePhaseVector(kind: Consolidation.Kind) returns (rows: seq<PhaseTable.TableRow>)
      requires Valid()
      ensures rows == Reports.PhaseVector(State(), kind)
    {
      var phase := PhaseTables(kind);
      rows := PhaseTable.BuildTable(phase);
    }

    /** The pair loops of calculate_phaseVector_*. */
    method PhaseTables(kind: Consolidation.Kind) returns (phase: seq<seq<Phase.PhaseSample>>)
      requires Valid()
      ensures phase == Reports.PhaseTables(State(), kind)
    {
      ghost var st := State();
      var n := |signals|;
      phase := [];
      var i := 0;
      while i < n - 1
        invariant i <= n - 1
        invariant phase == Reports.PairTables(st, UnorderedRows(n, i), kind)
      {
        var row := PairRow(i, kind);
        Reports.PairTablesAppend(st, UnorderedRows(n, i), UnorderedRow(i, n), kind);
        phase := phase + row;
        i := i + 1;
      }
      UnorderedLastRowEmpty(n);
    }
  }
}
