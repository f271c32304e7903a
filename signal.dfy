/** One analysed signal (class Signal_Analyzer): its samples, their mean,
    and the crest and trough lists that selection, cropping and
    cross-filtering update in place. */
module Signal {
  import opened Samples
  import opened Detection
  import Cropping
  import Consolidation
  import Features
  import Phase

  /** The tests select_signal_crest applies at interior index i decide
      whether the list of accepted indices grows by i. */
  lemma CrestStep(time: seq<real>, s: seq<real>, mean: real, threshold: real, i: nat)
    requires |time| == |s| && 1 <= i < |s| - 1
    ensures At(time, s, CrestIndices(s, mean, threshold, i + 1))
         == At(time, s, CrestIndices(s, mean, threshold, i))
            + (if IsCrestAt(s, mean, threshold, i) then [Extremum(time[i], s[i])] else [])
  {
  }

  /** The same for select_signal_trough. */
  lemma TroughStep(time: seq<real>, s: seq<real>, mean: real, threshold: real, i: nat)
    requires |time| == |s| && 1 <= i < |s| - 1
    ensures At(time, s, TroughIndices(s, mean, threshold, i + 1))
         == At(time, s, TroughIndices(s, mean, threshold, i))
            + (if IsTroughAt(s, mean, threshold, i) then [Extremum(time[i], s[i])] else [])
  {
  }

  /** The loop of select_signal_crest on the sample vectors: push every
      accepted interior sample, in index order, onto the crest vectors. */
  method PushCrests(time: seq<real>, s: seq<real>, mean: real, threshold: real,
                    values: seq<real>, times: seq<real>)
    returns (newValues: seq<real>, newTimes: seq<real>)
    requires |time| == |s| > 0 && |values| == |times|
    ensures |newValues| == |newTimes|
    ensures Zip(newTimes, newValues) == Zip(times, values) + SelectCrests(time, s, mean, threshold)
  {
    newValues, newTimes := values, times;
    var i := 1;
    while i < |time| - 1
      invariant 1 <= i && (i <= |time| - 1 || i == 1)
      invariant |newValues| == |newTimes|
      invariant Zip(newTimes, newValues) == Zip(times, values) + At(time, s, CrestIndices(s, mean, threshold, i))
    {
      CrestStep(time, s, mean, threshold, i);
      if s[i] > mean && Abs(s[i] - s[i - 1]) <= threshold && Abs(s[i] - s[i + 1]) <= threshold {
        if s[i] > s[i + 1] {
          if IsPreviousLower(s, i, threshold) {
            ZipAppend(newTimes, newValues, time[i], s[i]);
            newValues := newValues + [s[i]];
            newTimes := newTimes + [time[i]];
          }
        }
      }
      i := i + 1;
    }
    assert CrestIndices(s, mean, threshold, i) == CrestIndices(s, mean, threshold, |s| - 1);
  }

  /** The loop of select_signal_trough on the sample vectors. */
  method PushTroughs(time: seq<real>, s: seq<real>, mean: real, threshold: real,
                     values: seq<real>, times: seq<real>)
    returns (newValues: seq<real>, newTimes: seq<real>)
    requires |time| == |s| > 0 && |values| == |times|
    ensures |newValues| == |newTimes|
    ensures Zip(newTimes, newValues) == Zip(times, values) + SelectTroughs(time, s, mean, threshold)
  {
    newValues, newTimes := values, times;
    var i := 1;
    while i < |time| - 1
      invariant 1 <= i && (i <= |time| - 1 || i == 1)
      invariant |newValues| == |newTimes|
      invariant Zip(newTimes, newValues) == Zip(times, values) + At(time, s, TroughIndices(s, mean, threshold, i))
    {
      TroughStep(time, s, mean, threshold, i);
      if s[i] < mean && Abs(s[i] - s[i - 1]) <= threshold && Abs(s[i] - s[i + 1]) <= threshold {
        if s[i] < s[i + 1] {
          if IsPreviousHigher(s, i, threshold) {
            ZipAppend(newTimes, newValues, time[i], s[i]);
            newValues := newValues + [s[i]];
            newTimes := newTimes + [time[i]];
          }
        }
      }
      i := i + 1;
    }
    assert TroughIndices(s, mean, threshold, i) == TroughIndices(s, mean, threshold, |s| - 1);
  }

  class SignalAnalyzer {
    const id: nat
    const time: seq<real>
    const signal: seq<real>
    const mean: real
    /** NOISE_THRESHOLD of the program (5.0). */
    const threshold: real
    var crest: seq<real>
    var crestTime: seq<real>
    var trough: seq<real>
    var troughTime: seq<real>

    /** The sample vectors are non-empty and parallel, and so are the value
        and time vectors of each extremum list. */
    predicate Valid()
      reads this
    {
      && |time| == |signal| > 0
      && |crest| == |crestTime|
      && |trough| == |troughTime|
    }

    function Crests(): seq<Extremum>
      reads this
      requires Valid()
    {
      Zip(crestTime, crest)
    }

    function Troughs(): seq<Extremum>
      reads this
      requires Valid()
    {
      Zip(troughTime, trough)
    }

    /** The constructor without the file reading: the samples arrive as
        parameters, the mean is taken, and crests and troughs are selected. */
    constructor (id: nat, time: seq<real>, signal: seq<real>, threshold: real)
      requires |time| == |signal| > 0
      ensures Valid()
      ensures this.id == id && this.time == time && this.signal == signal && this.threshold == threshold
      ensures mean == Mean(signal)
      ensures Crests() == SelectCrests(time, signal, mean, threshold)
      ensures Troughs() == SelectTroughs(time, signal, mean, threshold)
    {
      this.id := id;
      this.time := time;
      this.signal := signal;
      this.threshold := threshold;
      mean := Sum(signal) / (|signal| as real);
      crest, crestTime, trough, troughTime := [], [], [], [];
      new;
      SelectCrest();
      SelectTrough();
    }

    /** select_signal_crest: append every accepted interior sample, in index
        order, to the crest vectors. */
    method SelectCrest()
      requires Valid()
      modifies this
      ensures Valid()
      ensures Crests() == old(Crests()) + SelectCrests(time, signal, mean, threshold)
      ensures trough == old(trough) && troughTime == old(troughTime)
    {
      crest, crestTime := PushCrests(time, signal, mean, threshold, crest, crestTime);
    }

    /** select_signal_trough: append every accepted interior sample, in index
        order, to the trough vectors. */
    method SelectTrough()
      requires Valid()
      modifies this
      ensures Valid()
      ensures Troughs() == old(Troughs()) + SelectTroughs(time, signal, mean, threshold)
      ensures crest == old(crest) && crestTime == old(crestTime)
    {
      trough, troughTime := PushTroughs(time, signal, mean, threshold, trough, troughTime);
    }

    /** crop_length: trim both extremum lists to [lower, upper]. The program
        calls front() and back() on an emptied vector otherwise. */
    method CropLength(lower: real, upper: real)
      requires Valid()
      requires Cropping.Crop(Crests(), lower, upper).Some?
      requires Cropping.Crop(Troughs(), lower, upper).Some?
      modifies this
      ensures Valid()
      ensures Crests() == Cropping.Crop(old(Crests()), lower, upper).value
      ensures Troughs() == Cropping.Crop(old(Troughs()), lower, upper).value
    {
      crest, crestTime := Cropping.CropExtrema(crest, crestTime, lower, upper);
      trough, troughTime := Cropping.CropExtrema(trough, troughTime, lower, upper);
    }

    /** filter_signal_crest: thin the crests window by window, reading each
        window's bounds through the reference's get_crest_time. `ok` is false
        where that getter exits: the reference has no crests and this signal
        has some. */
    method FilterCrest(ref: SignalAnalyzer) returns (ok: bool)
      requires Valid() && ref.Valid() && ref != this
      modifies this
      ensures Valid()
      ensures ok <==> Consolidation.Filter(old(Crests()), ref.crestTime, Consolidation.Crest).Some?
      ensures ok ==> Crests() == Consolidation.Filter(old(Crests()), ref.crestTime, Consolidation.Crest).value
      ensures !ok ==> Crests() == old(Crests())
      ensures trough == old(trough) && troughTime == old(troughTime)
    {
      if |ref.crestTime| == 0 {
        // size()-1 wraps round, so the first window is entered, and its
        // first comparison reads the reference's crest 0 if there is a crest.
        ok := true;
        if |crestTime| > 0 {
          var lo := ref.GetCrestTime(0);
          ok := lo.Some?;
        }
        return;
      }
      ghost var xs := Crests();
      var i := 0;
      while i + 1 < |ref.crestTime|
        invariant Valid() && i < |ref.crestTime|
        invariant Crests() == Consolidation.Windows(xs, ref.crestTime, Consolidation.Crest, i)
        invariant trough == old(trough) && troughTime == old(troughTime)
      {
        var lo := ref.GetCrestTime(i);
        var hi := ref.GetCrestTime(i + 1);
        Consolidation.WindowsStep(xs, ref.crestTime, Consolidation.Crest, i + 1);
        crest, crestTime := Consolidation.FilterOneWindow(crest, crestTime, lo.value, hi.value, Consolidation.Crest);
        i := i + 1;
      }
      ok := true;
    }

    /** filter_signal_trough: the same on the troughs, keeping minima. */
    method FilterTrough(ref: SignalAnalyzer) returns (ok: bool)
      requires Valid() && ref.Valid() && ref != this
      modifies this
      ensures Valid()
      ensures ok <==> Consolidation.Filter(old(Troughs()), ref.troughTime, Consolidation.Trough).Some?
      ensures ok ==> Troughs() == Consolidation.Filter(old(Troughs()), ref.troughTime, Consolidation.Trough).value
      ensures !ok ==> Troughs() == old(Troughs())
      ensures crest == old(crest) && crestTime == old(crestTime)
    {
      if |ref.troughTime| == 0 {
        ok := true;
        if |troughTime| > 0 {
          var lo := ref.GetTroughTime(0);
          ok := lo.Some?;
        }
        return;
      }
      ghost var xs := Troughs();
      var i := 0;
      while i + 1 < |ref.troughTime|
        invariant Valid() && i < |ref.troughTime|
        invariant Troughs() == Consolidation.Windows(xs, ref.troughTime, Consolidation.Trough, i)
        invariant crest == old(crest) && crestTime == old(crestTime)
      {
        var lo := ref.GetTroughTime(i);
        var hi := ref.GetTroughTime(i + 1);
        Consolidation.WindowsStep(xs, ref.troughTime, Consolidation.Trough, i + 1);
        trough, troughTime := Consolidation.FilterOneWindow(trough, troughTime, lo.value, hi.value, Consolidation.Trough);
        i := i + 1;
      }
      ok := true;
    }

    /** estimate_amplitude: half the distance between the crest mean and
        the trough mean. */
    function EstimateAmplitude(): (r: real)
      reads this
      requires Valid() && |crest| > 0 && |trough| > 0
      ensures r == (Mean(crest) - Mean(trough)) / 2.0
    {
      Features.RangeEnds(crest, trough);
      Features.Amplitude(crest, trough)
    }

    /** estimate_offset: offset plus amplitude is the crest mean, offset
        minus amplitude the trough mean. */
    function EstimateOffset(): (r: real)
      reads this
      requires Valid() && |crest| > 0 && |trough| > 0
      ensures r + EstimateAmplitude() == Mean(crest)
      ensures r - EstimateAmplitude() == Mean(trough)
    {
      Features.Offset(crest, trough)
    }

    /** estimate_frequency on the current crest and trough times. */
    method EstimateFrequency() returns (freq: real)
      requires Valid()
      requires Features.DistinctNeighbours(crestTime) && Features.DistinctNeighbours(troughTime)
      requires |crestTime| > 1 || |troughTime| > 1
      ensures freq == Features.Frequency(crestTime, troughTime)
    {
      freq := Features.EstimateFrequency(crestTime, troughTime);
    }

    /** calculate_phase_crest: the phase of each crest within the reference's
        crest periods. */
    method CalculatePhaseCrest(ref: SignalAnalyzer) returns (phase: seq<Phase.PhaseSample>)
      ensures phase == Phase.PhaseSamples(crestTime, ref.crestTime)
    {
      phase := Phase.CalculatePhase(crestTime, ref.crestTime);
    }

    /** calculate_phase_trough: the same over trough times. */
    method CalculatePhaseTrough(ref: SignalAnalyzer) returns (phase: seq<Phase.PhaseSample>)
      ensures phase == Phase.PhaseSamples(troughTime, ref.troughTime)
    {
      phase := Phase.CalculatePhase(troughTime, ref.troughTime);
    }

    /** get_crest_time: None where the program exits on an index past the end. */
    function GetCrestTime(i: nat): (r: Option<real>)
      reads this
      ensures r.Some? <==> i < |crestTime|
      ensures r.Some? ==> r.value == crestTime[i]
    {
      if i >= |crestTime| then None else Some(crestTime[i])
    }

    /** get_trough_time: None where the program exits on an index past the end. */
    function GetTroughTime(i: nat): (r: Option<real>)
      reads this
      ensures r.Some? <==> i < |troughTime|
      ensures r.Some? ==> r.value == troughTime[i]
    {
      if i >= |troughTime| then None else Some(troughTime[i])
    }
  }
}
