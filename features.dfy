/** estimate_amplitude, estimate_offset and estimate_frequency: means of the
    crest and trough values, and the mean reciprocal spacing of consecutive
    crest times and of consecutive trough times, pooled. */
module Features {
  import opened Samples

  /** estimate_offset: halfway between the crest mean and the trough mean. */
  function Offset(crests: seq<real>, troughs: seq<real>): real
    requires |crests| > 0 && |troughs| > 0
  {
    (Mean(crests) + Mean(troughs)) / 2.0
  }

  /** estimate_amplitude: the crest mean less the offset. */
  function Amplitude(crests: seq<real>, troughs: seq<real>): real
    requires |crests| > 0 && |troughs| > 0
  {
    Mean(crests) - Offset(crests, troughs)
  }

  /** Offset plus amplitude is the crest mean and offset minus amplitude the
      trough mean: the two ends show_signal_range reports. The amplitude is
      half the distance between the two means. */
  lemma RangeEnds(crests: seq<real>, troughs: seq<real>)
    requires |crests| > 0 && |troughs| > 0
    ensures Offset(crests, troughs) + Amplitude(crests, troughs) == Mean(crests)
    ensures Offset(crests, troughs) - Amplitude(crests, troughs) == Mean(troughs)
    ensures Amplitude(crests, troughs) == (Mean(crests) - Mean(troughs)) / 2.0
  {
  }

  /** When every crest value lies above `m` and every trough value below it,
      the amplitude is positive and the offset lies strictly between the two
      means. */
  lemma AmplitudePositive(crests: seq<real>, troughs: seq<real>, m: real)
    requires |crests| > 0 && |troughs| > 0
    requires forall k :: 0 <= k < |crests| ==> crests[k] > m
    requires forall k :: 0 <= k < |troughs| ==> troughs[k] < m
    ensures Amplitude(crests, troughs) > 0.0
    ensures Mean(troughs) < Offset(crests, troughs) < Mean(crests)
  {
    MeanAbove(crests, m);
    MeanBelow(troughs, m);
  }

  /** Consecutive entries differ, so every spacing can be inverted. */
  predicate DistinctNeighbours(ts: seq<real>)
  {
    forall k :: 0 < k < |ts| ==> ts[k] != ts[k - 1]
  }

  /** 1 / (t[i] - t[i-1]) for every i from 1: what one loop of
      estimate_frequency pushes onto the frequency vector. */
  function Rates(ts: seq<real>): (r: seq<real>)
    requires DistinctNeighbours(ts)
    ensures |r| == if |ts| == 0 then 0 else |ts| - 1
    decreases |ts|
  {
    if |ts| <= 1 then []
    else Rates(ts[..|ts| - 1]) + [1.0 / (ts[|ts| - 1] - ts[|ts| - 2])]
  }

  /** estimate_frequency: the mean of the crest rates followed by the trough
      rates. */
  function Frequency(crestTimes: seq<real>, troughTimes: seq<real>): real
    requires DistinctNeighbours(crestTimes) && DistinctNeighbours(troughTimes)
    requires |Rates(crestTimes) + Rates(troughTimes)| > 0
  {
    Mean(Rates(crestTimes) + Rates(troughTimes))
  }

  /** One loop of estimate_frequency: push 1 / period for every pair of
      consecutive times onto the frequency vector. */
  method PushRates(freqVec: seq<real>, ts: seq<real>) returns (r: seq<real>)
    requires DistinctNeighbours(ts)
    ensures r == freqVec + Rates(ts)
  {
    r := freqVec;
    if |ts| == 0 {
      return;
    }
    var i := 1;
    while i < |ts|
      invariant 1 <= i <= |ts|
      invariant r == freqVec + Rates(ts[..i])
    {
      var period := ts[i] - ts[i - 1];
      assert ts[..i + 1][..i] == ts[..i];
      r := r + [1.0 / period];
      i := i + 1;
    }
    assert ts[..i] == ts;
  }

  /** estimate_frequency: both loops, then the average. */
  method EstimateFrequency(crestTimes: seq<real>, troughTimes: seq<real>) returns (freq: real)
    requires DistinctNeighbours(crestTimes) && DistinctNeighbours(troughTimes)
    requires |Rates(crestTimes) + Rates(troughTimes)| > 0
    ensures freq == Frequency(crestTimes, troughTimes)
  {
    var freqVec := PushRates([], crestTimes);
    assert freqVec == Rates(crestTimes);
    freqVec := PushRates(freqVec, troughTimes);
    freq := Sum(freqVec) / (|freqVec| as real);
  }

  /** Times spaced evenly `period` apart have the rate 1 / period throughout. */
  lemma {:induction false} RatesOfUniformSpacing(ts: seq<real>, period: real)
    requires period > 0.0
    requires forall k :: 0 < k < |ts| ==> ts[k] - ts[k - 1] == period
    ensures DistinctNeighbours(ts)
    ensures forall x :: x in Rates(ts) ==> x == 1.0 / period
    decreases |ts|
  {
    if |ts| > 1 {
      RatesOfUniformSpacing(ts[..|ts| - 1], period);
      assert ts[|ts| - 1] - ts[|ts| - 2] == period;
    }
  }

  lemma ReciprocalPositive(d: real)
    requires d > 0.0
    ensures 1.0 / d > 0.0
  {
  }

  /** Times in strictly increasing order have positive rates. */
  lemma {:induction false} RatesOfIncreasingTimes(ts: seq<real>)
    requires StrictlyIncreasing(ts)
    ensures DistinctNeighbours(ts)
    ensures forall x :: x in Rates(ts) ==> x > 0.0
    decreases |ts|
  {
    assert DistinctNeighbours(ts) by {
      forall k | 0 < k < |ts|
        ensures ts[k] != ts[k - 1]
      {
        assert ts[k - 1] < ts[k];
      }
    }
    if |ts| > 1 {
      RatesOfIncreasingTimes(ts[..|ts| - 1]);
      assert ts[|ts| - 2] < ts[|ts| - 1];
      ReciprocalPositive(ts[|ts| - 1] - ts[|ts| - 2]);
    }
  }

  /** Extrema spaced evenly `period` apart give the frequency 1 / period. */
  lemma UniformSpacing(crestTimes: seq<real>, troughTimes: seq<real>, period: real)
    requires period > 0.0
    requires forall k :: 0 < k < |crestTimes| ==> crestTimes[k] - crestTimes[k - 1] == period
    requires forall k :: 0 < k < |troughTimes| ==> troughTimes[k] - troughTimes[k - 1] == period
    requires |crestTimes| > 1 || |troughTimes| > 1
    ensures DistinctNeighbours(crestTimes) && DistinctNeighbours(troughTimes)
    ensures Frequency(crestTimes, troughTimes) == 1.0 / period
  {
    RatesOfUniformSpacing(crestTimes, period);
    RatesOfUniformSpacing(troughTimes, period);
    var rs := Rates(crestTimes) + Rates(troughTimes);
    assert forall k :: 0 <= k < |rs| ==> rs[k] in rs;
    MeanConstant(rs, 1.0 / period);
  }

  /** With crest and trough times in strictly increasing order, the estimated
      frequency is positive. */
  lemma FrequencyPositive(crestTimes: seq<real>, troughTimes: seq<real>)
    requires StrictlyIncreasing(crestTimes) && StrictlyIncreasing(troughTimes)
    requires |crestTimes| > 1 || |troughTimes| > 1
    ensures DistinctNeighbours(crestTimes) && DistinctNeighbours(troughTimes)
    ensures Frequency(crestTimes, troughTimes) > 0.0
  {
    RatesOfIncreasingTimes(crestTimes);
    RatesOfIncreasingTimes(troughTimes);
    var rs := Rates(crestTimes) + Rates(troughTimes);
    assert forall k :: 0 <= k < |rs| ==> rs[k] in rs;
    MeanAbove(rs, 0.0);
  }
}
