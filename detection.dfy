/** Crest and trough detection in one sampled signal: the recursive slope
    lookback (is_previous_signal_lower / is_previous_signal_higher) and the
    interior-sample tests of select_signal_crest / select_signal_trough.
    The noise threshold (5.0 in the program) is a parameter. */
module Detection {
  import opened Samples

  /** Does a rising edge arrive at `index` from the left?
      Plateaus are skipped one sample at a time; a rise of at least
      `threshold` is taken as noise and stepped over two samples back.
      The program steps from index 2 to index 0 and then reads the sample
      before the first one; here that step is refused (no history left). */
  function IsPreviousLower(s: seq<real>, index: nat, threshold: real): bool
    requires 1 <= index < |s|
    decreases index
  {
    if index == 1 then s[1] > s[0]
    else if s[index] == s[index - 1] then IsPreviousLower(s, index - 1, threshold)
    else if s[index] > s[index - 1] then
      if s[index] - s[index - 1] < threshold then true
      else if index > 2 then IsPreviousLower(s, index - 2, threshold)
      else false
    else false
  }

  /** Does a falling edge arrive at `index` from the left? Mirror image of
      IsPreviousLower, with the same guard on the two-sample step. */
  function IsPreviousHigher(s: seq<real>, index: nat, threshold: real): bool
    requires 1 <= index < |s|
    decreases index
  {
    if index == 1 then s[1] < s[0]
    else if s[index] == s[index - 1] then IsPreviousHigher(s, index - 1, threshold)
    else if s[index] < s[index - 1] then
      if s[index - 1] - s[index] < threshold then true
      else if index > 2 then IsPreviousHigher(s, index - 2, threshold)
      else false
    else false
  }

  /** is_previous_signal_lower exactly as written: the two-sample step is
      taken from index 2 as well, and at index 0 the program compares
      signal[0] with signal[-1] (the unsigned index wraps around), a read
      outside the vector. `None` marks that read. */
  function IsPreviousLowerAsWritten(s: seq<real>, index: nat, threshold: real): Option<bool>
    requires index < |s|
    decreases index
  {
    if index == 0 then None
    else if index == 1 then Some(s[1] > s[0])
    else if s[index] == s[index - 1] then IsPreviousLowerAsWritten(s, index - 1, threshold)
    else if s[index] > s[index - 1] then
      if s[index] - s[index - 1] < threshold then Some(true)
      else IsPreviousLowerAsWritten(s, index - 2, threshold)
    else Some(false)
  }

  /** is_previous_signal_higher exactly as written: the same two-sample step
      from index 2, and the same read of signal[-1] at index 0. */
  function IsPreviousHigherAsWritten(s: seq<real>, index: nat, threshold: real): Option<bool>
    requires index < |s|
    decreases index
  {
    if index == 0 then None
    else if index == 1 then Some(s[1] < s[0])
    else if s[index] == s[index - 1] then IsPreviousHigherAsWritten(s, index - 1, threshold)
    else if s[index] < s[index - 1] then
      if s[index - 1] - s[index] < threshold then Some(true)
      else IsPreviousHigherAsWritten(s, index - 2, threshold)
    else Some(false)
  }

  function Negate(s: seq<real>): (r: seq<real>)
    ensures |r| == |s|
  {
    seq(|s|, k requires 0 <= k < |s| => -s[k])
  }

  /** The tests select_signal_crest applies to interior sample `i`: above the
      mean, both neighbour jumps within the threshold, strictly above the
      right neighbour, and a rising edge from the left. */
  predicate IsCrestAt(s: seq<real>, mean: real, threshold: real, i: nat)
    requires 1 <= i < |s| - 1
  {
    && s[i] > mean
    && Abs(s[i] - s[i - 1]) <= threshold
    && Abs(s[i] - s[i + 1]) <= threshold
    && s[i] > s[i + 1]
    && IsPreviousLower(s, i, threshold)
  }

  /** The tests select_signal_trough applies to interior sample `i`. */
  predicate IsTroughAt(s: seq<real>, mean: real, threshold: real, i: nat)
    requires 1 <= i < |s| - 1
  {
    && s[i] < mean
    && Abs(s[i] - s[i - 1]) <= threshold
    && Abs(s[i] - s[i + 1]) <= threshold
    && s[i] < s[i + 1]
    && IsPreviousHigher(s, i, threshold)
  }

  /** The indices, below `n`, that select_signal_crest accepts, in the order
      its loop visits them. */
  function CrestIndices(s: seq<real>, mean: real, threshold: real, n: nat): (r: seq<nat>)
    requires n <= |s|
    ensures forall k :: 0 <= k < |r| ==> 1 <= r[k] < n && r[k] < |s| - 1 && IsCrestAt(s, mean, threshold, r[k])
    decreases n
  {
    if n <= 1 then []
    else
      var prev := CrestIndices(s, mean, threshold, n - 1);
      if n - 1 < |s| - 1 && IsCrestAt(s, mean, threshold, n - 1) then prev + [n - 1] else prev
  }

  /** CrestIndices lists, in increasing order, exactly the accepted indices
      below `n`. */
  lemma {:induction false} CrestIndicesExact(s: seq<real>, mean: real, threshold: real, n: nat)
    requires n <= |s|
    ensures var r := CrestIndices(s, mean, threshold, n);
            && (forall k, l :: 0 <= k < l < |r| ==> r[k] < r[l])
            && (forall i :: 1 <= i < n && i < |s| - 1 && IsCrestAt(s, mean, threshold, i) ==> i in r)
    decreases n
  {
    if n > 1 {
      CrestIndicesExact(s, mean, threshold, n - 1);
    }
  }

  /** The indices, below `n`, that select_signal_trough accepts. */
  function TroughIndices(s: seq<real>, mean: real, threshold: real, n: nat): (r: seq<nat>)
    requires n <= |s|
    ensures forall k :: 0 <= k < |r| ==> 1 <= r[k] < n && r[k] < |s| - 1 && IsTroughAt(s, mean, threshold, r[k])
    decreases n
  {
    if n <= 1 then []
    else
      var prev := TroughIndices(s, mean, threshold, n - 1);
      if n - 1 < |s| - 1 && IsTroughAt(s, mean, threshold, n - 1) then prev + [n - 1] else prev
  }

  /** TroughIndices lists, in increasing order, exactly the accepted indices
      below `n`. */
  lemma {:induction false} TroughIndicesExact(s: seq<real>, mean: real, threshold: real, n: nat)
    requires n <= |s|
    ensures var r := TroughIndices(s, mean, threshold, n);
            && (forall k, l :: 0 <= k < l < |r| ==> r[k] < r[l])
            && (forall i :: 1 <= i < n && i < |s| - 1 && IsTroughAt(s, mean, threshold, i) ==> i in r)
    decreases n
  {
    if n > 1 {
      TroughIndicesExact(s, mean, threshold, n - 1);
    }
  }

  /** The samples at the given indices, as (time, value) pairs. */
  function At(time: seq<real>, s: seq<real>, idx: seq<nat>): (r: seq<Extremum>)
    requires |time| == |s|
    requires forall k :: 0 <= k < |idx| ==> idx[k] < |s|
    ensures |r| == |idx|
  {
    seq(|idx|, k requires 0 <= k < |idx| => Extremum(time[idx[k]], s[idx[k]]))
  }

  /** What select_signal_crest appends to the crest vectors. */
  function SelectCrests(time: seq<real>, s: seq<real>, mean: real, threshold: real): seq<Extremum>
    requires |time| == |s| && |s| > 0
  {
    At(time, s, CrestIndices(s, mean, threshold, |s| - 1))
  }

  /** What select_signal_trough appends to the trough vectors. */
  function SelectTroughs(time: seq<real>, s: seq<real>, mean: real, threshold: real): seq<Extremum>
    requires |time| == |s| && |s| > 0
  {
    At(time, s, TroughIndices(s, mean, threshold, |s| - 1))
  }

  // ---------------------------------------------------------------------------
  // The lookback

  /** The guarded lookback agrees with the program wherever the program stays
      inside the vector, and rejects exactly where the program would read
      the sample before the first one. */
  lemma {:induction false} LookbackGuardAgrees(s: seq<real>, index: nat, threshold: real)
    requires 1 <= index < |s|
    ensures IsPreviousLowerAsWritten(s, index, threshold).Some? ==>
              IsPreviousLowerAsWritten(s, index, threshold).value == IsPreviousLower(s, index, threshold)
    ensures IsPreviousLowerAsWritten(s, index, threshold).None? ==> !IsPreviousLower(s, index, threshold)
    decreases index
  {
    if index > 1 {
      if s[index] == s[index - 1] {
        LookbackGuardAgrees(s, index - 1, threshold);
      } else if s[index] > s[index - 1] && s[index] - s[index - 1] >= threshold && index > 2 {
        LookbackGuardAgrees(s, index - 2, threshold);
      }
    }
  }

  /** Input that reaches the out-of-bounds read: with threshold 5.0, signal
      [0, 0, 5, 4] has sample 2 pass every test of select_signal_crest that
      comes before the lookback (the neighbour jump of exactly 5.0 passes the
      `<=` filter), and the lookback's `<` test then steps from index 2 to
      index 0. The guarded lookback rejects the sample instead. */
  lemma LookbackReadsBeforeStart()
    ensures var s := [0.0, 0.0, 5.0, 4.0];
            && s[2] > Mean(s)
            && Abs(s[2] - s[1]) <= 5.0 && Abs(s[2] - s[3]) <= 5.0
            && s[2] > s[3]
            && IsPreviousLowerAsWritten(s, 2, 5.0) == None
            && !IsPreviousLower(s, 2, 5.0)
  {
    var s := [0.0, 0.0, 5.0, 4.0];
    assert s[..3] == [0.0, 0.0, 5.0] && s[..2] == [0.0, 0.0] && s[..1] == [0.0];
    assert [0.0, 0.0, 5.0][..2] == [0.0, 0.0] && [0.0, 0.0][..1] == [0.0] && [0.0][..0] == [];
    assert Sum([0.0]) == 0.0;
    assert Sum([0.0, 0.0]) == 0.0;
    assert Sum([0.0, 0.0, 5.0]) == 5.0;
    assert Sum(s) == 9.0;
  }

  /** The trough lookback is the crest lookback of the negated signal. */
  lemma {:induction false} LookbackDuality(s: seq<real>, index: nat, threshold: real)
    requires 1 <= index < |s|
    ensures IsPreviousHigher(s, index, threshold) == IsPreviousLower(Negate(s), index, threshold)
    decreases index
  {
    var n := Negate(s);
    if index > 1 {
      if s[index] == s[index - 1] {
        LookbackDuality(s, index - 1, threshold);
      } else if index > 2 {
        LookbackDuality(s, index - 2, threshold);
      }
    }
  }

  /** The duality holds for the lookbacks as written too, out-of-bounds read
      included: line 257 has the flaw of line 208, on the negated signal. */
  lemma {:induction false} LookbackDualityAsWritten(s: seq<real>, index: nat, threshold: real)
    requires index < |s|
    ensures IsPreviousHigherAsWritten(s, index, threshold) == IsPreviousLowerAsWritten(Negate(s), index, threshold)
    decreases index
  {
    if index > 1 {
      if s[index] == s[index - 1] {
        LookbackDualityAsWritten(s, index - 1, threshold);
      } else {
        LookbackDualityAsWritten(s, index - 2, threshold);
      }
    }
  }

  /** The mirror of LookbackReadsBeforeStart for troughs: signal [0, 0, -5, -4]
      sends is_previous_signal_higher from index 2 to index 0. */
  lemma TroughLookbackReadsBeforeStart()
    ensures var s := [0.0, 0.0, -5.0, -4.0];
            && IsPreviousHigherAsWritten(s, 2, 5.0) == None
            && !IsPreviousHigher(s, 2, 5.0)
  {
  }

  /** No sample is confirmed both as the end of a rising and of a falling edge. */
  lemma {:induction false} LookbackExclusive(s: seq<real>, index: nat, threshold: real)
    requires 1 <= index < |s|
    ensures !(IsPreviousLower(s, index, threshold) && IsPreviousHigher(s, index, threshold))
    decreases index
  {
    if index > 1 && s[index] == s[index - 1] {
      LookbackExclusive(s, index - 1, threshold);
    }
  }

  /** The lookback reads nothing after `index`: two signals that agree up to
      and including `index` get the same answer. */
  lemma {:induction false} LookbackReadsOnlyHistory(s: seq<real>, t: seq<real>, index: nat, threshold: real)
    requires 1 <= index < |s| && index < |t|
    requires s[..index + 1] == t[..index + 1]
    ensures IsPreviousLower(s, index, threshold) == IsPreviousLower(t, index, threshold)
    decreases index
  {
    assert s[index] == t[index] && s[index - 1] == t[index - 1] by {
      assert s[index] == s[..index + 1][index] && s[index - 1] == s[..index + 1][index - 1];
    }
    if index > 1 {
      if s[index] == s[index - 1] {
        assert s[..index] == t[..index] by { assert s[..index] == s[..index + 1][..index]; assert t[..index] == t[..index + 1][..index]; }
        LookbackReadsOnlyHistory(s, t, index - 1, threshold);
      } else if index > 2 {
        assert s[..index - 1] == t[..index - 1] by { assert s[..index - 1] == s[..index + 1][..index - 1]; assert t[..index - 1] == t[..index + 1][..index - 1]; }
        LookbackReadsOnlyHistory(s, t, index - 2, threshold);
      }
    }
  }

  /** A flat run is skipped: on a plateau from `j` to `index` the answer is
      the one found at the plateau's first sample. */
  lemma {:induction false} LookbackSkipsPlateau(s: seq<real>, j: nat, index: nat, threshold: real)
    requires 1 <= j <= index < |s|
    requires forall k :: j <= k <= index ==> s[k] == s[index]
    ensures IsPreviousLower(s, index, threshold) == IsPreviousLower(s, j, threshold)
    decreases index
  {
    if j < index {
      LookbackSkipsPlateau(s, j, index - 1, threshold);
    }
  }

  // ---------------------------------------------------------------------------
  // Selection

  lemma AbsNegate(x: real, y: real)
    ensures Abs(-x - -y) == Abs(x - y)
  {
  }

  /** A trough of a signal is a crest of the negated signal about the negated mean. */
  lemma TroughIsNegatedCrest(s: seq<real>, mean: real, threshold: real, i: nat)
    requires 1 <= i < |s| - 1
    ensures IsTroughAt(s, mean, threshold, i) == IsCrestAt(Negate(s), -mean, threshold, i)
  {
    LookbackDuality(s, i, threshold);
    AbsNegate(s[i], s[i - 1]);
    AbsNegate(s[i], s[i + 1]);
  }

  /** select_signal_trough finds the indices select_signal_crest finds on the
      negated signal: the two detectors are mirror images. */
  lemma {:induction false} TroughsAreNegatedCrests(s: seq<real>, mean: real, threshold: real, n: nat)
    requires n <= |s|
    ensures TroughIndices(s, mean, threshold, n) == CrestIndices(Negate(s), -mean, threshold, n)
    decreases n
  {
    if n > 1 {
      TroughsAreNegatedCrests(s, mean, threshold, n - 1);
      if n - 1 < |s| - 1 {
        TroughIsNegatedCrest(s, mean, threshold, n - 1);
      }
    }
  }

  /** Every crest select_signal_crest appends lies strictly above the mean,
      and every trough select_signal_trough appends strictly below it. */
  lemma SelectionSidesOfMean(time: seq<real>, s: seq<real>, mean: real, threshold: real)
    requires |time| == |s| && |s| > 0
    ensures forall e :: e in SelectCrests(time, s, mean, threshold) ==> e.value > mean
    ensures forall e :: e in SelectTroughs(time, s, mean, threshold) ==> e.value < mean
  {
    var cs := SelectCrests(time, s, mean, threshold);
    var ts := SelectTroughs(time, s, mean, threshold);
    forall e | e in cs
      ensures e.value > mean
    {
      var k :| 0 <= k < |cs| && cs[k] == e;
    }
    forall e | e in ts
      ensures e.value < mean
    {
      var k :| 0 <= k < |ts| && ts[k] == e;
    }
  }

  /** With strictly increasing sample times, the crests come out in strictly
      increasing time order, their times a subsequence of the time column. */
  lemma CrestsFollowTime(time: seq<real>, s: seq<real>, mean: real, threshold: real)
    requires |time| == |s| && |s| > 0 && StrictlyIncreasing(time)
    ensures StrictlyIncreasing(Times(SelectCrests(time, s, mean, threshold)))
    ensures IsSubsequence(Times(SelectCrests(time, s, mean, threshold)), time)
  {
    var ci := CrestIndices(s, mean, threshold, |s| - 1);
    CrestIndicesExact(s, mean, threshold, |s| - 1);
    assert Embeds(ci, Times(SelectCrests(time, s, mean, threshold)), time);
    SubsequenceIncreasing(Times(SelectCrests(time, s, mean, threshold)), time);
  }

  /** The same for the troughs. */
  lemma TroughsFollowTime(time: seq<real>, s: seq<real>, mean: real, threshold: real)
    requires |time| == |s| && |s| > 0 && StrictlyIncreasing(time)
    ensures StrictlyIncreasing(Times(SelectTroughs(time, s, mean, threshold)))
    ensures IsSubsequence(Times(SelectTroughs(time, s, mean, threshold)), time)
  {
    var ti := TroughIndices(s, mean, threshold, |s| - 1);
    TroughIndicesExact(s, mean, threshold, |s| - 1);
    assert Embeds(ti, Times(SelectTroughs(time, s, mean, threshold)), time);
    SubsequenceIncreasing(Times(SelectTroughs(time, s, mean, threshold)), time);
  }

  /** No sample index is both a crest and a trough; with strictly increasing
      sample times, a crest and a trough never share a time stamp. */
  lemma CrestsAndTroughsDisjoint(time: seq<real>, s: seq<real>, mean: real, threshold: real)
    requires |time| == |s| && |s| > 0 && StrictlyIncreasing(time)
    ensures forall a, b :: a in SelectCrests(time, s, mean, threshold) && b in SelectTroughs(time, s, mean, threshold) ==> a.time != b.time
  {
    var ci := CrestIndices(s, mean, threshold, |s| - 1);
    var ti := TroughIndices(s, mean, threshold, |s| - 1);
    var cs := SelectCrests(time, s, mean, threshold);
    var ts := SelectTroughs(time, s, mean, threshold);
    forall a, b | a in cs && b in ts
      ensures a.time != b.time
    {
      var k :| 0 <= k < |cs| && cs[k] == a;
      var l :| 0 <= l < |ts| && ts[l] == b;
      assert ci[k] != ti[l] by {
        assert s[ci[k]] > mean && s[ti[l]] < mean;
      }
      assert time[ci[k]] != time[ti[l]];
    }
  }
}
