/** Phase of one signal's extrema relative to a reference signal's extrema
    (calculate_phase_crest and calculate_phase_trough): each subject time is
    placed in the first reference period that contains it and mapped to an
    angle. */
module Phase {
  import opened Samples

  /** One row of the phase matrix: the subject time, the signed phase in
      (-180, 180] and the phase in [0, 360). */
  datatype PhaseSample = PhaseSample(time: real, phase180: real, phase360: real)

  /** The first j >= `from` with ref[j-1] <= t < ref[j], if any. */
  function BracketFrom(ref: seq<real>, t: real, from: nat): (r: Option<nat>)
    requires from >= 1
    ensures r.Some? ==> from <= r.value < |ref| && ref[r.value - 1] <= t < ref[r.value]
    ensures r.Some? ==> forall k :: from <= k < r.value ==> !(ref[k - 1] <= t < ref[k])
    ensures r.None? ==> forall k :: from <= k < |ref| ==> !(ref[k - 1] <= t < ref[k])
    decreases |ref| - from
  {
    if from >= |ref| then None
    else if ref[from - 1] <= t < ref[from] then Some(from)
    else BracketFrom(ref, t, from + 1)
  }

  /** The reference period that the inner search of calculate_phase_* picks. */
  function Bracket(ref: seq<real>, t: real): Option<nat>
  {
    BracketFrom(ref, t, 1)
  }

  /** (t - start) / (end - start) * 360, for start <= t < end. */
  function Phase360(t: real, start: real, end: real): (r: real)
    requires start <= t < end
    ensures 0.0 <= r < 360.0
  {
    FractionInUnit(t - start, end - start);
    (t - start) / (end - start) * 360.0
  }

  lemma FractionInUnit(a: real, b: real)
    requires 0.0 <= a < b
    ensures 0.0 <= a / b < 1.0
  {
  }

  /** The signed phase: angles above 180 are shifted down by a full turn. */
  function Phase180(p360: real): (r: real)
    requires 0.0 <= p360 < 360.0
    ensures -180.0 < r <= 180.0
    ensures r == p360 || r == p360 - 360.0
  {
    if p360 > 180.0 then p360 - 360.0 else p360
  }

  /** The row calculate_phase_* emits for the subject time `t`, or None when
      no reference period contains it. */
  function PhaseOf(ref: seq<real>, t: real): (r: Option<PhaseSample>)
  {
    match Bracket(ref, t)
    case None => None
    case Some(j) =>
      var p := Phase360(t, ref[j - 1], ref[j]);
      Some(PhaseSample(t, Phase180(p), p))
  }

  /** The phase matrix of calculate_phase_*: rows for the subject times that
      have a bracketing reference period, in subject order. */
  function PhaseSamples(ts: seq<real>, ref: seq<real>): seq<PhaseSample>
    decreases |ts|
  {
    if ts == [] then []
    else
      var rest := PhaseSamples(ts[..|ts| - 1], ref);
      match PhaseOf(ref, ts[|ts| - 1])
      case None => rest
      case Some(row) => rest + [row]
  }

  function SampleTimes(ps: seq<PhaseSample>): (r: seq<real>)
    ensures |r| == |ps|
  {
    seq(|ps|, k requires 0 <= k < |ps| => ps[k].time)
  }

  function SignedPhases(ps: seq<PhaseSample>): (r: seq<real>)
    ensures |r| == |ps|
  {
    seq(|ps|, k requires 0 <= k < |ps| => ps[k].phase180)
  }

  /** A well-formed row: both angles in range and related by the shift. */
  predicate InRange(p: PhaseSample)
  {
    && 0.0 <= p.phase360 < 360.0
    && -180.0 < p.phase180 <= 180.0
    && p.phase180 == (if p.phase360 > 180.0 then p.phase360 - 360.0 else p.phase360)
  }

  /** calculate_phase_crest / calculate_phase_trough on the subject's and the
      reference's extremum times. */
  method CalculatePhase(times: seq<real>, refTimes: seq<real>) returns (phase: seq<PhaseSample>)
    ensures phase == PhaseSamples(times, refTimes)
  {
    phase := [];
    var i := 0;
    while i < |times|
      invariant i <= |times|
      invariant phase == PhaseSamples(times[..i], refTimes)
    {
      var row := PhaseRow(refTimes, times[i]);
      assert times[..i + 1][..i] == times[..i];
      if row.Some? {
        phase := phase + [row.value];
      }
      i := i + 1;
    }
    assert times[..i] == times;
  }

  /** One iteration of the outer loop of calculate_phase_*: search the
      reference for the period around `t`, then compute the row. */
  method PhaseRow(refTimes: seq<real>, t: real) returns (row: Option<PhaseSample>)
    ensures row == PhaseOf(refTimes, t)
  {
    var found := false;
    var start, end := 0.0, 0.0;
    var j := 1;
    while j < |refTimes|
      invariant 1 <= j
      invariant Bracket(refTimes, t) == BracketFrom(refTimes, t, j)
      decreases |refTimes| - j
    {
      if refTimes[j - 1] <= t && t < refTimes[j] {
        start := refTimes[j - 1];
        end := refTimes[j];
        found := true;
        break;
      }
      j := j + 1;
    }
    if found {
      assert Bracket(refTimes, t) == Some(j) && start == refTimes[j - 1] && end == refTimes[j];
      var phase360 := (t - start) / (end - start) * 360.0;
      var phase180;
      if phase360 > 180.0 {
        phase180 := phase360 - 360.0;
      } else {
        phase180 := phase360;
      }
      row := Some(PhaseSample(t, phase180, phase360));
    } else {
      row := None;
    }
  }

  // ---------------------------------------------------------------------------
  // Properties

  /** Every row has its phase in [0, 360), its signed phase in (-180, 180],
      and the two differ by a full turn exactly when the phase exceeds 180. */
  lemma {:induction false} PhaseSamplesInRange(ts: seq<real>, ref: seq<real>)
    ensures forall p :: p in PhaseSamples(ts, ref) ==> InRange(p)
    decreases |ts|
  {
    if ts != [] {
      PhaseSamplesInRange(ts[..|ts| - 1], ref);
    }
  }

  /** Rows follow the subject times: skipped times leave gaps, the rest keep
      their order. */
  lemma {:induction false} PhaseTimesFollowSubject(ts: seq<real>, ref: seq<real>)
    ensures IsSubsequence(SampleTimes(PhaseSamples(ts, ref)), ts)
    decreases |ts|
  {
    if ts == [] {
      SubsequenceEmpty(ts);
    } else {
      var init := ts[..|ts| - 1];
      PhaseTimesFollowSubject(init, ref);
      var rest := PhaseSamples(init, ref);
      assert ts == init + [ts[|ts| - 1]];
      match PhaseOf(ref, ts[|ts| - 1])
      case None =>
        SubsequenceExtend(SampleTimes(rest), init, ts[|ts| - 1]);
      case Some(row) =>
        assert SampleTimes(rest + [row]) == SampleTimes(rest) + [ts[|ts| - 1]];
        SubsequenceSnoc(SampleTimes(rest), init, ts[|ts| - 1]);
    }
  }

  /** A subject time gets a row exactly when some reference period contains it. */
  lemma {:induction false} PhaseRowWhenBracketed(ts: seq<real>, ref: seq<real>, t: real)
    ensures t in SampleTimes(PhaseSamples(ts, ref)) <==> t in ts && Bracket(ref, t).Some?
    decreases |ts|
  {
    if ts != [] {
      var init := ts[..|ts| - 1];
      var last := ts[|ts| - 1];
      PhaseRowWhenBracketed(init, ref, t);
      var rest := PhaseSamples(init, ref);
      assert ts == init + [last];
      match PhaseOf(ref, last)
      case None =>
        assert SampleTimes(PhaseSamples(ts, ref)) == SampleTimes(rest);
      case Some(row) =>
        assert SampleTimes(rest + [row]) == SampleTimes(rest) + [last];
    }
  }

  /** With sorted reference times, a bracket exists exactly when the time lies
      in [ref[0], ref[last]). */
  lemma BracketExistsWhen(ref: seq<real>, t: real)
    requires NonDecreasing(ref)
    ensures Bracket(ref, t).Some? <==> |ref| >= 2 && ref[0] <= t < ref[|ref| - 1]
  {
    var b := Bracket(ref, t);
    if b.Some? {
      assert ref[0] <= ref[b.value - 1] && ref[b.value] <= ref[|ref| - 1];
    }
    if |ref| >= 2 && ref[0] <= t < ref[|ref| - 1] {
      BracketFound(ref, t, 1);
    }
  }

  lemma {:induction false} BracketFound(ref: seq<real>, t: real, from: nat)
    requires NonDecreasing(ref)
    requires 1 <= from < |ref| && ref[from - 1] <= t < ref[|ref| - 1]
    ensures BracketFrom(ref, t, from).Some?
    decreases |ref| - from
  {
    if !(t < ref[from]) {
      BracketFound(ref, t, from + 1);
    }
  }

  /** With strictly increasing reference times the containing period is
      unique, so the search finds exactly that one. */
  lemma BracketUnique(ref: seq<real>, t: real, j: nat)
    requires StrictlyIncreasing(ref)
    requires 1 <= j < |ref| && ref[j - 1] <= t < ref[j]
    ensures Bracket(ref, t) == Some(j)
  {
    BracketUniqueFrom(ref, t, j, 1);
  }

  lemma {:induction false} BracketUniqueFrom(ref: seq<real>, t: real, j: nat, from: nat)
    requires StrictlyIncreasing(ref)
    requires 1 <= from <= j < |ref| && ref[j - 1] <= t < ref[j]
    ensures BracketFrom(ref, t, from) == Some(j)
    decreases j - from
  {
    if from < j {
      assert ref[from] <= ref[j - 1];
      BracketUniqueFrom(ref, t, j, from + 1);
    }
  }

  /** A subject extremum at the same time as a reference extremum is in phase. */
  lemma InPhaseAtReference(ref: seq<real>, j: nat)
    requires StrictlyIncreasing(ref) && j + 1 < |ref|
    ensures PhaseOf(ref, ref[j]) == Some(PhaseSample(ref[j], 0.0, 0.0))
  {
    BracketUnique(ref, ref[j], j + 1);
  }

  /** A subject extremum at the midpoint of a reference period is half a turn
      out of phase, reported as +180. */
  lemma HalfTurnAtMidpoint(ref: seq<real>, j: nat)
    requires StrictlyIncreasing(ref) && 1 <= j < |ref|
    ensures PhaseOf(ref, (ref[j - 1] + ref[j]) / 2.0)
         == Some(PhaseSample((ref[j - 1] + ref[j]) / 2.0, 180.0, 180.0))
  {
    var t := (ref[j - 1] + ref[j]) / 2.0;
    BracketUnique(ref, t, j);
    HalfOfPeriod(ref[j - 1], ref[j]);
  }

  lemma HalfOfPeriod(a: real, b: real)
    requires a < b
    ensures ((a + b) / 2.0 - a) / (b - a) == 0.5
  {
    assert (a + b) / 2.0 - a == (b - a) / 2.0;
  }

  /** show_phase_relation: the mean signed phase of a non-empty phase matrix
      lies in (-180, 180]. */
  lemma AveragePhaseInRange(ps: seq<PhaseSample>)
    requires |ps| > 0
    requires forall p :: p in ps ==> InRange(p)
    ensures -180.0 < Mean(SignedPhases(ps)) <= 180.0
  {
    var xs := SignedPhases(ps);
    forall k | 0 <= k < |xs|
      ensures -180.0 < xs[k] <= 180.0
    {
      assert ps[k] in ps;
    }
    MeanAbove(xs, -180.0);
    MeanWithin(xs, -180.0, 180.0);
  }
}
