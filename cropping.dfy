/** crop_length on one extremum list: erase from the front while the first
    time is below the lower bound, then pop from the back while the last
    time is above the upper bound. */
module Cropping {
  import opened Samples

  /** How many leading entries the front loop erases: it stops at the first
      entry whose time is not below `lower`. */
  function LeadingBelow(xs: seq<Extremum>, lower: real): (r: nat)
    ensures r <= |xs|
    ensures forall k :: 0 <= k < r ==> xs[k].time < lower
    ensures r < |xs| ==> xs[r].time >= lower
    decreases |xs|
  {
    if xs == [] || xs[0].time >= lower then 0 else 1 + LeadingBelow(xs[1..], lower)
  }

  /** How many trailing entries the back loop pops: it stops at the last
      entry whose time is not above `upper`. */
  function TrailingAbove(xs: seq<Extremum>, upper: real): (r: nat)
    ensures r <= |xs|
    ensures forall k :: |xs| - r <= k < |xs| ==> xs[k].time > upper
    ensures r < |xs| ==> xs[|xs| - 1 - r].time <= upper
    decreases |xs|
  {
    if xs == [] || xs[|xs| - 1].time <= upper then 0 else 1 + TrailingAbove(xs[..|xs| - 1], upper)
  }

  /** crop_length on one list. `None` when a loop would empty the vector and
      then call front() or back() on it, which the program does not guard. */
  function Crop(xs: seq<Extremum>, lower: real, upper: real): Option<seq<Extremum>>
  {
    var a := LeadingBelow(xs, lower);
    var rest := xs[a..];
    var b := TrailingAbove(rest, upper);
    if a == |xs| || b == |rest| then None else Some(rest[..|rest| - b])
  }

  /** `ys` is the part xs[a..b] of `xs`, with everything before it below
      `lower`, everything after it above `upper`, and its own first and last
      times inside the bounds. */
  ghost predicate MiddlePart(xs: seq<Extremum>, ys: seq<Extremum>, lower: real, upper: real, a: nat, b: nat)
  {
    && a < b <= |xs|
    && ys == xs[a..b]
    && (forall k :: 0 <= k < a ==> xs[k].time < lower)
    && (forall k :: b <= k < |xs| ==> xs[k].time > upper)
    && xs[a].time >= lower && xs[b - 1].time <= upper
  }

  /** crop_length is defined exactly when some entry at or after the first
      time not below `lower` has a time not above `upper`. */
  lemma CropDefinedWhen(xs: seq<Extremum>, lower: real, upper: real)
    ensures Crop(xs, lower, upper).Some? <==>
              exists j :: LeadingBelow(xs, lower) <= j < |xs| && xs[j].time <= upper
  {
    var a := LeadingBelow(xs, lower);
    var rest := xs[a..];
    var b := TrailingAbove(rest, upper);
    if a < |xs| && b < |rest| {
      var j := a + |rest| - 1 - b;
      assert xs[j] == rest[|rest| - 1 - b];
    } else if a < |xs| {
      forall j | a <= j < |xs|
        ensures xs[j].time > upper
      {
        assert xs[j] == rest[j - a];
      }
    }
  }

  /** What crop_length leaves: a non-empty contiguous middle part of the list,
      whose first time is at least `lower` and last time at most `upper`;
      everything erased in front lies below `lower`, everything popped at the
      back lies above `upper`. */
  lemma CropKeepsMiddle(xs: seq<Extremum>, lower: real, upper: real)
    requires Crop(xs, lower, upper).Some?
    ensures exists a, b :: MiddlePart(xs, Crop(xs, lower, upper).value, lower, upper, a, b)
  {
    var a := LeadingBelow(xs, lower);
    var rest := xs[a..];
    var b := TrailingAbove(rest, upper);
    var e := a + |rest| - b;
    assert Crop(xs, lower, upper).value == xs[a..e];
    assert xs[e - 1] == rest[|rest| - 1 - b];
    forall k | e <= k < |xs|
      ensures xs[k].time > upper
    {
      assert xs[k] == rest[k - a];
    }
    assert MiddlePart(xs, Crop(xs, lower, upper).value, lower, upper, a, e);
  }

  /** On a list in time order, crop_length is defined exactly when some entry
      lies in [lower, upper]. */
  lemma CropSortedDefinedWhen(xs: seq<Extremum>, lower: real, upper: real)
    requires StrictlyIncreasing(Times(xs))
    ensures Crop(xs, lower, upper).Some? <==> exists j :: 0 <= j < |xs| && lower <= xs[j].time <= upper
  {
    CropDefinedWhen(xs, lower, upper);
    var a := LeadingBelow(xs, lower);
    if exists j :: 0 <= j < |xs| && lower <= xs[j].time <= upper {
      var j :| 0 <= j < |xs| && lower <= xs[j].time <= upper;
      assert a <= j;
    }
    if exists j :: a <= j < |xs| && xs[j].time <= upper {
      var j :| a <= j < |xs| && xs[j].time <= upper;
      assert xs[a].time <= xs[j].time by {
        if a < j { assert Times(xs)[a] < Times(xs)[j]; }
      }
    }
  }

  /** In a list in time order, the middle part cut out by crop_length holds
      exactly the entries whose time lies in [lower, upper]. */
  lemma MiddlePartInRange(xs: seq<Extremum>, ys: seq<Extremum>, lower: real, upper: real, a: nat, b: nat, e: Extremum)
    requires StrictlyIncreasing(Times(xs))
    requires MiddlePart(xs, ys, lower, upper, a, b)
    ensures e in ys <==> e in xs && lower <= e.time <= upper
  {
    if e in ys {
      var k :| 0 <= k < |ys| && ys[k] == e;
      assert xs[a + k] == e;
      assert Times(xs)[a] <= Times(xs)[a + k] <= Times(xs)[b - 1];
    }
    if e in xs && lower <= e.time <= upper {
      var k :| 0 <= k < |xs| && xs[k] == e;
      assert ys[k - a] == e;
    }
  }

  /** On a list in time order, crop_length keeps exactly the entries whose
      time lies in [lower, upper], still in time order. */
  lemma CropSortedKeepsRange(xs: seq<Extremum>, lower: real, upper: real)
    requires StrictlyIncreasing(Times(xs))
    requires Crop(xs, lower, upper).Some?
    ensures StrictlyIncreasing(Times(Crop(xs, lower, upper).value))
    ensures forall e :: e in Crop(xs, lower, upper).value <==> e in xs && lower <= e.time <= upper
  {
    CropKeepsMiddle(xs, lower, upper);
    var ys := Crop(xs, lower, upper).value;
    var a: nat, b: nat :| MiddlePart(xs, ys, lower, upper, a, b);
    forall e
      ensures e in ys <==> e in xs && lower <= e.time <= upper
    {
      MiddlePartInRange(xs, ys, lower, upper, a, b, e);
    }
    SubsequenceSlice(xs, a, b);
    SubsequenceTimes(ys, xs);
    SubsequenceIncreasing(Times(ys), Times(xs));
  }

  /** The crop of the example crest list [0.5, 1.5, 2.5, 118.5, 119.5] to
      [1.0, 119.0] keeps [1.5, 2.5, 118.5]. */
  lemma CropExample(v: real)
    ensures var xs := [Extremum(0.5, v), Extremum(1.5, v), Extremum(2.5, v), Extremum(118.5, v), Extremum(119.5, v)];
            Crop(xs, 1.0, 119.0) == Some([Extremum(1.5, v), Extremum(2.5, v), Extremum(118.5, v)])
  {
    var xs := [Extremum(0.5, v), Extremum(1.5, v), Extremum(2.5, v), Extremum(118.5, v), Extremum(119.5, v)];
    var rest := xs[1..];
    assert LeadingBelow(rest, 1.0) == 0;
    assert LeadingBelow(xs, 1.0) == 1;
    assert rest[..3] == [Extremum(1.5, v), Extremum(2.5, v), Extremum(118.5, v)];
    assert TrailingAbove(rest[..3], 119.0) == 0;
    assert TrailingAbove(rest, 119.0) == 1;
  }

  // ---------------------------------------------------------------------------
  // The loops of crop_length on one pair of parallel vectors

  /** Erase from the front while the first time is below `lower`, then pop
      from the back while the last time is above `upper`. The caller
      guarantees that neither loop empties the vectors. */
  method CropExtrema(values: seq<real>, times: seq<real>, lower: real, upper: real)
    returns (newValues: seq<real>, newTimes: seq<real>)
    requires |values| == |times|
    requires Crop(Zip(times, values), lower, upper).Some?
    ensures |newValues| == |newTimes|
    ensures Zip(newTimes, newValues) == Crop(Zip(times, values), lower, upper).value
  {
    var midValues, midTimes := DropLeading(values, times, lower);
    CropInTwoSteps(times, values, lower, upper);
    newValues, newTimes := DropTrailing(midValues, midTimes, upper);
  }

  /** Crop is the back trimming of the front-trimmed parallel vectors. */
  lemma CropInTwoSteps(times: seq<real>, values: seq<real>, lower: real, upper: real)
    requires |times| == |values|
    requires Crop(Zip(times, values), lower, upper).Some?
    ensures var a := LeadingBelow(Zip(times, values), lower);
            && a < |times|
            && var rest := Zip(times[a..], values[a..]);
            && TrailingAbove(rest, upper) < |rest|
            && var n := |rest| - TrailingAbove(rest, upper);
            Crop(Zip(times, values), lower, upper).value == Zip(times[a..][..n], values[a..][..n])
  {
    var xs := Zip(times, values);
    var a := LeadingBelow(xs, lower);
    var rest := xs[a..];
    var n := |rest| - TrailingAbove(rest, upper);
    var ys := Crop(xs, lower, upper).value;
    assert ys == rest[..n];
    var zs := Zip(times[a..][..n], values[a..][..n]);
    forall k | 0 <= k < n
      ensures ys[k] == zs[k]
    {
      assert ys[k] == xs[a + k];
    }
    assert TrailingAbove(Zip(times[a..], values[a..]), upper) == TrailingAbove(rest, upper) by {
      assert Zip(times[a..], values[a..]) == rest;
    }
  }

  /** The first loop of crop_length: erase the leading entries below `lower`. */
  method DropLeading(values: seq<real>, times: seq<real>, lower: real)
    returns (newValues: seq<real>, newTimes: seq<real>)
    requires |values| == |times|
    requires LeadingBelow(Zip(times, values), lower) < |times|
    ensures var a := LeadingBelow(Zip(times, values), lower);
            newValues == values[a..] && newTimes == times[a..]
  {
    ghost var a := LeadingBelow(Zip(times, values), lower);
    newValues, newTimes := values, times;
    ghost var k := 0;
    while newTimes[0] < lower
      invariant k <= a
      invariant newValues == values[k..] && newTimes == times[k..]
      decreases |newTimes|
    {
      LeadingBelowStops(times, values, lower, k);
      newValues, newTimes := newValues[1..], newTimes[1..];
      k := k + 1;
    }
    LeadingBelowStops(times, values, lower, k);
  }

  /** The second loop of crop_length: pop the trailing entries above `upper`. */
  method DropTrailing(values: seq<real>, times: seq<real>, upper: real)
    returns (newValues: seq<real>, newTimes: seq<real>)
    requires |values| == |times|
    requires TrailingAbove(Zip(times, values), upper) < |times|
    ensures var n := |times| - TrailingAbove(Zip(times, values), upper);
            newValues == values[..n] && newTimes == times[..n]
  {
    ghost var b := TrailingAbove(Zip(times, values), upper);
    newValues, newTimes := values, times;
    ghost var j := 0;
    while newTimes[|newTimes| - 1] > upper
      invariant j <= b && |newTimes| == |times| - j
      invariant newValues == values[..|times| - j] && newTimes == times[..|times| - j]
      decreases |newTimes|
    {
      TrailingAboveStops(times, values, upper, j);
      newValues, newTimes := newValues[..|newTimes| - 1], newTimes[..|newTimes| - 1];
      j := j + 1;
    }
    TrailingAboveStops(times, values, upper, j);
  }

  /** The front loop goes on at position k exactly while k is before LeadingBelow. */
  lemma LeadingBelowStops(times: seq<real>, values: seq<real>, lower: real, k: nat)
    requires |times| == |values|
    requires k <= LeadingBelow(Zip(times, values), lower) < |times|
    ensures times[k] < lower <==> k < LeadingBelow(Zip(times, values), lower)
  {
    assert Zip(times, values)[k].time == times[k];
  }

  /** The back loop goes on after j pops exactly while j is below TrailingAbove. */
  lemma TrailingAboveStops(times: seq<real>, values: seq<real>, upper: real, j: nat)
    requires |times| == |values|
    requires j <= TrailingAbove(Zip(times, values), upper) < |times|
    ensures times[|times| - 1 - j] > upper <==> j < TrailingAbove(Zip(times, values), upper)
  {
    assert Zip(times, values)[|times| - 1 - j].time == times[|times| - 1 - j];
  }
}
