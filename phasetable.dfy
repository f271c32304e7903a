/** The phase table of calculate_phaseVector_*: every time stamp that occurs
    in any pair's phase matrix, once each and in ascending order, and for
    each such time the first row at or after it from every pair matrix that
    has one. The rows the program writes to phase180.dat and phase360.dat
    are returned instead. */
module PhaseTable {
  import opened Samples
  import opened Phase

  /** One output line: the axis time, then one signed phase and one phase
      per pair matrix that has a row at or after that time. */
  datatype TableRow = TableRow(time: real, phase180: seq<real>, phase360: seq<real>)

  /** The times of all rows of all pair matrices, in visiting order. */
  function AllTimes(tables: seq<seq<PhaseSample>>): seq<real>
    decreases |tables|
  {
    if tables == [] then []
    else AllTimes(tables[..|tables| - 1]) + SampleTimes(tables[|tables| - 1])
  }

  /** The find / push_back loop: keep the first occurrence of each time. */
  function Dedup(ts: seq<real>): (r: seq<real>)
    decreases |ts|
  {
    if ts == [] then []
    else
      var d := Dedup(ts[..|ts| - 1]);
      if ts[|ts| - 1] in d then d else d + [ts[|ts| - 1]]
  }

  predicate NoDuplicates(ts: seq<real>)
  {
    forall i, j :: 0 <= i < j < |ts| ==> ts[i] != ts[j]
  }

  /** Insert x into ascending s before the first element not below it. */
  function Insert(x: real, s: seq<real>): (r: seq<real>)
    decreases |s|
  {
    if s == [] || x <= s[0] then [x] + s else [s[0]] + Insert(x, s[1..])
  }

  /** std::sort on the time axis, as insertion sort. */
  function Sort(s: seq<real>): seq<real>
    decreases |s|
  {
    if s == [] then [] else Insert(s[|s| - 1], Sort(s[..|s| - 1]))
  }

  /** The time axis of the phase table. */
  function Axis(tables: seq<seq<PhaseSample>>): seq<real>
  {
    Sort(Dedup(AllTimes(tables)))
  }

  /** The first k >= from with ps[k].time >= t. */
  function FirstFrom(ps: seq<PhaseSample>, t: real, from: nat): (r: Option<nat>)
    ensures r.Some? ==> from <= r.value < |ps| && ps[r.value].time >= t
    ensures r.Some? ==> forall k :: from <= k < r.value ==> ps[k].time < t
    ensures r.None? ==> forall k :: from <= k < |ps| ==> ps[k].time < t
    decreases |ps| - from
  {
    if from >= |ps| then None
    else if ps[from].time >= t then Some(from)
    else FirstFrom(ps, t, from + 1)
  }

  /** The row of one pair matrix that the inner search picks for the axis
      time `t`: the first one whose time is at or after `t`. */
  function Pick(ps: seq<PhaseSample>, t: real): Option<PhaseSample>
  {
    match FirstFrom(ps, t, 0)
    case None => None
    case Some(k) => Some(ps[k])
  }

  /** What the inner loops pick for the axis time `t`: one row per matrix
      that has a row at or after `t`, in matrix order. */
  function Picks(tables: seq<seq<PhaseSample>>, t: real): seq<PhaseSample>
    decreases |tables|
  {
    if tables == [] then []
    else
      var rest := Picks(tables[..|tables| - 1], t);
      match Pick(tables[|tables| - 1], t)
      case None => rest
      case Some(p) => rest + [p]
  }

  function Phases360(ps: seq<PhaseSample>): (r: seq<real>)
    ensures |r| == |ps|
  {
    seq(|ps|, k requires 0 <= k < |ps| => ps[k].phase360)
  }

  function RowAt(tables: seq<seq<PhaseSample>>, t: real): TableRow
  {
    var ps := Picks(tables, t);
    TableRow(t, SignedPhases(ps), Phases360(ps))
  }

  /** The whole table: one row per axis time. */
  function Table(tables: seq<seq<PhaseSample>>): seq<TableRow>
  {
    var axis := Axis(tables);
    seq(|axis|, n requires 0 <= n < |axis| => RowAt(tables, axis[n]))
  }

  // ---------------------------------------------------------------------------
  // The loops of calculate_phaseVector_* after the pair matrices are built

  /** calculate_phaseVector_* from the pair matrices on: collect the time
      axis, sort it, and emit one row per axis time. */
  method BuildTable(tables: seq<seq<PhaseSample>>) returns (rows: seq<TableRow>)
    ensures rows == Table(tables)
  {
    var time := CollectTimes(tables);
    time := Sort(time);
    rows := [];
    var n := 0;
    while n < |time|
      invariant n <= |time|
      invariant rows == Table(tables)[..n]
    {
      var row := PickRow(tables, time[n]);
      rows := rows + [row];
      n := n + 1;
    }
  }

  /** The nested find / push_back loops over all rows of all matrices. */
  method CollectTimes(tables: seq<seq<PhaseSample>>) returns (time: seq<real>)
    ensures time == Dedup(AllTimes(tables))
  {
    time := [];
    var i := 0;
    while i < |tables|
      invariant i <= |tables|
      invariant time == Dedup(AllTimes(tables[..i]))
    {
      var j := 0;
      assert AllTimes(tables[..i]) + SampleTimes(tables[i][..0]) == AllTimes(tables[..i]);
      while j < |tables[i]|
        invariant j <= |tables[i]|
        invariant time == Dedup(AllTimes(tables[..i]) + SampleTimes(tables[i][..j]))
      {
        ghost var before := AllTimes(tables[..i]) + SampleTimes(tables[i][..j]);
        assert before + [tables[i][j].time]
            == AllTimes(tables[..i]) + SampleTimes(tables[i][..j + 1]);
        assert (before + [tables[i][j].time])[..|before|] == before;
        if !(tables[i][j].time in time) {
          time := time + [tables[i][j].time];
        }
        j := j + 1;
      }
      assert tables[i][..j] == tables[i];
      assert tables[..i + 1][..i] == tables[..i];
      i := i + 1;
    }
    assert tables[..i] == tables;
  }

  /** One output line: for every matrix, the first row at or after `t`. */
  method PickRow(tables: seq<seq<PhaseSample>>, t: real) returns (row: TableRow)
    ensures row == RowAt(tables, t)
  {
    var phase180: seq<real> := [];
    var phase360: seq<real> := [];
    ghost var picked: seq<PhaseSample> := [];
    var i := 0;
    while i < |tables|
      invariant i <= |tables|
      invariant picked == Picks(tables[..i], t)
      invariant phase180 == SignedPhases(picked) && phase360 == Phases360(picked)
    {
      var p := FirstAtOrAfter(tables[i], t);
      assert tables[..i + 1][..i] == tables[..i];
      if p.Some? {
        phase180 := phase180 + [p.value.phase180];
        phase360 := phase360 + [p.value.phase360];
        picked := picked + [p.value];
      }
      i := i + 1;
    }
    assert tables[..i] == tables;
    row := TableRow(t, phase180, phase360);
  }

  /** The innermost loop: scan one matrix for the first row at or after `t`
      and stop there. */
  method FirstAtOrAfter(ps: seq<PhaseSample>, t: real) returns (p: Option<PhaseSample>)
    ensures p == Pick(ps, t)
  {
    var j := 0;
    while j < |ps|
      invariant j <= |ps|
      invariant FirstFrom(ps, t, 0) == FirstFrom(ps, t, j)
    {
      if ps[j].time >= t {
        return Some(ps[j]);
      }
      j := j + 1;
    }
    return None;
  }

  // ---------------------------------------------------------------------------
  // Properties of the time axis

  /** The find / push_back loop keeps every time exactly once. */
  lemma {:induction false} DedupExact(ts: seq<real>)
    ensures NoDuplicates(Dedup(ts))
    ensures forall t :: t in Dedup(ts) <==> t in ts
    decreases |ts|
  {
    if ts != [] {
      var init := ts[..|ts| - 1];
      DedupExact(init);
      assert ts == init + [ts[|ts| - 1]];
    }
  }

  lemma {:induction false} InsertFacts(x: real, s: seq<real>)
    ensures |Insert(x, s)| == |s| + 1
    ensures forall y :: y in Insert(x, s) <==> y == x || y in s
    ensures multiset(Insert(x, s)) == multiset(s) + multiset{x}
    ensures NonDecreasing(s) ==> NonDecreasing(Insert(x, s))
    decreases |s|
  {
    if s != [] && x > s[0] {
      InsertFacts(x, s[1..]);
      assert s == [s[0]] + s[1..];
      if NonDecreasing(s) {
        var r := Insert(x, s);
        assert r == [s[0]] + Insert(x, s[1..]);
        forall i, j | 0 <= i < j < |r|
          ensures r[i] <= r[j]
        {
          if i == 0 {
            assert r[j] in Insert(x, s[1..]);
          }
        }
      }
    }
  }

  lemma {:induction false} InsertKeepsDistinct(x: real, s: seq<real>)
    requires NoDuplicates(s) && x !in s
    ensures NoDuplicates(Insert(x, s))
    decreases |s|
  {
    InsertFacts(x, s);
    if s != [] && x > s[0] {
      InsertKeepsDistinct(x, s[1..]);
      InsertFacts(x, s[1..]);
      var r := Insert(x, s);
      forall i, j | 0 <= i < j < |r|
        ensures r[i] != r[j]
      {
        if i == 0 {
          assert r[j] in Insert(x, s[1..]);
          assert s[0] !in s[1..];
        }
      }
    }
  }

  /** std::sort: the result is in ascending order ... */
  lemma {:induction false} SortAscending(s: seq<real>)
    ensures NonDecreasing(Sort(s))
    decreases |s|
  {
    if s != [] {
      SortAscending(s[..|s| - 1]);
      InsertFacts(s[|s| - 1], Sort(s[..|s| - 1]));
    }
  }

  /** ... and a permutation of the input, */
  lemma {:induction false} SortPermutes(s: seq<real>)
    ensures multiset(Sort(s)) == multiset(s)
    ensures forall y :: y in Sort(s) <==> y in s
    decreases |s|
  {
    if s != [] {
      var init := s[..|s| - 1];
      SortPermutes(init);
      InsertFacts(s[|s| - 1], Sort(init));
      assert s == init + [s[|s| - 1]];
    }
    forall y
      ensures y in Sort(s) <==> y in s
    {
      assert y in Sort(s) <==> y in multiset(Sort(s));
      assert y in s <==> y in multiset(s);
    }
  }

  /** ... so a duplicate-free input stays duplicate-free. */
  lemma {:induction false} SortKeepsDistinct(s: seq<real>)
    requires NoDuplicates(s)
    ensures NoDuplicates(Sort(s))
    decreases |s|
  {
    if s != [] {
      var init := s[..|s| - 1];
      var x := s[|s| - 1];
      SortKeepsDistinct(init);
      SortPermutes(init);
      assert x !in init;
      InsertKeepsDistinct(x, Sort(init));
    }
  }

  lemma Ascending(s: seq<real>)
    requires NonDecreasing(s) && NoDuplicates(s)
    ensures StrictlyIncreasing(s)
  {
  }

  /** Every row time of every matrix, and only those. */
  lemma {:induction false} AllTimesMembers(tables: seq<seq<PhaseSample>>, t: real)
    ensures t in AllTimes(tables) <==>
              exists k, l :: 0 <= k < |tables| && 0 <= l < |tables[k]| && tables[k][l].time == t
    decreases |tables|
  {
    if tables != [] {
      var init := tables[..|tables| - 1];
      var last := tables[|tables| - 1];
      AllTimesMembers(init, t);
      if t in SampleTimes(last) {
        var l :| 0 <= l < |last| && SampleTimes(last)[l] == t;
        assert tables[|tables| - 1][l].time == t;
      }
      if exists k, l :: 0 <= k < |tables| && 0 <= l < |tables[k]| && tables[k][l].time == t {
        var k, l :| 0 <= k < |tables| && 0 <= l < |tables[k]| && tables[k][l].time == t;
        if k < |init| {
          assert init[k][l].time == t;
        } else {
          assert SampleTimes(last)[l] == t;
        }
      }
    }
  }

  /** The axis is strictly ascending and holds exactly the row times of the
      pair matrices. */
  lemma AxisExact(tables: seq<seq<PhaseSample>>)
    ensures StrictlyIncreasing(Axis(tables))
    ensures forall t :: t in Axis(tables) <==> t in AllTimes(tables)
  {
    DedupExact(AllTimes(tables));
    SortAscending(Dedup(AllTimes(tables)));
    SortPermutes(Dedup(AllTimes(tables)));
    SortKeepsDistinct(Dedup(AllTimes(tables)));
    Ascending(Axis(tables));
  }

  // ---------------------------------------------------------------------------
  // Properties of the rows

  /** The pick from one matrix is its first row at or after `t`; there is
      none exactly when every row is before `t`. */
  lemma PickExact(ps: seq<PhaseSample>, t: real)
    ensures Pick(ps, t).Some? <==> exists k :: 0 <= k < |ps| && ps[k].time >= t
    ensures Pick(ps, t).Some? ==>
              exists k :: 0 <= k < |ps| && ps[k] == Pick(ps, t).value && ps[k].time >= t
                          && forall l :: 0 <= l < k ==> ps[l].time < t
  {
  }

  /** A row has one column per matrix exactly when every matrix has a row at
      or after its time; otherwise the columns of later matrices shift left. */
  lemma {:induction false} FullRowWhen(tables: seq<seq<PhaseSample>>, t: real)
    ensures |Picks(tables, t)| <= |tables|
    ensures |Picks(tables, t)| == |tables| <==> forall k :: 0 <= k < |tables| ==> Pick(tables[k], t).Some?
    decreases |tables|
  {
    if tables != [] {
      var init := tables[..|tables| - 1];
      FullRowWhen(init, t);
      if forall k :: 0 <= k < |tables| ==> Pick(tables[k], t).Some? {
        assert forall k :: 0 <= k < |init| ==> Pick(init[k], t).Some? by {
          forall k | 0 <= k < |init|
            ensures Pick(init[k], t).Some?
          {
            assert init[k] == tables[k];
          }
        }
      }
    }
  }

  /** Row n of the table is stamped with the n-th axis time, and its two
      columns come from the same picked rows. */
  lemma TableRows(tables: seq<seq<PhaseSample>>, n: nat)
    requires n < |Table(tables)|
    ensures Table(tables)[n].time == Axis(tables)[n]
    ensures |Table(tables)[n].phase180| == |Table(tables)[n].phase360| == |Picks(tables, Axis(tables)[n])|
  {
  }
}
