/** filter_signal_crest / filter_signal_trough: window by window over the
    reference signal's extremum times, keep only the best subject extremum
    lying in each closed window [ref[i], ref[i+1]]. */
module Consolidation {
  import opened Samples

  datatype Kind = Crest | Trough

  /** The swap test of the bubble pass: `>=` for crests, `<=` for troughs. */
  predicate Dominates(kind: Kind, a: real, b: real)
  {
    match kind
    case Crest => a >= b
    case Trough => a <= b
  }

  predicate InWindow(t: real, lo: real, hi: real)
  {
    lo <= t <= hi
  }

  predicate Distinct(s: seq<Extremum>)
  {
    forall k, l :: 0 <= k < l < |s| ==> s[k] != s[l]
  }

  // ---------------------------------------------------------------------------
  // Collecting the subject extrema of one window

  /** The entries of `xs` whose time lies in [lo, hi], gathered in order up
      to the first time above `hi`, where the collect loop breaks. */
  function Collect(xs: seq<Extremum>, lo: real, hi: real): (r: seq<Extremum>)
    decreases |xs|
  {
    if xs == [] then []
    else if InWindow(xs[0].time, lo, hi) then [xs[0]] + Collect(xs[1..], lo, hi)
    else if xs[0].time > hi then []
    else Collect(xs[1..], lo, hi)
  }

  /** The collected entries are a subsequence of the subject, all inside the
      window. */
  lemma {:induction false} CollectInside(xs: seq<Extremum>, lo: real, hi: real)
    ensures IsSubsequence(Collect(xs, lo, hi), xs)
    ensures forall e :: e in Collect(xs, lo, hi) ==> InWindow(e.time, lo, hi)
    decreases |xs|
  {
    if xs == [] {
      SubsequenceRefl(xs);
    } else {
      var c := Collect(xs[1..], lo, hi);
      CollectInside(xs[1..], lo, hi);
      SubsequenceSlice(xs, 1, |xs|);
      assert xs[1..|xs|] == xs[1..];
      SubsequenceTrans(c, xs[1..], xs);
      if InWindow(xs[0].time, lo, hi) {
        SubsequenceCons(xs[0], c, xs[1..]);
        assert [xs[0]] + xs[1..] == xs;
      } else if xs[0].time > hi {
        SubsequenceEmpty(xs);
      }
    }
  }

  /** On times in order, the collect loop misses no entry of the window: the
      break at the first time above `hi` comes after all of them. */
  lemma {:induction false} CollectComplete(xs: seq<Extremum>, lo: real, hi: real, e: Extremum)
    requires NonDecreasing(Times(xs))
    requires e in xs && InWindow(e.time, lo, hi)
    ensures e in Collect(xs, lo, hi)
    decreases |xs|
  {
    if e != xs[0] {
      var k :| 0 <= k < |xs| && xs[k] == e;
      assert Times(xs)[0] <= Times(xs)[k];
      assert xs[1..][k - 1] == e;
      assert NonDecreasing(Times(xs[1..])) by {
        TimesSlice(xs, 1, |xs|);
        assert xs[1..|xs|] == xs[1..];
      }
      CollectComplete(xs[1..], lo, hi, e);
    }
  }

  /** With times in order, the collected entries are exactly the window's. */
  lemma CollectIsWindow(xs: seq<Extremum>, lo: real, hi: real, e: Extremum)
    requires NonDecreasing(Times(xs))
    ensures e in Collect(xs, lo, hi) <==> e in xs && InWindow(e.time, lo, hi)
  {
    CollectInside(xs, lo, hi);
    SubsequenceShrinks(Collect(xs, lo, hi), xs);
    if e in xs && InWindow(e.time, lo, hi) {
      CollectComplete(xs, lo, hi, e);
    }
  }

  /** With no entry in [lo, hi], nothing is collected. */
  lemma {:induction false} CollectNothing(xs: seq<Extremum>, lo: real, hi: real)
    requires forall p :: 0 <= p < |xs| ==> !InWindow(xs[p].time, lo, hi)
    ensures Collect(xs, lo, hi) == []
    decreases |xs|
  {
    if xs != [] {
      CollectNothing(xs[1..], lo, hi);
    }
  }

  // ---------------------------------------------------------------------------
  // The single bubble pass

  /** Step k of the pass: swap the window entries at k and k+1 when the value
      at k dominates the value at k+1. The program swaps the time vector and
      the index vector together, so the pair at each position moves as one. */
  function Step(w: seq<Extremum>, kind: Kind, k: nat): (r: seq<Extremum>)
    requires k + 1 < |w|
    ensures |r| == |w|
  {
    if Dominates(kind, w[k].value, w[k + 1].value) then w[k := w[k + 1]][k + 1 := w[k]] else w
  }

  /** The window after steps 0 .. n-1 of the pass. */
  function BubbleUpTo(w: seq<Extremum>, kind: Kind, n: nat): (r: seq<Extremum>)
    requires n < |w|
    ensures |r| == |w|
  {
    if n == 0 then w else Step(BubbleUpTo(w, kind, n - 1), kind, n - 1)
  }

  /** The position, among w[0..n], of the entry the pass carries forward:
      the best value, the earliest one among equals. */
  function Best(w: seq<Extremum>, kind: Kind, n: nat): (p: nat)
    requires n < |w|
    ensures p <= n
  {
    if n == 0 then 0
    else
      var b := Best(w, kind, n - 1);
      if Dominates(kind, w[b].value, w[n].value) then b else n
  }

  lemma DominatesTransitive(kind: Kind, a: real, b: real, c: real)
    requires Dominates(kind, a, b) && Dominates(kind, b, c)
    ensures Dominates(kind, a, c)
  {
  }

  /** The carried entry dominates every entry of w[0..n], and strictly beats
      every earlier one. */
  lemma {:induction false} BestIsEarliestBest(w: seq<Extremum>, kind: Kind, n: nat)
    requires n < |w|
    ensures var b := Best(w, kind, n);
            && (forall q :: 0 <= q <= n ==> Dominates(kind, w[b].value, w[q].value))
            && (forall q :: 0 <= q < b ==> !Dominates(kind, w[q].value, w[b].value))
    decreases n
  {
    if n > 0 {
      BestIsEarliestBest(w, kind, n - 1);
      var c := Best(w, kind, n - 1);
      if !Dominates(kind, w[c].value, w[n].value) {
        forall q | 0 <= q < n
          ensures !Dominates(kind, w[q].value, w[n].value)
        {
          if Dominates(kind, w[q].value, w[n].value) {
            DominatesTransitive(kind, w[c].value, w[q].value, w[n].value);
          }
        }
      }
    }
  }

  /** The carried entry against one entry w[q] of the pass. */
  lemma BestAgainst(w: seq<Extremum>, kind: Kind, n: nat, q: nat)
    requires n < |w| && q <= n
    ensures Dominates(kind, w[Best(w, kind, n)].value, w[q].value)
    ensures q < Best(w, kind, n) ==> !Dominates(kind, w[q].value, w[Best(w, kind, n)].value)
  {
    BestIsEarliestBest(w, kind, n);
  }

  /** What one step does: it permutes, and changes nothing beyond k + 1. */
  lemma StepEffect(t: seq<Extremum>, kind: Kind, k: nat)
    requires k + 1 < |t|
    ensures var s := Step(t, kind, k);
            && multiset(s) == multiset(t)
            && s[k + 1] == (if Dominates(kind, t[k].value, t[k + 1].value) then t[k] else t[k + 1])
            && forall q :: k + 1 < q < |t| ==> s[q] == t[q]
  {
  }

  /** Steps 0 .. n-1 of the pass only permute the window. */
  lemma {:induction false} BubblePermutes(w: seq<Extremum>, kind: Kind, n: nat)
    requires n < |w|
    ensures multiset(BubbleUpTo(w, kind, n)) == multiset(w)
    decreases n
  {
    if n > 0 {
      BubblePermutes(w, kind, n - 1);
      StepEffect(BubbleUpTo(w, kind, n - 1), kind, n - 1);
    }
  }

  /** After steps 0 .. n-1 the pass has left positions after n alone and
      moved the carried entry to position n. */
  lemma {:induction false} BubbleCarriesBest(w: seq<Extremum>, kind: Kind, n: nat)
    requires n < |w|
    ensures BubbleUpTo(w, kind, n)[n] == w[Best(w, kind, n)]
    ensures forall q :: n < q < |w| ==> BubbleUpTo(w, kind, n)[q] == w[q]
    decreases n
  {
    if n > 0 {
      BubbleCarriesBest(w, kind, n - 1);
      StepEffect(BubbleUpTo(w, kind, n - 1), kind, n - 1);
    }
  }

  /** A sequence without repeated entries holds each value at most once. */
  lemma {:induction false} DistinctCount(s: seq<Extremum>, x: Extremum)
    requires Distinct(s)
    ensures multiset(s)[x] <= 1
    decreases |s|
  {
    if s != [] {
      var t := s[1..];
      assert s == [s[0]] + t;
      assert Distinct(t);
      DistinctCount(t, x);
      if s[0] == x {
        assert x !in t;
      }
    }
  }

  /** The pass's losers, s[0 .. |s|-2], are exactly the window's entries
      other than the carried one. */
  lemma Losers(w: seq<Extremum>, kind: Kind, e: Extremum)
    requires 1 < |w| && Distinct(w)
    ensures var s := BubbleUpTo(w, kind, |w| - 1);
            e in s[..|s| - 1] <==> e in w && e != w[Best(w, kind, |w| - 1)]
  {
    var m := |w| - 1;
    var s := BubbleUpTo(w, kind, m);
    BubblePermutes(w, kind, m);
    BubbleCarriesBest(w, kind, m);
    assert s == s[..m] + [s[m]];
    assert multiset(s) == multiset(s[..m]) + multiset{s[m]};
    DistinctCount(w, e);
  }

  // ---------------------------------------------------------------------------
  // Erasing by time

  /** The first position whose time is `t`, or |ts| when there is none: the
      inner search loop of the erase step. */
  function FirstWithTime(ts: seq<real>, t: real): (n: nat)
    ensures n <= |ts|
    ensures forall k :: 0 <= k < n ==> ts[k] != t
    ensures n < |ts| ==> ts[n] == t
  {
    if ts == [] || ts[0] == t then 0 else 1 + FirstWithTime(ts[1..], t)
  }

  /** Erase the first entry whose time is `t`, if any. */
  function EraseFirst(xs: seq<Extremum>, t: real): (r: seq<Extremum>)
  {
    var n := FirstWithTime(Times(xs), t);
    if n == |xs| then xs else xs[..n] + xs[n + 1..]
  }

  /** Erase, in order, the first entry with each of the times `ts`. */
  function EraseAll(xs: seq<Extremum>, ts: seq<real>): (r: seq<Extremum>)
    decreases |ts|
  {
    if ts == [] then xs else EraseFirst(EraseAll(xs, ts[..|ts| - 1]), ts[|ts| - 1])
  }

  lemma EraseFirstOnlyErases(xs: seq<Extremum>, t: real)
    ensures IsSubsequence(EraseFirst(xs, t), xs)
  {
    var n := FirstWithTime(Times(xs), t);
    if n == |xs| {
      SubsequenceRefl(xs);
    } else {
      SubsequenceErase(xs, n);
    }
  }

  lemma {:induction false} EraseAllOnlyErases(xs: seq<Extremum>, ts: seq<real>)
    ensures IsSubsequence(EraseAll(xs, ts), xs)
    decreases |ts|
  {
    if ts != [] {
      var ys := EraseAll(xs, ts[..|ts| - 1]);
      assert EraseAll(xs, ts) == EraseFirst(ys, ts[|ts| - 1]);
      EraseAllOnlyErases(xs, ts[..|ts| - 1]);
      EraseFirstOnlyErases(ys, ts[|ts| - 1]);
      SubsequenceTrans(EraseAll(xs, ts), ys, xs);
    } else {
      SubsequenceRefl(xs);
    }
  }

  /** With times in strict order, the entry found by time is the only one
      with that time. */
  lemma TimeIsUnique(xs: seq<Extremum>, k: nat, l: nat)
    requires StrictlyIncreasing(Times(xs)) && k < |xs| && l < |xs|
    requires xs[k].time == xs[l].time
    ensures k == l
  {
    assert Times(xs)[k] == xs[k].time && Times(xs)[l] == xs[l].time;
  }

  lemma EraseFirstSortedMembers(xs: seq<Extremum>, t: real, e: Extremum)
    requires StrictlyIncreasing(Times(xs))
    ensures e in EraseFirst(xs, t) <==> e in xs && e.time != t
  {
    var n := FirstWithTime(Times(xs), t);
    if n < |xs| {
      assert xs == xs[..n] + [xs[n]] + xs[n + 1..];
      assert Times(xs)[n] == t;
      if e in xs && e.time == t {
        var k :| 0 <= k < |xs| && xs[k] == e;
        TimeIsUnique(xs, k, n);
      }
      if e in xs[..n] + xs[n + 1..] && e.time == t {
        var k :| 0 <= k < |xs| && k != n && xs[k] == e;
        TimeIsUnique(xs, k, n);
      }
    } else if e in xs {
      var k :| 0 <= k < |xs| && xs[k] == e;
      assert Times(xs)[k] != t;
    }
  }

  /** With times in strict order, erasing the first entry with time `t` erases
      exactly the entry with that time. */
  lemma EraseFirstSorted(xs: seq<Extremum>, t: real)
    requires StrictlyIncreasing(Times(xs))
    ensures StrictlyIncreasing(Times(EraseFirst(xs, t)))
    ensures forall e :: e in EraseFirst(xs, t) <==> e in xs && e.time != t
  {
    EraseFirstOnlyErases(xs, t);
    SubsequenceTimes(EraseFirst(xs, t), xs);
    SubsequenceIncreasing(Times(EraseFirst(xs, t)), Times(xs));
    forall e
      ensures e in EraseFirst(xs, t) <==> e in xs && e.time != t
    {
      EraseFirstSortedMembers(xs, t, e);
    }
  }

  /** With times in strict order, erasing by a list of times keeps exactly
      the entries whose time is not in the list. */
  lemma {:induction false} EraseAllSorted(xs: seq<Extremum>, ts: seq<real>)
    requires StrictlyIncreasing(Times(xs))
    ensures StrictlyIncreasing(Times(EraseAll(xs, ts)))
    ensures forall e :: e in EraseAll(xs, ts) <==> e in xs && e.time !in ts
    decreases |ts|
  {
    if ts != [] {
      var init := ts[..|ts| - 1];
      EraseAllSorted(xs, init);
      EraseFirstSorted(EraseAll(xs, init), ts[|ts| - 1]);
      assert ts == init + [ts[|ts| - 1]];
    }
  }

  // ---------------------------------------------------------------------------
  // One window, all windows

  /** The times one reference window [lo, hi] erases: when two or more
      entries were collected, the times left in front of the carried entry
      after the bubble pass. */
  function Erased(xs: seq<Extremum>, lo: real, hi: real, kind: Kind): seq<real>
  {
    var w := Collect(xs, lo, hi);
    if |w| <= 1 then [] else Times(BubbleUpTo(w, kind, |w| - 1)[..|w| - 1])
  }

  /** Processing of one reference window [lo, hi]. */
  function FilterWindow(xs: seq<Extremum>, lo: real, hi: real, kind: Kind): seq<Extremum>
  {
    EraseAll(xs, Erased(xs, lo, hi, kind))
  }

  /** Some subject entry lies in [lo, hi]. */
  predicate HasEntryIn(xs: seq<Extremum>, lo: real, hi: real)
  {
    exists p :: 0 <= p < |xs| && InWindow(xs[p].time, lo, hi)
  }

  lemma CollectNonEmpty(xs: seq<Extremum>, lo: real, hi: real)
    requires NonDecreasing(Times(xs)) && HasEntryIn(xs, lo, hi)
    ensures |Collect(xs, lo, hi)| > 0
  {
    var p :| 0 <= p < |xs| && InWindow(xs[p].time, lo, hi);
    CollectIsWindow(xs, lo, hi, xs[p]);
  }

  /** The entry a window keeps. */
  function Survivor(xs: seq<Extremum>, lo: real, hi: real, kind: Kind): (r: Extremum)
    requires NonDecreasing(Times(xs)) && HasEntryIn(xs, lo, hi)
    ensures r in xs && InWindow(r.time, lo, hi)
  {
    CollectNonEmpty(xs, lo, hi);
    var w := Collect(xs, lo, hi);
    CollectIsWindow(xs, lo, hi, w[Best(w, kind, |w| - 1)]);
    w[Best(w, kind, |w| - 1)]
  }

  /** The subject after windows 0 .. n-1 of the reference: the filter
      against the first n reference times, followed by window n-1. */
  function Windows(xs: seq<Extremum>, ref: seq<real>, kind: Kind, n: nat): seq<Extremum>
    requires n < |ref|
    decreases n, 2
  {
    if n == 0 then xs else FilterWindow(Filter(xs, ref[..n], kind).value, ref[n - 1], ref[n], kind)
  }

  /** The whole filter. `None` when the reference is empty and the subject is
      not: size()-1 wraps round and get_crest_time(0) exits the program. With
      both empty the wrapped loop never reads the reference. */
  function Filter(xs: seq<Extremum>, ref: seq<real>, kind: Kind): (r: Option<seq<Extremum>>)
    ensures |ref| > 0 ==> r.Some?
    decreases |ref|, 1
  {
    if |ref| == 0 then (if xs == [] then Some(xs) else None)
    else Some(Windows(xs, ref, kind, |ref| - 1))
  }

  /** Windows 0 .. n-1 read the reference only up to index n. */
  lemma WindowsPrefix(xs: seq<Extremum>, ref: seq<real>, kind: Kind, m: nat, n: nat)
    requires n < m <= |ref|
    ensures Windows(xs, ref[..m], kind, n) == Windows(xs, ref, kind, n)
  {
    if n > 0 {
      assert ref[..m][..n] == ref[..n];
    }
  }

  /** Window n-1 is applied to the result of windows 0 .. n-2. */
  lemma WindowsStep(xs: seq<Extremum>, ref: seq<real>, kind: Kind, n: nat)
    requires 0 < n < |ref|
    ensures Windows(xs, ref, kind, n) == FilterWindow(Windows(xs, ref, kind, n - 1), ref[n - 1], ref[n], kind)
  {
    WindowsPrefix(xs, ref, kind, n, n - 1);
  }

  lemma FilterWindowOnlyErases(xs: seq<Extremum>, lo: real, hi: real, kind: Kind)
    ensures IsSubsequence(FilterWindow(xs, lo, hi, kind), xs)
  {
    EraseAllOnlyErases(xs, Erased(xs, lo, hi, kind));
  }

  lemma {:induction false} WindowsOnlyErase(xs: seq<Extremum>, ref: seq<real>, kind: Kind, n: nat)
    requires n < |ref|
    ensures IsSubsequence(Windows(xs, ref, kind, n), xs)
    decreases n
  {
    if n == 0 {
      SubsequenceRefl(xs);
    } else {
      var ys := Windows(xs, ref, kind, n - 1);
      WindowsStep(xs, ref, kind, n);
      WindowsOnlyErase(xs, ref, kind, n - 1);
      FilterWindowOnlyErases(ys, ref[n - 1], ref[n], kind);
      SubsequenceTrans(Windows(xs, ref, kind, n), ys, xs);
    }
  }

  /** The filter only erases: its result is a subsequence of the subject, so
      the count never grows. */
  lemma FilterOnlyErases(xs: seq<Extremum>, ref: seq<real>, kind: Kind)
    requires Filter(xs, ref, kind).Some?
    ensures IsSubsequence(Filter(xs, ref, kind).value, xs)
    ensures |Filter(xs, ref, kind).value| <= |xs|
  {
    if |ref| == 0 {
      SubsequenceRefl(xs);
    } else {
      WindowsOnlyErase(xs, ref, kind, |ref| - 1);
    }
    SubsequenceShrinks(Filter(xs, ref, kind).value, xs);
  }

  /** A reference with fewer than two extrema has no window: the filter is
      a no-op, except for the fatal read of an empty reference. */
  lemma FilterWithoutWindows(xs: seq<Extremum>, ref: seq<real>, kind: Kind)
    requires |ref| <= 1
    ensures Filter(xs, ref, kind) == if |ref| == 0 && xs != [] then None else Some(xs)
  {
  }

  /** A window without subject entries changes nothing. */
  lemma FilterWindowEmpty(xs: seq<Extremum>, lo: real, hi: real, kind: Kind)
    requires !HasEntryIn(xs, lo, hi)
    ensures FilterWindow(xs, lo, hi, kind) == xs
  {
    CollectNothing(xs, lo, hi);
  }

  /** Entries whose times are in strict order are all different. */
  lemma IncreasingDistinct(w: seq<Extremum>)
    requires StrictlyIncreasing(Times(w))
    ensures Distinct(w)
  {
    forall k, l | 0 <= k < l < |w|
      ensures w[k] != w[l]
    {
      assert Times(w)[k] < Times(w)[l];
    }
  }

  /** The collected window of a subject in strict time order is itself in
      strict time order. */
  lemma CollectIncreasing(xs: seq<Extremum>, lo: real, hi: real)
    requires StrictlyIncreasing(Times(xs))
    ensures StrictlyIncreasing(Times(Collect(xs, lo, hi)))
  {
    CollectInside(xs, lo, hi);
    SubsequenceTimes(Collect(xs, lo, hi), xs);
    SubsequenceIncreasing(Times(Collect(xs, lo, hi)), Times(xs));
  }

  /** In strict time order, an earlier time sits at an earlier position. */
  lemma EarlierTimeEarlierPosition(w: seq<Extremum>, i: nat, j: nat)
    requires StrictlyIncreasing(Times(w)) && i < |w| && j < |w|
    requires w[i].time < w[j].time
    ensures i < j
  {
    assert Times(w)[i] == w[i].time && Times(w)[j] == w[j].time;
  }

  /** The kept entry has the best value of the window (greatest for crests,
      least for troughs) and is the earliest among equals. */
  lemma SurvivorIsEarliestBest(xs: seq<Extremum>, lo: real, hi: real, kind: Kind, e: Extremum)
    requires StrictlyIncreasing(Times(xs)) && HasEntryIn(xs, lo, hi)
    requires e in xs && InWindow(e.time, lo, hi)
    ensures Dominates(kind, Survivor(xs, lo, hi, kind).value, e.value)
    ensures e.time < Survivor(xs, lo, hi, kind).time ==> !Dominates(kind, e.value, Survivor(xs, lo, hi, kind).value)
  {
    var w := Collect(xs, lo, hi);
    CollectIsWindow(xs, lo, hi, e);
    CollectIncreasing(xs, lo, hi);
    var m := |w| - 1;
    var b := Best(w, kind, m);
    assert Survivor(xs, lo, hi, kind) == w[b];
    var q :| 0 <= q < |w| && w[q] == e;
    BestAgainst(w, kind, m, q);
    if e.time < w[b].time {
      EarlierTimeEarlierPosition(w, q, b);
    }
  }

  /** With times in strict order, an entry's time is among the times of some
      of its entries exactly when the entry is among them. */
  lemma TimeAmong(xs: seq<Extremum>, ys: seq<Extremum>, e: Extremum)
    requires StrictlyIncreasing(Times(xs)) && e in xs
    requires forall y :: y in ys ==> y in xs
    ensures e.time in Times(ys) <==> e in ys
  {
    if e.time in Times(ys) {
      var l :| 0 <= l < |ys| && Times(ys)[l] == e.time;
      var k :| 0 <= k < |xs| && xs[k] == e;
      assert ys[l] in ys;
      var k' :| 0 <= k' < |xs| && xs[k'] == ys[l];
      TimeIsUnique(xs, k, k');
    }
    if e in ys {
      var l :| 0 <= l < |ys| && ys[l] == e;
      assert Times(ys)[l] == e.time;
    }
  }

  /** The times a window with two or more entries erases are those of its
      entries other than the survivor. */
  lemma LoserTimes(xs: seq<Extremum>, lo: real, hi: real, kind: Kind, e: Extremum)
    requires StrictlyIncreasing(Times(xs)) && HasEntryIn(xs, lo, hi) && e in xs
    requires |Collect(xs, lo, hi)| > 1
    ensures e.time in Erased(xs, lo, hi, kind) <==> InWindow(e.time, lo, hi) && e != Survivor(xs, lo, hi, kind)
  {
    var w := Collect(xs, lo, hi);
    var m := |w| - 1;
    var s := BubbleUpTo(w, kind, m);
    var losers := s[..m];
    assert Erased(xs, lo, hi, kind) == Times(losers);
    assert Survivor(xs, lo, hi, kind) == w[Best(w, kind, m)];
    CollectIncreasing(xs, lo, hi);
    IncreasingDistinct(w);
    CollectIsWindow(xs, lo, hi, e);
    Losers(w, kind, e);
    BubblePermutes(w, kind, m);
    forall y | y in losers
      ensures y in xs
    {
      assert multiset(s)[y] > 0;
      CollectIsWindow(xs, lo, hi, y);
    }
    TimeAmong(xs, losers, e);
  }

  /** With subject times in strict order, a window keeps every entry outside
      [lo, hi] and, of those inside, only the survivor. */
  lemma FilterWindowKeepsSurvivor(xs: seq<Extremum>, lo: real, hi: real, kind: Kind)
    requires StrictlyIncreasing(Times(xs)) && HasEntryIn(xs, lo, hi)
    ensures forall e :: e in FilterWindow(xs, lo, hi, kind) <==>
              e in xs && (!InWindow(e.time, lo, hi) || e == Survivor(xs, lo, hi, kind))
  {
    var w := Collect(xs, lo, hi);
    var b := Survivor(xs, lo, hi, kind);
    if |w| <= 1 {
      forall e | e in xs && InWindow(e.time, lo, hi)
        ensures e == b
      {
        CollectIsWindow(xs, lo, hi, e);
      }
    } else {
      var lt := Erased(xs, lo, hi, kind);
      EraseAllSorted(xs, lt);
      forall e | e in xs
        ensures e.time in lt <==> InWindow(e.time, lo, hi) && e != b
      {
        LoserTimes(xs, lo, hi, kind, e);
      }
    }
  }

  lemma FilterWindowSorted(xs: seq<Extremum>, lo: real, hi: real, kind: Kind)
    requires StrictlyIncreasing(Times(xs))
    ensures StrictlyIncreasing(Times(FilterWindow(xs, lo, hi, kind)))
  {
    FilterWindowOnlyErases(xs, lo, hi, kind);
    SubsequenceTimes(FilterWindow(xs, lo, hi, kind), xs);
    SubsequenceIncreasing(Times(FilterWindow(xs, lo, hi, kind)), Times(xs));
  }

  // ---------------------------------------------------------------------------
  // After the filter: at most one extremum per reference window

  /** At most one entry of `xs` has its time in [lo, hi]. */
  predicate AtMostOneIn(xs: seq<Extremum>, lo: real, hi: real)
  {
    forall p, q :: 0 <= p < q < |xs| ==> !(InWindow(xs[p].time, lo, hi) && InWindow(xs[q].time, lo, hi))
  }

  /** With subject times in strict order, a processed window holds at most
      one subject entry. */
  lemma FilterWindowLeavesOne(xs: seq<Extremum>, lo: real, hi: real, kind: Kind)
    requires StrictlyIncreasing(Times(xs))
    ensures AtMostOneIn(FilterWindow(xs, lo, hi, kind), lo, hi)
  {
    var ys := FilterWindow(xs, lo, hi, kind);
    if HasEntryIn(xs, lo, hi) {
      FilterWindowKeepsSurvivor(xs, lo, hi, kind);
      FilterWindowSorted(xs, lo, hi, kind);
      forall p, q | 0 <= p < q < |ys| && InWindow(ys[p].time, lo, hi)
        ensures !InWindow(ys[q].time, lo, hi)
      {
        assert ys[p] in ys && ys[q] in ys;
        assert Times(ys)[p] < Times(ys)[q];
      }
    } else {
      FilterWindowEmpty(xs, lo, hi, kind);
    }
  }

  /** Erasing entries cannot put a second one into a window. */
  lemma AtMostOneInSubsequence(ys: seq<Extremum>, xs: seq<Extremum>, lo: real, hi: real)
    requires IsSubsequence(ys, xs) && AtMostOneIn(xs, lo, hi)
    ensures AtMostOneIn(ys, lo, hi)
  {
    var w :| Embeds(w, ys, xs);
    forall p, q | 0 <= p < q < |ys| && InWindow(ys[p].time, lo, hi)
      ensures !InWindow(ys[q].time, lo, hi)
    {
      assert ys[p] == xs[w[p]] && ys[q] == xs[w[q]];
    }
  }

  /** Each of the reference windows [ref[i], ref[i+1]], i < n, holds at most
      one entry of `xs`. */
  predicate OnePerWindow(xs: seq<Extremum>, ref: seq<real>, n: nat)
    requires n < |ref|
  {
    forall i :: 0 <= i < n ==> AtMostOneIn(xs, ref[i], ref[i + 1])
  }

  lemma OnePerWindowSubsequence(ys: seq<Extremum>, xs: seq<Extremum>, ref: seq<real>, n: nat)
    requires n < |ref| && IsSubsequence(ys, xs) && OnePerWindow(xs, ref, n)
    ensures OnePerWindow(ys, ref, n)
  {
    forall i | 0 <= i < n
      ensures AtMostOneIn(ys, ref[i], ref[i + 1])
    {
      AtMostOneInSubsequence(ys, xs, ref[i], ref[i + 1]);
    }
  }

  /** Processing window n-1 keeps the times in order and leaves windows
      0 .. n-1 with at most one entry each. */
  lemma WindowStep(ys: seq<Extremum>, ref: seq<real>, kind: Kind, n: nat)
    requires 0 < n < |ref| && StrictlyIncreasing(Times(ys)) && OnePerWindow(ys, ref, n - 1)
    ensures StrictlyIncreasing(Times(FilterWindow(ys, ref[n - 1], ref[n], kind)))
    ensures OnePerWindow(FilterWindow(ys, ref[n - 1], ref[n], kind), ref, n)
  {
    var zs := FilterWindow(ys, ref[n - 1], ref[n], kind);
    FilterWindowSorted(ys, ref[n - 1], ref[n], kind);
    FilterWindowLeavesOne(ys, ref[n - 1], ref[n], kind);
    FilterWindowOnlyErases(ys, ref[n - 1], ref[n], kind);
    OnePerWindowSubsequence(zs, ys, ref, n - 1);
  }

  /** After windows 0 .. n-1, each of them holds at most one subject entry,
      and the subject times are still in strict order. */
  lemma {:induction false} WindowsLeaveOne(xs: seq<Extremum>, ref: seq<real>, kind: Kind, n: nat)
    requires n < |ref| && StrictlyIncreasing(Times(xs))
    ensures StrictlyIncreasing(Times(Windows(xs, ref, kind, n)))
    ensures OnePerWindow(Windows(xs, ref, kind, n), ref, n)
    decreases n
  {
    if n > 0 {
      WindowsLeaveOne(xs, ref, kind, n - 1);
      WindowsStep(xs, ref, kind, n);
      WindowStep(Windows(xs, ref, kind, n - 1), ref, kind, n);
    }
  }

  /** With subject times in strict order, after the filter every closed
      reference window [ref[i], ref[i+1]] holds at most one subject extremum,
      and the times are still in strict order. */
  lemma FilterLeavesOnePerWindow(xs: seq<Extremum>, ref: seq<real>, kind: Kind, ys: seq<Extremum>)
    requires StrictlyIncreasing(Times(xs)) && Filter(xs, ref, kind) == Some(ys)
    ensures StrictlyIncreasing(Times(ys))
    ensures |ref| > 0 ==> OnePerWindow(ys, ref, |ref| - 1)
  {
    if |ref| > 0 {
      WindowsLeaveOne(xs, ref, kind, |ref| - 1);
    }
  }

  /** Collecting from a window holding at most one entry yields at most one
      entry. */
  lemma {:induction false} CollectAtMostOne(xs: seq<Extremum>, lo: real, hi: real)
    requires AtMostOneIn(xs, lo, hi)
    ensures |Collect(xs, lo, hi)| <= 1
    decreases |xs|
  {
    if xs != [] {
      var tail := xs[1..];
      if InWindow(xs[0].time, lo, hi) {
        forall p | 0 <= p < |tail|
          ensures !InWindow(tail[p].time, lo, hi)
        {
          assert tail[p] == xs[p + 1];
        }
        CollectNothing(tail, lo, hi);
      } else {
        forall p, q | 0 <= p < q < |tail| && InWindow(tail[p].time, lo, hi)
          ensures !InWindow(tail[q].time, lo, hi)
        {
          assert tail[p] == xs[p + 1] && tail[q] == xs[q + 1];
        }
        CollectAtMostOne(tail, lo, hi);
      }
    }
  }

  /** A window already holding at most one entry is left unchanged. */
  lemma FilterWindowSettled(xs: seq<Extremum>, lo: real, hi: real, kind: Kind)
    requires AtMostOneIn(xs, lo, hi)
    ensures FilterWindow(xs, lo, hi, kind) == xs
  {
    CollectAtMostOne(xs, lo, hi);
  }

  lemma {:induction false} WindowsSettled(ys: seq<Extremum>, ref: seq<real>, kind: Kind, n: nat)
    requires n < |ref| && OnePerWindow(ys, ref, n)
    ensures Windows(ys, ref, kind, n) == ys
    decreases n
  {
    if n > 0 {
      WindowsSettled(ys, ref, kind, n - 1);
      WindowsStep(ys, ref, kind, n);
      FilterWindowSettled(ys, ref[n - 1], ref[n], kind);
    }
  }

  /** Filtering twice against the same reference changes nothing more. */
  lemma FilterIdempotent(xs: seq<Extremum>, ref: seq<real>, kind: Kind)
    requires StrictlyIncreasing(Times(xs)) && Filter(xs, ref, kind).Some?
    ensures Filter(Filter(xs, ref, kind).value, ref, kind) == Filter(xs, ref, kind)
  {
    if |ref| > 0 {
      FilterLeavesOnePerWindow(xs, ref, kind, Filter(xs, ref, kind).value);
      WindowsSettled(Filter(xs, ref, kind).value, ref, kind, |ref| - 1);
    }
  }

  // ---------------------------------------------------------------------------
  // The loops of filter_signal_crest / filter_signal_trough

  /** All entries of `index` are positions of a vector of length `n`. */
  predicate Positions(index: seq<nat>, n: nat)
  {
    forall k :: 0 <= k < |index| ==> index[k] < n
  }

  /** The (time, value) pairs at the positions `index` of the parallel
      vectors: the window the index vector stands for. */
  function Pick(times: seq<real>, values: seq<real>, index: seq<nat>): (r: seq<Extremum>)
    requires |times| == |values| && Positions(index, |times|)
    ensures |r| == |index|
  {
    seq(|index|, k requires 0 <= k < |index| => Extremum(times[index[k]], values[index[k]]))
  }

  /** Swapping two positions of the index vector swaps the pairs they pick. */
  lemma PickSwap(times: seq<real>, values: seq<real>, index: seq<nat>, k: nat)
    requires |times| == |values| && Positions(index, |times|) && k + 1 < |index|
    ensures var p := Pick(times, values, index);
            Pick(times, values, index[k := index[k + 1]][k + 1 := index[k]]) == p[k := p[k + 1]][k + 1 := p[k]]
  {
  }

  /** The collect loop of one window: scan the subject times, keep the ones in
      [lo, hi] with their positions, stop at the first time above `hi`. */
  method CollectInWindow(times: seq<real>, ghost values: seq<real>, lo: real, hi: real)
    returns (windowTimes: seq<real>, index: seq<nat>)
    requires |times| == |values|
    ensures Positions(index, |times|) && |windowTimes| == |index|
    ensures forall k :: 0 <= k < |index| ==> windowTimes[k] == times[index[k]]
    ensures Pick(times, values, index) == Collect(Zip(times, values), lo, hi)
  {
    ghost var xs := Zip(times, values);
    windowTimes, index := [], [];
    var j := 0;
    while j < |times|
      invariant j <= |times|
      invariant Positions(index, |times|) && |windowTimes| == |index|
      invariant forall k :: 0 <= k < |index| ==> windowTimes[k] == times[index[k]]
      invariant Pick(times, values, index) + Collect(xs[j..], lo, hi) == Collect(xs, lo, hi)
    {
      assert xs[j..][0] == xs[j] && xs[j..][1..] == xs[j + 1..];
      if lo <= times[j] && times[j] <= hi {
        assert Pick(times, values, index + [j]) == Pick(times, values, index) + [xs[j]];
        windowTimes, index := windowTimes + [times[j]], index + [j];
      } else if times[j] > hi {
        break;
      }
      j := j + 1;
    }
    assert j == |times| ==> xs[j..] == [];
  }

  /** The single bubble pass over one window, swapping the time vector and
      the index vector together. */
  method BubblePass(windowTimes: seq<real>, index: seq<nat>, times: seq<real>, values: seq<real>, kind: Kind)
    returns (passTimes: seq<real>, passIndex: seq<nat>)
    requires |times| == |values| && |index| > 1 && |windowTimes| == |index| && Positions(index, |times|)
    requires forall k :: 0 <= k < |index| ==> windowTimes[k] == times[index[k]]
    ensures Positions(passIndex, |times|) && |passTimes| == |passIndex|
    ensures forall k :: 0 <= k < |passIndex| ==> passTimes[k] == times[passIndex[k]]
    ensures Pick(times, values, passIndex) == BubbleUpTo(Pick(times, values, index), kind, |index| - 1)
  {
    ghost var w := Pick(times, values, index);
    passTimes, passIndex := windowTimes, index;
    var k := 0;
    while k < |passIndex| - 1
      invariant k <= |index| - 1
      invariant |passIndex| == |index| && |passTimes| == |index| && Positions(passIndex, |times|)
      invariant forall q :: 0 <= q < |passIndex| ==> passTimes[q] == times[passIndex[q]]
      invariant Pick(times, values, passIndex) == BubbleUpTo(w, kind, k)
    {
      ghost var before := Pick(times, values, passIndex);
      assert before[k].value == values[passIndex[k]] && before[k + 1].value == values[passIndex[k + 1]];
      if Dominates(kind, values[passIndex[k]], values[passIndex[k + 1]]) {
        PickSwap(times, values, passIndex, k);
        passTimes := passTimes[k := passTimes[k + 1]][k + 1 := passTimes[k]];
        passIndex := passIndex[k := passIndex[k + 1]][k + 1 := passIndex[k]];
      }
      k := k + 1;
    }
  }

  /** The delete loop of one window: for each time to erase, find the first
      subject entry with that time and erase it from both vectors. */
  method EraseByTimes(values: seq<real>, times: seq<real>, erase: seq<real>) returns (newValues: seq<real>, newTimes: seq<real>)
    requires |values| == |times|
    ensures |newValues| == |newTimes|
    ensures Zip(newTimes, newValues) == EraseAll(Zip(times, values), erase)
  {
    newValues, newTimes := values, times;
    var m := 0;
    while m < |erase|
      invariant m <= |erase|
      invariant |newValues| == |newTimes|
      invariant Zip(newTimes, newValues) == EraseAll(Zip(times, values), erase[..m])
    {
      ghost var before := Zip(newTimes, newValues);
      assert erase[..m + 1][..m] == erase[..m];
      ZipRoundTrip(newTimes, newValues);
      var n := 0;
      while n < |newTimes|
        invariant n <= |newTimes|
        invariant forall k :: 0 <= k < n ==> newTimes[k] != erase[m]
        invariant Zip(newTimes, newValues) == before
      {
        if newTimes[n] == erase[m] {
          assert FirstWithTime(newTimes, erase[m]) == n;
          ZipErase(newTimes, newValues, n);
          newValues, newTimes := newValues[..n] + newValues[n + 1..], newTimes[..n] + newTimes[n + 1..];
          assert |newValues| == |newTimes|;
          break;
        }
        n := n + 1;
      }
      assert Zip(newTimes, newValues) == EraseFirst(before, erase[m]);
      m := m + 1;
    }
    assert erase[..m] == erase;
  }

  /** One window of the filter. */
  method FilterOneWindow(values: seq<real>, times: seq<real>, lo: real, hi: real, kind: Kind)
    returns (newValues: seq<real>, newTimes: seq<real>)
    requires |values| == |times|
    ensures |newValues| == |newTimes|
    ensures Zip(newTimes, newValues) == FilterWindow(Zip(times, values), lo, hi, kind)
  {
    ghost var xs := Zip(times, values);
    ZipRoundTrip(times, values);
    var windowTimes, index := CollectInWindow(times, values, lo, hi);
    newValues, newTimes := values, times;
    if |windowTimes| > 1 {
      var passTimes, passIndex := BubblePass(windowTimes, index, times, values, kind);
      ghost var s := Pick(times, values, passIndex);
      var m := |passTimes| - 1;
      assert passTimes[..m] == Times(s[..m]);
      newValues, newTimes := EraseByTimes(values, times, passTimes[..m]);
    }
  }
}
