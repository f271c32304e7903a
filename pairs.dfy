/** The orders in which the driver visits pairs of signals: every ordered
    pair (i, j) with i != j, row by row (filter_signal), and every unordered
    pair i < j in lexicographic order (calculate_phaseVector_* and
    show_phase_relation_*). */
module Pairs {

  /** Indices of a subject signal and its reference. */
  datatype Pair = Pair(i: nat, j: nat)

  /** Row i of filter_signal's two inner loops, up to column m: (i, j) for
      every j < m other than i. */
  function OrderedRow(i: nat, m: nat): seq<Pair>
    decreases m
  {
    if m == 0 then [] else OrderedRow(i, m - 1) + (if m - 1 != i then [Pair(i, m - 1)] else [])
  }

  /** The rows i < m of an n-signal round. */
  function OrderedRows(n: nat, m: nat): seq<Pair>
    decreases m
  {
    if m == 0 then [] else OrderedRows(n, m - 1) + OrderedRow(m - 1, n)
  }

  /** One filtering epoch over n signals. */
  function OrderedPairs(n: nat): seq<Pair>
  {
    OrderedRows(n, n)
  }

  /** Row i of the pair loops of calculate_phaseVector_*, up to column m:
      (i, j) for i < j < m. */
  function UnorderedRow(i: nat, m: nat): seq<Pair>
    decreases m
  {
    if m <= i + 1 then [] else UnorderedRow(i, m - 1) + [Pair(i, m - 1)]
  }

  /** The rows i < m of the unordered pairs of n signals. */
  function UnorderedRows(n: nat, m: nat): seq<Pair>
    decreases m
  {
    if m == 0 then [] else UnorderedRows(n, m - 1) + UnorderedRow(m - 1, n)
  }

  function UnorderedPairs(n: nat): seq<Pair>
  {
    UnorderedRows(n, n)
  }

  predicate LexBefore(p: Pair, q: Pair)
  {
    p.i < q.i || (p.i == q.i && p.j < q.j)
  }

  /** Strictly increasing in lexicographic order, hence free of repeats. */
  predicate LexSorted(ps: seq<Pair>)
  {
    forall k, l :: 0 <= k < l < |ps| ==> LexBefore(ps[k], ps[l])
  }

  lemma LexSortedAppend(a: seq<Pair>, b: seq<Pair>)
    requires LexSorted(a) && LexSorted(b)
    requires forall p, q :: p in a && q in b ==> LexBefore(p, q)
    ensures LexSorted(a + b)
  {
    var c := a + b;
    forall k, l | 0 <= k < l < |c|
      ensures LexBefore(c[k], c[l])
    {
      if k < |a| && l >= |a| {
        assert c[k] in a && c[l] in b;
      } else if k >= |a| {
        assert c[k] == b[k - |a|] && c[l] == b[l - |a|];
      }
    }
  }

  // ---------------------------------------------------------------------------
  // Ordered pairs

  lemma {:induction false} OrderedRowMembers(i: nat, m: nat)
    ensures forall p :: p in OrderedRow(i, m) <==> p.i == i && p.j < m && p.j != i
    decreases m
  {
    if m > 0 {
      OrderedRowMembers(i, m - 1);
    }
  }

  lemma {:induction false} OrderedRowCount(i: nat, m: nat)
    ensures |OrderedRow(i, m)| == if i < m then m - 1 else m
    decreases m
  {
    if m > 0 {
      OrderedRowCount(i, m - 1);
    }
  }

  lemma {:induction false} OrderedRowSorted(i: nat, m: nat)
    ensures LexSorted(OrderedRow(i, m))
    decreases m
  {
    if m > 0 {
      OrderedRowSorted(i, m - 1);
      OrderedRowMembers(i, m - 1);
      var tail: seq<Pair> := if m - 1 != i then [Pair(i, m - 1)] else [];
      LexSortedAppend(OrderedRow(i, m - 1), tail);
    }
  }

  lemma {:induction false} OrderedRowsMembers(n: nat, m: nat)
    ensures forall p :: p in OrderedRows(n, m) <==> IsOrdered(n, m, p)
    decreases m
  {
    if m > 0 {
      OrderedRowsMembers(n, m - 1);
      OrderedRowMembers(m - 1, n);
      forall p | p in OrderedRows(n, m)
        ensures IsOrdered(n, m, p)
      {
        InAppend(p, OrderedRows(n, m - 1), OrderedRow(m - 1, n));
      }
      forall p | IsOrdered(n, m, p)
        ensures p in OrderedRows(n, m)
      {
        if p.i < m - 1 {
          assert IsOrdered(n, m - 1, p);
        }
      }
    }
  }

  predicate IsOrdered(n: nat, m: nat, p: Pair)
  {
    p.i < m && p.j < n && p.i != p.j
  }

  lemma InAppend(p: Pair, a: seq<Pair>, b: seq<Pair>)
    requires p in a + b
    ensures p in a || p in b
  {
  }

  lemma {:induction false} OrderedRowsCount(n: nat, m: nat)
    requires m <= n
    ensures |OrderedRows(n, m)| == m * (n - 1)
    decreases m
  {
    if m > 0 {
      OrderedRowsCount(n, m - 1);
      OrderedRowCount(m - 1, n);
      MulStep(m - 1, n - 1);
    }
  }

  lemma {:induction false} OrderedRowsSorted(n: nat, m: nat)
    ensures LexSorted(OrderedRows(n, m))
    decreases m
  {
    if m > 0 {
      var a := OrderedRows(n, m - 1);
      var b := OrderedRow(m - 1, n);
      OrderedRowsSorted(n, m - 1);
      OrderedRowsMembers(n, m - 1);
      OrderedRowMembers(m - 1, n);
      OrderedRowSorted(m - 1, n);
      forall p, q | p in a && q in b
        ensures LexBefore(p, q)
      {
        assert p.i < m - 1 && q.i == m - 1;
      }
      LexSortedAppend(a, b);
    }
  }

  lemma MulStep(a: nat, b: nat)
    ensures a * b + b == (a + 1) * b
  {
  }

  /** An epoch visits exactly the ordered pairs of distinct signals, each
      once, row by row: n(n-1) calls of each filter. */
  lemma OrderedPairsExact(n: nat)
    ensures forall p :: p in OrderedPairs(n) <==> p.i < n && p.j < n && p.i != p.j
    ensures |OrderedPairs(n)| == n * (n - 1)
    ensures LexSorted(OrderedPairs(n))
  {
    OrderedRowsMembers(n, n);
    OrderedRowsCount(n, n);
    OrderedRowsSorted(n, n);
  }

  // ---------------------------------------------------------------------------
  // Unordered pairs

  lemma {:induction false} UnorderedRowMembers(i: nat, m: nat)
    ensures forall p :: p in UnorderedRow(i, m) <==> p.i == i && i < p.j < m
    decreases m
  {
    if m > i + 1 {
      UnorderedRowMembers(i, m - 1);
    }
  }

  lemma {:induction false} UnorderedRowCount(i: nat, m: nat)
    ensures |UnorderedRow(i, m)| == if m <= i + 1 then 0 else m - i - 1
    decreases m
  {
    if m > i + 1 {
      UnorderedRowCount(i, m - 1);
    }
  }

  lemma {:induction false} UnorderedRowSorted(i: nat, m: nat)
    ensures LexSorted(UnorderedRow(i, m))
    decreases m
  {
    if m > i + 1 {
      UnorderedRowSorted(i, m - 1);
      UnorderedRowMembers(i, m - 1);
      LexSortedAppend(UnorderedRow(i, m - 1), [Pair(i, m - 1)]);
    }
  }

  predicate IsUnordered(n: nat, m: nat, p: Pair)
  {
    p.i < m && p.i < p.j < n
  }

  lemma {:induction false} UnorderedRowsMembers(n: nat, m: nat)
    ensures forall p :: p in UnorderedRows(n, m) <==> IsUnordered(n, m, p)
    decreases m
  {
    if m > 0 {
      UnorderedRowsMembers(n, m - 1);
      UnorderedRowMembers(m - 1, n);
      forall p | p in UnorderedRows(n, m)
        ensures IsUnordered(n, m, p)
      {
        InAppend(p, UnorderedRows(n, m - 1), UnorderedRow(m - 1, n));
      }
      forall p | IsUnordered(n, m, p)
        ensures p in UnorderedRows(n, m)
      {
        if p.i < m - 1 {
          assert IsUnordered(n, m - 1, p);
        }
      }
    }
  }

  lemma {:induction false} UnorderedRowsCount(n: nat, m: nat)
    requires m <= n
    ensures 2 * |UnorderedRows(n, m)| == m * (2 * n - m - 1)
    decreases m
  {
    if m > 0 {
      UnorderedRowsCount(n, m - 1);
      UnorderedRowCount(m - 1, n);
      TriangleStep(n, m);
    }
  }

  lemma TriangleStep(n: nat, m: nat)
    requires 0 < m <= n
    ensures (m - 1) * (2 * n - (m - 1) - 1) + 2 * (n - m) == m * (2 * n - m - 1)
  {
  }

  lemma {:induction false} UnorderedRowsSorted(n: nat, m: nat)
    ensures LexSorted(UnorderedRows(n, m))
    decreases m
  {
    if m > 0 {
      var a := UnorderedRows(n, m - 1);
      var b := UnorderedRow(m - 1, n);
      UnorderedRowsSorted(n, m - 1);
      UnorderedRowsMembers(n, m - 1);
      UnorderedRowMembers(m - 1, n);
      UnorderedRowSorted(m - 1, n);
      forall p, q | p in a && q in b
        ensures LexBefore(p, q)
      {
        assert p.i < m - 1 && q.i == m - 1;
      }
      LexSortedAppend(a, b);
    }
  }

  /** The phase table covers exactly the pairs i < j, each once, in
      lexicographic order: n(n-1)/2 of them. */
  lemma UnorderedPairsExact(n: nat)
    ensures forall p :: p in UnorderedPairs(n) <==> p.i < p.j < n
    ensures 2 * |UnorderedPairs(n)| == n * (n - 1)
    ensures LexSorted(UnorderedPairs(n))
  {
    UnorderedRowsMembers(n, n);
    UnorderedRowsCount(n, n);
    UnorderedRowsSorted(n, n);
  }

  /** The pair loops stop at row n - 1, which has no pairs anyway. */
  lemma UnorderedLastRowEmpty(n: nat)
    requires n > 0
    ensures UnorderedPairs(n) == UnorderedRows(n, n - 1)
  {
    assert UnorderedRow(n - 1, n) == [];
  }
}
