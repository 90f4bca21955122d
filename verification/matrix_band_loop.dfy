/** The loop state of `levbandedopt`, the adaptive band of the matrix reference
    tool, and the facts that carry it from cell to cell and from row to row.

    The tool keeps the whole matrix, but row i reads only row i-1, so the state is
    the pair of rows (i-1, i).  Before its band is filled, row i holds i in column
    0, the sentinel K + 1 one column left and one column right of the band, and 0
    everywhere else.  The narrowing after the row is the one of `bounded_edit_dist`
    (the `AdaptiveLoop` functions), read off row i as stored. */
module MatrixBandLoop {
  import opened EditDistance
  import opened Band
  import opened AdaptiveLoop

  /** Row i-1 is admissible on the band of row i and one column left of it. */
  ghost predicate Operands<T>(a: seq<T>, b: seq<T>, k: nat, i: nat, start: nat, end: nat, prev: seq<nat>)
    requires 1 <= i <= |a|
  {
    && |prev| == |b| + 1
    && 1 <= start <= end <= |b|
    && (forall p :: start - 1 <= p <= end ==> Admissible(Levenshtein, a, b, k, i - 1, p, prev[p]))
  }

  /** What row i needs when it starts: its operands; a cell left of the band that
      is not good, so the left sentinel stands for it; and, when the lengths differ
      by at most K, a band around the final diagonal with nothing good right of it,
      while otherwise row 1 is the only row and its band stays left of that diagonal. */
  ghost predicate Ready<T>(a: seq<T>, b: seq<T>, k: nat, i: nat, start: nat, end: nat, prev: seq<nat>)
    requires 1 <= i <= |a| <= |b|
  {
    && Operands(a, b, k, i, start, end, prev)
    && (start > 1 ==> !Good(Levenshtein, a, b, k, i, start - 1))
    && (|b| - |a| <= k ==> start <= i + |b| - |a| <= end && Outlook(a, b, k, i, end))
    && (|b| - |a| > k ==> i == 1 && start == 1 && end <= |b| - |a|)
  }

  /** The state while cell (i, j) is computed: row i-1 as in `Operands`, row i
      admissible from the left sentinel up to j-1, the right sentinel in place. */
  ghost predicate RowState<T>(a: seq<T>, b: seq<T>, k: nat, i: nat, start: nat, end: nat, j: nat,
                              prev: seq<nat>, cur: seq<nat>)
    requires 1 <= i <= |a| && 1 <= start <= j <= end + 1 && end <= |b|
  {
    && |prev| == |b| + 1 && |cur| == |b| + 1
    && (forall p :: start - 1 <= p <= end ==> Admissible(Levenshtein, a, b, k, i - 1, p, prev[p]))
    && (forall p :: start - 1 <= p < j ==> Admissible(Levenshtein, a, b, k, i, p, cur[p]))
    && (end < |b| ==> cur[end + 1] == k + 1)
  }

  /** Row i before its band is filled. */
  function RowInit(i: nat, start: nat, end: nat, m: nat, k: nat): (row: seq<nat>)
    requires 1 <= start <= end <= m
    ensures |row| == m + 1
    ensures row[0] == i && (start > 1 ==> row[start - 1] == k + 1)
    ensures end < m ==> row[end + 1] == k + 1
    ensures forall p :: 0 < p <= m && p != start - 1 && p != end + 1 ==> row[p] == 0
  {
    seq(m + 1, p => if p == 0 then i else if p == start - 1 || p == end + 1 then k + 1 else 0)
  }

  /** Entering row i: column 0 is exact when the band starts at column 1, and the
      left sentinel stands for a cell that is not good otherwise. */
  lemma RowEntry<T>(a: seq<T>, b: seq<T>, k: nat, i: nat, start: nat, end: nat, prev: seq<nat>)
    requires 1 <= i <= |a| <= |b|
    requires Ready(a, b, k, i, start, end, prev)
    ensures RowState(a, b, k, i, start, end, start, prev, RowInit(i, start, end, |b|, k))
  {
    if start == 1 {
      Border(Levenshtein, a, b, i, 0);
    }
  }

  /** Storing an admissible cell (i, j) moves the state from column j to j+1. */
  lemma RowStateAdvance<T>(a: seq<T>, b: seq<T>, k: nat, i: nat, start: nat, end: nat, j: nat,
                           prev: seq<nat>, cur: seq<nat>, cell: nat)
    requires 1 <= i <= |a| && 1 <= start <= j <= end <= |b|
    requires RowState(a, b, k, i, start, end, j, prev, cur)
    requires Admissible(Levenshtein, a, b, k, i, j, cell)
    ensures RowState(a, b, k, i, start, end, j + 1, prev, cur[j := cell])
  {
  }

  /** Row 0 is 0, 1, ..., m, exact everywhere, and the first band is
      [1, min(m, h + 1)] with h = (K + m - n) / 2. */
  lemma FirstReady<T>(a: seq<T>, b: seq<T>, k: nat)
    requires 1 <= |a| <= |b|
    ensures Ready(a, b, k, 1, 1, Min(|b|, (k + |b| - |a|) / 2 + 1), Iota(|b| + 1))
  {
    var e, prev := Min(|b|, (k + |b| - |a|) / 2 + 1), Iota(|b| + 1);
    forall p | 0 <= p <= e
      ensures Admissible(Levenshtein, a, b, k, 0, p, prev[p])
    {
      Border(Levenshtein, a, b, 0, p);
    }
    if |b| - |a| <= k {
      AdaptiveFirstReady(a, b, k);
    }
  }

  /** A row with no passing cell in its band leaves an empty narrowed band. */
  lemma NoPassEmpty(buffer: seq<nat>, i: nat, delta: nat, k: nat, start: nat, end: nat)
    requires 1 <= start <= end < |buffer|
    requires forall p :: start <= p <= end ==> !Within(buffer, i, delta, k, p)
    ensures var e := NarrowedEnd(buffer, i, delta, k, end);
            e < AdvanceStart(buffer, i, delta, k, start, e)
  {
    var stop := ShrinkEnd(buffer, i, delta, k, end);
    assert stop < start;
    var e := NarrowedEnd(buffer, i, delta, k, end);
    if start <= e {
      assert !Within(buffer, i, delta, k, start);
      assert AdvanceStart(buffer, i, delta, k, start, e) == AdvanceStart(buffer, i, delta, k, start + 1, e);
    }
  }

  /** When the lengths differ by more than K, no cell of row 1 left of the final
      diagonal is good: reaching column p costs at least p - 1 edits and finishing
      from there m - n - p + 1 more. */
  lemma FirstRowFar<T>(a: seq<T>, b: seq<T>, k: nat, p: nat)
    requires 1 <= |a| <= |b| && k < |b| - |a| && p <= |b| - |a|
    ensures !Good(Levenshtein, a, b, k, 1, p)
  {
    Bounds(Levenshtein, a, b, 1, p);
  }

  /** When the lengths differ by more than K the band is empty after row 1, and the
      distance exceeds K. */
  lemma NarrowFar<T>(a: seq<T>, b: seq<T>, k: nat, end: nat, prev: seq<nat>, cur: seq<nat>)
    requires 1 <= |a| <= |b| && k < |b| - |a| && 1 <= end <= |b| - |a|
    requires RowState(a, b, k, 1, 1, end, end + 1, prev, cur)
    ensures var delta := |b| - |a|;
            var e := NarrowedEnd(cur, 1, delta, k, end);
            e < AdvanceStart(cur, 1, delta, k, 1, e)
    ensures Distance(Levenshtein, a, b) > k
  {
    var delta := |b| - |a|;
    forall p | 1 <= p <= end
      ensures !Within(cur, 1, delta, k, p)
    {
      FirstRowFar(a, b, k, p);
      WithinGood(a, b, k, 1, p, cur);
    }
    NoPassEmpty(cur, 1, delta, k, 1, end);
    Bounds(Levenshtein, a, b, |a|, |b|);
  }

  /** Left of the final diagonal a cell that is not good has a lower neighbour that
      is not good either. */
  lemma NotGoodBelow<T>(a: seq<T>, b: seq<T>, k: nat, i: nat, p: nat)
    requires 1 <= i < |a| <= |b| && p + 1 <= i + 1 + |b| - |a|
    requires !Good(Levenshtein, a, b, k, i, p)
    ensures !Good(Levenshtein, a, b, k, i + 1, p)
  {
    FailingBelow(Levenshtein, a, b, k, i + 1, p, k + 1);
  }

  /** The left edge of row i+1: the start loop walked past failing cells, so the
      cell left of the new start is not good in row i, nor in row i+1. */
  lemma NextLeftEdge<T>(a: seq<T>, b: seq<T>, k: nat, i: nat, start: nat, end: nat, prev: seq<nat>,
                        cur: seq<nat>, start': nat, end': nat)
    requires 1 <= i < |a| <= |b| && |b| - |a| <= k
    requires Ready(a, b, k, i, start, end, prev) == true
    requires RowState(a, b, k, i, start, end, end + 1, prev, cur) == true
    requires end' <= end + 1 && end' <= |b| && start <= start' <= i + |b| - |a|
    requires start' == AdvanceStart(cur, i, |b| - |a|, k, start, end')
    ensures start' > 1 ==> !Good(Levenshtein, a, b, k, i + 1, start' - 1)
  {
    if start' > 1 {
      var p := start' - 1;
      if p >= start {
        assert !Within(cur, i, |b| - |a|, k, p);
        WithinGood(a, b, k, i, p, cur);
      }
      NotGoodBelow(a, b, k, i, p);
    }
  }

  /** The operands of row i+1: row i on the new band, whose end moved at most one
      column right, onto the right sentinel of a cell that is not good. */
  lemma NextOperands<T>(a: seq<T>, b: seq<T>, k: nat, i: nat, start: nat, end: nat, prev: seq<nat>,
                        cur: seq<nat>, start': nat, end': nat)
    requires 1 <= i < |a| <= |b|
    requires 1 <= start <= start' <= end' <= end + 1 && end' <= |b| && end <= |b|
    requires RowState(a, b, k, i, start, end, end + 1, prev, cur) == true
    requires end < |b| ==> !Good(Levenshtein, a, b, k, i, end + 1)
    ensures Operands(a, b, k, i + 1, start', end', cur)
  {
  }

  /** A row with a good cell on the final diagonal keeps a non-empty band, and
      before the last row the next row is ready. */
  lemma NarrowKept<T>(a: seq<T>, b: seq<T>, k: nat, i: nat, start: nat, end: nat, prev: seq<nat>,
                      cur: seq<nat>, start': nat, end': nat)
    requires 1 <= i < |a| <= |b| && |b| - |a| <= k
    requires Ready(a, b, k, i, start, end, prev) == true
    requires RowState(a, b, k, i, start, end, end + 1, prev, cur) == true
    requires Good(Levenshtein, a, b, k, i, i + |b| - |a|)
    requires end' == NarrowedEnd(cur, i, |b| - |a|, k, end)
    requires start' == AdvanceStart(cur, i, |b| - |a|, k, start, end')
    ensures start' <= end' && Ready(a, b, k, i + 1, start', end', cur)
  {
    var delta := |b| - |a|;
    var stop := ShrinkEnd(cur, i, delta, k, end);
    NarrowStop(a, b, k, i, end, cur);
    NarrowEndKeeps(a, b, k, i, end, stop);
    NarrowStart(a, b, k, i, start, end', cur);
    NextOutlook(a, b, k, i, end, stop);
    NextLeftEdge(a, b, k, i, start, end, prev, cur, start', end');
    NextOperands(a, b, k, i, start, end, prev, cur, start', end');
  }

  /** After the last row, a good final cell keeps the band non-empty; the band ends
      at column m, whose cell is the distance. */
  lemma NarrowLast<T>(a: seq<T>, b: seq<T>, k: nat, start: nat, end: nat, prev: seq<nat>, cur: seq<nat>)
    requires 1 <= |a| <= |b| && |b| - |a| <= k
    requires Ready(a, b, k, |a|, start, end, prev) == true
    requires RowState(a, b, k, |a|, start, end, end + 1, prev, cur) == true
    requires Good(Levenshtein, a, b, k, |a|, |b|)
    ensures var delta := |b| - |a|;
            var end' := NarrowedEnd(cur, |a|, delta, k, end);
            AdvanceStart(cur, |a|, delta, k, start, end') <= end'
    ensures end == |b| && cur[end] == Distance(Levenshtein, a, b) <= k
  {
    var delta := |b| - |a|;
    NarrowStop(a, b, k, |a|, end, cur);
    NarrowStart(a, b, k, |a|, start, NarrowedEnd(cur, |a|, delta, k, end), cur);
    assert Admissible(Levenshtein, a, b, k, |a|, |b|, cur[|b|]);
    FinalCell(Levenshtein, a, b, k, cur[|b|]);
  }

  /** A row without a good cell on the final diagonal, or with the lengths more
      than K apart, leaves an empty narrowed band: the distance exceeds K. */
  lemma NarrowDrops<T>(a: seq<T>, b: seq<T>, k: nat, i: nat, start: nat, end: nat, prev: seq<nat>, cur: seq<nat>)
    requires 1 <= i <= |a| <= |b|
    requires Ready(a, b, k, i, start, end, prev) == true
    requires RowState(a, b, k, i, start, end, end + 1, prev, cur) == true
    requires |b| - |a| > k || !Good(Levenshtein, a, b, k, i, i + |b| - |a|)
    ensures var delta := |b| - |a|;
            var end' := NarrowedEnd(cur, i, delta, k, end);
            end' < AdvanceStart(cur, i, delta, k, start, end')
    ensures Distance(Levenshtein, a, b) > k
  {
    if |b| - |a| > k {
      NarrowFar(a, b, k, end, prev, cur);
    } else {
      NarrowEmpty(a, b, k, i, start, end, cur);
    }
  }

  /** A row with a good cell on the final diagonal keeps a non-empty band: before
      the last row the next row is ready, and after it the last cell is the distance. */
  lemma NarrowHolds<T>(a: seq<T>, b: seq<T>, k: nat, i: nat, start: nat, end: nat, prev: seq<nat>, cur: seq<nat>)
    requires 1 <= i <= |a| <= |b| && |b| - |a| <= k
    requires Ready(a, b, k, i, start, end, prev) == true
    requires RowState(a, b, k, i, start, end, end + 1, prev, cur) == true
    requires Good(Levenshtein, a, b, k, i, i + |b| - |a|)
    ensures var delta := |b| - |a|;
            var end' := NarrowedEnd(cur, i, delta, k, end);
            var start' := AdvanceStart(cur, i, delta, k, start, end');
            && start' <= end'
            && (i < |a| ==> Ready(a, b, k, i + 1, start', end', cur) == true)
            && (i == |a| ==> end == |b| && cur[end] == Distance(Levenshtein, a, b) <= k)
  {
    var delta := |b| - |a|;
    var end' := NarrowedEnd(cur, i, delta, k, end);
    var start' := AdvanceStart(cur, i, delta, k, start, end');
    if i < |a| {
      NarrowKept(a, b, k, i, start, end, prev, cur, start', end');
    } else {
      NarrowLast(a, b, k, start, end, prev, cur);
    }
  }
}
