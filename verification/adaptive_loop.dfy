/** The loop state of the adaptive-band single-row Levenshtein computation of
    `bounded_edit_dist` and `min_edit_dist`, and the facts that carry it from cell
    to cell and from row to row.

    The band of row i runs from `start` to `end`.  Nothing is written outside it:
    the buffer left of the band keeps values that failed the narrowing test in an
    earlier row, and the buffer right of it still holds the initial 0, 1, ..., m.
    After each row the end moves left past every failing cell and then one column
    right, and the start moves right past every failing cell; a row without a
    passing cell ends the computation. */
module AdaptiveLoop {
  import opened EditDistance
  import opened Band

  /** The values the single-row loop carries from cell to cell. */
  datatype Carry = Carry(buffer: seq<nat>, previousCell: nat)

  /** The distance from column p of row i to the final diagonal, read off the
      buffer value: the quantity both narrowing loops compare with K. */
  predicate Within(buffer: seq<nat>, i: nat, delta: nat, k: nat, p: nat)
    requires p < |buffer|
  {
    buffer[p] + Abs(p - i - delta) <= k
  }

  /** The end-narrowing loop: walk left from `end` past every failing column. */
  function ShrinkEnd(buffer: seq<nat>, i: nat, delta: nat, k: nat, end: nat): (stop: nat)
    requires end < |buffer|
    ensures stop <= end
    ensures stop > 0 ==> Within(buffer, i, delta, k, stop)
    ensures forall p :: stop < p <= end ==> !Within(buffer, i, delta, k, p)
  {
    if end > 0 && !Within(buffer, i, delta, k, end) then ShrinkEnd(buffer, i, delta, k, end - 1) else end
  }

  /** The start-narrowing loop: walk right from `start` past every failing column,
      stopping one past `end` at the latest. */
  function AdvanceStart(buffer: seq<nat>, i: nat, delta: nat, k: nat, start: nat, end: nat): (s: nat)
    requires end < |buffer|
    ensures start <= s && (start <= end + 1 ==> s <= end + 1)
    ensures s <= end ==> Within(buffer, i, delta, k, s)
    ensures forall p :: start <= p < s ==> p <= end && !Within(buffer, i, delta, k, p)
    decreases end + 1 - start
  {
    if start <= end && !Within(buffer, i, delta, k, start) then AdvanceStart(buffer, i, delta, k, start + 1, end) else start
  }

  /** What row i needs when it starts, with band [start, end]: row i-1 admissible
      on the band and at its left neighbour, failing values left of it, the initial
      buffer right of it; row i has no good cell right of the band, and row i-1 has
      one at end-1 (or at m when the band reaches it). */
  ghost predicate AdaptiveReady<T>(a: seq<T>, b: seq<T>, k: nat, i: nat, start: nat, end: nat, buffer: seq<nat>)
    requires 1 <= i <= |a| <= |b|
  {
    var m := |b|;
    && |buffer| == m + 1
    && 1 <= start <= i + m - |a| <= end <= m
    && Admissible(Levenshtein, a, b, k, i - 1, start - 1, buffer[start - 1])
    && (forall p :: 1 <= p < start ==> Failing(Levenshtein, a, b, k, i - 1, p, buffer[p]))
    && (forall p :: start <= p <= end ==> Admissible(Levenshtein, a, b, k, i - 1, p, buffer[p]))
    && (forall p :: end < p <= m ==> buffer[p] == p)
    && Outlook(a, b, k, i, end)
  }

  /** The facts about the matrix itself that row i inherits with band end `end`:
      no good cell of row i lies right of it, and row i-1 has a good cell at
      end-1, or at m when the band reaches it. */
  ghost predicate Outlook<T>(a: seq<T>, b: seq<T>, k: nat, i: nat, end: nat)
    requires 1 <= i <= |a| && 1 <= end <= |b|
  {
    var m := |b|;
    && (forall p :: end < p <= m ==> !Good(Levenshtein, a, b, k, i, p))
    && (Good(Levenshtein, a, b, k, i - 1, end - 1) || (end == m && Good(Levenshtein, a, b, k, i - 1, m)))
  }

  /** The state while cell (i, j) is computed: row i from the left neighbour of
      the band up to j-1, row i-1 from j to the band end, the carried cell standing
      for (i-1, j-1); the failing values left of the band have moved down to row i
      and the buffer right of the band is untouched. */
  ghost predicate AdaptiveState<T>(a: seq<T>, b: seq<T>, k: nat, i: nat, start: nat, end: nat, j: nat, c: Carry)
    requires 1 <= i <= |a| && 1 <= start <= j <= end + 1 && end <= |b|
  {
    var m := |b|;
    && |c.buffer| == m + 1
    && Admissible(Levenshtein, a, b, k, i, start - 1, c.buffer[start - 1])
    && (forall p :: 1 <= p < start ==> Failing(Levenshtein, a, b, k, i, p, c.buffer[p]))
    && (forall p :: start <= p < j ==> Admissible(Levenshtein, a, b, k, i, p, c.buffer[p]))
    && (forall p :: j <= p <= end ==> Admissible(Levenshtein, a, b, k, i - 1, p, c.buffer[p]))
    && (forall p :: end < p <= m ==> c.buffer[p] == p)
    && Admissible(Levenshtein, a, b, k, i - 1, j - 1, c.previousCell)
  }

  /** What row i leaves behind: the state after its last cell, without the carry. */
  ghost predicate AdaptiveDone<T>(a: seq<T>, b: seq<T>, k: nat, i: nat, start: nat, end: nat, buffer: seq<nat>)
    requires 1 <= i <= |a| && 1 <= start <= end + 1 && end <= |b|
  {
    var m := |b|;
    && |buffer| == m + 1
    && Admissible(Levenshtein, a, b, k, i, start - 1, buffer[start - 1])
    && (forall p :: 1 <= p < start ==> Failing(Levenshtein, a, b, k, i, p, buffer[p]))
    && (forall p :: start <= p <= end ==> Admissible(Levenshtein, a, b, k, i, p, buffer[p]))
    && (forall p :: end < p <= m ==> buffer[p] == p)
  }

  /** The carry at the start of row i: the diagonal operand is read one column
      left of the band before column 0 is set to i. */
  function AdaptiveRowStart(buffer: seq<nat>, i: nat, start: nat): Carry
    requires 1 <= start <= |buffer|
  {
    Carry(buffer[0 := i], buffer[start - 1])
  }

  /** The carry after cell (i, j) is stored. */
  function AdaptiveAdvance(c: Carry, j: nat, cell: nat): Carry
    requires j < |c.buffer|
  {
    Carry(c.buffer[j := cell], c.buffer[j])
  }

  /** The first row starts from the initial buffer 0, 1, ..., m, with band
      [1, min(m, h + 1)] for h = (K + m - n) / 2. */
  lemma AdaptiveFirstReady<T>(a: seq<T>, b: seq<T>, k: nat)
    requires 1 <= |a| <= |b| && |b| - |a| <= k
    ensures AdaptiveReady(a, b, k, 1, 1, Min(|b|, (k + |b| - |a|) / 2 + 1), Iota(|b| + 1))
  {
    var m, e, buffer := |b|, Min(|b|, (k + |b| - |a|) / 2 + 1), Iota(|b| + 1);
    forall p | 0 <= p <= e
      ensures Admissible(Levenshtein, a, b, k, 0, p, buffer[p])
    {
      Border(Levenshtein, a, b, 0, p);
    }
    forall p | e < p <= m
      ensures !Good(Levenshtein, a, b, k, 1, p)
    {
      if Good(Levenshtein, a, b, k, 1, p) {
        GoodDiagonalPredecessor(Levenshtein, a, b, k, 1, p);
        TopRowBeyond(Levenshtein, a, b, k, p - 1);
      }
    }
    TopRowEnd(Levenshtein, a, b, k);
  }

  /** Entering row i: column 0 becomes i, and the failing values left of the band
      fail for row i as well. */
  lemma AdaptiveRowEntry<T>(a: seq<T>, b: seq<T>, k: nat, i: nat, start: nat, end: nat, buffer: seq<nat>)
    requires 1 <= i <= |a| <= |b|
    requires AdaptiveReady(a, b, k, i, start, end, buffer)
    ensures AdaptiveState(a, b, k, i, start, end, start, AdaptiveRowStart(buffer, i, start))
  {
    var c := AdaptiveRowStart(buffer, i, start);
    forall p | 1 <= p < start
      ensures Failing(Levenshtein, a, b, k, i, p, c.buffer[p])
    {
      FailingBelow(Levenshtein, a, b, k, i, p, buffer[p]);
    }
    if start == 1 {
      Border(Levenshtein, a, b, i, 0);
    } else {
      FailingBelow(Levenshtein, a, b, k, i, start - 1, buffer[start - 1]);
    }
  }

  /** Storing an admissible cell (i, j) moves the state from column j to j+1. */
  lemma AdaptiveStateAdvance<T>(a: seq<T>, b: seq<T>, k: nat, i: nat, start: nat, end: nat, j: nat, c: Carry, cell: nat)
    requires 1 <= i <= |a| && 1 <= start <= j <= end <= |b|
    requires AdaptiveState(a, b, k, i, start, end, j, c)
    requires Admissible(Levenshtein, a, b, k, i, j, cell)
    ensures AdaptiveState(a, b, k, i, start, end, j + 1, AdaptiveAdvance(c, j, cell))
  {
  }

  /** The band end for the next row: one column right of the last passing column
      at or left of `end`, but not past column m. */
  function NarrowedEnd(buffer: seq<nat>, i: nat, delta: nat, k: nat, end: nat): (e: nat)
    requires end < |buffer|
    ensures e <= |buffer| - 1 && e <= end + 1
  {
    Min(|buffer| - 1, ShrinkEnd(buffer, i, delta, k, end) + 1)
  }

  /** For an admissible value the narrowing test passes exactly at good cells, and
      a passing value is the cell itself. */
  lemma WithinGood<T>(a: seq<T>, b: seq<T>, k: nat, i: nat, p: nat, buffer: seq<nat>)
    requires i <= |a| <= |b| && p <= |b| && p < |buffer|
    requires Admissible(Levenshtein, a, b, k, i, p, buffer[p])
    ensures Within(buffer, i, |b| - |a|, k, p) <==> Good(Levenshtein, a, b, k, i, p)
    ensures Within(buffer, i, |b| - |a|, k, p) ==> buffer[p] == Dist(Levenshtein, a, b, i, p)
  {
  }

  /** A row without a good cell on the final diagonal has no passing cell at all:
      the narrowed band is empty, and the distance exceeds K. */
  lemma NarrowEmpty<T>(a: seq<T>, b: seq<T>, k: nat, i: nat, start: nat, end: nat, buffer: seq<nat>)
    requires 1 <= i <= |a| <= |b| && 1 <= start <= i + |b| - |a| <= end <= |b| && |buffer| == |b| + 1
    requires forall p :: start <= p <= end ==> Admissible(Levenshtein, a, b, k, i, p, buffer[p])
    requires !Good(Levenshtein, a, b, k, i, i + |b| - |a|)
    ensures var delta := |b| - |a|;
            var e := NarrowedEnd(buffer, i, delta, k, end);
            e < AdvanceStart(buffer, i, delta, k, start, e)
    ensures Distance(Levenshtein, a, b) > k
  {
    var delta := |b| - |a|;
    forall p | start <= p <= end
      ensures !Within(buffer, i, delta, k, p)
    {
      WithinGood(a, b, k, i, p, buffer);
      if Good(Levenshtein, a, b, k, i, p) {
        GoodTowardDiagonal(Levenshtein, a, b, k, i, p);
      }
    }
    var stop := ShrinkEnd(buffer, i, delta, k, end);
    assert stop < start;
    var e := NarrowedEnd(buffer, i, delta, k, end);
    if start <= e {
      assert !Within(buffer, i, delta, k, start);
      assert AdvanceStart(buffer, i, delta, k, start, e) == AdvanceStart(buffer, i, delta, k, start + 1, e);
    }
    if Distance(Levenshtein, a, b) <= k {
      DiagonalWitness(Levenshtein, a, b, k, i);
    }
  }

  /** A row with a good cell on the final diagonal passes there, so the end loop
      stops at or right of that column, on a good cell, and every cell it walked
      past is not good. */
  lemma NarrowStop<T>(a: seq<T>, b: seq<T>, k: nat, i: nat, end: nat, buffer: seq<nat>)
    requires 1 <= i <= |a| <= |b| && i + |b| - |a| <= end <= |b| && |buffer| == |b| + 1
    requires forall p :: i + |b| - |a| <= p <= end ==> Admissible(Levenshtein, a, b, k, i, p, buffer[p])
    requires Good(Levenshtein, a, b, k, i, i + |b| - |a|)
    ensures var stop := ShrinkEnd(buffer, i, |b| - |a|, k, end);
            && i + |b| - |a| <= stop
            && Good(Levenshtein, a, b, k, i, stop)
            && (forall p :: stop < p <= end ==> !Good(Levenshtein, a, b, k, i, p))
  {
    var delta := |b| - |a|;
    WithinGood(a, b, k, i, i + delta, buffer);
    var stop := ShrinkEnd(buffer, i, delta, k, end);
    WithinGood(a, b, k, i, stop, buffer);
    forall p | stop < p <= end
      ensures !Good(Levenshtein, a, b, k, i, p)
    {
      WithinGood(a, b, k, i, p, buffer);
    }
  }

  /** The end never moves left while the row keeps a good cell: row i-1 was good
      at end-1 (or at m), so row i is good there too, or the band already ends on
      the final diagonal. */
  lemma NarrowEndKeeps<T>(a: seq<T>, b: seq<T>, k: nat, i: nat, end: nat, stop: nat)
    requires 1 <= i <= |a| <= |b| && i + |b| - |a| <= stop <= end <= |b|
    requires Outlook(a, b, k, i, end)
    requires forall p :: stop < p <= end ==> !Good(Levenshtein, a, b, k, i, p)
    ensures end <= Min(|b|, stop + 1)
  {
    if Good(Levenshtein, a, b, k, i - 1, end - 1) {
      if end - 1 >= i + |b| - |a| {
        GoodBelow(Levenshtein, a, b, k, i, end - 1);
      }
    } else {
      GoodBelow(Levenshtein, a, b, k, i, |b|);
    }
  }

  /** The start loop stops at the latest on the final diagonal, which passes. */
  lemma NarrowStart<T>(a: seq<T>, b: seq<T>, k: nat, i: nat, start: nat, end: nat, buffer: seq<nat>)
    requires 1 <= i <= |a| <= |b| && start <= i + |b| - |a| <= end < |buffer|
    requires i + |b| - |a| <= |b|
    requires Admissible(Levenshtein, a, b, k, i, i + |b| - |a|, buffer[i + |b| - |a|])
    requires Good(Levenshtein, a, b, k, i, i + |b| - |a|)
    ensures start <= AdvanceStart(buffer, i, |b| - |a|, k, start, end) <= i + |b| - |a|
  {
    WithinGood(a, b, k, i, i + |b| - |a|, buffer);
  }

  /** The matrix facts row i+1 inherits: cells right of the new end are not good,
      because their diagonal predecessors in row i lie past the stop or past the
      old end; and the stop itself is a good cell of row i. */
  lemma NextOutlook<T>(a: seq<T>, b: seq<T>, k: nat, i: nat, end: nat, stop: nat)
    requires 1 <= i < |a| <= |b| && i + |b| - |a| <= stop <= end <= |b|
    requires Outlook(a, b, k, i, end)
    requires Good(Levenshtein, a, b, k, i, stop)
    requires forall p :: stop < p <= end ==> !Good(Levenshtein, a, b, k, i, p)
    ensures Outlook(a, b, k, i + 1, Min(|b|, stop + 1))
  {
    var e', below := Min(|b|, stop + 1), i + 1;
    forall q | e' < q <= |b|
      ensures !Good(Levenshtein, a, b, k, below, q)
    {
      if Good(Levenshtein, a, b, k, below, q) {
        GoodDiagonalPredecessor(Levenshtein, a, b, k, below, q);
        assert false;
      }
    }
  }

  /** The buffer row i+1 starts from: the cells the start loop walked past now
      fail for row i, the band is row i's (plus, when the end moved right, one
      initial buffer value for a cell that is not good), and right of the band
      nothing was written. */
  lemma NextBuffer<T>(a: seq<T>, b: seq<T>, k: nat, i: nat, start: nat, end: nat, buffer: seq<nat>,
                      delta: nat, start': nat, end': nat)
    requires delta == |b| - |a|
    requires 1 <= i < |a| <= |b| && 1 <= start <= start' <= i + delta < end' <= |b|
    requires end <= end' <= end + 1
    requires AdaptiveDone(a, b, k, i, start, end, buffer)
    requires forall p :: end < p <= |b| ==> !Good(Levenshtein, a, b, k, i, p)
    requires forall p :: start <= p < start' ==> !Within(buffer, i, delta, k, p)
    ensures Admissible(Levenshtein, a, b, k, i, start' - 1, buffer[start' - 1])
    ensures forall p :: 1 <= p < start' ==> Failing(Levenshtein, a, b, k, i, p, buffer[p])
    ensures forall p :: start' <= p <= end' ==> Admissible(Levenshtein, a, b, k, i, p, buffer[p])
    ensures forall p :: end' < p <= |b| ==> buffer[p] == p
  {
    forall p | start <= p < start'
      ensures Failing(Levenshtein, a, b, k, i, p, buffer[p])
    {
      WithinGood(a, b, k, i, p, buffer);
    }
    if end < end' {
      AtMostLonger(Levenshtein, a, b, i, end');
    }
  }

  /** A row with a good cell on the final diagonal keeps a non-empty band, and
      before the last row the next row is ready. */
  lemma NarrowKept<T>(a: seq<T>, b: seq<T>, k: nat, i: nat, start: nat, end: nat, buffer: seq<nat>,
                      start': nat, end': nat)
    requires 1 <= i < |a| <= |b| && 1 <= start <= i + |b| - |a| <= end <= |b|
    requires AdaptiveDone(a, b, k, i, start, end, buffer) && Outlook(a, b, k, i, end)
    requires Good(Levenshtein, a, b, k, i, i + |b| - |a|)
    requires end' == NarrowedEnd(buffer, i, |b| - |a|, k, end)
    requires start' == AdvanceStart(buffer, i, |b| - |a|, k, start, end')
    ensures start' <= end' && AdaptiveReady(a, b, k, i + 1, start', end', buffer)
  {
    var delta := |b| - |a|;
    var stop := ShrinkEnd(buffer, i, delta, k, end);
    NarrowStop(a, b, k, i, end, buffer);
    NarrowEndKeeps(a, b, k, i, end, stop);
    NarrowStart(a, b, k, i, start, end', buffer);
    NextOutlook(a, b, k, i, end, stop);
    NextBuffer(a, b, k, i, start, end, buffer, delta, start', end');
  }

  /** After the last row, a good final cell keeps the band non-empty; the band
      ends at column m, whose cell is the distance. */
  lemma NarrowLast<T>(a: seq<T>, b: seq<T>, k: nat, start: nat, end: nat, buffer: seq<nat>)
    requires 1 <= |a| <= |b| && 1 <= start <= |b| <= end <= |b|
    requires AdaptiveDone(a, b, k, |a|, start, end, buffer)
    requires Good(Levenshtein, a, b, k, |a|, |b|)
    ensures var delta := |b| - |a|;
            var end' := NarrowedEnd(buffer, |a|, delta, k, end);
            AdvanceStart(buffer, |a|, delta, k, start, end') <= end'
    ensures buffer[end] == Distance(Levenshtein, a, b) <= k
  {
    var delta, m := |b| - |a|, |b|;
    NarrowStop(a, b, k, |a|, end, buffer);
    NarrowStart(a, b, k, |a|, start, NarrowedEnd(buffer, |a|, delta, k, end), buffer);
    assert Admissible(Levenshtein, a, b, k, |a|, m, buffer[m]);
    FinalCell(Levenshtein, a, b, k, buffer[m]);
  }
}
