/** The loop state of `postgres`, the library's port of PostgreSQL's
    `levenshtein_less_equal`, and the facts that carry it from cell to cell and
    from row to row.

    The matrix has a row per character of the shorter string `a` and a column per
    character of the longer string `b`.  Two buffers of m + 1 cells hold rows i-1
    and i and change roles after every row.  The live columns of a row run from
    `start` up to `stop - 1`; column 0 is live until the start column first moves.
    Before a row the stop column grows by one over the sentinel K + 1; after it
    the stop column slides left, and the start column slides right, past every
    column whose value plus its distance to the final diagonal exceeds K.  Every
    column the start passes is set to K + 1 in both buffers. */
module PostgresLoop {
  import opened EditDistance
  import opened Band
  import opened AdaptiveLoop

  /** The stop-column loop: move the exclusive stop left past every failing column. */
  function SlideStop(row: seq<nat>, i: nat, delta: nat, k: nat, stop: nat): (t: nat)
    requires stop <= |row|
    ensures t <= stop
    ensures t > 0 ==> Within(row, i, delta, k, t - 1)
  {
    if stop > 0 && !Within(row, i, delta, k, stop - 1) then SlideStop(row, i, delta, k, stop - 1) else stop
  }

  /** Every column the stop slid over fails the test. */
  lemma {:induction false} SlideStopPast(row: seq<nat>, i: nat, delta: nat, k: nat, stop: nat, p: nat)
    requires stop <= |row| && SlideStop(row, i, delta, k, stop) <= p < stop
    ensures !Within(row, i, delta, k, p)
    decreases stop
  {
    if p < stop - 1 {
      SlideStopPast(row, i, delta, k, stop - 1, p);
    }
  }

  /** The start-column loop: move the start right past every failing column, but
      not onto the stop. */
  function SlideStart(row: seq<nat>, i: nat, delta: nat, k: nat, start: nat, stop: nat): (s: nat)
    requires stop <= |row|
    ensures start <= s && (start <= stop ==> s <= stop) && (stop < start ==> s == start)
    ensures s < stop ==> Within(row, i, delta, k, s)
    decreases stop - start
  {
    if start < stop && !Within(row, i, delta, k, start) then SlideStart(row, i, delta, k, start + 1, stop) else start
  }

  /** Every column the start slid over fails the test. */
  lemma {:induction false} SlideStartPast(row: seq<nat>, i: nat, delta: nat, k: nat, start: nat, stop: nat, p: nat)
    requires stop <= |row| && start <= p < SlideStart(row, i, delta, k, start, stop)
    ensures p < stop && !Within(row, i, delta, k, p)
    decreases stop - start
  {
    if start < p {
      SlideStartPast(row, i, delta, k, start + 1, stop, p);
    }
  }

  /** A buffer with the columns from `from` up to `to - 1` set to `v`. */
  function Stamp(row: seq<nat>, from: nat, to: nat, v: nat): (r: seq<nat>)
    ensures |r| == |row|
  {
    seq(|row|, p requires 0 <= p < |row| => if from <= p < to then v else row[p])
  }

  /** The stamped columns hold `v`, the others are unchanged. */
  lemma StampAt(row: seq<nat>, from: nat, to: nat, v: nat, p: nat)
    requires p < |row|
    ensures Stamp(row, from, to, v)[p] == if from <= p < to then v else row[p]
  {
  }

  /** Stamping one more column is one more update. */
  lemma StampGrow(row: seq<nat>, from: nat, to: nat, v: nat)
    requires from <= to < |row|
    ensures Stamp(row, from, to + 1, v) == Stamp(row, from, to, v)[to := v]
  {
  }

  /** What row i needs when it starts, before its stop column grows: row i-1
      admissible on the live columns; left of them the sentinel K + 1 in both
      buffers, over a cell that is good in neither row i-1 nor row i; no good cell
      of row i-1 at the stop column, where the sentinel will go; the final
      diagonal among the columns row i will compute; nothing good in row i right
      of them. */
  ghost predicate Ready<T>(a: seq<T>, b: seq<T>, k: nat, i: nat, start: nat, stop: nat,
                           prev: seq<nat>, curr: seq<nat>)
    requires 1 <= i <= |a| <= |b|
  {
    && |prev| == |b| + 1 && |curr| == |b| + 1
    && start <= i + |b| - |a| <= stop <= |b| + 1 && start < stop
    && (forall p :: start <= p < stop ==> Admissible(Levenshtein, a, b, k, i - 1, p, prev[p]))
    && (start > 0 ==> && prev[start - 1] == k + 1 && curr[start - 1] == k + 1
                      && !Good(Levenshtein, a, b, k, i - 1, start - 1)
                      && !Good(Levenshtein, a, b, k, i, start - 1))
    && (stop <= |b| ==> !Good(Levenshtein, a, b, k, i - 1, stop))
    && Outlook(a, b, k, i, Min(|b|, stop))
  }

  /** The state while cell (i, j) is computed, columns `first` to `stop - 1` being
      the ones the row computes: row i-1 admissible on them and one column left of
      them, row i admissible from that column up to j-1. */
  ghost predicate Filling<T>(a: seq<T>, b: seq<T>, k: nat, i: nat, first: nat, stop: nat, j: nat,
                             prev: seq<nat>, curr: seq<nat>)
    requires 1 <= i <= |a| && 1 <= first <= j <= stop <= |b| + 1
  {
    && |prev| == |b| + 1 && |curr| == |b| + 1
    && (forall p :: first - 1 <= p < stop ==> Admissible(Levenshtein, a, b, k, i - 1, p, prev[p]))
    && (forall p :: first - 1 <= p < j ==> Admissible(Levenshtein, a, b, k, i, p, curr[p]))
  }

  /** What row i leaves for the narrowing, `stop` having grown: row i admissible on
      its live columns, the final diagonal among them, the sentinel left of them
      in both buffers over a cell that is not good, nothing good right of them. */
  ghost predicate Filled<T>(a: seq<T>, b: seq<T>, k: nat, i: nat, start: nat, stop: nat,
                            prev: seq<nat>, row: seq<nat>)
    requires 1 <= i <= |a| <= |b|
  {
    && start <= i + |b| - |a| < stop <= |b| + 1
    && Filling(a, b, k, i, Max(start, 1), stop, stop, prev, row)
    && (start > 0 ==> prev[start - 1] == k + 1 && row[start - 1] == k + 1
                      && !Good(Levenshtein, a, b, k, i, start - 1))
    && Outlook(a, b, k, i, stop - 1)
  }

  /** Row 0 holds 0, 1, ... up to the first stop column min(m + 1, h + 1), with
      h = (K + m - n) / 2; past h no cell of row 0 is good, so row 1 is ready with
      every column from 0 live. */
  lemma FirstReady<T>(a: seq<T>, b: seq<T>, k: nat, stop: nat, prev: seq<nat>, curr: seq<nat>)
    requires 1 <= |a| <= |b| && |b| - |a| <= k
    requires stop == Min(|b| + 1, (k + |b| - |a|) / 2 + 1)
    requires |prev| == |b| + 1 && |curr| == |b| + 1
    requires forall p :: 0 <= p < stop ==> prev[p] == p
    ensures Ready(a, b, k, 1, 0, stop, prev, curr)
  {
    forall p | 0 <= p < stop
      ensures Admissible(Levenshtein, a, b, k, 0, p, prev[p])
    {
      Border(Levenshtein, a, b, 0, p);
    }
    if stop <= |b| {
      TopRowBeyond(Levenshtein, a, b, k, stop);
    }
    AdaptiveFirstReady(a, b, k);
  }

  /** Growing the stop column over the sentinel, and writing i into column 0 while
      it is live, give the state before the first cell of row i. */
  lemma Enter<T>(a: seq<T>, b: seq<T>, k: nat, i: nat, start: nat, stop: nat, prev: seq<nat>, curr: seq<nat>,
                 stop': nat, prev': seq<nat>, row: seq<nat>)
    requires 1 <= i <= |a| <= |b|
    requires Ready(a, b, k, i, start, stop, prev, curr) == true
    requires stop' == (if stop <= |b| then stop + 1 else stop)
    requires prev' == (if stop <= |b| then prev[stop := k + 1] else prev)
    requires row == (if start == 0 then curr[0 := i] else curr)
    ensures Max(start, 1) <= stop' <= |b| + 1
    ensures Filling(a, b, k, i, Max(start, 1), stop', Max(start, 1), prev', row)
  {
    if start == 0 {
      Border(Levenshtein, a, b, i, 0);
    }
  }

  /** The cell the row computes at column j, from the cell above, the cell to
      its left and the one diagonally above, is admissible too. */
  lemma FillStep<T>(a: seq<T>, b: seq<T>, k: nat, i: nat, first: nat, stop: nat, j: nat,
                    prev: seq<nat>, row: seq<nat>, cell: nat)
    requires 1 <= i <= |a| && 1 <= first <= j < stop <= |b| + 1
    requires Filling(a, b, k, i, first, stop, j, prev, row) == true
    requires cell == Min(Min(prev[j] + 1, row[j - 1] + 1), prev[j - 1] + Cost(a, b, i, j))
    ensures Filling(a, b, k, i, first, stop, j + 1, prev, row[j := cell]) == true
  {
    StepAdmissible(Levenshtein, a, b, k, i, j, prev[j], row[j - 1], prev[j - 1], 0);
  }

  /** After the last cell of row i, the row is ready for the narrowing. */
  lemma Leave<T>(a: seq<T>, b: seq<T>, k: nat, i: nat, start: nat, stop: nat, prev: seq<nat>, curr: seq<nat>,
                 stop': nat, prev': seq<nat>, row: seq<nat>)
    requires 1 <= i <= |a| <= |b|
    requires Ready(a, b, k, i, start, stop, prev, curr) == true
    requires stop' == (if stop <= |b| then stop + 1 else stop)
    requires prev' == (if stop <= |b| then prev[stop := k + 1] else prev)
    requires Max(start, 1) <= stop'
    requires Filling(a, b, k, i, Max(start, 1), stop', stop', prev', row) == true
    requires start > 0 ==> row[start - 1] == curr[start - 1]
    ensures Filled(a, b, k, i, start, stop', prev', row)
  {
  }

  /** A row without a good cell on the final diagonal has no passing live column:
      the start and stop columns cross, and the distance exceeds K. */
  lemma Drops<T>(a: seq<T>, b: seq<T>, k: nat, i: nat, start: nat, stop: nat, prev: seq<nat>, row: seq<nat>)
    requires 1 <= i <= |a| <= |b|
    requires Filled(a, b, k, i, start, stop, prev, row) == true
    requires !Good(Levenshtein, a, b, k, i, i + |b| - |a|)
    ensures var delta := |b| - |a|;
            var t := SlideStop(row, i, delta, k, stop);
            SlideStart(row, i, delta, k, start, t) >= t
    ensures Distance(Levenshtein, a, b) > k
  {
    var delta := |b| - |a|;
    forall p | start <= p < stop
      ensures !Within(row, i, delta, k, p)
    {
      WithinGood(a, b, k, i, p, row);
      if Good(Levenshtein, a, b, k, i, p) {
        GoodTowardDiagonal(Levenshtein, a, b, k, i, p);
      }
    }
    var t := SlideStop(row, i, delta, k, stop);
    assert t <= start;
    if Distance(Levenshtein, a, b) <= k {
      DiagonalWitness(Levenshtein, a, b, k, i);
    }
  }

  /** The facts of `Filled` the narrowing lemmas work from. */
  lemma FilledFacts<T>(a: seq<T>, b: seq<T>, k: nat, i: nat, start: nat, stop: nat, prev: seq<nat>, row: seq<nat>)
    requires 1 <= i <= |a| <= |b|
    requires Filled(a, b, k, i, start, stop, prev, row) == true
    ensures |row| == |b| + 1 && |prev| == |b| + 1 && start <= i + |b| - |a| < stop <= |b| + 1
    ensures forall p :: Max(start, 1) - 1 <= p < stop ==> Admissible(Levenshtein, a, b, k, i, p, row[p])
    ensures Outlook(a, b, k, i, stop - 1)
    ensures start > 0 ==> prev[start - 1] == k + 1 && row[start - 1] == k + 1 && !Good(Levenshtein, a, b, k, i, start - 1)
  {
  }

  /** The narrowing keeps the final diagonal: it passes, so the stop stays right of
      it, just past a good cell; the stop column itself is not good in row i, and
      nothing right of the new stop is good in row i+1. */
  lemma PassesStop<T>(a: seq<T>, b: seq<T>, k: nat, i: nat, start: nat, stop: nat, prev: seq<nat>, row: seq<nat>)
    requires 1 <= i <= |a| <= |b|
    requires |row| == |b| + 1 && |prev| == |b| + 1 && start <= i + |b| - |a| < stop <= |b| + 1
    requires forall p :: Max(start, 1) - 1 <= p < stop ==> Admissible(Levenshtein, a, b, k, i, p, row[p])
    requires Outlook(a, b, k, i, stop - 1)
    requires Good(Levenshtein, a, b, k, i, i + |b| - |a|)
    ensures var t := SlideStop(row, i, |b| - |a|, k, stop);
            && i + |b| - |a| < t
            && (t <= |b| ==> !Good(Levenshtein, a, b, k, i, t))
            && (i < |a| ==> Outlook(a, b, k, i + 1, Min(|b|, t)))
  {
    var delta := |b| - |a|;
    var t := SlideStop(row, i, delta, k, stop);
    StopRightOfDiagonal(a, b, k, i, stop, row);
    StopPastNotGood(a, b, k, i, start, stop, row, t);
    if i < |a| {
      NextOutlook(a, b, k, i, stop - 1, t - 1);
    }
  }

  /** The final diagonal passes, so the stop does not slide over it. */
  lemma StopRightOfDiagonal<T>(a: seq<T>, b: seq<T>, k: nat, i: nat, stop: nat, row: seq<nat>)
    requires 1 <= i <= |a| <= |b| && |row| == |b| + 1 && i + |b| - |a| < stop <= |b| + 1
    requires Admissible(Levenshtein, a, b, k, i, i + |b| - |a|, row[i + |b| - |a|])
    requires Good(Levenshtein, a, b, k, i, i + |b| - |a|)
    ensures i + |b| - |a| < SlideStop(row, i, |b| - |a|, k, stop)
  {
    var delta := |b| - |a|;
    WithinGood(a, b, k, i, i + delta, row);
    if SlideStop(row, i, delta, k, stop) <= i + delta {
      SlideStopPast(row, i, delta, k, stop, i + delta);
    }
  }

  /** The column before the stop passes, so is good, and every column the stop
      slid over failed, so is not good in row i. */
  lemma StopPastNotGood<T>(a: seq<T>, b: seq<T>, k: nat, i: nat, start: nat, stop: nat, row: seq<nat>, t: nat)
    requires 1 <= i <= |a| <= |b| && |row| == |b| + 1 && start <= i + |b| - |a| < stop <= |b| + 1
    requires forall p :: Max(start, 1) - 1 <= p < stop ==> Admissible(Levenshtein, a, b, k, i, p, row[p])
    requires t == SlideStop(row, i, |b| - |a|, k, stop) && i + |b| - |a| < t
    ensures Good(Levenshtein, a, b, k, i, t - 1)
    ensures forall p :: t - 1 < p <= stop - 1 ==> !Good(Levenshtein, a, b, k, i, p)
  {
    var delta := |b| - |a|;
    WithinGood(a, b, k, i, t - 1, row);
    forall p | t - 1 < p <= stop - 1
      ensures !Good(Levenshtein, a, b, k, i, p)
    {
      SlideStopPast(row, i, delta, k, stop, p);
      WithinGood(a, b, k, i, p, row);
    }
  }

  /** The start stops at the latest on the final diagonal, which passes and holds
      its exact value. */
  lemma PassesStart<T>(a: seq<T>, b: seq<T>, k: nat, i: nat, start: nat, stop: nat, prev: seq<nat>,
                       row: seq<nat>, t: nat)
    requires 1 <= i <= |a| <= |b|
    requires |row| == |b| + 1 && |prev| == |b| + 1 && start <= i + |b| - |a| < stop <= |b| + 1
    requires forall p :: Max(start, 1) - 1 <= p < stop ==> Admissible(Levenshtein, a, b, k, i, p, row[p])
    requires Good(Levenshtein, a, b, k, i, i + |b| - |a|)
    requires i + |b| - |a| < t <= stop
    ensures SlideStart(row, i, |b| - |a|, k, start, t) <= i + |b| - |a|
    ensures row[i + |b| - |a|] == Dist(Levenshtein, a, b, i, i + |b| - |a|)
  {
    var delta := |b| - |a|;
    WithinGood(a, b, k, i, i + delta, row);
    if SlideStart(row, i, delta, k, start, t) > i + delta {
      SlideStartPast(row, i, delta, k, start, t, i + delta);
    }
  }

  /** The left edge of row i+1: the start stops at the latest on the final
      diagonal; a column it passed failed in row i, or the old left edge was not
      good there; either way it is not good in row i+1, and holds K + 1 in both
      buffers. */
  lemma NextLeftEdge<T>(a: seq<T>, b: seq<T>, k: nat, i: nat, start: nat, stop: nat, prev: seq<nat>,
                        row: seq<nat>, t: nat)
    requires 1 <= i < |a| <= |b|
    requires |row| == |b| + 1 && |prev| == |b| + 1 && start <= i + |b| - |a| < stop <= |b| + 1
    requires forall p :: Max(start, 1) - 1 <= p < stop ==> Admissible(Levenshtein, a, b, k, i, p, row[p])
    requires start > 0 ==> prev[start - 1] == k + 1 && row[start - 1] == k + 1 && !Good(Levenshtein, a, b, k, i, start - 1)
    requires Good(Levenshtein, a, b, k, i, i + |b| - |a|)
    requires i + |b| - |a| < t <= stop
    ensures var s := SlideStart(row, i, |b| - |a|, k, start, t);
            && s <= i + |b| - |a|
            && (s > 0 ==> !Good(Levenshtein, a, b, k, i, s - 1) && !Good(Levenshtein, a, b, k, i + 1, s - 1))
            && (s > 0 ==> Stamp(row, start, s, k + 1)[s - 1] == k + 1 && Stamp(prev, start, s, k + 1)[s - 1] == k + 1)
  {
    var s := SlideStart(row, i, |b| - |a|, k, start, t);
    PassesStart(a, b, k, i, start, stop, prev, row, t);
    if s > 0 {
      LeftEdgeStamp(row, prev, start, s, k + 1);
      LeftEdgeNotGood(a, b, k, i, start, t, row, s);
    }
  }

  /** The column left of the new start holds the stamp, or, when the start did
      not move, the sentinel it held already. */
  lemma LeftEdgeStamp(row: seq<nat>, prev: seq<nat>, start: nat, s: nat, v: nat)
    requires start <= s && 0 < s <= |row| == |prev|
    requires s == start ==> row[s - 1] == v && prev[s - 1] == v
    ensures Stamp(row, start, s, v)[s - 1] == v && Stamp(prev, start, s, v)[s - 1] == v
  {
    StampAt(row, start, s, v, s - 1);
    StampAt(prev, start, s, v, s - 1);
  }

  /** The column left of the new start, left of the final diagonal, is good in
      neither row i nor row i+1: the start passed it because it failed, or it was
      the old left edge. */
  lemma LeftEdgeNotGood<T>(a: seq<T>, b: seq<T>, k: nat, i: nat, start: nat, t: nat, row: seq<nat>, s: nat)
    requires 1 <= i < |a| <= |b| && |row| == |b| + 1 && t <= |b| + 1
    requires 0 < s <= i + |b| - |a| && s == SlideStart(row, i, |b| - |a|, k, start, t)
    requires s > start ==> Admissible(Levenshtein, a, b, k, i, s - 1, row[s - 1])
    requires s == start ==> !Good(Levenshtein, a, b, k, i, s - 1)
    ensures !Good(Levenshtein, a, b, k, i, s - 1) && !Good(Levenshtein, a, b, k, i + 1, s - 1)
  {
    if s > start {
      SlideStartPast(row, i, |b| - |a|, k, start, t, s - 1);
      WithinGood(a, b, k, i, s - 1, row);
    }
    FailingBelow(Levenshtein, a, b, k, i + 1, s - 1, k + 1);
  }

  /** Row i, with the columns the start passed set to K + 1, is admissible on the
      live columns of row i+1, which lie right of those. */
  lemma NextOperands<T>(a: seq<T>, b: seq<T>, k: nat, i: nat, start: nat, stop: nat, prev: seq<nat>,
                        row: seq<nat>, s: nat, t: nat, row': seq<nat>)
    requires 1 <= i <= |a| <= |b|
    requires Filled(a, b, k, i, start, stop, prev, row) == true
    requires start <= s && t <= stop && row' == Stamp(row, start, s, k + 1)
    ensures forall p :: s <= p < t ==> Admissible(Levenshtein, a, b, k, i, p, row'[p])
  {
    forall p | s <= p < t
      ensures Admissible(Levenshtein, a, b, k, i, p, row'[p])
    {
      StampAt(row, start, s, k + 1, p);
    }
  }

  /** The parts of `Ready` for row i+1, put together. */
  lemma NextReady<T>(a: seq<T>, b: seq<T>, k: nat, i: nat, s: nat, t: nat, prev: seq<nat>, curr: seq<nat>)
    requires 1 <= i < |a| <= |b|
    requires |prev| == |b| + 1 && |curr| == |b| + 1
    requires s <= i + 1 + |b| - |a| <= t <= |b| + 1 && s < t
    requires forall p :: s <= p < t ==> Admissible(Levenshtein, a, b, k, i, p, prev[p])
    requires s > 0 ==> && prev[s - 1] == k + 1 && curr[s - 1] == k + 1
                       && !Good(Levenshtein, a, b, k, i, s - 1) && !Good(Levenshtein, a, b, k, i + 1, s - 1)
    requires t <= |b| ==> !Good(Levenshtein, a, b, k, i, t)
    requires Outlook(a, b, k, i + 1, Min(|b|, t))
    ensures Ready(a, b, k, i + 1, s, t, prev, curr) == true
  {
  }

  /** A row with a good cell on the final diagonal leaves the next row ready, the
      columns the start passed set to K + 1 in both buffers. */
  lemma HoldsNext<T>(a: seq<T>, b: seq<T>, k: nat, i: nat, start: nat, stop: nat, prev: seq<nat>, row: seq<nat>,
                     t: nat, s: nat, prev': seq<nat>, curr': seq<nat>)
    requires 1 <= i < |a| <= |b|
    requires Filled(a, b, k, i, start, stop, prev, row) == true
    requires Good(Levenshtein, a, b, k, i, i + |b| - |a|)
    requires t == SlideStop(row, i, |b| - |a|, k, stop) && s == SlideStart(row, i, |b| - |a|, k, start, t)
    requires prev' == Stamp(row, start, s, k + 1) && curr' == Stamp(prev, start, s, k + 1)
    ensures s < t
    ensures Ready(a, b, k, i + 1, s, t, prev', curr') == true
  {
    FilledFacts(a, b, k, i, start, stop, prev, row);
    PassesStop(a, b, k, i, start, stop, prev, row);
    NextLeftEdge(a, b, k, i, start, stop, prev, row, t);
    NextOperands(a, b, k, i, start, stop, prev, row, s, t, prev');
    NextReady(a, b, k, i, s, t, prev', curr');
  }

  /** After the last row the final cell is good: the band stays open and the final
      cell, which the start never passes, holds the distance. */
  lemma HoldsLast<T>(a: seq<T>, b: seq<T>, k: nat, start: nat, stop: nat, prev: seq<nat>, row: seq<nat>)
    requires 1 <= |a| <= |b|
    requires Filled(a, b, k, |a|, start, stop, prev, row) == true
    requires Good(Levenshtein, a, b, k, |a|, |b|)
    ensures var delta := |b| - |a|;
            var t := SlideStop(row, |a|, delta, k, stop);
            var s := SlideStart(row, |a|, delta, k, start, t);
            && s < t
            && Stamp(row, start, s, k + 1)[|b|] == Distance(Levenshtein, a, b) <= k
  {
    var t := SlideStop(row, |a|, |b| - |a|, k, stop);
    FilledFacts(a, b, k, |a|, start, stop, prev, row);
    PassesStop(a, b, k, |a|, start, stop, prev, row);
    PassesStart(a, b, k, |a|, start, stop, prev, row, t);
    StampAt(row, start, SlideStart(row, |a|, |b| - |a|, k, start, t), k + 1, |b|);
  }

  /** What the narrowing after row i shows: crossing columns mean the distance
      exceeds K; otherwise row i + 1 is ready, or, after the last row, the last
      column holds the distance. */
  lemma Narrowed<T>(a: seq<T>, b: seq<T>, k: nat, i: nat, start: nat, stop: nat, prev: seq<nat>, row: seq<nat>,
                    t: nat, s: nat, prev': seq<nat>, curr': seq<nat>)
    requires 1 <= i <= |a| <= |b|
    requires Filled(a, b, k, i, start, stop, prev, row) == true
    requires t == SlideStop(row, i, |b| - |a|, k, stop) && s == SlideStart(row, i, |b| - |a|, k, start, t)
    requires prev' == Stamp(row, start, s, k + 1) && curr' == Stamp(prev, start, s, k + 1)
    ensures s >= t ==> Distance(Levenshtein, a, b) > k
    ensures s < t && i < |a| ==> Ready(a, b, k, i + 1, s, t, prev', curr') == true
    ensures s < t && i == |a| ==> prev'[|b|] == Distance(Levenshtein, a, b) <= k
  {
    if !Good(Levenshtein, a, b, k, i, i + |b| - |a|) {
      Drops(a, b, k, i, start, stop, prev, row);
    } else if i < |a| {
      HoldsNext(a, b, k, i, start, stop, prev, row, t, s, prev', curr');
    } else {
      HoldsLast(a, b, k, start, stop, prev, row);
    }
  }
}
