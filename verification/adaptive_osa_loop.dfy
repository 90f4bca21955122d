/** The loop state of the adaptive-band single-row OSA computation of
    `bounded_edit_dist_t` and `min_edit_dist_t`, with the transposition operand
    of row i read from a copy of the buffer taken when row i-1 began.

    The narrowing tests of these variants allow one unit of slack: a column stays
    in the band while its value plus its distance to the final diagonal is at
    most K + 1.  A value is therefore `Sound` in two senses at once: admissible
    for K (exact wherever the cell is good for K), and never below its cell
    unless it is out of reach of K + 1.  Next to these facts about the matrix the
    state keeps a few facts about the values alone (neighbours along a computed
    row differ by at most one, a value is at most one more than the value it
    overwrites, and right of the final diagonal a value is at most its column),
    which show that the band end never moves left and that the band keeps the
    final diagonal. */
module AdaptiveOsaLoop {
  import opened EditDistance
  import opened Band
  import opened AdaptiveLoop

  /** `v` is never below cell (i, j) unless that cell is out of reach of K + 1. */
  ghost predicate Above<T>(a: seq<T>, b: seq<T>, k: nat, i: nat, j: nat, v: int)
    requires i <= |a| && j <= |b|
  {
    v >= Dist(Osa, a, b, i, j) || v + Gap(|a|, |b|, i, j) > k + 1
  }

  /** Admissible for K and above the cell for K + 1. */
  ghost predicate Sound<T>(a: seq<T>, b: seq<T>, k: nat, i: nat, j: nat, v: int)
    requires i <= |a| && j <= |b|
  {
    Admissible(Osa, a, b, k, i, j, v) && Above(a, b, k, i, j, v)
  }

  /** A value the start loop walked past: it fails the test with slack, and the
      cell is not good for K. */
  ghost predicate Dropped<T>(a: seq<T>, b: seq<T>, k: nat, i: nat, j: nat, v: int)
    requires i <= |a| && j <= |b|
  {
    v + Gap(|a|, |b|, i, j) > k + 1 && !Good(Osa, a, b, k, i, j)
  }

  /** The cell expression is bounded by each operand it offers, and equals one. */
  lemma StepBounds(swapped: bool, cost: nat, up: nat, left: nat, diag: nat, back: nat)
    ensures var v := Step(Osa, swapped, cost, up, left, diag, back);
            && v <= up + 1 && v <= left + 1 && v <= diag + cost
            && (swapped ==> v <= back + cost)
            && (v == up + 1 || v == left + 1 || v == diag + cost || (swapped && v == back + cost))
  {
  }

  /** The step of the recurrence over sound neighbours is sound. */
  lemma StepSound<T>(a: seq<T>, b: seq<T>, k: nat, i: nat, j: nat, up: nat, left: nat, diag: nat, back: nat)
    requires 1 <= i <= |a| && 1 <= j <= |b|
    requires Sound(a, b, k, i - 1, j, up)
    requires Sound(a, b, k, i, j - 1, left)
    requires Sound(a, b, k, i - 1, j - 1, diag)
    requires Swapped(a, b, i, j) ==> Sound(a, b, k, i - 2, j - 2, back)
    ensures Sound(a, b, k, i, j, Step(Osa, Swapped(a, b, i, j), Cost(a, b, i, j), up, left, diag, back))
  {
    StepAdmissible(Osa, a, b, k, i, j, up, left, diag, back);
    StepBounds(Swapped(a, b, i, j), Cost(a, b, i, j), up, left, diag, back);
    Moves(Osa, a, b, i, j);
  }

  /** Left of the final diagonal a dropped value stays dropped one row further
      down: the gap grows by one and the distance shrinks by at most one. */
  lemma DroppedBelow<T>(a: seq<T>, b: seq<T>, k: nat, i: nat, j: nat, v: int)
    requires 1 <= i <= |a| <= |b| && j + 1 <= i + |b| - |a|
    requires Dropped(a, b, k, i - 1, j, v)
    ensures Dropped(a, b, k, i, j, v) && Sound(a, b, k, i, j, v)
  {
    FailingBelow(Osa, a, b, k, i, j, v);
  }

  /** A sound value that fails the test with slack is dropped; one at a cell good
      for K is the cell itself and passes. */
  lemma SoundTest<T>(a: seq<T>, b: seq<T>, k: nat, i: nat, p: nat, buffer: seq<nat>)
    requires i <= |a| <= |b| && p <= |b| && p < |buffer|
    requires Sound(a, b, k, i, p, buffer[p])
    ensures !Within(buffer, i, |b| - |a|, k + 1, p) ==> Dropped(a, b, k, i, p, buffer[p])
    ensures Good(Osa, a, b, k, i, p) ==> Within(buffer, i, |b| - |a|, k + 1, p) && buffer[p] == Dist(Osa, a, b, i, p)
  {
  }

  /** An entry of the initial buffer 0, 1, ..., m stands soundly for a cell of a
      later row on or right of its diagonal that is not good. */
  lemma IotaSound<T>(a: seq<T>, b: seq<T>, k: nat, i: nat, p: nat)
    requires i <= |a| && i <= p <= |b|
    requires !Good(Osa, a, b, k, i, p)
    ensures Sound(a, b, k, i, p, p)
  {
    AtMostLonger(Osa, a, b, i, p);
  }

  /** How far the band end of row i may have to reach: the column the end loop of
      row i-1 stopped at, which passed there with a value now in `buffer`.  That
      column is e-1 ahead of the start, or e = m itself; for the first band of a
      single column there is nothing to keep. */
  predicate Reach(buffer: seq<nat>, i: nat, delta: nat, lo: nat, start: nat, end: nat)
    requires 1 <= i && end < |buffer|
  {
    || end == 1
    || (start < end && i - 1 + delta < end && Within(buffer, i - 1, delta, lo, end - 1))
    || (end == |buffer| - 1 && Within(buffer, i - 1, delta, lo, end))
  }

  /** The facts about the values alone that row i needs when it starts, with band
      [start, end] around the diagonal column i + delta: column 0 holds i-1, right
      of the band lies the initial buffer, each entry is at most one more than
      the copy's, neighbours in the band differ by at most one leftwards, right of
      the diagonal an entry is at most its column, and the end can be reached. */
  ghost predicate ValueReady(i: nat, delta: nat, lo: nat, start: nat, end: nat, buffer: seq<nat>, older: seq<nat>)
    requires 1 <= i
  {
    && |buffer| == |older|
    && 1 <= start <= i + delta <= end < |buffer|
    && buffer[0] == i - 1
    && (forall p :: end < p < |buffer| ==> buffer[p] == p)
    && (i > 1 ==> forall p :: 0 <= p < |buffer| ==> buffer[p] <= older[p] + 1)
    && (forall p :: start <= p < end ==> buffer[p] <= buffer[p + 1] + 1)
    && (forall p :: i - 1 + delta <= p < |buffer| ==> buffer[p] <= p)
    && Reach(buffer, i, delta, lo, start, end)
  }

  /** No cell of row i right of column end is good. */
  ghost predicate NoneGoodBeyond<T>(a: seq<T>, b: seq<T>, k: nat, i: nat, end: nat)
    requires i <= |a|
  {
    forall p :: end < p <= |b| ==> !Good(Osa, a, b, k, i, p)
  }

  /** The facts about the matrix that row i needs when it starts: row i-1 sound at
      the left neighbour of the band and on it, dropped left of it; no cell of rows
      i-1 and i right of the band is good; and the copy is sound for row i-2. */
  ghost predicate SoundReady<T>(a: seq<T>, b: seq<T>, k: nat, i: nat, start: nat, end: nat, buffer: seq<nat>, older: seq<nat>)
    requires 1 <= i <= |a|
  {
    var m := |b|;
    && |buffer| == m + 1 && |older| == m + 1
    && 1 <= start <= end <= m
    && Sound(a, b, k, i - 1, start - 1, buffer[start - 1])
    && (forall p :: 1 <= p < start ==> Dropped(a, b, k, i - 1, p, buffer[p]))
    && (forall p :: start <= p <= end ==> Sound(a, b, k, i - 1, p, buffer[p]))
    && NoneGoodBeyond(a, b, k, i, end)
    && NoneGoodBeyond(a, b, k, i - 1, end)
    && (i > 1 ==> forall p :: 0 <= p <= m ==> Sound(a, b, k, i - 2, p, older[p]))
  }

  /** Everything row i needs when it starts. */
  ghost predicate OsaReady<T>(a: seq<T>, b: seq<T>, k: nat, i: nat, start: nat, end: nat, buffer: seq<nat>, older: seq<nat>)
    requires 1 <= i <= |a| <= |b|
  {
    ValueReady(i, |b| - |a|, k + 1, start, end, buffer, older) && SoundReady(a, b, k, i, start, end, buffer, older)
  }

  /** The matrix facts while cell (i, j) is computed from `entry`, the buffer as
      row i found it: row i sound from the left neighbour of the band up to j-1,
      dropped values left of it, the entry buffer from j on, the carried cell
      standing for (i-1, j-1); the entry buffer is sound for row i-1 and the copy
      for row i-2. */
  ghost predicate SoundState<T>(a: seq<T>, b: seq<T>, k: nat, i: nat, start: nat, j: nat,
                                older: seq<nat>, entry: seq<nat>, c: Carry)
    requires 1 <= i <= |a| && 1 <= start <= j <= |b| + 1
  {
    var m := |b|;
    && |c.buffer| == m + 1 && |entry| == m + 1 && |older| == m + 1
    && Sound(a, b, k, i, start - 1, c.buffer[start - 1])
    && (forall p :: 1 <= p < start ==> Dropped(a, b, k, i, p, c.buffer[p]))
    && (forall p :: start <= p < j ==> Sound(a, b, k, i, p, c.buffer[p]))
    && (forall p :: j <= p <= m ==> c.buffer[p] == entry[p])
    && c.previousCell == entry[j - 1]
    && (forall p :: 0 <= p <= m ==> Sound(a, b, k, i - 1, p, entry[p]))
    && (i > 1 ==> forall p :: 0 <= p <= m ==> Sound(a, b, k, i - 2, p, older[p]))
  }

  /** The value facts while cell (i, j) is computed: each new value is at most one
      more than the entry value above it and at most the diagonal entry plus the
      cost; new neighbours differ by at most one; the rest of the buffer is the
      entry buffer, whose own neighbours in the band differ by at most one
      leftwards and whose entries exceed the copy's by at most one. */
  ghost predicate ValueState<T>(a: seq<T>, b: seq<T>, i: nat, start: nat, end: nat, j: nat,
                                    older: seq<nat>, entry: seq<nat>, c: Carry)
    requires 1 <= i <= |a| && 1 <= start <= j <= end + 1 && end <= |b|
  {
    var m := |b|;
    && |c.buffer| == m + 1 && |entry| == m + 1 && |older| == m + 1
    && c.buffer[0] == i && entry[0] == i - 1
    && (forall p :: 1 <= p < start ==> c.buffer[p] == entry[p])
    && (forall p :: start <= p < j ==> c.buffer[p] <= entry[p] + 1 && c.buffer[p] <= entry[p - 1] + Cost(a, b, i, p))
    && (forall p :: start < p < j ==> c.buffer[p] <= c.buffer[p - 1] + 1 && c.buffer[p - 1] <= c.buffer[p] + 1)
    && (forall p :: j <= p <= m ==> c.buffer[p] == entry[p])
    && c.previousCell == entry[j - 1]
    && (i > 1 ==> forall p :: 0 <= p <= m ==> entry[p] <= older[p] + 1)
    && (forall p :: start <= p < end ==> entry[p] <= entry[p + 1] + 1)
  }

  /** The state while cell (i, j) of row i is computed. */
  ghost predicate OsaState<T>(a: seq<T>, b: seq<T>, k: nat, i: nat, start: nat, end: nat, j: nat,
                              older: seq<nat>, entry: seq<nat>, c: Carry)
    requires 1 <= i <= |a| && 1 <= start <= j <= end + 1 && end <= |b|
  {
    SoundState(a, b, k, i, start, j, older, entry, c) && ValueState(a, b, i, start, end, j, older, entry, c)
  }

  /** The transposition operand of cell (i, j): entry j-2 of the copy. */
  function BackOperand(older: seq<nat>, i: nat, j: nat): nat
    requires j < |older| + 2
  {
    if i > 1 && j > 1 then older[j - 2] else 0
  }

  /** The entry buffer of row i is sound for row i-1 in every column: column 0
      holds i-1, left of the band dropped values, the band, and right of it the
      initial buffer at cells that are not good. */
  lemma EntrySound<T>(a: seq<T>, b: seq<T>, k: nat, i: nat, start: nat, end: nat, buffer: seq<nat>, older: seq<nat>)
    requires 1 <= i <= |a| <= |b|
    requires OsaReady(a, b, k, i, start, end, buffer, older)
    ensures forall p :: 0 <= p <= |b| ==> Sound(a, b, k, i - 1, p, buffer[p])
  {
    forall p | 0 <= p <= |b|
      ensures Sound(a, b, k, i - 1, p, buffer[p])
    {
      if p == 0 {
        Border(Osa, a, b, i - 1, 0);
      } else if end < p {
        IotaSound(a, b, k, i - 1, p);
      }
    }
  }

  /** Entering row i: column 0 becomes i, and the dropped values left of the band
      stay dropped for row i. */
  lemma OsaRowEntry<T>(a: seq<T>, b: seq<T>, k: nat, i: nat, start: nat, end: nat, buffer: seq<nat>, older: seq<nat>)
    requires 1 <= i <= |a| <= |b|
    requires OsaReady(a, b, k, i, start, end, buffer, older)
    ensures SoundState(a, b, k, i, start, start, older, buffer, AdaptiveRowStart(buffer, i, start)) == true
    ensures ValueState(a, b, i, start, end, start, older, buffer, AdaptiveRowStart(buffer, i, start)) == true
  {
    EntrySound(a, b, k, i, start, end, buffer, older);
    RowEntrySound(a, b, k, i, start, buffer, older);
  }

  /** The matrix facts at the start of row i, given that the entry buffer is
      sound for row i-1 everywhere. */
  lemma RowEntrySound<T>(a: seq<T>, b: seq<T>, k: nat, i: nat, start: nat, buffer: seq<nat>, older: seq<nat>)
    requires 1 <= i <= |a| <= |b|
    requires |buffer| == |b| + 1 && |older| == |b| + 1 && 1 <= start <= i + |b| - |a|
    requires forall p :: 1 <= p < start ==> Dropped(a, b, k, i - 1, p, buffer[p])
    requires forall p :: 0 <= p <= |b| ==> Sound(a, b, k, i - 1, p, buffer[p])
    requires i > 1 ==> forall p :: 0 <= p <= |b| ==> Sound(a, b, k, i - 2, p, older[p])
    ensures SoundState(a, b, k, i, start, start, older, buffer, AdaptiveRowStart(buffer, i, start)) == true
  {
    var c := AdaptiveRowStart(buffer, i, start);
    forall p | 1 <= p < start
      ensures Dropped(a, b, k, i, p, c.buffer[p])
    {
      DroppedBelow(a, b, k, i, p, buffer[p]);
    }
    if start == 1 {
      Border(Osa, a, b, i, 0);
    } else {
      DroppedBelow(a, b, k, i, start - 1, buffer[start - 1]);
    }
  }

  /** Storing cell (i, j) keeps the matrix facts. */
  lemma OsaSoundAdvance<T>(a: seq<T>, b: seq<T>, k: nat, i: nat, start: nat, j: nat,
                           older: seq<nat>, entry: seq<nat>, c: Carry, cell: nat)
    requires 1 <= i <= |a| && 1 <= start <= j <= |b|
    requires SoundState(a, b, k, i, start, j, older, entry, c)
    requires cell == Step(Osa, Swapped(a, b, i, j), Cost(a, b, i, j), c.buffer[j], c.buffer[j - 1],
                          c.previousCell, BackOperand(older, i, j))
    ensures SoundState(a, b, k, i, start, j + 1, older, entry, AdaptiveAdvance(c, j, cell)) == true
  {
    StepSound(a, b, k, i, j, c.buffer[j], c.buffer[j - 1], c.previousCell, BackOperand(older, i, j));
  }

  /** The new value of a cell against its neighbours: at most one above the value
      it overwrites, at most the diagonal entry plus the cost, at most one above
      its left neighbour, and at least that neighbour less one when the left
      neighbour is at most one above the diagonal entry, the diagonal entry at
      most one above the overwritten one, and (for a swap) the left neighbour at
      most the free substitution into the left cell over a value at most one above
      the transposition operand. */
  lemma CellValue(swapped: bool, cost: nat, up: nat, left: nat, diag: nat, back: nat, leftDiag: nat, leftCost: nat)
    ensures var v := Step(Osa, swapped, cost, up, left, diag, back);
            && v <= up + 1 && v <= diag + cost && v <= left + 1
            && (left <= diag + 1 && diag <= up + 1
                && (swapped ==> left <= leftDiag + leftCost && leftCost == 0 && leftDiag <= back + 1)
                ==> left <= v + 1)
  {
    StepBounds(swapped, cost, up, left, diag, back);
  }

  /** Storing a value that keeps the value facts at column j. */
  lemma ValueExtend<T>(a: seq<T>, b: seq<T>, i: nat, start: nat, end: nat, j: nat,
                       older: seq<nat>, entry: seq<nat>, c: Carry, cell: nat)
    requires 1 <= i <= |a| && 1 <= start <= j <= end <= |b|
    requires ValueState(a, b, i, start, end, j, older, entry, c)
    requires cell <= entry[j] + 1 && cell <= entry[j - 1] + Cost(a, b, i, j) && cell <= c.buffer[j - 1] + 1
    requires start < j ==> c.buffer[j - 1] <= cell + 1
    ensures ValueState(a, b, i, start, end, j + 1, older, entry, AdaptiveAdvance(c, j, cell)) == true
  {
    var t := AdaptiveAdvance(c, j, cell).buffer;
    assert t == c.buffer[j := cell];
    KeepLeft(c.buffer, entry, start, j, cell, t);
    KeepBand(a, b, i, c.buffer, entry, start, j, cell, t);
    KeepNeighbours(c.buffer, start, j, cell, t);
    KeepRight(c.buffer, entry, j, cell, t);
  }

  /** Storing a cell at column j leaves the copied columns left of the band. */
  lemma KeepLeft(s: seq<nat>, entry: seq<nat>, start: nat, j: nat, cell: nat, t: seq<nat>)
    requires start <= j < |s| == |entry| && t == s[j := cell]
    requires forall p :: 1 <= p < start ==> s[p] == entry[p]
    ensures forall p :: 1 <= p < start ==> t[p] == entry[p]
  {
  }

  /** Storing a cell at column j that meets the bounds from above extends them. */
  lemma KeepBand<T>(a: seq<T>, b: seq<T>, i: nat, s: seq<nat>, entry: seq<nat>, start: nat, j: nat,
                    cell: nat, t: seq<nat>)
    requires 1 <= i <= |a| && 1 <= start <= j <= |b| && |s| == |entry| == |b| + 1 && t == s[j := cell]
    requires forall p :: start <= p < j ==> s[p] <= entry[p] + 1 && s[p] <= entry[p - 1] + Cost(a, b, i, p)
    requires cell <= entry[j] + 1 && cell <= entry[j - 1] + Cost(a, b, i, j)
    ensures forall p :: start <= p < j + 1 ==> t[p] <= entry[p] + 1 && t[p] <= entry[p - 1] + Cost(a, b, i, p)
  {
  }

  /** Storing a cell at column j within one of its left neighbour extends the
      neighbour facts. */
  lemma KeepNeighbours(s: seq<nat>, start: nat, j: nat, cell: nat, t: seq<nat>)
    requires 1 <= start <= j < |s| && t == s[j := cell]
    requires forall p :: start < p < j ==> s[p] <= s[p - 1] + 1 && s[p - 1] <= s[p] + 1
    requires cell <= s[j - 1] + 1 && (start < j ==> s[j - 1] <= cell + 1)
    ensures forall p :: start < p < j + 1 ==> t[p] <= t[p - 1] + 1 && t[p - 1] <= t[p] + 1
  {
  }

  /** Storing a cell at column j leaves the copied columns right of it. */
  lemma KeepRight(s: seq<nat>, entry: seq<nat>, j: nat, cell: nat, t: seq<nat>)
    requires j < |s| == |entry| && t == s[j := cell]
    requires forall p :: j <= p < |s| ==> s[p] == entry[p]
    ensures forall p :: j + 1 <= p < |s| ==> t[p] == entry[p]
    ensures s[j] == entry[j]
  {
  }

  /** Storing cell (i, j) keeps the value facts.  The new value is at least the
      previous one less one: each operand offers that, the transposition because
      a swap at (i, j) makes the substitution into (i, j-1) free. */
  lemma OsaValueAdvance<T>(a: seq<T>, b: seq<T>, i: nat, start: nat, end: nat, j: nat,
                               older: seq<nat>, entry: seq<nat>, c: Carry, cell: nat)
    requires 1 <= i <= |a| && 1 <= start <= j <= end <= |b|
    requires ValueState(a, b, i, start, end, j, older, entry, c)
    requires cell == Step(Osa, Swapped(a, b, i, j), Cost(a, b, i, j), c.buffer[j], c.buffer[j - 1],
                          c.previousCell, BackOperand(older, i, j))
    ensures ValueState(a, b, i, start, end, j + 1, older, entry, AdaptiveAdvance(c, j, cell)) == true
  {
    var swapped := Swapped(a, b, i, j);
    var leftCost := if start < j && swapped then Cost(a, b, i, j - 1) else 0;
    var leftDiag := if start < j && swapped then entry[j - 2] else 0;
    CellValue(swapped, Cost(a, b, i, j), c.buffer[j], c.buffer[j - 1], c.previousCell, BackOperand(older, i, j), leftDiag, leftCost);
    ValueExtend(a, b, i, start, end, j, older, entry, c, cell);
  }

  /** The row i starts from: the initial buffer, band [1, min(m, h + 1)] for
      h = (K + m - n) / 2. */
  lemma OsaFirstReady<T>(a: seq<T>, b: seq<T>, k: nat)
    requires 1 <= |a| <= |b| && |b| - |a| <= k
    ensures OsaReady(a, b, k, 1, 1, Min(|b|, (k + |b| - |a|) / 2 + 1), Iota(|b| + 1), Iota(|b| + 1))
  {
    var m, e, buffer := |b|, Min(|b|, (k + |b| - |a|) / 2 + 1), Iota(|b| + 1);
    forall p | 0 <= p <= e
      ensures Sound(a, b, k, 0, p, buffer[p])
    {
      Border(Osa, a, b, 0, p);
    }
    forall p | e < p <= m
      ensures !Good(Osa, a, b, k, 1, p) && !Good(Osa, a, b, k, 0, p)
    {
      TopRowBeyond(Osa, a, b, k, p);
      if Good(Osa, a, b, k, 1, p) {
        GoodDiagonalPredecessor(Osa, a, b, k, 1, p);
        TopRowBeyond(Osa, a, b, k, p - 1);
      }
    }
    assert Reach(buffer, 1, m - |a|, k + 1, 1, e);
  }

  /** When the end loop stops inside the band, it stops on or right of the
      diagonal column: left of it, a passing value passes one column further
      right too, its value growing by at most one as the gap shrinks by one. */
  lemma StopOnDiagonal(buffer: seq<nat>, i: nat, delta: nat, lo: nat, start: nat, end: nat)
    requires 1 <= start <= i + delta <= end < |buffer|
    requires forall p :: start < p <= end ==> buffer[p] <= buffer[p - 1] + 1
    ensures var stop := ShrinkEnd(buffer, i, delta, lo, end);
            stop >= start ==> stop >= i + delta
  {
    var stop := ShrinkEnd(buffer, i, delta, lo, end);
    if start <= stop < i + delta {
      assert Within(buffer, i, delta, lo, stop + 1);
    }
  }

  /** A passing column on or right of the diagonal makes every column between it
      and the diagonal pass: one column further left the gap is one smaller and
      the value at most one larger. */
  lemma {:induction false} WithinTowardDiagonal(buffer: seq<nat>, i: nat, delta: nat, lo: nat, start: nat, end: nat, p: nat)
    requires start <= i + delta <= p <= end < |buffer|
    requires forall q :: start <= q < end ==> buffer[q] <= buffer[q + 1] + 1
    requires Within(buffer, i, delta, lo, p)
    ensures Within(buffer, i, delta, lo, i + delta)
    decreases p
  {
    if p > i + delta {
      assert buffer[p - 1] <= buffer[p] + 1;
      WithinTowardDiagonal(buffer, i, delta, lo, start, end, p - 1);
    }
  }

  /** The end never moves left while the band stays non-empty: the column the
      previous end loop stopped at passes again, since its value grew by at most
      one while its gap shrank by one, or it was the diagonal column, which the
      end loop now passes. */
  lemma EndKeeps(entry: seq<nat>, buffer: seq<nat>, i: nat, delta: nat, lo: nat, start: nat, end: nat)
    requires 1 <= i && |buffer| == |entry|
    requires 1 <= start <= i + delta <= end < |buffer|
    requires Reach(entry, i, delta, lo, start, end)
    requires forall p :: start <= p <= end ==> buffer[p] <= entry[p] + 1
    requires forall p :: start < p <= end ==> buffer[p] <= buffer[p - 1] + 1
    ensures var stop := ShrinkEnd(buffer, i, delta, lo, end);
            stop >= start ==> stop + 1 >= end && stop >= i + delta
  {
    StopOnDiagonal(buffer, i, delta, lo, start, end);
    var stop := ShrinkEnd(buffer, i, delta, lo, end);
    if stop >= start && end > 1 {
      if start < end && i - 1 + delta < end && Within(entry, i - 1, delta, lo, end - 1) {
        if end - 1 >= i + delta {
          assert Within(buffer, i, delta, lo, end - 1);
        }
      } else {
        assert Within(buffer, i, delta, lo, end);
      }
    }
  }

  /** The band of the next row, once the end loop stopped inside the band: the
      start loop stops at the latest on the diagonal, the end does not move left
      and covers the next diagonal column, and the new end can be reached from
      the stop. */
  lemma NextBand(buffer: seq<nat>, i: nat, delta: nat, lo: nat, start: nat, end: nat, start': nat, end': nat)
    requires 1 <= start <= i + delta <= end < |buffer| && i + delta + 1 < |buffer|
    requires forall p :: start < p <= end ==> buffer[p] <= buffer[p - 1] + 1
    requires forall p :: start <= p < end ==> buffer[p] <= buffer[p + 1] + 1
    requires start <= ShrinkEnd(buffer, i, delta, lo, end) && end <= ShrinkEnd(buffer, i, delta, lo, end) + 1
    requires end' == NarrowedEnd(buffer, i, delta, lo, end)
    requires start' == AdvanceStart(buffer, i, delta, lo, start, end')
    ensures start <= start' <= i + delta < end' < |buffer| && end <= end' <= end + 1
    ensures Reach(buffer, i + 1, delta, lo, start', end')
  {
    var stop := ShrinkEnd(buffer, i, delta, lo, end);
    StopOnDiagonal(buffer, i, delta, lo, start, end);
    WithinTowardDiagonal(buffer, i, delta, lo, start, end, stop);
  }

  /** The value facts the next row starts from, given its band. */
  lemma NextShape<T>(a: seq<T>, b: seq<T>, k: nat, i: nat, start: nat, end: nat, buffer: seq<nat>,
                     entry: seq<nat>, older: seq<nat>, start': nat, end': nat)
    requires 1 <= i < |a| <= |b| && |entry| == |b| + 1
    requires ValueReady(i, |b| - |a|, k + 1, start, end, entry, older)
    requires 1 <= start <= end <= |b| && |buffer| == |entry| == |b| + 1 && buffer[0] == i
    requires forall p :: 0 <= p < |buffer| ==> buffer[p] <= entry[p] + 1
    requires forall p :: end < p < |buffer| ==> buffer[p] == entry[p]
    requires forall p :: start <= p <= end ==> buffer[p] <= entry[p - 1] + 1
    requires forall p :: start < p <= end ==> buffer[p] <= buffer[p - 1] + 1
    requires forall p :: start <= p < end ==> buffer[p] <= buffer[p + 1] + 1
    requires start <= start' <= i + |b| - |a| < end' <= |b| && end <= end' <= end + 1
    requires Reach(buffer, i + 1, |b| - |a|, k + 1, start', end')
    ensures ValueReady(i + 1, |b| - |a|, k + 1, start', end', buffer, entry) == true
  {
    var delta := |b| - |a|;
    forall p | i + delta <= p <= end
      ensures buffer[p] <= p
    {
      assert entry[p - 1] <= p - 1;
    }
  }

  /** The value facts the next row starts from, once the end loop stopped inside
      the band. */
  lemma NextValues<T>(a: seq<T>, b: seq<T>, k: nat, i: nat, start: nat, end: nat, buffer: seq<nat>,
                      entry: seq<nat>, older: seq<nat>, start': nat, end': nat)
    requires 1 <= i < |a| <= |b| && |entry| == |b| + 1
    requires ValueReady(i, |b| - |a|, k + 1, start, end, entry, older)
    requires 1 <= start <= end <= |b| && |buffer| == |entry| == |b| + 1 && buffer[0] == i
    requires forall p :: 0 <= p < |buffer| ==> buffer[p] <= entry[p] + 1
    requires forall p :: end < p < |buffer| ==> buffer[p] == entry[p]
    requires forall p :: start <= p <= end ==> buffer[p] <= entry[p - 1] + 1
    requires forall p :: start < p <= end ==> buffer[p] <= buffer[p - 1] + 1
    requires forall p :: start <= p < end ==> buffer[p] <= buffer[p + 1] + 1
    requires ShrinkEnd(buffer, i, |b| - |a|, k + 1, end) >= start
    requires end' == NarrowedEnd(buffer, i, |b| - |a|, k + 1, end)
    requires start' == AdvanceStart(buffer, i, |b| - |a|, k + 1, start, end')
    ensures start <= start' <= i + |b| - |a| < end' && end <= end' <= end + 1
    ensures ValueReady(i + 1, |b| - |a|, k + 1, start', end', buffer, entry) == true
  {
    var delta := |b| - |a|;
    EndKeeps(entry, buffer, i, delta, k + 1, start, end);
    NextBand(buffer, i, delta, k + 1, start, end, start', end');
    NextShape(a, b, k, i, start, end, buffer, entry, older, start', end');
  }

  /** The value facts of row i after its last cell, in the shapes the narrowing
      lemmas take. */
  lemma RowValueFacts<T>(a: seq<T>, b: seq<T>, i: nat, start: nat, end: nat, older: seq<nat>, entry: seq<nat>,
                         buffer: seq<nat>)
    requires 1 <= i <= |a| && 1 <= start <= end <= |b| && |entry| == |b| + 1
    requires ValueState(a, b, i, start, end, end + 1, older, entry, Carry(buffer, entry[end])) == true
    ensures |buffer| == |entry| == |b| + 1 && buffer[0] == i
    ensures forall p :: 0 <= p < |buffer| ==> buffer[p] <= entry[p] + 1
    ensures forall p :: end < p < |buffer| ==> buffer[p] == entry[p]
    ensures forall p :: start <= p <= end ==> buffer[p] <= entry[p - 1] + 1
    ensures forall p :: start < p <= end ==> buffer[p] <= buffer[p - 1] + 1
    ensures forall p :: start <= p < end ==> buffer[p] <= buffer[p + 1] + 1
  {
    Neighbours(buffer, start, end);
    AboveEntry(a, b, i, buffer, entry, start, end);
  }

  /** A finished row exceeds the row above by at most one everywhere, and the
      diagonal entry by at most one in its band. */
  lemma AboveEntry<T>(a: seq<T>, b: seq<T>, i: nat, buffer: seq<nat>, entry: seq<nat>, start: nat, end: nat)
    requires 1 <= i <= |a| && 1 <= start <= end <= |b| && |buffer| == |entry| == |b| + 1
    requires buffer[0] == i && entry[0] == i - 1
    requires forall p :: 1 <= p < start ==> buffer[p] == entry[p]
    requires forall p :: start <= p < end + 1 ==> buffer[p] <= entry[p] + 1 && buffer[p] <= entry[p - 1] + Cost(a, b, i, p)
    requires forall p :: end + 1 <= p <= |b| ==> buffer[p] == entry[p]
    ensures forall p :: 0 <= p < |buffer| ==> buffer[p] <= entry[p] + 1
    ensures forall p :: end < p < |buffer| ==> buffer[p] == entry[p]
    ensures forall p :: start <= p <= end ==> buffer[p] <= entry[p - 1] + 1
  {
  }

  /** Neighbours that differ by at most one, read in both directions. */
  lemma Neighbours(s: seq<nat>, start: nat, end: nat)
    requires 1 <= start <= end < |s|
    requires forall p :: start < p < end + 1 ==> s[p] <= s[p - 1] + 1 && s[p - 1] <= s[p] + 1
    ensures forall p :: start < p <= end ==> s[p] <= s[p - 1] + 1
    ensures forall p :: start <= p < end ==> s[p] <= s[p + 1] + 1
  {
    forall p | start <= p < end
      ensures s[p] <= s[p + 1] + 1
    {
      assert s[(p + 1) - 1] <= s[p + 1] + 1;
    }
  }

  /** Left of the next band: the cells the start loop walked past are dropped, and
      the left neighbour of the next band is sound. */
  lemma NextLeft<T>(a: seq<T>, b: seq<T>, k: nat, i: nat, start: nat, end: nat, buffer: seq<nat>,
                    entry: seq<nat>, older: seq<nat>, start': nat, end': nat)
    requires 1 <= i < |a| <= |b| && |entry| == |b| + 1 && 1 <= start <= end <= |b|
    requires SoundState(a, b, k, i, start, end + 1, older, entry, Carry(buffer, entry[end]))
    requires start <= start' <= end' <= |b| && end' <= end + 1
    requires start' == AdvanceStart(buffer, i, |b| - |a|, k + 1, start, end')
    ensures forall p :: 1 <= p < start' ==> Dropped(a, b, k, i, p, buffer[p])
    ensures Sound(a, b, k, i, start' - 1, buffer[start' - 1])
  {
    forall p | start <= p < start'
      ensures Dropped(a, b, k, i, p, buffer[p])
    {
      SoundTest(a, b, k, i, p, buffer);
    }
  }

  /** Right of the next band no cell of rows i and i+1 is good: a good cell of
      row i+1 has a good diagonal predecessor, which right of the band would
      have passed the end loop. */
  lemma NextBeyond<T>(a: seq<T>, b: seq<T>, k: nat, i: nat, start: nat, end: nat, buffer: seq<nat>, end': nat)
    requires 1 <= i < |a| <= |b| && 1 <= start <= end <= |b|
    requires |buffer| == |b| + 1
    requires forall p :: start <= p <= end ==> Sound(a, b, k, i, p, buffer[p])
    requires NoneGoodBeyond(a, b, k, i, end)
    requires end <= end' && start <= end'
    requires end' == NarrowedEnd(buffer, i, |b| - |a|, k + 1, end)
    ensures NoneGoodBeyond(a, b, k, i, end') && NoneGoodBeyond(a, b, k, i + 1, end')
  {
    var below := i + 1;
    forall q | end' < q <= |b|
      ensures !Good(Osa, a, b, k, below, q)
    {
      if Good(Osa, a, b, k, below, q) {
        GoodDiagonalPredecessor(Osa, a, b, k, below, q);
        if q - 1 <= end {
          SoundTest(a, b, k, i, q - 1, buffer);
        }
      }
    }
  }

  /** The matrix facts the next row starts from: the cells the start loop walked
      past are dropped, the band is row i's (plus, when the end moved right, one
      initial entry at a cell that is not good), no cell of rows i and i+1 right
      of the new end is good, and the entry buffer becomes the copy. */
  lemma NextSound<T>(a: seq<T>, b: seq<T>, k: nat, i: nat, start: nat, end: nat, buffer: seq<nat>,
                     entry: seq<nat>, older: seq<nat>, start': nat, end': nat)
    requires 1 <= i < |a| <= |b|
    requires SoundReady(a, b, k, i, start, end, entry, older)
    requires SoundState(a, b, k, i, start, end + 1, older, entry, Carry(buffer, entry[end]))
    requires i + |b| - |a| <= end
    requires start <= start' <= end' && end <= end' <= end + 1
    requires forall p :: end < p <= |b| ==> entry[p] == p
    requires end' == NarrowedEnd(buffer, i, |b| - |a|, k + 1, end)
    requires start' == AdvanceStart(buffer, i, |b| - |a|, k + 1, start, end')
    ensures SoundReady(a, b, k, i + 1, start', end', buffer, entry) == true
  {
    NextLeft(a, b, k, i, start, end, buffer, entry, older, start', end');
    NextBeyond(a, b, k, i, start, end, buffer, end');
    NextBandSound(a, b, k, i, start, end, buffer, entry, older, start', end');
  }

  /** The next band is sound for row i: row i's band, plus at most one initial
      entry at a cell that is not good. */
  lemma NextBandSound<T>(a: seq<T>, b: seq<T>, k: nat, i: nat, start: nat, end: nat, buffer: seq<nat>,
                         entry: seq<nat>, older: seq<nat>, start': nat, end': nat)
    requires 1 <= i < |a| <= |b| && |entry| == |b| + 1 && 1 <= start <= end <= |b| && i <= end
    requires SoundState(a, b, k, i, start, end + 1, older, entry, Carry(buffer, entry[end]))
    requires NoneGoodBeyond(a, b, k, i, end)
    requires start <= start' && end <= end' <= end + 1 && end' <= |b|
    requires forall p :: end < p <= |b| ==> entry[p] == p
    ensures forall p :: start' <= p <= end' ==> Sound(a, b, k, i, p, buffer[p])
  {
    if end < end' {
      IotaSound(a, b, k, i, end');
    }
  }

  /** The facts the narrowing needs from the states before and after row i: the
      band lies around the diagonal and is sound for row i, and the carried cell
      is the entry value at the band end. */
  lemma NarrowFacts<T>(a: seq<T>, b: seq<T>, k: nat, i: nat, start: nat, end: nat,
                       entry: seq<nat>, older: seq<nat>, c: Carry)
    requires 1 <= i <= |a| <= |b|
    requires OsaReady(a, b, k, i, start, end, entry, older) == true
    requires OsaState(a, b, k, i, start, end, end + 1, older, entry, c) == true
    ensures |c.buffer| == |b| + 1 && |entry| == |b| + 1
    ensures 1 <= start <= i + |b| - |a| <= end <= |b|
    ensures c.previousCell == entry[end]
    ensures forall p :: start <= p <= end ==> Sound(a, b, k, i, p, c.buffer[p])
  {
  }

  /** A band that stays non-empty after row i < n leaves row i+1 ready. */
  lemma OsaNarrowKept<T>(a: seq<T>, b: seq<T>, k: nat, i: nat, start: nat, end: nat,
                         entry: seq<nat>, older: seq<nat>, buffer: seq<nat>, start': nat, end': nat)
    requires 1 <= i < |a| <= |b|
    requires OsaReady(a, b, k, i, start, end, entry, older)
    requires OsaState(a, b, k, i, start, end, end + 1, older, entry, Carry(buffer, entry[end]))
    requires ShrinkEnd(buffer, i, |b| - |a|, k + 1, end) >= start
    requires end' == NarrowedEnd(buffer, i, |b| - |a|, k + 1, end)
    requires start' == AdvanceStart(buffer, i, |b| - |a|, k + 1, start, end')
    ensures start' <= end'
    ensures OsaReady(a, b, k, i + 1, start', end', buffer, entry) == true
  {
    RowValueFacts(a, b, i, start, end, older, entry, buffer);
    NextValues(a, b, k, i, start, end, buffer, entry, older, start', end');
    NextSound(a, b, k, i, start, end, buffer, entry, older, start', end');
  }

  /** A row whose end loop stops left of the band leaves an empty band; as long
      as the band covers the diagonal column, this shows the distance exceeds K:
      a good diagonal cell would be exact and pass. */
  lemma OsaNarrowEmpty<T>(a: seq<T>, b: seq<T>, k: nat, i: nat, start: nat, end: nat, buffer: seq<nat>)
    requires 1 <= i <= |a| <= |b| && 1 <= start <= i + |b| - |a| <= end <= |b| && |buffer| == |b| + 1
    requires forall p :: start <= p <= end ==> Sound(a, b, k, i, p, buffer[p])
    requires ShrinkEnd(buffer, i, |b| - |a|, k + 1, end) < start
    ensures var delta := |b| - |a|;
            var e := NarrowedEnd(buffer, i, delta, k + 1, end);
            e < AdvanceStart(buffer, i, delta, k + 1, start, e)
    ensures Distance(Osa, a, b) > k
  {
    var delta := |b| - |a|;
    var e := NarrowedEnd(buffer, i, delta, k + 1, end);
    if start <= e {
      assert !Within(buffer, i, delta, k + 1, start);
      assert AdvanceStart(buffer, i, delta, k + 1, start, e) == AdvanceStart(buffer, i, delta, k + 1, start + 1, e);
    }
    if Distance(Osa, a, b) <= k {
      DiagonalWitness(Osa, a, b, k, i);
      SoundTest(a, b, k, i, i + delta, buffer);
    }
  }

  /** At the final cell a sound value is the distance when that is at most K, and
      above K otherwise. */
  lemma FinalSound<T>(a: seq<T>, b: seq<T>, k: nat, v: int)
    requires Sound(a, b, k, |a|, |b|, v)
    ensures Distance(Osa, a, b) <= k ==> v == Distance(Osa, a, b)
    ensures Distance(Osa, a, b) > k ==> v > k
  {
    FinalCell(Osa, a, b, k, v);
  }
}
