/** `bounded_edit_dist_t` and `min_edit_dist_t` as written, on the strings the
    pre-algorithm leaves.  The buffer has two halves: `current`, meant to hold
    row i-1 ahead of column j and row i behind it, and `previous`, meant to hold
    row i-2 for the transposition operand.  Before the first row both halves
    hold row 0: the pre-algorithm writes 0..m into `current`, and the function
    itself writes 0..m into `previous`.  Each cell moves the carried cells on by
    one and writes the second carried cell into `previous[j-2]`, so `previous`
    only holds row i-1 at columns the band of row i covered, and row i-2
    elsewhere only by chance.  One run shows the effect: "cad" against "bcda"
    with bound 2 gives 3 although the distance is 2. */
module AdaptiveOsaTrace {
  import opened EditDistance

  /** The state of the row loop as written: the two buffer halves, the carried
      cells `previous_cell` and `previous_previous_cell`, and the last cell. */
  datatype TRun = TRun(current: seq<int>, previous: seq<int>, previousCell: int, previousPreviousCell: int, cell: int)

  /** The cells of row i from column j to `end` as written: the cell is the
      smallest of the three Levenshtein operands, lowered to previous[j-2] + cost
      at a swap; then previous[j-2] takes the second carried cell, the carried
      cells move on and current[j] takes the cell. */
  function SweepTAsWritten<T(==)>(a: seq<T>, b: seq<T>, i: nat, j: nat, end: nat, r: TRun): TRun
    requires 1 <= i <= |a| && 1 <= j && end <= |b| && |r.current| == |b| + 1 && |r.previous| == |b| + 1
    decreases if j <= end then end + 1 - j else 0
  {
    if j > end then r
    else
      var cost := if a[i - 1] == b[j - 1] then 0 else 1;
      var lev := Least(r.current[j] + 1, r.current[j - 1] + 1, r.previousCell + cost);
      var cell := if i > 1 && j > 1 && a[i - 1] == b[j - 2] && a[i - 2] == b[j - 1]
                  then (if r.previous[j - 2] + cost < lev then r.previous[j - 2] + cost else lev)
                  else lev;
      var previous := if j > 1 then r.previous[j - 2 := r.previousPreviousCell] else r.previous;
      SweepTAsWritten(a, b, i, j + 1, end, TRun(r.current[j := cell], previous, r.current[j], r.previousCell, cell))
  }

  /** The sweep keeps the lengths of both halves. */
  lemma {:induction false} SweepTShape<T>(a: seq<T>, b: seq<T>, i: nat, j: nat, end: nat, r: TRun)
    requires 1 <= i <= |a| && 1 <= j && end <= |b| && |r.current| == |b| + 1 && |r.previous| == |b| + 1
    ensures var r' := SweepTAsWritten(a, b, i, j, end, r);
            |r'.current| == |b| + 1 && |r'.previous| == |b| + 1
    decreases if j <= end then end + 1 - j else 0
  {
    if j <= end {
      var cost := if a[i - 1] == b[j - 1] then 0 else 1;
      var lev := Least(r.current[j] + 1, r.current[j - 1] + 1, r.previousCell + cost);
      var cell := if i > 1 && j > 1 && a[i - 1] == b[j - 2] && a[i - 2] == b[j - 1]
                  then (if r.previous[j - 2] + cost < lev then r.previous[j - 2] + cost else lev)
                  else lev;
      var previous := if j > 1 then r.previous[j - 2 := r.previousPreviousCell] else r.previous;
      SweepTShape(a, b, i, j + 1, end, TRun(r.current[j := cell], previous, r.current[j], r.previousCell, cell));
    }
  }

  /** The end loop as written: while the end is positive and its value plus its
      distance to the final diagonal, less one, exceeds max, move it left. */
  function ShrinkEndAsWritten(current: seq<int>, i: int, mn: int, max: int, end: nat): (e: nat)
    requires end < |current|
    ensures e <= end
  {
    if end > 0 && current[end] + Abs(end - i - mn) - 1 > max then ShrinkEndAsWritten(current, i, mn, max, end - 1)
    else end
  }

  /** The start loop as written: while the start is at most the end and its value
      plus its distance to the final diagonal, less one, exceeds max, move it right. */
  function AdvanceStartAsWritten(current: seq<int>, i: int, mn: int, max: int, start: nat, end: nat): (s: nat)
    requires end < |current|
    ensures start <= s && (start <= end ==> s <= end + 1)
    decreases if start <= end then end + 1 - start else 0
  {
    if start <= end && Abs(i + mn - start) + current[start] - 1 > max then AdvanceStartAsWritten(current, i, mn, max, start + 1, end)
    else start
  }

  /** Rows i to n as written: the first carried cell is read at start-1 before
      column 0 is set to i, the band is swept, then narrowed; an empty band
      answers max+1, and after the last row the answer is the last cell capped
      at max+1. */
  function RowsTAsWritten<T(==)>(a: seq<T>, b: seq<T>, max: int, i: nat, start: nat, end: nat, r: TRun): int
    requires 1 <= i <= |a| <= |b| && 1 <= start <= end <= |b|
    requires |r.current| == |b| + 1 && |r.previous| == |b| + 1
    decreases |a| - i
  {
    var entered := r.(previousCell := r.current[start - 1], current := r.current[0 := i]);
    SweepTShape(a, b, i, start, end, entered);
    var swept := SweepTAsWritten(a, b, i, start, end, entered);
    var mn := |b| - |a|;
    var e := Min(|b|, ShrinkEndAsWritten(swept.current, i, mn, max, end) + 1);
    var s := AdvanceStartAsWritten(swept.current, i, mn, max, start, e);
    if e < s then max + 1
    else if i == |a| then Min(max + 1, swept.cell)
    else RowsTAsWritten(a, b, max, i + 1, s, e, swept)
  }

  /** The core of `bounded_edit_dist_t` as written on the strings the
      pre-algorithm leaves (subject no longer than query, length difference at
      most max), both buffer halves starting as row 0. */
  function BoundedEditDistTAsWritten<T(==)>(a: seq<T>, b: seq<T>, max: nat): int
    requires 1 <= |a| <= |b| && |b| - |a| <= max
  {
    RowsTAsWritten(a, b, max, 1, 1, Min((max + |b| - |a|) / 2 + 1, |b|), TRun(Iota(|b| + 1), Iota(|b| + 1), 0, 0, 0))
  }

  /** Strings spelling "cad" and "bcda" character by character.  The trace lemmas
      take the strings as parameters constrained by this predicate rather than as
      literals, so that the solver follows the given steps instead of evaluating
      the whole computation by itself. */
  predicate StaleInput(a: string, b: string)
  {
    && |a| == 3 && a[0] == 'c' && a[1] == 'a' && a[2] == 'd'
    && |b| == 4 && b[0] == 'b' && b[1] == 'c' && b[2] == 'd' && b[3] == 'a'
  }

  /** Row 1: columns 1 and 2 become 1 and 1. */
  lemma StaleRow1Sweep(a: string, b: string)
    requires StaleInput(a, b)
    ensures SweepTAsWritten(a, b, 1, 1, 2, TRun([1, 1, 2, 3, 4], [0, 1, 2, 3, 4], 0, 0, 0))
         == TRun([1, 1, 1, 3, 4], [0, 1, 2, 3, 4], 2, 1, 1)
  {
  }

  /** Row 2: columns 1 to 3 become 2, 2, 2, and previous[0..1] takes row 1's 1. */
  lemma StaleRow2Sweep(a: string, b: string)
    requires StaleInput(a, b)
    ensures SweepTAsWritten(a, b, 2, 1, 3, TRun([2, 1, 1, 3, 4], [0, 1, 2, 3, 4], 1, 1, 1))
         == TRun([2, 2, 2, 2, 4], [1, 1, 2, 3, 4], 3, 1, 2)
  {
  }

  /** Row 3: columns 2 to 4 become 2, 3, 3; the swap at (3, 4) reads previous[2],
      which still holds row 0's 2. */
  lemma StaleRow3Sweep(a: string, b: string)
    requires StaleInput(a, b)
    ensures SweepTAsWritten(a, b, 3, 2, 4, TRun([3, 2, 2, 2, 4], [1, 1, 2, 3, 4], 2, 1, 2))
         == TRun([3, 2, 3, 2, 3], [1, 2, 2, 3, 4], 4, 2, 3)
  {
  }

  /** Row 1 and its narrowing: the band becomes [1, 3]. */
  lemma StaleRow1(a: string, b: string)
    requires StaleInput(a, b)
    ensures RowsTAsWritten(a, b, 2, 1, 1, 2, TRun([0, 1, 2, 3, 4], [0, 1, 2, 3, 4], 0, 0, 0))
         == RowsTAsWritten(a, b, 2, 2, 1, 3, TRun([1, 1, 1, 3, 4], [0, 1, 2, 3, 4], 2, 1, 1))
  {
    var r := TRun([0, 1, 2, 3, 4], [0, 1, 2, 3, 4], 0, 0, 0);
    assert r.(previousCell := r.current[0], current := r.current[0 := 1]) == TRun([1, 1, 2, 3, 4], [0, 1, 2, 3, 4], 0, 0, 0);
    StaleRow1Sweep(a, b);
  }

  /** Row 2 and its narrowing: the band becomes [2, 4]. */
  lemma StaleRow2(a: string, b: string)
    requires StaleInput(a, b)
    ensures RowsTAsWritten(a, b, 2, 2, 1, 3, TRun([1, 1, 1, 3, 4], [0, 1, 2, 3, 4], 2, 1, 1))
         == RowsTAsWritten(a, b, 2, 3, 2, 4, TRun([2, 2, 2, 2, 4], [1, 1, 2, 3, 4], 3, 1, 2))
  {
    var r := TRun([1, 1, 1, 3, 4], [0, 1, 2, 3, 4], 2, 1, 1);
    assert r.(previousCell := r.current[0], current := r.current[0 := 2]) == TRun([2, 1, 1, 3, 4], [0, 1, 2, 3, 4], 1, 1, 1);
    StaleRow2Sweep(a, b);
  }

  /** Row 3 and its narrowing: the band stays non-empty and the answer is the
      last cell, 3. */
  lemma StaleRow3(a: string, b: string)
    requires StaleInput(a, b)
    ensures RowsTAsWritten(a, b, 2, 3, 2, 4, TRun([2, 2, 2, 2, 4], [1, 1, 2, 3, 4], 3, 1, 2)) == 3
  {
    var r := TRun([2, 2, 2, 2, 4], [1, 1, 2, 3, 4], 3, 1, 2);
    assert r.(previousCell := r.current[1], current := r.current[0 := 3]) == TRun([3, 2, 2, 2, 4], [1, 1, 2, 3, 4], 2, 1, 2);
    StaleRow3Sweep(a, b);
  }

  /** The whole run on the stale-operand input answers 3. */
  lemma StaleAnswer(a: string, b: string)
    requires StaleInput(a, b)
    ensures BoundedEditDistTAsWritten(a, b, 2) == 3
  {
    assert Iota(5) == [0, 1, 2, 3, 4];
    StaleRow1(a, b);
    StaleRow2(a, b);
    StaleRow3(a, b);
  }

  /** "cad" becomes "bcda" by inserting b and swapping the last two characters. */
  lemma StaleDistance()
    ensures Distance(Osa, "cad", "bcda") <= 2
  {
    var a, b := "cad", "bcda";
    Border(Osa, a, b, 0, 1);
    Moves(Osa, a, b, 1, 2);
    Recurrence(Osa, a, b, 3, 4);
  }

  /** "cad" against "bcda" with bound 2 answers 3, although the distance is at most 2: at cell (3, 4) the transposition
      operand previous[2] still holds row 0's 2 instead of row 1's 1. */
  lemma StalePrevious()
    ensures BoundedEditDistTAsWritten("cad", "bcda", 2) == 3
    ensures Distance(Osa, "cad", "bcda") <= 2
  {
    StaleAnswer("cad", "bcda");
    StaleDistance();
  }
}
