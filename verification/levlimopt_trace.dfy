/** A run of `levlimopt` as written, step by step, on "aabbc" against
    "bcccaabb" with bound 5.  The distance is at most 5, yet row 5 is cut short
    at column 6, where the new cell is 6 and the cell above it is 6, both above
    K = 5, and the answer is 6.  The run is given row by row: each row's buffer
    is stated entry by entry, and each row follows from its steps. */
module LevLimOptTrace {
  import opened Common
  import opened EditDistance
  import opened Prealgorithm
  import opened LevLimOpt
  import opened ValidateMax

  /** Strings spelling "aabbc" and "bcccaabb" character by character.  The trace
      lemmas take the strings as parameters constrained by this predicate rather
      than as literals, so that the solver follows the given steps instead of
      evaluating the whole computation by itself. */
  predicate TruncationInput(a: string, b: string)
  {
    && |a| == 5 && a[0] == 'a' && a[1] == 'a' && a[2] == 'b' && a[3] == 'b' && a[4] == 'c'
    && |b| == 8 && b[0] == 'b' && b[1] == 'c' && b[2] == 'c' && b[3] == 'c' && b[4] == 'a' && b[5] == 'a' && b[6] == 'b' && b[7] == 'b'
  }

  /** Column j of row i is not where the row is cut: the cell gets `current`, and
      the sweep carries the old entry and the lowered row minimum on. */
  predicate Continues<T(==)>(a: seq<T>, b: seq<T>, k: int, i: nat, j: nat, end: nat, buffer: seq<int>,
                             previousCell: int, rowMin: int, current: int, carried: int, rowMin': int)
  {
    && 1 <= i <= |a| && 1 <= j <= end <= |b| && |buffer| == |b| + 2
    && current == Least(buffer[j] + 1, buffer[j - 1] + 1, previousCell + if a[i - 1] == b[j - 1] then 0 else 1)
    && !(j > i && current > k && buffer[j] > k)
    && carried == buffer[j] && rowMin' == Min(rowMin, current)
  }

  /** One step of the row as written that is not the cut: column j gets `current`
      and the sweep goes on at j + 1 with the old entry as the carried cell. */
  lemma SweepContinues<T>(a: seq<T>, b: seq<T>, max: int, k: int, i: nat, j: nat, end: nat,
      buffer: seq<int>, previousCell: int, cell: int, rowMin: int, current: int, carried: int, rowMin': int)
    requires Continues(a, b, k, i, j, end, buffer, previousCell, rowMin, current, carried, rowMin') == true
    ensures SweepAsWritten(a, b, max, k, i, j, end, buffer, previousCell, cell, rowMin)
         == SweepAsWritten(a, b, max, k, i, j + 1, end, buffer[j := current], carried, current, rowMin')
  {
  }

  /** The step at which the row is cut short: column j gets `current`, column
      j + 1 the sentinel, and the sweep stops. */
  lemma SweepCutsShort<T>(a: seq<T>, b: seq<T>, max: int, k: int, i: nat, j: nat, end: nat,
      buffer: seq<int>, previousCell: int, cell: int, rowMin: int, current: int)
    requires 1 <= i <= |a| && 1 <= j <= end <= |b| && |buffer| == |b| + 2
    requires current == Least(buffer[j] + 1, buffer[j - 1] + 1, previousCell + if a[i - 1] == b[j - 1] then 0 else 1)
    requires j > i && current > k && buffer[j] > k
    ensures SweepAsWritten(a, b, max, k, i, j, end, buffer, previousCell, cell, rowMin)
         == RowResult(buffer[j := current][j + 1 := max + 1], current, rowMin)
  {
  }

  /** Past the band end the sweep returns its state unchanged. */
  lemma SweepEnds<T>(a: seq<T>, b: seq<T>, max: int, k: int, i: nat, j: nat, end: nat,
      buffer: seq<int>, previousCell: int, cell: int, rowMin: int)
    requires 1 <= i <= |a| && 1 <= j && end < j && end <= |b| && |buffer| == |b| + 2
    ensures SweepAsWritten(a, b, max, k, i, j, end, buffer, previousCell, cell, rowMin) == RowResult(buffer, cell, rowMin)
  {
  }

  /** The steps of row 1 with the carried cell read first on the truncation input, each column's value given. */
  lemma ReadFirstRow1Steps(a: string, b: string, x0: seq<int>, x1: seq<int>, x2: seq<int>, x3: seq<int>, x4: seq<int>, x5: seq<int>, x6: seq<int>)
    requires TruncationInput(a, b) && |x0| == 10
    requires x0[1] == 1 && x0[0] == 1 && x1 == x0[1 := 1]
          && x1[2] == 2 && x1[1] == 1 && x2 == x1[2 := 2]
          && x2[3] == 3 && x2[2] == 2 && x3 == x2[3 := 3]
          && x3[4] == 4 && x3[3] == 3 && x4 == x3[4 := 4]
          && x4[5] == 5 && x4[4] == 4 && x5 == x4[5 := 4]
          && x5[6] == 6 && x5[5] == 4 && x6 == x5[6 := 5]
    ensures SweepAsWritten(a, b, 5, 5, 1, 1, 6, x0, 0, 0, 1) == RowResult(x6, 5, 1)
  {
    SweepContinues(a, b, 5, 5, 1, 1, 6, x0, 0, 0, 1, 1, 1, 1);
    SweepContinues(a, b, 5, 5, 1, 2, 6, x1, 1, 1, 1, 2, 2, 1);
    SweepContinues(a, b, 5, 5, 1, 3, 6, x2, 2, 2, 1, 3, 3, 1);
    SweepContinues(a, b, 5, 5, 1, 4, 6, x3, 3, 3, 1, 4, 4, 1);
    SweepContinues(a, b, 5, 5, 1, 5, 6, x4, 4, 4, 1, 4, 5, 1);
    SweepContinues(a, b, 5, 5, 1, 6, 6, x5, 5, 4, 1, 5, 6, 1);
    SweepEnds(a, b, 5, 5, 1, 7, 6, x6, 6, 5, 1);
  }

  /** Row 1 with the carried cell read first on the truncation input: the buffer it leaves behind. */
  lemma ReadFirstRow1(a: string, b: string, row: seq<int>)
    requires TruncationInput(a, b)
    requires |row| == 10 && row[0] == 1 && row[1] == 1 && row[2] == 2 && row[3] == 3 && row[4] == 4 && row[5] == 5 && row[6] == 6 && row[7] == 6 && row[8] == 8
    ensures var r := SweepAsWritten(a, b, 5, 5, 1, 1, 6, row, 0, 0, 1);
            && |r.buffer| == 10 && r.buffer[0] == 1 && r.buffer[1] == 1 && r.buffer[2] == 2 && r.buffer[3] == 3 && r.buffer[4] == 4 && r.buffer[5] == 4 && r.buffer[6] == 5 && r.buffer[7] == 6 && r.buffer[8] == 8
            && r.cell == 5 && r.rowMin == 1
  {
    var x0 := row;
    var x1 := x0[1 := 1];
    var x2 := x1[2 := 2];
    var x3 := x2[3 := 3];
    var x4 := x3[4 := 4];
    var x5 := x4[5 := 4];
    var x6 := x5[6 := 5];
    ReadFirstRow1Steps(a, b, x0, x1, x2, x3, x4, x5, x6);
  }

  /** The steps of row 2 with the carried cell read first on the truncation input, each column's value given. */
  lemma ReadFirstRow2Steps(a: string, b: string, x0: seq<int>, x1: seq<int>, x2: seq<int>, x3: seq<int>, x4: seq<int>, x5: seq<int>, x6: seq<int>, x7: seq<int>)
    requires TruncationInput(a, b) && |x0| == 10
    requires x0[1] == 1 && x0[0] == 2 && x1 == x0[1 := 2]
          && x1[2] == 2 && x1[1] == 2 && x2 == x1[2 := 2]
          && x2[3] == 3 && x2[2] == 2 && x3 == x2[3 := 3]
          && x3[4] == 4 && x3[3] == 3 && x4 == x3[4 := 4]
          && x4[5] == 4 && x4[4] == 4 && x5 == x4[5 := 4]
          && x5[6] == 5 && x5[5] == 4 && x6 == x5[6 := 4]
          && x6[7] == 6 && x6[6] == 4 && x7 == x6[7 := 5]
    ensures SweepAsWritten(a, b, 5, 5, 2, 1, 7, x0, 1, 5, 2) == RowResult(x7, 5, 2)
  {
    SweepContinues(a, b, 5, 5, 2, 1, 7, x0, 1, 5, 2, 2, 1, 2);
    SweepContinues(a, b, 5, 5, 2, 2, 7, x1, 1, 2, 2, 2, 2, 2);
    SweepContinues(a, b, 5, 5, 2, 3, 7, x2, 2, 2, 2, 3, 3, 2);
    SweepContinues(a, b, 5, 5, 2, 4, 7, x3, 3, 3, 2, 4, 4, 2);
    SweepContinues(a, b, 5, 5, 2, 5, 7, x4, 4, 4, 2, 4, 4, 2);
    SweepContinues(a, b, 5, 5, 2, 6, 7, x5, 4, 4, 2, 4, 5, 2);
    SweepContinues(a, b, 5, 5, 2, 7, 7, x6, 5, 4, 2, 5, 6, 2);
    SweepEnds(a, b, 5, 5, 2, 8, 7, x7, 6, 5, 2);
  }

  /** Row 2 with the carried cell read first on the truncation input: the buffer it leaves behind. */
  lemma ReadFirstRow2(a: string, b: string, row: seq<int>)
    requires TruncationInput(a, b)
    requires |row| == 10 && row[0] == 2 && row[1] == 1 && row[2] == 2 && row[3] == 3 && row[4] == 4 && row[5] == 4 && row[6] == 5 && row[7] == 6 && row[8] == 6
    ensures var r := SweepAsWritten(a, b, 5, 5, 2, 1, 7, row, 1, 5, 2);
            && |r.buffer| == 10 && r.buffer[0] == 2 && r.buffer[1] == 2 && r.buffer[2] == 2 && r.buffer[3] == 3 && r.buffer[4] == 4 && r.buffer[5] == 4 && r.buffer[6] == 4 && r.buffer[7] == 5 && r.buffer[8] == 6
            && r.cell == 5 && r.rowMin == 2
  {
    var x0 := row;
    var x1 := x0[1 := 2];
    var x2 := x1[2 := 2];
    var x3 := x2[3 := 3];
    var x4 := x3[4 := 4];
    var x5 := x4[5 := 4];
    var x6 := x5[6 := 4];
    var x7 := x6[7 := 5];
    ReadFirstRow2Steps(a, b, x0, x1, x2, x3, x4, x5, x6, x7);
  }

  /** The steps of row 3 with the carried cell read first on the truncation input, each column's value given. */
  lemma ReadFirstRow3Steps(a: string, b: string, x0: seq<int>, x1: seq<int>, x2: seq<int>, x3: seq<int>, x4: seq<int>, x5: seq<int>, x6: seq<int>, x7: seq<int>, x8: seq<int>)
    requires TruncationInput(a, b) && |x0| == 10
    requires x0[1] == 2 && x0[0] == 3 && x1 == x0[1 := 2]
          && x1[2] == 2 && x1[1] == 2 && x2 == x1[2 := 3]
          && x2[3] == 3 && x2[2] == 3 && x3 == x2[3 := 3]
          && x3[4] == 4 && x3[3] == 3 && x4 == x3[4 := 4]
          && x4[5] == 4 && x4[4] == 4 && x5 == x4[5 := 5]
          && x5[6] == 4 && x5[5] == 5 && x6 == x5[6 := 5]
          && x6[7] == 5 && x6[6] == 5 && x7 == x6[7 := 4]
          && x7[8] == 6 && x7[7] == 4 && x8 == x7[8 := 5]
    ensures SweepAsWritten(a, b, 5, 5, 3, 1, 8, x0, 2, 5, 3) == RowResult(x8, 5, 2)
  {
    SweepContinues(a, b, 5, 5, 3, 1, 8, x0, 2, 5, 3, 2, 2, 2);
    SweepContinues(a, b, 5, 5, 3, 2, 8, x1, 2, 2, 2, 3, 2, 2);
    SweepContinues(a, b, 5, 5, 3, 3, 8, x2, 2, 3, 2, 3, 3, 2);
    SweepContinues(a, b, 5, 5, 3, 4, 8, x3, 3, 3, 2, 4, 4, 2);
    SweepContinues(a, b, 5, 5, 3, 5, 8, x4, 4, 4, 2, 5, 4, 2);
    SweepContinues(a, b, 5, 5, 3, 6, 8, x5, 4, 5, 2, 5, 4, 2);
    SweepContinues(a, b, 5, 5, 3, 7, 8, x6, 4, 5, 2, 4, 5, 2);
    SweepContinues(a, b, 5, 5, 3, 8, 8, x7, 5, 4, 2, 5, 6, 2);
    SweepEnds(a, b, 5, 5, 3, 9, 8, x8, 6, 5, 2);
  }

  /** Row 3 with the carried cell read first on the truncation input: the buffer it leaves behind. */
  lemma ReadFirstRow3(a: string, b: string, row: seq<int>)
    requires TruncationInput(a, b)
    requires |row| == 10 && row[0] == 3 && row[1] == 2 && row[2] == 2 && row[3] == 3 && row[4] == 4 && row[5] == 4 && row[6] == 4 && row[7] == 5 && row[8] == 6
    ensures var r := SweepAsWritten(a, b, 5, 5, 3, 1, 8, row, 2, 5, 3);
            && |r.buffer| == 10 && r.buffer[0] == 3 && r.buffer[1] == 2 && r.buffer[2] == 3 && r.buffer[3] == 3 && r.buffer[4] == 4 && r.buffer[5] == 5 && r.buffer[6] == 5 && r.buffer[7] == 4 && r.buffer[8] == 5
            && r.cell == 5 && r.rowMin == 2
  {
    var x0 := row;
    var x1 := x0[1 := 2];
    var x2 := x1[2 := 3];
    var x3 := x2[3 := 3];
    var x4 := x3[4 := 4];
    var x5 := x4[5 := 5];
    var x6 := x5[6 := 5];
    var x7 := x6[7 := 4];
    var x8 := x7[8 := 5];
    ReadFirstRow3Steps(a, b, x0, x1, x2, x3, x4, x5, x6, x7, x8);
  }

  /** The steps of row 4 with the carried cell read first on the truncation input, each column's value given. */
  lemma ReadFirstRow4Steps(a: string, b: string, x0: seq<int>, x1: seq<int>, x2: seq<int>, x3: seq<int>, x4: seq<int>, x5: seq<int>, x6: seq<int>, x7: seq<int>, x8: seq<int>)
    requires TruncationInput(a, b) && |x0| == 10
    requires x0[1] == 2 && x0[0] == 4 && x1 == x0[1 := 3]
          && x1[2] == 3 && x1[1] == 3 && x2 == x1[2 := 3]
          && x2[3] == 3 && x2[2] == 3 && x3 == x2[3 := 4]
          && x3[4] == 4 && x3[3] == 4 && x4 == x3[4 := 4]
          && x4[5] == 5 && x4[4] == 4 && x5 == x4[5 := 5]
          && x5[6] == 5 && x5[5] == 5 && x6 == x5[6 := 6]
          && x6[7] == 4 && x6[6] == 6 && x7 == x6[7 := 5]
          && x7[8] == 5 && x7[7] == 5 && x8 == x7[8 := 4]
    ensures SweepAsWritten(a, b, 5, 5, 4, 1, 8, x0, 3, 5, 4) == RowResult(x8, 4, 3)
  {
    SweepContinues(a, b, 5, 5, 4, 1, 8, x0, 3, 5, 4, 3, 2, 3);
    SweepContinues(a, b, 5, 5, 4, 2, 8, x1, 2, 3, 3, 3, 3, 3);
    SweepContinues(a, b, 5, 5, 4, 3, 8, x2, 3, 3, 3, 4, 3, 3);
    SweepContinues(a, b, 5, 5, 4, 4, 8, x3, 3, 4, 3, 4, 4, 3);
    SweepContinues(a, b, 5, 5, 4, 5, 8, x4, 4, 4, 3, 5, 5, 3);
    SweepContinues(a, b, 5, 5, 4, 6, 8, x5, 5, 5, 3, 6, 5, 3);
    SweepContinues(a, b, 5, 5, 4, 7, 8, x6, 5, 6, 3, 5, 4, 3);
    SweepContinues(a, b, 5, 5, 4, 8, 8, x7, 4, 5, 3, 4, 5, 3);
    SweepEnds(a, b, 5, 5, 4, 9, 8, x8, 5, 4, 3);
  }

  /** Row 4 with the carried cell read first on the truncation input: the buffer it leaves behind. */
  lemma ReadFirstRow4(a: string, b: string, row: seq<int>)
    requires TruncationInput(a, b)
    requires |row| == 10 && row[0] == 4 && row[1] == 2 && row[2] == 3 && row[3] == 3 && row[4] == 4 && row[5] == 5 && row[6] == 5 && row[7] == 4 && row[8] == 5
    ensures var r := SweepAsWritten(a, b, 5, 5, 4, 1, 8, row, 3, 5, 4);
            && |r.buffer| == 10 && r.buffer[0] == 4 && r.buffer[1] == 3 && r.buffer[2] == 3 && r.buffer[3] == 4 && r.buffer[4] == 4 && r.buffer[5] == 5 && r.buffer[6] == 6 && r.buffer[7] == 5 && r.buffer[8] == 4
            && r.cell == 4 && r.rowMin == 3
  {
    var x0 := row;
    var x1 := x0[1 := 3];
    var x2 := x1[2 := 3];
    var x3 := x2[3 := 4];
    var x4 := x3[4 := 4];
    var x5 := x4[5 := 5];
    var x6 := x5[6 := 6];
    var x7 := x6[7 := 5];
    var x8 := x7[8 := 4];
    ReadFirstRow4Steps(a, b, x0, x1, x2, x3, x4, x5, x6, x7, x8);
  }

  /** The steps of row 5 with the carried cell read first on the truncation input, each column's value given. */
  lemma ReadFirstRow5Steps(a: string, b: string, x0: seq<int>, x1: seq<int>, x2: seq<int>, x3: seq<int>)
    requires TruncationInput(a, b) && |x0| == 10
    requires x0[3] == 4 && x0[2] == 6 && x1 == x0[3 := 3]
          && x1[4] == 4 && x1[3] == 3 && x2 == x1[4 := 4]
          && x2[5] == 5 && x2[4] == 4 && x3 == x2[5 := 5]
          && x3[6] == 6 && x3[5] == 5
    ensures SweepAsWritten(a, b, 5, 5, 5, 3, 8, x0, 3, 4, 5) == RowResult(x3[6 := 6][7 := 5 + 1], 6, 3)
  {
    SweepContinues(a, b, 5, 5, 5, 3, 8, x0, 3, 4, 5, 3, 4, 3);
    SweepContinues(a, b, 5, 5, 5, 4, 8, x1, 4, 3, 3, 4, 4, 3);
    SweepContinues(a, b, 5, 5, 5, 5, 8, x2, 4, 4, 3, 5, 5, 3);
    SweepCutsShort(a, b, 5, 5, 5, 6, 8, x3, 5, 5, 3, 6);
  }

  /** Row 5 with the carried cell read first on the truncation input: the buffer it leaves behind. */
  lemma ReadFirstRow5(a: string, b: string, row: seq<int>)
    requires TruncationInput(a, b)
    requires |row| == 10 && row[0] == 5 && row[1] == 3 && row[2] == 6 && row[3] == 4 && row[4] == 4 && row[5] == 5 && row[6] == 6 && row[7] == 5 && row[8] == 4
    ensures var r := SweepAsWritten(a, b, 5, 5, 5, 3, 8, row, 3, 4, 5);
            && |r.buffer| == 10 && r.buffer[0] == 5 && r.buffer[1] == 3 && r.buffer[2] == 6 && r.buffer[3] == 3 && r.buffer[4] == 4 && r.buffer[5] == 5 && r.buffer[6] == 6 && r.buffer[7] == 6 && r.buffer[8] == 4
            && r.cell == 6 && r.rowMin == 3
  {
    var x0 := row;
    var x1 := x0[3 := 3];
    var x2 := x1[4 := 4];
    var x3 := x2[5 := 5];
    ReadFirstRow5Steps(a, b, x0, x1, x2, x3);
  }

  /** The steps of row 1 as written on the truncation input, each column's value given. */
  lemma AsWrittenRow1Steps(a: string, b: string, x0: seq<int>, x1: seq<int>, x2: seq<int>, x3: seq<int>, x4: seq<int>, x5: seq<int>, x6: seq<int>)
    requires TruncationInput(a, b) && |x0| == 10
    requires x0[1] == 1 && x0[0] == 1 && x1 == x0[1 := 2]
          && x1[2] == 2 && x1[1] == 2 && x2 == x1[2 := 2]
          && x2[3] == 3 && x2[2] == 2 && x3 == x2[3 := 3]
          && x3[4] == 4 && x3[3] == 3 && x4 == x3[4 := 4]
          && x4[5] == 5 && x4[4] == 4 && x5 == x4[5 := 4]
          && x5[6] == 6 && x5[5] == 4 && x6 == x5[6 := 5]
    ensures SweepAsWritten(a, b, 5, 5, 1, 1, 6, x0, 1, 0, 1) == RowResult(x6, 5, 1)
  {
    SweepContinues(a, b, 5, 5, 1, 1, 6, x0, 1, 0, 1, 2, 1, 1);
    SweepContinues(a, b, 5, 5, 1, 2, 6, x1, 1, 2, 1, 2, 2, 1);
    SweepContinues(a, b, 5, 5, 1, 3, 6, x2, 2, 2, 1, 3, 3, 1);
    SweepContinues(a, b, 5, 5, 1, 4, 6, x3, 3, 3, 1, 4, 4, 1);
    SweepContinues(a, b, 5, 5, 1, 5, 6, x4, 4, 4, 1, 4, 5, 1);
    SweepContinues(a, b, 5, 5, 1, 6, 6, x5, 5, 4, 1, 5, 6, 1);
    SweepEnds(a, b, 5, 5, 1, 7, 6, x6, 6, 5, 1);
  }

  /** Row 1 as written on the truncation input: the buffer it leaves behind. */
  lemma AsWrittenRow1(a: string, b: string, row: seq<int>)
    requires TruncationInput(a, b)
    requires |row| == 10 && row[0] == 1 && row[1] == 1 && row[2] == 2 && row[3] == 3 && row[4] == 4 && row[5] == 5 && row[6] == 6 && row[7] == 6 && row[8] == 8
    ensures var r := SweepAsWritten(a, b, 5, 5, 1, 1, 6, row, 1, 0, 1);
            && |r.buffer| == 10 && r.buffer[0] == 1 && r.buffer[1] == 2 && r.buffer[2] == 2 && r.buffer[3] == 3 && r.buffer[4] == 4 && r.buffer[5] == 4 && r.buffer[6] == 5 && r.buffer[7] == 6 && r.buffer[8] == 8
            && r.cell == 5 && r.rowMin == 1
  {
    var x0 := row;
    var x1 := x0[1 := 2];
    var x2 := x1[2 := 2];
    var x3 := x2[3 := 3];
    var x4 := x3[4 := 4];
    var x5 := x4[5 := 4];
    var x6 := x5[6 := 5];
    AsWrittenRow1Steps(a, b, x0, x1, x2, x3, x4, x5, x6);
  }

  /** The steps of row 2 as written on the truncation input, each column's value given. */
  lemma AsWrittenRow2Steps(a: string, b: string, x0: seq<int>, x1: seq<int>, x2: seq<int>, x3: seq<int>, x4: seq<int>, x5: seq<int>, x6: seq<int>, x7: seq<int>)
    requires TruncationInput(a, b) && |x0| == 10
    requires x0[1] == 2 && x0[0] == 2 && x1 == x0[1 := 3]
          && x1[2] == 2 && x1[1] == 3 && x2 == x1[2 := 3]
          && x2[3] == 3 && x2[2] == 3 && x3 == x2[3 := 3]
          && x3[4] == 4 && x3[3] == 3 && x4 == x3[4 := 4]
          && x4[5] == 4 && x4[4] == 4 && x5 == x4[5 := 4]
          && x5[6] == 5 && x5[5] == 4 && x6 == x5[6 := 4]
          && x6[7] == 6 && x6[6] == 4 && x7 == x6[7 := 5]
    ensures SweepAsWritten(a, b, 5, 5, 2, 1, 7, x0, 2, 5, 2) == RowResult(x7, 5, 2)
  {
    SweepContinues(a, b, 5, 5, 2, 1, 7, x0, 2, 5, 2, 3, 2, 2);
    SweepContinues(a, b, 5, 5, 2, 2, 7, x1, 2, 3, 2, 3, 2, 2);
    SweepContinues(a, b, 5, 5, 2, 3, 7, x2, 2, 3, 2, 3, 3, 2);
    SweepContinues(a, b, 5, 5, 2, 4, 7, x3, 3, 3, 2, 4, 4, 2);
    SweepContinues(a, b, 5, 5, 2, 5, 7, x4, 4, 4, 2, 4, 4, 2);
    SweepContinues(a, b, 5, 5, 2, 6, 7, x5, 4, 4, 2, 4, 5, 2);
    SweepContinues(a, b, 5, 5, 2, 7, 7, x6, 5, 4, 2, 5, 6, 2);
    SweepEnds(a, b, 5, 5, 2, 8, 7, x7, 6, 5, 2);
  }

  /** Row 2 as written on the truncation input: the buffer it leaves behind. */
  lemma AsWrittenRow2(a: string, b: string, row: seq<int>)
    requires TruncationInput(a, b)
    requires |row| == 10 && row[0] == 2 && row[1] == 2 && row[2] == 2 && row[3] == 3 && row[4] == 4 && row[5] == 4 && row[6] == 5 && row[7] == 6 && row[8] == 6
    ensures var r := SweepAsWritten(a, b, 5, 5, 2, 1, 7, row, 2, 5, 2);
            && |r.buffer| == 10 && r.buffer[0] == 2 && r.buffer[1] == 3 && r.buffer[2] == 3 && r.buffer[3] == 3 && r.buffer[4] == 4 && r.buffer[5] == 4 && r.buffer[6] == 4 && r.buffer[7] == 5 && r.buffer[8] == 6
            && r.cell == 5 && r.rowMin == 2
  {
    var x0 := row;
    var x1 := x0[1 := 3];
    var x2 := x1[2 := 3];
    var x3 := x2[3 := 3];
    var x4 := x3[4 := 4];
    var x5 := x4[5 := 4];
    var x6 := x5[6 := 4];
    var x7 := x6[7 := 5];
    AsWrittenRow2Steps(a, b, x0, x1, x2, x3, x4, x5, x6, x7);
  }

  /** The steps of row 3 as written on the truncation input, each column's value given. */
  lemma AsWrittenRow3Steps(a: string, b: string, x0: seq<int>, x1: seq<int>, x2: seq<int>, x3: seq<int>, x4: seq<int>, x5: seq<int>, x6: seq<int>, x7: seq<int>, x8: seq<int>)
    requires TruncationInput(a, b) && |x0| == 10
    requires x0[1] == 3 && x0[0] == 3 && x1 == x0[1 := 3]
          && x1[2] == 3 && x1[1] == 3 && x2 == x1[2 := 4]
          && x2[3] == 3 && x2[2] == 4 && x3 == x2[3 := 4]
          && x3[4] == 4 && x3[3] == 4 && x4 == x3[4 := 4]
          && x4[5] == 4 && x4[4] == 4 && x5 == x4[5 := 5]
          && x5[6] == 4 && x5[5] == 5 && x6 == x5[6 := 5]
          && x6[7] == 5 && x6[6] == 5 && x7 == x6[7 := 4]
          && x7[8] == 6 && x7[7] == 4 && x8 == x7[8 := 5]
    ensures SweepAsWritten(a, b, 5, 5, 3, 1, 8, x0, 3, 5, 3) == RowResult(x8, 5, 3)
  {
    SweepContinues(a, b, 5, 5, 3, 1, 8, x0, 3, 5, 3, 3, 3, 3);
    SweepContinues(a, b, 5, 5, 3, 2, 8, x1, 3, 3, 3, 4, 3, 3);
    SweepContinues(a, b, 5, 5, 3, 3, 8, x2, 3, 4, 3, 4, 3, 3);
    SweepContinues(a, b, 5, 5, 3, 4, 8, x3, 3, 4, 3, 4, 4, 3);
    SweepContinues(a, b, 5, 5, 3, 5, 8, x4, 4, 4, 3, 5, 4, 3);
    SweepContinues(a, b, 5, 5, 3, 6, 8, x5, 4, 5, 3, 5, 4, 3);
    SweepContinues(a, b, 5, 5, 3, 7, 8, x6, 4, 5, 3, 4, 5, 3);
    SweepContinues(a, b, 5, 5, 3, 8, 8, x7, 5, 4, 3, 5, 6, 3);
    SweepEnds(a, b, 5, 5, 3, 9, 8, x8, 6, 5, 3);
  }

  /** Row 3 as written on the truncation input: the buffer it leaves behind. */
  lemma AsWrittenRow3(a: string, b: string, row: seq<int>)
    requires TruncationInput(a, b)
    requires |row| == 10 && row[0] == 3 && row[1] == 3 && row[2] == 3 && row[3] == 3 && row[4] == 4 && row[5] == 4 && row[6] == 4 && row[7] == 5 && row[8] == 6
    ensures var r := SweepAsWritten(a, b, 5, 5, 3, 1, 8, row, 3, 5, 3);
            && |r.buffer| == 10 && r.buffer[0] == 3 && r.buffer[1] == 3 && r.buffer[2] == 4 && r.buffer[3] == 4 && r.buffer[4] == 4 && r.buffer[5] == 5 && r.buffer[6] == 5 && r.buffer[7] == 4 && r.buffer[8] == 5
            && r.cell == 5 && r.rowMin == 3
  {
    var x0 := row;
    var x1 := x0[1 := 3];
    var x2 := x1[2 := 4];
    var x3 := x2[3 := 4];
    var x4 := x3[4 := 4];
    var x5 := x4[5 := 5];
    var x6 := x5[6 := 5];
    var x7 := x6[7 := 4];
    var x8 := x7[8 := 5];
    AsWrittenRow3Steps(a, b, x0, x1, x2, x3, x4, x5, x6, x7, x8);
  }

  /** The steps of row 4 as written on the truncation input, each column's value given. */
  lemma AsWrittenRow4Steps(a: string, b: string, x0: seq<int>, x1: seq<int>, x2: seq<int>, x3: seq<int>, x4: seq<int>, x5: seq<int>, x6: seq<int>, x7: seq<int>)
    requires TruncationInput(a, b) && |x0| == 10
    requires x0[2] == 4 && x0[1] == 6 && x1 == x0[2 := 4]
          && x1[3] == 4 && x1[2] == 4 && x2 == x1[3 := 5]
          && x2[4] == 4 && x2[3] == 5 && x3 == x2[4 := 5]
          && x3[5] == 5 && x3[4] == 5 && x4 == x3[5 := 5]
          && x4[6] == 5 && x4[5] == 5 && x5 == x4[6 := 6]
          && x5[7] == 4 && x5[6] == 6 && x6 == x5[7 := 5]
          && x6[8] == 5 && x6[7] == 5 && x7 == x6[8 := 4]
    ensures SweepAsWritten(a, b, 5, 5, 4, 2, 8, x0, 3, 5, 4) == RowResult(x7, 4, 4)
  {
    SweepContinues(a, b, 5, 5, 4, 2, 8, x0, 3, 5, 4, 4, 4, 4);
    SweepContinues(a, b, 5, 5, 4, 3, 8, x1, 4, 4, 4, 5, 4, 4);
    SweepContinues(a, b, 5, 5, 4, 4, 8, x2, 4, 5, 4, 5, 4, 4);
    SweepContinues(a, b, 5, 5, 4, 5, 8, x3, 4, 5, 4, 5, 5, 4);
    SweepContinues(a, b, 5, 5, 4, 6, 8, x4, 5, 5, 4, 6, 5, 4);
    SweepContinues(a, b, 5, 5, 4, 7, 8, x5, 5, 6, 4, 5, 4, 4);
    SweepContinues(a, b, 5, 5, 4, 8, 8, x6, 4, 5, 4, 4, 5, 4);
    SweepEnds(a, b, 5, 5, 4, 9, 8, x7, 5, 4, 4);
  }

  /** Row 4 as written on the truncation input: the buffer it leaves behind. */
  lemma AsWrittenRow4(a: string, b: string, row: seq<int>)
    requires TruncationInput(a, b)
    requires |row| == 10 && row[0] == 4 && row[1] == 6 && row[2] == 4 && row[3] == 4 && row[4] == 4 && row[5] == 5 && row[6] == 5 && row[7] == 4 && row[8] == 5
    ensures var r := SweepAsWritten(a, b, 5, 5, 4, 2, 8, row, 3, 5, 4);
            && |r.buffer| == 10 && r.buffer[0] == 4 && r.buffer[1] == 6 && r.buffer[2] == 4 && r.buffer[3] == 5 && r.buffer[4] == 5 && r.buffer[5] == 5 && r.buffer[6] == 6 && r.buffer[7] == 5 && r.buffer[8] == 4
            && r.cell == 4 && r.rowMin == 4
  {
    var x0 := row;
    var x1 := x0[2 := 4];
    var x2 := x1[3 := 5];
    var x3 := x2[4 := 5];
    var x4 := x3[5 := 5];
    var x5 := x4[6 := 6];
    var x6 := x5[7 := 5];
    var x7 := x6[8 := 4];
    AsWrittenRow4Steps(a, b, x0, x1, x2, x3, x4, x5, x6, x7);
  }

  /** The steps of row 5 as written on the truncation input, each column's value given. */
  lemma AsWrittenRow5Steps(a: string, b: string, x0: seq<int>, x1: seq<int>, x2: seq<int>)
    requires TruncationInput(a, b) && |x0| == 10
    requires x0[4] == 5 && x0[3] == 6 && x1 == x0[4 := 5]
          && x1[5] == 5 && x1[4] == 5 && x2 == x1[5 := 6]
          && x2[6] == 6 && x2[5] == 6
    ensures SweepAsWritten(a, b, 5, 5, 5, 4, 8, x0, 5, 4, 5) == RowResult(x2[6 := 6][7 := 5 + 1], 6, 5)
  {
    SweepContinues(a, b, 5, 5, 5, 4, 8, x0, 5, 4, 5, 5, 5, 5);
    SweepContinues(a, b, 5, 5, 5, 5, 8, x1, 5, 5, 5, 6, 5, 5);
    SweepCutsShort(a, b, 5, 5, 5, 6, 8, x2, 5, 6, 5, 6);
  }

  /** Row 5 as written on the truncation input: the buffer it leaves behind. */
  lemma AsWrittenRow5(a: string, b: string, row: seq<int>)
    requires TruncationInput(a, b)
    requires |row| == 10 && row[0] == 5 && row[1] == 6 && row[2] == 4 && row[3] == 6 && row[4] == 5 && row[5] == 5 && row[6] == 6 && row[7] == 5 && row[8] == 4
    ensures var r := SweepAsWritten(a, b, 5, 5, 5, 4, 8, row, 5, 4, 5);
            && |r.buffer| == 10 && r.buffer[0] == 5 && r.buffer[1] == 6 && r.buffer[2] == 4 && r.buffer[3] == 6 && r.buffer[4] == 5 && r.buffer[5] == 6 && r.buffer[6] == 6 && r.buffer[7] == 6 && r.buffer[8] == 4
            && r.cell == 6 && r.rowMin == 5
  {
    var x0 := row;
    var x1 := x0[4 := 5];
    var x2 := x1[5 := 6];
    AsWrittenRow5Steps(a, b, x0, x1, x2);
  }

  /** Rows 1 to 5 with the carried cell read first on the truncation input answer 6. */
  lemma ReadFirstFrom1(a: string, b: string, buffer: seq<int>)
    requires TruncationInput(a, b)
    requires |buffer| == 10 && buffer[0] == 0 && buffer[1] == 1 && buffer[2] == 2 && buffer[3] == 3 && buffer[4] == 4 && buffer[5] == 5 && buffer[6] == 6 && buffer[7] == 7 && buffer[8] == 8
    ensures RowsAsWritten(a, b, 5, 5, true, 1, buffer, 0, 0) == 6
  {
    var row := buffer[0 := 1][7 := 6];
    ReadFirstRow1(a, b, row);
    ReadFirstFrom2(a, b, SweepAsWritten(a, b, 5, 5, 1, 1, 6, row, 0, 0, 1).buffer);
  }

  /** Rows 2 to 5 with the carried cell read first on the truncation input answer 6. */
  lemma ReadFirstFrom2(a: string, b: string, buffer: seq<int>)
    requires TruncationInput(a, b)
    requires |buffer| == 10 && buffer[0] == 1 && buffer[1] == 1 && buffer[2] == 2 && buffer[3] == 3 && buffer[4] == 4 && buffer[5] == 4 && buffer[6] == 5 && buffer[7] == 6 && buffer[8] == 8
    ensures RowsAsWritten(a, b, 5, 5, true, 2, buffer, 1, 5) == 6
  {
    var row := buffer[0 := 2][8 := 6];
    ReadFirstRow2(a, b, row);
    ReadFirstFrom3(a, b, SweepAsWritten(a, b, 5, 5, 2, 1, 7, row, 1, 5, 2).buffer);
  }

  /** Rows 3 to 5 with the carried cell read first on the truncation input answer 6. */
  lemma ReadFirstFrom3(a: string, b: string, buffer: seq<int>)
    requires TruncationInput(a, b)
    requires |buffer| == 10 && buffer[0] == 2 && buffer[1] == 2 && buffer[2] == 2 && buffer[3] == 3 && buffer[4] == 4 && buffer[5] == 4 && buffer[6] == 4 && buffer[7] == 5 && buffer[8] == 6
    ensures RowsAsWritten(a, b, 5, 5, true, 3, buffer, 2, 5) == 6
  {
    var row := buffer[0 := 3];
    ReadFirstRow3(a, b, row);
    ReadFirstFrom4(a, b, SweepAsWritten(a, b, 5, 5, 3, 1, 8, row, 2, 5, 3).buffer);
  }

  /** Rows 4 to 5 with the carried cell read first on the truncation input answer 6. */
  lemma ReadFirstFrom4(a: string, b: string, buffer: seq<int>)
    requires TruncationInput(a, b)
    requires |buffer| == 10 && buffer[0] == 3 && buffer[1] == 2 && buffer[2] == 3 && buffer[3] == 3 && buffer[4] == 4 && buffer[5] == 5 && buffer[6] == 5 && buffer[7] == 4 && buffer[8] == 5
    ensures RowsAsWritten(a, b, 5, 5, true, 4, buffer, 2, 5) == 6
  {
    var row := buffer[0 := 4];
    ReadFirstRow4(a, b, row);
    ReadFirstFrom5(a, b, SweepAsWritten(a, b, 5, 5, 4, 1, 8, row, 3, 5, 4).buffer);
  }

  /** Rows 5 to 5 with the carried cell read first on the truncation input answer 6. */
  lemma ReadFirstFrom5(a: string, b: string, buffer: seq<int>)
    requires TruncationInput(a, b)
    requires |buffer| == 10 && buffer[0] == 4 && buffer[1] == 3 && buffer[2] == 3 && buffer[3] == 4 && buffer[4] == 4 && buffer[5] == 5 && buffer[6] == 6 && buffer[7] == 5 && buffer[8] == 4
    ensures RowsAsWritten(a, b, 5, 5, true, 5, buffer, 3, 4) == 6
  {
    var row := buffer[0 := 5][2 := 6];
    ReadFirstRow5(a, b, row);
  }

  /** Rows 1 to 5 as written on the truncation input answer 6. */
  lemma AsWrittenFrom1(a: string, b: string, buffer: seq<int>)
    requires TruncationInput(a, b)
    requires |buffer| == 10 && buffer[0] == 0 && buffer[1] == 1 && buffer[2] == 2 && buffer[3] == 3 && buffer[4] == 4 && buffer[5] == 5 && buffer[6] == 6 && buffer[7] == 7 && buffer[8] == 8
    ensures RowsAsWritten(a, b, 5, 5, false, 1, buffer, 0, 0) == 6
  {
    var row := buffer[0 := 1][7 := 6];
    AsWrittenRow1(a, b, row);
    AsWrittenFrom2(a, b, SweepAsWritten(a, b, 5, 5, 1, 1, 6, row, 1, 0, 1).buffer);
  }

  /** Rows 2 to 5 as written on the truncation input answer 6. */
  lemma AsWrittenFrom2(a: string, b: string, buffer: seq<int>)
    requires TruncationInput(a, b)
    requires |buffer| == 10 && buffer[0] == 1 && buffer[1] == 2 && buffer[2] == 2 && buffer[3] == 3 && buffer[4] == 4 && buffer[5] == 4 && buffer[6] == 5 && buffer[7] == 6 && buffer[8] == 8
    ensures RowsAsWritten(a, b, 5, 5, false, 2, buffer, 1, 5) == 6
  {
    var row := buffer[0 := 2][8 := 6];
    AsWrittenRow2(a, b, row);
    AsWrittenFrom3(a, b, SweepAsWritten(a, b, 5, 5, 2, 1, 7, row, 2, 5, 2).buffer);
  }

  /** Rows 3 to 5 as written on the truncation input answer 6. */
  lemma AsWrittenFrom3(a: string, b: string, buffer: seq<int>)
    requires TruncationInput(a, b)
    requires |buffer| == 10 && buffer[0] == 2 && buffer[1] == 3 && buffer[2] == 3 && buffer[3] == 3 && buffer[4] == 4 && buffer[5] == 4 && buffer[6] == 4 && buffer[7] == 5 && buffer[8] == 6
    ensures RowsAsWritten(a, b, 5, 5, false, 3, buffer, 2, 5) == 6
  {
    var row := buffer[0 := 3];
    AsWrittenRow3(a, b, row);
    AsWrittenFrom4(a, b, SweepAsWritten(a, b, 5, 5, 3, 1, 8, row, 3, 5, 3).buffer);
  }

  /** Rows 4 to 5 as written on the truncation input answer 6. */
  lemma AsWrittenFrom4(a: string, b: string, buffer: seq<int>)
    requires TruncationInput(a, b)
    requires |buffer| == 10 && buffer[0] == 3 && buffer[1] == 3 && buffer[2] == 4 && buffer[3] == 4 && buffer[4] == 4 && buffer[5] == 5 && buffer[6] == 5 && buffer[7] == 4 && buffer[8] == 5
    ensures RowsAsWritten(a, b, 5, 5, false, 4, buffer, 3, 5) == 6
  {
    var row := buffer[0 := 4][1 := 6];
    AsWrittenRow4(a, b, row);
    AsWrittenFrom5(a, b, SweepAsWritten(a, b, 5, 5, 4, 2, 8, row, 3, 5, 4).buffer);
  }

  /** Rows 5 to 5 as written on the truncation input answer 6. */
  lemma AsWrittenFrom5(a: string, b: string, buffer: seq<int>)
    requires TruncationInput(a, b)
    requires |buffer| == 10 && buffer[0] == 4 && buffer[1] == 6 && buffer[2] == 4 && buffer[3] == 5 && buffer[4] == 5 && buffer[5] == 5 && buffer[6] == 6 && buffer[7] == 5 && buffer[8] == 4
    ensures RowsAsWritten(a, b, 5, 5, false, 5, buffer, 4, 4) == 6
  {
    var row := buffer[0 := 5][3 := 6];
    AsWrittenRow5(a, b, row);
  }

  /** The five rows on the truncation input end with 6, for either read order. */
  lemma TruncatedRows(a: string, b: string, readFirst: bool)
    requires TruncationInput(a, b)
    ensures RowsAsWritten(a, b, 5, 5, readFirst, 1, Iota(10), 0, 0) == 6
  {
    if readFirst { ReadFirstFrom1(a, b, Iota(10)); } else { AsWrittenFrom1(a, b, Iota(10)); }
  }

  /** The pre-algorithm hands both strings over unchanged: no common prefix or
      suffix, the shorter first, and a length difference of 3 within the bound. */
  lemma TruncationPrepared(a: string, b: string)
    requires TruncationInput(a, b)
    ensures Prepare(Value(a), Value(b), 5, true) == Run(a, b)
  {
    assert CommonPrefix(a, b) == 0;
    assert a[0..] == a && b[0..] == b;
    assert CommonSuffix(a, b) == 0;
    assert a[0..|a| - 0] == a && b[0..|b| - 0] == b;
    assert Trim(a, b) == (a, b);
  }

  /** Both read orders of the carried cell answer 6 on the truncation input. */
  lemma TruncationAnswer(a: string, b: string, readFirst: bool)
    requires TruncationInput(a, b)
    ensures LevLimOptWith(Value(a), Value(b), Some(5), ReturnZero, readFirst) == Ok(6)
  {
    assert ValidateMaxAsWritten(Some(5), Min(5, MaxEditDist), ReturnZero) == Accepted(5) by {
      Int32Keeps(5);
    }
    TruncationPrepared(a, b);
    TruncatedRows(a, b, readFirst);
  }

  /** On "aabbc" against "bcccaabb" with bound 5, the function answers 6, and so
      does the variant that reads the carried cell first. */
  lemma RowCutShortAnswers()
    ensures LevLimOptWith(Value("aabbc"), Value("bcccaabb"), Some(5), ReturnZero, true) == Ok(6)
    ensures LevLimOptAsWritten(Value("aabbc"), Value("bcccaabb"), Some(5), ReturnZero) == Ok(6)
  {
    TruncationAnswer("aabbc", "bcccaabb", true);
    TruncationAnswer("aabbc", "bcccaabb", false);
  }

  /** The distance in the truncation counterexample is within the bound: insert
      "bccc", match "aabb", delete "c". */
  lemma RowCutShortDistance()
    ensures Distance(Levenshtein, "aabbc", "bcccaabb") <= 5
  {
    var a, b := "aabbc", "bcccaabb";
    Border(Levenshtein, a, b, 0, 4);
    Moves(Levenshtein, a, b, 1, 5);
    Moves(Levenshtein, a, b, 2, 6);
    Moves(Levenshtein, a, b, 3, 7);
    Moves(Levenshtein, a, b, 4, 8);
    Moves(Levenshtein, a, b, 5, 8);
  }

  /** The truncation counterexample: "aabbc" and "bcccaabb" are within distance 5,
      the bound, yet both the as-written function and the variant that reads the
      carried cell first answer 6, the value for "more than 5". */
  lemma RowCutShort()
    ensures Distance(Levenshtein, "aabbc", "bcccaabb") <= 5
    ensures LevLimOptWith(Value("aabbc"), Value("bcccaabb"), Some(5), ReturnZero, true) == Ok(6)
    ensures LevLimOptAsWritten(Value("aabbc"), Value("bcccaabb"), Some(5), ReturnZero) == Ok(6)
  {
    RowCutShortDistance();
    RowCutShortAnswers();
  }
}
