/** The two banded matrices of the reference tool: `levbanded`, the fixed band
    of radius K with a row-minimum exit, and `levbandedopt`, the adaptive band.
    Both fill the same matrix as `levenshtein_distance` (see `Reference`), with the
    sentinel K + 1 one column outside the band, and both are answered by the last
    cell of the matrix.  The tool expects the second string to be the longer. */
module MatrixTool {
  import opened EditDistance
  import opened Band
  import opened Cells
  import opened AdaptiveLoop
  import opened LevFixedBand
  import opened MatrixBandLoop

  // ---------------------------------------------------------------------------
  // levbanded, as written

  /** The band of row i filled left to right from row i-1: up, left and diagonal
      neighbours as in the full matrix. */
  function FillAsWritten<T(==)>(a: seq<T>, b: seq<T>, i: nat, j: nat, end: nat, prev: seq<int>, row: seq<int>)
    : (r: seq<int>)
    requires 1 <= i <= |a| && 1 <= j && end <= |b| && |prev| == |b| + 1 && |row| == |b| + 1
    ensures |r| == |row|
    decreases end + 1 - j
  {
    if j > end then row
    else
      var cell := Least(prev[j] + 1, row[j - 1] + 1, prev[j - 1] + Cost(a, b, i, j));
      FillAsWritten(a, b, i, j + 1, end, prev, row[j := cell])
  }

  /** Row i of `levbanded`'s matrix: i in column 0, K + 1 just outside the fixed
      band [max(1, i - K), min(m, i + K)], the band filled, 0 elsewhere. */
  function BandedRowAsWritten<T(==)>(a: seq<T>, b: seq<T>, k: nat, i: nat, prev: seq<int>): (row: seq<int>)
    requires 1 <= i <= |a| <= |b| && |prev| == |b| + 1
    ensures |row| == |b| + 1
  {
    var start, end := BandStart(i, k), BandEnd(i, k, |b|);
    var blank := seq(|b| + 1, p => if p == 0 then i else if p == start - 1 || p == end + 1 then k + 1 else 0);
    FillAsWritten(a, b, i, start, end, prev, blank)
  }

  /** The running row minimum of `levbanded`: `least` lowered by the band cells. */
  function RowMinAsWritten(row: seq<int>, j: nat, end: nat, least: int): int
    requires end < |row|
    decreases end + 1 - j
  {
    if j > end then least else RowMinAsWritten(row, j + 1, end, Min(least, row[j]))
  }

  /** Rows i to n of `levbanded`, answering with the last cell: a row whose minimum,
      started at max(i, m - n), exceeds K sets the last cell to K + 1 and stops. */
  function RowsAsWritten<T(==)>(a: seq<T>, b: seq<T>, k: nat, i: nat, prev: seq<int>): int
    requires 1 <= i <= |a| + 1 && |a| <= |b| && |prev| == |b| + 1
    decreases |a| + 1 - i
  {
    if i > |a| then prev[|b|]
    else
      var row := BandedRowAsWritten(a, b, k, i, prev);
      if RowMinAsWritten(row, BandStart(i, k), BandEnd(i, k, |b|), Max(i, |b| - |a|)) > k then k + 1
      else RowsAsWritten(a, b, k, i + 1, row)
  }

  /** The last cell of `levbanded`'s matrix, as written. */
  function LevBandedAsWritten<T(==)>(a: seq<T>, b: seq<T>, k: nat): int
    requires |a| <= |b|
  {
    RowsAsWritten(a, b, k, 1, Iota(|b| + 1))
  }

  /** The inputs of the run below: one character against three, the first ones equal. */
  predicate GapInput<T(==)>(a: seq<T>, b: seq<T>)
  {
    |a| == 1 && |b| == 3 && a[0] == b[0]
  }

  /** The run of `levbanded` with K = 0 on such inputs: row 1 has the band [1, 1],
      the sentinel at column 2, and its one cell 0 lowers the row minimum from
      m - n = 2 to 0; column 3 is never written. */
  lemma GapRun<T>(a: seq<T>, b: seq<T>)
    requires GapInput(a, b)
    ensures LevBandedAsWritten(a, b, 0) == 0
  {
    var prev, row := Iota(4), [1, 0, 1, 0];
    assert seq(|b| + 1, p => if p == 0 then 1 else if p == 1 - 1 || p == 1 + 1 then 0 + 1 else 0) == row;
    assert FillAsWritten(a, b, 1, 2, 1, prev, row) == row;
    assert FillAsWritten(a, b, 1, 1, 1, prev, row) == row;
    assert BandedRowAsWritten(a, b, 0, 1, prev) == row;
    assert RowMinAsWritten(row, 1, 1, 2) == 0;
    assert RowsAsWritten(a, b, 0, 2, row) == 0;
    assert RowsAsWritten(a, b, 0, 1, prev) == 0;
  }

  /** On such inputs the distance is 2: matching the first characters and inserting
      the other two, and never fewer than the length difference. */
  lemma GapDistance<T>(a: seq<T>, b: seq<T>)
    requires GapInput(a, b)
    ensures Distance(Levenshtein, a, b) == 2
  {
    Border(Levenshtein, a, b, 0, 0);
    Moves(Levenshtein, a, b, 1, 1);
    Moves(Levenshtein, a, b, 1, 2);
    Moves(Levenshtein, a, b, 1, 3);
    Bounds(Levenshtein, a, b, 1, 3);
  }

  /** With the lengths more than K + 1 apart the band of the last row stops short of
      column m, and one band cell at or below K hides the length difference from
      the row minimum: "a" against "aaa" with K = 0 leaves the last cell at its
      initial 0, although the distance is 2. */
  lemma LevBandedMissesLengthGap()
    ensures LevBandedAsWritten("a", "aaa", 0) == 0
    ensures Distance(Levenshtein, "a", "aaa") == 2
  {
    GapRun("a", "aaa");
    GapDistance("a", "aaa");
  }

  // ---------------------------------------------------------------------------
  // levbanded, with the length difference taken into account

  /** `levbanded` with the bound the row minimum starts from, m - n, taken into
      account before any row: lengths more than K apart answer K + 1.  The matrix
      rows are computed on the one-row layout of `bounded_edit_dist_old`, which
      reads the same cells.  The last cell is the distance when that is at most K,
      and above K otherwise. */
  method LevBanded<T(==)>(s1: seq<T>, s2: seq<T>, k: nat) returns (last: nat)
    requires |s1| <= |s2|
    ensures Distance(Levenshtein, s1, s2) <= k ==> last == Distance(Levenshtein, s1, s2)
    ensures Distance(Levenshtein, s1, s2) > k ==> last > k
  {
    if |s1| == 0 {
      Border(Levenshtein, s1, s2, 0, |s2|);
      return |s2|;
    }
    if |s2| - |s1| > k {
      Bounds(Levenshtein, s1, s2, |s1|, |s2|);
      return k + 1;
    }
    var outcome := LevFixedBandCore(s1, s2, k, k + 1);
    match outcome
    case EarlyExit =>
      last := k + 1;
    case Completed(cell) =>
      last := cell;
  }

  // ---------------------------------------------------------------------------
  // levbandedopt

  /** One cell of the adaptive band: up and diagonal from row i-1, left from row i. */
  method BandOptCell<T(==)>(a: seq<T>, b: seq<T>, k: nat, i: nat, start: nat, end: nat, j: nat,
                            prev: seq<nat>, cur: seq<nat>)
    returns (cur': seq<nat>)
    requires 1 <= i <= |a| && 1 <= start <= j <= end <= |b|
    requires RowState(a, b, k, i, start, end, j, prev, cur) == true
    ensures RowState(a, b, k, i, start, end, j + 1, prev, cur') == true
  {
    var cell := LevCell(a, b, i, j, prev[j], cur[j - 1], prev[j - 1]);
    StepAdmissible(Levenshtein, a, b, k, i, j, prev[j], cur[j - 1], prev[j - 1], 0);
    RowStateAdvance(a, b, k, i, start, end, j, prev, cur, cell);
    cur' := cur[j := cell];
  }

  /** Row i: the blank row with its sentinels, then the band filled left to right. */
  method BandOptRow<T(==)>(a: seq<T>, b: seq<T>, k: nat, i: nat, start: nat, end: nat, prev: seq<nat>)
    returns (cur: seq<nat>)
    requires 1 <= i <= |a| <= |b|
    requires Ready(a, b, k, i, start, end, prev) == true
    ensures RowState(a, b, k, i, start, end, end + 1, prev, cur) == true
  {
    cur := RowInit(i, start, end, |b|, k);
    RowEntry(a, b, k, i, start, end, prev);
    for j := start to end + 1
      invariant RowState(a, b, k, i, start, end, j, prev, cur) == true
    {
      cur := BandOptCell(a, b, k, i, start, end, j, prev, cur);
    }
  }

  /** The narrowing of both band edges after row i.  An empty narrowed band shows
      the distance exceeds K; otherwise the next row is ready, or, after the last
      row, the band ends at the last cell, which holds the distance. */
  method BandOptNarrow<T(==)>(a: seq<T>, b: seq<T>, k: nat, i: nat, start: nat, end: nat,
                              prev: seq<nat>, cur: seq<nat>)
    returns (start': nat, end': nat, empty: bool)
    requires 1 <= i <= |a| <= |b|
    requires Ready(a, b, k, i, start, end, prev) == true
    requires RowState(a, b, k, i, start, end, end + 1, prev, cur) == true
    ensures empty <==> end' < start'
    ensures empty ==> Distance(Levenshtein, a, b) > k
    ensures !empty && i < |a| ==> Ready(a, b, k, i + 1, start', end', cur) == true
    ensures !empty && i == |a| ==> end == |b| && cur[end] == Distance(Levenshtein, a, b) <= k
  {
    var delta := |b| - |a|;
    end' := NarrowedEnd(cur, i, delta, k, end);
    start' := AdvanceStart(cur, i, delta, k, start, end');
    empty := end' < start';
    if delta > k || !Good(Levenshtein, a, b, k, i, i + delta) {
      NarrowDrops(a, b, k, i, start, end, prev, cur);
    } else {
      NarrowHolds(a, b, k, i, start, end, prev, cur);
    }
  }

  /** The adaptive-band computation: the distance when it is at most K, and an
      abandoned band exactly when it is not. */
  method LevBandedOptCore<T(==)>(a: seq<T>, b: seq<T>, k: nat) returns (r: BandOutcome)
    requires 1 <= |a| <= |b|
    ensures r.EarlyExit? <==> Distance(Levenshtein, a, b) > k
    ensures r.Completed? ==> r.cell == Distance(Levenshtein, a, b)
  {
    var prev := Iota(|b| + 1);
    var start: nat, end: nat := 1, Min(|b|, (k + |b| - |a|) / 2 + 1);
    FirstReady(a, b, k);
    var i := 1;
    while true
      invariant 1 <= i <= |a| && Ready(a, b, k, i, start, end, prev)
      decreases |a| - i
    {
      var cur := BandOptRow(a, b, k, i, start, end, prev);
      var start', end', empty := BandOptNarrow(a, b, k, i, start, end, prev, cur);
      if empty {
        return EarlyExit;
      }
      if i == |a| {
        return Completed(cur[end]);
      }
      prev, start, end := cur, start', end';
      i := i + 1;
    }
  }

  /** `levbandedopt`: the last cell of the matrix, which is the distance capped at
      K + 1 (an abandoned band sets it to K + 1); with an empty first string no row
      is computed and row 0 already ends with m. */
  method LevBandedOpt<T(==)>(s1: seq<T>, s2: seq<T>, k: nat) returns (last: nat)
    requires |s1| <= |s2|
    ensures |s1| > 0 ==> last == Min(Distance(Levenshtein, s1, s2), k + 1)
    ensures |s1| == 0 ==> last == Distance(Levenshtein, s1, s2)
  {
    if |s1| == 0 {
      Border(Levenshtein, s1, s2, 0, |s2|);
      return |s2|;
    }
    var outcome := LevBandedOptCore(s1, s2, k);
    match outcome
    case EarlyExit =>
      last := k + 1;
    case Completed(cell) =>
      last := cell;
  }
}
