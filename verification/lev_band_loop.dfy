/** The loop state of the single-row fixed-band Levenshtein computation and the
    facts that move it from cell to cell and from row to row. */
module LevBandLoop {
  import opened EditDistance
  import opened Band

  /** The values the banded single-row loop carries from cell to cell. */
  datatype LevCursor = LevCursor(buffer: seq<nat>, previousCell: nat, rowMin: int)

  /** The state while cell (i, j) is computed: `buffer` holds row i from the left
      edge at BandStart - 1 up to j-1 and row i-1 from j to the band end, with the
      sentinel just past it; `previousCell` stands for (i-1, j-1); `rowMin` is at
      most i and every cell of row i so far. */
  ghost predicate LevBandState<T>(a: seq<T>, b: seq<T>, k: nat, sentinel: nat, i: nat, j: nat, c: LevCursor)
    requires 1 <= i <= |a| && BandStart(i, k) <= j <= BandEnd(i, k, |b|) + 1
  {
    var s, e, m := BandStart(i, k), BandEnd(i, k, |b|), |b|;
    && |c.buffer| == m + 1
    && Admissible(Levenshtein, a, b, k, i, s - 1, c.buffer[s - 1])
    && (forall p :: s <= p < j ==> Admissible(Levenshtein, a, b, k, i, p, c.buffer[p]))
    && (forall p :: j <= p <= e ==> Admissible(Levenshtein, a, b, k, i - 1, p, c.buffer[p]))
    && (e < m ==> c.buffer[e + 1] == sentinel)
    && Admissible(Levenshtein, a, b, k, i - 1, j - 1, c.previousCell)
    && c.rowMin <= i
    && (forall p :: s <= p < j ==> c.rowMin <= c.buffer[p])
  }

  /** What row i needs when it starts: row i-1 admissible from one column left of
      row i's band to its end. */
  ghost predicate LevRowReady<T>(a: seq<T>, b: seq<T>, k: nat, i: nat, buffer: seq<nat>)
    requires 1 <= i <= |a| <= |b|
  {
    && |buffer| == |b| + 1
    && (forall p :: BandStart(i, k) - 1 <= p <= BandEnd(i, k, |b|) ==>
          Admissible(Levenshtein, a, b, k, i - 1, p, buffer[p]))
  }

  /** What row i leaves behind: row i admissible from one column left of its band
      to one column past it, and `rowMin` at most every banded cell. */
  ghost predicate LevRowDone<T>(a: seq<T>, b: seq<T>, k: nat, i: nat, c: LevCursor)
    requires 1 <= i <= |a| <= |b|
  {
    var s, e, m := BandStart(i, k), BandEnd(i, k, |b|), |b|;
    && |c.buffer| == m + 1
    && (forall p :: s - 1 <= p <= Min(m, e + 1) ==> Admissible(Levenshtein, a, b, k, i, p, c.buffer[p]))
    && (forall p :: s <= p <= e ==> c.rowMin <= c.buffer[p])
  }

  /** The cursor after cell (i, j) is stored. */
  function LevAdvance(c: LevCursor, j: nat, cell: nat): LevCursor
    requires j < |c.buffer|
  {
    LevCursor(c.buffer[j := cell], c.buffer[j], Min(c.rowMin, cell))
  }

  /** Storing an admissible cell (i, j) moves the state from column j to j+1. */
  lemma LevStateAdvance<T>(a: seq<T>, b: seq<T>, k: nat, sentinel: nat, i: nat, j: nat, c: LevCursor, cell: nat)
    requires 1 <= i <= |a| && BandStart(i, k) <= j <= BandEnd(i, k, |b|)
    requires LevBandState(a, b, k, sentinel, i, j, c)
    requires Admissible(Levenshtein, a, b, k, i, j, cell)
    ensures LevBandState(a, b, k, sentinel, i, j + 1, LevAdvance(c, j, cell))
  {
  }

  /** The cursor at the band start of row i: the carried cell is read from one
      column left of the band before column 0 is set to i and the sentinels are
      written on both sides of the band. */
  function LevRowStart(buffer: seq<nat>, i: nat, k: nat, m: nat, sentinel: nat): LevCursor
    requires 1 <= i <= m && |buffer| == m + 1
  {
    var s, e := BandStart(i, k), BandEnd(i, k, m);
    var previousCell := buffer[s - 1];
    var row := buffer[0 := i];
    var row := if s > 1 then row[s - 1 := sentinel] else row;
    var row := if e < m then row[e + 1 := sentinel] else row;
    LevCursor(row, previousCell, i)
  }

  lemma LevRowEntry<T>(a: seq<T>, b: seq<T>, k: nat, sentinel: nat, i: nat, buffer: seq<nat>)
    requires 1 <= i <= |a| <= |b| && k < sentinel
    requires LevRowReady(a, b, k, i, buffer)
    ensures LevBandState(a, b, k, sentinel, i, BandStart(i, k), LevRowStart(buffer, i, k, |b|, sentinel))
  {
    var s, e := BandStart(i, k), BandEnd(i, k, |b|);
    var c := LevRowStart(buffer, i, k, |b|, sentinel);
    assert forall p :: s <= p <= e ==> c.buffer[p] == buffer[p];
    assert Admissible(Levenshtein, a, b, k, i - 1, s - 1, buffer[s - 1]);
    if s > 1 {
      SentinelAdmissible(Levenshtein, a, b, k, i, s - 1, sentinel);
    } else {
      Border(Levenshtein, a, b, i, 0);
      ExactAdmissible(Levenshtein, a, b, k, i, 0, i);
    }
  }

  lemma LevRowExit<T>(a: seq<T>, b: seq<T>, k: nat, sentinel: nat, i: nat, c: LevCursor)
    requires 1 <= i <= |a| <= |b| && k < sentinel
    requires LevBandState(a, b, k, sentinel, i, BandEnd(i, k, |b|) + 1, c)
    ensures LevRowDone(a, b, k, i, c)
  {
    var e := BandEnd(i, k, |b|);
    if e < |b| {
      SentinelAdmissible(Levenshtein, a, b, k, i, e + 1, sentinel);
    }
  }

  /** Row 0 is the initial 0, 1, ..., m, exact everywhere. */
  lemma LevFirstRowReady<T>(a: seq<T>, b: seq<T>, k: nat, buffer: seq<nat>)
    requires 1 <= |a| <= |b| && buffer == Iota(|b| + 1)
    ensures LevRowReady(a, b, k, 1, buffer)
  {
    forall p | BandStart(1, k) - 1 <= p <= BandEnd(1, k, |b|)
      ensures Admissible(Levenshtein, a, b, k, 0, p, buffer[p])
    {
      Border(Levenshtein, a, b, 0, p);
      ExactAdmissible(Levenshtein, a, b, k, 0, p, buffer[p]);
    }
  }

  /** The band moves right by at most one column per row, so what row i-1 leaves
      behind covers what row i reads. */
  lemma LevRowHandover<T>(a: seq<T>, b: seq<T>, k: nat, i: nat, c: LevCursor)
    requires 2 <= i <= |a| <= |b|
    requires LevRowDone(a, b, k, i - 1, c)
    ensures LevRowReady(a, b, k, i, c.buffer)
  {
  }

  /** A finished row whose minimum exceeds K proves that the distance does. */
  lemma LevRowDoneAbove<T>(a: seq<T>, b: seq<T>, k: nat, i: nat, c: LevCursor)
    requires 1 <= i <= |a| <= |b| && |b| - |a| <= k
    requires LevRowDone(a, b, k, i, c) && c.rowMin > k
    ensures Distance(Levenshtein, a, b) > k
  {
    RowAboveBound(Levenshtein, a, b, k, i, c.buffer, BandStart(i, k), BandEnd(i, k, |b|), c.rowMin);
  }

  /** After the last row the band ends at column m, whose cell is the distance when
      that is at most K and above K otherwise. */
  lemma LevLastRow<T>(a: seq<T>, b: seq<T>, k: nat, c: LevCursor)
    requires 1 <= |a| <= |b| && |b| - |a| <= k
    requires LevRowDone(a, b, k, |a|, c)
    ensures BandEnd(|a|, k, |b|) == |b|
    ensures Distance(Levenshtein, a, b) <= k ==> c.buffer[|b|] == Distance(Levenshtein, a, b)
    ensures Distance(Levenshtein, a, b) > k ==> c.buffer[|b|] > k
  {
    assert Admissible(Levenshtein, a, b, k, |a|, |b|, c.buffer[|b|]);
    FinalCell(Levenshtein, a, b, k, c.buffer[|b|]);
  }
}
