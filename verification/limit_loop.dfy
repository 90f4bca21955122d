/** The loop state of `levlimopt` (with the read order of `previous_cell` repaired
    and without the in-row cut), and the facts that carry it from cell to cell and
    from row to row.

    Row i works on [start, end] with end = min(m, i + K) and
    start = max(1, i - (K - floor)), where `floor` is the minimum of row i-1 (0
    before the first row).  Every path into a good cell of row i passes a good
    cell of row i-1 no larger than it, so good cells of row i are at least `floor`;
    a good cell left of `start` would then be too far from the final diagonal.
    The row minimum never decreases, so the band start never moves left and what
    one row leaves behind covers what the next one reads. */
module LimitLoop {
  import opened EditDistance
  import opened Band

  /** The values the single-row loop carries from cell to cell: the buffer, the
      saved cell (i-1, j-1) and the minimum of the row so far. */
  datatype LimitCursor = LimitCursor(buffer: seq<nat>, previousCell: nat, rowMin: nat)

  /** First column of row i's band: K - floor columns left of column i. */
  function LimitStart(i: nat, k: nat, floor: nat): (s: nat)
    requires floor <= k
    ensures 1 <= s <= Max(1, i)
    ensures s == 1 || s == i - (k - floor)
    ensures i - (k - floor) <= s
  {
    Max(1, i - (k - floor))
  }

  /** `floor` is at most every good cell of row i. */
  ghost predicate FloorBelowGood<T>(a: seq<T>, b: seq<T>, k: int, i: nat, floor: int)
    requires i <= |a|
  {
    forall p :: 0 <= p <= |b| && Good(Levenshtein, a, b, k, i, p) ==> floor <= Dist(Levenshtein, a, b, i, p)
  }

  /** A good cell of row i is at least the floor of the good cells of row i-1: the
      cell is attained from above, from the left or along the diagonal, and each of
      those neighbours is good and no larger. */
  lemma {:induction false} GoodAboveFloor<T>(a: seq<T>, b: seq<T>, k: int, i: nat, p: nat, floor: int)
    requires 1 <= i <= |a| && p <= |b|
    requires FloorBelowGood(a, b, k, i - 1, floor)
    requires Good(Levenshtein, a, b, k, i, p)
    ensures floor <= Dist(Levenshtein, a, b, i, p)
    decreases p
  {
    if p == 0 {
      Border(Levenshtein, a, b, i, 0);
      Border(Levenshtein, a, b, i - 1, 0);
      assert Good(Levenshtein, a, b, k, i - 1, 0);
    } else {
      Attained(Levenshtein, a, b, i, p);
      var d := Dist(Levenshtein, a, b, i, p);
      if d == Dist(Levenshtein, a, b, i - 1, p) + 1 {
        assert Good(Levenshtein, a, b, k, i - 1, p);
      } else if d == Dist(Levenshtein, a, b, i, p - 1) + 1 {
        assert Good(Levenshtein, a, b, k, i, p - 1);
        GoodAboveFloor(a, b, k, i, p - 1, floor);
      } else {
        GoodDiagonalPredecessor(Levenshtein, a, b, k, i, p);
        DiagonalMonotone(Levenshtein, a, b, i, p);
      }
    }
  }

  /** Hence the floor carries down a row. */
  lemma FloorCarries<T>(a: seq<T>, b: seq<T>, k: int, i: nat, floor: int)
    requires 1 <= i <= |a|
    requires FloorBelowGood(a, b, k, i - 1, floor)
    ensures FloorBelowGood(a, b, k, i, floor)
  {
    forall p | 0 <= p <= |b| && Good(Levenshtein, a, b, k, i, p)
      ensures floor <= Dist(Levenshtein, a, b, i, p)
    {
      GoodAboveFloor(a, b, k, i, p, floor);
    }
  }

  /** No cell left of row i's band start is good: it is at least `floor` and more
      than K - floor columns left of the diagonal through the final cell. */
  lemma LeftOfLimitStart<T>(a: seq<T>, b: seq<T>, k: nat, i: nat, floor: nat, p: nat)
    requires 1 <= i <= |a| <= |b| && floor <= k
    requires FloorBelowGood(a, b, k, i - 1, floor)
    requires LimitStart(i, k, floor) > 1 && p < LimitStart(i, k, floor)
    ensures !Good(Levenshtein, a, b, k, i, p)
  {
    if Good(Levenshtein, a, b, k, i, p) {
      GoodAboveFloor(a, b, k, i, p, floor);
    }
  }

  /** What row i needs: row i-1 admissible and at least `floor` from one column left
      of `lo`, where row i-1 started, to the end of row i's band; `floor` is at most
      K, below i, and at most every good cell of row i-1. */
  ghost predicate LimitReady<T>(a: seq<T>, b: seq<T>, k: nat, i: nat, lo: nat, floor: nat, buffer: seq<nat>)
    requires 1 <= i <= |a| <= |b|
  {
    && |buffer| == |b| + 1
    && floor <= k && floor < i
    && 1 <= lo <= LimitStart(i, k, floor)
    && FloorBelowGood(a, b, k, i - 1, floor)
    && (forall p :: lo - 1 <= p <= BandEnd(i, k, |b|) ==>
          Admissible(Levenshtein, a, b, k, i - 1, p, buffer[p]) && floor <= buffer[p])
  }

  /** The value a row writes just left of its band: the sentinel, or i in column 0. */
  function LeftEdge(i: nat, start: nat, sentinel: nat): nat
  {
    if start > 1 then sentinel else i
  }

  /** The state while cell (i, j) is computed: row i from the left edge up to j-1,
      row i-1 from j to the band end, each at least `floor`, and the sentinel just
      past the band. */
  ghost predicate LimitState<T>(a: seq<T>, b: seq<T>, k: nat, sentinel: nat, i: nat, start: nat, floor: nat,
                                j: nat, c: LimitCursor)
    requires 1 <= i <= |a| && 1 <= start <= j <= BandEnd(i, k, |b|) + 1
  {
    var e, m := BandEnd(i, k, |b|), |b|;
    && |c.buffer| == m + 1
    && c.buffer[start - 1] == LeftEdge(i, start, sentinel)
    && Admissible(Levenshtein, a, b, k, i, start - 1, c.buffer[start - 1]) && floor <= c.buffer[start - 1]
    && (forall p :: start <= p < j ==> Admissible(Levenshtein, a, b, k, i, p, c.buffer[p]) && c.rowMin <= c.buffer[p])
    && (forall p :: j <= p <= e ==> Admissible(Levenshtein, a, b, k, i - 1, p, c.buffer[p]) && floor <= c.buffer[p])
    && (e < m ==> c.buffer[e + 1] == sentinel)
    && Admissible(Levenshtein, a, b, k, i - 1, j - 1, c.previousCell) && floor <= c.previousCell
    && floor <= c.rowMin <= i
  }

  /** What row i leaves behind: admissible from one column left of the band to one
      column past it, with the left edge and the sentinel in place, and `rowMin` at
      most every banded cell. */
  ghost predicate LimitDone<T>(a: seq<T>, b: seq<T>, k: nat, sentinel: nat, i: nat, start: nat, floor: nat, c: LimitCursor)
    requires 1 <= i <= |a| && 1 <= start <= BandEnd(i, k, |b|) + 1
  {
    var e, m := BandEnd(i, k, |b|), |b|;
    && |c.buffer| == m + 1
    && c.buffer[start - 1] == LeftEdge(i, start, sentinel)
    && (forall p :: start - 1 <= p <= Min(m, e + 1) ==> Admissible(Levenshtein, a, b, k, i, p, c.buffer[p]))
    && (forall p :: start <= p <= e ==> c.rowMin <= c.buffer[p])
    && (e < m ==> c.buffer[e + 1] == sentinel)
    && floor <= c.rowMin <= i
  }

  /** The cursor after cell (i, j) is stored. */
  function LimitAdvance(c: LimitCursor, j: nat, cell: nat): LimitCursor
    requires j < |c.buffer|
  {
    LimitCursor(c.buffer[j := cell], c.buffer[j], Min(c.rowMin, cell))
  }

  /** Storing an admissible cell no smaller than the floor moves the state on. */
  lemma LimitStateAdvance<T>(a: seq<T>, b: seq<T>, k: nat, sentinel: nat, i: nat, start: nat, floor: nat,
                             j: nat, c: LimitCursor, cell: nat)
    requires 1 <= i <= |a| && 1 <= start <= j <= BandEnd(i, k, |b|)
    requires LimitState(a, b, k, sentinel, i, start, floor, j, c)
    requires Admissible(Levenshtein, a, b, k, i, j, cell) && floor <= cell
    ensures LimitState(a, b, k, sentinel, i, start, floor, j + 1, LimitAdvance(c, j, cell))
  {
  }

  /** The cursor at the start of row i: the carried cell is read from one column
      left of the band before column 0 is set to i, and the sentinels are written
      on both sides of the band. */
  function LimitRowStart(buffer: seq<nat>, i: nat, start: nat, end: nat, m: nat, sentinel: nat): LimitCursor
    requires 1 <= start <= end + 1 && end <= m && |buffer| == m + 1
  {
    var previousCell := buffer[start - 1];
    var row := buffer[0 := i];
    var row := if start > 1 then row[start - 1 := sentinel] else row;
    var row := if end < m then row[end + 1 := sentinel] else row;
    LimitCursor(row, previousCell, i)
  }

  lemma LimitRowEntry<T>(a: seq<T>, b: seq<T>, k: nat, sentinel: nat, i: nat, lo: nat, floor: nat, buffer: seq<nat>)
    requires 1 <= i <= |a| <= |b| && k < sentinel
    requires LimitReady(a, b, k, i, lo, floor, buffer)
    ensures var s, e := LimitStart(i, k, floor), BandEnd(i, k, |b|);
            s <= e && LimitState(a, b, k, sentinel, i, s, floor, s, LimitRowStart(buffer, i, s, e, |b|, sentinel))
  {
    var s, e := LimitStart(i, k, floor), BandEnd(i, k, |b|);
    var c := LimitRowStart(buffer, i, s, e, |b|, sentinel);
    assert forall p :: s <= p <= e ==> c.buffer[p] == buffer[p];
    assert Admissible(Levenshtein, a, b, k, i - 1, s - 1, buffer[s - 1]);
    if s > 1 {
      LeftOfLimitStart(a, b, k, i, floor, s - 1);
    } else {
      Border(Levenshtein, a, b, i, 0);
    }
  }

  lemma LimitRowExit<T>(a: seq<T>, b: seq<T>, k: nat, sentinel: nat, i: nat, start: nat, floor: nat, c: LimitCursor)
    requires 1 <= i <= |a| && 1 <= start <= BandEnd(i, k, |b|) + 1 && k < sentinel
    requires LimitState(a, b, k, sentinel, i, start, floor, BandEnd(i, k, |b|) + 1, c)
    ensures LimitDone(a, b, k, sentinel, i, start, floor, c)
  {
    var e := BandEnd(i, k, |b|);
    if e < |b| {
      SentinelAdmissible(Levenshtein, a, b, k, i, e + 1, sentinel);
    }
  }

  /** Row 0 is the initial 0, 1, ..., m, exact everywhere, and 0 is below it all. */
  lemma LimitFirstRowReady<T>(a: seq<T>, b: seq<T>, k: nat)
    requires 1 <= |a| <= |b|
    ensures LimitReady(a, b, k, 1, 1, 0, Iota(|b| + 1))
  {
    var buffer := Iota(|b| + 1);
    forall p | 0 <= p <= BandEnd(1, k, |b|)
      ensures Admissible(Levenshtein, a, b, k, 0, p, buffer[p])
    {
      Border(Levenshtein, a, b, 0, p);
    }
  }

  /** No good cell of row i lies outside its band. */
  lemma GoodInLimitBand<T>(a: seq<T>, b: seq<T>, k: nat, i: nat, floor: nat, p: nat)
    requires 1 <= i <= |a| <= |b| && floor <= k && 1 <= p <= |b|
    requires FloorBelowGood(a, b, k, i - 1, floor)
    requires Good(Levenshtein, a, b, k, i, p)
    ensures LimitStart(i, k, floor) <= p <= BandEnd(i, k, |b|)
  {
    if p < LimitStart(i, k, floor) {
      LeftOfLimitStart(a, b, k, i, floor, p);
    }
    if p > BandEnd(i, k, |b|) {
      Bounds(Levenshtein, a, b, i, p);
    }
  }

  /** The minimum of a finished row is at most every good cell of it: those lie in
      the band, where they are exact, or in column 0, which holds i. */
  lemma LimitFloor<T>(a: seq<T>, b: seq<T>, k: nat, sentinel: nat, i: nat, floor: nat, c: LimitCursor)
    requires 1 <= i <= |a| <= |b| && floor <= k
    requires FloorBelowGood(a, b, k, i - 1, floor)
    requires LimitStart(i, k, floor) <= BandEnd(i, k, |b|)
    requires LimitDone(a, b, k, sentinel, i, LimitStart(i, k, floor), floor, c)
    ensures FloorBelowGood(a, b, k, i, c.rowMin)
  {
    forall p | 0 <= p <= |b| && Good(Levenshtein, a, b, k, i, p)
      ensures c.rowMin <= Dist(Levenshtein, a, b, i, p)
    {
      if p == 0 {
        Border(Levenshtein, a, b, i, 0);
      } else {
        GoodInLimitBand(a, b, k, i, floor, p);
        assert Admissible(Levenshtein, a, b, k, i, p, c.buffer[p]) && c.rowMin <= c.buffer[p];
      }
    }
  }

  /** A finished row whose minimum is at most K hands over to the next row: the
      band start moves right, and what the row leaves behind is at least its
      minimum. */
  lemma LimitHandover<T>(a: seq<T>, b: seq<T>, k: nat, sentinel: nat, i: nat, floor: nat, c: LimitCursor)
    requires 1 <= i < |a| <= |b| && k < sentinel && floor <= k
    requires FloorBelowGood(a, b, k, i - 1, floor)
    requires LimitStart(i, k, floor) <= BandEnd(i, k, |b|)
    requires LimitDone(a, b, k, sentinel, i, LimitStart(i, k, floor), floor, c)
    requires c.rowMin <= k
    ensures LimitReady(a, b, k, i + 1, LimitStart(i, k, floor), c.rowMin, c.buffer)
  {
    LimitFloor(a, b, k, sentinel, i, floor, c);
  }

  /** When the distance is at most K, the row's cell on the final diagonal is good,
      hence in the band and exact, and the row minimum is at most it. */
  lemma LimitDiagonalExact<T>(a: seq<T>, b: seq<T>, k: nat, sentinel: nat, i: nat, floor: nat, c: LimitCursor)
    requires 1 <= i <= |a| <= |b| && |b| - |a| <= k && floor <= k
    requires FloorBelowGood(a, b, k, i - 1, floor)
    requires LimitStart(i, k, floor) <= BandEnd(i, k, |b|)
    requires LimitDone(a, b, k, sentinel, i, LimitStart(i, k, floor), floor, c)
    requires Distance(Levenshtein, a, b) <= k
    ensures c.rowMin <= Dist(Levenshtein, a, b, i, i + |b| - |a|) <= k
  {
    var p := i + |b| - |a|;
    DiagonalWitness(Levenshtein, a, b, k, i);
    GoodInLimitBand(a, b, k, i, floor, p);
    assert Admissible(Levenshtein, a, b, k, i, p, c.buffer[p]) && c.rowMin <= c.buffer[p];
  }

  /** A finished row whose minimum exceeds K proves that the distance does. */
  lemma LimitRowAbove<T>(a: seq<T>, b: seq<T>, k: nat, sentinel: nat, i: nat, floor: nat, c: LimitCursor)
    requires 1 <= i <= |a| <= |b| && |b| - |a| <= k && floor <= k
    requires FloorBelowGood(a, b, k, i - 1, floor)
    requires LimitStart(i, k, floor) <= BandEnd(i, k, |b|)
    requires LimitDone(a, b, k, sentinel, i, LimitStart(i, k, floor), floor, c)
    requires c.rowMin > k
    ensures Distance(Levenshtein, a, b) > k
  {
    if Distance(Levenshtein, a, b) <= k {
      LimitDiagonalExact(a, b, k, sentinel, i, floor, c);
    }
  }

  /** After the last row the band ends at column m, whose cell is the distance when
      that is at most K and above K otherwise. */
  lemma LimitLastRow<T>(a: seq<T>, b: seq<T>, k: nat, sentinel: nat, start: nat, floor: nat, c: LimitCursor)
    requires 1 <= |a| <= |b| && |b| - |a| <= k && 1 <= start <= BandEnd(|a|, k, |b|)
    requires LimitDone(a, b, k, sentinel, |a|, start, floor, c)
    ensures BandEnd(|a|, k, |b|) == |b|
    ensures Distance(Levenshtein, a, b) <= k ==> c.buffer[|b|] == Distance(Levenshtein, a, b)
    ensures Distance(Levenshtein, a, b) > k ==> c.buffer[|b|] > k
  {
    assert Admissible(Levenshtein, a, b, k, |a|, |b|, c.buffer[|b|]);
    FinalCell(Levenshtein, a, b, k, c.buffer[|b|]);
  }
}
