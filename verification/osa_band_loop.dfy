/** The loop state of the fixed-band OSA computation and the facts that move it
    from cell to cell and from row to row. */
module OsaBandLoop {
  import opened EditDistance
  import opened Band

  /** The values the banded two-row loop carries from cell to cell. */
  datatype Cursor = Cursor(current: seq<nat>, previous: seq<nat>, previousCell: nat,
                           previousPreviousCell: nat, rowMin: int)

  /** The state of the banded two-row loop while cell (i, j) is computed: the four
      parts below together. */
  ghost predicate OsaBandState<T>(a: seq<T>, b: seq<T>, k: nat, sentinel: nat, i: nat, j: nat, c: Cursor)
    requires 1 <= i <= |a| && BandStart(i, k) <= j <= BandEnd(i, k, |b|) + 1
  {
    match c
    case Cursor(current, previous, previousCell, previousPreviousCell, rowMin) =>
      && CurrentState(a, b, k, sentinel, i, j, current)
      && PreviousState(a, b, k, i, j, previous)
      && Admissible(Osa, a, b, k, i - 1, j - 1, previousCell)
      && (j > BandStart(i, k) ==> Admissible(Osa, a, b, k, i - 1, j - 2, previousPreviousCell))
      && RowMinState(k, i, j, current, rowMin)
  }

  /** `current` holds row i left of j, from the left edge at BandStart - 1, and row
      i-1 from j to the band end, with the sentinel just past it. */
  ghost predicate CurrentState<T>(a: seq<T>, b: seq<T>, k: nat, sentinel: nat, i: nat, j: nat, current: seq<nat>)
    requires 1 <= i <= |a| && BandStart(i, k) <= j <= BandEnd(i, k, |b|) + 1
  {
    var s, e, m := BandStart(i, k), BandEnd(i, k, |b|), |b|;
    && |current| == m + 1
    && Admissible(Osa, a, b, k, i, s - 1, current[s - 1])
    && (forall p :: s <= p < j ==> Admissible(Osa, a, b, k, i, p, current[p]))
    && (forall p :: j <= p <= e ==> Admissible(Osa, a, b, k, i - 1, p, current[p]))
    && (e < m ==> current[e + 1] == sentinel)
  }

  /** `previous` holds row i-1 up to j-3, row i-2 from j-2 to the band end less
      two, and beyond i+K-2 still the initial 0, 1, ..., m. */
  ghost predicate PreviousState<T>(a: seq<T>, b: seq<T>, k: nat, i: nat, j: nat, previous: seq<nat>)
    requires 1 <= i <= |a| && BandStart(i, k) <= j <= BandEnd(i, k, |b|) + 1
  {
    var s, e, m := BandStart(i, k), BandEnd(i, k, |b|), |b|;
    && |previous| == m + 1
    && (forall p :: s - 1 <= p <= j - 3 ==> Admissible(Osa, a, b, k, i - 1, p, previous[p]))
    && (i > 1 ==> forall p :: j - 2 <= p <= e - 2 && 0 <= p ==> BackOk(Osa, a, b, k, i - 2, p, previous[p]))
    && (forall p :: i + k - 1 <= p <= m ==> previous[p] == p)
  }

  /** `rowMin` is at most i and at most every cell of row i computed so far. */
  ghost predicate RowMinState(k: nat, i: nat, j: nat, current: seq<nat>, rowMin: int)
  {
    && rowMin <= i
    && (forall p :: BandStart(i, k) <= p < j && p < |current| ==> rowMin <= current[p])
  }

  lemma CurrentAdvance<T>(a: seq<T>, b: seq<T>, k: nat, sentinel: nat, i: nat, j: nat, current: seq<nat>, cell: nat)
    requires 1 <= i <= |a| && BandStart(i, k) <= j <= BandEnd(i, k, |b|)
    requires CurrentState(a, b, k, sentinel, i, j, current)
    requires Admissible(Osa, a, b, k, i, j, cell)
    ensures CurrentState(a, b, k, sentinel, i, j + 1, current[j := cell])
  {
  }

  lemma PreviousAdvance<T>(a: seq<T>, b: seq<T>, k: nat, i: nat, j: nat, previous: seq<nat>, previousPreviousCell: nat)
    requires 1 <= i <= |a| && BandStart(i, k) <= j <= BandEnd(i, k, |b|)
    requires PreviousState(a, b, k, i, j, previous)
    requires j > BandStart(i, k) ==> Admissible(Osa, a, b, k, i - 1, j - 2, previousPreviousCell)
    ensures PreviousState(a, b, k, i, j + 1, if j > 1 then previous[j - 2 := previousPreviousCell] else previous)
  {
  }

  /** Storing an admissible cell (i, j) and shifting the carried cells moves the
      state from column j to column j+1. */
  lemma StateAdvance<T>(a: seq<T>, b: seq<T>, k: nat, sentinel: nat, i: nat, j: nat, c: Cursor, cell: nat)
    requires 1 <= i <= |a| && BandStart(i, k) <= j <= BandEnd(i, k, |b|)
    requires OsaBandState(a, b, k, sentinel, i, j, c)
    requires Admissible(Osa, a, b, k, i, j, cell)
    ensures OsaBandState(a, b, k, sentinel, i, j + 1, Advance(c, j, cell))
  {
    CurrentAdvance(a, b, k, sentinel, i, j, c.current, cell);
    PreviousAdvance(a, b, k, i, j, c.previous, c.previousPreviousCell);
  }

  /** The cursor after cell (i, j) is stored: the displaced entry of `current`
      becomes `previousCell`, which becomes `previousPreviousCell`, which is written
      back into `previous` two columns to the left. */
  function Advance(c: Cursor, j: nat, cell: nat): Cursor
    requires j < |c.current| && j < |c.previous| + 2
  {
    Cursor(c.current[j := cell],
           if j > 1 then c.previous[j - 2 := c.previousPreviousCell] else c.previous,
           c.current[j], c.previousCell, Min(c.rowMin, cell))
  }

  /** What row i needs when it starts: row i-1 admissible across row i's band,
      row i-2 good enough as a transposition operand two columns to the left, and
      the initial 0, 1, ..., m still in place from column i+K-1 on. */
  ghost predicate RowReady<T>(a: seq<T>, b: seq<T>, k: nat, i: nat, c: Cursor)
    requires 1 <= i <= |a| <= |b|
  {
    match c
    case Cursor(current, previous, _, _, _) =>
      var s, e, m := BandStart(i, k), BandEnd(i, k, |b|), |b|;
      && |current| == m + 1 && |previous| == m + 1
      && (forall p :: s <= p <= e ==> Admissible(Osa, a, b, k, i - 1, p, current[p]))
      && (i > 1 ==> forall p :: s - 2 <= p <= e - 2 && 0 <= p ==> BackOk(Osa, a, b, k, i - 2, p, previous[p]))
      && (forall p :: i + k - 1 <= p <= m ==> previous[p] == p)
  }

  /** What row i leaves behind: row i admissible across its band and one column
      past it, row i-1 in `previous` up to the band end less two, the initial values
      from column i+K-1 on, and `rowMin` at most every banded cell of row i. */
  ghost predicate RowDone<T>(a: seq<T>, b: seq<T>, k: nat, i: nat, c: Cursor)
    requires 1 <= i <= |a| <= |b|
  {
    match c
    case Cursor(current, previous, _, _, rowMin) =>
      var s, e, m := BandStart(i, k), BandEnd(i, k, |b|), |b|;
      && |current| == m + 1 && |previous| == m + 1
      && (forall p :: s <= p <= Min(m, e + 1) ==> Admissible(Osa, a, b, k, i, p, current[p]))
      && (forall p :: s - 1 <= p <= e - 2 ==> Admissible(Osa, a, b, k, i - 1, p, previous[p]))
      && (forall p :: i + k - 1 <= p <= m ==> previous[p] == p)
      && (forall p :: s <= p <= e ==> rowMin <= current[p])
  }

  /** The cursor at the band start of row i: column 0 set to i, the sentinel on
      both sides of the band where the band does not reach the border, the carried
      cell set to i-1 and the row minimum to i. */
  function RowStart(c: Cursor, i: nat, k: nat, m: nat, sentinel: nat): Cursor
    requires 1 <= i <= m && |c.current| == m + 1
  {
    var s, e := BandStart(i, k), BandEnd(i, k, m);
    var row := c.current[0 := i];
    var row := if s > 1 then row[s - 1 := sentinel] else row;
    var row := if e < m then row[e + 1 := sentinel] else row;
    Cursor(row, c.previous, i - 1, c.previousPreviousCell, i)
  }

  /** The state at the band start of row i. Where the band starts past column 1,
      the carried cell i-1 stands for a cell left of the band, and is admissible
      there. */
  lemma RowEntry<T>(a: seq<T>, b: seq<T>, k: nat, sentinel: nat, i: nat, c: Cursor)
    requires 1 <= i <= |a| <= |b| && a[0] != b[0] && k < sentinel
    requires RowReady(a, b, k, i, c)
    ensures OsaBandState(a, b, k, sentinel, i, BandStart(i, k), RowStart(c, i, k, |b|, sentinel))
  {
    var s := BandStart(i, k);
    EntryCurrent(a, b, k, sentinel, i, c);
    EntryPrevious(a, b, k, i, c);
    if s > 1 {
      PlaceholderAdmissible(Osa, a, b, k, i);
    } else {
      Border(Osa, a, b, i - 1, 0);
      ExactAdmissible(Osa, a, b, k, i - 1, 0, i - 1);
    }
  }

  lemma EntryCurrent<T>(a: seq<T>, b: seq<T>, k: nat, sentinel: nat, i: nat, c: Cursor)
    requires 1 <= i <= |a| <= |b| && k < sentinel
    requires RowReady(a, b, k, i, c)
    ensures CurrentState(a, b, k, sentinel, i, BandStart(i, k), RowStart(c, i, k, |b|, sentinel).current)
  {
    var s, e := BandStart(i, k), BandEnd(i, k, |b|);
    var row := RowStart(c, i, k, |b|, sentinel).current;
    assert forall p :: s <= p <= e ==> Admissible(Osa, a, b, k, i - 1, p, c.current[p]);
    assert forall p :: s <= p <= e ==> row[p] == c.current[p];
    if s > 1 {
      SentinelAdmissible(Osa, a, b, k, i, s - 1, sentinel);
    } else {
      Border(Osa, a, b, i, 0);
      ExactAdmissible(Osa, a, b, k, i, 0, i);
    }
  }

  lemma EntryPrevious<T>(a: seq<T>, b: seq<T>, k: nat, i: nat, c: Cursor)
    requires 1 <= i <= |a| <= |b|
    requires RowReady(a, b, k, i, c)
    ensures PreviousState(a, b, k, i, BandStart(i, k), c.previous)
  {
  }

  /** The state past the band end of row i is the row's result; the sentinel just
      past the band is admissible for row i. */
  lemma RowExit<T>(a: seq<T>, b: seq<T>, k: nat, sentinel: nat, i: nat, c: Cursor)
    requires 1 <= i <= |a| <= |b| && k < sentinel
    requires OsaBandState(a, b, k, sentinel, i, BandEnd(i, k, |b|) + 1, c)
    ensures RowDone(a, b, k, i, c)
  {
    var e := BandEnd(i, k, |b|);
    assert CurrentState(a, b, k, sentinel, i, e + 1, c.current);
    assert PreviousState(a, b, k, i, e + 1, c.previous);
    assert RowMinState(k, i, e + 1, c.current, c.rowMin);
    if e < |b| {
      SentinelAdmissible(Osa, a, b, k, i, e + 1, sentinel);
    }
  }

  /** Row 0 is the initial 0, 1, ..., m, exact everywhere. */
  lemma FirstRowReady<T>(a: seq<T>, b: seq<T>, k: nat, c: Cursor)
    requires 1 <= |a| <= |b|
    requires c.current == Iota(|b| + 1) && c.previous == Iota(|b| + 1)
    ensures RowReady(a, b, k, 1, c)
  {
    forall p | BandStart(1, k) <= p <= BandEnd(1, k, |b|)
      ensures Admissible(Osa, a, b, k, 0, p, c.current[p])
    {
      Border(Osa, a, b, 0, p);
      ExactAdmissible(Osa, a, b, k, 0, p, c.current[p]);
    }
  }

  /** What row i-1 leaves behind is what row i needs: the band moves right by at
      most one column, and the one transposition operand that row i-1 did not
      refresh still holds its initial value, which is far enough from the diagonal. */
  lemma RowHandover<T>(a: seq<T>, b: seq<T>, k: nat, i: nat, c: Cursor)
    requires 2 <= i <= |a| <= |b|
    requires RowDone(a, b, k, i - 1, c)
    ensures RowReady(a, b, k, i, c)
  {
    var current, previous := c.current, c.previous;
    assert forall p :: BandStart(i - 1, k) <= p <= Min(|b|, BandEnd(i - 1, k, |b|) + 1) ==>
             Admissible(Osa, a, b, k, i - 1, p, current[p]);
    assert forall p :: BandStart(i - 1, k) - 1 <= p <= BandEnd(i - 1, k, |b|) - 2 ==>
             Admissible(Osa, a, b, k, i - 2, p, previous[p]);
    forall p | BandStart(i, k) - 2 <= p <= BandEnd(i, k, |b|) - 2 && 0 <= p
      ensures BackOk(Osa, a, b, k, i - 2, p, previous[p])
    {
      if p >= i + k - 2 {
        IotaBackOk(Osa, a, b, k, i - 2, p);
      } else {
        assert Admissible(Osa, a, b, k, i - 2, p, previous[p]);
      }
    }
  }

  /** A finished row whose minimum exceeds K proves that the distance does. */
  lemma RowDoneAbove<T>(a: seq<T>, b: seq<T>, k: nat, i: nat, c: Cursor)
    requires 1 <= i <= |a| <= |b| && |b| - |a| <= k
    requires RowDone(a, b, k, i, c) && c.rowMin > k
    ensures Distance(Osa, a, b) > k
  {
    RowAboveBound(Osa, a, b, k, i, c.current, BandStart(i, k), BandEnd(i, k, |b|), c.rowMin);
  }

  /** After the last row the last cell of the band is cell (n, m), and it is the
      distance when that is at most K and above K otherwise. */
  lemma LastRow<T>(a: seq<T>, b: seq<T>, k: nat, c: Cursor)
    requires 1 <= |a| <= |b| && |b| - |a| <= k
    requires RowDone(a, b, k, |a|, c)
    ensures BandEnd(|a|, k, |b|) == |b|
    ensures Distance(Osa, a, b) <= k ==> c.current[|b|] == Distance(Osa, a, b)
    ensures Distance(Osa, a, b) > k ==> c.current[|b|] > k
  {
    assert Admissible(Osa, a, b, k, |a|, |b|, c.current[|b|]);
    FinalCell(Osa, a, b, k, c.current[|b|]);
  }
}
