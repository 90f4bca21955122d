/** The unbounded space-saving variants: `edit_dist` keeps a single row of the
    Levenshtein matrix, `damlev` two rows of the OSA matrix. */
module FullDp {
  import opened EditDistance
  import opened Common
  import opened Prealgorithm
  import opened Cells

  /** The single-row Levenshtein loop. While cell (i, j) is computed, `buffer[p]`
      holds row i for p < j and row i-1 for p >= j, and `previousCell` holds
      matrix(i-1, j-1). The result is the last cell computed. */
  method EditDistCore<T(==)>(subject: seq<T>, query: seq<T>) returns (d: nat)
    requires 1 <= |subject| && 1 <= |query|
    ensures d == Distance(Levenshtein, subject, query)
  {
    var n, m := |subject|, |query|;
    var buffer := Iota(m + 1);
    forall p | 0 <= p <= m
      ensures buffer[p] == Dist(Levenshtein, subject, query, 0, p)
    {
      Border(Levenshtein, subject, query, 0, p);
    }
    var currentCell := 0;
    for i := 1 to n + 1
      invariant |buffer| == m + 1
      invariant forall p :: 0 <= p <= m ==> buffer[p] == Dist(Levenshtein, subject, query, i - 1, p)
      invariant i > 1 ==> currentCell == buffer[m]
    {
      var previousCell := i - 1;
      Border(Levenshtein, subject, query, i - 1, 0);
      Border(Levenshtein, subject, query, i, 0);
      buffer := buffer[0 := i];
      for j := 1 to m + 1
        invariant |buffer| == m + 1
        invariant forall p :: 0 <= p < j ==> buffer[p] == Dist(Levenshtein, subject, query, i, p)
        invariant forall p :: j <= p <= m ==> buffer[p] == Dist(Levenshtein, subject, query, i - 1, p)
        invariant previousCell == Dist(Levenshtein, subject, query, i - 1, j - 1)
        invariant j > 1 ==> currentCell == buffer[j - 1]
      {
        currentCell := LevCell(subject, query, i, j, buffer[j], buffer[j - 1], previousCell);
        previousCell := buffer[j];
        buffer := buffer[j := currentCell];
      }
    }
    d := currentCell;
  }

  /** The two-row OSA loop. Between rows, `current` holds row i-1 and `previous`
      holds row i-2 up to column m-2 (its last two entries are never refreshed and
      never read). The result is the last cell computed. */
  method DamlevCore<T(==)>(subject: seq<T>, query: seq<T>) returns (d: nat)
    requires 1 <= |subject| && 1 <= |query|
    ensures d == Distance(Osa, subject, query)
  {
    var n, m := |subject|, |query|;
    var current := Iota(m + 1);
    var previous := Iota(m + 1);
    forall p | 0 <= p <= m
      ensures current[p] == Dist(Osa, subject, query, 0, p)
    {
      Border(Osa, subject, query, 0, p);
    }
    var previousPreviousCell, currentCell := 0, 0;
    for i := 1 to n + 1
      invariant |current| == m + 1 && |previous| == m + 1
      invariant forall p :: 0 <= p <= m ==> current[p] == Dist(Osa, subject, query, i - 1, p)
      invariant i > 1 ==> forall p :: 0 <= p <= m - 2 ==> previous[p] == Dist(Osa, subject, query, i - 2, p)
      invariant i > 1 ==> currentCell == Dist(Osa, subject, query, i - 1, m)
    {
      current, previous, previousPreviousCell, currentCell :=
        DamlevRow(subject, query, i, current, previous, previousPreviousCell);
    }
    d := currentCell;
  }

  /** The state of the two-row OSA loop while cell (i, j) is computed: `current[p]`
      holds row i for p < j and row i-1 for p >= j; `previous[p]` holds row i-1 for
      p < j-2 and row i-2 for j-2 <= p <= m-2; `previousCell` and
      `previousPreviousCell` hold matrix(i-1, j-1) and matrix(i-1, j-2). */
  ghost predicate OsaRowState<T>(subject: seq<T>, query: seq<T>, i: nat, j: nat,
                                     current: seq<nat>, previous: seq<nat>, previousCell: nat, previousPreviousCell: nat)
    requires 1 <= i <= |subject| && 1 <= j <= |query| + 1
  {
    && |current| == |query| + 1 && |previous| == |query| + 1
    && (forall p :: 0 <= p < j ==> current[p] == Dist(Osa, subject, query, i, p))
    && (forall p :: j <= p <= |query| ==> current[p] == Dist(Osa, subject, query, i - 1, p))
    && (forall p :: 0 <= p < j - 2 ==> previous[p] == Dist(Osa, subject, query, i - 1, p))
    && (i > 1 ==> forall p :: j - 2 <= p <= |query| - 2 && 0 <= p ==> previous[p] == Dist(Osa, subject, query, i - 2, p))
    && previousCell == Dist(Osa, subject, query, i - 1, j - 1)
    && (j > 1 ==> previousPreviousCell == Dist(Osa, subject, query, i - 1, j - 2))
  }

  /** One row of the two-row OSA loop. The incoming `previousPreviousCell` is stale
      and is overwritten before it is read; the last two entries of `previous` are
      not refreshed, and no later row reads them. */
  method DamlevRow<T(==)>(subject: seq<T>, query: seq<T>, i: nat, current: seq<nat>, previous: seq<nat>,
                          staleCell: nat)
    returns (current': seq<nat>, previous': seq<nat>, previousPreviousCell: nat, currentCell: nat)
    requires 1 <= i <= |subject| && 1 <= |query|
    requires |current| == |query| + 1 && |previous| == |query| + 1
    requires forall p :: 0 <= p <= |query| ==> current[p] == Dist(Osa, subject, query, i - 1, p)
    requires i > 1 ==> forall p :: 0 <= p <= |query| - 2 ==> previous[p] == Dist(Osa, subject, query, i - 2, p)
    ensures |current'| == |query| + 1 && |previous'| == |query| + 1
    ensures forall p :: 0 <= p <= |query| ==> current'[p] == Dist(Osa, subject, query, i, p)
    ensures forall p :: 0 <= p <= |query| - 2 ==> previous'[p] == Dist(Osa, subject, query, i - 1, p)
    ensures currentCell == Dist(Osa, subject, query, i, |query|)
  {
    var m := |query|;
    Border(Osa, subject, query, i - 1, 0);
    Border(Osa, subject, query, i, 0);
    current', previous' := current[0 := i], previous;
    var previousCell: nat := i - 1;
    previousPreviousCell, currentCell := staleCell, 0;
    for j := 1 to m + 1
      invariant OsaRowState(subject, query, i, j, current', previous', previousCell, previousPreviousCell)
      invariant j > 1 ==> currentCell == current'[j - 1]
    {
      current', previous', previousCell, previousPreviousCell, currentCell :=
        DamlevCell(subject, query, i, j, current', previous', previousCell, previousPreviousCell);
    }
  }

  /** One cell of the two-row OSA loop and the update that moves the state on. */
  method DamlevCell<T(==)>(subject: seq<T>, query: seq<T>, i: nat, j: nat,
                           current: seq<nat>, previous: seq<nat>, previousCell: nat, previousPreviousCell: nat)
    returns (current': seq<nat>, previous': seq<nat>, previousCell': nat, previousPreviousCell': nat, currentCell: nat)
    requires 1 <= i <= |subject| && 1 <= j <= |query|
    requires OsaRowState(subject, query, i, j, current, previous, previousCell, previousPreviousCell)
    ensures OsaRowState(subject, query, i, j + 1, current', previous', previousCell', previousPreviousCell')
    ensures currentCell == current'[j] == Dist(Osa, subject, query, i, j)
  {
    currentCell := OsaCell(subject, query, i, j, current[j], current[j - 1], previousCell,
                           if i > 1 && j > 1 then previous[j - 2] else 0);
    previous' := if j > 1 then previous[j - 2 := previousPreviousCell] else previous;
    previousPreviousCell' := previousCell;
    previousCell' := current[j];
    current' := current[j := currentCell];
  }

  /** The `edit_dist` function: the pre-algorithm without the bound check, the
      buffer check (the trimmed query must fit), then the single-row loop. */
  method EditDist<T(==)>(s0: Arg<T>, s1: Arg<T>) returns (r: int)
    ensures s0.Null? || s1.Null? ==> r == Max(Length(s0), Length(s1))
    ensures var p := Prepare(s0, s1, 0, false);
            s0.Value? && s1.Value? && !(p.Run? && |p.query| + 1 > BufferSize) ==>
              r == Distance(Levenshtein, s0.chars, s1.chars)
    ensures var p := Prepare(s0, s1, 0, false);
            p.Run? && |p.query| + 1 > BufferSize ==> r == 0
  {
    var p := Prepare(s0, s1, 0, false);
    if s0.Value? && s1.Value? {
      PrepareSound(Levenshtein, s0, s1, 0, false);
    }
    match p
    case Exit(v) =>
      r := v;
    case Run(subject, query) =>
      if |query| + 1 > BufferSize {
        r := 0;
      } else {
        r := EditDistCore(subject, query);
      }
  }

  /** The `damlev` function: as `edit_dist`, with room for two rows. */
  method Damlev<T(==)>(s0: Arg<T>, s1: Arg<T>) returns (r: int)
    ensures s0.Null? || s1.Null? ==> r == Max(Length(s0), Length(s1))
    ensures var p := Prepare(s0, s1, 0, false);
            s0.Value? && s1.Value? && !(p.Run? && 2 * (|p.query| + 1) > BufferSize) ==>
              r == Distance(Osa, s0.chars, s1.chars)
    ensures var p := Prepare(s0, s1, 0, false);
            p.Run? && 2 * (|p.query| + 1) > BufferSize ==> r == 0
  {
    var p := Prepare(s0, s1, 0, false);
    if s0.Value? && s1.Value? {
      PrepareSound(Osa, s0, s1, 0, false);
    }
    match p
    case Exit(v) =>
      r := v;
    case Run(subject, query) =>
      if 2 * (|query| + 1) > BufferSize {
        r := 0;
      } else {
        r := DamlevCore(subject, query);
      }
  }
}
