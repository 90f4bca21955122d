/** The two full-matrix reference computations: `levenshtein_distance` of the matrix
    tool, which also tags every cell with the moves that attain it, and `damlev2D`,
    the full OSA matrix. */
module Reference {
  import opened EditDistance

  /** The arrows the matrix tool records: a free match, a deletion (down), an
      insertion (right) and a substitution (diagonal at cost one). */
  datatype Arrow = Match | Down | Right | Diagonal

  /** Tags of an inner cell, in the order the tool appends them. */
  function Tags(cost: nat, cell: nat, up: nat, left: nat, diag: nat): seq<Arrow>
  {
    (if cost == 0 then [Match] else []) +
    (if cell == up + 1 then [Down] else []) +
    (if cell == left + 1 then [Right] else []) +
    (if cell == diag + 1 then [Diagonal] else [])
  }

  /** A tag is present exactly when its condition holds, so ties are all recorded. */
  lemma TagsRecordTies(cost: nat, cell: nat, up: nat, left: nat, diag: nat)
    ensures Match in Tags(cost, cell, up, left, diag) <==> cost == 0
    ensures Down in Tags(cost, cell, up, left, diag) <==> cell == up + 1
    ensures Right in Tags(cost, cell, up, left, diag) <==> cell == left + 1
    ensures Diagonal in Tags(cost, cell, up, left, diag) <==> cell == diag + 1
  {
  }

  /** Tags of cell (i, j) of the Levenshtein matrix of `a` against `b`: row 0 is
      tagged as insertions (including the corner, whose deletion tag is overwritten),
      column 0 as deletions. */
  function CellTags<T(==)>(a: seq<T>, b: seq<T>, i: nat, j: nat): seq<Arrow>
    requires i <= |a| && j <= |b|
  {
    if i == 0 then [Right]
    else if j == 0 then [Down]
    else Tags(Cost(a, b, i, j), Dist(Levenshtein, a, b, i, j), Dist(Levenshtein, a, b, i - 1, j),
              Dist(Levenshtein, a, b, i, j - 1), Dist(Levenshtein, a, b, i - 1, j - 1))
  }

  /** Every inner cell carries at least one tag, and every tag it carries names a
      move that attains the cell's value, so following any tag back from (i, j)
      retraces an optimal alignment. */
  lemma {:induction false} TagsTraceBack<T>(a: seq<T>, b: seq<T>, i: nat, j: nat)
    requires 1 <= i <= |a| && 1 <= j <= |b|
    ensures CellTags(a, b, i, j) != []
    ensures Match in CellTags(a, b, i, j) ==>
              a[i - 1] == b[j - 1] && Dist(Levenshtein, a, b, i, j) == Dist(Levenshtein, a, b, i - 1, j - 1)
    ensures Down in CellTags(a, b, i, j) ==> Dist(Levenshtein, a, b, i, j) == Dist(Levenshtein, a, b, i - 1, j) + 1
    ensures Right in CellTags(a, b, i, j) ==> Dist(Levenshtein, a, b, i, j) == Dist(Levenshtein, a, b, i, j - 1) + 1
    ensures Diagonal in CellTags(a, b, i, j) ==> Dist(Levenshtein, a, b, i, j) == Dist(Levenshtein, a, b, i - 1, j - 1) + 1
  {
    TagsRecordTies(Cost(a, b, i, j), Dist(Levenshtein, a, b, i, j), Dist(Levenshtein, a, b, i - 1, j),
                   Dist(Levenshtein, a, b, i, j - 1), Dist(Levenshtein, a, b, i - 1, j - 1));
    Attained(Levenshtein, a, b, i, j);
    if a[i - 1] == b[j - 1] {
      MatchingLast(Levenshtein, a, b, i, j);
    }
  }

  /** Cell (i, j) of the tool's matrix and its tags, from its three neighbours. */
  method LevenshteinCell<T(==)>(s1: seq<T>, s2: seq<T>, i: nat, j: nat, up: nat, left: nat, diag: nat)
    returns (cell: nat, t: seq<Arrow>)
    requires 1 <= i <= |s1| && 1 <= j <= |s2|
    requires up == Dist(Levenshtein, s1, s2, i - 1, j) && left == Dist(Levenshtein, s1, s2, i, j - 1)
    requires diag == Dist(Levenshtein, s1, s2, i - 1, j - 1)
    ensures cell == Dist(Levenshtein, s1, s2, i, j)
    ensures t == CellTags(s1, s2, i, j)
  {
    var cost := if s1[i - 1] == s2[j - 1] then 0 else 1;
    cell := Min3(up + 1, left + 1, diag + cost);
    Recurrence(Levenshtein, s1, s2, i, j);
    t := Tags(cost, cell, up, left, diag);
  }

  /** Row i of the tool's matrix and its tags, from row i-1. */
  method LevenshteinRow<T(==)>(s1: seq<T>, s2: seq<T>, i: nat, up: seq<nat>) returns (row: seq<nat>, tags: seq<seq<Arrow>>)
    requires 1 <= i <= |s1| && |up| == |s2| + 1
    requires forall p :: 0 <= p <= |s2| ==> up[p] == Dist(Levenshtein, s1, s2, i - 1, p)
    ensures RowExact(s1, s2, i, row, tags)
  {
    Border(Levenshtein, s1, s2, i, 0);
    row, tags := [i], [[Down]];
    for j := 1 to |s2| + 1
      invariant |row| == j && |tags| == j
      invariant forall p :: 0 <= p < j ==> row[p] == Dist(Levenshtein, s1, s2, i, p)
      invariant forall p :: 0 <= p < j ==> tags[p] == CellTags(s1, s2, i, p)
    {
      var cell, t := LevenshteinCell(s1, s2, i, j, up[j], row[j - 1], up[j - 1]);
      row, tags := row + [cell], tags + [t];
    }
  }

  /** Row r of the tool's matrix and its tags, as `levenshtein_distance` stores them. */
  ghost predicate RowExact<T>(s1: seq<T>, s2: seq<T>, r: nat, row: seq<nat>, tags: seq<seq<Arrow>>)
  {
    && r <= |s1| && |row| == |s2| + 1 && |tags| == |s2| + 1
    && (forall j :: 0 <= j <= |s2| ==> row[j] == Dist(Levenshtein, s1, s2, r, j))
    && (forall j :: 0 <= j <= |s2| ==> tags[j] == CellTags(s1, s2, r, j))
  }

  /** The matrix tool's `levenshtein_distance`: the full matrix and its tags, filled
      row by row (row 0 and column 0 hold the prefix lengths). */
  method LevenshteinMatrix<T(==)>(s1: seq<T>, s2: seq<T>) returns (dp: seq<seq<nat>>, arrows: seq<seq<seq<Arrow>>>)
    ensures |dp| == |s1| + 1 && |arrows| == |s1| + 1
    ensures forall i :: 0 <= i <= |s1| ==> |dp[i]| == |s2| + 1 && |arrows[i]| == |s2| + 1
    ensures forall i, j :: 0 <= i <= |s1| && 0 <= j <= |s2| ==> dp[i][j] == Dist(Levenshtein, s1, s2, i, j)
    ensures forall i, j :: 0 <= i <= |s1| && 0 <= j <= |s2| ==> arrows[i][j] == CellTags(s1, s2, i, j)
  {
    var m := |s2|;
    var row0 := Iota(m + 1);
    forall j | 0 <= j <= m
      ensures row0[j] == Dist(Levenshtein, s1, s2, 0, j)
    {
      Border(Levenshtein, s1, s2, 0, j);
    }
    dp := [row0];
    arrows := [seq(m + 1, _ => [Right])];
    assert RowExact(s1, s2, 0, dp[0], arrows[0]);
    for i := 1 to |s1| + 1
      invariant |dp| == i && |arrows| == i
      invariant forall r :: 0 <= r < i ==> RowExact(s1, s2, r, dp[r], arrows[r])
    {
      var row, tags := LevenshteinRow(s1, s2, i, dp[i - 1]);
      dp, arrows := dp + [row], arrows + [tags];
    }
  }

  /** Row i of the full OSA matrix, from rows i-1 (`up`) and i-2 (`back`). */
  method Damlev2DRow<T(==)>(s1: seq<T>, s2: seq<T>, i: nat, up: seq<nat>, back: seq<nat>) returns (row: seq<nat>)
    requires 1 <= i <= |s1| && |up| == |s2| + 1 && (i > 1 ==> |back| == |s2| + 1)
    requires forall p :: 0 <= p <= |s2| ==> up[p] == Dist(Osa, s1, s2, i - 1, p)
    requires i > 1 ==> forall p :: 0 <= p <= |s2| ==> back[p] == Dist(Osa, s1, s2, i - 2, p)
    ensures |row| == |s2| + 1
    ensures forall p :: 0 <= p <= |s2| ==> row[p] == Dist(Osa, s1, s2, i, p)
  {
    Border(Osa, s1, s2, i, 0);
    row := [i];
    for j := 1 to |s2| + 1
      invariant |row| == j
      invariant forall p :: 0 <= p < j ==> row[p] == Dist(Osa, s1, s2, i, p)
    {
      var cost := if s1[i - 1] == s2[j - 1] then 0 else 1;
      var cell := Min3(up[j] + 1, row[j - 1] + 1, up[j - 1] + cost);
      if i > 1 && j > 1 && s1[i - 1] == s2[j - 2] && s1[i - 2] == s2[j - 1] {
        cell := Min(cell, back[j - 2] + cost);
      }
      assert cell == Dist(Osa, s1, s2, i, j) by {
        Recurrence(Osa, s1, s2, i, j);
      }
      row := row + [cell];
    }
  }

  /** `damlev2D`: the full OSA matrix of the untrimmed strings; the result is its
      last cell. */
  method Damlev2D<T(==)>(s1: seq<T>, s2: seq<T>) returns (d: nat)
    ensures d == Distance(Osa, s1, s2)
  {
    var m := |s2|;
    var row0 := Iota(m + 1);
    forall j | 0 <= j <= m
      ensures row0[j] == Dist(Osa, s1, s2, 0, j)
    {
      Border(Osa, s1, s2, 0, j);
    }
    var dp := [row0];
    for i := 1 to |s1| + 1
      invariant |dp| == i
      invariant forall r :: 0 <= r < i ==> |dp[r]| == m + 1
      invariant forall r, j :: 0 <= r < i && 0 <= j <= m ==> dp[r][j] == Dist(Osa, s1, s2, r, j)
    {
      var row := Damlev2DRow(s1, s2, i, dp[i - 1], if i > 1 then dp[i - 2] else []);
      dp := dp + [row];
    }
    d := dp[|s1|][m];
  }

  /** A pair from the library's unit tests: "test" and "tset" differ by one
      transposition. */
  lemma TransposedPair()
    ensures Distance(Osa, "test", "tset") == 1
  {
    var a, b := "test", "tset";
    Border(Osa, a, b, 0, 0);
    Moves(Osa, a, b, 1, 1);
    Moves(Osa, a, b, 3, 3);
    Moves(Osa, a, b, 4, 4);
    ZeroIffEqual(Osa, a, b);
  }
}
