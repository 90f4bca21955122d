/** The cell expression every loop evaluates, written once.  Each variant feeds it
    from its own buffers; what the operands stand for is the variant's business. */
module Cells {
  import opened EditDistance

  /** The Levenshtein cell: the cheapest of a deletion after `up`, an insertion after
      `left` and a substitution (free for equal characters) after `diag`. */
  method LevCell<T(==)>(subject: seq<T>, query: seq<T>, i: nat, j: nat, up: nat, left: nat, diag: nat)
    returns (cell: nat)
    requires 1 <= i <= |subject| && 1 <= j <= |query|
    ensures cell == Step(Levenshtein, Swapped(subject, query, i, j), Cost(subject, query, i, j), up, left, diag, 0)
    ensures up == Dist(Levenshtein, subject, query, i - 1, j) && left == Dist(Levenshtein, subject, query, i, j - 1) &&
            diag == Dist(Levenshtein, subject, query, i - 1, j - 1) ==>
              cell == Dist(Levenshtein, subject, query, i, j)
  {
    var cost := if subject[i - 1] == query[j - 1] then 0 else 1;
    cell := Min3(up + 1, left + 1, diag + cost);
    Recurrence(Levenshtein, subject, query, i, j);
  }

  /** The OSA cell: the Levenshtein cell and, where the last two characters of the
      prefixes appear swapped, a transposition after `back`. */
  method OsaCell<T(==)>(subject: seq<T>, query: seq<T>, i: nat, j: nat, up: nat, left: nat, diag: nat, back: nat)
    returns (cell: nat)
    requires 1 <= i <= |subject| && 1 <= j <= |query|
    ensures cell == Step(Osa, Swapped(subject, query, i, j), Cost(subject, query, i, j), up, left, diag, back)
    ensures up == Dist(Osa, subject, query, i - 1, j) && left == Dist(Osa, subject, query, i, j - 1) &&
            diag == Dist(Osa, subject, query, i - 1, j - 1) &&
            (i > 1 && j > 1 ==> back == Dist(Osa, subject, query, i - 2, j - 2)) ==>
              cell == Dist(Osa, subject, query, i, j)
  {
    var cost := if subject[i - 1] == query[j - 1] then 0 else 1;
    cell := Min3(up + 1, left + 1, diag + cost);
    if i > 1 && j > 1 && subject[i - 1] == query[j - 2] && subject[i - 2] == query[j - 1] {
      cell := Min(cell, back + cost);
    }
    Recurrence(Osa, subject, query, i, j);
  }
}
