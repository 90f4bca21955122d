/** The reference recurrences every variant is measured against.

    `Dist(metric, a, b, i, j)` is the cell (i, j) of the dynamic-programming matrix
    for the prefixes a[..i] and b[..j]: row 0 and column 0 hold the prefix lengths,
    and every inner cell is the cheapest of a deletion, an insertion and a
    substitution (free when the two characters agree).  For the restricted
    Damerau-Levenshtein metric (optimal string alignment, "OSA") a cell whose two
    last characters appear swapped may also be reached from two rows and two
    columns back.  The lemmas in this module are the facts about the matrix the
    space-saving and banded algorithms rely on. */
module EditDistance {

  /** Which recurrence a variant computes. */
  datatype Metric = Levenshtein | Osa

  function Min(x: int, y: int): (r: int)
    ensures r <= x && r <= y
    ensures r == x || r == y
  {
    if x <= y then x else y
  }

  function Max(x: int, y: int): (r: int)
    ensures r >= x && r >= y
    ensures r == x || r == y
  {
    if x >= y then x else y
  }

  function Min3(x: int, y: int, z: int): (r: int)
    ensures r <= x && r <= y && r <= z
    ensures r == x || r == y || r == z
  {
    Min(Min(x, y), z)
  }

  /** The minimum of three values with no contract of its own: the form in which
      the as-written models state `std::min`, so that runs on concrete strings
      unfold directly. */
  function Least(x: int, y: int, z: int): int
  {
    if x <= y && x <= z then x else if y <= z then y else z
  }

  function Abs(x: int): (r: nat)
    ensures r == x || r == -x
  {
    if x < 0 then -x else x
  }

  /** Substitution cost of a[i-1] against b[j-1]: 0 for equal characters, else 1. */
  function Cost<T(==)>(a: seq<T>, b: seq<T>, i: nat, j: nat): (c: nat)
    requires 1 <= i <= |a| && 1 <= j <= |b|
    ensures c == 0 <==> a[i-1] == b[j-1]
    ensures c <= 1
  {
    if a[i-1] == b[j-1] then 0 else 1
  }

  /** The last two characters of a[..i] are those of b[..j] in swapped order. */
  predicate Swapped<T(==)>(a: seq<T>, b: seq<T>, i: nat, j: nat)
    requires i <= |a| && j <= |b|
  {
    i > 1 && j > 1 && a[i-1] == b[j-2] && a[i-2] == b[j-1]
  }

  /** One step of the recurrence: the cheapest way into a cell given its neighbours
      `up` (i-1, j), `left` (i, j-1), `diag` (i-1, j-1) and, for a swapped pair under
      the OSA metric, `back` (i-2, j-2). */
  function Step(metric: Metric, swapped: bool, cost: nat, up: nat, left: nat, diag: nat, back: nat): nat
  {
    var lev := Min3(up + 1, left + 1, diag + cost);
    if metric == Osa && swapped then Min(lev, back + cost) else lev
  }

  lemma StepSymmetric(metric: Metric, swapped: bool, cost: nat, up: nat, left: nat, diag: nat, back: nat)
    ensures Step(metric, swapped, cost, up, left, diag, back) == Step(metric, swapped, cost, left, up, diag, back)
  {
  }

  /** 0, 1, ..., n-1: row 0 of every matrix. */
  function Iota(n: nat): (r: seq<nat>)
    ensures |r| == n
    ensures forall p :: 0 <= p < n ==> r[p] == p
  {
    seq(n, p => p)
  }

  /** Two consecutive rows of the matrix; `prev` is empty next to row 0. */
  datatype Rows = Rows(prev: seq<nat>, cur: seq<nat>)

  /** Cells 0..j of row i, given row i-1 (`up`) and row i-2 (`back`). */
  function RowPrefix<T(==)>(metric: Metric, a: seq<T>, b: seq<T>, i: nat, up: seq<nat>, back: seq<nat>, j: nat): (row: seq<nat>)
    requires 1 <= i <= |a| && j <= |b| && |up| == |b| + 1 && (i > 1 ==> |back| == |b| + 1)
    ensures |row| == j + 1
    decreases j
  {
    if j == 0 then [i]
    else
      var row := RowPrefix(metric, a, b, i, up, back, j - 1);
      row + [Step(metric, Swapped(a, b, i, j), Cost(a, b, i, j), up[j], row[j - 1], up[j - 1],
                  if i > 1 && j > 1 then back[j - 2] else 0)]
  }

  /** Rows i-1 and i of the matrix of `a` against `b`, computed top-down. */
  function Matrix<T(==)>(metric: Metric, a: seq<T>, b: seq<T>, i: nat): (r: Rows)
    requires i <= |a|
    ensures |r.cur| == |b| + 1
    ensures i > 0 ==> |r.prev| == |b| + 1
    decreases i
  {
    if i == 0 then Rows([], Iota(|b| + 1))
    else
      var r := Matrix(metric, a, b, i - 1);
      Rows(r.cur, RowPrefix(metric, a, b, i, r.cur, r.prev, |b|))
  }

  /** Cell (i, j) of the distance matrix of `a` against `b`. */
  function Dist<T(==)>(metric: Metric, a: seq<T>, b: seq<T>, i: nat, j: nat): nat
    requires i <= |a| && j <= |b|
  {
    Matrix(metric, a, b, i).cur[j]
  }

  /** The distance between two whole strings. */
  function Distance<T(==)>(metric: Metric, a: seq<T>, b: seq<T>): nat
  {
    Dist(metric, a, b, |a|, |b|)
  }

  /** A cell of a row prefix is not changed by computing further cells. */
  lemma {:induction false} RowPrefixStable<T>(metric: Metric, a: seq<T>, b: seq<T>, i: nat, up: seq<nat>, back: seq<nat>, j: nat, k: nat)
    requires 1 <= i <= |a| && j <= k <= |b| && |up| == |b| + 1 && (i > 1 ==> |back| == |b| + 1)
    ensures RowPrefix(metric, a, b, i, up, back, k)[j] == RowPrefix(metric, a, b, i, up, back, j)[j]
    decreases k
  {
    if j < k {
      RowPrefixStable(metric, a, b, i, up, back, j, k - 1);
    }
  }

  /** Row 0 and column 0 hold the prefix lengths. */
  lemma Border<T>(metric: Metric, a: seq<T>, b: seq<T>, i: nat, j: nat)
    requires i <= |a| && j <= |b|
    ensures i == 0 ==> Dist(metric, a, b, i, j) == j
    ensures j == 0 ==> Dist(metric, a, b, i, j) == i
  {
    if i > 0 && j == 0 {
      var r := Matrix(metric, a, b, i - 1);
      RowPrefixStable(metric, a, b, i, r.cur, r.prev, 0, |b|);
    }
  }

  /** The recurrence at an inner cell, read off the row it is computed in. */
  lemma Recurrence<T>(metric: Metric, a: seq<T>, b: seq<T>, i: nat, j: nat)
    requires 1 <= i <= |a| && 1 <= j <= |b|
    ensures Dist(metric, a, b, i, j) ==
            Step(metric, Swapped(a, b, i, j), Cost(a, b, i, j),
                 Dist(metric, a, b, i - 1, j), Dist(metric, a, b, i, j - 1), Dist(metric, a, b, i - 1, j - 1),
                 if i > 1 && j > 1 then Dist(metric, a, b, i - 2, j - 2) else 0)
  {
    var r := Matrix(metric, a, b, i - 1);
    RowPrefixStable(metric, a, b, i, r.cur, r.prev, j, |b|);
    RowPrefixStable(metric, a, b, i, r.cur, r.prev, j - 1, |b|);
    if i > 1 && j > 1 {
      assert r.prev == Matrix(metric, a, b, i - 2).cur;
    }
  }

  /** The recurrence at an inner cell, as an equation on the neighbouring cells,
      together with the values of those neighbours that lie on the border. */
  lemma Unfold<T>(metric: Metric, a: seq<T>, b: seq<T>, i: nat, j: nat)
    requires 1 <= i <= |a| && 1 <= j <= |b|
    ensures Dist(metric, a, b, i, j) ==
            Step(metric, Swapped(a, b, i, j), Cost(a, b, i, j),
                 Dist(metric, a, b, i - 1, j), Dist(metric, a, b, i, j - 1), Dist(metric, a, b, i - 1, j - 1),
                 if i > 1 && j > 1 then Dist(metric, a, b, i - 2, j - 2) else 0)
    ensures i == 1 ==> Dist(metric, a, b, i - 1, j) == j && Dist(metric, a, b, i - 1, j - 1) == j - 1
    ensures j == 1 ==> Dist(metric, a, b, i, j - 1) == i && Dist(metric, a, b, i - 1, j - 1) == i - 1
    ensures i == 2 && j > 1 ==> Dist(metric, a, b, i - 2, j - 2) == j - 2
    ensures j == 2 && i > 1 ==> Dist(metric, a, b, i - 2, j - 2) == i - 2
  {
    Recurrence(metric, a, b, i, j);
    Border(metric, a, b, i - 1, j);
    Border(metric, a, b, i, j - 1);
    Border(metric, a, b, i - 1, j - 1);
    if i > 1 && j > 1 {
      Border(metric, a, b, i - 2, j - 2);
    }
  }

  /** Every move the recurrence offers is an upper bound on the cell. */
  lemma Moves<T>(metric: Metric, a: seq<T>, b: seq<T>, i: nat, j: nat)
    requires 1 <= i <= |a| && 1 <= j <= |b|
    ensures Dist(metric, a, b, i, j) <= Dist(metric, a, b, i - 1, j) + 1
    ensures Dist(metric, a, b, i, j) <= Dist(metric, a, b, i, j - 1) + 1
    ensures Dist(metric, a, b, i, j) <= Dist(metric, a, b, i - 1, j - 1) + Cost(a, b, i, j)
    ensures metric == Osa && Swapped(a, b, i, j) ==>
              Dist(metric, a, b, i, j) <= Dist(metric, a, b, i - 2, j - 2) + Cost(a, b, i, j)
  {
    Unfold(metric, a, b, i, j);
  }

  /** ... and the cell is attained by one of them. */
  lemma Attained<T>(metric: Metric, a: seq<T>, b: seq<T>, i: nat, j: nat)
    requires 1 <= i <= |a| && 1 <= j <= |b|
    ensures var d := Dist(metric, a, b, i, j);
            d == Dist(metric, a, b, i - 1, j) + 1 ||
            d == Dist(metric, a, b, i, j - 1) + 1 ||
            d == Dist(metric, a, b, i - 1, j - 1) + Cost(a, b, i, j) ||
            (metric == Osa && Swapped(a, b, i, j) && d == Dist(metric, a, b, i - 2, j - 2) + Cost(a, b, i, j))
  {
    Unfold(metric, a, b, i, j);
  }

  /** A cell is at least the length difference of its prefixes. */
  lemma {:induction false} Bounds<T>(metric: Metric, a: seq<T>, b: seq<T>, i: nat, j: nat)
    requires i <= |a| && j <= |b|
    ensures i - j <= Dist(metric, a, b, i, j) && j - i <= Dist(metric, a, b, i, j)
    decreases i + j
  {
    if i == 0 || j == 0 {
      Border(metric, a, b, i, j);
    } else {
      Bounds(metric, a, b, i - 1, j);
      Bounds(metric, a, b, i, j - 1);
      Bounds(metric, a, b, i - 1, j - 1);
      if i > 1 && j > 1 {
        Bounds(metric, a, b, i - 2, j - 2);
      }
      Unfold(metric, a, b, i, j);
    }
  }

  /** A cell is at most the longer of its two prefix lengths. */
  lemma {:induction false} AtMostLonger<T>(metric: Metric, a: seq<T>, b: seq<T>, i: nat, j: nat)
    requires i <= |a| && j <= |b|
    ensures Dist(metric, a, b, i, j) <= i + j
    ensures Dist(metric, a, b, i, j) <= i || Dist(metric, a, b, i, j) <= j
    decreases i + j
  {
    if i == 0 || j == 0 {
      Border(metric, a, b, i, j);
    } else {
      AtMostLonger(metric, a, b, i - 1, j - 1);
      Moves(metric, a, b, i, j);
      assert Cost(a, b, i, j) <= 1;
    }
  }

  /** Removing the last character of the first prefix lowers the distance by at most one. */
  lemma {:induction false} LipschitzUp<T>(metric: Metric, a: seq<T>, b: seq<T>, i: nat, j: nat)
    requires 1 <= i <= |a| && j <= |b|
    ensures Dist(metric, a, b, i - 1, j) <= Dist(metric, a, b, i, j) + 1
    decreases j
  {
    if j == 0 {
      Border(metric, a, b, i, 0);
      Border(metric, a, b, i - 1, 0);
    } else if i == 1 {
      Border(metric, a, b, 0, j);
      Bounds(metric, a, b, 1, j);
    } else {
      var d := Dist(metric, a, b, i, j);
      Attained(metric, a, b, i, j);
      Moves(metric, a, b, i - 1, j);
      if d == Dist(metric, a, b, i - 1, j) + 1 {
      } else if d == Dist(metric, a, b, i, j - 1) + 1 {
        LipschitzUp(metric, a, b, i, j - 1);
      } else if d == Dist(metric, a, b, i - 1, j - 1) + Cost(a, b, i, j) {
      } else {
        // the swap: both characters of the pair match across, so row i-1
        // reaches column j through the swapped-in character
        Moves(metric, a, b, i - 1, j - 1);
        if Cost(a, b, i, j) == 0 {
          assert Cost(a, b, i - 1, j) == 0;
          if i > 2 {
            Moves(metric, a, b, i - 2, j - 1);
          } else {
            Border(metric, a, b, 0, j - 1);
            Border(metric, a, b, 0, j - 2);
          }
        }
      }
    }
  }

  /** Removing the last character of either prefix lowers the distance by at most one:
      neighbouring cells differ by at most one in both directions. */
  lemma Lipschitz<T>(metric: Metric, a: seq<T>, b: seq<T>, i: nat, j: nat)
    requires i <= |a| && j <= |b|
    ensures i > 0 ==> Dist(metric, a, b, i - 1, j) <= Dist(metric, a, b, i, j) + 1
    ensures j > 0 ==> Dist(metric, a, b, i, j - 1) <= Dist(metric, a, b, i, j) + 1
  {
    if i > 0 {
      LipschitzUp(metric, a, b, i, j);
    }
    if j > 0 {
      LipschitzUp(metric, b, a, j, i);
      Symmetric(metric, a, b, i, j);
      Symmetric(metric, a, b, i, j - 1);
    }
  }

  /** Walking down the diagonal never lowers the distance. */
  lemma DiagonalMonotone<T>(metric: Metric, a: seq<T>, b: seq<T>, i: nat, j: nat)
    requires 1 <= i <= |a| && 1 <= j <= |b|
    ensures Dist(metric, a, b, i - 1, j - 1) <= Dist(metric, a, b, i, j)
  {
    Attained(metric, a, b, i, j);
    Lipschitz(metric, a, b, i - 1, j);
    Lipschitz(metric, a, b, i, j - 1);
    if metric == Osa && Swapped(a, b, i, j) {
      Moves(metric, a, b, i - 1, j - 1);
    }
  }

  /** Walking down the diagonal any number of steps never lowers the distance. */
  lemma {:induction false} DiagonalMonotoneFrom<T>(metric: Metric, a: seq<T>, b: seq<T>, i: nat, j: nat, i': nat, j': nat)
    requires i <= i' <= |a| && j <= j' <= |b| && i' - i == j' - j
    ensures Dist(metric, a, b, i, j) <= Dist(metric, a, b, i', j')
    decreases i' - i
  {
    if i < i' {
      DiagonalMonotoneFrom(metric, a, b, i, j, i' - 1, j' - 1);
      DiagonalMonotone(metric, a, b, i', j');
      assert Dist(metric, a, b, i, j) <= Dist(metric, a, b, i' - 1, j' - 1) <= Dist(metric, a, b, i', j');
    } else {
      assert i == i' && j == j';
    }
  }

  /** When the last characters agree the cell equals its diagonal predecessor. */
  lemma MatchingLast<T>(metric: Metric, a: seq<T>, b: seq<T>, i: nat, j: nat)
    requires 1 <= i <= |a| && 1 <= j <= |b| && a[i-1] == b[j-1]
    ensures Dist(metric, a, b, i, j) == Dist(metric, a, b, i - 1, j - 1)
  {
    Moves(metric, a, b, i, j);
    DiagonalMonotone(metric, a, b, i, j);
  }

  /** A cell depends only on the two prefixes it measures. */
  lemma {:induction false} PrefixOnly<T>(metric: Metric, a: seq<T>, b: seq<T>, a': seq<T>, b': seq<T>, i: nat, j: nat)
    requires i <= |a| && j <= |b| && i <= |a'| && j <= |b'|
    requires forall k :: 0 <= k < i ==> a[k] == a'[k]
    requires forall k :: 0 <= k < j ==> b[k] == b'[k]
    ensures Dist(metric, a, b, i, j) == Dist(metric, a', b', i, j)
    decreases i + j
  {
    if i > 0 && j > 0 {
      PrefixOnly(metric, a, b, a', b', i - 1, j);
      PrefixOnly(metric, a, b, a', b', i, j - 1);
      PrefixOnly(metric, a, b, a', b', i - 1, j - 1);
      if i > 1 && j > 1 {
        PrefixOnly(metric, a, b, a', b', i - 2, j - 2);
      }
      Unfold(metric, a, b, i, j);
      Unfold(metric, a', b', i, j);
      assert Cost(a, b, i, j) == Cost(a', b', i, j);
      assert Swapped(a, b, i, j) == Swapped(a', b', i, j);
    } else {
      Border(metric, a, b, i, j);
      Border(metric, a', b', i, j);
    }
  }

  /** The matrix of `b` against `a` is the transpose of that of `a` against `b`. */
  lemma {:induction false} Symmetric<T>(metric: Metric, a: seq<T>, b: seq<T>, i: nat, j: nat)
    requires i <= |a| && j <= |b|
    ensures Dist(metric, a, b, i, j) == Dist(metric, b, a, j, i)
    decreases i + j
  {
    if i > 0 && j > 0 {
      Symmetric(metric, a, b, i - 1, j);
      Symmetric(metric, a, b, i, j - 1);
      Symmetric(metric, a, b, i - 1, j - 1);
      if i > 1 && j > 1 {
        Symmetric(metric, a, b, i - 2, j - 2);
      }
      Recurrence(metric, a, b, i, j);
      Recurrence(metric, b, a, j, i);
      assert Swapped(a, b, i, j) == Swapped(b, a, j, i);
      assert Cost(a, b, i, j) == Cost(b, a, j, i);
      var back := if i > 1 && j > 1 then Dist(metric, a, b, i - 2, j - 2) else 0;
      StepSymmetric(metric, Swapped(a, b, i, j), Cost(a, b, i, j), Dist(metric, a, b, i - 1, j),
                    Dist(metric, a, b, i, j - 1), Dist(metric, a, b, i - 1, j - 1), back);
    } else {
      Border(metric, a, b, i, j);
      Border(metric, b, a, j, i);
    }
  }

  /** A shared first character can be dropped from both strings: the matrix of
      c+a against c+b is that of a against b, shifted by one row and one column. */
  lemma {:induction false} DropCommonHead<T>(metric: Metric, c: T, a: seq<T>, b: seq<T>, i: nat, j: nat)
    requires 1 <= i <= |a| + 1 && 1 <= j <= |b| + 1
    ensures Dist(metric, [c] + a, [c] + b, i, j) == Dist(metric, a, b, i - 1, j - 1)
    decreases i + j
  {
    var a', b' := [c] + a, [c] + b;
    if i == 1 {
      DropHeadAgainstHead(metric, c, a, b, j);
      Border(metric, a, b, 0, j - 1);
    } else if j == 1 {
      Symmetric(metric, a', b', i, 1);
      DropHeadAgainstHead(metric, c, b, a, i);
      Border(metric, a, b, i - 1, 0);
    } else {
      DropCommonHead(metric, c, a, b, i - 1, j);
      DropCommonHead(metric, c, a, b, i, j - 1);
      DropCommonHead(metric, c, a, b, i - 1, j - 1);
      if i > 2 && j > 2 {
        DropCommonHead(metric, c, a, b, i - 2, j - 2);
      }
      DropCommonHeadStep(metric, c, a, b, i, j);
    }
  }

  /** The inductive step of DropCommonHead at an inner cell. */
  lemma DropCommonHeadStep<T>(metric: Metric, c: T, a: seq<T>, b: seq<T>, i: nat, j: nat)
    requires 2 <= i <= |a| + 1 && 2 <= j <= |b| + 1
    requires Dist(metric, [c] + a, [c] + b, i - 1, j) == Dist(metric, a, b, i - 2, j - 1)
    requires Dist(metric, [c] + a, [c] + b, i, j - 1) == Dist(metric, a, b, i - 1, j - 2)
    requires Dist(metric, [c] + a, [c] + b, i - 1, j - 1) == Dist(metric, a, b, i - 2, j - 2)
    requires i > 2 && j > 2 ==> Dist(metric, [c] + a, [c] + b, i - 2, j - 2) == Dist(metric, a, b, i - 3, j - 3)
    ensures Dist(metric, [c] + a, [c] + b, i, j) == Dist(metric, a, b, i - 1, j - 1)
  {
    if i > 2 && j > 2 {
      DropCommonHeadInner(metric, c, a, b, i, j);
    } else {
      DropCommonHeadNextToHead(metric, c, a, b, i, j);
    }
  }

  /** The step away from the shared character: both strings read the same pair
      of characters, and a swap looks at the same pair too. */
  lemma DropCommonHeadInner<T>(metric: Metric, c: T, a: seq<T>, b: seq<T>, i: nat, j: nat)
    requires 3 <= i <= |a| + 1 && 3 <= j <= |b| + 1
    requires Dist(metric, [c] + a, [c] + b, i - 1, j) == Dist(metric, a, b, i - 2, j - 1)
    requires Dist(metric, [c] + a, [c] + b, i, j - 1) == Dist(metric, a, b, i - 1, j - 2)
    requires Dist(metric, [c] + a, [c] + b, i - 1, j - 1) == Dist(metric, a, b, i - 2, j - 2)
    requires Dist(metric, [c] + a, [c] + b, i - 2, j - 2) == Dist(metric, a, b, i - 3, j - 3)
    ensures Dist(metric, [c] + a, [c] + b, i, j) == Dist(metric, a, b, i - 1, j - 1)
  {
    var a', b' := [c] + a, [c] + b;
    Unfold(metric, a', b', i, j);
    Unfold(metric, a, b, i - 1, j - 1);
    assert a'[i-1] == a[i-2] && b'[j-1] == b[j-2];
    assert Cost(a', b', i, j) == Cost(a, b, i - 1, j - 1);
    assert a'[i-2] == a[i-3] && b'[j-2] == b[j-3];
    assert Swapped(a', b', i, j) == Swapped(a, b, i - 1, j - 1);
  }

  /** The step in row or column 2: a swap here reaches back into the shared
      character, and its candidate equals the diagonal move, so it cannot lower
      the minimum. */
  lemma DropCommonHeadNextToHead<T>(metric: Metric, c: T, a: seq<T>, b: seq<T>, i: nat, j: nat)
    requires 2 <= i <= |a| + 1 && 2 <= j <= |b| + 1 && (i == 2 || j == 2)
    requires Dist(metric, [c] + a, [c] + b, i - 1, j) == Dist(metric, a, b, i - 2, j - 1)
    requires Dist(metric, [c] + a, [c] + b, i, j - 1) == Dist(metric, a, b, i - 1, j - 2)
    requires Dist(metric, [c] + a, [c] + b, i - 1, j - 1) == Dist(metric, a, b, i - 2, j - 2)
    ensures Dist(metric, [c] + a, [c] + b, i, j) == Dist(metric, a, b, i - 1, j - 1)
  {
    var a', b' := [c] + a, [c] + b;
    Unfold(metric, a', b', i, j);
    Unfold(metric, a, b, i - 1, j - 1);
    assert a'[i-1] == a[i-2] && b'[j-1] == b[j-2];
    assert Cost(a', b', i, j) == Cost(a, b, i - 1, j - 1);
    assert Dist(metric, a', b', i - 2, j - 2) == Dist(metric, a', b', i - 1, j - 1);
  }

  /** Column 1 of a matrix whose strings share their first character. */
  lemma {:induction false} DropHeadAgainstHead<T>(metric: Metric, c: T, a: seq<T>, b: seq<T>, j: nat)
    requires 1 <= j <= |b| + 1
    ensures Dist(metric, [c] + a, [c] + b, 1, j) == j - 1
    decreases j
  {
    if j > 1 {
      DropHeadAgainstHead(metric, c, a, b, j - 1);
    }
    Unfold(metric, [c] + a, [c] + b, 1, j);
  }

  /** A shared prefix can be dropped from both strings. */
  lemma {:induction false} DropCommonPrefix<T>(metric: Metric, p: seq<T>, a: seq<T>, b: seq<T>)
    ensures Distance(metric, p + a, p + b) == Distance(metric, a, b)
    decreases |p|
  {
    if p != [] {
      var a', b' := p[1..] + a, p[1..] + b;
      DropCommonPrefix(metric, p[1..], a, b);
      assert p + a == [p[0]] + a';
      assert p + b == [p[0]] + b';
      DropCommonHead(metric, p[0], a', b', |a'| + 1, |b'| + 1);
    } else {
      assert p + a == a && p + b == b;
    }
  }

  /** A shared last character can be dropped from both strings. */
  lemma DropCommonLast<T>(metric: Metric, u: seq<T>, v: seq<T>, x: T)
    ensures Distance(metric, u + [x], v + [x]) == Distance(metric, u, v)
  {
    MatchingLast(metric, u + [x], v + [x], |u| + 1, |v| + 1);
    PrefixOnly(metric, u + [x], v + [x], u, v, |u|, |v|);
  }

  /** A shared suffix can be dropped from both strings. */
  lemma {:induction false} DropCommonSuffix<T>(metric: Metric, a: seq<T>, b: seq<T>, s: seq<T>)
    ensures Distance(metric, a + s, b + s) == Distance(metric, a, b)
    decreases |s|
  {
    if s != [] {
      var s', x := s[..|s| - 1], s[|s| - 1];
      assert a + s == (a + s') + [x];
      assert b + s == (b + s') + [x];
      DropCommonLast(metric, a + s', b + s', x);
      DropCommonSuffix(metric, a, b, s');
    } else {
      assert a + s == a && b + s == b;
    }
  }

  /** The distance from the empty string is the other string's length. */
  lemma FromEmpty<T>(metric: Metric, b: seq<T>)
    ensures Distance(metric, [], b) == |b|
    ensures Distance(metric, b, []) == |b|
  {
  }

  /** A string is at distance zero from itself. */
  lemma {:induction false} SelfZero<T>(metric: Metric, a: seq<T>)
    ensures Distance(metric, a, a) == 0
    decreases |a|
  {
    if a != [] {
      var n := |a|;
      MatchingLast(metric, a, a, n, n);
      PrefixOnly(metric, a, a, a[..n-1], a[..n-1], n - 1, n - 1);
      SelfZero(metric, a[..n-1]);
    }
  }

  /** Distance zero forces equal strings: equal lengths by the lower bound, and a
      free match of the last characters at every step back. */
  lemma {:induction false} ZeroOnlyIfEqual<T>(metric: Metric, a: seq<T>, b: seq<T>)
    requires Distance(metric, a, b) == 0
    ensures a == b
    decreases |a|
  {
    Bounds(metric, a, b, |a|, |b|);
    if a != [] {
      var n := |a|;
      var a', b' := a[..n-1], b[..n-1];
      Attained(metric, a, b, n, n);
      assert Cost(a, b, n, n) == 0;
      DiagonalMonotone(metric, a, b, n, n);
      PrefixOnly(metric, a, b, a', b', n - 1, n - 1);
      ZeroOnlyIfEqual(metric, a', b');
      assert a == a' + [a[n-1]];
      assert b == b' + [b[n-1]];
    }
  }

  /** A string is at distance zero from itself, and only from itself. */
  lemma ZeroIffEqual<T>(metric: Metric, a: seq<T>, b: seq<T>)
    ensures Distance(metric, a, b) == 0 <==> a == b
  {
    if a == b {
      SelfZero(metric, a);
    }
    if Distance(metric, a, b) == 0 {
      ZeroOnlyIfEqual(metric, a, b);
    }
  }

  /** When one string extends the other the distance is the length difference. */
  lemma PrefixDistance<T>(metric: Metric, p: seq<T>, x: seq<T>)
    ensures Distance(metric, p, p + x) == |x|
    ensures Distance(metric, p + x, p) == |x|
  {
    DropCommonPrefix(metric, p, [], x);
    DropCommonPrefix(metric, p, x, []);
    assert p + [] == p;
  }
}
