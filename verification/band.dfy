/** Why a band of the matrix suffices.

    A banded variant computes, for a bound K, only the cells near the diagonal and
    puts the sentinel K + 1 just outside the band.  Such a value is not the matrix
    cell, but it is good enough: every path from cell (i, j) to the final cell
    (n, m) needs at least `Gap(i, j)` = |(m - j) - (n - i)| further insertions or
    deletions, so a cell whose value plus gap exceeds K can never lead to a final
    distance of at most K.  `Admissible` captures "good enough": the value is never
    below the cell unless it is already beyond reach, and it is exact wherever the
    cell could still matter.  The step of the recurrence preserves admissibility,
    and at the final cell (gap 0) admissible means "exact when at most K, above K
    otherwise". */
module Band {
  import opened EditDistance

  /** The number of insertions or deletions any path from (i, j) to the final cell needs. */
  function Gap(n: nat, m: nat, i: nat, j: nat): (g: nat)
    ensures g == m - j - (n - i) || g == n - i - (m - j)
  {
    Abs((m - j) - (n - i))
  }

  /** Cell (i, j) can still lie on a path of cost at most K. */
  ghost predicate Good<T>(metric: Metric, a: seq<T>, b: seq<T>, k: int, i: nat, j: nat)
    requires i <= |a| && j <= |b|
  {
    Dist(metric, a, b, i, j) + Gap(|a|, |b|, i, j) <= k
  }

  /** `v` is never below cell (i, j) unless it is already out of reach of K, and is
      exact where the cell is good. */
  ghost predicate Admissible<T>(metric: Metric, a: seq<T>, b: seq<T>, k: int, i: nat, j: nat, v: int)
    requires i <= |a| && j <= |b|
  {
    && (v >= Dist(metric, a, b, i, j) || v + Gap(|a|, |b|, i, j) > k)
    && (Good(metric, a, b, k, i, j) ==> v == Dist(metric, a, b, i, j))
  }

  /** The weaker demand on the transposition operand: exactness is needed only when
      the cell is good and below K. */
  ghost predicate BackOk<T>(metric: Metric, a: seq<T>, b: seq<T>, k: int, i: nat, j: nat, v: int)
    requires i <= |a| && j <= |b|
  {
    && (v >= Dist(metric, a, b, i, j) || v + Gap(|a|, |b|, i, j) > k)
    && (Good(metric, a, b, k, i, j) && Dist(metric, a, b, i, j) < k ==> v == Dist(metric, a, b, i, j))
  }

  /** The step of the recurrence over admissible neighbours is admissible. */
  lemma StepAdmissible<T>(metric: Metric, a: seq<T>, b: seq<T>, k: int, i: nat, j: nat,
                          up: nat, left: nat, diag: nat, back: nat)
    requires 1 <= i <= |a| && 1 <= j <= |b|
    requires Admissible(metric, a, b, k, i - 1, j, up)
    requires Admissible(metric, a, b, k, i, j - 1, left)
    requires Admissible(metric, a, b, k, i - 1, j - 1, diag)
    requires metric == Osa && Swapped(a, b, i, j) ==> BackOk(metric, a, b, k, i - 2, j - 2, back)
    ensures Admissible(metric, a, b, k, i, j, Step(metric, Swapped(a, b, i, j), Cost(a, b, i, j), up, left, diag, back))
  {
    var n, m := |a|, |b|;
    var d := Dist(metric, a, b, i, j);
    var g := Gap(n, m, i, j);
    var cost := Cost(a, b, i, j);
    var v := Step(metric, Swapped(a, b, i, j), cost, up, left, diag, back);
    Moves(metric, a, b, i, j);
    assert v >= d || v + g > k;
    if d + g <= k {
      Attained(metric, a, b, i, j);
      if d == Dist(metric, a, b, i - 1, j) + 1 {
        assert v <= up + 1;
      } else if d == Dist(metric, a, b, i, j - 1) + 1 {
        assert v <= left + 1;
      } else if d == Dist(metric, a, b, i - 1, j - 1) + cost {
        assert v <= diag + cost;
      } else {
        if Dist(metric, a, b, i - 2, j - 2) >= k {
          // the swap reaches K only through a free, gap-free step, and then the
          // repeated character would make the diagonal step just as cheap
          assert cost == 0 && g == 0;
          assert a[i-2] == b[j-2];
          Moves(metric, a, b, i - 1, j - 1);
          assert Cost(a, b, i - 1, j - 1) == 0;
          DiagonalMonotone(metric, a, b, i, j);
          assert false;
        }
        assert v <= back + cost;
      }
    }
  }

  /** A cell further than K from the diagonal is never good, so any value above K
      stands for it. */
  lemma SentinelAdmissible<T>(metric: Metric, a: seq<T>, b: seq<T>, k: int, i: nat, j: nat, v: int)
    requires i <= |a| && j <= |b|
    requires k < i - j || k < j - i
    requires v > k
    ensures Admissible(metric, a, b, k, i, j, v) && BackOk(metric, a, b, k, i, j, v)
    ensures !Good(metric, a, b, k, i, j)
  {
    Bounds(metric, a, b, i, j);
  }

  /** At the final cell an admissible value is the distance when that is at most K,
      and above K otherwise. */
  lemma FinalCell<T>(metric: Metric, a: seq<T>, b: seq<T>, k: int, v: int)
    requires Admissible(metric, a, b, k, |a|, |b|, v)
    ensures Distance(metric, a, b) <= k ==> v == Distance(metric, a, b)
    ensures Distance(metric, a, b) > k ==> v > k
  {
  }

  /** When the distance is at most K, every row holds a good cell on the diagonal
      through the final cell: its value is at most K, and it lies within K of the
      main diagonal. */
  lemma {:induction false} DiagonalWitness<T>(metric: Metric, a: seq<T>, b: seq<T>, k: int, i: nat)
    requires |a| <= |b| && i <= |a|
    requires Distance(metric, a, b) <= k
    ensures Good(metric, a, b, k, i, i + |b| - |a|)
    ensures Dist(metric, a, b, i, i + |b| - |a|) <= k
  {
    DiagonalMonotoneFrom(metric, a, b, i, i + |b| - |a|, |a|, |b|);
  }

  /** With distinct first characters no cell below the top row and right of the
      left column is zero. */
  lemma FirstMismatch<T>(metric: Metric, a: seq<T>, b: seq<T>, i: nat)
    requires 1 <= i <= |a| && i <= |b| && a[0] != b[0]
    ensures Dist(metric, a, b, i, i) >= 1
  {
    Unfold(metric, a, b, 1, 1);
    DiagonalMonotoneFrom(metric, a, b, 1, 1, i, i);
  }
  /** First column of the fixed band of radius K in row i. */
  function BandStart(i: nat, k: nat): (s: nat)
    ensures 1 <= s && i - k <= s && (s == 1 || s == i - k)
  {
    Max(1, i - k)
  }

  /** Last column of the fixed band of radius K in row i. */
  function BandEnd(i: nat, k: nat, m: nat): (e: nat)
    ensures e <= m && e <= i + k && (e == m || e == i + k)
  {
    Min(m, i + k)
  }

  /** The stand-in `i - 1` for the diagonal operand of the first cell of a row whose
      band starts right of column 1: cell (i-1, i-1-K) is never good, because it is
      at least K from the diagonal and at least K from the final cell, and for K = 0
      a zero on the main diagonal would mean equal first characters. */
  lemma PlaceholderAdmissible<T>(metric: Metric, a: seq<T>, b: seq<T>, k: nat, i: nat)
    requires 2 <= i <= |a| <= |b| && a[0] != b[0]
    requires BandStart(i, k) > 1
    ensures Admissible(metric, a, b, k, i - 1, i - 1 - k, i - 1)
  {
    AtMostLonger(metric, a, b, i - 1, i - 1 - k);
    Bounds(metric, a, b, i - 1, i - 1 - k);
    if k == 0 {
      FirstMismatch(metric, a, b, i - 1);
    }
  }

  /** An entry of row 0 left over from the initial 0, 1, ..., m stands for cell
      (i, p) of a later row as a transposition operand when p lies K or more to the
      right of the diagonal. */
  lemma IotaBackOk<T>(metric: Metric, a: seq<T>, b: seq<T>, k: nat, i: nat, p: nat)
    requires i <= |a| && p <= |b| && i + k <= p
    ensures BackOk(metric, a, b, k, i, p, p)
  {
    AtMostLonger(metric, a, b, i, p);
    Bounds(metric, a, b, i, p);
  }
  /** A row whose every banded cell is admissible and above K proves that the
      distance exceeds K, as long as the band covers the row's diagonal cell. */
  lemma RowAboveBound<T>(metric: Metric, a: seq<T>, b: seq<T>, k: int, i: nat, row: seq<nat>,
                         lo: nat, hi: nat, rowMin: int)
    requires |a| <= |b| && i <= |a| && hi < |row| && hi <= |b|
    requires lo <= i + |b| - |a| <= hi
    requires forall p :: lo <= p <= hi ==> Admissible(metric, a, b, k, i, p, row[p]) && rowMin <= row[p]
    requires rowMin > k
    ensures Distance(metric, a, b) > k
  {
    var p := i + |b| - |a|;
    assert Admissible(metric, a, b, k, i, p, row[p]) && rowMin <= row[p];
    if Distance(metric, a, b) <= k {
      DiagonalWitness(metric, a, b, k, i);
    }
  }

  /** An exact value is admissible. */
  lemma ExactAdmissible<T>(metric: Metric, a: seq<T>, b: seq<T>, k: int, i: nat, j: nat, v: int)
    requires i <= |a| && j <= |b| && v == Dist(metric, a, b, i, j)
    ensures Admissible(metric, a, b, k, i, j, v) && BackOk(metric, a, b, k, i, j, v)
  {
  }

  /** The contract of every bounded variant: the distance `d` itself when it is at
      most the bound K, and otherwise K + 1 or, from an exit before any matrix is
      filled, the distance itself. */
  predicate Bounded(v: int, d: int, k: int)
  {
    (d <= k ==> v == d) && (d > k ==> v == k + 1 || v == d)
  }

  /** How a banded computation ends: abandoned once the band shows the distance
      exceeds the bound, or with the last cell it computed. */
  datatype BandOutcome = EarlyExit | Completed(cell: nat)

  /** The value the bounded variants return from a banded computation: max+1 after an
      early exit, otherwise the last cell capped at max+1. */
  function Capped(r: BandOutcome, max: int): int
  {
    match r
    case EarlyExit => max + 1
    case Completed(cell) => Min(max + 1, cell)
  }

  /** The capped outcome of a band of width K = min(max, m) or K = max is the
      distance capped at max + 1: with K = m the distance never exceeds K. */
  lemma CappedBounded<T>(metric: Metric, a: seq<T>, b: seq<T>, max: nat, k: nat, r: BandOutcome)
    requires 1 <= |a| <= |b| && k <= max && (k == max || k == |b|)
    requires r.EarlyExit? ==> Distance(metric, a, b) > k
    requires r.Completed? ==> Distance(metric, a, b) <= k ==> r.cell == Distance(metric, a, b)
    requires r.Completed? ==> Distance(metric, a, b) > k ==> r.cell > k
    ensures Capped(r, max) == Min(Distance(metric, a, b), max + 1)
    ensures Bounded(Capped(r, max), Distance(metric, a, b), max)
  {
    AtMostLonger(metric, a, b, |a|, |b|);
  }

  /** A good cell's diagonal predecessor is good: the gap is the same and the
      distance does not grow backwards along a diagonal. */
  lemma GoodDiagonalPredecessor<T>(metric: Metric, a: seq<T>, b: seq<T>, k: int, i: nat, j: nat)
    requires 1 <= i <= |a| && 1 <= j <= |b|
    requires Good(metric, a, b, k, i, j)
    ensures Good(metric, a, b, k, i - 1, j - 1)
  {
    DiagonalMonotone(metric, a, b, i, j);
  }

  /** On or right of the final diagonal, a good cell's lower neighbour is good:
      one more row costs at most one more edit and brings the cell one step closer
      to that diagonal. */
  lemma GoodBelow<T>(metric: Metric, a: seq<T>, b: seq<T>, k: int, i: nat, j: nat)
    requires 1 <= i <= |a| <= |b| && i + |b| - |a| <= j <= |b|
    requires Good(metric, a, b, k, i - 1, j)
    ensures Good(metric, a, b, k, i, j)
  {
    Moves(metric, a, b, i, j);
  }

  /** Every good cell of a row lies on a run of good cells that reaches the row's
      cell on the final diagonal: moving towards that diagonal lowers the gap by one
      and raises the distance by at most one. */
  lemma {:induction false} GoodTowardDiagonal<T>(metric: Metric, a: seq<T>, b: seq<T>, k: int, i: nat, j: nat)
    requires 1 <= i <= |a| <= |b| && j <= |b|
    requires Good(metric, a, b, k, i, j)
    ensures Good(metric, a, b, k, i, i + |b| - |a|)
    decreases Abs(j - (i + |b| - |a|))
  {
    var c := i + |b| - |a|;
    if j < c {
      Moves(metric, a, b, i, j + 1);
      GoodTowardDiagonal(metric, a, b, k, i, j + 1);
    } else if j > c {
      Lipschitz(metric, a, b, i, j);
      GoodTowardDiagonal(metric, a, b, k, i, j - 1);
    }
  }

  /** In row 0 no cell right of h = (K + m - n) / 2 is good: it already needs p
      insertions and p - (m - n) further ones. */
  lemma TopRowBeyond<T>(metric: Metric, a: seq<T>, b: seq<T>, k: nat, p: nat)
    requires |a| <= |b| && (k + |b| - |a|) / 2 < p <= |b|
    ensures !Good(metric, a, b, k, 0, p)
  {
    Border(metric, a, b, 0, p);
  }

  /** Row 0 holds a good cell at the first band end min(m, h + 1) less one, or at
      column m when the band reaches it. */
  lemma TopRowEnd<T>(metric: Metric, a: seq<T>, b: seq<T>, k: nat)
    requires 1 <= |a| <= |b| && |b| - |a| <= k
    ensures var e := Min(|b|, (k + |b| - |a|) / 2 + 1);
            Good(metric, a, b, k, 0, e - 1) || (e == |b| && Good(metric, a, b, k, 0, |b|))
  {
    var h := (k + |b| - |a|) / 2;
    if h + 1 <= |b| {
      Border(metric, a, b, 0, h);
    } else {
      Border(metric, a, b, 0, |b|);
    }
  }

  /** A buffer value that fails the narrowing test for a cell that is not good. */
  ghost predicate Failing<T>(metric: Metric, a: seq<T>, b: seq<T>, k: int, i: nat, j: nat, v: int)
    requires i <= |a| && j <= |b|
  {
    v + Gap(|a|, |b|, i, j) > k && !Good(metric, a, b, k, i, j)
  }

  /** Left of the final diagonal a failing value keeps failing one row further down:
      the gap grows by one and the distance shrinks by at most one. */
  lemma FailingBelow<T>(metric: Metric, a: seq<T>, b: seq<T>, k: int, i: nat, j: nat, v: int)
    requires 1 <= i <= |a| <= |b| && j + 1 <= i + |b| - |a|
    requires Failing(metric, a, b, k, i - 1, j, v)
    ensures Failing(metric, a, b, k, i, j, v) && Admissible(metric, a, b, k, i, j, v)
  {
    Lipschitz(metric, a, b, i, j);
  }
}
