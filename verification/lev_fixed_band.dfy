/** The fixed-band single-row Levenshtein variant `bounded_edit_dist_old`: the
    band of `damlevlim` on the one-row layout of `edit_dist`. */
module LevFixedBand {
  import opened Common
  import opened EditDistance
  import opened Band
  import opened Cells
  import opened Prealgorithm
  import opened ValidateMax
  import opened LevBandLoop

  /** One cell of the banded single-row loop and the update that moves the state on. */
  method LevBandCell<T(==)>(a: seq<T>, b: seq<T>, k: nat, sentinel: nat, i: nat, j: nat, c: LevCursor)
    returns (c': LevCursor, cell: nat)
    requires 1 <= i <= |a| && BandStart(i, k) <= j <= BandEnd(i, k, |b|)
    requires LevBandState(a, b, k, sentinel, i, j, c)
    ensures LevBandState(a, b, k, sentinel, i, j + 1, c')
    ensures |c'.buffer| == |c.buffer| && cell == c'.buffer[j]
  {
    cell := LevCell(a, b, i, j, c.buffer[j], c.buffer[j - 1], c.previousCell);
    StepAdmissible(Levenshtein, a, b, k, i, j, c.buffer[j], c.buffer[j - 1], c.previousCell, 0);
    LevStateAdvance(a, b, k, sentinel, i, j, c, cell);
    c' := LevAdvance(c, j, cell);
  }

  /** The sweep of row i across the band. */
  method LevBandSweep<T(==)>(a: seq<T>, b: seq<T>, k: nat, sentinel: nat, i: nat, c: LevCursor)
    returns (c': LevCursor, cell: nat)
    requires 1 <= i <= |a| <= |b|
    requires LevBandState(a, b, k, sentinel, i, BandStart(i, k), c)
    requires |c.buffer| == |b| + 1
    ensures LevBandState(a, b, k, sentinel, i, BandEnd(i, k, |b|) + 1, c')
    ensures cell == c'.buffer[BandEnd(i, k, |b|)]
  {
    c', cell := c, 0;
    for j := BandStart(i, k) to BandEnd(i, k, |b|) + 1
      invariant LevBandState(a, b, k, sentinel, i, j, c')
      invariant |c'.buffer| == |b| + 1
      invariant j > BandStart(i, k) ==> cell == c'.buffer[j - 1]
    {
      c', cell := LevBandCell(a, b, k, sentinel, i, j, c');
    }
  }

  /** The banded single-row computation of `bounded_edit_dist_old`: rows 1 to n over
      the band of width K, abandoned after the first row whose every banded cell
      exceeds K. */
  method LevFixedBandCore<T(==)>(a: seq<T>, b: seq<T>, k: nat, sentinel: nat) returns (r: BandOutcome)
    requires 1 <= |a| <= |b| && |b| - |a| <= k && k < sentinel
    ensures r.EarlyExit? ==> Distance(Levenshtein, a, b) > k
    ensures r.Completed? ==> Distance(Levenshtein, a, b) <= k ==> r.cell == Distance(Levenshtein, a, b)
    ensures r.Completed? ==> Distance(Levenshtein, a, b) > k ==> r.cell > k
  {
    var m := |b|;
    var c := LevCursor(Iota(m + 1), 0, 0);
    var cell: nat := 0;
    for i := 1 to |a| + 1
      invariant i == 1 ==> c.buffer == Iota(m + 1)
      invariant i > 1 ==> LevRowDone(a, b, k, i - 1, c) && |c.buffer| == m + 1
      invariant i > 1 ==> cell == c.buffer[BandEnd(i - 1, k, m)]
    {
      if i == 1 {
        LevFirstRowReady(a, b, k, c.buffer);
      } else {
        LevRowHandover(a, b, k, i, c);
      }
      LevRowEntry(a, b, k, sentinel, i, c.buffer);
      c, cell := LevBandSweep(a, b, k, sentinel, i, LevRowStart(c.buffer, i, k, m, sentinel));
      LevRowExit(a, b, k, sentinel, i, c);
      if c.rowMin > k {
        LevRowDoneAbove(a, b, k, i, c);
        return EarlyExit;
      }
    }
    LevLastRow(a, b, k, c);
    return Completed(cell);
  }

  /** The `bounded_edit_dist_old` function: the bound is min(max, 4096), validated;
      the pre-algorithm checks the length difference against it; the band has width
      max and the sentinel max+1. */
  method BoundedEditDistOld<T(==)>(s0: Arg<T>, s1: Arg<T>, arg: Option<int>, policy: BadMaxPolicy) returns (r: Reply)
    ensures arg.None? || arg.value < 0 ==> r == BadMax(policy)
    ensures arg.Some? && arg.value >= 0 && (s0.Null? || s1.Null?) ==> r == Ok(Max(Length(s0), Length(s1)))
    ensures arg.Some? && arg.value >= 0 && s0.Value? && s1.Value? ==>
              var max := Min(arg.value, MaxEditDist);
              var p := Prepare(s0, s1, max, true);
              if p.Run? && |p.query| + 1 > BufferSize then r == Ok(0)
              else !r.error && !r.isNull && Bounded(r.value, Distance(Levenshtein, s0.chars, s1.chars), max)
  {
    var prior := if arg.Some? then Min(arg.value, MaxEditDist) else MaxEditDist;
    match ValidateBound(arg, prior, policy)
    case Rejected(reply) =>
      r := reply;
    case Accepted(max) =>
      var p := Prepare(s0, s1, max, true);
      if s0.Value? && s1.Value? {
        PrepareSound(Levenshtein, s0, s1, max, true);
      }
      match p
      case Exit(v) =>
        r := Ok(v);
      case Run(subject, query) =>
        if |query| + 1 > BufferSize {
          r := Ok(0);
        } else {
          var outcome := LevFixedBandCore(subject, query, max, max + 1);
          CappedBounded(Levenshtein, subject, query, max, max, outcome);
          r := Ok(Capped(outcome, max));
        }
  }
}
