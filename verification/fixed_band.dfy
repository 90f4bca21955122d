/** The fixed-band OSA variants `damlevlim` and `damlevmin`.

    Row i is computed only for columns BandStart(i, K) .. BandEnd(i, K, m); the
    cells just outside are set to the sentinel, and the computation gives up as soon
    as a whole row exceeds K.  The loop keeps the two-row layout of `damlev`, but
    the buffers now hold admissible values (see module Band) instead of exact ones. */
module FixedBand {
  import opened Common
  import opened EditDistance
  import opened Band
  import opened Cells
  import opened Prealgorithm
  import opened ValidateMax
  import opened OsaBandLoop

  /** One cell of the banded two-row loop and the update that moves the state on. */
  method OsaBandCell<T(==)>(a: seq<T>, b: seq<T>, k: nat, sentinel: nat, i: nat, j: nat, c: Cursor)
    returns (c': Cursor, cell: nat)
    requires 1 <= i <= |a| && BandStart(i, k) <= j <= BandEnd(i, k, |b|)
    requires OsaBandState(a, b, k, sentinel, i, j, c) == true
    ensures OsaBandState(a, b, k, sentinel, i, j + 1, c') == true
    ensures |c'.current| == |c.current| && cell == c'.current[j]
  {
    var back := if i > 1 && j > 1 then c.previous[j - 2] else 0;
    cell := OsaCell(a, b, i, j, c.current[j], c.current[j - 1], c.previousCell, back);
    StepAdmissible(Osa, a, b, k, i, j, c.current[j], c.current[j - 1], c.previousCell, back);
    StateAdvance(a, b, k, sentinel, i, j, c, cell);
    c' := Advance(c, j, cell);
  }

  /** The sweep of row i across the band, from the state at the band start to the
      state past the band end. */
  method OsaBandSweep<T(==)>(a: seq<T>, b: seq<T>, k: nat, sentinel: nat, i: nat, c: Cursor)
    returns (c': Cursor, cell: nat)
    requires 1 <= i <= |a| <= |b|
    requires OsaBandState(a, b, k, sentinel, i, BandStart(i, k), c) == true
    requires |c.current| == |b| + 1
    ensures OsaBandState(a, b, k, sentinel, i, BandEnd(i, k, |b|) + 1, c') == true
    ensures cell == c'.current[BandEnd(i, k, |b|)]
  {
    c', cell := c, 0;
    for j := BandStart(i, k) to BandEnd(i, k, |b|) + 1
      invariant OsaBandState(a, b, k, sentinel, i, j, c') == true
      invariant |c'.current| == |b| + 1
      invariant j > BandStart(i, k) ==> cell == c'.current[j - 1]
    {
      c', cell := OsaBandCell(a, b, k, sentinel, i, j, c');
    }
  }

  /** One row of the banded two-row loop: the left edge and the sentinels are
      written, `previousCell` starts at i-1 whatever the band start, and the band is
      swept left to right. */
  method OsaBandRow<T(==)>(a: seq<T>, b: seq<T>, k: nat, sentinel: nat, i: nat, c: Cursor)
    returns (c': Cursor, cell: nat)
    requires 1 <= i <= |a| <= |b| && a[0] != b[0] && k < sentinel
    requires RowReady(a, b, k, i, c)
    ensures RowDone(a, b, k, i, c')
    ensures cell == c'.current[BandEnd(i, k, |b|)]
  {
    RowEntry(a, b, k, sentinel, i, c);
    assert |c.current| == |b| + 1;
    c', cell := OsaBandSweep(a, b, k, sentinel, i, RowStart(c, i, k, |b|, sentinel));
    RowExit(a, b, k, sentinel, i, c');
  }

  /** The banded OSA computation shared by `damlevlim` and `damlevmin`: rows 1 to n
      over the band of width K, abandoned after the first row whose every banded cell
      exceeds K. The strings come from the pre-algorithm, so the subject is not longer
      than the query, their lengths differ by at most K and their first characters
      differ. */
  method OsaFixedBand<T(==)>(a: seq<T>, b: seq<T>, k: nat, sentinel: nat) returns (r: BandOutcome)
    requires 1 <= |a| <= |b| && |b| - |a| <= k && a[0] != b[0] && k < sentinel
    ensures r.EarlyExit? ==> Distance(Osa, a, b) > k
    ensures r.Completed? ==> Distance(Osa, a, b) <= k ==> r.cell == Distance(Osa, a, b)
    ensures r.Completed? ==> Distance(Osa, a, b) > k ==> r.cell > k
  {
    var m := |b|;
    var c := Cursor(Iota(m + 1), Iota(m + 1), 0, 0, 0);
    var cell: nat := 0;
    for i := 1 to |a| + 1
      invariant i == 1 ==> c.current == Iota(m + 1) && c.previous == Iota(m + 1)
      invariant i > 1 ==> RowDone(a, b, k, i - 1, c) && |c.current| == m + 1
      invariant i > 1 ==> cell == c.current[BandEnd(i - 1, k, m)]
    {
      if i == 1 {
        FirstRowReady(a, b, k, c);
      } else {
        RowHandover(a, b, k, i, c);
      }
      c, cell := OsaBandRow(a, b, k, sentinel, i, c);
      if c.rowMin > k {
        RowDoneAbove(a, b, k, i, c);
        return EarlyExit;
      }
    }
    LastRow(a, b, k, c);
    return Completed(cell);
  }

  /** The `damlevlim` function: the bound is min(max, 4096), validated; the
      pre-algorithm checks the length difference against it; the band has width
      min(max, m) and the sentinel max+1. */
  method Damlevlim<T(==)>(s0: Arg<T>, s1: Arg<T>, arg: Option<int>, policy: BadMaxPolicy) returns (r: Reply)
    ensures arg.None? || arg.value < 0 ==> r == BadMax(policy)
    ensures arg.Some? && arg.value >= 0 && (s0.Null? || s1.Null?) ==> r == Ok(Max(Length(s0), Length(s1)))
    ensures arg.Some? && arg.value >= 0 && s0.Value? && s1.Value? ==>
              var max := Min(arg.value, MaxEditDist);
              var p := Prepare(s0, s1, max, true);
              if p.Run? && 2 * (|p.query| + 1) > BufferSize then r == Ok(0)
              else !r.error && !r.isNull && Bounded(r.value, Distance(Osa, s0.chars, s1.chars), max)
  {
    var prior := if arg.Some? then Min(arg.value, MaxEditDist) else MaxEditDist;
    match ValidateBound(arg, prior, policy)
    case Rejected(reply) =>
      r := reply;
    case Accepted(max) =>
      var p := Prepare(s0, s1, max, true);
      if s0.Value? && s1.Value? {
        PrepareSound(Osa, s0, s1, max, true);
      }
      match p
      case Exit(v) =>
        r := Ok(v);
      case Run(subject, query) =>
        if 2 * (|query| + 1) > BufferSize {
          r := Ok(0);
        } else {
          var k := EffectiveMax(max, |query|);
          var outcome := OsaFixedBand(subject, query, k, max + 1);
          CappedBounded(Osa, subject, query, max, k, outcome);
          r := Ok(Capped(outcome, max));
        }
  }

  /** The `damlevmin` function. `persisted` is the bound kept across the rows of a
      query, 4096 at the start; the call's bound is the smaller of it and the
      argument, the band has width max, and a computation that runs to the end
      lowers the persisted bound to the smaller of its last cell and max. Calls that
      end before the band is finished leave it as it was. */
  method Damlevmin<T(==)>(persisted: nat, s0: Arg<T>, s1: Arg<T>, arg: Option<int>, policy: BadMaxPolicy)
    returns (r: Reply, persisted': nat)
    ensures persisted' <= persisted
    ensures arg.None? || arg.value < 0 ==> r == BadMax(policy) && persisted' == persisted
    ensures arg.Some? && arg.value >= 0 && (s0.Null? || s1.Null?) ==>
              r == Ok(Max(Length(s0), Length(s1))) && persisted' == persisted
    ensures arg.Some? && arg.value >= 0 && s0.Value? && s1.Value? ==>
              var max := Min(arg.value, persisted);
              var p := Prepare(s0, s1, max, true);
              var d := Distance(Osa, s0.chars, s1.chars);
              && (p.Exit? ==> persisted' == persisted)
              && (p.Run? && 2 * (|p.query| + 1) > BufferSize ==> r == Ok(0) && persisted' == persisted)
              && (!(p.Run? && 2 * (|p.query| + 1) > BufferSize) ==>
                    !r.error && !r.isNull && Bounded(r.value, d, max))
              && (p.Run? && 2 * (|p.query| + 1) <= BufferSize ==> persisted' == persisted || persisted' == Min(d, max))
              && (p.Run? && 2 * (|p.query| + 1) <= BufferSize && d <= max ==> persisted' == d)
  {
    persisted' := persisted;
    var prior := if arg.Some? then Min(arg.value, persisted) else persisted;
    match ValidateBound(arg, prior, policy)
    case Rejected(reply) =>
      r := reply;
    case Accepted(max) =>
      var p := Prepare(s0, s1, max, true);
      if s0.Value? && s1.Value? {
        PrepareSound(Osa, s0, s1, max, true);
      }
      match p
      case Exit(v) =>
        r := Ok(v);
      case Run(subject, query) =>
        if 2 * (|query| + 1) > BufferSize {
          r := Ok(0);
        } else {
          var outcome := OsaFixedBand(subject, query, max, max + 1);
          CappedBounded(Osa, subject, query, max, max, outcome);
          r := Ok(Capped(outcome, max));
          if outcome.Completed? {
            persisted' := Min(outcome.cell, max);
          }
        }
  }
}
