/** The adaptive-band single-row Levenshtein variants `bounded_edit_dist` and
    `min_edit_dist`.  The band of the first row is [1, min(m, h + 1)] with
    h = (K + m - n) / 2; after each row both edges move inwards past the cells
    whose value plus distance to the final diagonal exceeds K, the end then moves
    one column right, and an empty band ends the computation with K + 1. */
module AdaptiveBand {
  import opened Common
  import opened EditDistance
  import opened Band
  import opened Cells
  import opened Prealgorithm
  import opened ValidateMax
  import opened AdaptiveLoop

  /** One cell of the adaptive band and the update that moves the state on. */
  method AdaptiveCell<T(==)>(a: seq<T>, b: seq<T>, k: nat, i: nat, start: nat, end: nat, j: nat, c: Carry)
    returns (c': Carry, cell: nat)
    requires 1 <= i <= |a| && 1 <= start <= j <= end <= |b|
    requires AdaptiveState(a, b, k, i, start, end, j, c)
    ensures AdaptiveState(a, b, k, i, start, end, j + 1, c')
    ensures |c'.buffer| == |c.buffer| && cell == c'.buffer[j]
  {
    cell := LevCell(a, b, i, j, c.buffer[j], c.buffer[j - 1], c.previousCell);
    StepAdmissible(Levenshtein, a, b, k, i, j, c.buffer[j], c.buffer[j - 1], c.previousCell, 0);
    AdaptiveStateAdvance(a, b, k, i, start, end, j, c, cell);
    c' := AdaptiveAdvance(c, j, cell);
  }

  /** The sweep of row i across its band. */
  method AdaptiveSweep<T(==)>(a: seq<T>, b: seq<T>, k: nat, i: nat, start: nat, end: nat, c: Carry)
    returns (c': Carry, cell: nat)
    requires 1 <= i <= |a| && 1 <= start <= end <= |b|
    requires AdaptiveState(a, b, k, i, start, end, start, c)
    requires |c.buffer| == |b| + 1
    ensures AdaptiveState(a, b, k, i, start, end, end + 1, c')
    ensures cell == c'.buffer[end]
  {
    c', cell := c, 0;
    for j := start to end + 1
      invariant AdaptiveState(a, b, k, i, start, end, j, c')
      invariant |c'.buffer| == |b| + 1
      invariant j > start ==> cell == c'.buffer[j - 1]
    {
      c', cell := AdaptiveCell(a, b, k, i, start, end, j, c');
    }
  }

  /** Row i: column 0 set to i, then the sweep across the band. */
  method AdaptiveRow<T(==)>(a: seq<T>, b: seq<T>, k: nat, i: nat, start: nat, end: nat, buffer: seq<nat>)
    returns (buffer': seq<nat>, cell: nat)
    requires 1 <= i <= |a| <= |b|
    requires AdaptiveReady(a, b, k, i, start, end, buffer)
    ensures AdaptiveDone(a, b, k, i, start, end, buffer')
    ensures cell == buffer'[end]
  {
    AdaptiveRowEntry(a, b, k, i, start, end, buffer);
    var c;
    c, cell := AdaptiveSweep(a, b, k, i, start, end, AdaptiveRowStart(buffer, i, start));
    buffer' := c.buffer;
  }

  /** The narrowing of both band edges after row i.  An empty narrowed band shows
      the distance exceeds K; otherwise the next row is ready, or, after the last
      row, the band ends at the final cell, which holds the distance. */
  method AdaptiveNarrow<T(==)>(a: seq<T>, b: seq<T>, k: nat, i: nat, start: nat, end: nat, buffer: seq<nat>)
    returns (start': nat, end': nat, empty: bool)
    requires 1 <= i <= |a| <= |b| && 1 <= start <= i + |b| - |a| <= end <= |b|
    requires AdaptiveDone(a, b, k, i, start, end, buffer) && Outlook(a, b, k, i, end)
    ensures empty <==> end' < start'
    ensures empty ==> Distance(Levenshtein, a, b) > k
    ensures !empty && i < |a| ==> AdaptiveReady(a, b, k, i + 1, start', end', buffer) == true
    ensures !empty && i == |a| ==> end == |b| && buffer[end] == Distance(Levenshtein, a, b) <= k
  {
    var delta := |b| - |a|;
    end' := NarrowedEnd(buffer, i, delta, k, end);
    start' := AdvanceStart(buffer, i, delta, k, start, end');
    empty := end' < start';
    if !Good(Levenshtein, a, b, k, i, i + delta) {
      NarrowEmpty(a, b, k, i, start, end, buffer);
    } else if i < |a| {
      NarrowKept(a, b, k, i, start, end, buffer, start', end');
    } else {
      NarrowLast(a, b, k, start, end, buffer);
    }
  }

  /** Row i followed by the narrowing of its band. */
  method AdaptiveStep<T(==)>(a: seq<T>, b: seq<T>, k: nat, i: nat, start: nat, end: nat, buffer: seq<nat>)
    returns (buffer': seq<nat>, cell: nat, start': nat, end': nat, empty: bool)
    requires 1 <= i <= |a| <= |b|
    requires AdaptiveReady(a, b, k, i, start, end, buffer)
    ensures empty ==> Distance(Levenshtein, a, b) > k
    ensures !empty && i < |a| ==> AdaptiveReady(a, b, k, i + 1, start', end', buffer')
    ensures !empty && i == |a| ==> cell == Distance(Levenshtein, a, b) <= k
  {
    buffer', cell := AdaptiveRow(a, b, k, i, start, end, buffer);
    start', end', empty := AdaptiveNarrow(a, b, k, i, start, end, buffer');
  }

  /** The adaptive-band computation: the distance when it is at most K, and an
      early exit exactly when it is not. */
  method AdaptiveCore<T(==)>(a: seq<T>, b: seq<T>, k: nat) returns (r: BandOutcome)
    requires 1 <= |a| <= |b| && |b| - |a| <= k
    ensures r.EarlyExit? <==> Distance(Levenshtein, a, b) > k
    ensures r.Completed? ==> r.cell == Distance(Levenshtein, a, b)
  {
    var buffer := Iota(|b| + 1);
    var start: nat, end: nat := 1, Min(|b|, (k + |b| - |a|) / 2 + 1);
    AdaptiveFirstReady(a, b, k);
    var i := 1;
    while true
      invariant 1 <= i <= |a| && AdaptiveReady(a, b, k, i, start, end, buffer)
      decreases |a| - i
    {
      var cell, empty;
      buffer, cell, start, end, empty := AdaptiveStep(a, b, k, i, start, end, buffer);
      if empty {
        return EarlyExit;
      }
      if i == |a| {
        return Completed(cell);
      }
      i := i + 1;
    }
  }

  /** The `bounded_edit_dist` function: the bound is min(max, 4096), validated;
      the pre-algorithm checks the length difference against it, and the adaptive
      band answers with the distance capped at max+1. */
  method BoundedEditDist<T(==)>(s0: Arg<T>, s1: Arg<T>, arg: Option<int>, policy: BadMaxPolicy) returns (r: Reply)
    ensures arg.None? || arg.value < 0 ==> r == BadMax(policy)
    ensures arg.Some? && arg.value >= 0 && (s0.Null? || s1.Null?) ==> r == Ok(Max(Length(s0), Length(s1)))
    ensures arg.Some? && arg.value >= 0 && s0.Value? && s1.Value? ==>
              var max := Min(arg.value, MaxEditDist);
              var p := Prepare(s0, s1, max, true);
              if p.Run? && |p.query| + 1 > BufferSize then r == Ok(0)
              else !r.error && !r.isNull && Bounded(r.value, Distance(Levenshtein, s0.chars, s1.chars), max)
  {
    var prior := if arg.Some? then Min(arg.value, MaxEditDist) else MaxEditDist;
    match ValidateBound(arg, prior, policy)
    case Rejected(reply) =>
      r := reply;
    case Accepted(max) =>
      var p := Prepare(s0, s1, max, true);
      if s0.Value? && s1.Value? {
        PrepareSound(Levenshtein, s0, s1, max, true);
      }
      match p
      case Exit(v) =>
        r := Ok(v);
      case Run(subject, query) =>
        if |query| + 1 > BufferSize {
          r := Ok(0);
        } else {
          var outcome := AdaptiveCore(subject, query, max);
          CappedBounded(Levenshtein, subject, query, max, max, outcome);
          r := Ok(Capped(outcome, max));
        }
  }

  /** The `min_edit_dist` function: `bounded_edit_dist` with the bound kept across
      the rows of a query, 4096 at the start.  The call's bound is the smaller of
      it and the argument, and a computation that runs to the end lowers the kept
      bound to the distance it found. */
  method MinEditDist<T(==)>(persisted: nat, s0: Arg<T>, s1: Arg<T>, arg: Option<int>, policy: BadMaxPolicy)
    returns (r: Reply, persisted': nat)
    ensures persisted' <= persisted
    ensures arg.None? || arg.value < 0 ==> r == BadMax(policy) && persisted' == persisted
    ensures arg.Some? && arg.value >= 0 && (s0.Null? || s1.Null?) ==>
              r == Ok(Max(Length(s0), Length(s1))) && persisted' == persisted
    ensures arg.Some? && arg.value >= 0 && s0.Value? && s1.Value? ==>
              var max := Min(arg.value, persisted);
              var p := Prepare(s0, s1, max, true);
              var d := Distance(Levenshtein, s0.chars, s1.chars);
              && (p.Exit? ==> persisted' == persisted)
              && (p.Run? && |p.query| + 1 > BufferSize ==> r == Ok(0) && persisted' == persisted)
              && (!(p.Run? && |p.query| + 1 > BufferSize) ==> !r.error && !r.isNull && Bounded(r.value, d, max))
              && (p.Run? && |p.query| + 1 <= BufferSize && d <= max ==> persisted' == d)
              && (p.Run? && |p.query| + 1 <= BufferSize && d > max ==> persisted' == persisted)
  {
    persisted' := persisted;
    var prior := if arg.Some? then Min(arg.value, persisted) else persisted;
    match ValidateBound(arg, prior, policy)
    case Rejected(reply) =>
      r := reply;
    case Accepted(max) =>
      var p := Prepare(s0, s1, max, true);
      if s0.Value? && s1.Value? {
        PrepareSound(Levenshtein, s0, s1, max, true);
      }
      match p
      case Exit(v) =>
        r := Ok(v);
      case Run(subject, query) =>
        if |query| + 1 > BufferSize {
          r := Ok(0);
        } else {
          var outcome := AdaptiveCore(subject, query, max);
          CappedBounded(Levenshtein, subject, query, max, max, outcome);
          r := Ok(Capped(outcome, max));
          if outcome.Completed? {
            persisted' := Min(outcome.cell, max);
          }
        }
  }
}
