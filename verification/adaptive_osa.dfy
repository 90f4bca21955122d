/** The adaptive-band single-row OSA variants `bounded_edit_dist_t` and
    `min_edit_dist_t`, with the transposition operand of row i read from a copy
    of the buffer taken when row i-1 began (the row i - 2 the second half of the
    work buffer is meant to hold; see `AdaptiveOsaTrace` for that half as written).
    The band of the first row is [1, min(m, h + 1)] with h = (K + m - n) / 2;
    after each row, including the last, both edges move inwards past the cells
    whose value plus distance to the final diagonal exceeds K + 1, the end then
    moves one column right, and an empty band ends the computation with K + 1. */
module AdaptiveOsa {
  import opened Common
  import opened EditDistance
  import opened Band
  import opened Cells
  import opened Prealgorithm
  import opened ValidateMax
  import opened AdaptiveLoop
  import opened AdaptiveOsaLoop

  /** One cell of the adaptive band and the update that moves the state on. */
  method AdaptiveOsaCell<T(==)>(a: seq<T>, b: seq<T>, k: nat, i: nat, start: nat, end: nat, j: nat,
                                older: seq<nat>, entry: seq<nat>, c: Carry)
    returns (c': Carry, cell: nat)
    requires 1 <= i <= |a| && 1 <= start <= j <= end <= |b|
    requires OsaState(a, b, k, i, start, end, j, older, entry, c) == true
    ensures OsaState(a, b, k, i, start, end, j + 1, older, entry, c') == true
    ensures |c'.buffer| == |c.buffer| && cell == c'.buffer[j]
  {
    cell := OsaCell(a, b, i, j, c.buffer[j], c.buffer[j - 1], c.previousCell, BackOperand(older, i, j));
    OsaSoundAdvance(a, b, k, i, start, j, older, entry, c, cell);
    OsaValueAdvance(a, b, i, start, end, j, older, entry, c, cell);
    c' := AdaptiveAdvance(c, j, cell);
  }

  /** The sweep of row i across its band, from column j on. */
  method AdaptiveOsaSweep<T(==)>(a: seq<T>, b: seq<T>, k: nat, i: nat, start: nat, end: nat, j: nat,
                                 older: seq<nat>, entry: seq<nat>, c: Carry)
    returns (c': Carry, cell: nat)
    requires 1 <= i <= |a| && 1 <= start <= j <= end + 1 && end <= |b|
    requires OsaState(a, b, k, i, start, end, j, older, entry, c) == true
    requires |c.buffer| == |b| + 1
    ensures OsaState(a, b, k, i, start, end, end + 1, older, entry, c') == true
    ensures cell == c'.buffer[end]
    decreases end + 1 - j
  {
    if j > end {
      return c, c.buffer[end];
    }
    c', cell := AdaptiveOsaCell(a, b, k, i, start, end, j, older, entry, c);
    c', cell := AdaptiveOsaSweep(a, b, k, i, start, end, j + 1, older, entry, c');
  }

  /** Row i: column 0 set to i, then the sweep across the band. */
  method AdaptiveOsaRow<T(==)>(a: seq<T>, b: seq<T>, k: nat, i: nat, start: nat, end: nat,
                               buffer: seq<nat>, older: seq<nat>)
    returns (c: Carry, cell: nat)
    requires 1 <= i <= |a| <= |b|
    requires OsaReady(a, b, k, i, start, end, buffer, older)
    ensures OsaState(a, b, k, i, start, end, end + 1, older, buffer, c)
    ensures cell == c.buffer[end]
  {
    OsaRowEntry(a, b, k, i, start, end, buffer, older);
    c, cell := AdaptiveOsaSweep(a, b, k, i, start, end, start, older, buffer, AdaptiveRowStart(buffer, i, start));
  }

  /** The narrowing of both band edges after row i, with one unit of slack.  An
      empty narrowed band shows the distance exceeds K; otherwise the next row is
      ready, or, after the last row, the band ended at the final cell, whose
      value is the distance when that is at most K and above K otherwise. */
  method AdaptiveOsaNarrow<T(==)>(a: seq<T>, b: seq<T>, k: nat, i: nat, start: nat, end: nat,
                                  entry: seq<nat>, older: seq<nat>, c: Carry)
    returns (start': nat, end': nat, empty: bool)
    requires 1 <= i <= |a| <= |b|
    requires OsaReady(a, b, k, i, start, end, entry, older) == true
    requires OsaState(a, b, k, i, start, end, end + 1, older, entry, c) == true
    ensures empty <==> end' < start'
    ensures empty ==> Distance(Osa, a, b) > k
    ensures !empty && i < |a| ==> OsaReady(a, b, k, i + 1, start', end', c.buffer, entry) == true
    ensures i == |a| ==> end == |b|
    ensures !empty && i == |a| && Distance(Osa, a, b) <= k ==> c.buffer[end] == Distance(Osa, a, b)
    ensures !empty && i == |a| && Distance(Osa, a, b) > k ==> c.buffer[end] > k
  {
    NarrowFacts(a, b, k, i, start, end, entry, older, c);
    var delta, buffer := |b| - |a|, c.buffer;
    assert c == Carry(buffer, entry[end]);
    end' := NarrowedEnd(buffer, i, delta, k + 1, end);
    start' := AdvanceStart(buffer, i, delta, k + 1, start, end');
    empty := end' < start';
    var stop := ShrinkEnd(buffer, i, delta, k + 1, end);
    if stop < start {
      OsaNarrowEmpty(a, b, k, i, start, end, buffer);
    } else {
      assert Within(buffer, i, delta, k + 1, stop);
      if i < |a| {
        OsaNarrowKept(a, b, k, i, start, end, entry, older, buffer, start', end');
      } else {
        FinalSound(a, b, k, buffer[end]);
      }
    }
  }

  /** The adaptive-band computation with slack: an early exit shows the distance
      exceeds K, and the final cell is the distance when that is at most K and
      above K otherwise. */
  method AdaptiveOsaCore<T(==)>(a: seq<T>, b: seq<T>, k: nat) returns (r: BandOutcome)
    requires 1 <= |a| <= |b| && |b| - |a| <= k
    ensures r.EarlyExit? ==> Distance(Osa, a, b) > k
    ensures r.Completed? && Distance(Osa, a, b) <= k ==> r.cell == Distance(Osa, a, b)
    ensures r.Completed? && Distance(Osa, a, b) > k ==> r.cell > k
  {
    var buffer, older := Iota(|b| + 1), Iota(|b| + 1);
    var start: nat, end: nat := 1, Min(|b|, (k + |b| - |a|) / 2 + 1);
    OsaFirstReady(a, b, k);
    var i := 1;
    while true
      invariant 1 <= i <= |a| && OsaReady(a, b, k, i, start, end, buffer, older)
      decreases |a| - i
    {
      var c, cell := AdaptiveOsaRow(a, b, k, i, start, end, buffer, older);
      var start', end', empty := AdaptiveOsaNarrow(a, b, k, i, start, end, buffer, older, c);
      if empty {
        return EarlyExit;
      }
      if i == |a| {
        return Completed(cell);
      }
      older, buffer := buffer, c.buffer;
      start, end := start', end';
      i := i + 1;
    }
  }

  /** The `bounded_edit_dist_t` function: the bound is the argument, at most the
      longer length, validated; the pre-algorithm checks the length difference
      against it, a query needing more than half the buffer answers 0, and the
      adaptive band answers with the OSA distance capped at max+1. */
  method BoundedEditDistT<T(==)>(s0: Arg<T>, s1: Arg<T>, arg: Option<int>, policy: BadMaxPolicy) returns (r: Reply)
    ensures arg.None? || arg.value < 0 ==> r == BadMax(policy)
    ensures arg.Some? && arg.value >= 0 && (s0.Null? || s1.Null?) ==> r == Ok(Max(Length(s0), Length(s1)))
    ensures arg.Some? && arg.value >= 0 && s0.Value? && s1.Value? ==>
              var max := Min(arg.value, Max(|s0.chars|, |s1.chars|));
              var p := Prepare(s0, s1, max, true);
              if p.Run? && 2 * (|p.query| + 1) > BufferSize then r == Ok(0)
              else !r.error && !r.isNull && Bounded(r.value, Distance(Osa, s0.chars, s1.chars), max)
  {
    var prior := Max(Length(s0), Length(s1));
    match ValidateBound(arg, prior, policy)
    case Rejected(reply) =>
      r := reply;
    case Accepted(max) =>
      var p := Prepare(s0, s1, max, true);
      if s0.Value? && s1.Value? {
        PrepareSound(Osa, s0, s1, max, true);
      }
      match p
      case Exit(v) =>
        r := Ok(v);
      case Run(subject, query) =>
        if 2 * (|query| + 1) > BufferSize {
          r := Ok(0);
        } else {
          var outcome := AdaptiveOsaCore(subject, query, max);
          CappedBounded(Osa, subject, query, max, max, outcome);
          r := Ok(Capped(outcome, max));
        }
  }

  /** The `min_edit_dist_t` function: `bounded_edit_dist_t` with the bound kept
      across the rows of a query, 4096 at the start.  The call's bound is the
      smaller of the kept bound and the argument, and a computation that runs to
      the final cell lowers the kept bound to that cell, capped at the call's
      bound. */
  method MinEditDistT<T(==)>(persisted: nat, s0: Arg<T>, s1: Arg<T>, arg: Option<int>, policy: BadMaxPolicy)
    returns (r: Reply, persisted': nat)
    ensures persisted' <= persisted
    ensures arg.None? || arg.value < 0 ==> r == BadMax(policy) && persisted' == persisted
    ensures arg.Some? && arg.value >= 0 && (s0.Null? || s1.Null?) ==>
              r == Ok(Max(Length(s0), Length(s1))) && persisted' == persisted
    ensures arg.Some? && arg.value >= 0 && s0.Value? && s1.Value? ==>
              var max := Min(arg.value, persisted);
              var p := Prepare(s0, s1, max, true);
              var d := Distance(Osa, s0.chars, s1.chars);
              && (p.Exit? ==> persisted' == persisted)
              && (p.Run? && 2 * (|p.query| + 1) > BufferSize ==> r == Ok(0) && persisted' == persisted)
              && (!(p.Run? && 2 * (|p.query| + 1) > BufferSize) ==> !r.error && !r.isNull && Bounded(r.value, d, max))
              && (p.Run? && 2 * (|p.query| + 1) <= BufferSize && d <= max ==> persisted' == d)
              && (p.Run? && 2 * (|p.query| + 1) <= BufferSize && d > max ==> persisted' == persisted || persisted' == max)
  {
    persisted' := persisted;
    var prior := if arg.Some? then Min(arg.value, persisted) else persisted;
    match ValidateBound(arg, prior, policy)
    case Rejected(reply) =>
      r := reply;
    case Accepted(max) =>
      var p := Prepare(s0, s1, max, true);
      if s0.Value? && s1.Value? {
        PrepareSound(Osa, s0, s1, max, true);
      }
      match p
      case Exit(v) =>
        r := Ok(v);
      case Run(subject, query) =>
        if 2 * (|query| + 1) > BufferSize {
          r := Ok(0);
        } else {
          var outcome := AdaptiveOsaCore(subject, query, max);
          CappedBounded(Osa, subject, query, max, max, outcome);
          r := Ok(Capped(outcome, max));
          if outcome.Completed? {
            persisted' := Min(outcome.cell, max);
          }
        }
  }
}
