/** `postgres`: the library's port of PostgreSQL's `levenshtein_less_equal`, with
    unit costs and single-byte characters.  The longer string runs along the
    columns, the shorter down the rows; the live columns of each row narrow after
    the row to those whose value, plus the distance to the final diagonal, is at
    most the bound.  The answer is the distance when that is at most the bound,
    and the bound plus one otherwise. */
module Postgres {
  import opened Common
  import opened EditDistance
  import opened Band
  import opened AdaptiveLoop
  import opened PostgresLoop
  import opened ValidateMax

  /** Row i: the stop column grows over the sentinel K + 1 unless it is already
      past the last column, column 0 gets i while it is live, and the live columns
      are filled left to right.  The character of the longer string is read
      through `offset`, which runs one behind the column. */
  method FillRow<T(==)>(a: seq<T>, b: seq<T>, k: nat, i: nat, start: nat, stop: nat, offset: nat,
                        prev: seq<nat>, curr: seq<nat>)
    returns (prev': seq<nat>, stop': nat, row: seq<nat>)
    requires 1 <= i <= |a| <= |b|
    requires offset + 1 == Max(start, 1)
    requires Ready(a, b, k, i, start, stop, prev, curr) == true
    ensures Filled(a, b, k, i, start, stop', prev', row) == true
  {
    prev', stop' := prev, stop;
    if stop <= |b| {
      prev' := prev[stop := k + 1];
      stop' := stop + 1;
    }
    var j: nat;
    if start == 0 {
      row := curr[0 := i];
      j := 1;
    } else {
      row := curr;
      j := start;
    }
    Enter(a, b, k, i, start, stop, prev, curr, stop', prev', row);
    row := FillCells(a, b, k, i, Max(start, 1), stop', j, offset, prev', row);
    Leave(a, b, k, i, start, stop, prev, curr, stop', prev', row);
  }

  /** Cells j to stop - 1 of row i, left to right, each from the cell above, the
      cell to its left and the one diagonally above.  The character of the longer
      string is read through `x`, which runs one behind the column. */
  method FillCells<T(==)>(a: seq<T>, b: seq<T>, k: nat, i: nat, first: nat, stop: nat, j: nat, x: nat,
                          prev: seq<nat>, row: seq<nat>)
    returns (row': seq<nat>)
    requires 1 <= i <= |a| && 1 <= first <= j <= stop <= |b| + 1 && x + 1 == j
    requires Filling(a, b, k, i, first, stop, j, prev, row) == true
    ensures Filling(a, b, k, i, first, stop, stop, prev, row') == true
    ensures row'[first - 1] == row[first - 1]
  {
    row' := row;
    var j', x' := j, x;
    while j' < stop
      invariant j <= j' <= stop && x' + 1 == j'
      invariant Filling(a, b, k, i, first, stop, j', prev, row') == true
      invariant row'[first - 1] == row[first - 1]
      decreases stop - j'
    {
      var ins := prev[j'] + 1;
      var del := row'[j' - 1] + 1;
      var sub := prev[j' - 1] + (if b[x'] == a[i - 1] then 0 else 1);
      var cell := Min(Min(ins, del), sub);
      FillStep(a, b, k, i, first, stop, j', prev, row', cell);
      row' := row'[j' := cell];
      x' := x' + 1;
      j' := j' + 1;
    }
  }

  /** The stop column slides left while the column before it fails the test:
      its value plus its distance to the final diagonal i + delta exceeds K. */
  method SlideStopLoop(row: seq<nat>, i: nat, delta: nat, k: nat, stop: nat) returns (stop': nat)
    requires stop <= |row|
    ensures stop' == SlideStop(row, i, delta, k, stop)
  {
    var zp := i + delta;
    stop' := stop;
    while stop' > 0
      invariant stop' <= stop
      invariant SlideStop(row, i, delta, k, stop') == SlideStop(row, i, delta, k, stop)
    {
      var net := stop' - 1 - zp;
      if row[stop' - 1] + (if net > 0 then net else -net) <= k {
        break;
      }
      stop' := stop' - 1;
    }
  }

  /** The start column slides right, not past the stop column, while its column
      fails the test; every column it leaves is set to K + 1 in both buffers, and
      the character offset moves along with every column but 0. */
  method SlideStartLoop(row: seq<nat>, other: seq<nat>, i: nat, delta: nat, k: nat, start: nat, stop: nat,
                        offset: nat)
    returns (start': nat, offset': nat, row': seq<nat>, other': seq<nat>)
    requires stop <= |row| == |other|
    ensures start' == SlideStart(row, i, delta, k, start, stop)
    ensures row' == Stamp(row, start, start', k + 1) && other' == Stamp(other, start, start', k + 1)
    ensures offset' == offset + (if start' > start then start' - Max(start, 1) else 0)
  {
    var zp := i + delta;
    start', offset', row', other' := start, offset, row, other;
    assert Stamp(row, start, start, k + 1) == row;
    assert Stamp(other, start, start, k + 1) == other;
    while start' < stop
      invariant start <= start' && (start <= stop ==> start' <= stop)
      invariant SlideStart(row, i, delta, k, start', stop) == SlideStart(row, i, delta, k, start, stop)
      invariant row' == Stamp(row, start, start', k + 1) && other' == Stamp(other, start, start', k + 1)
      invariant offset' == offset + (if start' > start then start' - Max(start, 1) else 0)
      decreases stop - start'
    {
      var net := start' - zp;
      StampAt(row, start, start', k + 1, start');
      if row'[start'] + (if net > 0 then net else -net) <= k {
        break;
      }
      StampGrow(row, start, start', k + 1);
      StampGrow(other, start, start', k + 1);
      row' := row'[start' := k + 1];
      other' := other'[start' := k + 1];
      if start' != 0 {
        offset' := offset' + 1;
      }
      start' := start' + 1;
    }
  }

  /** Row i followed by the narrowing, the buffers having changed roles: the
      columns cross only when the distance exceeds K; otherwise row i + 1 is
      ready, or, after the last row, the last column holds the distance. */
  method RowStep<T(==)>(a: seq<T>, b: seq<T>, k: nat, i: nat, start: nat, stop: nat, offset: nat,
                        prev: seq<nat>, curr: seq<nat>)
    returns (crossed: bool, start': nat, stop': nat, offset': nat, prev': seq<nat>, curr': seq<nat>)
    requires 1 <= i <= |a| <= |b|
    requires offset + 1 == Max(start, 1)
    requires Ready(a, b, k, i, start, stop, prev, curr) == true
    ensures crossed ==> Distance(Levenshtein, a, b) > k
    ensures !crossed ==> offset' + 1 == Max(start', 1)
    ensures !crossed && i < |a| ==> Ready(a, b, k, i + 1, start', stop', prev', curr') == true
    ensures !crossed && i == |a| ==> |prev'| == |b| + 1 && prev'[|b|] == Distance(Levenshtein, a, b) <= k
  {
    var delta := |b| - |a|;
    var up, grown, row := FillRow(a, b, k, i, start, stop, offset, prev, curr);
    stop' := SlideStopLoop(row, i, delta, k, grown);
    start', offset', prev', curr' := SlideStartLoop(row, up, i, delta, k, start, stop', offset);
    crossed := start' >= stop';
    Narrowed(a, b, k, i, start, grown, up, row, stop', start', prev', curr');
  }

  /** The computation after the length checks, on the shorter string `a` and the
      longer `b`, with `leftover` the contents the work buffer holds on entry:
      the distance when it is at most K, and K + 1 otherwise. */
  method PostgresCore<T(==)>(a: seq<T>, b: seq<T>, k: nat, leftover: seq<nat>) returns (r: nat)
    requires |a| <= |b| && |leftover| == 2 * (|b| + 1)
    ensures r == Min(Distance(Levenshtein, a, b), k + 1)
  {
    var delta := |b| - |a|;
    if delta > k {
      Bounds(Levenshtein, a, b, |a|, |b|);
      return k + 1;
    }
    var start: nat, stop: nat := 0, delta + (k - delta) / 2 + 1;
    if stop > |b| {
      stop := |b| + 1;
    }
    var prev, curr := leftover[..|b| + 1], leftover[|b| + 1..];
    for j := start to stop
      invariant |prev| == |b| + 1
      invariant forall p :: 0 <= p < j ==> prev[p] == p
    {
      prev := prev[j := j];
    }
    var offset: nat := 0;
    if |a| == 0 {
      Border(Levenshtein, a, b, 0, |b|);
    } else {
      FirstReady(a, b, k, stop, prev, curr);
    }
    var i := 1;
    while i <= |a|
      invariant 1 <= i <= |a| + 1 && offset + 1 == Max(start, 1)
      invariant i <= |a| ==> Ready(a, b, k, i, start, stop, prev, curr) == true
      invariant i > |a| ==> |prev| == |b| + 1 && prev[|b|] == Distance(Levenshtein, a, b) <= k
      decreases |a| + 1 - i
    {
      var crossed;
      crossed, start, stop, offset, prev, curr := RowStep(a, b, k, i, start, stop, offset, prev, curr);
      if crossed {
        return k + 1;
      }
      i := i + 1;
    }
    return Min(prev[|b|], k);
  }

  /** The `postgres` function.  A missing or negative bound is rejected; the
      bound is the argument clamped to the largest allowed.  A SQL NULL string
      answers the longer length.  When the longer string needs more than the
      work buffer's two rows the answer is 0; otherwise it is the distance
      capped at the bound plus one. */
  method Postgres<T(==)>(s0: Arg<T>, s1: Arg<T>, arg: Option<int>, policy: BadMaxPolicy, buffer: seq<nat>)
    returns (r: Reply)
    requires |buffer| == BufferSize
    ensures arg.None? || arg.value < 0 ==> r == BadMax(policy)
    ensures arg.Some? && arg.value >= 0 && (s0.Null? || s1.Null?) ==> r == Ok(Max(Length(s0), Length(s1)))
    ensures arg.Some? && arg.value >= 0 && s0.Value? && s1.Value? ==>
              var max := Min(arg.value, MaxEditDist);
              if 2 * (Max(|s0.chars|, |s1.chars|) + 1) > BufferSize then r == Ok(0)
              else r == Ok(Min(Distance(Levenshtein, s0.chars, s1.chars), max + 1))
  {
    var prior := if arg.Some? then Min(arg.value, MaxEditDist) else MaxEditDist;
    match ValidateBound(arg, prior, policy)
    case Rejected(reply) =>
      r := reply;
    case Accepted(max) =>
      if s0.Null? || s1.Null? {
        return Ok(Max(Length(s0), Length(s1)));
      }
      var source, target := s0.chars, s1.chars;
      if |source| < |target| {
        source, target := target, source;
      }
      if 2 * (|source| + 1) > BufferSize {
        return Ok(0);
      }
      var d := PostgresCore(target, source, max, buffer[..2 * (|source| + 1)]);
      Symmetric(Levenshtein, s0.chars, s1.chars, |s0.chars|, |s1.chars|);
      r := Ok(d);
  }
}
