/** The `levlimopt` function: single-row Levenshtein on a band whose right edge is
    min(m, i + K) and whose left edge follows the previous row's minimum,
    max(1, i - (K - minimum)), with K = min(max, m), sentinels max+1 on both sides
    and the row-minimum early exit.

    As written it differs from the working single-row variants in two places: the
    carried cell is read after column 0 has been set to i, and a row is cut short
    once, right of column i, both the new cell and the cell above it exceed K.
    Both are modelled as written, each with an input on which the result is wrong;
    the loop proved here reads the carried cell first and sweeps the whole band. */
module LevLimOpt {
  import opened Common
  import opened EditDistance
  import opened Band
  import opened Cells
  import opened Prealgorithm
  import opened ValidateMax
  import opened LimitLoop

  /** One cell of the band and the update that moves the state on. */
  method LimitCell<T(==)>(a: seq<T>, b: seq<T>, k: nat, sentinel: nat, i: nat, start: nat, floor: nat,
                          j: nat, c: LimitCursor)
    returns (c': LimitCursor, cell: nat)
    requires 1 <= i <= |a| && 1 <= start <= j <= BandEnd(i, k, |b|)
    requires LimitState(a, b, k, sentinel, i, start, floor, j, c)
    ensures LimitState(a, b, k, sentinel, i, start, floor, j + 1, c')
    ensures |c'.buffer| == |c.buffer| && cell == c'.buffer[j]
  {
    cell := LevCell(a, b, i, j, c.buffer[j], c.buffer[j - 1], c.previousCell);
    StepAdmissible(Levenshtein, a, b, k, i, j, c.buffer[j], c.buffer[j - 1], c.previousCell, 0);
    LimitStateAdvance(a, b, k, sentinel, i, start, floor, j, c, cell);
    c' := LimitAdvance(c, j, cell);
  }

  /** The sweep of row i across its band. */
  method LimitSweep<T(==)>(a: seq<T>, b: seq<T>, k: nat, sentinel: nat, i: nat, start: nat, floor: nat, c: LimitCursor)
    returns (c': LimitCursor, cell: nat)
    requires 1 <= i <= |a| && 1 <= start <= BandEnd(i, k, |b|)
    requires LimitState(a, b, k, sentinel, i, start, floor, start, c)
    requires |c.buffer| == |b| + 1
    ensures LimitState(a, b, k, sentinel, i, start, floor, BandEnd(i, k, |b|) + 1, c')
    ensures cell == c'.buffer[BandEnd(i, k, |b|)]
  {
    c', cell := c, 0;
    for j := start to BandEnd(i, k, |b|) + 1
      invariant LimitState(a, b, k, sentinel, i, start, floor, j, c')
      invariant |c'.buffer| == |b| + 1
      invariant j > start ==> cell == c'.buffer[j - 1]
    {
      c', cell := LimitCell(a, b, k, sentinel, i, start, floor, j, c');
    }
  }

  /** Row i: the carried cell, column 0 and the sentinels, then the sweep. */
  method LimitRow<T(==)>(a: seq<T>, b: seq<T>, k: nat, sentinel: nat, i: nat, ghost lo: nat, floor: nat, buffer: seq<nat>)
    returns (c: LimitCursor, cell: nat)
    requires 1 <= i <= |a| <= |b| && k < sentinel
    requires LimitReady(a, b, k, i, lo, floor, buffer)
    ensures LimitStart(i, k, floor) <= BandEnd(i, k, |b|)
    ensures LimitDone(a, b, k, sentinel, i, LimitStart(i, k, floor), floor, c)
    ensures cell == c.buffer[BandEnd(i, k, |b|)]
  {
    var start, end := LimitStart(i, k, floor), BandEnd(i, k, |b|);
    LimitRowEntry(a, b, k, sentinel, i, lo, floor, buffer);
    c, cell := LimitSweep(a, b, k, sentinel, i, start, floor, LimitRowStart(buffer, i, start, end, |b|, sentinel));
    LimitRowExit(a, b, k, sentinel, i, start, floor, c);
  }

  /** The banded computation: the distance when it is at most K, something above K
      otherwise, and an early exit only when the distance exceeds K. */
  method LimitCore<T(==)>(a: seq<T>, b: seq<T>, k: nat, sentinel: nat) returns (r: BandOutcome)
    requires 1 <= |a| <= |b| && |b| - |a| <= k && k < sentinel
    ensures r.EarlyExit? ==> Distance(Levenshtein, a, b) > k
    ensures r.Completed? ==> Distance(Levenshtein, a, b) <= k ==> r.cell == Distance(Levenshtein, a, b)
    ensures r.Completed? ==> Distance(Levenshtein, a, b) > k ==> r.cell > k
  {
    var buffer := Iota(|b| + 1);
    var floor: nat := 0;
    ghost var lo: nat := 1;
    LimitFirstRowReady(a, b, k);
    var i := 1;
    while true
      invariant 1 <= i <= |a| && LimitReady(a, b, k, i, lo, floor, buffer)
      decreases |a| - i
    {
      var c, cell := LimitRow(a, b, k, sentinel, i, lo, floor, buffer);
      if c.rowMin > k {
        LimitRowAbove(a, b, k, sentinel, i, floor, c);
        return EarlyExit;
      }
      if i == |a| {
        LimitLastRow(a, b, k, sentinel, LimitStart(i, k, floor), floor, c);
        return Completed(cell);
      }
      LimitHandover(a, b, k, sentinel, i, floor, c);
      lo, floor, buffer := LimitStart(i, k, floor), c.rowMin, c.buffer;
      i := i + 1;
    }
  }

  /** The `levlimopt` function with the carried cell read before column 0 is reset
      and without the in-row cut: the bound is min(max, 4096), validated; the
      pre-algorithm checks the length difference against it; the band works with
      K = min(max, m) and the sentinel max+1. */
  method LevLimOpt<T(==)>(s0: Arg<T>, s1: Arg<T>, arg: Option<int>, policy: BadMaxPolicy) returns (r: Reply)
    ensures arg.None? || arg.value < 0 ==> r == BadMax(policy)
    ensures arg.Some? && arg.value >= 0 && (s0.Null? || s1.Null?) ==> r == Ok(Max(Length(s0), Length(s1)))
    ensures arg.Some? && arg.value >= 0 && s0.Value? && s1.Value? ==>
              var max := Min(arg.value, MaxEditDist);
              var p := Prepare(s0, s1, max, true);
              if p.Run? && |p.query| + 1 > BufferSize then r == Ok(0)
              else !r.error && !r.isNull && Bounded(r.value, Distance(Levenshtein, s0.chars, s1.chars), max)
  {
    var prior := if arg.Some? then Min(arg.value, MaxEditDist) else MaxEditDist;
    match ValidateBound(arg, prior, policy)
    case Rejected(reply) =>
      r := reply;
    case Accepted(max) =>
      var p := Prepare(s0, s1, max, true);
      if s0.Value? && s1.Value? {
        PrepareSound(Levenshtein, s0, s1, max, true);
      }
      match p
      case Exit(v) =>
        r := Ok(v);
      case Run(subject, query) =>
        if |query| + 1 > BufferSize {
          r := Ok(0);
        } else {
          var k := EffectiveMax(max, |query|);
          var outcome := LimitCore(subject, query, k, max + 1);
          CappedBounded(Levenshtein, subject, query, max, k, outcome);
          r := Ok(Capped(outcome, max));
        }
  }

  /** What one row of the loop as written leaves: the buffer, the last cell it
      computed and the row minimum. */
  datatype RowResult = RowResult(buffer: seq<int>, cell: int, rowMin: int)

  /** The inner loop as written, from column j to the band end.  The buffer has
      m + 2 entries: when the row is cut short at column j, the sentinel goes to
      j + 1 under a guard `j <= m` that always holds, which for j = m is one past
      the m + 1 entries the algorithm otherwise uses. */
  function SweepAsWritten<T(==)>(a: seq<T>, b: seq<T>, max: int, k: int, i: nat, j: nat, end: nat,
                                 buffer: seq<int>, previousCell: int, cell: int, rowMin: int): (r: RowResult)
    requires 1 <= i <= |a| && 1 <= j && end <= |b| && |buffer| == |b| + 2
    decreases end + 1 - j
  {
    if j > end then RowResult(buffer, cell, rowMin)
    else
      var cost := if a[i - 1] == b[j - 1] then 0 else 1;
      var current := Least(buffer[j] + 1, buffer[j - 1] + 1, previousCell + cost);
      if j > i && current > k && buffer[j] > k then
        RowResult(buffer[j := current][j + 1 := max + 1], current, rowMin)
      else
        SweepAsWritten(a, b, max, k, i, j + 1, end, buffer[j := current], buffer[j], current, Min(rowMin, current))
  }

  /** The row as written keeps the buffer's length (the sentinel write past the
      band stays inside the m + 2 entries) and never raises the row minimum. */
  lemma {:induction false} SweepAsWrittenShape<T>(a: seq<T>, b: seq<T>, max: int, k: int, i: nat, j: nat, end: nat,
                                                      buffer: seq<int>, previousCell: int, cell: int, rowMin: int)
    requires 1 <= i <= |a| && 1 <= j && end <= |b| && |buffer| == |b| + 2
    ensures var r := SweepAsWritten(a, b, max, k, i, j, end, buffer, previousCell, cell, rowMin);
            |r.buffer| == |b| + 2 && r.rowMin <= rowMin
    decreases end + 1 - j
  {
    if j <= end {
      var cost := if a[i - 1] == b[j - 1] then 0 else 1;
      var current := Least(buffer[j] + 1, buffer[j - 1] + 1, previousCell + cost);
      if !(j > i && current > k && buffer[j] > k) {
        SweepAsWrittenShape(a, b, max, k, i, j + 1, end, buffer[j := current], buffer[j], current, Min(rowMin, current));
      }
    }
  }

  /** Rows i to n as written, returning the function's result.  `readFirst` says
      whether the carried cell is taken before column 0 is set to i; levlimopt
      takes it after. */
  function RowsAsWritten<T(==)>(a: seq<T>, b: seq<T>, max: int, k: nat, readFirst: bool, i: nat,
                                buffer: seq<int>, rowMin: int, cell: int): (v: int)
    requires 1 <= i <= |a| + 1 && |a| <= |b| && |buffer| == |b| + 2 && rowMin <= k
    decreases |a| + 1 - i
  {
    if i > |a| then Min(max + 1, cell)
    else
      var start: nat := Max(1, i - (k - rowMin));
      var end: nat := Min(|b|, i + k);
      var reset := buffer[0 := i];
      var previousCell := if readFirst then buffer[start - 1] else reset[start - 1];
      var row := if start > 1 then reset[start - 1 := max + 1] else reset;
      var row := if end < |b| then row[end + 1 := max + 1] else row;
      var r := SweepAsWritten(a, b, max, k, i, start, end, row, previousCell, cell, i);
      SweepAsWrittenShape(a, b, max, k, i, start, end, row, previousCell, cell, i);
      if r.rowMin > k then max + 1
      else RowsAsWritten(a, b, max, k, readFirst, i + 1, r.buffer, r.rowMin, r.cell)
  }

  /** The whole function as written, up to the read order of the carried cell: the
      bound is validated after its conversion to 32 bits, against the unconverted
      min(max, 4096). */
  function LevLimOptWith<T(==)>(s0: Arg<T>, s1: Arg<T>, arg: Option<int>, policy: BadMaxPolicy, readFirst: bool): (r: Reply)
    ensures arg.None? || Int32(arg.value) < 0 ==> r == BadMax(policy)
    ensures arg.Some? && Int32(arg.value) >= 0 && (s0.Null? || s1.Null?) ==> r == Ok(Max(Length(s0), Length(s1)))
  {
    var prior := if arg.Some? then Min(arg.value, MaxEditDist) else MaxEditDist;
    match ValidateMaxAsWritten(arg, prior, policy)
    case Rejected(reply) => reply
    case Accepted(max) =>
      match Prepare(s0, s1, max, true)
      case Exit(v) => Ok(v)
      case Run(subject, query) =>
        if |query| + 1 > BufferSize then Ok(0)
        else Ok(RowsAsWritten(subject, query, max, EffectiveMax(max, |query|), readFirst, 1, Iota(|query| + 2), 0, 0))
  }

  /** `levlimopt` as written. */
  function LevLimOptAsWritten<T(==)>(s0: Arg<T>, s1: Arg<T>, arg: Option<int>, policy: BadMaxPolicy): (r: Reply)
    ensures arg.None? || Int32(arg.value) < 0 ==> r == BadMax(policy)
  {
    LevLimOptWith(s0, s1, arg, policy, false)
  }

  /** "a" against "b" with bound 1: the distance is 1, but the carried cell of the
      first row is read after column 0 became 1, so cell (1, 1) comes out as 2. */
  lemma CarriedCellReadLate()
    ensures Distance(Levenshtein, "a", "b") == 1
    ensures LevLimOptAsWritten(Value("a"), Value("b"), Some(1), ReturnZero) == Ok(2)
  {
    var a, b := "a", "b";
    assert CommonPrefix(a, b) == 0;
    assert a[0..] == a && b[0..] == b;
    assert CommonSuffix(a, b) == 0;
    assert a[0..|a| - 0] == a && b[0..|b| - 0] == b;
    assert Trim(a, b) == (a, b);
    assert Finish(a, b, 1, true) == Run(a, b);
    assert Prepare(Value(a), Value(b), 1, true) == Run(a, b);
    assert Iota(3) == [0, 1, 2];
    assert SweepAsWritten(a, b, 1, 1, 1, 1, 1, [1, 1, 2], 1, 0, 1) == RowResult([1, 2, 2], 2, 1);
    assert RowsAsWritten(a, b, 1, 1, false, 1, [0, 1, 2], 0, 0) == 2;
    assert LevLimOptWith(Value(a), Value(b), Some(1), ReturnZero, false) == Ok(2);
    Recurrence(Levenshtein, a, b, 1, 1);
    Border(Levenshtein, a, b, 0, 1);
    Border(Levenshtein, a, b, 1, 0);
    Border(Levenshtein, a, b, 0, 0);
  }
}
