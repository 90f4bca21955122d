# Edit-distance user-defined functions, modelled in Dafny

This project models a family of MySQL user-defined functions (UDFs) that
compute edit distances between two strings. Two metrics are covered:

- **Levenshtein**: insert, delete, substitute.
- **Optimal string alignment (OSA)**: the same three moves plus the
  transposition of two adjacent characters. The library calls it
  "Damerau-Levenshtein".

Most UDFs share some of the following steps, and each step is modelled
where the UDF takes it:

- A NULL argument answers the longer reported length. Every UDF but
  `damlev2D` does this.
- `validate_max.h` rejects a negative or missing bound and clamps the bound
  to a prior value. Only the bounded UDFs do this: `edit_dist`, `damlev` and
  `damlev2D` take no bound.
- `prealgorithm.h` strips the common prefix and suffix and puts the shorter
  string first. It exits early when one string is used up, or when the
  lengths differ by more than the bound. The unbounded `edit_dist` and
  `damlev` skip the last exit. `postgres` does not include this header: it
  only swaps the strings so the longer comes first, and it neither strips nor
  exits early.
- A check on the preallocated work buffer of 4096 ints answers 0 when the
  rows do not fit. `postgres` applies it to the untrimmed longer length.

`damlev2D` takes none of these steps: it fills the full matrix of the two
strings as given.

The UDFs then differ in how they fill the dynamic-programming matrix:

- `edit_dist` and `damlev`: the full matrix on one or two rows.
- `damlevlim`, `damlevmin` and `bounded_edit_dist_OLD`: a fixed diagonal
  band of radius K.
- `levlimopt`: a band whose left edge follows a row floor.
- `bounded_edit_dist`, `min_edit_dist`, `bounded_edit_dist_t` and
  `min_edit_dist_t`: an adaptive band. After each row, the band narrows to
  the cells whose value plus their distance to the final diagonal is at
  most K.
- `postgres`: the port of PostgreSQL's `levenshtein_less_equal`.
- `tools/Matrix.py`: three Python reference matrices.

The `min_*` variants also carry the smallest distance seen so far from one
call to the next. This is modelled as a `persisted` parameter and result.

All of the computations are measured against one reference definition:
`EditDistance.Distance(metric, a, b)`, the last cell of the textbook matrix.
That matrix is defined row by row, and every fact about it (borders,
recurrence, bounds, symmetry, prefix and suffix removal) is proved once for
both metrics.

The banded algorithms are proved against a common invariant. Take the gap
of a cell: its distance from the final diagonal, counted in cells.

- A cell is **good** when its true value plus its gap is at most K.
- A buffer value is **admissible** when it is exact on good cells, and is
  otherwise either at least the true value or too large to matter.

Then:

- The minimum over admissible operands is admissible.
- Every row holds a good cell on the final diagonal whenever the distance is
  at most K.

Together these justify every early exit and every narrowing.

The bounded UDFs all promise the same contract, `Band.Bounded(v, d, max)`:

- the exact distance `d` when `d <= max`;
- otherwise `max + 1`, or `d` itself.

The answer `d` above `max` comes only from the pre-algorithm. Its prefix exit
and its empty-string exit return the distance, which may exceed `max + 1`.
Every corrected band computation answers exactly `min(d, max + 1)`
(`Band.CappedBounded`). So does `postgres` as a whole, and so does
`levbandedopt` when its first string is non-empty.

## Model

| member | source | states |
|---|---|---|
| Common.BadMax | src/validate_max.h:8-28 | a rejected bound raises the error flag and replies 0, or SQL NULL with value 1, according to the build policy |
| ValidateMax.ValidateBound | src/validate_max.h:6-29 | a missing or negative bound is rejected with the policy's reply; an accepted bound is the smaller of the argument and the prior value |
| ValidateMax.ValidateMaxAsWritten | src/validate_max.h:6-19 | the bound as the header computes it: rejected exactly when the argument truncated to 32 bits is negative, otherwise the smaller of the truncated argument and the prior value |
| ValidateMax.ValidationAgrees | src/validate_max.h:7 | for arguments that fit in 32 bits, the header and the corrected validation agree |
| ValidateMax.TruncatedBoundShrinks | src/validate_max.h:7 | the bound 2^32 + 1 is accepted as 1 by the header, while the corrected validation keeps the prior 4096 |
| ValidateMax.NegativeBoundAccepted | src/validate_max.h:7-8 | the negative bound 5 - 2^32 truncates to 5 and passes the header's sign check; the corrected validation rejects it |
| Prealgorithm.CommonPrefix | src/prealgorithm.h:26-28 | the result is the length of the longest common prefix: all earlier positions agree and the next one differs |
| Prealgorithm.CommonSuffix | src/prealgorithm.h:45-48 | the result is the length of the longest common suffix within what the prefix leaves |
| Prealgorithm.Trim | src/prealgorithm.h:26-53 | after stripping, the two remaining strings differ in their first and last characters unless one of them is empty |
| Prealgorithm.TrimSound | src/prealgorithm.h:45-53 | stripping the common prefix and suffix keeps the distance, in either order of the strings |
| Prealgorithm.PrefixExit | src/prealgorithm.h:30-43 | when one string is a prefix of the other, the distance is the length difference returned at the prefix exit |
| Prealgorithm.Prepare | src/prealgorithm.h:13-86 | NULL answers the longer length; a run has the shorter string first, both non-empty, differing at both ends, and lengths within the bound when the bound is checked |
| Prealgorithm.Finish | src/prealgorithm.h:56-84 | the swap puts the shorter string first; an exit is the longer length when one string is empty, or max + 1 when the lengths differ by more than max |
| Prealgorithm.FinishSound | src/prealgorithm.h:56-84 | an exit after stripping is the exact distance, or max + 1 with max below the distance; a run keeps the distance |
| Prealgorithm.PrepareSound | src/prealgorithm.h:13-86 | every early exit is the distance, or max + 1 when that is below the distance; a run has the same distance as the original strings |
| Prealgorithm.EffectiveMax | src/prealgorithm.h:74-75 | the effective bound is the bound or the longer length, whichever is smaller |
| EditDistance.Border | tools/Matrix.py:50-55 | row 0 holds j and column 0 holds i |
| EditDistance.Recurrence | tools/Matrix.py:60-63 | every inner cell is the minimum of deletion, insertion and substitution, plus transposition for OSA |
| EditDistance.Moves | src/damlev2D.cpp:123-130 | no cell exceeds any of its operands plus its move's cost |
| EditDistance.Attained | src/damlev2D.cpp:123-130 | every inner cell equals one of its operands plus that move's cost |
| EditDistance.Bounds | src/prealgorithm.h:76-77 | the distance is at least the length difference |
| EditDistance.AtMostLonger | src/prealgorithm.h:74-75 | the distance is at most the longer length and at most the sum of the lengths |
| EditDistance.Symmetric | src/prealgorithm.h:56-59 | swapping the strings swaps the matrix, so the distance does not depend on which string goes first |
| EditDistance.DropCommonPrefix | src/prealgorithm.h:26-28 | a common prefix does not change the distance |
| EditDistance.DropCommonSuffix | src/prealgorithm.h:45-53 | a common suffix does not change the distance |
| EditDistance.PrefixDistance | src/prealgorithm.h:30-43 | a string and its extension by x are exactly the length of x apart, in either order |
| EditDistance.ZeroIffEqual | tests/unittests.cpp:14 | the distance is 0 exactly when the strings are equal |
| Reference.LevenshteinMatrix | tools/Matrix.py:43-78 | every cell of the returned matrix is the reference distance of the prefixes, and every arrow list is the cell's tag list |
| Reference.TagsRecordTies | tools/Matrix.py:65-76 | an arrow is recorded exactly when the cell equals that operand plus one, and the match arrow exactly when the characters agree |
| Reference.TagsTraceBack | tools/Matrix.py:64-76 | every inner cell carries at least one arrow, and each arrow names an operand that the cell actually came from |
| Reference.Damlev2D | src/damlev2D.cpp:104-135 | the full matrix with transpositions answers the OSA distance |
| Reference.TransposedPair | tests/unittests.cpp:15 | "test" and "tset" are OSA distance 1 apart |
| Cells.LevCell | src/edit_dist.cpp:170-175 | the cell is the Levenshtein step of its operands, and it is the reference cell when its operands are |
| Cells.OsaCell | src/damlev.cpp:173-181 | the cell is the OSA step of its operands, and it is the reference cell when its operands are |
| FullDp.EditDistCore | src/edit_dist.cpp:124-199 | the one-row computation answers the Levenshtein distance |
| FullDp.EditDist | src/edit_dist.cpp:94-200 | NULL answers the longer length; the bound check is suppressed; 0 when the stripped longer string needs more than the buffer; otherwise the Levenshtein distance |
| FullDp.DamlevRow | src/damlev.cpp:156-196 | after row i, the current half holds row i, the previous half holds row i - 1 up to column m - 2, and the last cell is the row's last distance |
| FullDp.DamlevCore | src/damlev.cpp:128-219 | the two-row computation with transpositions answers the OSA distance |
| FullDp.Damlev | src/damlev.cpp:95-220 | NULL answers the longer length; 0 when two rows do not fit in the buffer; otherwise the OSA distance |
| Band.StepAdmissible | src/damlevlim.cpp:201-208 | the step of admissible operands is admissible: exact on good cells and harmless elsewhere |
| Band.DiagonalWitness | src/bounded_edit_dist.cpp:250-268 | when the distance is at most K, every row has a good cell on the final diagonal whose value is at most K |
| Band.FinalCell | src/damlevlim.cpp:258 | an admissible last cell is the distance when that is at most K, and above K otherwise |
| Band.RowAboveBound | src/damlevlim.cpp:239-250 | a row whose band minimum exceeds K shows that the distance exceeds K |
| Band.CappedBounded | src/damlevlim.cpp:249-258 | the band outcome capped at max + 1 is exactly min(distance, max + 1), with K equal to max or to the longer length |
| AdaptiveLoop.WithinGood | src/bounded_edit_dist.cpp:250-268 | the narrowing test on an admissible buffer value holds exactly when the cell is good, and then the value is exact |
| FixedBand.OsaFixedBand | src/damlevlim.cpp:158-258 | a band exit shows the distance exceeds K; a completed band's last cell is the OSA distance when that is at most K, and above K otherwise |
| FixedBand.Damlevlim | src/damlevlim.cpp:104-259 | a bad bound gives the policy's reply; NULL answers the longer length; 0 when the buffer is too small; otherwise the OSA distance when it is at most the bound, and max + 1 or the distance itself (from a pre-algorithm exit) when it is not |
| FixedBand.Damlevmin | src/damlevmin.cpp:132-295 | as damlevlim, with the bound lowered to the persisted minimum; the persisted minimum never grows and becomes the distance whenever the distance is within the bound |
| LevFixedBand.LevFixedBandCore | src/bounded_edit_dist_OLD.cpp:150-236 | a band exit shows the distance exceeds K; a completed band's last cell is the Levenshtein distance when that is at most K, and above K otherwise |
| LevFixedBand.BoundedEditDistOld | src/bounded_edit_dist_OLD.cpp:104-237 | a bad bound gives the policy's reply; NULL answers the longer length; 0 when one row does not fit; otherwise the Levenshtein distance when it is at most the bound, and max + 1 or the distance itself (from a pre-algorithm exit) when it is not |
| LevLimOpt.LimitCore | src/levlimopt.cpp:180-271 | the floor-limited band with the carried cell read first: an exit shows the distance exceeds K, and the last cell is exact when the distance is at most K |
| LevLimOpt.LevLimOpt | src/levlimopt.cpp:134-272 | the corrected levlimopt: a bad bound gives the policy's reply; NULL answers the longer length; 0 when one row does not fit; otherwise the Levenshtein distance when it is at most the bound, and max + 1 or the distance itself (from a pre-algorithm exit) when it is not |
| LevLimOpt.LevLimOptAsWritten | src/levlimopt.cpp:134-272 | levlimopt as written, with the carried cell read after column 0 is overwritten and the bound converted to 32 bits: a missing bound, or one negative after conversion, gives the policy's reply |
| LevLimOpt.CarriedCellReadLate | src/levlimopt.cpp:182-202 | "a" against "b" with bound 1 answers 2 as written, although the distance is 1 |
| LevLimOptTrace.RowCutShort | src/levlimopt.cpp:235-241 | "aabbc" against "bcccaabb" with bound 5 answers 6, with either read order, although the distance is at most 5 |
| AdaptiveBand.AdaptiveNarrow | src/bounded_edit_dist.cpp:250-280 | the narrowed band is empty only when the distance exceeds K; otherwise the next row is ready, or after the last row the band ends on the distance |
| AdaptiveBand.AdaptiveCore | src/bounded_edit_dist.cpp:174-288 | the adaptive band exits exactly when the Levenshtein distance exceeds K, and otherwise ends on the distance |
| AdaptiveBand.BoundedEditDist | src/bounded_edit_dist.cpp:102-289 | a bad bound gives the policy's reply; NULL answers the longer length; 0 when one row does not fit; otherwise the Levenshtein distance when it is at most the bound, and max + 1 or the distance itself (from a pre-algorithm exit) when it is not |
| AdaptiveBand.MinEditDist | src/min_edit_dist.cpp:117-280 | as bounded_edit_dist, with the bound lowered to the persisted minimum; the minimum becomes the distance when that is within the bound and stays unchanged otherwise |
| AdaptiveOsa.AdaptiveOsaCore | src/bounded_edit_dist_t.cpp:148-281 | with row i - 2 read from a copy of the row pair, a band exit shows the OSA distance exceeds K, and the last cell is exact when the distance is at most K and above K otherwise |
| AdaptiveOsa.BoundedEditDistT | src/bounded_edit_dist_t.cpp:102-282 | the corrected bounded_edit_dist_t: the bound clamped to the longer length, then the OSA distance when it is at most the bound, and max + 1 or the distance itself (from a pre-algorithm exit) when it is not, with the same NULL, bad-bound and buffer replies |
| AdaptiveOsa.MinEditDistT | src/min_edit_dist_t.cpp:128-318 | as bounded_edit_dist_t, with the bound lowered to the persisted minimum: a missing or negative bound gives the policy's reply and keeps the minimum; the minimum never grows and becomes the distance when that is within the bound |
| AdaptiveOsaTrace.StalePrevious | src/bounded_edit_dist_t.cpp:202-223 | with both buffer halves holding 0..m before row 1, row i - 2 is read from entries the band never refreshed, and "cad" against "bcda" with bound 2 answers 3, although the OSA distance is at most 2 |
| MatrixTool.LevBandedAsWritten | tools/Matrix.py:80-133 | levbanded's last cell as written |
| MatrixTool.LevBandedMissesLengthGap | tools/Matrix.py:96-131 | "a" against "aaa" with bound 0 leaves the last cell at 0, although the distance is 2 |
| MatrixTool.LevBanded | tools/Matrix.py:80-133 | the corrected levbanded: the last cell is the distance when that is at most K, and above K otherwise |
| MatrixTool.LevBandedOptCore | tools/Matrix.py:149-198 | the adaptive band is abandoned exactly when the distance exceeds K, and otherwise ends on the distance |
| MatrixTool.LevBandedOpt | tools/Matrix.py:135-200 | the last cell is min(distance, K + 1) when the first string is non-empty, and the distance otherwise |
| PostgresLoop.Narrowed | src/postgres.cpp:360-407 | after the stop and start columns slide, crossed columns show the distance exceeds K; otherwise the next row is ready, or the last column holds the distance |
| Postgres.FillRow | src/postgres.cpp:265-315 | the stop column grows over the K + 1 sentinel, and the live columns of row i are filled admissibly |
| Postgres.SlideStopLoop | src/postgres.cpp:363-372 | the loop stops at the last column whose value plus its distance to the final diagonal is at most K |
| Postgres.SlideStartLoop | src/postgres.cpp:375-394 | the start column passes the failing columns, sets each one to K + 1 in both rows, and moves the character offset with it |
| Postgres.RowStep | src/postgres.cpp:255-407 | crossed columns after row i imply the distance exceeds K; otherwise row i + 1 is ready, or after the last row the last column holds the distance |
| Postgres.PostgresCore | src/postgres.cpp:173-420 | for any leftover buffer contents, the result is exactly min(distance, K + 1) |
| Postgres.Postgres | src/postgres.cpp:55-421 | a bad bound gives the policy's reply; NULL answers the longer length; 0 when two rows of the longer string do not fit; otherwise min(Levenshtein distance, max + 1) |

## Left out

- Server I/O is not modelled:
  - `*_init`/`*_deinit` argument checks, the buffer allocation, the error messages;
  - performance metrics, timers, debug printing of the matrices.
- Multi-byte characters are not modelled. Strings are sequences of an
  arbitrary equality type, compared element by element. The UTF-8 path of
  `postgres` (`pg_mblen` character lengths) is not part of this model.
- Edit costs are 1 throughout. `postgres` fixes its insertion, deletion and
  substitution costs to 1, and the model does the same.
- Integer types are unbounded naturals. The `int` work buffer and the `long
  long` results never come near their limits at a buffer of 4096.
- The 32-bit conversion of the bound argument in `validate_max.h:7` is
  modelled in `ValidateMax.ValidateMaxAsWritten` and recorded under
  "## Findings". `LevLimOpt.LevLimOptAsWritten` validates through it. The
  other UDF models validate through the corrected `ValidateMax.ValidateBound`.
  On every argument that fits in 32 bits the two agree
  (`ValidateMax.ValidationAgrees`), and so do the narrowed priors listed below.
- FixedBand.Damlevlim validates without the 32-bit conversion of
  `validate_max.h:7`; its prior `damlevlim.cpp:116` is not narrowed.
- FixedBand.Damlevmin validates without the 32-bit conversion of
  `validate_max.h:7` and without the narrowing of its prior into `int` at
  `damlevmin.cpp:145`. With that narrowing, an argument below -2^31 can
  raise the persisted minimum, which the model's `persisted' <= persisted`
  rules out.
- LevFixedBand.BoundedEditDistOld validates without the 32-bit conversion of
  `validate_max.h:7` and without the narrowing of its prior at
  `bounded_edit_dist_OLD.cpp:115`.
- LevLimOpt.LevLimOpt validates without the 32-bit conversion of
  `validate_max.h:7`; its prior `levlimopt.cpp:145` is not narrowed.
- AdaptiveBand.BoundedEditDist validates without the 32-bit conversion of
  `validate_max.h:7` and without the one its prior applies to the argument
  at `bounded_edit_dist.cpp:113`.
- AdaptiveBand.MinEditDist validates without the 32-bit conversion of
  `validate_max.h:7` and without the narrowing of its prior into `int` at
  `min_edit_dist.cpp:129`. With that narrowing, an argument below -2^31 can
  raise the persisted minimum, which the model's `persisted' <= persisted`
  rules out.
- AdaptiveOsa.BoundedEditDistT validates without the 32-bit conversion of
  `validate_max.h:7`; its prior, the longer length, always fits.
- AdaptiveOsa.MinEditDistT validates without the 32-bit conversion of
  `validate_max.h:7` and without the narrowing of its prior into `int` at
  `min_edit_dist_t.cpp:141`, which can raise the persisted minimum in the
  same way.
- Postgres.Postgres validates without the 32-bit conversion of
  `validate_max.h:7` and without the narrowing of its prior into `int` at
  `postgres.cpp:68`.
- Buffer overflow: `prealgorithm.h:86` writes m + 1 ints into the 4096-int
  buffer before each UDF compares the rows with the buffer size (for instance
  `bounded_edit_dist.cpp:127`). When the longer trimmed string has 4096
  characters or more, the program writes past the buffer before it answers 0.
  The model answers 0 and does not model the overflow.
- Buffer contents:
  - The work buffer is modelled as sequences.
  - The pointer arithmetic of `postgres` (`source` advanced by one character
    per column) is an offset into the longer string.
  - The contents the buffer holds on entry are a parameter of `postgres`.
- The arrows of `levbanded` and `levbandedopt` are not modelled. Only the
  numeric matrix is; the arrows of `levenshtein_distance` are.
- `tools/Matrix.py`:
  - Its functions take `max_cost` as a natural and the first string as the
    shorter, as the script's own call site notes.
  - The float division in `levbandedopt`'s initial end column is modelled
    as integer division, which is the same for natural operands.
- The library's similarity functions, the SIMD and "simple" variants, and the
  legacy copies at the repository root are not part of this model.
- The unit-test expectations ("testa", "different", 8) and ("test",
  "different", 7) are not proved as concrete facts. Only the transposition
  pair is.
- `postgres` dereferences `args[2]` before `validate_max.h` runs, and so do
  the other bounded UDFs (for instance `min_edit_dist_t.cpp:141-144`). A
  missing bound is modelled as the header's own "missing bound" branch.
- `bounded_edit_dist_t.cpp:150` uses the undeclared name `m_n`. It is
  modelled as m - n, which is what the neighbouring variants compute.
- `validate_max.h:19` takes `std::min(user_max, max)` of the `int` of
  `validate_max.h:7` and a `long long` prior in the two UDFs that declare one:
  `damlevlim.cpp:116`, which includes the header at `damlevlim.cpp:120`, and
  `levlimopt.cpp:145`, which includes it at `levlimopt.cpp:149`.
  `bounded_edit_dist.cpp:113` likewise takes `std::min` of an `int` and the
  `long long` constant `DAMLEV_MAX_EDIT_DIST` of `common.h:54`. `std::min`
  cannot deduce one type argument from an `int` and a `long long`.
  FixedBand.Damlevlim, LevLimOpt.LevLimOpt, LevLimOpt.LevLimOptAsWritten and
  AdaptiveBand.BoundedEditDist model each of these as the plain minimum.
- `levlimopt.cpp:238` writes the sentinel at `buffer[j+1]` with `j <= m`
  always true, one past the row when j = m. That entry is never read, and
  the model drops it.
- The documented promise of the bounded UDFs is the distance or max + 1
  (`bounded_edit_dist.cpp:21` even says the smaller of the distance and the
  bound). The prefix exit at `prealgorithm.h:30-43` and the empty-string exit
  at `prealgorithm.h:63-70` return the distance itself, which may exceed
  max + 1. The code is followed: `Band.Bounded` allows `d` above the bound
  besides `max + 1`.
- LevLimOpt.LevLimOpt is the corrected levlimopt, without the in-row cut at
  `levlimopt.cpp:235-241`.
- AdaptiveOsa.AdaptiveOsaCore states a band exit only as implying that the
  distance exceeds K, not as an if-and-only-if. The narrowing test has a
  slack of one, and `bounded_edit_dist_t` also exits after the last row.
- FixedBand.Damlevmin, AdaptiveOsa.MinEditDistT: when the distance exceeds
  the bound, the persisted minimum is stated as unchanged or lowered to the
  bound, not pinned to either.

## Findings

| source | as written | input that shows it | evidently intended | confidence | as-written member | corrected member |
|---|---|---|---|---|---|---|
| src/levlimopt.cpp:182-202 | column 0 of the row is overwritten with i before the carried diagonal cell is read from it | "a", "b", bound 1 answers 2 | read the diagonal cell before writing column 0; answer 1 | not executed | LevLimOpt.CarriedCellReadLate | LevLimOpt.LevLimOpt |
| src/levlimopt.cpp:235-241 | the row is cut short at the first cell above the bound whose upper neighbour is also above it, although good cells lie further right | "aabbc", "bcccaabb", bound 5 answers 6 | a value at most 5, the distance | not executed | LevLimOptTrace.RowCutShort | LevLimOpt.LevLimOpt |
| src/bounded_edit_dist_t.cpp:202-223 | row i - 2 is read from previous[] entries that the narrowed band stopped refreshing | "cad", "bcda", bound 2 answers 3 | the OSA distance, at most 2 | not executed | AdaptiveOsaTrace.StalePrevious | AdaptiveOsa.BoundedEditDistT |
| tools/Matrix.py:96-131 | the row minimum starts at max(i, m - n), but with m - n > K the band never reaches column m, and one low band cell hides the gap | "a", "aaa", bound 0 leaves the last cell 0 | K + 1 = 1, since the distance 2 exceeds 0 | not executed | MatrixTool.LevBandedMissesLengthGap | MatrixTool.LevBanded |
| src/validate_max.h:7 | the 64-bit bound is truncated to 32 bits before the sign check | bound 2^32 + 1 becomes 1; bound 5 - 2^32 becomes 5 and is accepted | keep large bounds at the prior value and reject negative ones | not executed | ValidateMax.TruncatedBoundShrinks | ValidateMax.ValidateBound |
