# Clinical-trial efficacy pipeline, in Dafny

This project models the efficacy pipeline of `Docker/src/data_processor.py`. The pipeline
takes a table of clinical trials, one row per trial, with a status, a number of patients and
a number of successful outcomes. It does the following, in order:

- upper-cases the column labels of the caller's frame, in place;
- keeps only the trials whose `STATUS` is `"Completed"`;
- assigns five derived columns into the filtered frame:
  - `EFFICACY_RATE`: successes divided by patients;
  - `NORMALIZED_PATIENTS`: the patient count min-max scaled over the kept trials;
  - `CI_LOWER` and `CI_UPPER`: a Beta-Binomial credible interval around the rate;
  - `EFFICACY_CATEGORY`: the High, Moderate or Low label from `classify_drug`.

The model has two layers:

- Table-valued functions (module `Pipeline`) state what a run computes. Lemmas prove what
  that result means:
  - which rows survive;
  - what each derived cell holds;
  - that the count columns and every other column are kept;
  - exactly when a run succeeds, and which error it reports otherwise.
- An imperative layer (module `Processor`) follows the program step by step:
  - a `DataFrame` class whose label list is rewritten in place;
  - a new frame for the filtered rows;
  - one column assignment after another, in source order;
  - loops that compute the rates, the min-max scaling, the intervals and the categories.

  Each method is proved to produce exactly what the functions specify.

The numbers are modelled as follows:

- Float64 results are exact rationals, `Numeric.Value`. A quotient with a zero divisor
  yields `inf`, `-inf` or `nan`, as IEEE 754 division does in pandas.
- `classify_drug` compares these values the way float comparisons do. `nan` fails both
  thresholds, so it is Low. `inf` passes both, so it is High.
- When every kept trial has the same patient count, min-max scaling divides zero by zero and
  gives `nan` on every row.

A missing column raises `KeyError`, and a zero divisor yields `inf`, `-inf` or `nan`. The
model reproduces both and adds no schema check or sentinel value.

Failures of a run are modelled as `Pipeline.Error`:

- `MissingColumn(name)`: the `KeyError` of `df[name]`. It is reported for the first missing
  column in source order: `STATUS` (line 36), then `SUCCESSFUL_OUTCOMES`, then
  `TOTAL_PATIENTS` (line 39).
- `NonNumericCount`: the `TypeError` of `/` when a kept count cell is not an integer.
- `EmptyApply`: the `ValueError` of unpacking `zip(*ci_bounds)` when no trial is completed.
  The row-wise `apply` on an empty frame yields an empty series. By then lines 39 and 42
  have already assigned their columns.

Module layout:

| file | module | contents |
|---|---|---|
| wrappers.dfy | Wrappers | `Option`, `Result` |
| names.dfy | ColumnNames | ASCII `str.upper()` on labels |
| numeric.dfy | Numeric | rational values, float division and comparison |
| efficacy.dfy | Efficacy | `classify_drug` |
| interval.dfy | CredibleInterval | Beta parameters and the interval's quantile queries |
| tables.dfy | Tables | frames as values, `df[name]` lookup and assignment |
| pipeline.dfy | Pipeline | `process_clinical_trials` as a function, and its properties |
| processor.dfy | Processor | the step-by-step method over a mutable `DataFrame` |
| sample.dfy | SampleTrials | the repository's unit-test table run through the model |

## Model

| member | source | states |
|---|---|---|
| ColumnNames.Upper | Docker/src/data_processor.py:33 | the upper-cased label has the same length and maps each character through ASCII upper-casing |
| ColumnNames.UpperAll | Docker/src/data_processor.py:33 | the label list keeps its length and order; each label is replaced by its upper-case form |
| ColumnNames.UpperHasNoLower | Docker/src/data_processor.py:33 | no lower-case letter survives upper-casing |
| ColumnNames.UpperFixesUpperCase | Docker/src/data_processor.py:33 | a label without lower-case letters is unchanged |
| ColumnNames.UpperIdempotent | Docker/src/data_processor.py:33 | upper-casing a label twice equals upper-casing it once |
| ColumnNames.UpperIgnoresCase | Docker/src/data_processor.py:33 | labels that differ only in letter case normalise to the same label |
| ColumnNames.UpperAllIdempotent | Docker/src/data_processor.py:33 | normalising the label list is idempotent |
| Numeric.Divide | Docker/src/data_processor.py:39 | the quotient is finite iff the divisor is non-zero; 0/0 is nan, a positive over 0 is inf, a negative over 0 is -inf |
| Numeric.DivideExact | Docker/src/data_processor.py:39 | with a non-zero divisor the finite quotient times the divisor is the dividend |
| Numeric.RateInUnitInterval | Docker/src/data_processor.py:39 | with 0 <= successes <= total and total > 0 the rate is finite and lies in [0, 1] |
| Numeric.DivideMonotone | Docker/src/data_processor.py:42-43 | dividing by the same positive number keeps the order of the numerators |
| Numeric.AtLeast | Docker/src/data_processor.py:18-20 | the float comparison `v >= c`: false for nan and -inf, true for inf, and on a finite value the comparison of the real it stands for |
| Efficacy.ClassifyDrug | Docker/src/data_processor.py:14-23 | High iff rate >= 0.8; Moderate iff rate >= 0.5 and not >= 0.8; Low iff not >= 0.5, under float comparison |
| Efficacy.ClassifyFinite | Docker/src/data_processor.py:18-23 | on a finite rate: High iff >= 0.8, Moderate iff 0.5 <= rate < 0.8, Low iff < 0.5, so the three labels partition the reals |
| Efficacy.ClassifyBoundaries | Docker/src/data_processor.py:18-21 | 0.8 itself is High, 0.5 itself is Moderate, 0.4999 is Low |
| Efficacy.ClassifyMonotone | Docker/src/data_processor.py:18-23 | a larger finite rate never gets a lower category |
| Efficacy.ClassifyZeroPatients | Docker/src/data_processor.py:18-23 | a trial with no patients is High (inf) when it has successes and Low (nan) otherwise |
| CredibleInterval.BetaParams | Docker/src/data_processor.py:10 | alpha is successes + 1, alpha + beta is total + 2, and both are >= 1 when 0 <= successes <= total |
| CredibleInterval.TailProbabilities | Docker/src/data_processor.py:11 | the two probabilities sum to 1 and differ by the confidence; they lie strictly inside (0, 1) for a confidence in (0, 1) |
| CredibleInterval.ConfidenceInterval | Docker/src/data_processor.py:5-12 | the interval from the quantile at the two tails; with a confidence in (0, 1) and a monotone quantile, lower <= upper |
| CredibleInterval.IntervalOrdered | Docker/src/data_processor.py:5-12 | the bounds are the quantiles at (1 - c)/2 and (1 + c)/2 of Beta(successes + 1, total - successes + 1); with a monotone quantile, lower <= upper |
| CredibleInterval.DefaultTails | Docker/src/data_processor.py:5 | at the default confidence 0.95 the quantiles read are at 0.025 and 0.975 |
| Tables.IndexOf | Docker/src/data_processor.py:36 | the lookup finds a column iff the name is present; it returns the first position holding the name |
| Tables.IndexOfAppend | Docker/src/data_processor.py:39 | appending a column does not move any existing name |
| Tables.Get | Docker/src/data_processor.py:36-46 | `df[name]` at a row finds a cell iff the name is a column, and the cell is one of that row's |
| Tables.SetColumn | Docker/src/data_processor.py:39 | an assignment keeps the row count; it keeps the labels when the name exists and appends the name otherwise |
| Tables.SetColumnGet | Docker/src/data_processor.py:39 | after `df[name] = values` the column reads back as the values; every other name reads as before |
| Tables.SetColumnKeeps | Docker/src/data_processor.py:39 | an assignment keeps the existing labels in front and every cell of another column |
| Tables.SetColumnUnchanged | Docker/src/data_processor.py:39 | assigning a column its own values changes nothing |
| Tables.AssignAll | Docker/src/data_processor.py:39-50 | a run of assignments keeps the frame well-formed and its row count |
| Tables.AssignFive | Docker/src/data_processor.py:39-50 | a run of five assignments is the five single assignments in order |
| Tables.AssignAllGet | Docker/src/data_processor.py:39-50 | after assignments to distinct names each assigned column reads as its values; unassigned names read as before |
| Tables.AssignAllKeeps | Docker/src/data_processor.py:39-50 | assignments keep the old labels in front, append only assigned names, and keep every unassigned cell |
| Pipeline.IsCompleted | Docker/src/data_processor.py:36 | the mask `df["STATUS"] == "Completed"` on one row: its status cell is the text "Completed" |
| Pipeline.Completed | Docker/src/data_processor.py:36 | the filter keeps at most the input rows; every kept row is an input row with status "Completed" |
| Pipeline.KeptIndices | Docker/src/data_processor.py:36 | the kept positions increase strictly; a position is kept iff its row's status is "Completed" |
| Pipeline.CompletedExactly | Docker/src/data_processor.py:36 | the filtered rows are exactly the rows at the kept positions, in input order |
| Pipeline.CompletedNonEmpty | Docker/src/data_processor.py:36 | the filter keeps some row iff some input row is completed |
| Pipeline.Filtered | Docker/src/data_processor.py:33-36 | the filtered frame (upper-cased labels, completed rows) has one cell per label in every row |
| Pipeline.FilteredNonEmpty | Docker/src/data_processor.py:36 | the filtered frame has rows iff some input row is completed |
| Pipeline.Counts | Docker/src/data_processor.py:39 | counts exist only for a present column and have one entry per row; `CountsCells` gives them exactly |
| Pipeline.Ints | Docker/src/data_processor.py:39 | a column's integers exist iff every cell is an integer; they are then those integers in order |
| Pipeline.CountsCells | Docker/src/data_processor.py:39 | the counts of a present column exist iff every cell is an integer; they are then the cells' integers, row by row |
| Pipeline.CountsOf | Docker/src/data_processor.py:39 | a column whose cells are the integers of a list has that list as its counts |
| Pipeline.CountsGet | Docker/src/data_processor.py:39 | each count is the integer in that row's cell |
| Pipeline.CountsAgree | Docker/src/data_processor.py:39 | frames that agree cell by cell on a column have the same counts there |
| Pipeline.CompletedInts | Docker/src/data_processor.py:36-39 | every kept row holds an integer in a column iff every completed input row does |
| Pipeline.KeptCounts | Docker/src/data_processor.py:36-39 | the counts of the kept rows exist iff every completed row holds an integer there |
| Pipeline.FilteredCounts | Docker/src/data_processor.py:36-39 | the filtered frame's counts exist iff every completed input row holds an integer in that column |
| Pipeline.MinMaxExist | Docker/src/data_processor.py:42-43 | a non-empty column has a `.min()` and a `.max()` |
| Pipeline.MinUnique | Docker/src/data_processor.py:42-43 | the minimum is unique |
| Pipeline.MaxUnique | Docker/src/data_processor.py:42-43 | the maximum is unique |
| Pipeline.SeqMin | Docker/src/data_processor.py:42-43 | the result is a member of the column that no member is below |
| Pipeline.SeqMax | Docker/src/data_processor.py:42-43 | the result is a member of the column that no member is above |
| Pipeline.Scale | Docker/src/data_processor.py:42-43 | each count is shifted by the minimum and divided by the range, row by row |
| Pipeline.Normalize | Docker/src/data_processor.py:42-43 | the scaled column has one value per count |
| Pipeline.NormalizeInUnitInterval | Docker/src/data_processor.py:42-43 | with max > min every scaled value is finite and in [0, 1]; the minimum maps to 0 and the maximum to 1 |
| Pipeline.NormalizeMonotone | Docker/src/data_processor.py:42-43 | with max > min scaling keeps the order of the counts |
| Pipeline.NormalizeDegenerate | Docker/src/data_processor.py:42-43 | with max == min every row gets nan |
| Pipeline.Rates | Docker/src/data_processor.py:39 | one rate per row, finite exactly where the row has a non-zero patient count |
| Pipeline.Intervals | Docker/src/data_processor.py:46 | one interval per row, every pair ordered when the quantile is monotone |
| Pipeline.Categories | Docker/src/data_processor.py:50 | one label per rate, always High, Moderate or Low |
| Pipeline.Enrich | Docker/src/data_processor.py:39-50 | the five assignments keep the frame's row count and shape |
| Pipeline.EnrichSteps | Docker/src/data_processor.py:39-50 | the derivation is the assignments of lines 39, 42, 47 (twice) and 50, in that order |
| Pipeline.DerivedDistinct | Docker/src/data_processor.py:39-50 | the five derived names are distinct |
| Pipeline.InputsNotDerived | Docker/src/data_processor.py:36-50 | the status and count columns are never overwritten by a derived column |
| Pipeline.EnrichGet | Docker/src/data_processor.py:39-50 | each row's rate, scaled count, interval bounds and category are computed from that row's own counts |
| Pipeline.EnrichOther | Docker/src/data_processor.py:39-50 | every non-derived column reads as before the assignments |
| Pipeline.EnrichKeeps | Docker/src/data_processor.py:39-50 | the original labels stay in front, only derived labels are appended, and non-derived cells are untouched |
| Pipeline.EnrichCounts | Docker/src/data_processor.py:39-50 | the count columns survive the assignments unchanged |
| Pipeline.EnrichRows | Docker/src/data_processor.py:39-50 | in the enriched frame each row keeps its counts and carries their rate, category, interval and scaled count |
| Pipeline.EnrichKeepsRows | Docker/src/data_processor.py:36-50 | the output has one row per completed input row, in input order, with the original fields unchanged and status "Completed" |
| Pipeline.ProcessFiltered | Docker/src/data_processor.py:39-50 | lines 39-50 on the filtered frame: a success keeps its row count and has rows; a reported missing column is absent from the frame |
| Pipeline.Process | Docker/src/data_processor.py:25-52 | the whole run: a success is well-formed with between 1 and the input's number of rows; a reported missing column is absent after upper-casing |
| Pipeline.ProcessSuccess | Docker/src/data_processor.py:25-52 | a successful run had all three columns, integer counts and some completed row; its result is the five assignments on the filtered frame |
| Pipeline.ProcessKeepsRows | Docker/src/data_processor.py:36-50 | a successful run has one row per completed input row, in input order; it keeps the upper-cased labels in front and the original fields unchanged |
| Pipeline.ProcessRowValues | Docker/src/data_processor.py:39-50 | in a successful run every row's rate is its successes over its patients; its category is `classify_drug` of that rate; its interval and scaled count come from its own counts |
| Pipeline.ProcessMissingColumn | Docker/src/data_processor.py:36-39 | a missing STATUS, then SUCCESSFUL_OUTCOMES, then TOTAL_PATIENTS fails with a KeyError naming it |
| Pipeline.ProcessFilteredOutcome | Docker/src/data_processor.py:39-47 | lines 39-50 succeed iff the frame has rows and integer counts; no rows gives the unpacking error; non-integer counts give the division error |
| Pipeline.ProcessOutcome | Docker/src/data_processor.py:36-47 | with the three columns present, a run succeeds iff some row is completed and every completed row has integer counts; otherwise it reports which error |
| Processor.DataFrame.constructor | Docker/src/data_processor.py:36 | the new frame holds the given labels and rows |
| Processor.DataFrame.UpperColumns | Docker/src/data_processor.py:33 | the frame's labels become their upper-case forms in place and its rows are untouched |
| Processor.DataFrame.Assign | Docker/src/data_processor.py:39-50 | the in-place `df[name] = values` leaves the frame equal to the assignment on its old value |
| Processor.SelectCompleted | Docker/src/data_processor.py:36 | the loop keeps exactly the rows the filter keeps |
| Processor.ReadCounts | Docker/src/data_processor.py:39 | the loop reads the column's counts, or finds a non-integer cell or a missing column |
| Processor.ComputeRates | Docker/src/data_processor.py:39 | the loop computes the element-wise quotient |
| Processor.MinMaxNormalize | Docker/src/data_processor.py:42-43 | one pass finds the column's minimum and maximum, a second scales; the result is the min-max scaling |
| Processor.ComputeIntervals | Docker/src/data_processor.py:46 | the loop computes each row's credible interval |
| Processor.ClassifyAll | Docker/src/data_processor.py:50 | the loop labels every rate with `classify_drug` |
| Processor.AddDerivedColumns | Docker/src/data_processor.py:39-50 | the five assignments in source order; they fail iff the frame has no rows, in which case the rate and scaled-count columns are already assigned; otherwise the frame equals the derivation |
| Processor.ProcessFilteredFrame | Docker/src/data_processor.py:39-52 | the filtered frame ends up holding the derivation of its old contents, or the run reports the same error as the derivation |
| Processor.ProcessClinicalTrials | Docker/src/data_processor.py:25-52 | the caller's frame gets upper-case labels and keeps its rows; the run returns a new frame with the specified result, or the specified error |
| SampleTrials.SampleWellFormed | Docker/tests/test_data_processor.py:7-20 | the test's table has one cell per column in every row |
| SampleTrials.KeptWellFormed | Docker/tests/test_data_processor.py:16-24 | the two completed trials form a well-formed two-row frame |
| SampleTrials.UpperTrialId | Docker/tests/test_data_processor.py:8 | `trial_id` upper-cases to `TRIAL_ID` |
| SampleTrials.UpperDrugName | Docker/tests/test_data_processor.py:9 | `drug_name` upper-cases to `DRUG_NAME` |
| SampleTrials.UpperPhase | Docker/tests/test_data_processor.py:15 | `phase` upper-cases to `PHASE` |
| SampleTrials.UpperStatus | Docker/tests/test_data_processor.py:16 | `status` upper-cases to `STATUS` |
| SampleTrials.UpperTotalPatients | Docker/tests/test_data_processor.py:17 | `total_patients` upper-cases to `TOTAL_PATIENTS` |
| SampleTrials.UpperSuccessfulOutcomes | Docker/tests/test_data_processor.py:18 | `successful_outcomes` upper-cases to `SUCCESSFUL_OUTCOMES` |
| SampleTrials.SampleColumns | Docker/tests/test_data_processor.py:7-20 | the test's lower-case labels normalise to the labels the pipeline reads |
| SampleTrials.SampleCompleted | Docker/tests/test_data_processor.py:16-24 | of the four trials only 101 and 103 are completed, in that order |
| SampleTrials.SampleFiltered | Docker/tests/test_data_processor.py:16-24 | the filtered frame is trials 101 and 103 under the upper-case labels |
| SampleTrials.CountColumns | Docker/tests/test_data_processor.py:17-18 | the count columns sit at positions 4 and 5 of the test's labels |
| SampleTrials.TwoCounts | Docker/tests/test_data_processor.py:17-18 | a two-row integer column has those two integers as counts |
| SampleTrials.SampleSuccesses | Docker/tests/test_data_processor.py:18 | the kept trials had 85 and 90 successes |
| SampleTrials.SampleTotals | Docker/tests/test_data_processor.py:17 | the kept trials had 100 and 120 patients |
| SampleTrials.SampleNormalize | Docker/tests/test_data_processor.py:17 | patients 100 and 120 scale to 0 and 1 |
| SampleTrials.SampleRun | Docker/tests/test_data_processor.py:20-22 | the run on the test's table succeeds with the five assignments on trials 101 and 103 |
| SampleTrials.SampleRates | Docker/tests/test_data_processor.py:26 | the rates are 0.85 (High) and 0.75 (Moderate) |
| SampleTrials.SampleShape | Docker/tests/test_data_processor.py:24-25 | the output has two rows and an EFFICACY_RATE column |
| SampleTrials.SampleFirstRow | Docker/tests/test_data_processor.py:26 | the first output row has rate 0.85, category High and scaled count 0 |
| SampleTrials.SampleSecondRow | Docker/tests/test_data_processor.py:16-18 | the second output row has rate 0.75, category Moderate and scaled count 1 |

## Left out

- `beta.ppf` (line 11), SciPy's inverse incomplete-Beta function, is a parameter of type `Quantile`. Only its arguments are modelled: the Beta parameters and the two tail probabilities. The interval bounds are whatever the given function returns.
- Float rounding is not modelled. Values are exact rationals, so 0.85 and 90/120 are exact, and the test's `assertAlmostEqual` becomes an equality.
- The 64-bit integer width of pandas count columns is not modelled: counts are unbounded integers.
- Count columns of float dtype are not modelled. Such columns appear, for example, when a CSV has missing counts. Pandas would divide them; the model reports any non-integer count cell as `NonNumericCount`.
- Numeric.Divide: every integer cell gets int64 true-division semantics (`inf`/`-inf`/`nan` for a zero divisor), whatever else its column holds. A count column that also holds text in a row the filter drops keeps pandas' object dtype, and there Python's `int / 0` raises `ZeroDivisionError` at line 39 and for `max == min` at lines 42-43. The model does not report that error.
- `str.upper()` is modelled on ASCII letters only. Other characters are kept as they are, so Unicode case mapping is not captured.
- Duplicate column labels after upper-casing are not modelled faithfully. Pandas would select several columns; the model reads the first label with the name.
- Pandas copy/view semantics are not modelled. The filtered frame is a new `DataFrame` object. The warning pandas may print when assigning into a filtered slice is not modelled.
- `Pipeline.Normalize` reads the patient counts once for both lines 39 and 42. This is sound because the column at line 42 is unchanged since line 39.
- Line 46 never passes `confidence`, so the pipeline model always uses 0.95. `CredibleInterval.ConfidenceInterval` takes the argument for the general statement.
- `Docker/src/app.py` is not part of this model. It covers CSV reading and writing, logging, and turning exceptions into an exit status.
- The scripts under `Python/` are not part of this model. They are plotting, statistics demos, package installation and a workflow, with no reusable logic.
