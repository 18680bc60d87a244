# Forecast Hub case-forecast evaluation, modelled in Dafny

This project models the core of `cases/evaluate_models_cases.py`. That script
scores the incident-case forecasts of the COVID-19 Forecast Hub models against
reported cases. For a projection date (a Monday) and an evaluation date (a
Saturday), the script does the following:

- picks each model's latest forecast file submitted inside the window that
  ends on the projection date;
- builds the universe of evaluated locations, which is the states or the
  counties, plus the nation "US";
- sums the reported daily cases over the window that starts the day before
  the projection date (the "model ran date");
- normalises each model's forecast into per-location projected totals and
  signed errors, or skips the model;
- merges the Imperial family of models into one combined row;
- checks that the national error agrees with the "US" column;
- filters out models that cover too few locations, and fills the missing
  errors with the mean absolute error of each location;
- reports each model's mean squared error, mean absolute error, mean rank and
  a beat-the-baseline table.

A NaN cell of a pandas table is a missing key of a Dafny `map`. Dates are
proleptic-Gregorian ordinals, as Python's `date.toordinal()` gives them.
Numbers are `real`.

| module (file) | what it holds |
|---|---|
| `Wrappers` (wrappers.dfy) | `Option`, `Result` |
| `Text` (text.dfy) | `startswith`, `str.contains`, `os.path.basename`, `sorted` order on strings |
| `Dates` (dates.dfy) | calendar, ordinals, weekday, `%Y-%m-%d` parsing and formatting |
| `Sums` (sums.dfy) | sums, `mean` with NaN for no values, `groupby(...).sum()` |
| `FileSelector` (file_selector.dfy) | `find_last_projections` and the scan over model directories |
| `Locations` (locations.dfy) | the county-mode and state-mode location universes |
| `Truth` (truth.dfy) | the truth window and the per-location totals |
| `Normalizer` (normalizer.dfy) | `validate_projections` and the per-model loop |
| `Tables` (tables.dfy) | the error table and the national table, and column means |
| `Merger` (merger.dfy) | the Imperial merge and the national/"US" alignment |
| `Scorer` (scorer.dfy) | beat-baseline, coverage filter, imputation, squared and absolute errors, ranks |
| `Evaluation` (evaluation.dfy) | the date checks, and the checks of lines 293 and 326 proved to pass, the latter in exact arithmetic |

The three places where code and prose diverge follow the code:

- The rank exclusion is `startswith('Baseline')`. The `COVIDhub-baseline`
  model is therefore ranked, although the comment above line 435 says the
  baseline is ignored (`Scorer.BaselineModelRanked`).
- The signed error of a model is a pandas Series difference. It aligns on the
  union of the indexes, so a location the model does not project gets a NaN
  error, and every evaluated location becomes a column of the error table.
- `merge_models` is a list of families to merge: `Merger.Families` when the
  flag is on, and the empty list when it is off.

## Model

| member | source | states |
|---|---|---|
| Text.ContainsIffOccurs | cases/evaluate_models_cases.py:231 | the recursive substring test holds exactly when the pattern occurs at some index |
| Text.ContainsOwnPrefix | cases/evaluate_models_cases.py:318 | a name `family + "-combined"` contains the family, so the combined row belongs to its family |
| Text.BasenameIsLastComponent | cases/evaluate_models_cases.py:49 | the base name is the suffix of the path after its last `/` and holds no `/` |
| Text.Prefix | cases/evaluate_models_cases.py:51 | `s[:n]` is a prefix of `s`, of length `min(n, len(s))` |
| Dates.DaysInMonth | cases/evaluate_models_cases.py:27-29 | every month has 28 to 31 days |
| Dates.Weekday | cases/evaluate_models_cases.py:104-105 | `weekday()` lies in 0..6 |
| Dates.OrdinalIncreasing | cases/evaluate_models_cases.py:61-62 | date order is ordinal order, so comparing ordinals compares dates |
| Dates.OrdinalInjective | cases/evaluate_models_cases.py:61-62 | distinct valid dates have distinct ordinals |
| Dates.DigitsRoundTrip | cases/evaluate_models_cases.py:27-29 | reading back a zero-padded number gives the number |
| Dates.DigitsValueRoundTrip | cases/evaluate_models_cases.py:27-29 | re-padding the value of a digit string gives the string |
| Dates.ParseIsoDate | cases/evaluate_models_cases.py:27-29 | a parsed `YYYY-MM-DD` date is a valid calendar date |
| Dates.FormatIsoDate | cases/evaluate_models_cases.py:27-29 | a formatted date has ten characters |
| Dates.ParseFormat | cases/evaluate_models_cases.py:27-29 | parsing a formatted date gives the date back |
| Dates.FormatParse | cases/evaluate_models_cases.py:27-29 | formatting a parsed date gives the text back |
| Sums.SumAppend | cases/evaluate_models_cases.py:281 | a sum over a concatenation is the sum of the sums |
| Sums.Mean | cases/evaluate_models_cases.py:316 | the mean is defined exactly when there is a value |
| Sums.SumConstant | cases/evaluate_models_cases.py:321 | n equal values sum to n times the value |
| Sums.SumShifted | cases/evaluate_models_cases.py:325 | shifting every value by `a` shifts the sum by n·a |
| Sums.MeanConstant | cases/evaluate_models_cases.py:321 | the mean of equal values is that value, so the combined national truth is the truth |
| Sums.MeanShifted | cases/evaluate_models_cases.py:321-325 | the mean of shifted values is the shifted mean |
| Sums.SumBounds | cases/evaluate_models_cases.py:316 | bounds on every value bound the sum by n·lo and n·hi |
| Sums.MeanBounds | cases/evaluate_models_cases.py:316 | the mean lies between the least and greatest bound of the values |
| Sums.SumNonNegative | cases/evaluate_models_cases.py:403 | a sum of non-negative values is non-negative, and zero only when every value is zero |
| Sums.SumLess | cases/evaluate_models_cases.py:438 | values pointwise smaller give a smaller sum |
| Sums.MeanLess | cases/evaluate_models_cases.py:438 | values pointwise smaller give a smaller mean |
| Sums.KeySumAppend | cases/evaluate_models_cases.py:183 | adding one entry adds its amount to its key's sum only |
| Sums.KeySumAbsent | cases/evaluate_models_cases.py:183 | a key without entries sums to zero |
| Sums.GroupSumIsKeySum | cases/evaluate_models_cases.py:183 | `groupby(key).sum()` has one entry per key present, holding the sum of that key's amounts |
| FileSelector.ToleranceSwitchDate | cases/evaluate_models_cases.py:57 | the switch date 2020-07-20 is ordinal 737626 and a Monday |
| FileSelector.FileDatesAt | cases/evaluate_models_cases.py:49-53 | each file's date is read from the first ten characters of its base name, None when they do not form a date |
| FileSelector.AnyQualifiesIff | cases/evaluate_models_cases.py:61 | the recursive test finds a file in the window exactly when some file's date lies in it |
| FileSelector.PickAmong | cases/evaluate_models_cases.py:48-65 | the loop's pick after each step is a file whose date lies in the 3- or 6-day window, or none |
| FileSelector.PickAmongChosen | cases/evaluate_models_cases.py:48-65 | the loop picks nothing only when no file so far is in the window; otherwise it holds the latest date in the window, the earliest file among equal dates |
| FileSelector.ChoiceMeaning | cases/evaluate_models_cases.py:45-65 | the result is none exactly when no file qualifies, and otherwise the file with the latest qualifying date, the first of equal dates |
| FileSelector.FindLastProjections | cases/evaluate_models_cases.py:45-65 | an unsorted list fails the assertion; otherwise the loop returns none exactly when the selection rule chooses nothing, and otherwise the chosen file and its date |
| FileSelector.ChosenUnique | cases/evaluate_models_cases.py:61-64 | at most one file satisfies the choice, so the loop's answer is determined |
| FileSelector.SelectModelFiles | cases/evaluate_models_cases.py:143-159 | a model is kept exactly when `find_last_projections` finds a file for it, paired with that file and its date |
| FileSelector.SelectedModelsQualify | cases/evaluate_models_cases.py:143-159 | so a model is kept exactly when one of its files qualifies, and it is paired with the chosen file |
| Locations.Distinct | cases/evaluate_models_cases.py:120-121 | the dict keys are the codes without repeats, each code kept |
| Locations.DistinctNoLonger | cases/evaluate_models_cases.py:120-121 | removing repeats never lengthens the list |
| Locations.CountyCodes | cases/evaluate_models_cases.py:119-120 | county mode keeps exactly the rows without an abbreviation and the "US" row |
| Locations.Without | cases/evaluate_models_cases.py:121 | removing a code keeps every other code and keeps the list free of repeats |
| Locations.CountyUniverse | cases/evaluate_models_cases.py:119-121 | in county mode every kept code names itself, and all but DC's county 11001 are evaluated once each |
| Locations.StateRows | cases/evaluate_models_cases.py:123 | state mode keeps exactly the rows with an abbreviation |
| Locations.ByAbbreviation | cases/evaluate_models_cases.py:124-125 | the abbreviation maps are keyed by every abbreviation present |
| Locations.NationIsNotATerritory | cases/evaluate_models_cases.py:126 | "US" is not one of the six territories |
| Locations.PadFips | cases/evaluate_models_cases.py:131-133 | a one-character code becomes "0" followed by it; no padded code has one character; longer codes are unchanged |
| Locations.PadFipsCodes | cases/evaluate_models_cases.py:130-133 | the loop pads every value of the map and keeps its keys |
| Locations.EvaluatedCodes | cases/evaluate_models_cases.py:136-137 | the evaluated codes are "US" for the nation and the padded code of every other non-territory region |
| Locations.NonTerritories | cases/evaluate_models_cases.py:136 | the regions to evaluate are exactly the non-territories |
| Locations.EvaluatedCodesCount | cases/evaluate_models_cases.py:136-137 | there is one evaluated code per non-territory region |
| Locations.NamesByCode | cases/evaluate_models_cases.py:135 | the name map is keyed by the padded codes, each mapped to a region's name |
| Locations.RegionsFacts | cases/evaluate_models_cases.py:123-137 | state mode evaluates "US" and the padded code of each non-territory, never a bare digit, and every evaluated code has a name |
| Locations.StateUniverse | cases/evaluate_models_cases.py:123-137 | a missing "US" row fails line 128; a count other than 58 fails line 129; otherwise the universe satisfies those facts |
| Truth.TruthWindow | cases/evaluate_models_cases.py:181 | the window keeps exactly the rows dated from the model ran date to the evaluation date |
| Truth.CaseEntries | cases/evaluate_models_cases.py:183 | the grouped entries are the rows' locations and cases, in order |
| Truth.WindowCasesAgree | cases/evaluate_models_cases.py:181-183 | the grouped sum over the window equals the direct per-location window total |
| Truth.DistinctCardinality | cases/evaluate_models_cases.py:185 | a list without repeats has as many distinct codes as entries |
| Truth.CountTestMeansAllPresent | cases/evaluate_models_cases.py:184-185 | with distinct codes, the length test passes exactly when every evaluated location has a total |
| Truth.TruthTotals | cases/evaluate_models_cases.py:181-186 | an empty window fails line 182; a missing location fails line 185; otherwise one total per evaluated location, that location's window sum |
| Truth.SubsetOfSeqSet | cases/evaluate_models_cases.py:185 | a subset of the codes as large as the list is all of them |
| Normalizer.FirstMissingFrom | cases/evaluate_models_cases.py:79-80 | the reported column is the first required column that is missing |
| Normalizer.ParsedDates | cases/evaluate_models_cases.py:82-83 | each date cell is parsed on its own |
| Normalizer.Assemble | cases/evaluate_models_cases.py:82-83 | the rows convert exactly when every date parses, each row keeping its other cells |
| Normalizer.ConvertRows | cases/evaluate_models_cases.py:82-83 | a bad forecast date is reported before a bad target end date; on success every row is converted |
| Normalizer.Validate | cases/evaluate_models_cases.py:77-83 | fails on the first missing column, else on the first unparsable date column; otherwise converts every row |
| Normalizer.ConvertedDatesAreWritten | cases/evaluate_models_cases.py:82-83 | a converted date is exactly the date written in the file |
| Normalizer.ValidateProjections | cases/evaluate_models_cases.py:77-83 | the column loop and the in-place date conversion compute `Validate` |
| Normalizer.WriteBackDates | cases/evaluate_models_cases.py:82-83 | overwriting the date columns row by row gives the assembled rows or the first failing column |
| Normalizer.FirstMissingUnique | cases/evaluate_models_cases.py:79-80 | the first missing column is unique |
| Normalizer.UpToEvalDate | cases/evaluate_models_cases.py:226 | keeps exactly the rows whose target ends on or before the evaluation date |
| Normalizer.MaxIncCount | cases/evaluate_models_cases.py:245 | the largest number of incident-case rows of a location |
| Normalizer.KeepCount | cases/evaluate_models_cases.py:244-245 | keeps exactly the incident-case rows of the locations with that many rows |
| Normalizer.KeepCountCount | cases/evaluate_models_cases.py:244-245 | after the filter a location keeps all its rows or none |
| Normalizer.HorizonFilterUniform | cases/evaluate_models_cases.py:241-248 | after the horizon filter some incident-case row remains and all locations have equally many: line 248 holds |
| Normalizer.HorizonFilterDrops | cases/evaluate_models_cases.py:243-245 | a location with fewer horizons than the most is dropped entirely |
| Normalizer.SelectRows | cases/evaluate_models_cases.py:259-268 | keeps exactly the incident-case rows of the chosen estimate at evaluated locations |
| Normalizer.ValueEntries | cases/evaluate_models_cases.py:281 | the grouped entries are the rows' locations and values |
| Normalizer.Selection | cases/evaluate_models_cases.py:226-268 | every selected row is in range, incident-case, at an evaluated location, and of the estimate chosen on line 259 |
| Normalizer.Diffs | cases/evaluate_models_cases.py:282 | the error is defined where both totals are, and error plus truth is the projection |
| Normalizer.ScoreRowsFacts | cases/evaluate_models_cases.py:226-287 | a usable model's totals are the per-location sums of its selected rows; its count is the number of those locations, within the name map; errors are totals less truth; the national projection is the "US" total |
| Normalizer.OnlyInvalidFilesFail | cases/evaluate_models_cases.py:207-287 | with a well-formed universe, a model outside the skipped family stops the run exactly when its file fails validation or has no rows (the NaT date arithmetic of lines 221-223) |
| Normalizer.ValidRowsNeverFail | cases/evaluate_models_cases.py:248 | the assertions of lines 248 and 273 never fail on validated rows |
| Normalizer.SelectionFitsNames | cases/evaluate_models_cases.py:271-273 | the selected locations never outnumber the name map |
| Normalizer.ErrorsCoverSelection | cases/evaluate_models_cases.py:278-285 | with truth for every location, the error map has one entry per selected location, `num_locations` of them |
| Normalizer.NormalizeModel | cases/evaluate_models_cases.py:212-287 | one pass skips the Columbia family but `CU-select`, validates, stops on a file without rows, then filters and sums |
| Normalizer.UsablesFacts | cases/evaluate_models_cases.py:278-287 | the recorded models are exactly the usable ones, each with its own projection, and the order lists exactly them |
| Normalizer.UsableOrderIsDistinct | cases/evaluate_models_cases.py:278-292 | the order is the usable names in loop order, each kept at its first occurrence, so no model is listed twice |
| Normalizer.OutcomesAt | cases/evaluate_models_cases.py:207-287 | the loop's outcomes are, position by position, each model's own outcome |
| Normalizer.OutcomeAt | cases/evaluate_models_cases.py:207-287 | the same for one position |
| Normalizer.FirstFailure | cases/evaluate_models_cases.py:207-287 | when the loop stops at a failing model, no model before it failed |
| Normalizer.RecordedOutcomes | cases/evaluate_models_cases.py:207-287 | the same facts stated model by model |
| Normalizer.NormalizeAll | cases/evaluate_models_cases.py:207-287 | the loop stops at the first failing model, naming it; else it records exactly the usable models with their projections, listed once each in loop order |
| Tables.Names | cases/evaluate_models_cases.py:292 | a table's index: one name per row, each row's model name, in row order |
| Tables.ColumnValuesEmpty | cases/evaluate_models_cases.py:316 | a column has values exactly when some row defines it |
| Tables.ColumnValuesWithin | cases/evaluate_models_cases.py:316 | bounds on the defined cells bound the column's values |
| Tables.ColumnMeans | cases/evaluate_models_cases.py:316 | `mean(axis=0)` defines exactly the columns some row defines, each with its column mean |
| Tables.ColumnMeansDefined | cases/evaluate_models_cases.py:316 | a column's mean is defined exactly when some row defines it |
| Tables.ErrorTable | cases/evaluate_models_cases.py:292 | one row per usable model, holding its error map, over the evaluated codes; its index is the usable models in loop order |
| Tables.NationalRow | cases/evaluate_models_cases.py:302-305 | a national row holds the true national total, and the "US" projection where there is one |
| Tables.NationalTable | cases/evaluate_models_cases.py:302-305 | one national row per usable model; its index is the usable models in loop order, the same as the error table's |
| Merger.FilterMembers | cases/evaluate_models_cases.py:311-317 | the mask and its negation split the rows, every row in exactly one part |
| Merger.MergeFamily | cases/evaluate_models_cases.py:311-323 | the loop drops the family's rows and appends their column means as `<family>-combined`, or leaves a table without the family alone |
| Merger.MergeFamilies | cases/evaluate_models_cases.py:307-323 | merges each family in order |
| Merger.MergeWithoutFamily | cases/evaluate_models_cases.py:315 | a table without the family is unchanged |
| Merger.MergeWithFamily | cases/evaluate_models_cases.py:315-318 | the other rows and the columns are kept; the family's only row is the combined row of column means; the row count shrinks by the members less one |
| Merger.FiltersOfOthers | cases/evaluate_models_cases.py:311-317 | rows outside the family are all kept by the negated mask |
| Merger.CombinedWithin | cases/evaluate_models_cases.py:316 | each combined cell lies between the members' smallest and largest value there |
| Merger.AlignedAgree | cases/evaluate_models_cases.py:325-327 | for aligned tables, each national error equals the "US" error, or both are NaN |
| Merger.FiltersAligned | cases/evaluate_models_cases.py:311-322 | the masks keep the error table and the national table row-aligned |
| Merger.NationalValuesShifted | cases/evaluate_models_cases.py:321 | the defined "US" errors are the national projections less the truth, and the truth column is constant |
| Merger.MergePreservesAlignment | cases/evaluate_models_cases.py:315-323 | merging a family in both tables keeps them aligned |
| Merger.MergeAllPreservesAlignment | cases/evaluate_models_cases.py:309-323 | merging every family keeps them aligned |
| Scorer.Beat | cases/evaluate_models_cases.py:379-384 | the beat cell is NaN exactly where the model's error is |
| Scorer.BeatMonotone | cases/evaluate_models_cases.py:379-381 | a smaller error beats the baseline wherever a larger one does |
| Scorer.TieBeatsOnlyBelowTolerance | cases/evaluate_models_cases.py:379-381 | an error as large as the baseline's beats it only below 1e-3 |
| Scorer.BeatExamples | cases/evaluate_models_cases.py:379-384 | concrete cases: 0.0005 beats an exact baseline; 0.002 does not beat a NaN baseline; -3 beats 4; a NaN error gives NaN |
| Scorer.BeatColumn | cases/evaluate_models_cases.py:379-384 | the column is defined at the locations where the model has an error, each cell being the beat test |
| Scorer.BeatBaseline | cases/evaluate_models_cases.py:366-384 | a missing baseline row raises; otherwise every hyphenated model but the baseline gets its beat column |
| Scorer.DropColumn | cases/evaluate_models_cases.py:351 | dropping "US" removes the column and its cells only |
| Scorer.CoveredMembers | cases/evaluate_models_cases.py:353 | a row is kept exactly when it defines more locations than the threshold |
| Scorer.CoverageFilterRows | cases/evaluate_models_cases.py:347-353 | the kept rows are the models that, without "US", define more than 40 states or 2000 counties, and none keeps a "US" cell |
| Scorer.ValidProjectionCounts | cases/evaluate_models_cases.py:355 | one count per kept model, in row order: the locations it defines before imputation, always above the threshold; the `count` column of the summaries at lines 406-407 and 421-422 |
| Scorer.CoveredCounts | cases/evaluate_models_cases.py:353 | every row the filter keeps defines more locations than the threshold |
| Scorer.AbsAll | cases/evaluate_models_cases.py:394 | `abs()` cell by cell |
| Scorer.Filled | cases/evaluate_models_cases.py:394 | `fillna` acts row by row, keeping the columns |
| Scorer.ImputeFails | cases/evaluate_models_cases.py:394-395 | line 395 fails exactly when some model remains and some location has no error in any row |
| Scorer.UnfilledCell | cases/evaluate_models_cases.py:394-395 | a cell left NaN lies in a column no row defines |
| Scorer.ImputeFills | cases/evaluate_models_cases.py:394 | after imputation the table is complete, defined cells are unchanged, and each missing cell is its location's mean absolute error |
| Scorer.ImputeIdempotent | cases/evaluate_models_cases.py:394 | imputing an imputed table changes nothing |
| Scorer.CompleteUnchanged | cases/evaluate_models_cases.py:394 | `fillna` leaves a table without NaN unchanged |
| Scorer.FilledWithin | cases/evaluate_models_cases.py:394 | a filled value lies between 0 and the largest absolute error at its location |
| Scorer.Squares | cases/evaluate_models_cases.py:403 | `**2` cell by cell, in column order |
| Scorer.Magnitudes | cases/evaluate_models_cases.py:418 | `abs()` cell by cell, in column order |
| Scorer.ErrorMeansZero | cases/evaluate_models_cases.py:403-420 | both means are defined and non-negative, and each is zero exactly when the model is exact everywhere |
| Scorer.SquaresSign | cases/evaluate_models_cases.py:403 | squared errors are non-negative, and zero exactly where the error is |
| Scorer.SquareSign | cases/evaluate_models_cases.py:403 | a square is non-negative, and positive off zero |
| Scorer.RankedRowsMembers | cases/evaluate_models_cases.py:435 | exactly the rows whose name does not start with "Baseline" are ranked |
| Scorer.BaselineModelRanked | cases/evaluate_models_cases.py:434-435 | the `COVIDhub-baseline` row is ranked |
| Scorer.CountsBounded | cases/evaluate_models_cases.py:436 | smaller and equal counts fit in the column, and a value present counts itself |
| Scorer.CountsBelow | cases/evaluate_models_cases.py:436 | everything at or below `x` is below a larger `y` |
| Scorer.RankBounds | cases/evaluate_models_cases.py:436 | every average rank lies between 1 and the number of models |
| Scorer.RankOrder | cases/evaluate_models_cases.py:436 | ranks follow the absolute errors: smaller iff smaller, and equal iff equal (ties share the average) |
| Scorer.RankBelow | cases/evaluate_models_cases.py:436 | a strictly smaller error has a strictly smaller rank |
| Scorer.AbsColumn | cases/evaluate_models_cases.py:436 | the ranked column is the absolute errors at one location |
| Scorer.RanksOf | cases/evaluate_models_cases.py:436 | a model's ranks are its column-wise average ranks |
| Scorer.RankableAfterImpute | cases/evaluate_models_cases.py:394-436 | after imputation every ranked model has an error at every location |
| Scorer.MeanRankBounds | cases/evaluate_models_cases.py:438 | a mean rank is defined and lies between 1 and the number of models |
| Scorer.MeanRankDominance | cases/evaluate_models_cases.py:436-438 | a model with smaller absolute error at every location has a smaller mean rank |
| Evaluation.CheckDates | cases/evaluate_models_cases.py:103-111 | the three date assertions fail in order; on success the days ahead separate the dates |
| Evaluation.DaysAheadFromMonday | cases/evaluate_models_cases.py:103-111 | the days ahead are five plus whole weeks |
| Evaluation.UsableRecorded | cases/evaluate_models_cases.py:278-287 | a usable model's projection: errors are totals less truth, national projection is the "US" total, count is the number of totals, all at evaluated locations |
| Evaluation.CollectedRecorded | cases/evaluate_models_cases.py:207-287 | every projection the loop collects has those properties |
| Evaluation.LocationCountsAgree | cases/evaluate_models_cases.py:292-294 | with truth for every location, each row of the error table defines `num_locations` cells, so line 293 holds |
| Evaluation.InitiallyAligned | cases/evaluate_models_cases.py:292-305 | before any merge, each "US" error is the model's national projection less the truth, NaN where it has none |
| Evaluation.NationalCheckPasses | cases/evaluate_models_cases.py:307-327 | after the merges the two tables have the same index, and every national error equals the "US" error or both are NaN: line 326 holds |

## Left out

- Command-line parsing, printing, pandas display settings, directory creation, CSV reading and writing, and copying the truth file are I/O. Files and directory listings enter as parameters: a directory listing is a map from model name to its sorted file names. The `os.path.isdir` tests are not modelled.
- The `describe()` quantile columns, the percentage-error column, `astype(int)`, the one-decimal formatting and the `print_additional_stats` block are presentation only.
- Renaming columns to location names and `sort_index` are left out. Rows stay in loop order, which equals name order because the model directories are listed sorted. Column order is also left out.
- `sort_values` on the summaries, and the reordering of the projections table (lines 358-364), are left out. Each summary is modelled as one value per model.
- `pd.to_datetime` and `strptime` are modelled as strict `YYYY-MM-DD` parsing. The lenient forms they also accept, such as unpadded months, are not modelled.
- Floating point is modelled as exact real arithmetic. Rounding and NaN are left out; NaN is an absent value.
- The `isinstance(x, str)` assertion of line 227 always holds here, because locations are strings by type.
- A run with no usable model at all, where pandas builds empty tables, is not modelled specially.
- `Scorer.BeatBaseline`: the columns are computed per model. The placement of the `error-<model>` columns next to the projections in one wide table is not modelled.
- Evaluation.NationalCheckPasses: proved in exact real arithmetic. In floating point, once a family of two or more models is merged, the combined "US" cell is a mean of differences (line 316) while the national error is a difference of means (lines 321-325); the two can differ by rounding, so the equality test of line 326 can fail in the program.
- Error paths the model does not reproduce: in county mode a locations table without a "US" row makes line 186 raise, while `Truth.TruthTotals` succeeds; `Scorer.DropColumn` succeeds where line 351 would raise because "US" is not a column; `pd.to_datetime` rejects years outside 1677-2262, which `Dates.ParseIsoDate` accepts; an empty date cell becomes NaT in the program and its row is dropped at line 226, while `Normalizer.Validate` rejects the file. Lines 326 and 351 look up the "US" column after the columns are renamed to location names, which works only because the nation's location name is "US"; the model keeps codes as column names.
