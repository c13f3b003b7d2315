# Antenna traffic forecasting: a Dafny model of the data preparation and evaluation

The repository forecasts the weekly traffic (in Mbit/s) of mobile-network antenna sectors. A
pretrained time-series model does the forecasting. This project models, and proves properties of,
everything around that call, across the three scripts.

- `forecast_traffic.py` does the following:
  - reads the operator's `histo_trafic.csv` export;
  - finds the header line behind a free-text preamble;
  - turns French verbose dates ("lundi 18 juin 2018") into ISO dates;
  - drops repeated headers and rows with unusable values, then sorts by (sector, date);
  - regularises every sector's history onto a 7-day grid: duplicate dates keep their first row,
    sectors with fewer than ten dates are skipped, and gaps are filled by linear interpolation,
    then forward fill, then backward fill;
  - holds out the last grid point of each sector as ground truth;
  - pairs the forecaster's one-step forecasts with those held-out values.
- `explore_data.py` loads the same export with its own variant of the date parser and filters.
- `visualize_results.py`:
  - loads the raw history with a third variant of the loader;
  - computes each result's error column and the mean squared error;
  - picks the four sectors with the largest actual traffic to plot.

Modules:

| module | file | what it holds |
|---|---|---|
| `Wrappers` | wrappers.dfy | `Option`, `Result` |
| `Text` | text.dfy | Python's `str.split`, `lower`, `strip`, `zfill`, `in` and string ordering |
| `Calendar` | calendar.dfy | proleptic Gregorian day numbers; `pd.to_datetime` on `YYYY-MM-DD` within the nanosecond `Timestamp` range |
| `FrenchDate` | french_date.dfy | `parse_french_date`: the `None` variant and the echo variant |
| `Header` | header.dfy | the header-line scan |
| `Frame` | frame.dfy | the table `read_csv` returns; `dropna(axis=1, how='all')`; stripped column names; column lookup with `KeyError`; row filters as `Choose` |
| `Sorting` | sorting.dfy | a stable sort by a key order (`sort_values`) |
| `Cleaning` | cleaning.dfy | the per-row steps the loaders chain (the header-row filter, date column, `dropna`, `to_numeric`) |
| `Resample` | regularize.dfy | the per-sector dedup, minimum-size rule, `asfreq('7D')` and gap filling |
| `ForecastTraffic` | forecast_traffic.dfy | `load_data` and `main` of forecast_traffic.py |
| `ExploreData` | explore_data.dfy | `load_data` of explore_data.py |
| `VisualizeResults` | visualize_results.dfy | `load_raw_data`, the error column, the MSE and the sample-sector choice |

Each loader is written as a method that reassigns its table step by step, as the script does.
Every step is a per-row filter or map (`Frame.Choose`). The method is proved equal to a
specification function. Lemmas then collapse the chain of steps into one per-row function,
whose contract says exactly which rows survive and with what values.

Representation:
- The file is given as its lines (for the header scan) and as a function `readCsv` from the
  number of skipped lines to the table `read_csv` yields.
- A cell is `None` where pandas holds NaN.
- Number parsing (`pd.to_numeric`) is a parameter `num: string -> Option<real>`.
- The forecaster is a parameter `predict` from the context rows to the forecast rows.
- Dates are day numbers, with day 0 = 1970-01-01. Traffic is an exact `real`.

Behaviours of the scripts that the model keeps as the code has them:
- Duplicate dates within a sector keep the *first* row (`drop_duplicates` defaults to
  `keep='first'`). They do not keep the last one.
- The `asfreq('7D')` grid starts at the earliest date and ends at the last 7-day step that is
  not after the latest date. It does not end at the latest date itself, so observations off the
  grid, including possibly the latest one, are discarded.
- `pd.concat` of an empty context list raises, so a run in which no sector has ten dates fails.
  So does a run in which no forecast matches a ground-truth sector, since the empty
  `results_df` has no `actual` column.
- `dropna(axis=1, how='all')` on a table with no data rows drops every column, so the first
  column access raises `KeyError`.

## Model

| member | source | states |
|---|---|---|
| Text.Split | forecast_traffic.py:10 | `str.split()` yields non-empty words that contain no whitespace |
| Text.SplitExists | forecast_traffic.py:10 | the input is the words of `split()` interleaved with whitespace runs, the inner runs non-empty: nothing but whitespace is dropped, and words keep their order |
| Text.SplitUnique | forecast_traffic.py:10 | any such decomposition of the input into whitespace runs and words is the one `split()` finds |
| Text.SplitEmptyIff | forecast_traffic.py:10 | `split()` yields no word exactly when the input is all whitespace |
| Text.SplitJoinWords | forecast_traffic.py:10 | splitting words joined by single spaces gives back the same words |
| Text.Lower | forecast_traffic.py:13 | `lower()` keeps the length, maps every character through the Latin-1 lower-case table, and leaves no upper-case letter |
| Text.LowerIdempotent | forecast_traffic.py:13 | lower-casing twice is lower-casing once |
| Text.ContainsIff | forecast_traffic.py:29 | the substring test holds exactly when the pattern occurs at some position |
| Text.Strip | forecast_traffic.py:34 | `strip()` leaves no whitespace at either end, and the result is the input with only whitespace removed at both ends |
| Text.StripIdempotent | forecast_traffic.py:34 | stripping a stripped name changes nothing |
| Text.ZFill | forecast_traffic.py:21 | `zfill(width)`: a string at least `width` long is unchanged; otherwise zeros are inserted in front, or after a leading sign, up to the width |
| Text.ZFillKeepsValue | forecast_traffic.py:21 | zero-padding a digit string keeps its numeric value |
| Text.StrLtTransitive | forecast_traffic.py:41 | the string order used for sorting sectors is transitive |
| Text.StrLtTotal | forecast_traffic.py:41 | any two distinct sector names are ordered one way or the other |
| Calendar.TimestampBounds | forecast_traffic.py:37 | day 0 is 1970-01-01; the dates `to_datetime` accepts run from 1677-09-22 to 2262-04-11, and the days just outside are rejected |
| Calendar.NextDateIsNextDay | forecast_traffic.py:37 | the calendar's next date is a valid date whose day number is one more |
| Calendar.ParseIsoDate | forecast_traffic.py:37 | a parsed date lies within the nanosecond `Timestamp` range |
| Calendar.ParseFormatIsoDate | forecast_traffic.py:37 | a valid in-range date written as `YYYY-MM-DD` parses back to its day number |
| Calendar.ParsedIsFormatted | forecast_traffic.py:37 | every string that parses is exactly `YYYY-MM-DD` for a valid date, and parses to that date's day number |
| FrenchDate.MonthTableInOrder | forecast_traffic.py:15-20 | the twelve French month names map to "01".."12" in calendar order |
| FrenchDate.UnknownMonthIsJanuary | forecast_traffic.py:20 | a token that is not one of the twelve names maps to "01" |
| FrenchDate.MonthNumberIsMonth | forecast_traffic.py:15-20 | the month field is always two digits with a value from 1 to 12 |
| FrenchDate.MonthNamesAreLowerCase | forecast_traffic.py:13-19 | the table's keys are already lower case, so a lower-cased token can match each of them |
| FrenchDate.ShortTextHasNoDate | forecast_traffic.py:10-22 | the parser returns `None` exactly when the text has fewer than four words |
| FrenchDate.ParseFrenchDateWords | forecast_traffic.py:10-21 | with four or more words the result is `parts[3] + "-" + month(lower(parts[2])) + "-" + zfill(parts[1], 2)`; the weekday and the words after the fourth do not matter |
| FrenchDate.FrenchDateRoundTrip | forecast_traffic.py:9-21 | any weekday, a day number, a month name and a 4-digit year, written as the export writes them, parse to that date's ISO form |
| FrenchDate.EchoVariantAgrees | explore_data.py:4-22 | the explore_data.py variant returns the same date as the other variant, and the input itself where that variant returns `None` |
| FrenchDate.JuneExample | explore_data.py:5-21 | "lundi 18 juin 2018" becomes "2018-06-18" |
| Header.HasMarkersIgnoresCase | forecast_traffic.py:29 | the marker test is insensitive to case |
| Header.HeaderFromSpec | forecast_traffic.py:28-31 | the scan from line i stops at the first line holding both markers, and falls back to 0 when none does |
| Header.HeaderIndexSpec | forecast_traffic.py:27-31 | the header index is the first line containing both "secteur" and "tstamp" in any case, or 0 when no line does |
| Header.FindHeader | forecast_traffic.py:27-31 | the loop with early exit returns the header index: the first line with both markers, no earlier line with both, or 0 |
| Frame.DropEmptyColumns | forecast_traffic.py:33 | the result is the projection on the columns that hold a value, in their original order: each kept column carries its name and, row by row, its cells; every kept column holds a value, every column that holds a value is kept; with no rows, no column survives |
| Frame.StripColumnNames | forecast_traffic.py:34 | the rows are unchanged and every column name is its old name stripped, with no whitespace at either end |
| Frame.ColumnIndex | forecast_traffic.py:35 | `df['name']` finds the first column of that name, and fails exactly when there is none |
| Frame.Resolve | forecast_traffic.py:35-41 | the columns a loader touches resolve exactly when all exist; otherwise the error is `KeyError` naming the first missing one |
| Sorting.SortBy | forecast_traffic.py:41 | sorting is a permutation of the rows |
| Sorting.SortBySorted | forecast_traffic.py:41 | the result is sorted by the key order, and is a permutation |
| Sorting.SortByStable | forecast_traffic.py:41 | rows with equal keys keep their relative order |
| Cleaning.FrenchCellDay | forecast_traffic.py:36-37 | a cell's date, when it has one, is a valid Timestamp day; a cell of fewer than four words has none |
| Cleaning.SectorDateKeyOrder | forecast_traffic.py:41 | ordering by (sector, date) is a total preorder whose ties are rows with the same sector and date |
| ForecastTraffic.LoadRow | forecast_traffic.py:35-40 | a row is kept if and only if its sector is present and not the header text, its date parses as a French date and its traffic value is numeric; those become its fields |
| ForecastTraffic.LoadRowWith | forecast_traffic.py:35-40 | the same if-and-only-if for any date parser: a row is kept exactly when its sector is present and not the header text, the parser accepts its date and its traffic value is numeric |
| ForecastTraffic.LoadStepsAreLoadRow | forecast_traffic.py:35-40 | the chain of header filter, date column, `dropna`, `to_numeric`, `dropna` over the table equals one pass of the per-row function |
| ForecastTraffic.LoadData | forecast_traffic.py:24-42 | the step-by-step loader returns the loaded table the specification function defines |
| ForecastTraffic.LoadedSpec | forecast_traffic.py:32-41 | loading succeeds exactly when "secteur", "tstamp" and "trafic_mbps" all survive the clean-up; otherwise `KeyError` names the first missing one; a file with no data rows fails on "secteur"; the result is sorted by (sector, date) with no header row and in-range dates |
| ForecastTraffic.LoadedRows | forecast_traffic.py:35-41 | the sorted rows are ordered by (sector, date) and none has sector "secteur" or an out-of-range date |
| ForecastTraffic.LoadDataContents | forecast_traffic.py:38-41 | the loaded table holds exactly the images of the rows the per-row function keeps, as a permutation that keeps equal-key rows in file order |
| ForecastTraffic.UniqueSectors | forecast_traffic.py:49 | `unique()` lists every sector of the table exactly once |
| ForecastTraffic.ContextSplit | forecast_traffic.py:69-70 | the context is the grid minus its last point; it is non-empty, starts on the grid start, steps 7 days, carries the sector; the held-out value is the last point |
| ForecastTraffic.TruthOverSpec | forecast_traffic.py:53-70 | the ground-truth map holds exactly the processed sectors that were kept, each mapped to its last grid value |
| ForecastTraffic.GroundTruthAt | forecast_traffic.py:56-70 | a sector has a ground truth exactly when it occurs and has at least ten distinct dates; the value is the last point of its regular series, which completes its context |
| ForecastTraffic.SectorStep | forecast_traffic.py:57-70 | a sector with fewer than ten distinct dates adds nothing; otherwise it adds the context of its series and the series' last value |
| ForecastTraffic.PrepareSectors | forecast_traffic.py:56-70 | the loop over the sectors builds exactly the context list and ground-truth map of the sectors it has visited |
| ForecastTraffic.PrepareContexts | forecast_traffic.py:49-70 | the loop over `unique()` sectors returns the context list and ground-truth map the specification functions define |
| ForecastTraffic.SectorContextSpec | forecast_traffic.py:64-70 | a sector that yields a context yields a non-empty one, all of its own rows, and also a ground truth |
| ForecastTraffic.ContextsSpec | forecast_traffic.py:52-70 | every frame in the context list is non-empty and belongs to one sector that has a ground truth |
| ForecastTraffic.SectorKeptIff | forecast_traffic.py:57-59 | a sector of the table gets a ground truth exactly when it has ten distinct dates after dedup; then its context is in the list, otherwise no context row carries it |
| ForecastTraffic.Concat | forecast_traffic.py:72 | the concatenated frame holds exactly the rows of the listed frames |
| ForecastTraffic.ConcatBlocks | forecast_traffic.py:72 | the concatenation is the frames in list order, each one a contiguous block at its offset, so order and multiplicity of rows are kept |
| ForecastTraffic.Align | forecast_traffic.py:92-100 | the loop over the forecast rows returns the rows the pairing step keeps, in forecast order |
| ForecastTraffic.AlignSpec | forecast_traffic.py:93-100 | a result exists exactly for each forecast row whose sector has a ground truth, with `actual` the ground truth; when every sector has one, results and forecasts match one to one in order; no result exactly when no sector matches |
| ForecastTraffic.RunForecast | forecast_traffic.py:47-102 | the whole run returns the results the specification function defines, including its failures |
| ForecastTraffic.NoContextIff | forecast_traffic.py:56-72 | the context list is empty, and `pd.concat` fails, exactly when every sector has fewer than ten distinct dates |
| ForecastTraffic.ForecastSpec | forecast_traffic.py:82-102 | every result pairs a sector's ground truth with a forecast the forecaster produced for that sector from the context frame |
| ForecastTraffic.SquaredErrorSumZero | forecast_traffic.py:105 | the squared-error sum is zero exactly when every forecast equals its actual value |
| ForecastTraffic.MeanSquaredError | forecast_traffic.py:105 | the mean squared error is non-negative, and zero exactly when every forecast is exact |
| Resample.KeepFirstSpec | forecast_traffic.py:57 | dedup leaves distinct dates, loses no date, and keeps for each date its first row |
| Resample.DistinctDatesSpan | forecast_traffic.py:58-62 | n distinct dates span at least n - 1 days, so ten dates give a grid of at least two points |
| Resample.GridLength | forecast_traffic.py:62 | the grid runs from the first date in 7-day steps to the last step not after the latest date |
| Resample.Lookup | forecast_traffic.py:62 | a grid point takes the traffic of a row on that date, and is NaN exactly when no row has that date |
| Resample.Reindex | forecast_traffic.py:62 | `asfreq` gives one value per grid date, looked up among the rows |
| Resample.Interpolate | forecast_traffic.py:66 | `interpolate()` computes every point by the per-point rule |
| Resample.ForwardFill | forecast_traffic.py:66 | `ffill()` keeps values and fills a NaN with the last earlier value, if any |
| Resample.BackwardFill | forecast_traffic.py:66 | `bfill()` keeps values and fills a NaN with the next later value, if any |
| Resample.FillGapsSpec | forecast_traffic.py:66 | the three fills never change an observed value and leave no NaN when at least one value exists |
| Resample.InterpolateBetween | forecast_traffic.py:66 | a gap point inside the series lies between its two neighbouring observations |
| Resample.InterpolateLinear | forecast_traffic.py:66 | inside a gap consecutive points differ by the same step (b - a) / (q - p) |
| Resample.InterpolateTrailing | forecast_traffic.py:66 | points after the last observation repeat it |
| Resample.Regularize | forecast_traffic.py:57-66 | a sector is skipped exactly when it has fewer than ten distinct dates; a kept sector's series has at least two points |
| Resample.RegularizeGrid | forecast_traffic.py:57-66 | the series starts on the earliest date, ends at the last 7-day step not after the latest date, and every grid date with an observation keeps the first row's traffic for that date |
| ExploreData.CellDay | explore_data.py:43-47 | a timestamp cell's date, when it has one, is in the Timestamp range |
| ExploreData.CellDayAgainstFrench | explore_data.py:43-47 | with four or more words the date is the French parse; with fewer it is the ISO parse of the text itself, where the other loaders find no date |
| ExploreData.MissingTimestampHasNoDate | explore_data.py:43-47 | a NaN timestamp yields no date |
| ExploreData.IsoTimestampOnlyHere | explore_data.py:43-47 | an ISO timestamp is accepted by this loader but not by the other two |
| ExploreData.ExploreRow | explore_data.py:40-51 | a row is kept exactly when its sector is not "secteur", its timestamp is present and dates, and its traffic is numeric; those become its fields |
| ExploreData.ExploreStepsAreExploreRow | explore_data.py:40-51 | the chain of filters and column assignments equals one pass of the per-row function |
| ExploreData.LoadData | explore_data.py:24-53 | the step-by-step loader returns the table the specification function defines |
| ExploreData.ExploredSpec | explore_data.py:35-40 | loading succeeds exactly when the three columns survive the clean-up; otherwise `KeyError` names the first missing one; a file with no data rows fails on "secteur" |
| ExploreData.ExploredRows | explore_data.py:40-51 | the output holds exactly the images of the rows the per-row function keeps, none with sector "secteur" and all dates in range |
| ExploreData.ForecastRowsExplored | explore_data.py:40-51 | every row forecast_traffic.py keeps is kept here with the same sector, date and traffic |
| VisualizeResults.RawRow | visualize_results.py:28-30 | a row is kept exactly when its French date parses, its traffic is numeric and its sector is present; those become its fields |
| VisualizeResults.RawStepsAreRawRow | visualize_results.py:28-30 | the chain of column assignments and `dropna` equals one pass of the per-row function |
| VisualizeResults.LoadRawData | visualize_results.py:17-31 | the step-by-step loader returns the table the specification function defines |
| VisualizeResults.RawLoadedSpec | visualize_results.py:25-30 | loading succeeds exactly when "tstamp", "trafic_mbps" and "secteur" survive; otherwise `KeyError` names the first missing one; a file with no data rows fails on "tstamp" |
| VisualizeResults.RawLoadedRows | visualize_results.py:28-30 | the output holds exactly the images of the rows the per-row function keeps, all dates in range |
| VisualizeResults.RepeatedHeaderDropped | visualize_results.py:28-30 | a repeated header row, whose tstamp cell is "tstamp", is dropped though no filter names it |
| VisualizeResults.RawRowAgainstForecast | visualize_results.py:28-30 | apart from rows whose sector is "secteur", which forecast_traffic.py drops, this loader keeps the same rows as forecast_traffic.py with the same values |
| VisualizeResults.ErrorColumn | visualize_results.py:37 | one scored row per result with the same fields and `predicted + error == actual` |
| VisualizeResults.ErrorColumnSquares | visualize_results.py:36-37 | the squares of the error column sum to the squared error behind `mean_squared_error` |
| VisualizeResults.ResultsError | visualize_results.py:36-37 | the MSE fails exactly on an empty result file; otherwise it is non-negative and zero exactly when every error is zero |
| VisualizeResults.ActualGeKeyOrder | visualize_results.py:66 | "actual, descending" is a total preorder |
| VisualizeResults.SampleSectors | visualize_results.py:66 | the sample sectors are the sectors of the top rows, in order |
| VisualizeResults.PrefixDominates | visualize_results.py:66 | in a list sorted by descending actual, every row of a prefix has an actual at least that of every later row |
| VisualizeResults.TopRowsSpec | visualize_results.py:66 | the top rows number min(4, n); they are drawn from the results, are sorted by descending actual, and each has an actual no smaller than any row left out |
| VisualizeResults.FirstSampleIsLargest | visualize_results.py:66 | with any results, the first sample sector is that of a row with the largest actual traffic |

## Left out

- File I/O: `open`/`readlines` with Latin-1 decoding, `read_csv` with `;` as separator, and `to_csv`. The lines and the table `read_csv` would return are inputs.
- `pd.to_numeric` float parsing. It is the parameter `num`.
- The forecasting model: `Chronos2Pipeline` loading and `predict_df` (forecast_traffic.py:75-89). It is the parameter `predict`. The model does not follow the forecaster's own column layout (`reset_index`, the `'0.5'` column); a forecast row is a (sector, median) pair.
- The square root of the RMSE and floating-point rounding in general. Errors, interpolation and the MSE use exact `real` arithmetic.
- ExploreData.CellDay: `pd.to_datetime` on a string that is not `YYYY-MM-DD` is modelled as no date. explore_data.py echoes short timestamps to pandas, which may infer other formats; only the ISO shape is modelled.
- Calendar.ParseIsoDate: models `to_datetime` on the ten-character `YYYY-MM-DD` shape only. That is what the French parser produces whenever its day token is one or two digits and its year token is four.
- Text.Lower: characters above U+00FF are left unchanged rather than case-folded. The file is read as Latin-1, so the scripts never see them.
- Header: the marker test lower-cases whole lines. The file's line endings are not modelled.
- Duplicate column names after `read_csv`: the model resolves the first column of a name.
- VisualizeResults.TopRows: `sort_values('actual', ascending=False)` uses an unstable quicksort, so rows with equal actual traffic may come out in any order. The model sorts stably, and its contract states only what holds for every tie order.
- ForecastTraffic.UniqueSectors: does not state that `unique()` lists sectors in order of first appearance. Only the membership and distinctness are stated; the context list follows that order.
- `sector_df['secteur'] = sector`, `index.name` and `reset_index` (forecast_traffic.py:63-64, 69) only relabel columns. The context row carries the sector and date directly.
- Printing and plotting: the console output of all three scripts, the exploratory statistics (explore_data.py:55-76), and the dashboard (visualize_results.py:40-93). The dashboard includes the per-sector `tail(20)` history, the `values[0]` lookups and the subplot layout.
- The `read_csv('prediction_results.csv')` of visualize_results.py:35 is not modelled as a file read. The results are passed in as the rows forecast_traffic.py produces.
- `ResultsError` gives the `ValueError` of `mean_squared_error` on empty input a fixed message. The exact text of scikit-learn's message is not reproduced.
