# Gym dashboard analytics, modelled in Dafny

This project models the analytics core of a Streamlit gym-training dashboard and proves properties of that model. The dashboard reads an exported workout log with one row per set: date, time, routine, exercise, set number, weight, repetitions, duration and distance. On that log it computes:

- **Per-set metrics** (`data.py`): volume is weight × repetitions. The estimated one-repetition maximum uses Epley's formula. A trailing moving average serves as the trend line.
- **Exercise classification and display aliases** (`mappings.py`): an ordered first-match keyword classifier maps an exercise name to one of ten muscle groups, or to `Outros`. A short alias of a name drops its parenthesised parts, keeps two or three words and truncates with `…`.
- **Forecast and plateau test** (`forecasting.py`):
  - The forecast takes the weekly maxima of the estimated 1RM. It applies history gates, then an ARIMA forecast or a least-squares line with a band of one population standard deviation.
  - The plateau test compares the relative least-squares slope of the last points with a threshold.
- **Alerts and summaries** (`metrics.py`): the plateau and volume-drop alerts, the headline counts of a filtered table, and per-(exercise, muscle group) statistics.
- **Selection rules** (`app.py`):
  - the date/routine filter;
  - the sorted exercise option list, with its search and first-letter filters;
  - the stored selection, which must stay among the options;
  - the comparison list;
  - the two top-12 shortcut lists.

The modules follow the program:

- `Mappings` (mappings.py), `Data` (data.py), `Forecasting` (forecasting.py), `Metrics` (metrics.py), `App` (app.py).
- Below them sit three libraries of the Python and pandas primitives the code relies on:
  - `Text`: `strip`, `lower`, `split`, `" ".join`, substring `in`, slicing and string order;
  - `Collections`: comprehension filters, `unique`, `sorted`, `head`, `value_counts` counting;
  - `Series`: `dropna`, `sum`/`mean`/`max`, `groupby('Date')`, `resample('W')`, `np.polyfit` of degree 1, `np.std`.
- `Wrappers` holds `Option`, which stands for the cells pandas leaves missing.

How the model represents things:

- A table is a sequence of `WorkoutSet` records. A date is a day number counted from 1970-01-01. Week `w` runs Monday to Sunday and is labelled by its Sunday, day `7w + 3`, as `resample('W')` labels it.
- Numbers are exact reals.
- The in-place column updates (`calculate_volume` and the three derived columns) are methods on an array of rows.
- `generate_alerts` is a method that appends to its result, as the source does.
- The session state is a class whose field is the stored selection.
- Everything else is functions and lemmas, because the source computes it as expressions.

Two things are inputs because exact reals cannot compute them:

- the ARIMA library's outcome: a forecast with its interval, or a failure;
- the square root under `np.std`.

Where the code and its written description differ, the model follows the code:

- The volume-drop rule is not a separate function; it is inlined in `generate_alerts`.
- The rule's "four non-missing weeks" gate counts `volw.dropna()`, but the means are taken over `volw` itself. The model keeps both, and proves that a weekly sum is never missing, so the two agree.

## Model

| member | source | states |
|---|---|---|
| Mappings.ClassifierTotal | mappings.py:6-26 | a missing (non-string) name is `Outros`; every name gets one of the ten rule labels or `Outros` |
| Mappings.Classify | mappings.py:23-26 | the group returned is `Outros` or the label of one of the rules |
| Mappings.ClassifyFirstMatch | mappings.py:23-25 | when rule i matches and no earlier rule does, the result is rule i's label |
| Mappings.ClassifyNoMatch | mappings.py:26 | when no rule matches, the result is `Outros` |
| Mappings.ClassifyIsFirstMatch | mappings.py:23-26 | conversely, the result is either `Outros` with no rule matching, or the label of a matching rule with no matching rule before it |
| Mappings.CaseAndSpaceInsensitive | mappings.py:10 | a name classifies exactly like its stripped, lower-cased form |
| Mappings.PeitoFirst | mappings.py:12-25 | a name containing a Peito keyword is `Peito` whatever else it contains (so "Remada Supino" is `Peito`) |
| Mappings.RowerIsNotCardio | mappings.py:13-25 | a name containing "rower" is never `Cardio`: the Costas keyword "row" comes first, so it is `Costas` unless a Peito keyword occurs |
| Mappings.IndexOf | mappings.py:45 | the first position of a character, or none exactly when the character does not occur |
| Mappings.RemoveParensSubsequence | mappings.py:45 | removing `\s*(...)` segments only deletes characters and keeps the rest in order |
| Mappings.RemoveParensClosesNothing | mappings.py:45 | afterwards no `(` has a `)` after it: every segment that closes is gone |
| Mappings.RemoveParensOfSpace | mappings.py:45 | a run of whitespace is left as it is |
| Mappings.RemoveParensNoParen | mappings.py:45 | a string without `(` is left unchanged |
| Mappings.RemoveParensKeepsPrefix | mappings.py:45 | leading text without `(` that does not end in whitespace survives whole, and the substitution acts only on what follows |
| Mappings.TrailingNoteRemoved | mappings.py:45 | words followed by ` (note)` lose exactly the note and the space before it |
| Mappings.ParenSegmentRemoved | mappings.py:45 | whitespace, `(`, text without `)`, `)` is deleted whole and scanning resumes after it |
| Mappings.SelectWordsRule | mappings.py:46-48 | the first two words, space-joined, when their lengths plus one reach 6 (one word alone of length ≥ 6); else the first three words when there are three; else the stripped string unchanged |
| Mappings.SelectWordsSplit | mappings.py:46-48 | splitting the selection gives exactly the first two, the first three, or all the words, by that rule |
| Mappings.SelectWordsSpec | mappings.py:46-48 | the words kept are a prefix of the words of the name: two, or three, or all of them when there are at most two |
| Mappings.TruncateBound | mappings.py:49-50 | for `max_len >= 1` the label is at most `max_len` long |
| Mappings.TruncateSpec | mappings.py:49-51 | a label within `max_len` is unchanged; a longer one is `s[:max_len-1]` with only its trailing whitespace removed (what is dropped is all whitespace, what is kept does not end in whitespace), followed by `…` |
| Mappings.AliasNameBound | mappings.py:39-51 | a missing or empty name has the empty alias; for `max_len >= 1` every alias is at most `max_len` long |
| Mappings.AliasNameWords | mappings.py:43-48 | an alias that needs no truncation splits into exactly the first two, the first three, or all the words of the name without its parenthesised parts, by the selection rule |
| Mappings.TwoWordsSelected | mappings.py:46-48 | two words that make at least six characters together are kept whole |
| Mappings.AliasOfTwoWordsWithNote | mappings.py:39-52 | two words followed by a parenthesised note give the two words as the alias, when together they make six characters and fit in `max_len` |
| Mappings.AliasOfRoscaDireta | mappings.py:39-52 | the alias of "Rosca Direta (barra)" under the default `max_len = 16` is "Rosca Direta" |
| Mappings.AliasOfParenthesisedName | mappings.py:41-51 | a name that is only a parenthesised segment, padded with whitespace, has the empty alias |
| Text.StripLower | mappings.py:10 | `strip()` and `lower()` commute |
| Text.SplitJoin | mappings.py:46-48 | splitting the space-join of words gives the words back |
| Data.Volume | data.py:37-40 | the volume is present exactly when weight and repetitions both are |
| Data.EstimateOneRepMax | data.py:42-46 | the estimate is missing exactly when weight or repetitions are missing or repetitions are 0 |
| Data.CalculateVolume | data.py:37-40 | every row gets Volume = Weight × Reps; its other columns, and the order of the rows, are unchanged |
| Data.VolumeExamples | app.py:263-267 | 80 × 12 = 960, 100 × 15 = 1500, 15 × 10 = 150 |
| Data.EpleyExample | data.py:46 | 80 kg for 12 repetitions estimates 112 kg |
| Data.EpleyAtLeastWeight | data.py:46 | for weight >= 0 and repetitions > 0 the estimate is at least the weight |
| Data.EpleyIncreasing | data.py:46 | for a positive weight the estimate strictly increases with the repetitions |
| Data.WindowStart | data.py:48-50 | the window of row i ends at row i and holds `periods` rows, or starts at row 0 when there are fewer |
| Data.Trend | data.py:48-50 | the trend has as many values as its input |
| Data.TrendPrefixSums | data.py:48-50 | row i of the trend times its window size is the difference of the prefix sums at i + 1 and at the window start `max(0, i-periods+1)` |
| Data.TrendFirst | data.py:50 | the first trend value is the first input |
| Data.TrendBounds | data.py:50 | every trend value lies between any bounds of the values of its window |
| Data.TrendConstant | data.py:50 | a constant series has the same constant trend |
| Series.DropMissingIsFilter | forecasting.py:6 | `dropna()` is the order-keeping filter on a present value |
| Series.DropMissingSpec | forecasting.py:6 | `dropna()` keeps the present points in order, each as often as it occurs and no missing one, so its length is the number of present values |
| Series.MaxPresentSpec | metrics.py:42 | pandas `max()` is missing exactly when no value is present, else it is the largest present value |
| Series.GroupByDaySpec | metrics.py:12 | `groupby('Date')` lists every day of the table once, in increasing order, with its values reduced |
| Series.ResampleWeeklySpec | forecasting.py:10 | `resample('W')` lists every week from the first point's to the last point's, in order, each with its values reduced |
| Series.LeastSquaresMinimal | forecasting.py:25-26 | the fitted line has the least squared error of all lines |
| Series.NormalEquationsUnique | forecasting.py:25 | any line whose residuals satisfy the normal equations is the fitted line |
| Series.LeastSquaresOfLine | forecasting.py:25 | values exactly on a line are fitted by that line |
| Series.PopulationVarianceNonNegative | forecasting.py:31-32 | the population variance is non-negative, and 0 for a constant series |
| Series.MeanBounds | data.py:50 | a mean lies within any bounds of its values |
| Series.WeekContainsDay | forecasting.py:10 | a day lies in the Monday-to-Sunday week ending on its week's label |
| Series.SumOfPresent | metrics.py:19 | a sum reduction is never missing |
| Series.ResampleWeeklyHasWeek | forecasting.py:10 | every week that holds a point has its reduced entry in the resampled series, at its offset from the first week |
| Series.ResampleWeeklyLast | forecasting.py:10 | the last resampled entry is the week of the latest point, and that week holds a point |
| Forecasting.WeeklyMaxSpec | forecasting.py:10 | the weekly maxima are in increasing week order; each is the largest value of its week; exactly the weeks that hold a value are listed; the last one is the week of the last day |
| Forecasting.ForecastNone | forecasting.py:6-12 | no forecast exactly when fewer than 5 values are present or fewer than 5 weeks hold one |
| Forecasting.ForecastRowsAndDates | forecasting.py:18-29 | a forecast has `periods_weeks` rows, on consecutive Sundays starting one week after the last observed week, all after the last observation |
| Forecasting.ForecastFromArima | forecasting.py:16-20 | when ARIMA returns `periods_weeks` values of each kind, the rows carry them |
| Forecasting.ForecastIsFallback | forecasting.py:21-33 | when ARIMA fails or returns the wrong length, the forecast is the linear fallback over the (all present) weekly maxima |
| Forecasting.LinearFallback | forecasting.py:23-32 | the fallback has `periods_weeks` rows |
| Forecasting.FallbackIsLeastSquaresLine | forecasting.py:23-28 | fallback forecast k is `a*(n+k) + b` for the line (a, b) whose squared error is least over all lines |
| Forecasting.FallbackBand | forecasting.py:31-32 | Upper − Forecast = Forecast − Lower = `sqrt` of the population variance of the weekly maxima, whatever the horizon; so Lower ≤ Forecast ≤ Upper for a non-negative `sqrt` |
| Forecasting.FallbackContinuesLine | forecasting.py:25-28 | on weekly maxima lying exactly on a line, the fallback continues that line |
| Forecasting.ByDay | forecasting.py:37 | `sort_index()` gives a permutation in nondecreasing day order |
| Forecasting.Tail | forecasting.py:40 | `iloc[-k:]` is a suffix of the series of length k, and for k = 0 the whole series |
| Forecasting.PlateauNeedsHistory | forecasting.py:38-39 | fewer than `max(5, lookback_points)` values is never a plateau |
| Forecasting.PlateauUsesTail | forecasting.py:40-49 | two series with the same last `lookback_points` values get the same answer |
| Forecasting.PlateauOfLine | forecasting.py:40-49 | on a tail lying on a line of slope a, the answer is `abs(a / mean) < thresh` for a positive mean and `abs(a) < thresh` otherwise, strictly |
| Forecasting.FlatIsPlateau | forecasting.py:45-49 | a flat tail is a plateau exactly when the threshold is positive |
| Metrics.GenerateAlerts | metrics.py:4-26 | the appended list is exactly `Alerts`: the plateau message when its rule fires, then the volume message when its rule fires |
| Metrics.CheckPlateau | metrics.py:11-15 | true exactly when the plateau rule fires: some day holds a row and the weekly maxima of the daily maxima test as a plateau |
| Metrics.CheckVolumeDrop | metrics.py:18-23 | true exactly when the volume rule fires on the weekly volume |
| Metrics.AppendAlerts | metrics.py:6-24 | starting from an empty list, the plateau message and then the volume message are appended, each exactly when its rule fired |
| Metrics.AlertsSpec | metrics.py:6-26 | at most two alerts; each message is present exactly when its rule fires; with two, the plateau message comes first |
| Metrics.NoAlertsForEmptyTable | metrics.py:12-24 | an empty table raises no alert |
| Metrics.PlateauAlertNeedsEightWeeks | metrics.py:12-16 | with fewer than eight weeks holding a 1RM estimate there is no plateau alert |
| Metrics.MeanSkipNa | metrics.py:21-22 | pandas `mean()` is missing exactly when no value is present |
| Metrics.WeeklyVolumeComplete | metrics.py:19-20 | the weekly volume has a value for every week of the span, so `dropna()` removes nothing; it is empty exactly for an empty table |
| Metrics.WeeklyVolumeEmptyWeek | metrics.py:19 | a week of the span without a training day has volume 0, not a gap |
| Metrics.VolumeAlertNeedsFourWeeks | metrics.py:20 | training days spanning fewer than four weeks never raise the volume alert |
| Metrics.VolumeDropOfPresent | metrics.py:20-24 | on four weeks or more, the rule fires exactly when prev = mean of weeks −4, −3 is positive and recent = mean of weeks −2, −1 is below 0.8 × prev |
| Metrics.VolumeDropRatio | metrics.py:23 | with recent = c × prev and prev > 0 the rule fires exactly when c < 0.8 |
| Metrics.VolumeDropAtThreshold | metrics.py:23-24 | a drop to 79% fires, a drop to exactly 80% does not |
| Metrics.VolumeDropOfLevels | metrics.py:20-24 | two weeks at a positive level p followed by two weeks at r fire the rule exactly when r < 0.8 × p |
| Metrics.NoDropFromNothing | metrics.py:22-23 | when the two earlier weeks hold no positive volume the rule never fires |
| Metrics.BasicMetricsCounts | metrics.py:30-33 | `dias_treino` and `exercicios_diferentes` are the sizes of the sets of dates and names, at most `series_total`, which is the row count; no days exactly for no rows |
| Metrics.MeanVolumeBounds | metrics.py:34 | `volume_medio` is 0 when every volume is missing (or there are no rows), and otherwise lies within any bounds of the present volumes |
| Metrics.StatKeys | metrics.py:39 | the group keys are the distinct (Exercise, MuscleGroup) pairs, sorted by name then group |
| Metrics.StatKeysSpec | metrics.py:39 | each pair of the table is a key exactly once, and only those pairs |
| Metrics.PairOrderTotal | metrics.py:39 | the key order is a total preorder |
| Metrics.CalculateExerciseStats | metrics.py:37-43 | one statistics row per key |
| Metrics.ExerciseStatsKeys | metrics.py:39-43 | every row's pair has a statistics row and every statistics row is such a pair, each once, in strictly increasing key order |
| Metrics.GroupRowsSpec | metrics.py:39 | a key's group is not empty and holds exactly the rows with that key |
| Metrics.ExerciseStatSpec | metrics.py:39-43 | `Sessoes` is the number of distinct dates of the group, between 1 and its row count; `Volume` is the sum of its present volumes; `OneRM` is missing exactly when no estimate is present, else it is the largest one |
| App.DeriveColumns | app.py:278-280 | every row gets Volume, Estimated_1RM and MuscleGroup from its own cells, the rest unchanged |
| App.GlobalFilterSpec | app.py:296-298 | the filter keeps, in order, exactly the rows with start ≤ Date ≤ end and, unless `Todas`, of the chosen routine |
| App.SortedNames | app.py:424 | `sorted(unique())` is a sorted permutation of the distinct names |
| App.StrOrderTotal | app.py:424 | Python's string order is a total preorder |
| App.ExerciseOptionsSpec | app.py:421-424 | the options are sorted without repeats, and a name is an option exactly when some row of the chosen group (`Todos`: any) has it |
| App.GroupBaseSpec | app.py:423 | the base rows are exactly the rows of the chosen group, or all rows for `Todos` |
| App.SearchFilterSpec | app.py:426-427 | a blank query keeps the list; otherwise the names kept, in order, are those that contain the unstripped query, ignoring case |
| App.SearchIgnoresCase | app.py:426-427 | a query and its lower-cased form filter alike |
| App.StarterFilterSpec | app.py:429-433 | `#` keeps the names with a non-letter first character, a letter the names whose first character upper-cases to it, `Todos` all; empty names never pass; order is kept |
| App.FilteredOptionsSorted | app.py:423-433 | the list shown is a subsequence of the sorted options, so it is sorted and has no repeats |
| App.ComparisonOptionsSpec | app.py:448 | the comparison list is the option list without the selected name, in the same order |
| App.ResetValue | app.py:440-441 | after the reset the stored name is absent or an option, and an option that was stored stays |
| App.Session.SetPrimary | app.py:387 | a shortcut button stores its exercise |
| App.Session.ResetPrimary | app.py:440-441 | the reset deletes a stored name that is not an option and nothing else |
| App.Session.ChoosePrimary | app.py:444 | the keyed radio shows the stored name if it is an option, else the first option, and stores what it shows |
| App.TopShortcutsSpec | app.py:370-376 | exactly min(12, number of rows) shortcuts, drawn from the statistics rows, sorted by the chosen column descending with missing values last; no row left out ranks above a row shown |
| App.GroupPanelSpec | app.py:399-400 | exactly min(12, number of distinct names) names of the group, each once, by descending row count; no name left out has more rows than a name shown |
| Collections.Sort | app.py:424 | a sorted permutation of its input |
| Collections.DistinctSpec | metrics.py:31-32 | `unique()` lists every value exactly once |
| Collections.DistinctCardinality | metrics.py:31-32 | `nunique()` is the number of distinct values |
| Collections.FilterSpec | app.py:296-298 | a comprehension filter is a subsequence holding exactly the elements that pass |
| Collections.FilterMultiplicity | app.py:296-298 | a comprehension filter keeps every passing element as often as it occurs, and no failing one |
| Collections.HeadIsTop | app.py:376 | the first n of a sorted list come before every element left out |

## Left out

- Streamlit UI is not modelled: pages, widgets, tabs, metrics, buttons, widget keys and the rendering of alerts. The alert block in `app.py` repeats `generate_alerts` and is covered by `Metrics.GenerateAlerts`.
- Plotting (`charts.py`, the plotly figures in `app.py`) and file loading (`load_data`: reading the CSV, parsing dates, caching) are not modelled. The parsed table is the model's input.
- The ARIMA branch is not modelled. The library's outcome is an input, either a forecast with its interval or a failure. Only its effect on the table (dates and copied columns, or the fallback when it fails or returns the wrong length) is modelled.
- Floating point is not modelled. Every quantity is an exact real, so rounding and the conditioning of `np.polyfit` are out.
- `np.std` takes its square root from an input function `sqrt`, because exact reals have no computable square root. `Forecasting.FallbackBand` states the band in terms of that `sqrt` of the exact variance.
- Forecasting.Slope: a one-point tail (`lookback_points == 1`) is a deliberate divergence. `np.polyfit` on a single point is not modelled, and the model gives that fit slope 0. So `Forecasting.PlateauOfLine` asks for slope 0 when `lookback_points == 1`, and `Forecasting.FlatIsPlateau` holds in the model for that case too. The program's callers always pass `lookback_points = 8`.
- Data.Trend requires `periods >= 1`. pandas rejects `rolling(window=0, min_periods=1)`, and that error is not modelled.
- Negative `periods_weeks` and `lookback_points` are left out; both are natural numbers in the model. Python's negative-slice behaviour for them is not captured.
- Forecasting.DetectPlateau: ties on equal days in `sort_index()` are ordered by insertion sort, which is stable. Pandas' own order for equal index values is not captured. The weekly series the alert passes in has no such ties.
- App.TopShortcuts: `sort_values` on pandas' default quicksort is not stable, so the order of rows with equal keys is unspecified. The model uses one particular order (stable insertion sort). The proved properties hold for any order of ties.
- App.GroupPanelNames: the same holds for rows with equal counts in `value_counts()`.
- Unicode is covered only in part:
  - `lower()`, `upper()` and `isalpha()` cover ASCII and Latin-1;
  - whitespace follows `str.isspace`;
  - multi-character case mappings (such as `ß` → `SS`) are not modelled.
- A missing (NaN) exercise name or muscle group is not modelled: every row has a name and a group string. A missing routine is modelled, and never equals the chosen routine.
- `get_group_icon_path`, `get_exercise_icon_path`, `get_group_emoji` and `get_exercise_emoji` are not modelled. They are filesystem and presentation lookups.
- Data.Trend is modelled on fully present inputs, so NaN handling inside `rolling().mean()` is not captured.
- The date pickers' bounds (the minimum and maximum date of the table) are not modelled. The filter's dates are inputs.
- The derived `DateTime` column is not modelled, since no modelled operation reads it.
