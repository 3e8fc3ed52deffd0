# Workflow dashboard pipeline, modelled in Dafny

This project models the data pipeline behind a Streamlit dashboard of
workflow tasks (`app.py`). The rows of the task table flow through these stages:

1. **Enrichment.** A missing `Approval_Level` is filled with "Not Required". `Employee_ID_Number` is the first run of digits in `Assigned_Employee`. `Duration_Difference` is actual minus estimated duration. `Delay_Flag` is "Delayed" or "On-Time".
2. **Filtering.** The rows are filtered by the three sidebar multiselects: department, priority and delay status.
3. **Indicators.** The filtered rows give the row count, the mean actual duration, the total cost and the delay percentage.
4. **Daily delay trend.** For each start date, the number of rows carrying each delay flag.
5. **Top-ten workload ranking.** The ten employees with the largest summed actual duration.
6. **Insight rules.** An ordered list of up to four recommendations.

Each stage is a pure function over `seq<EnrichedTask>`:

- pandas' `groupby` becomes a key-ascending sequence of `Group(key, total, count)`;
- `idxmax` becomes the first position holding the largest value;
- `sort_values(ascending=False).head(10)` becomes a selection of the ten largest totals.

Modules:

| module | file | what |
|---|---|---|
| `Wrappers` | wrappers.dfy | `Option`, `Result` |
| `Strings` | strings.dfy | ASCII digits; Python's code-point string order `Less` and its order laws |
| `Records` | records.dfy | `Task`, `EnrichedTask`, `DelayFlag`, abstract timestamps |
| `EmployeeId` | employee_id.dfy | `re.findall(r'\d+', x)[0]`, as a reference function and as a scanning method |
| `Enrichment` | enrichment.dfy | the four column fills and derivations |
| `Filtering` | filtering.dfy | the `isin` mask and the sidebar defaults |
| `Grouping` | grouping.dfy | sorted group-by with counts and sums |
| `Kpis` | kpis.dfy | the four indicators |
| `DailyTrend` | daily_trend.dfy | `groupby(date)["Delay_Flag"].value_counts().unstack().fillna(0)` |
| `Ranking` | ranking.dfy | `idxmax` and top-n by total |
| `Workload` | workload.dfy | the top-ten workload table |
| `Insights` | insights.dfy | `generate_insights` |
| `Dashboard` | dashboard.dfy | the whole flow from loaded rows to what the page shows |

Missing numbers are `None`:

- A missing duration makes the difference `None`, so the flag is On-Time, as NaN compares false in the source.
- Group sums skip missing durations, as pandas does, so an employee whose durations are all missing has workload 0.
- Ratios are exact (`real`) or compared by cross-multiplication. Rule 1's `delay_rate > 0.3` is `10 * delayed > 3 * rows`.

On an empty filtered table, `generate_insights` raises: `idxmax` of an empty group-by fails. The model follows the code, so `GenerateInsights` returns `Failure(EmptyArgMax)` exactly when there are no rows. It does not skip the two arg-max rules.

## Model

| member | source | states |
|---|---|---|
| EmployeeId.DigitRuns | app.py:36-38 | the runs `re.findall(r'\d+')` returns are non-empty and all digits |
| EmployeeId.IdIsFirstRun | app.py:36-38 | the employee id is None exactly when the name has no digit; otherwise it is a non-empty digit run that starts after a digit-free prefix and is maximal (followed by the end or a non-digit) |
| EmployeeId.FirstRunIsId | app.py:36-38 | for any name `p + d + q` with `p` digit-free, `d` a non-empty digit run and `q` not starting with a digit, the id is `d`, whatever digits `q` holds later |
| EmployeeId.ScanEmployeeId | app.py:36-38 | a left-to-right scan (skip non-digits, then take digits) returns exactly the first digit run, or None |
| Enrichment.EnrichTask | app.py:33-42 | approval is filled with "Not Required" only when missing and every other input field is unchanged; the id is the first digit run; the difference exists iff both durations do and equals actual minus estimated; the flag is Delayed iff both exist and actual exceeds estimated |
| Enrichment.Enrich | app.py:33-42 | enrichment keeps the row count and order, enriching row i from input row i |
| Enrichment.DelayedIffPositiveDifference | app.py:41-42 | every row of the enriched table is Delayed iff its difference is present and positive; a zero or missing difference gives On-Time |
| Enrichment.EnrichedIsWellFormed | app.py:41-42 | every enriched row's flag agrees with its difference |
| Enrichment.EnrichAppend | app.py:33-42 | enrichment is row-wise: enriching a concatenation is concatenating the enrichments |
| Filtering.Filter | app.py:67-71 | the kept rows are no more than the input, and a row is kept iff it is in the input and passes all three membership tests |
| Filtering.SelectedIndicesSpec | app.py:67-71 | the mask's positions are in range, strictly increasing, and a position is chosen iff its row passes the mask |
| Filtering.FilterAtSelectedIndices | app.py:67-71 | the k-th kept row is the input row at the k-th chosen position |
| Filtering.FilterIsSelectedSubsequence | app.py:67-71 | the filtered table is exactly the in-order subsequence of passing rows |
| Filtering.FilterKeepsAll | app.py:67-71 | when every row passes, the table is returned unchanged |
| Filtering.DefaultSelection | app.py:49-65 | the sidebar defaults (every value that occurs) admit every row |
| Filtering.DefaultSelectionKeepsAll | app.py:49-71 | with the default selections the filter returns the enriched table unchanged |
| Filtering.EmptyChoiceKeepsNone | app.py:67-71 | an empty selection in any of the three dimensions keeps no row |
| Filtering.FilterIdempotent | app.py:67-71 | filtering twice with the same selection equals filtering once |
| Grouping.CountWhereSpec | app.py:128 | a key has a positive row count iff some row carries it |
| Grouping.GroupByFind | app.py:128 | the group-by holds a group for a key iff some row has that key, with that key's row count and measure sum |
| Grouping.GroupBySpec | app.py:128 | group keys ascend strictly; every group is non-empty and aggregates exactly its key's rows; every row's key has a group; there are groups iff there are rows |
| Grouping.GroupPosition | app.py:128 | a key that occurs in the rows sits at some position of the group-by, with its count and sum |
| Grouping.GroupsPartitionRows | app.py:128 | the groups' totals add up to the sum over all rows and their counts to the number of rows |
| Grouping.InsertFind | app.py:128 | adding a row to the groups changes only its key's group, by one row and its value |
| Kpis.DelayedCountSpec | app.py:85-86 | the delayed count is at most the row count; it is 0 iff all rows are On-Time and equals the row count iff all are Delayed |
| Kpis.DelayPercent | app.py:85-86 | the delay percentage lies in [0, 100]; it is 0 on no rows; it is 0 iff every row is On-Time, and 100 iff there are rows and every one is Delayed |
| Kpis.TotalCostIsSumOfDepartments | app.py:83-84 | the total cost equals the sum of the per-department cost totals |
| Kpis.TotalCostAppend | app.py:83-84 | the total cost of two tables together is the sum of their totals |
| Kpis.MeanActualDuration | app.py:81-82 | the mean duration is undefined iff every actual duration is missing |
| Kpis.MeanWithinBounds | app.py:81-82 | the mean lies between any lower and upper bound on the present durations |
| Kpis.ComputeIndicators | app.py:80-86 | the row count is the table's length, the average is the missing-skipping mean, the cost is the cost sum and the percentage is the Delayed share; on no rows there is no mean and cost and percentage are 0; the percentage lies in [0, 100] |
| DailyTrend.Trend | app.py:115-116 | the trend has one entry per start date present; each entry has a cell for every flag present anywhere in the table, holding the number of rows starting that date with that flag |
| DailyTrend.CountOnZeroIff | app.py:115-116 | a date's count for a flag is 0 iff no row starting that date carries the flag |
| DailyTrend.TrendCells | app.py:115-116 | every cell, with a missing column read as 0, is the count of that date's rows with that flag; a flag no row of the date carries reads 0 (the `fillna(0)`), and a cell is 0 only then |
| DailyTrend.CountsSplitByFlag | app.py:115-116 | on each date, the Delayed and On-Time counts add up to the rows starting that date |
| DailyTrend.AbsentFlagCountsZero | app.py:115-116 | a flag that occurs nowhere counts 0 on every date |
| DailyTrend.DailyTotals | app.py:115-116 | on every date of the trend, the Delayed and On-Time cells, with missing cells read as 0, add up to the rows starting that day, which is at least one |
| Ranking.ArgMaxTotal | app.py:153 | `idxmax` over sums: no group has a larger total, and every earlier group has a strictly smaller one |
| Ranking.ArgMaxMean | app.py:150 | `idxmax` over means: no group has a larger mean, and every earlier group has a strictly smaller one |
| Ranking.TopSpec | app.py:130 | the top-n holds min(n, groups) groups taken from the input, in non-increasing order of total; no omitted group has a larger total than the last listed; distinct keys stay distinct |
| Ranking.TopKeepsAllWhenShort | app.py:130 | when n is at least the number of groups, every group is listed |
| Workload.TopWorkloadEntries | app.py:128-130 | each listed employee has rows and is paired with the sum of their actual durations |
| Workload.TopWorkloadSpec | app.py:128-130 | the chart lists at most ten distinct employees, in non-increasing order of workload, and is empty iff there are no rows |
| Workload.TopWorkloadCoverage | app.py:128-130 | every employee with rows is listed, or has a workload no larger than the last listed; fewer than ten are listed only when every employee is |
| Insights.HighDelayRateIffPercent | app.py:145-148 | rule 1 fires iff the delay percentage exceeds 30 |
| Insights.HighPriorityDelayCountSpec | app.py:156-158 | rule 4's count is positive iff some row is both "High" priority and Delayed |
| Insights.CostliestDepartmentSpec | app.py:150-151 | rule 2 names a department with rows whose mean cost is maximal, and every department that sorts before it has a strictly smaller mean (the first maximum in key order) |
| Insights.MostLoadedEmployeeSpec | app.py:153-154 | rule 3 names an employee with rows whose summed duration is maximal, and every employee that sorts before it has a strictly smaller sum |
| Insights.CostliestDepartmentUnique | app.py:150-151 | at most one department fits rule 2's description, so the description determines the choice |
| Insights.MostLoadedEmployeeUnique | app.py:153-154 | at most one employee fits rule 3's description |
| Insights.GenerateInsightsSpec | app.py:142-160 | the insight list fails iff there are no rows. Otherwise it is, in this order: rule 1 iff the percentage exceeds 30; the costliest department; the most loaded employee; rule 4 iff some high-priority row is delayed |
| Dashboard.Render | app.py:33-162 | the page's rows are the filter of the enriched table, so the in-order subsequence of passing rows; the indicators, the trend, the workload chart and the recommendations are all computed from those rows, so the contracts of `ComputeIndicators`, `Trend`/`TrendCells`, `TopWorkload` and `GenerateInsightsSpec` hold of what the page shows; insights fail iff no row passes |
| Dashboard.DefaultViewShowsAll | app.py:49-71 | with the default selections the page describes every loaded row, and a non-empty table yields at least the two arg-max insights |

## Left out

- Page setup, sidebar widget rendering, metric display and every Plotly chart (app.py:8-12; the `st.subheader`, `st.columns`, `st.metric`, `px.*` and `st.plotly_chart` calls in 76-134; 162-168). These include the department cost bar and the duration-by-priority box plot, which compute nothing beyond what the chart library draws.
- Loading the CSV file and Streamlit's cache (app.py:17-22). This is file I/O; the model starts from a `seq<Task>`.
- `pd.to_datetime` (app.py:29-30). Timestamps are an abstract day number plus a second of day; the daily trend groups by the day number.
- Rounding and text formatting of the indicators (app.py:82-86) and the emoji message texts (app.py:148-158). An insight is an enum value carrying the department or employee name.
- Fractional numbers. `Actual_Duration`, `Estimated_Duration` and `Cost_Per_Task` are integers in the model. In the source they are numeric columns, float64 whenever a value is missing or fractional, and the cost sum is rounded to two places at app.py:84. Fractional values and the float rounding of the difference, the sums and the group means are not modelled, and neither is int64 wrap-around of a whole-number column, which realistic durations and costs cannot reach.
- Missing and unparsable start times. Every row has a `Start_Time` in the model. In the source a missing one becomes NaT (app.py:29), and the group-by by date (app.py:115-116) drops that row from the trend. An unparsable `Start_Time` or `End_Time` makes `pd.to_datetime` raise at app.py:29-30, so the page fails to load; the model's timestamps are abstract and cannot represent that error.
- Floating point. Means and the delay percentage are exact reals. Rule 1 compares `10 * delayed > 3 * rows`, which agrees with the float test `delayed / rows > 0.3` for any realistic row count.
- Unicode digits. Python's `\d` matches any Unicode decimal digit; the model recognises ASCII '0' to '9' only.
- Missing department, priority, employee or cost values. These are plain strings and integers in the model. A missing cost, or rows dropped from a group-by because their key is NaN, are not modelled. A missing `Assigned_Employee` never reaches a group-by: `re.findall` on NaN raises TypeError at app.py:37 and the page fails to load, an error path the total model does not have.
- Workload.TopWorkloadSpec: the source's `sort_values` uses an unstable sort, so among employees with equal workload its order is not fixed. The model lists ties in key order, and the workload contracts claim nothing about the order of ties.
- Kpis.MeanActualDuration: the mean is an exact real, not a rounded float. On a table without durations the model gives None where the source shows NaN.
