# KPI dashboard pipeline — a Dafny model

`app.py` is a dashboard for team KPIs. It reads a spreadsheet of task
records. The user names the columns that hold the member, date, task,
quality, revision, completed count, on-time score, efficiency and man-hours.
Its data pipeline then does the following:

1. **Date stage** (app.py:76-91). It refuses a sheet whose date column is
   missing. It parses the dates with the user's format hint when one is given
   and otherwise free-form. It stops when no date parses.
2. **Record building** (app.py:93-123).
   - Each mapped column is fetched; an unmapped or absent one becomes an
     all-missing column.
   - Percentage columns go through `parse_percent` (app.py:12-23), which
     strips `%` and spaces, coerces to numbers, and puts the whole column on
     the 0-100 scale when its median is at most 1.05.
   - Members are stringified.
   - A missing `completed` counts as 1.
   - `ontime_flag` is `ontime / 100` for a non-negative score.
   - `month` is the first day of the record's month.
3. **Three summaries** of the records:
   - `per_member_month` (app.py:125-133): means skip missing values, sums
     count them as 0.
   - `team_month` (app.py:135-143): means of the member means, sums of the
     member sums.
   - `per_member_task` (app.py:250-261): only when a task column is mapped,
     with a count of dated rows.
4. **Chart controls** (app.py:156-169): the sorted member list, the default
   range from the earliest to the latest month, and the month-range and
   member filters.

The model follows the code's structure, one module per concern:

| file | module | what it holds |
|---|---|---|
| cells.dfy | `Cells` | cells, dates, `str.strip`, `str.replace('%', '')`, Python string order |
| numeric.dfy | `Numeric` | `pd.to_numeric(errors='coerce')` on one cell and on a column |
| stats.dfy | `Stats` | skip-missing mean, sum and median (pandas' even-count rule) |
| percent.dfy | `Percent` | `parse_percent` |
| frame.dfy | `Frame` | the sheet, the column mapping, `get_series`, the date stage |
| records.dfy | `Records` | the `work` table as a sequence of records |
| grouping.dfy | `Grouping` | `groupby(...).agg(...)` with pandas' defaults, and boolean masks |
| keys.dfy | `Keys` | the group keys and the order pandas sorts them in |
| aggregate.dfy | `Aggregate` | the three summaries |
| filters.dfy | `Filters` | member list, default range, filters |
| pipeline.dfy | `Pipeline` | one whole run, from the sheet to the dashboard tables |
| scenarios.dfy | `Scenarios` | the worked team-average example |

Every stage of the script is an expression over whole columns, so the model
uses functions over sequences. The script adds `__date__`, `month`,
`completed` and `ontime_flag` to its frames in place. The model instead
builds each record whole from the prepared columns, and each such step is a
named function (`ChooseDates`, `MonthOf`, `CompletedOrOne`, `OntimeFlag`).

Numbers are exact reals. A cell is blank, a number or a text. The model
follows pandas 2.x, the version the `dtype == 'O'` test of app.py:14 is
written for: there a column has object dtype exactly when some cell holds
text. Only then does
`parse_percent` run its `.str` methods, and those turn every non-text cell
of the column into NaN.

Three behaviours of the code are easy to miss, and the model keeps them:

- `parse_percent` removes every `%` from a text cell, wherever it stands,
  not only a trailing one.
- A sheet with no rows always stops at the date stage: either its date
  column is absent, or `isna().all()` is true of that empty column and the
  run reports that no date parsed.
- A number in a column that also holds text becomes missing, as described
  above.

## Model

| member | source | states |
|---|---|---|
| Cells.Strip | app.py:15-15 | the result is a contiguous slice of the input with no space at either end, and only spaces are cut away |
| Cells.StripUnspaced | app.py:15-15 | a string with no space at either end is left as it is by `strip` |
| Cells.RemoveChar | app.py:15-15 | `replace('%', '')` leaves no `%`, and a string without one is unchanged |
| Cells.RemoveCharAppend | app.py:15-15 | removing `%` splits over concatenation |
| Cells.RemoveTrailing | app.py:15-15 | a single trailing `%` is what removing `%` takes off a string without another one |
| Cells.StrLtIrreflexive | app.py:158-158 | Python's string order never puts a string before itself |
| Cells.StrLtTransitive | app.py:158-158 | Python's string order is transitive |
| Cells.StrLtTotal | app.py:158-158 | of two different strings one comes first |
| Numeric.ParseNumber | app.py:16-16 | a text accepted as a number is non-empty and made only of sign, digit, point and exponent characters |
| Numeric.ToNumeric | app.py:16-16 | one cell of `to_numeric(errors='coerce')`: a blank is missing, a number is itself, a text is its `ParseNumber` reading; the grammar and the values it accepts are stated by the `ParseNumber` lemmas below |
| Numeric.ToNumericColumn | app.py:101-104 | `to_numeric(errors='coerce')` keeps the column's length and coerces each cell on its own |
| Numeric.NatValueShowNat | app.py:16-16 | reading back the decimal digits of a whole number gives that number |
| Numeric.ParseShowNat | app.py:16-16 | `to_numeric` of the decimal text of a whole number is that number |
| Numeric.ParseShowInt | app.py:16-16 | the same for a signed whole number |
| Numeric.NatValueAppend | app.py:16-16 | the value of two digit strings put together is the first one's value shifted by the second's length, plus the second's |
| Numeric.DecimalValue | app.py:16-16 | whole digits plus fractional digits over ten to their count is all the digits over ten to the fractional count |
| Numeric.ParseDecimal | app.py:16-16 | `to_numeric` of digits, a point and digits (`0.95`, `.5`, `3.`) is all the digits over ten to the number of fractional digits |
| Numeric.ParseSignedDecimal | app.py:16-16 | the same after a sign: `-` negates the value and `+` keeps it |
| Numeric.ParseExponentShowInt | app.py:16-16 | the decimal text of any integer reads back as that exponent |
| Numeric.ParseScientific | app.py:16-16 | a decimal followed by `e` and an integer exponent is the decimal times that power of ten |
| Numeric.FractionTextExample | app.py:16-16 | `"0.95"` coerces to 0.95 |
| Numeric.DecimalTextExample | app.py:16-16 | `"12.5"` coerces to 12.5 |
| Stats.Present | app.py:18-18 | the non-missing values: none exactly when every value is missing |
| Stats.Total | app.py:129-129 | `sum` skips missing values; `TotalCountsMissingAsZero` states it is the sum with missing counted as 0 and `MeanIgnoresOrder` that order does not matter |
| Stats.Mean | app.py:127-127 | `mean` of the present values, missing when none is; its meaning is stated by `MeanMissing`, `MeanWithin` and `MeanIgnoresOrder` |
| Stats.MeanMissing | app.py:127-127 | a mean is missing exactly when no value is present |
| Stats.MeanWithin | app.py:127-127 | a mean lies between any bounds of its present values |
| Stats.TotalCountsMissingAsZero | app.py:129-129 | a skip-missing sum equals the sum with missing values counted as 0 |
| Stats.SumIgnoresOrder | app.py:129-129 | rearranging values leaves their sum unchanged |
| Stats.MeanIgnoresOrder | app.py:127-129 | the mean and the total depend only on the multiset of present values |
| Stats.ColumnIgnoresOrder | app.py:127-133 | rearranging the rows a column is read from leaves its mean and its total unchanged |
| Stats.Sort | app.py:18-18 | the values sorted: ascending, and a permutation of the input |
| Stats.SortedUnique | app.py:18-18 | two sorted sequences with the same values are equal |
| Stats.Median | app.py:18-18 | `median(skipna=True)` of the present values: the middle sorted value, or the mean of the two middle ones on an even count; properties stated by `MedianIgnoresOrder`, `MedianAtMost` and `MedianAbove` |
| Stats.MedianIgnoresOrder | app.py:18-18 | the median depends only on the multiset of values |
| Stats.MedianAtMost | app.py:18-21 | values all at most `c` have a median at most `c` |
| Stats.MedianAbove | app.py:18-21 | values all above `c` have a median above `c` |
| Stats.PresentIgnoresOrder | app.py:18-18 | reordering the cells reorders the present values and changes none |
| Percent.CoerceCell | app.py:14-16 | one cell: in a text column a text is stripped of `%` and spaces before `to_numeric` and any other cell is missing; elsewhere the cell is coerced as it is; stated by `NumberInTextColumnMissing`, `PercentSignIgnored` and `WholePercentText` |
| Percent.CoerceAll | app.py:14-16 | the column keeps its length, and each cell is coerced by the one column-wide dtype |
| Percent.Coerce | app.py:14-16 | the column coerced with its own dtype decision; `CoercedValuesIgnoreOrder` and `TextColumnIgnoresOrder` state that this does not depend on cell order |
| Percent.ScaleFactor | app.py:18-22 | the column is scaled by 1 or by 100 and by nothing else |
| Percent.ParsePercent | app.py:12-23 | same length, missing exactly where coercion failed, every present value times the one column factor |
| Percent.ParsePercentAt | app.py:16-23 | each position of the result is its coerced value scaled by the column factor |
| Percent.NothingPresentUnchanged | app.py:18-20 | a column with no present value comes back as coerced, all missing |
| Percent.FractionColumnScaled | app.py:21-22 | when every present value is at most 1.05, every present value is multiplied by 100 |
| Percent.PercentColumnUnchanged | app.py:21-23 | when every present value is above 1.05, the coerced column is returned unchanged |
| Percent.NumberInTextColumnMissing | app.py:14-15 | a number in a column that also holds text becomes missing |
| Percent.PercentSignIgnored | app.py:15-15 | a `%` anywhere in a text cell does not change its value |
| Percent.WholePercentText | app.py:15-16 | the text of a whole number followed by `%` coerces to that number |
| Percent.CoercedValuesIgnoreOrder | app.py:14-16 | reordering the cells does not change the multiset of coerced values |
| Percent.TextColumnIgnoresOrder | app.py:14-14 | the dtype decision does not depend on cell order |
| Percent.ScaleFactorIgnoresOrder | app.py:18-21 | nor does the scale decision |
| Percent.ParsePercentIgnoresOrder | app.py:12-23 | a cell gets the same result wherever it stands in the column |
| Percent.NinetyFivePercent | app.py:15-16 | `"95%"` in a text column coerces to 95 |
| Percent.EightyPercent | app.py:15-16 | `"80%"` in a text column coerces to 80 |
| Percent.PercentTextCoerced | app.py:14-16 | `["95%", "80%"]` is a text column whose cells coerce to 95 and 80 |
| Percent.PercentPairUnscaled | app.py:18-23 | a column coercing to 95 and 80 has a median above 1.05 and is returned unscaled |
| Percent.PercentTextExample | app.py:14-23 | `["95%", "80%"]` gives `[95, 80]` |
| Percent.FractionCoerced | app.py:14-16 | a numeric column `[0.1, 0.2, 0.3]` coerces to its own values |
| Percent.FractionTripleScaled | app.py:18-23 | a column coercing to 0.1, 0.2 and 0.3 has median 0.2 and is multiplied by 100 |
| Percent.FractionExample | app.py:21-22 | `[0.1, 0.2, 0.3]` gives `[10, 20, 30]` |
| Percent.PercentageExample | app.py:21-23 | `[10, 20, 30]` stays `[10, 20, 30]` |
| Frame.GetSeries | app.py:94-95 | a column of the sheet's height: the mapped column when it is named and present, all missing otherwise |
| Frame.ChooseDates | app.py:81-87 | a non-blank hint selects format-directed parsing unless that raises; otherwise free-form parsing |
| Frame.ParseDates | app.py:76-91 | fails exactly when the date column is absent or no date parses, with the matching error for each case; otherwise one date slot per row with at least one date |
| Frame.EmptySheetFails | app.py:89-91 | a sheet with no rows stops the run |
| Frame.BlankHintIsFreeForm | app.py:82-85 | a hint of only spaces selects free-form parsing |
| Records.MemberText | app.py:97-97 | `astype(str)` of a member cell: a text is kept, a blank is `nan`, a number is rendered; stated by `UnmappedMemberIsNan` |
| Records.CompletedOrOne | app.py:122-122 | `fillna(1)`: a missing completed count is 1, a present one is kept; stated by `DerivedColumns` |
| Records.OntimeFlag | app.py:123-123 | the on-time score over 100 when it is non-negative, missing otherwise; stated by `OntimeFlagCases` |
| Records.MonthOf | app.py:119-119 | the first day of the date's month, missing without a date; stated by `DerivedColumns` |
| Records.MakeRecord | app.py:107-123 | the record of one row from that row of every prepared column, with the three derived columns; stated by `BuildRecords` and `DerivedColumns` |
| Records.BuildRecords | app.py:97-123 | one record per sheet row, none dropped, each built from that row of every prepared column |
| Records.DerivedColumns | app.py:119-123 | a record's month is the first day of its date's month and is absent without a date; a missing `completed` is 1; the on-time flag derives from the on-time score |
| Records.OntimeFlagCases | app.py:123-123 | the flag is present exactly for a non-negative score and is then the score divided by 100, within 0 and 1 for a score within 0 and 100 |
| Records.UnmappedMemberIsNan | app.py:95-97 | with no member column every record's member is the text `nan`, and no row is lost |
| Records.UnmappedTaskIsBlank | app.py:95-98 | with no task column every task is missing |
| Records.UnmappedQualityIsMissing | app.py:95-99 | with no quality column every quality is missing |
| Grouping.InsertKey | app.py:126-126 | inserting a key adds exactly that key |
| Grouping.InsertKeyIncreasing | app.py:126-126 | inserting into an ascending key list keeps it ascending |
| Grouping.KeysOf | app.py:126-126 | the group keys are exactly the present keys of the rows |
| Grouping.KeysIncreasing | app.py:126-126 | under a strict total order the group keys are ascending, each listed once |
| Grouping.IncreasingUnique | app.py:126-126 | two ascending key lists holding the same keys are equal, so the sorted group keys leave no choice |
| Grouping.KeysIgnoreOrder | app.py:126-126 | rearranging the rows leaves the group keys unchanged |
| Grouping.Where | app.py:165-169 | a boolean mask keeps exactly the rows that satisfy it |
| Grouping.WhereOne | app.py:165-169 | a mask on one row keeps it exactly when it passes |
| Grouping.WhereAppend | app.py:165-169 | masking a table is masking its two halves and joining them in the same order, so rows keep their order and appear once each |
| Grouping.WhereIncreasing | app.py:165-169 | rows ascending by a key stay ascending after a mask |
| Grouping.WhereCount | app.py:165-169 | a mask keeps every copy of a passing row and no copy of a failing one |
| Grouping.WhereIgnoresOrder | app.py:126-126 | rearranging the rows only rearranges the rows a mask or a group keeps |
| Grouping.Select | app.py:126-126 | a group holds exactly the rows carrying its key |
| Grouping.GroupBy | app.py:126-133 | `groupby(...).agg(...)` with `sort=True` and `dropna=True`; stated by `GroupByKeys`, `GroupByRows`, `GroupByOrdered` and `GroupByIgnoresOrder` |
| Grouping.GroupByKeys | app.py:126-133 | a row for every present key, and only for present keys |
| Grouping.GroupByRows | app.py:126-133 | each output row is its key beside the aggregate of its own group, which is never empty |
| Grouping.GroupByOrdered | app.py:126-126 | output rows are in ascending key order |
| Grouping.SumByIgnoresOrder | app.py:129-129 | rearranging the rows leaves a column sum unchanged |
| Grouping.GroupByIgnoresOrder | app.py:126-133 | rearranging the rows leaves the grouped table unchanged when each aggregate depends only on which rows form its group |
| Grouping.RegroupSum | app.py:136-143 | summing per-group sums over the coarser key gives the sum over the original rows of that coarser key |
| Grouping.RegroupRows | app.py:136-143 | regrouping the grouped table by a coarser key selects the fine groups that fall under it |
| Keys.StrOrder | app.py:158-158 | member names are sorted by a strict total order |
| Keys.TaskOrder | app.py:253-253 | task cells are sorted by a strict total order: numbers before texts |
| Keys.MemberMonthOrder | app.py:126-126 | member-month keys are sorted by a strict total order |
| Keys.MemberTaskOrder | app.py:253-253 | member-task keys are sorted by a strict total order |
| Aggregate.Summarize | app.py:126-133 | the six aggregates of one group; stated by `SummarizeMeaning`, `SummarizeTotals` and `SummarizeIgnoresOrder` |
| Aggregate.SummarizeMeaning | app.py:127-132 | for any of the four averaged columns, the average is missing exactly when none of the group's values is present and otherwise lies within their bounds |
| Aggregate.SummarizeTotals | app.py:129-132 | the completed and man-hours totals are the sums over the group's records, a missing man-hours value counting 0 |
| Aggregate.SummarizeIgnoresOrder | app.py:126-133 | a group's aggregates, and its dated-row count, depend only on which records form it |
| Aggregate.PerMemberMonth | app.py:126-133 | records grouped by member and month; stated by the `PerMemberMonth…` lemmas below |
| Aggregate.PerMemberMonthSorted | app.py:126-133 | rows ascend by member then month, with no key twice |
| Aggregate.PerMemberMonthCovers | app.py:126-126 | a row for the member and month of every dated record |
| Aggregate.PerMemberMonthFromRecords | app.py:126-126 | every row is the member and month of some dated record, so undated records make no row |
| Aggregate.PerMemberMonthSummaries | app.py:126-133 | each row's aggregates are the summary of exactly the records with its member and month |
| Aggregate.MemberMonthKeysDistinct | app.py:126-126 | no member-month key is listed twice |
| Aggregate.PerMemberMonthIgnoresOrder | app.py:126-133 | shuffling the records leaves `per_member_month` exactly as it is |
| Aggregate.TeamSummarize | app.py:136-143 | the `agg` of the team table: means of the member means and sums of the member sums; stated by `TeamAverageOfColumn` and `TeamTotalOfColumn` |
| Aggregate.TeamMonth | app.py:136-143 | the member-month rows grouped by month; stated by the `TeamMonth…` and team-average lemmas below |
| Aggregate.TeamTotalOfColumn | app.py:136-143 | summing one total over the member rows of a month equals summing the column over that month's records |
| Aggregate.TeamTotalsAreRecordSums | app.py:136-143 | a team month's total completed and total man-hours are the sums over all dated records of that month |
| Aggregate.TeamMonthSorted | app.py:136-136 | team rows ascend by month, with no month twice |
| Aggregate.TeamMonthCovers | app.py:136-136 | a team row for the month of every dated record |
| Aggregate.TeamMonthFromRecords | app.py:136-136 | every team row is the month of some dated record |
| Aggregate.TeamMonthIgnoresOrder | app.py:126-143 | shuffling the records leaves `team_month` exactly as it is |
| Aggregate.TeamAverageOfColumn | app.py:136-141 | for any averaged column, a team month's value is the mean of that column over the members active that month, each member counted once |
| Aggregate.TeamAverageOfMemberAverages | app.py:136-141 | a team month's average quality, revision, on-time rate and efficiency are each the mean of the corresponding average of every member active that month |
| Aggregate.PerMemberTask | app.py:253-261 | records grouped by member and task, with the count of dated rows; stated by the `PerMemberTask…` lemmas below |
| Aggregate.PerMemberTaskSorted | app.py:253-261 | rows ascend by member then task, with no key twice |
| Aggregate.PerMemberTaskCovers | app.py:253-253 | a row for the member and task of every record with a task, dated or not |
| Aggregate.PerMemberTaskHasTasks | app.py:253-253 | no row has a missing task: records without a task are dropped |
| Aggregate.PerMemberTaskFromRecords | app.py:253-253 | every row is the member and task of some record whose task is present |
| Aggregate.PerMemberTaskSummaries | app.py:253-261 | each row is the summary of exactly its records, and `observations` is the number of them that are dated, at most the group's size |
| Aggregate.PerMemberTaskIgnoresOrder | app.py:253-261 | shuffling the records leaves `per_member_task` exactly as it is |
| Filters.MemberOptions | app.py:158-158 | the member list holds exactly the members of the member-month rows |
| Filters.MemberOptionsSorted | app.py:158-158 | the member list is ascending with no member twice |
| Filters.FilterMemberMonth | app.py:165-169 | keeps exactly the member-month rows in the month range whose member is selected, or every member when none is selected |
| Filters.FilterTeamMonth | app.py:166-166 | keeps exactly the team rows in the month range |
| Filters.FilterMemberMonthSorted | app.py:165-169 | the filtered member-month rows keep the table's order by member, then month |
| Filters.FilterTeamMonthSorted | app.py:166-166 | the filtered team rows keep the table's order by month |
| Filters.DefaultSelection | app.py:159-159 | the default selection `members[:3]` is the first three members, or all of them when there are fewer |
| Filters.DefaultRange | app.py:161-161 | absent exactly when no record has a month; otherwise it bounds every record's month and both ends are months of records |
| Filters.MonthsInDefaultRange | app.py:161-165 | every member-month row lies in the default range |
| Filters.DefaultRangeKeepsMemberMonths | app.py:161-169 | with the default range and no member selected, the member-month table is shown whole |
| Filters.DefaultRangeKeepsTeamMonths | app.py:161-166 | with the default range the team table is shown whole |
| Filters.DefaultViewShowsFirstMembers | app.py:159-169 | with the default range and the default selection, the member chart holds every row of exactly the selected members |
| Pipeline.Run | app.py:76-169 | the run stops exactly when the date stage does, with its error; otherwise one record per row, a default range, and the dashboard built from those records |
| Pipeline.BuildDashboard | app.py:126-169 | `per_member_month` of the records, `team_month` and the member list of that table, the task table exactly when a task column is mapped, and the records' default range |
| Pipeline.DatedSheetHasRange | app.py:89-161 | once some row is dated a default month range exists |
| Pipeline.RunStops | app.py:76-91 | the run stops for a missing date column exactly when the column is unnamed or absent, and for unparsable dates exactly when it is present and no date parses |
| Pipeline.RunDefaultViewIsComplete | app.py:161-169 | on a completed run, the default range with no member selected shows both summaries whole |
| Pipeline.RunOpeningView | app.py:159-169 | on a completed run, the opening view (default range, first three members) shows every row of exactly those members and the whole team table |
| Scenarios.ExampleKeys | app.py:126-126 | the example records have the two member-month keys A and B, in that order |
| Scenarios.ExampleRecordMean | app.py:127-127 | the mean of the four example qualities is 60 |
| Scenarios.ExampleSelectA | app.py:126-126 | A's group is its one record |
| Scenarios.ExampleSelectB | app.py:126-126 | B's group is its three records |
| Scenarios.ExampleMemberMonths | app.py:126-133 | the example has one member-month row for A and one for B |
| Scenarios.ExampleMemberAverages | app.py:127-127 | A averages 90 and B averages 50 |
| Scenarios.ExampleTeam | app.py:136-137 | two member rows of one month, averaging 90 and 50, make one team row averaging 70 |
| Scenarios.TeamAverageWeighsMembersEqually | app.py:135-143 | A with 90 and B with 50, 60 and 40 give a team average of 70, where the record mean is 60 |

## Left out

- Page setup, widgets, tables, charts, the `TEAM AVERAGE` plot series and the format strings (app.py:8, 35-68, 145-154, 172-248, 262-273) are presentation. The model stops at the tables they display.
- Reading the workbook and the sample-file fallback (app.py:25-33, 71) are file I/O; the model starts from a sheet already read.
- `st.error` and `st.stop` become an error result of `ParseDates` and `Run`.
- The selection widget (app.py:159) is a parameter of the filters: they take any selection, and `DefaultSelection` models the one it starts with. `show_team` (app.py:160) only affects the plots.
- `FilterMemberMonth`: the range widget may return a single date, in which case `date_range[1]` would raise. The model takes both range ends as given.
- `ChooseDates`: `pd.to_datetime` is a foreign library. The free-form parser and the format-directed parser are parameters that map a column to a date per row. The format parser returns no result when it raises, and the `except` fallback then uses free-form parsing. A raise from the free-form parser itself is not modelled.
- `Numeric.ParseNumber`: `to_numeric` on text accepts only the decimal form `[+-](d+[.d*] | .d+)[(e|E)[+-]d+]`, where `d` is a digit: whole or fractional digits may be missing, but not both. Surrounding whitespace, `inf`, `nan`, hexadecimal and digit separators are not modelled.
- pandas 3.0 and its default string dtype are not modelled; the model follows pandas 2.x. Under pandas 3.0 two behaviours differ. First, an all-text column has dtype `str`, not object, so the test at app.py:14 fails, the `%`/strip step is skipped, and `"95%"` coerces to missing instead of 95. Second, `astype(str)` at app.py:97 keeps a blank member missing, so those rows drop out of the member groupings instead of forming a member `nan`.
- Floating point: every value is an exact real, so rounding in means, medians, `ontime / 100` and the factor 100 is not modelled.
- `Records.MemberText`: the `str` of a number cell is a parameter `showNumber`. A blank cell gives `nan`, as `astype(str)` does in pandas 2.x.
- Spreadsheet-native date, time and boolean cells are not among the cell kinds; a date column is handed to the date parser as cells.
- Duplicate column names are not modelled: a sheet is a map from names to columns.
- A user-mapped source column literally named `__date__` would be overwritten by the parsed dates (app.py:83-87). The model keeps the parsed dates apart from the sheet.
