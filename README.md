# FitTrack: a Dafny model of the workout tracker's data core

FitTrack is a PyQt5 desktop window over one SQLite table, `fitness`
(`id INTEGER PRIMARY KEY AUTOINCREMENT, date TEXT, calories REAL,
distance REAL, description TEXT`). The user adds a workout from a form,
deletes the selected row of a table widget after a confirmation, reads three
header figures (number of workouts, total calories, total distance) and asks
for a scatter chart of calories against distance, coloured by normalised
calories.

This project models what those actions do to the data and what the window
shows as a result:

- `Sql` (sql.dfy): the table's rows as values of SQLite's storage classes
  (`NULL`, `REAL`, `TEXT`). It also holds REAL column affinity for the bound
  form text, and the four statements the window runs: the date-descending
  listing, the distance-ascending chart query, `COUNT`/`SUM`, and
  `DELETE ... WHERE id = ?`.
- `Conversions` (conversions.dfy): Python's `str(int)`, `int(str)`,
  `float(str)`, `int(float)` (truncation toward zero), `f"{n:,}"` and
  `str.replace(',', '')`, with their round trips.
- `Ordering` (ordering.dfy): `ORDER BY` as a stable insertion sort under a
  total preorder, proved sorted and a permutation.
- `Display` (display.dfy): the cells `load_table` writes for a row and the
  header figures `update_stats` writes, including both `except` paths.
- `Chart` (chart.dfy): `calculate_calories` up to the plotting call. This is
  the loop that fills the two lists, the "No Data" guard and the min/max
  normalisation.
- `App` (fittrack.dfy): the window as a class `FitTrack`. Its fields are the
  stored rows, the AUTOINCREMENT counter, the shown table and the header.
  Its methods are `LoadTable`, `UpdateStats`, `AddWorkout`, `DeleteWorkout`
  and `CalculateCalories`, and its invariant `Valid()` ties the shown table
  and header to the stored rows.
- `Scenarios` (scenarios.dfy): concrete consequences, such as a distance
  typed as "1,000", an add followed by a delete, and an empty table.

`update_stats` and `load_table` turn a float into a whole number with
Python's `int()`, which truncates toward zero. That differs from rounding
down for a negative non-integer value; the model truncates
(`Conversions.TruncateTowardZero`).

Inputs that come from the user or from dialogs are parameters:

- the form's date, calories, distance and description text;
- the selected row, with -1 for no selection;
- the answer to "Are you sure?", as a bool.

## Model

| member | source | states |
|---|---|---|
| Sql.RealAffinity | main.py:866-867 | a bound calories or distance text is never stored as NULL (`App.StoredValueReadBack` states what is stored) |
| Sql.NewerFirstIsPreorder | main.py:346 | ordering by the date text, descending, is total and transitive |
| Sql.ListAllSpec | main.py:346 | `SELECT * ... ORDER BY date DESC` lists every row exactly once (same multiset), newest date first |
| Sql.ListAllSingle | main.py:346 | a one-row table lists that row |
| Sql.ByDistanceIsPreorder | main.py:447 | SQLite's cross-type order (NULL < numbers < text) on distance is a total preorder |
| Sql.ByDistanceAscending | main.py:447 | the chart query returns one (distance, calories) pair per row, as a permutation of the rows' pairs, sorted by distance |
| Sql.SumNumeric | main.py:532-536 | `SUM(...) or 0` read as a number is the total of what each value adds, a NULL sum counting as 0 |
| Sql.NumericText | main.py:532 | a TEXT value that is a number as a whole adds that number to a sum |
| Sql.NumberPrefixNone | main.py:532 | a TEXT value with no leading number adds nothing to a sum |
| Sql.AggregateEmpty | main.py:532 | on an empty table `COUNT(*)` is 0 and both sums are NULL |
| Sql.SumAppend | main.py:532 | adding a non-NULL value to a column adds its number to the SUM, which is then not NULL |
| Sql.AggregateAppend | main.py:532 | inserting a row adds one to the count and its calories and distance to the sums |
| Sql.RemoveIdMembers | main.py:435 | `DELETE ... WHERE id = ?` keeps exactly the rows whose id differs |
| Sql.RemoveIdAbsent | main.py:435 | deleting an id no row carries changes nothing |
| Sql.RemoveIdPresent | main.py:435 | with unique ids (the primary key), deleting a present id removes exactly one row |
| Sql.RemoveIdUnique | main.py:435 | deleting keeps the ids unique |
| Ordering.SortByCorrect | main.py:346 | `ORDER BY` under a total preorder returns the rows sorted, as a permutation of the input |
| Ordering.InsertByPermutes | main.py:346 | placing one row into a listing adds exactly that row |
| Ordering.InsertBySorted | main.py:346 | placing one row into a sorted listing keeps it sorted |
| Ordering.StrLeqTotal | main.py:346 | any two date texts are comparable |
| Ordering.StrLeqTransitive | main.py:346 | comparison of date texts is transitive |
| Conversions.NatToDecimal | main.py:356 | `str(n)` is non-empty, all digits, and has no leading zero unless it is "0" |
| Conversions.NatToDecimalValue | main.py:356 | the digits of `str(n)` denote n |
| Conversions.IntToDecimalRoundTrip | main.py:356 | `int(str(i)) == i` for every int, which is how delete (main.py:423) reads the id back from the cell |
| Conversions.IntTextIsNumber | main.py:361 | any text `int()` accepts, `float()` accepts with the same value |
| Conversions.CommaIsNotNumber | main.py:361 | `float()` rejects any text with a comma (`App.StoredValueReadBack` and `Scenarios.GroupedEntry` draw the consequences for storage and display) |
| Conversions.RemoveCommas | main.py:454-455 | `replace(',', '')` leaves no comma and never lengthens the text |
| Conversions.RemoveCommasKeeps | main.py:454-455 | text without commas is left as it is |
| Conversions.RemoveCommasAppend | main.py:454-455 | removing commas distributes over concatenation |
| Conversions.RemoveCommasIdempotent | main.py:454-455 | removing commas twice is removing them once |
| Conversions.ThreeDigitsValue | main.py:540 | each three-digit group of `{:,}` denotes its value |
| Conversions.GroupedNatSplit | main.py:540 | without commas, `{:,}` of n is `{:,}` of n / 1000 followed by the last three digits |
| Conversions.GroupedNatDigits | main.py:540 | without commas, `{:,}` of n is a digit string that denotes n |
| Conversions.GroupedRoundTrip | main.py:540-541 | `int(f"{i:,}".replace(',', '')) == i`: the header figure reads back as the truncated total |
| Conversions.GroupedHasComma | main.py:540-541 | `{:,}` of a number with four or more digits contains a comma |
| Conversions.GroupedIsNumber | main.py:454-456 | `float()` of `{:,}` text with its commas removed is the number |
| Conversions.TruncateTowardZero | main.py:362 | `int(x)` is the whole number next to x on the side of zero: at or below x when x is non-negative, at or above x when x is negative |
| Display.CellTextMeaning | main.py:360-371 | a falsy value or one `float()` rejects shows "0"; a number shows a whole number that `int()` reads back as its truncation toward zero |
| Display.RenderRowId | main.py:356 | the id cell, read back with `int()` as delete does at main.py:423, is the row's id |
| Display.RenderRowNumbers | main.py:360-371 | the calories and distance cells always read back as whole numbers |
| Display.StatsDisplayMeaning | main.py:529-547 | if either sum fails `float()`, all three figures become "0"; otherwise the figures read back as the count and the two sums truncated toward zero |
| Display.StatsOfTable | main.py:532-541 | over the table's own totals the conversion never fails: the header shows the row count and the truncated numeric sums |
| Display.StatsOfEmptyTable | main.py:532-541 | an empty table shows "0", "0", "0" |
| Chart.ExtractSeries | main.py:449-460 | the loop fills the two lists exactly as the row-by-row specification `SeriesOf` does |
| Chart.SeriesCounts | main.py:449-460 | one distance per row that passes the truthiness guard and converts, one calorie per row whose two values both convert |
| Chart.CountsSplit | main.py:451-459 | rows with a kept distance are those with both values kept plus those whose calorie failed |
| Chart.NoHalfKept | main.py:451-459 | no row loses only its calorie exactly when the count of such rows is 0 |
| Chart.SeriesLengths | main.py:451-459 | the calories list is never longer than the distances list; the two are equally long if and only if no row has a distance that converts and a calorie that does not |
| Chart.SeriesSkipsFalsy | main.py:451 | a row with a falsy distance or calorie adds nothing to either list, wherever it stands |
| Chart.DistancesBounded | main.py:447-456 | distances below a bound in the query stay below it in the list |
| Chart.DistancesAscending | main.py:447-456 | when every distance is a number, the list of distances is ascending |
| Chart.Min | main.py:471 | `min(calories)` is an element no greater than any other |
| Chart.Max | main.py:472 | `max(calories)` is an element no smaller than any other |
| Chart.ScaleBetween | main.py:475 | the scaling of one calorie value lies in [0, 1] and keeps order |
| Chart.Scale | main.py:474-475 | scaled colours: one per point, in [0, 1], the minimum at 0, the maximum at 1, order kept |
| Chart.ScaleLinear | main.py:475 | every scaled colour is `(cal - lo) / (hi - lo)`, stated as colour times (hi - lo) equals cal - lo |
| Chart.Normalize | main.py:471-477 | colours in [0, 1], one per calorie, order kept; the extremes map to 0 and 1 when the calories differ, and every colour is 0.5 when they are all equal |
| Chart.NormalizeLinear | main.py:471-475 | when the calories differ, every colour is `(cal - min) / (max - min)` |
| Chart.Plot | main.py:462-477 | "No Data" exactly when either list is empty; otherwise the points are the two lists and the colours are `Normalize` of the calories, one per calorie in [0, 1] |
| Chart.ChartOfAscending | main.py:447-490 | with numeric distances throughout, the plotted x values come out in ascending order |
| App.FitTrack.constructor | main.py:18-24 | opening the window on a valid table loads the table widget and the header from the stored rows |
| App.FitTrack.LoadTable | main.py:344-379 | the widget shows one rendered row per stored row, in date-descending order |
| App.FitTrack.UpdateStats | main.py:529-547 | the header shows the figures of the stored rows' totals |
| App.FitTrack.AddWorkout | main.py:382-413 | empty calories or distance text changes nothing; otherwise one row is appended under the next id, and the table and header are refreshed |
| App.FitTrack.Insert | main.py:392-400 | the new row takes the id after the largest ever issued, which is larger than every id issued before; past the largest rowid nothing is stored |
| App.FitTrack.DeleteWorkout | main.py:416-440 | no selection or a "No" answer changes nothing; otherwise the row whose id the selected cell shows is deleted, and the table and header are refreshed |
| App.FitTrack.CalculateCalories | main.py:443-477 | the outcome is the chart of the stored rows: a "No Data" warning or the scatter points and colours |
| App.StoredValueReadBack | main.py:360-371 | the value REAL affinity stores for a form text reads back through load_table's `float()` as `float()` of the text itself, and through the chart's comma-stripping `float()` as the text read without commas |
| App.AppendKeepsStoreValid | main.py:864 | appending under the next id keeps ids unique, issued and within the counter |
| App.RemoveKeepsStoreValid | main.py:435-437 | deleting keeps ids unique and issued |
| App.DeleteRemovesShownRecord | main.py:423-437 | the id read from the selected row's cell deletes exactly the record that row shows, and keeps every other record |
| Scenarios.GroupedEntry | main.py:360-363 | a distance typed as "1,000" is stored as TEXT, shows "0" in the table and charts as 1000 |
| Scenarios.SeparatedTextSum | main.py:532 | the text "5,2" adds only 5, the number before its comma, to a sum |
| Scenarios.UnconvertedCalorieKeepsDistance | main.py:451-459 | a row whose calorie fails conversion still adds its distance to the chart |
| Scenarios.SpreadCalories | main.py:474-475 | calories 10, 20, 30 are coloured 0, 0.5, 1 |
| Scenarios.EqualCalories | main.py:476-477 | equal calories are all coloured 0.5 |
| Scenarios.TwoRowsSorted | main.py:447 | two rows out of distance order are swapped by the query |
| Scenarios.TwoRowsSeries | main.py:449-457 | two numeric rows give two points in query order |
| Scenarios.NormalizePair | main.py:471-475 | a larger and a smaller calorie are coloured 1 and 0 |
| Scenarios.SeparatorTableSeries | main.py:447-457 | a distance typed "1,000" is read back by the chart loop after a numeric distance |
| Scenarios.TextDistanceChartedLast | main.py:447-457 | text sorts after every number, so "1,000" is charted after a larger numeric distance and the x values do not ascend |
| Scenarios.HeaderTotal | main.py:532-540 | workouts of 100, 200 and 300 calories show a total of "600" |
| Scenarios.DeleteOnlyRow | main.py:416-440 | confirming the delete of the only row empties the table |
| Scenarios.AddToEmpty | main.py:382-413 | adding to an empty table stores one row with id 1 |
| Scenarios.AddThenDelete | main.py:382-440 | adding to an empty table shows one row with id 1 and the given date and description; deleting it through that row empties the table |

## Left out

- Widgets, layout, styling, dark mode and the QTimer button feedback: none of them touch the data.
- `reset()` (main.py:843-850) clears the input fields and also clears the figure and redraws the canvas, so every successful add (main.py:411) wipes a chart drawn before it. The model has no drawn-figure state, so this is not captured.
- The date widget: the date arrives as a text parameter, and its `yyyy-MM-dd` shape is not enforced.
- Opening the database and creating the table (main.py:855-870) are not modelled as operations. The model starts from a table with that schema and takes the stored rows and the AUTOINCREMENT counter as the constructor's inputs.
- Matplotlib: drawing, colormap, colour bar and theme are left out, and so is the scatter call's own error when the two lists differ in length (the `except Exception` at main.py:525). `Chart.Plot` returns the points and colours that would be handed to it.
- Python's `float()` grammar is simplified to an optional sign, digits and at most one decimal point. Exponents, `inf`/`nan`, surrounding whitespace and underscores are not accepted. The same grammar decides SQLite's REAL affinity.
- Floating point is modelled as exact reals. `str(float)` followed by `float()` is taken to return the same value, and rounding in sums and in the normalisation division is not modelled.
- Overflow is not modelled. `Conversions.ParseNumber` accepts a digit string beyond the range of a double, where Python's `float()` gives `inf`. `int(inf)` then raises `OverflowError`, which the `except (ValueError, TypeError)` clauses at main.py:363, 370 and 542 do not catch. So `load_table` and `update_stats` raise, and once such a row is stored `load_table` raises at every start-up. The model shows the number instead.
- Sql.ValueLeq: text is compared by code point, as the BINARY collation does on ASCII text, and integer and real values are not told apart because REAL affinity stores both as REAL.
- `{:,}` uses a comma regardless of locale, as Python's format does, and no other separator is modelled.
- PyQt's handling of an exception that escapes a slot is not modelled.
- User edits of table cells are not modelled. The table widget is not made read-only (main.py:320-328 set only the selection behaviour and mode), so a user can overwrite the ID cell. Delete at main.py:423 then removes whatever id was typed there, or raises `ValueError` inside the slot. `App.FitTrack.DeleteWorkout` and `App.DeleteRemovesShownRecord` hold for cells as `load_table` wrote them: the model's `Valid()` assumes the widget shows exactly the rendered rows.
- A NULL description or date cannot arise from the modelled operations: add binds text for both, so `description if description else ""` is always the description itself.
- Concurrency and other writers to `fitness.db` are left out: the window is the only writer.
