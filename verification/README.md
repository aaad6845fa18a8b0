# Stacked table filters, modelled in Dafny

This project models the filter engine of a desktop table viewer, `main.py`.

**The engine (`DataModel`)** holds three things:
- a canonical table (`df`);
- a list of filters (`FilterSpec`: column, operator, first value, second value);
- a derived view.

**How the view is built.** Starting from `df`, each filter keeps a subset of the rows, in list order. A filter is skipped when its column is missing or its evaluation raises.

**Evaluating one filter:**
- `is null` and `is not null` are handled first.
- Otherwise the filter picks a comparison mode: datetime, then numeric, then text.
- It then applies one of twelve operators:
  - in datetime mode `=` and `!=` compare calendar dates, and the ordering operators compare full timestamps;
  - in numeric mode it compares numbers;
  - in text mode `=` and `!=` are exact, `contains` ignores case, and `startswith` and `endswith` do not.

**Also modelled:**
- the filter panel's validation when a filter is added;
- the labels of the active-filter list;
- the cell text and the "event today" highlight of the table widget.

Modules, one per file:

- `Common`: `Option` and `Result`. `Result.Failed` stands for an exception the source raises.
- `Subsequences`: boolean-mask selection (`Select`), order-preserving subsequences and interleavings, and the lemmas about them.
- `Text`: Python's `strip` (with Python's whitespace set), ASCII lower-casing, prefix, suffix and substring tests, and fixed-width decimal digits.
- `Stamps`:
  - timestamps as a date, a second of the day and nanoseconds, ordered lexicographically;
  - the `YYYY-MM-DD HH:MM:SS` layout and a parser that reads it back.
- `Tables`:
  - a table as named columns over rows of nullable cells;
  - column lookup, `df[mask]` (`Where`) and `df.iloc[0:0]` (`Empty`).
- `Filters`:
  - `FilterSpec` and the operators;
  - the abstract conversions (`Coercions`);
  - the mode decision;
  - the masks and `_apply_single_filter` / `_apply_string_ops`.
- `FilterProperties`: what one filter does, stated as lemmas.
- `Engine`: the fold over the filter list, and the `DataModel` class whose methods update `df`, `filters` and `view` in place.
- `Panel`: `_add_filter` validation and `refresh_active_filters`.
- `Render`: the cell text and the highlight rule of `_populate_rows`, both as the code is written and as intended (see "## Findings").

The library conversions are fields of a `Coercions` value that each operation takes as a parameter:
- `float(x)` on the filter's value (`parseFloat`);
- `pd.to_numeric(..., errors="coerce")` on a text cell (`coerceNumber`), a separate field because it accepts other strings than `float`;
- `pd.to_datetime` on text and on a number;
- `str` of a float;
- whether `re` accepts a pattern.

The properties hold for every choice of these conversions. The current date is a parameter too.

**Two behaviours of the code worth knowing:**
- **Unknown operators.** The comment at main.py:202 calls an unsupported operator a no-op. In datetime mode with a first value that is not a date, the code returns the empty table before dispatching on the operator (main.py:135-137), so there an unknown operator keeps nothing (`UnknownOperatorKeepsAll`).
- **Swapping the bounds of `between`.** Both comparisons order the two bounds before testing, so swapping them changes nothing when both parse alike (`BetweenSymmetric`). The mode, however, is decided by the first value alone. `BetweenSwapAcrossModes` shows a numeric column where swapping the bounds changes the mode and the result.

## Model

| member | source | states |
|---|---|---|
| Filters.DecideMode | main.py:118-188 | the fixed priority of the modes (main.py:118-132, 161-164 and 186-188): datetime mode exactly when the column is datetime-typed or the value parses as a date and some cell converts to one; otherwise numeric mode exactly when the value parses as a number and some cell converts to one; otherwise text mode |
| FilterProperties.NullOnlyColumnIsText | main.py:118-132 | a column that is not datetime-typed and holds only nulls is compared as text, whatever the value |
| Filters.StringOps | main.py:190-203 | text comparison keeps a subsequence of the rows with the same columns, and fails exactly for `contains` with a needle that is not a valid pattern |
| Filters.CompareDatetime | main.py:134-159 | datetime-mode evaluation keeps an order-preserving subsequence of the rows with the same columns |
| Filters.CompareNumeric | main.py:161-184 | numeric-mode evaluation keeps an order-preserving subsequence of the rows with the same columns |
| Filters.ApplySingleFilter | main.py:83-203 | one filter keeps an order-preserving subsequence of the rows with the same columns; within the model it fails exactly when its column is missing or it is a `contains` whose needle is not a valid pattern |
| Tables.ColumnIndex | main.py:60 | finds the position of a column by name, and reports none exactly when no column has that name |
| Tables.Where | main.py:106 | `df[mask]` keeps the same columns, an order-preserving subsequence of the rows, and well-formedness |
| Subsequences.SelectPartition | main.py:106-108 | a mask and its complement split the rows into two interleaved subsequences |
| Subsequences.InterleavingMultiset | main.py:106-108 | two interleaved halves together hold exactly the rows of the whole |
| Subsequences.SelectMembers | main.py:106 | a row is selected exactly when some position holding it is true in the mask |
| FilterProperties.OperatorNamesRoundTrip | main.py:351 | every operator name reads back as itself, and a name is unsupported exactly when it is not one of the twelve offered |
| FilterProperties.NullMaskPartition | main.py:104-108 | the rows with a null cell and the others interleave to the rows of the table, together holding exactly its rows |
| FilterProperties.NullOpsPartition | main.py:104-108 | `is null` and `is not null` split any table, whatever the values and the column type: the two results interleave to the original rows and hold exactly the null and the non-null cells |
| FilterProperties.DatetimeEqualsPartition | main.py:139-142 | datetime `=` and `!=` against a date split the rows |
| FilterProperties.NumericEqualsPartition | main.py:165-168 | numeric `=` and `!=` against a number split the rows |
| FilterProperties.TextEqualsPartition | main.py:192-195 | text `=` and `!=` against a needle split the rows |
| FilterProperties.EqualsNotEqualsPartition | main.py:139-195 | `=` and `!=` with the same value split the rows in every mode, except datetime mode with a value that is not a date |
| FilterProperties.NullsNeverCompare | main.py:139-181 | in datetime and numeric mode a null cell never satisfies `=`, `<`, `<=`, `>`, `>=` or `between` |
| FilterProperties.NullsAlwaysDiffer | main.py:141-168 | `!=` keeps every null cell in numeric mode and in datetime mode with a date value |
| FilterProperties.OrderedInstantsWithin | main.py:154-155 | ordering the two bounds and testing `lo <= x <= hi` is the either-order inclusive test |
| FilterProperties.DatetimeBetweenInclusive | main.py:151-155 | datetime `between a and b` keeps exactly the rows whose timestamp lies between the two dates, both ends included, in either order |
| FilterProperties.NumericBetweenInclusive | main.py:177-181 | numeric `between a and b` keeps exactly the rows whose number lies between the two bounds, both ends included, in either order |
| FilterProperties.BetweenSymmetric | main.py:151-181 | swapping the bounds of `between` changes nothing when both are given and parse alike |
| FilterProperties.BetweenSwapAcrossModes | main.py:161-188 | a concrete numeric column on which swapping the bounds changes the mode and the result |
| FilterProperties.BetweenWithoutSecondBound | main.py:151-179 | a blank or unparseable second bound gives the empty table in datetime and numeric mode |
| FilterProperties.UnparseableDateKeepsNothing | main.py:135-137 | in datetime mode a first value that is not a date gives the empty table for every operator outside the substring family |
| FilterProperties.DateEqualityIsWholeDay | main.py:139-155 | datetime `=` keeps the same rows as `between` the first and the last instant of that calendar day |
| FilterProperties.TextModeIgnoresOrdering | main.py:186-203 | in text mode `<`, `<=`, `>`, `>=` and `between` leave the table unchanged |
| FilterProperties.UnknownOperatorKeepsAll | main.py:135-203 | an unknown operator leaves the table unchanged, except in datetime mode with a value that is not a date, where it keeps nothing |
| FilterProperties.ContainsIgnoresCase | main.py:196-197 | two `contains` needles with the same lower-case form keep the same rows |
| FilterProperties.CompanyNamesInTextMode | main.py:120-132 | on the names `["Company 0001", "Zeta", "company 2"]` a needle that is neither a date nor a number reaches the text comparison |
| FilterProperties.CompanyNameMasks | main.py:186-199 | on those names, `contains "Co"` matches the first and the last and `startswith "Co"` only the first |
| FilterProperties.ContainsOnCompanyNames | main.py:196-197 | `contains "Co"` keeps "Company 0001" and "company 2", since case is ignored |
| FilterProperties.StartsWithOnCompanyNames | main.py:198-199 | `startswith "Co"` keeps "Company 0001" only, since case matters |
| FilterProperties.EndsWithOnCompanyNames | main.py:200-201 | `endswith` is case-sensitive too: "eta" keeps "Zeta" and "ETA" keeps nothing |
| FilterProperties.NumericComparisonKeeps | main.py:161-176 | in numeric mode `=`, `<`, `<=`, `>`, `>=` keep exactly the rows whose cell converts to a number in that relation to the parsed value; a cell that does not convert is never kept |
| FilterProperties.DatetimeOrderingKeeps | main.py:134-150 | in datetime mode with a parsed value, `<`, `<=`, `>`, `>=` keep exactly the rows whose timestamp is in that relation to the value at full precision; NaT is never kept |
| FilterProperties.TextComparisonKeeps | main.py:186-201 | in text mode `=` and `!=` keep exactly the rows whose text is or is not the stripped value, `startswith`/`endswith` those it begins or ends with (case kept), and `contains` those holding it ignoring case; a null reads as `""` |
| FilterProperties.DatetimeSubstringKeeps | main.py:156-158 | in datetime mode `contains`, `startswith` and `endswith` match the value against each timestamp in the `YYYY-MM-DD HH:MM:SS` layout, NaT reading as `""` |
| FilterProperties.NumericSubstringKeeps | main.py:182-184 | in numeric mode `contains`, `startswith` and `endswith` match the value against `str` of each converted number, NaN reading as `""` |
| FilterProperties.SameDayEqualsVersusBefore | main.py:139-144 | against noon of a day, `=` keeps a morning and an evening timestamp of that day while `<` keeps only the morning one |
| FilterProperties.AgeAboveThirty | main.py:161-174 | on the ages 25, missing, 31, 30, `> "30"` keeps only the row holding 31 when "30" reads as a number and not as a date |
| FilterProperties.SecondValueOnlyForBetween | main.py:112-116 | only `between` reads the second value |
| FilterProperties.NullOpsIgnoreValues | main.py:104-108 | the null operators read neither value |
| Engine.Step | main.py:59-65 | a filter that fails (missing column or exception) leaves the intermediate table unchanged; otherwise its result replaces it |
| Engine.Fold | main.py:58-68 | folding the filters in list order keeps the columns and an order-preserving subsequence of the rows |
| Engine.Derived | main.py:54-57 | there is a view exactly when there is a table, and the view keeps its columns and a subsequence of its rows |
| Engine.FoldAppend | main.py:58-68 | folding a concatenation folds the second list over the result of the first |
| Engine.FailedFilterIsInert | main.py:60-67 | a filter that fails can be removed from the list without changing the view; later filters still apply |
| Engine.FoldPreservesWellFormed | main.py:58-68 | the view of a well-formed table is well-formed |
| Engine.ViewRowsComeFromTable | main.py:58-68 | every row of the view is a row of the canonical table |
| Engine.DataModel.constructor | main.py:43-47 | no table, no view, no filters |
| Engine.DataModel.SetDf | main.py:49-52 | a new table drops every filter, and the view is the whole table |
| Engine.DataModel.ApplyFilters | main.py:54-68 | the loop leaves the view equal to the fold of the filters over the table, or no view without a table |
| Engine.DataModel.FilterOnce | main.py:60-67 | one pass of the loop: a filter whose column is missing or that fails is skipped, otherwise its result replaces the table |
| Engine.DataModel.AddFilter | main.py:70-72 | the filter is appended at the end, and the new view is the old view with that filter applied |
| Engine.DataModel.ClearFilters | main.py:74-76 | the list is emptied and the view is the canonical table again |
| Engine.DataModel.RemoveFilterAt | main.py:78-81 | an index out of range changes nothing; a valid index removes exactly that filter and recomputes the view |
| Panel.BuildFilter | main.py:430-451 | a filter is added exactly when a table is loaded, a column is chosen and the values the operator needs are not blank; unused values are stored empty |
| Panel.AddedBetweenHasBothBounds | main.py:440-444 | a `between` filter from the panel has two non-blank bounds |
| Panel.PanelOffersEveryOperator | main.py:351 | every operator the panel offers is one the engine understands |
| Panel.FilterLabel | main.py:409-414 | a label is the column and the operator followed by exactly the values the operator uses: its prefix, its suffix and its length are fixed in each of the three cases |
| Panel.RefreshActiveFilters | main.py:406-415 | the list box gets one label per filter, in list order |
| Render.FormatCell | main.py:328-332 | as intended: a null (NaT included) shows as an empty string, text as itself, a timestamp in the 19-character layout |
| Render.StampCellReadsBack | main.py:330-331 | a timestamp's text reads back as the same instant to the second |
| Render.PopulateRows | main.py:316-341 | as intended: no line for a frame without columns (`df.empty`); otherwise one line per row, in row order, each holding the text of every cell of its row in column order and tagged exactly when its event is today |
| Render.PrintablePrefix | main.py:325-332 | the number of rows before the first row holding a NaT in a datetime-typed column |
| Render.PopulateRowsAsWritten | main.py:316-341 | as written: no line and no error for a frame without columns; otherwise the rows before the first NaT in a datetime-typed column are shown as intended, and the rendering raises exactly when such a row exists |
| Render.FormatRowAsWritten | main.py:327-332 | as written: the cell loop raises exactly when the row holds a NaT in a datetime-typed column, and otherwise gives the intended texts |
| Render.NaTStopsRendering | main.py:330-331 | a table whose datetime column `EventNext` holds one NaT shows no line as written, where the intended line is one empty cell |
| Render.RenderLine | main.py:326-341 | the line of one row holds its cell texts and its tag |
| Render.FormatRow | main.py:328-332 | the texts of a row, one per cell, in column order |
| Render.LinesMatchHeader | main.py:328 | on a well-formed table every line holds one text per column of the header |
| Render.EventDatesAreTagDates | main.py:333-339 | on a well-formed table the dates datetime mode compares for `EventNext` are the dates the highlight tests |
| Render.EventTagAgreesWithDateFilter | main.py:333-339 | on a well-formed table the highlight marks exactly the rows that the datetime filter `EventNext = today` keeps |
| Stamps.FormatStampRoundTrip | main.py:158 | the `YYYY-MM-DD HH:MM:SS` text of a timestamp parses back to that timestamp without its sub-second part |
| Stamps.BeforeIsStrictTotalOrder | main.py:143-150 | the order on timestamps is a strict total order |
| Stamps.SameDateIffWithinDay | main.py:139-142 | sharing a calendar date is lying between the first and the last instant of that day |
| Text.StripShape | main.py:87-88 | `strip` removes exactly a whitespace prefix and a whitespace suffix, leaving no whitespace at either end |
| Text.BlankIffAllSpace | main.py:441 | a value strips to empty exactly when it is all whitespace |
| Text.DigitsRoundTrip | main.py:158 | a zero-padded decimal field reads back as its number |

## Findings

| source | as written | input that shows it | evidently intended | confidence | as-written member | corrected member |
|---|---|---|---|---|---|---|
| main.py:330-332 | the `isinstance(val, (pd.Timestamp, datetime))` test comes before `pd.isna(val)`; NaT passes it, and `strftime` on NaT raises outside any `try`, so rendering stops at that row with the earlier rows already shown | a datetime-typed `EventNext` column holding one NaT | a NaT shows as an empty cell and every row is shown | high (not executed) | Render.PopulateRowsAsWritten, Render.NaTStopsRendering | Render.PopulateRows |

## Left out

- Filters.ApplySingleFilter: comparing a time-zone-aware value with a naive column raises `TypeError` in pandas (main.py:143-155), and the fold then skips the filter; `Instant` carries no time zone, so the model applies such a filter instead.
- Filters.DecideMode: `pd.to_datetime("NaT")`, `pd.to_datetime("nan")` and `float("nan")` return NaT or NaN instead of raising, so at main.py:111 and main.py:115 such values count as parsed; the parsers here return `Option` values and cannot yield a parsed missing value.
- Filters.DecideMode: main.py:129 converts the whole series at once, and pandas infers one format from the first non-null cell; `DatetimeSeries` converts each cell on its own.
- Render.PopulateRowsAsWritten: a NaT in a column that is not datetime-typed (an object column of Timestamps) also reaches `strftime` and raises at main.py:330-331; `Cell.Null` does not tell NaT from None or NaN, so outside datetime-typed columns the model treats that cell as printable and keeps rendering.
- Render.FormatRowAsWritten: the same gap as `Render.PopulateRowsAsWritten`; a NaT outside a datetime-typed column cannot be told from None or NaN, so this member reports failure only for a null in a datetime-typed column.
- Filters.AsText: `astype("string")` at main.py:187 keeps the sub-second part of a timestamp, while the model renders a timestamp with the 19-character layout and drops it.
- **The Tk user interface:** widgets, layout, message boxes, the log panel and the other windows. The panel and the table widget are modelled only in their pure parts.
- **The random demo-data generator.** It is random and only produces input.
- **Logging** of a failed filter. A failure is modelled as `Failed`, and the fold skips it.
- **The library conversions.**
  - `float`, `pd.to_numeric`, `pd.to_datetime`, `str` of a float and regular-expression compilation are abstract functions.
  - Nothing is assumed about which strings parse.
  - `pd.to_datetime("")` is not fixed to NaT. A blank second bound is handled by the code's own `if v2` check.
- **Regular-expression semantics of `contains`.**
  - `str.contains` runs in regex mode. The model matches the needle as a literal substring, ignoring ASCII case.
  - The only regex behaviour kept is the error: a needle that does not compile makes the filter fail, and the fold then skips it.
- **Case folding** is ASCII only. Python's `case=False` also folds non-ASCII letters.
- **IEEE floats.** Numbers are exact reals, so NaN and infinities are not modelled; a missing number is `None`.
- **Number text.** Numbers use one abstract `str` in numeric and in text mode. The source's `astype("string")` and `str(float)` can render an integer column differently ("30" vs "30.0").
- **`pd.to_numeric` on a timestamp cell** is modelled as not a number.
- **Duplicate column names.** `ColumnIndex` takes the first column with a name; pandas returns a frame for duplicate names.
- **The clock.** `date.today()` is a parameter of the highlight rule.
- **`df is None`** at main.py:316 is not a case of `_populate_rows`, which here always receives a table. The `df.empty` exit is modelled: a frame without columns shows nothing, and a frame without rows has no rows to show.
- **The mode is re-decided at every step.** Stacking filters is therefore not a per-row AND of fixed predicates: the mode of a later filter can change once earlier filters have removed rows. The model keeps this behaviour and proves nothing about commuting filters.
