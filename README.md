# Column-role resolution of the sushi-market dashboard

`dashboard.py` is a Streamlit page with four tabs of charts about a survey of
sushi restaurants in Omsk. The only decisions it makes are about columns.
For each chart it finds the spreadsheet columns that play a role: prices,
satisfaction scores, counts, and the answers to fixed survey questions. It
then selects the rows that have data in those columns. Finally it decides
whether to draw the chart, show a "not found" note, or show nothing.

This project models those decisions and proves what they do. The charts
themselves are not modelled. A chart is represented by the columns and rows
it would be drawn from.

- `Text`: `str.lower` (one character at a time) and the substring test `w in s`.
- `Subsequences`: the list comprehension `[h for h in headers if p(h)]`, as
  `Keep`. Its lemmas show that `Keep` gives exactly the matching headers, in
  header order, with every copy kept, and that it is the only list that does.
  They also show that its first element is the first match.
- `ColumnRoles`: the keyword test of each role; the two `for` loops that
  build `price_columns` and `satisfaction_columns`, as methods proved
  against `Keep`; and the count column of the visit-frequency chart.
- `Frames`: a table with named columns whose cells may be empty;
  `df[[a, b]].dropna()`, `df[c].dropna()`, and `sort_values` on a count
  column.
- `Dashboard`: what each of the four tabs shows for a given table.

Not every header test is case-insensitive: the general-satisfaction phrase,
`кол-во` and `кол-во.4` are matched against the header as written, and the
model does the same. A missing column can also crash the page, and nothing in
`main` catches the exception, so the page ends at the chart that raised; see
Findings. The model therefore describes the whole page as an outcome: either
all four tabs, or the charts drawn before the exception.

## Model

| member | source | states |
|---|---|---|
| `Text.ContainsLowered` | dashboard.py:558-560 | a header that contains a lower-case keyword as written also contains it after lower-casing, so the case-sensitive test implies the case-insensitive one |
| `Text.ContainsTransitive` | dashboard.py:563-564 | a header containing a phrase contains every substring of that phrase |
| `Text.Lower` | dashboard.py:467 | `col.lower()` has the length of the header, is lower-case, and leaves a lower-case header unchanged |
| `Text.Contains` | dashboard.py:467 | `w in s` holds only when `w` is no longer than `s`, and always holds for the empty `w` |
| `Subsequences.Keep` | dashboard.py:476-478 | the filtered list is no longer than the header list, and every element of it matches |
| `Subsequences.KeepIsSelection` | dashboard.py:476-478 | the filtered list keeps header order, holds only matching headers and every copy of each, and is the only list that does all three |
| `Subsequences.KeepUnique` | dashboard.py:558-560 | any order-preserving list of only matching headers that keeps every copy of each is the filtered list |
| `Subsequences.KeepIsSubseq` | dashboard.py:547-550 | the filtered list is a subsequence of the headers (header order is kept) |
| `Subsequences.KeepCount` | dashboard.py:547-550 | a matching header occurs in the filtered list exactly as often as among the headers; a non-matching one does not occur |
| `Subsequences.KeepMembers` | dashboard.py:476-478 | a header is in the filtered list iff it is a header and matches |
| `Subsequences.KeepEmpty` | dashboard.py:470 | the filtered list is empty iff no header matches |
| `Subsequences.KeepAppend` | dashboard.py:465-468 | filtering a concatenation is concatenating the filtered parts, so each loop step appends the header iff it matches |
| `Subsequences.KeepFirst` | dashboard.py:482 | element `[0]` of the filtered list is the first header, in order, that matches |
| `Subsequences.KeepIndex` | dashboard.py:376 | element `[k]` of the filtered list is a matching header preceded by exactly k matching headers |
| `Subsequences.KeepElementsFromInput` | dashboard.py:566 | every element of the filtered list is one of the headers, so selecting it by name cannot fail |
| `ColumnRoles.ContainsAny` | dashboard.py:467 | `any(word in s for word in words)`: some keyword of the list occurs in the string |
| `ColumnRoles.IsPriceHeader` | dashboard.py:467 | the per-header test of the price loop: the lower-cased header contains one of `цена`, `цены`, `стоимость`, `руб` |
| `ColumnRoles.IsMaxPriceHeader` | dashboard.py:476 | the per-header test of `max_price_cols`: the lower-cased header contains `выше` and `цен` |
| `ColumnRoles.IsMinPriceHeader` | dashboard.py:477 | the per-header test of `min_price_cols`: the lower-cased header contains `ниже` and `цен` |
| `ColumnRoles.IsFairPriceHeader` | dashboard.py:478 | the per-header test of `fair_price_cols`: the lower-cased header contains `справедлив` and `цен` |
| `ColumnRoles.IsSatisfactionHeader` | dashboard.py:549 | the per-header test of the satisfaction loop: the lower-cased header contains one of `удовлетвор`, `оценк`, `балл`, `рейтинг` |
| `ColumnRoles.IsGeneralSatisfactionHeader` | dashboard.py:558 | the per-header test of `general_satisfaction_cols`: the header as written contains `удовлетворены суши-рестораном` |
| `ColumnRoles.IsCharacteristicsHeader` | dashboard.py:559 | the per-header test of `characteristics_cols`: the lower-cased header contains `характеристик` |
| `ColumnRoles.IsImportanceHeader` | dashboard.py:560 | the per-header test of `importance_cols`: the lower-cased header contains `важность` |
| `ColumnRoles.IsCountHeader` | dashboard.py:376 | the per-header test of `df.columns.str.contains('кол-во')` and of line 563: the header as written contains `кол-во` |
| `ColumnRoles.IsSatisfactionCountHeader` | dashboard.py:564 | the per-header test of `count_col`: the header as written contains `кол-во.4` |
| `ColumnRoles.PriceColumns` | dashboard.py:467 | `price_columns` is the exact order-preserving selection of headers whose lower-cased form contains `цена`, `цены`, `стоимость` or `руб` |
| `ColumnRoles.CollectPriceColumns` | dashboard.py:465-468 | the append loop returns exactly `PriceColumns` of the headers |
| `ColumnRoles.MaxPriceColumns` | dashboard.py:476 | `max_price_cols` is the exact selection of headers whose lower-cased form contains both `выше` and `цен` |
| `ColumnRoles.MinPriceColumns` | dashboard.py:477 | `min_price_cols` is the exact selection of headers whose lower-cased form contains both `ниже` and `цен` |
| `ColumnRoles.FairPriceColumns` | dashboard.py:478 | `fair_price_cols` is the exact selection of headers whose lower-cased form contains both `справедлив` and `цен` |
| `ColumnRoles.SatisfactionColumns` | dashboard.py:549 | `satisfaction_columns` is the exact selection of headers whose lower-cased form contains `удовлетвор`, `оценк`, `балл` or `рейтинг` |
| `ColumnRoles.CollectSatisfactionColumns` | dashboard.py:547-550 | the append loop returns exactly `SatisfactionColumns` of the headers |
| `ColumnRoles.GeneralSatisfactionColumns` | dashboard.py:558 | the exact selection of headers that contain `удовлетворены суши-рестораном` as written (case-sensitive) |
| `ColumnRoles.CharacteristicsColumns` | dashboard.py:559 | the exact selection of headers whose lower-cased form contains `характеристик` |
| `ColumnRoles.ImportanceColumns` | dashboard.py:560 | the exact selection of headers whose lower-cased form contains `важность` |
| `ColumnRoles.SatisfactionCountColumns` | dashboard.py:564 | `count_col` is the exact selection of headers that contain `кол-во.4` |
| `ColumnRoles.CountColumns` | dashboard.py:376 | the exact selection of headers that contain `кол-во` |
| `ColumnRoles.HasCountHeader` | dashboard.py:563 | `any('кол-во' in col for col in df.columns)` holds iff the selection of `кол-во` headers is non-empty |
| `ColumnRoles.FrequencyColumn` | dashboard.py:376 | with two or more `кол-во` headers, the frequency count column is the header preceded by exactly one `кол-во` header; otherwise it is the literal `кол-во`; either way its name contains `кол-во` |
| `ColumnRoles.GeneralSatisfactionIsSatisfaction` | dashboard.py:549-558 | every general-satisfaction header is also a satisfaction header |
| `ColumnRoles.SatisfactionCountIsCount` | dashboard.py:563-564 | every header containing `кол-во.4` contains `кол-во` |
| `Frames.IndexOf` | dashboard.py:355 | a header is selected by name at its first (for distinct headers, its only) position |
| `Frames.Column` | dashboard.py:482 | `df[c]` has one cell per row, and the cell of row k is the one under header `c` |
| `Frames.Pairs` | dashboard.py:355 | `df[[a, b]]` has one pair per row, and the pair of row k holds that row's cells under `a` and under `b` |
| `Frames.DropNa` | dashboard.py:355 | the paired `dropna` is no longer than its input, and each of its rows is an input row with both cells present |
| `Frames.DropNulls` | dashboard.py:482 | the single-column `dropna` is no longer than its input, and each of its cells is a present cell of the input |
| `Frames.DropNaKeepsCompleteRows` | dashboard.py:355 | `dropna` on a pair of columns keeps exactly the rows with both cells present, in their original order, each as often as it occurs |
| `Frames.SelectionKeepsCompleteRows` | dashboard.py:405 | `df[[a, b]].dropna()` is the exact order-preserving selection of the table's rows that have a cell in column `a` and in column `b` |
| `Frames.HasCompleteRow` | dashboard.py:356 | some row has a cell under both headers, the condition `not df[[a, b]].dropna().empty` tests at lines 356, 406, 428, 449, 567, 588 and 611 |
| `Frames.Selection` | dashboard.py:355-356 | the paired selection is non-empty iff some row has both cells |
| `Frames.DropNaEmpty` | dashboard.py:428 | the paired frame is empty iff no row has both cells present |
| `Frames.DropNullsKeepsPresentCells` | dashboard.py:482 | `df[c].dropna()` keeps exactly the non-empty cells of the column, in row order |
| `Frames.DropNullsEmpty` | dashboard.py:483 | a column with its empty cells dropped is empty iff all its cells are empty |
| `Frames.NumericCounts` | dashboard.py:407 | the counts of the `dropna` rows are taken as numbers iff none of those rows has a text count, and then they are the same rows with numeric counts; otherwise the sort is taken to raise `TypeError` |
| `Frames.InsertKeepsOrder` | dashboard.py:429 | inserting a row into a list ordered by count keeps it ordered and adds exactly that row |
| `Frames.SortByCount` | dashboard.py:407 | `sort_values` returns the rows ordered by count (ascending or descending) and is a permutation of its input |
| `Dashboard.PairPanel` | dashboard.py:354-356 | a two-column chart is drawn iff both headers exist and some row has both cells, and it is drawn from exactly the `dropna` rows; otherwise nothing is shown |
| `Dashboard.RankedPanel` | dashboard.py:404-429 | the known-restaurants and visited-restaurants charts are drawn under the same condition; their rows are sorted by count (ascending for known, descending for visited) and are a permutation of the `dropna` rows; the chart raises `TypeError` iff a count is text in a row that has both cells |
| `Dashboard.FrequencyPanel` | dashboard.py:375-378 | the corrected frequency chart never raises; it is drawn iff the question and the count column `FrequencyColumn` picks are both headers and some row has both cells; it puts the question against that column, whose name contains `кол-во`, over exactly the `dropna` rows |
| `Dashboard.FrequencyPanelAsWritten` | dashboard.py:375-378 | the frequency chart as written shows nothing, a chart, or a raised `KeyError`; it raises only when the count column it picked is not a header, and the error names that column |
| `Dashboard.FrequencyPanelAsWrittenRaises` | dashboard.py:375-377 | the frequency chart as written raises iff the question is present and the fallback count column is absent; it then raises a `KeyError` naming the missing column `кол-во`, which happens only with fewer than two `кол-во` headers; otherwise it agrees with the corrected chart |
| `Dashboard.FrequencyKeyErrorExample` | dashboard.py:376-377 | with headers `Как часто посещают суши-рестораны` and `кол-во.1`, the chart as written raises a `KeyError` naming `кол-во`, and the corrected chart shows nothing |
| `Dashboard.Leading` | dashboard.py:471 | the info line names the first `min(3, n)` columns, in order |
| `Dashboard.ValuePanel` | dashboard.py:481-498 | with no column for the role the place shows its "missing" outcome; otherwise it shows nothing iff every cell of the first column is empty, and a chart of the first column over exactly its present cells |
| `Dashboard.PriceTabOf` | dashboard.py:463-541 | the price tab shows its warning, with the source's text, iff no header is a price header; otherwise its section names the first three price columns in header order (at least one) and holds the max-price, min-price and fair-price places, each drawn from the first column of its role |
| `Dashboard.ValuePanelShows` | dashboard.py:481-503 | a single-column chart place shows its "missing" outcome iff no header has the role, and never a note otherwise; a chart appears iff the first matching column has a non-empty cell, and it charts that column over exactly its non-empty cells in row order; nothing is shown iff all of that column's cells are empty |
| `Dashboard.MaxPricePanel` | dashboard.py:481-498 | in the price section, the max-price note is shown iff no header matches; otherwise a chart of the first match appears iff that column has a non-empty cell, and nothing is shown iff all its cells are empty; the chart is drawn over exactly that column's non-empty cells, in row order |
| `Dashboard.MinPricePanel` | dashboard.py:501-518 | in the price section, the min-price note is shown iff no header matches; otherwise a chart of the first match appears iff that column has a non-empty cell, and nothing is shown iff all its cells are empty; the chart is drawn over exactly that column's non-empty cells, in row order |
| `Dashboard.FairPricePanel` | dashboard.py:521-523 | in the price section, the fair-price place never shows a note and shows nothing when no header matches; otherwise a chart of the first match appears iff that column has a non-empty cell, and nothing is shown iff all its cells are empty; the chart is drawn over exactly that column's non-empty cells, in row order |
| `Dashboard.GeneralPanel` | dashboard.py:562-583 | the general-satisfaction note is shown iff there is no general-satisfaction header or no `кол-во` header; with both but no `кол-во.4` header nothing is shown; with both kinds of column a chart appears iff the first of each share a complete row, and it is drawn from exactly those rows |
| `Dashboard.CharacteristicsPanel` | dashboard.py:585-606 | the characteristics note is shown iff there is no characteristics header or no header named `балл`; otherwise a chart appears iff the first characteristics column and `балл` share a complete row, and it is drawn from exactly those rows |
| `Dashboard.ImportancePanel` | dashboard.py:608-626 | the importance place never shows a note; without an importance header or a header named `%` it shows nothing; otherwise a chart appears iff the first importance column and `%` share a complete row, and it is drawn from exactly those rows |
| `Dashboard.SatisfactionTabOf` | dashboard.py:543-636 | the satisfaction tab shows its warning, with the source's text, iff no header is a satisfaction header; otherwise its section names the first three satisfaction columns and holds the three places above; a sheet with the general-satisfaction question always gets the section |
| `Dashboard.DrawUntilRaised` | dashboard.py:340-636 | drawing a sequence of charts stops at the first one that raises: what is drawn is the prefix before it, none of which raised, and the error is that chart's; with no exception every chart is drawn |
| `Dashboard.Draw` | dashboard.py:340-636 | the page ends iff one of its five attendance and restaurants charts raises; it then shows exactly the charts before the first one that raised, with that chart's error, and neither later tab; otherwise all four tabs appear in order |
| `Dashboard.DrawStopsInRestaurants` | dashboard.py:397-429 | when only the known-restaurants and visited-restaurants charts raise, and only `TypeError`, the page ends iff one of them does, after both attendance charts and (when it was the visited chart) the known-restaurants chart |
| `Dashboard.PageWith` | dashboard.py:340-636 | with a visit-frequency chart that does not raise, the page ends iff a known-restaurants or visited-restaurants count is text in a row that has both cells, with `TypeError`, after the attendance tab; otherwise every chart and both later tabs are those of the table |
| `Dashboard.PageOf` | dashboard.py:340-636 | the corrected page ends iff a known-restaurants or visited-restaurants count is text in a row that has both cells, with `TypeError`, after the purpose chart and the corrected frequency chart; otherwise it shows all four tabs: the purpose chart, the corrected frequency chart, the three restaurants charts, the price tab and the satisfaction tab |
| `Dashboard.DrawStopsAtFrequency` | dashboard.py:373-377 | a frequency chart that raises ends the page right after the purpose chart, with its error |
| `Dashboard.PageAsWritten` | dashboard.py:340-636 | the page as written ends right after the purpose chart with a `KeyError` naming `кол-во` whenever the frequency chart raises, and is otherwise the corrected page |
| `Dashboard.KeyErrorSheetFallsBack` | dashboard.py:376 | with headers `Как часто посещают суши-рестораны` and `кол-во.1`, the frequency count column is `кол-во`, which is not a header |
| `Dashboard.FrequencyKeyErrorEndsPage` | dashboard.py:375-377 | on that sheet the page as written ends after the empty purpose chart with a `KeyError` naming `кол-во`, while the corrected page appears in full |
| `Dashboard.TextCountRaises` | dashboard.py:404-407 | a known-restaurants count column holding a number and a text cell makes `sort_values` raise `TypeError` |
| `Dashboard.TextCountSheetHasPrices` | dashboard.py:465-470 | that sheet has a price header, so its price tab would show the section |
| `Dashboard.TextCountSheetAttendanceEmpty` | dashboard.py:352-378 | that sheet has neither attendance question, so both attendance charts show nothing, as written and corrected |
| `Dashboard.EmptyAttendanceThenTextCountEndsPage` | dashboard.py:347-407 | on any sheet with empty attendance charts and a text known-restaurants count, the page ends with `TypeError` after those two charts, as written and corrected |
| `Dashboard.TextCountEndsPageExample` | dashboard.py:347-407 | on that sheet the page ends with `TypeError` after the two empty attendance charts, as written and corrected, so its price section never appears |

## Left out

- Rendering: the page, markdown and CSS; the Plotly figures and their colours,
  titles and axes; `create_custom_chart`; `get_streamlit_layout`. A chart is
  modelled only by the columns and rows it is drawn from.
- `get_font_setup`, which probes the file system (both of its branches
  choose the same font).
- `load_data`, which reads the Excel file. It is Excel I/O behind a cache.
  The model takes the resulting table as input.
- The colour-scheme selection, the sidebar checkboxes that show the raw
  table and the column list, and the four metric cards. The cards use `len`,
  a float fill ratio that divides by zero on an empty table, and pandas'
  dtype inference.
- The comparative statistics. `select_dtypes` and `describe().round(2)` are
  float statistics over pandas dtypes.
- Dashboard.Leading: the info line is modelled by the names it lists. The
  `', '.join` and the trailing `...` are not modelled.
- Text.LowerChar: lower-cases only Latin A-Z and the Cyrillic capitals
  U+0400-U+042F. Python's `str.lower` also maps other scripts, and a few
  characters become more than one character. Survey headers in other scripts
  are therefore not lower-cased by the model.
- Frames.SortByCount: states only sortedness and permutation. The order of
  rows with equal counts is left open, because pandas' default sort is not
  stable.
- Frames.NumericCounts: treats every text count as the cause of a `TypeError`.
  pandas raises only when text and numbers are compared, so it sorts an
  all-text count column (or a single row) as strings instead. Ordering
  strings is not modelled.
- Dashboard.RankedPanel: raises `TypeError` whenever a row of the `dropna`
  frame has a text count, for the reason on the `Frames.NumericCounts` line.
- Frames.WellFormed: assumes the headers are distinct, as `pd.read_excel`
  makes them. Selecting a duplicated header is not modelled. Numeric cells
  are real numbers, with no integer/float distinction.
- Exceptions are modelled for the five charts of the attendance and
  restaurants tabs only. The model assumes the price and satisfaction tabs
  and the metric cards never raise, and it does not model errors Plotly may
  raise on values it cannot draw.
- Headers that are not strings are not modelled. On such a header,
  `col.lower()` would raise.
- `dashboard.py` does no cleaning of spreadsheet error tokens, no rescaling
  of scores, no minimum-observation thresholds and no headline KPIs, so the
  model has none either.

## Findings

| source | as written | input that shows it | evidently intended | confidence | as-written member | corrected member |
|---|---|---|---|---|---|---|
| dashboard.py:376-377 | with fewer than two `кол-во` headers, the frequency chart falls back to the column `кол-во` and selects it without checking that it exists, so `df[[...]]` raises `KeyError` | headers `Как часто посещают суши-рестораны`, `кол-во.1` | skip the chart when its count column is missing, as every other chart does | medium; not executed | `Dashboard.FrequencyPanelAsWritten` and `Dashboard.PageAsWritten` (shown by `Dashboard.FrequencyKeyErrorExample` and `Dashboard.FrequencyKeyErrorEndsPage`) | `Dashboard.FrequencyPanel` and `Dashboard.PageOf` |
