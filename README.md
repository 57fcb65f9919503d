# investment_analysis core, modelled in Dafny

This project models the three computational cores of the `investment_analysis`
pipeline. The pipeline loads fund report CSV files into SQLite, reconciles fund
prices against master reference prices, and names the best-performing fund of
each month.

- **Price reconciliation** (`PriceReconciler.run_reconciliation`, module
  `PriceReconciliation`). The two SQL queries, numeric coercion and identifier
  normalisation. The combined timeline of reference rows and fund report points,
  its stable sort by identifier and date, and the forward fill of prices within
  each identifier. The left merge back onto the positions, the price difference,
  and the difference statistics. The forward fill is a `method` with a loop, as
  in the source. It is proved to give each fund report point the *last available
  price*: the latest reference price of its identifier dated on or before the
  report date.
- **Performance attribution** (`PerformanceCalculator.run_attribution`, module
  `PerformanceReport`). The `GROUP BY` aggregation with SQL `SUM` semantics and
  the sort by fund and date. The `groupby(...).shift(1)` lag, and the rate of
  return, with IEEE division by zero giving infinities or NaN. `dropna`, and the
  `idxmax` choice of each month's best fund, where the first row wins a tie.
- **File validation** (module `FundInfo`, with worked examples in
  `FundInfoExamples`, and module `Preprocess`):
  - `_extract_fund_info` and its inner `normalize_date`. This covers the four
    date regular expressions, as a backtracking digit scanner and a leftmost
    search. It also covers the month/day swap rules, the ISO rendering with
    `zfill`, and the fund name cleaning.
  - `_preprocess_dataframe`. This covers header normalisation, dropping empty
    columns, the constant `fund_name`/`eom_date` columns, and symbol clean-up.
    It also covers the market-value quality check with its row drop,
    `to_numeric` coercion, `fillna`, and the final column selection.
    `ExtractFundInfo` and `Preprocess` are methods that follow the source's
    loops step by step. Each is proved equal to a specification function, and
    the properties are proved about that function.

Shared modules:

- `Strings`: `str.strip`, `zfill`, `lower`, `find`, `split(...)[0]` and
  `replace`, on `seq<char>`.
- `Numeric`: cells and `pd.to_numeric(errors='coerce')`.
- `Sorting`: stable sort, `DISTINCT`, counting and filtering.
- `Dates`, and `Wrappers` (`Option`/`Result`).

Python exceptions are modelled as `Err` values:
- `KeyError` for a missing column, or `KeyError('second')`, which the ambiguous-date
  fallback raises as written (see Findings). `FundInfoOf` is the extraction as
  written. `FundInfoOfIntended` is the same extraction with the fallback
  corrected.
- `ValueError` and `IndexError` from `normalize_date`.
- "no valid date pattern".

One cross-file consequence is worth knowing. In a file where at least one
symbol is present, `_preprocess_dataframe` turns each missing symbol into the
text `nan` (`MissingSymbolIsNan`). For those rows the `COALESCE(symbol, isin)`
of the reconciliation query never falls back to the ISIN. A file whose `symbol`
column is absent, or empty in every row, is different. Line 23 drops such a
column, and the result has no `symbol` column (`SymbolReturnedIffPresent`).
When the files are concatenated and written to the database, those rows hold
NULL there, so COALESCE does fall back to the ISIN for them. The concatenation
and the database write are not part of this model.

## Model

| member | source | states |
|---|---|---|
| PriceReconciliation.Coalesce | src/price_reconciliation.py:26 | the symbol when it is not NULL, otherwise the ISIN |
| PriceReconciliation.InstrumentsQuery | src/price_reconciliation.py:22-30 | `SELECT DISTINCT`: no duplicate rows, and a row is present iff some position selects to it |
| PriceReconciliation.MasterPricesQuery | src/price_reconciliation.py:32-46 | `UNION ALL`: every equity row keyed by symbol, then every bond row keyed by ISIN, in order |
| PriceReconciliation.NormalizeIdentifier | src/price_reconciliation.py:61 | NULL becomes `""`; the result is a slice of the input that starts and ends outside Python whitespace |
| PriceReconciliation.NormalizeIdempotent | src/price_reconciliation.py:61 | normalising an identifier again changes nothing |
| PriceReconciliation.NullMatchesBlank | src/price_reconciliation.py:61 | a NULL identifier and an all-blank identifier normalise alike, so they join each other |
| PriceReconciliation.Instruments | src/price_reconciliation.py:49-61 | one coerced and normalised row per row of the instruments query, in order |
| PriceReconciliation.MasterPrices | src/price_reconciliation.py:50-61 | one coerced and normalised row per reference row, in order |
| PriceReconciliation.LatestRef | src/price_reconciliation.py:64-79 | the chosen reference row qualifies (same identifier, not later, has a price), and every qualifying row is no later than it |
| PriceReconciliation.TimelineOrder | src/price_reconciliation.py:76 | the identifier-then-date order is a strict weak order, so the stable sort is well defined |
| PriceReconciliation.SortedTimeline | src/price_reconciliation.py:73-76 | the sorted timeline is a permutation of the concatenation |
| PriceReconciliation.SortedTimelineFacts | src/price_reconciliation.py:73-76 | the sorted timeline has no inversion and holds exactly the rows of the concatenation, each at its recorded position |
| PriceReconciliation.LastPriced | src/price_reconciliation.py:79 | the last row of the identifier with a price among a prefix, and no later priced row of it precedes the bound |
| PriceReconciliation.ForwardFill | src/price_reconciliation.py:79 | the loop's fill at each row is the last price seen in that row's identifier group, up to and including the row |
| PriceReconciliation.LastPriceStep | src/price_reconciliation.py:79 | one more row changes only its own identifier's fill, and only when it carries a price |
| PriceReconciliation.QualifyingRefIsEarlier | src/price_reconciliation.py:73-76 | every reference row that can price a fund point is sorted before it |
| PriceReconciliation.FilledIsLatest | src/price_reconciliation.py:73-79 | the forward-filled price at a fund report point is the last available reference price for its identifier and date |
| PriceReconciliation.FundFills | src/price_reconciliation.py:82 | the fund report rows, each with its filled price |
| PriceReconciliation.FillRowCount | src/price_reconciliation.py:73-82 | `reconciliation_df` holds as many rows of a key as there are positions with that key |
| PriceReconciliation.FillRowsAreLatest | src/price_reconciliation.py:73-82 | every row of `reconciliation_df` carries the last available price of its key |
| PriceReconciliation.MatchRows | src/price_reconciliation.py:85-89 | a left row joins once per right row with its key |
| PriceReconciliation.MergeIsExpected | src/price_reconciliation.py:85-89 | the left merge is each position, in order, repeated once per position sharing its key, with the last available price |
| PriceReconciliation.Difference | src/price_reconciliation.py:94-97 | NULL iff either side is NULL; otherwise difference + filled == reported |
| PriceReconciliation.Outputs | src/price_reconciliation.py:118-123 | one output row per merged row, in order |
| PriceReconciliation.RunReconciliation | src/price_reconciliation.py:16-129 | the method's result is the output of the expected merge of the normalised positions and reference prices |
| PriceReconciliation.UniqueKeyCount | src/price_reconciliation.py:85-89 | with unique keys, each position's key occurs once |
| PriceReconciliation.OneRowPerPosition | src/price_reconciliation.py:85-89 | with unique keys the merge has one row per position, in order |
| PriceReconciliation.UniqueKeysResult | src/price_reconciliation.py:85-123 | with unique keys, output row k is position k with its last available price and difference |
| PriceReconciliation.EmptyPositions | tests/test_price_reconciliation.py:76-87 | no positions give no rows |
| PriceReconciliation.LastAvailablePrice | src/price_reconciliation.py:64-79 | the filled price is NULL iff no reference row qualifies; otherwise it comes from a qualifying row no other qualifying row postdates |
| PriceReconciliation.ExactDateWins | src/price_reconciliation.py:73-79 | when some reference row prices the identifier on the position's own date, the filled price is a price of that identifier from that date |
| PriceReconciliation.UnusableRefIgnored | src/price_reconciliation.py:73-79 | a reference row without a price, with another identifier, or dated later never changes the filled price |
| PriceReconciliation.BasicScenario | tests/test_price_reconciliation.py:32-65 | AAPL matches exactly, BOND1 differs by -1, GOOGL takes the 15 January price, and an unknown identifier gets NULL |
| PriceReconciliation.Abs | src/price_reconciliation.py:111-113 | a non-negative value equal to x or -x |
| PriceReconciliation.AbsDiffs | src/price_reconciliation.py:111-113 | the non-NULL absolute differences, all non-negative |
| PriceReconciliation.MaxOf | src/price_reconciliation.py:112 | NULL iff there are no values; otherwise a member at least as large as every value |
| PriceReconciliation.Statistics | src/price_reconciliation.py:109-114 | the total is the row count; the difference count is at most it; the max is NULL iff every difference is NULL |
| PriceReconciliation.NoDiffsNoValues | src/price_reconciliation.py:112-113 | there are no absolute differences iff every difference is NULL |
| PriceReconciliation.DiffCountIgnoresNulls | src/price_reconciliation.py:111 | the count above tolerance is taken over the non-NULL differences only |
| PriceReconciliation.MeanWithinMax | src/price_reconciliation.py:112-113 | the mean is NULL exactly when the max is; otherwise 0 <= mean <= max |
| PriceReconciliation.SharedKeyRowsMultiply | src/price_reconciliation.py:85-89 | two positions sharing identifier and date come out as four rows |
| PriceReconciliation.FirstPerKey | src/price_reconciliation.py:86 | the deduplicated rows are rows of the input |
| PriceReconciliation.FirstPerKeyCount | src/price_reconciliation.py:86 | after deduplication each present key occurs exactly once |
| PriceReconciliation.RunReconciliationOnce | src/price_reconciliation.py:16-129 | with `reconciliation_df` deduplicated, one row per position, in order, with its last available price |
| PriceReconciliation.DeduplicatedMerge | src/price_reconciliation.py:85-89 | after deduplication the merge pairs each position with its last available price |
| PerformanceReport.SqlSum | src/performance_report.py:20-21 | SQL `SUM` is NULL iff every value is NULL |
| PerformanceReport.SqlSumAppend | src/performance_report.py:20-21 | summing in two parts and adding them gives the sum of the whole |
| PerformanceReport.GroupOf | src/performance_report.py:16-25 | the aggregate row of a group carries that group's date and fund |
| PerformanceReport.GroupKeys | src/performance_report.py:23 | each group present, once |
| PerformanceReport.GroupRowsMembers | src/performance_report.py:16-25 | an aggregate row is present iff it is the aggregate of some position's group |
| PerformanceReport.GroupRowsDistinct | src/performance_report.py:23 | no aggregate row repeats |
| PerformanceReport.Aggregate | src/performance_report.py:16-25 | one row per group present, without duplicates |
| PerformanceReport.AggregationQuery | src/performance_report.py:16-27 | the query result, in `ORDER BY` order, is a permutation of the aggregate |
| PerformanceReport.FundDateOrder | src/performance_report.py:37 | the fund-then-date order is a strict weak order |
| PerformanceReport.ByFund | src/performance_report.py:36-37 | the sorted frame is a permutation of the query result |
| PerformanceReport.GroupDeterminesRow | src/performance_report.py:23 | two aggregate rows of the same group are the same row |
| PerformanceReport.ByFundIsStrict | src/performance_report.py:23-37 | after the sort, rows are strictly ordered by fund then date |
| PerformanceReport.LastOfFund | src/performance_report.py:40 | the last earlier row of the fund, with no later row of that fund before the bound |
| PerformanceReport.LagIsPreviousMonth | src/performance_report.py:40 | the lagged row is the fund's latest earlier month, however far back; there is none iff the month is the fund's first |
| PerformanceReport.Divide | src/performance_report.py:47-49 | finite iff the divisor is non-zero, with quotient * divisor == dividend; NaN iff 0/0; +inf iff positive/0 |
| PerformanceReport.RateOfReturn | src/performance_report.py:47-49 | defined only when all three operands are; a finite rate satisfies rate * start == end - start + p/l |
| PerformanceReport.Performance | src/performance_report.py:40-49 | one row per aggregate row, carrying the lag and the rate |
| PerformanceReport.RorFrame | src/performance_report.py:52 | exactly the rows with a rate (an infinite rate is kept) |
| PerformanceReport.FirstMonthDropped | src/performance_report.py:42-52 | a fund's first month has no rate and is dropped |
| PerformanceReport.UnnamedFundDropped | src/performance_report.py:40-52 | a row without a fund name never has a rate |
| PerformanceReport.FirstBest | src/performance_report.py:57 | `idxmax`: a row of the month at least as high as every row of it, and strictly higher than those before it |
| PerformanceReport.Months | src/performance_report.py:57 | the months that have a row, each once |
| PerformanceReport.MonthsAscending | src/performance_report.py:57 | the groups come in ascending date order |
| PerformanceReport.BestPerMonth | src/performance_report.py:57-68 | one row per month, ascending; each is a row of that month whose rate is at least every rate of that month |
| PerformanceReport.TieGoesToFirstFund | src/performance_report.py:57 | on a tie the fund that sorts first wins |
| PerformanceReport.RorRows | src/performance_report.py:27-52 | every kept row has a rate |
| PerformanceReport.RorRowsOrdered | src/performance_report.py:37-52 | the kept rows stay in fund-then-date order |
| PerformanceReport.RunAttribution | src/performance_report.py:12-71 | the empty frame iff there are no positions; otherwise the best row of each month of the kept rows |
| PerformanceReport.RorRowsNamed | src/performance_report.py:40-52 | every kept row names its fund |
| PerformanceReport.ReportNamesFunds | tests/test_performance_calculator.py:24-40 | every report row names a fund, and its rate is not NaN |
| PerformanceReport.ExampleLag | tests/test_performance_calculator.py:12-22 | January rows have no start value; February lags onto January |
| PerformanceReport.ExamplePerformance | tests/test_performance_calculator.py:30-33 | only the February rows get rates, 0.13 and -0.055 |
| PerformanceReport.ExampleRorFrame | tests/test_performance_calculator.py:34 | the kept rows are the two February rows |
| PerformanceReport.ExampleMonths | tests/test_performance_calculator.py:34-36 | the kept rows span one month |
| PerformanceReport.ExampleBest | tests/test_performance_calculator.py:50-53 | FundA wins February at 0.13 |
| PerformanceReport.FebruaryWinner | tests/test_performance_calculator.py:42-53 | the report of the fixture is one row: February, FundA, 0.13 |
| FundInfo.Others | src/data_validation.py:87 | exactly the candidates other than the chosen year |
| FundInfo.NormalizeDate | src/data_validation.py:70-98 | a returned date reads back as an ISO date with the year in 1900-2100, the month in 1-12 and the day in 1-31 |
| FundInfo.NormalizeDateOutcome | src/data_validation.py:75-98 | for two-digit month and day: success iff the year is in range and the (swapped) month and day are valid, with that date's ISO text |
| FundInfo.OutOfRangeYearFails | src/data_validation.py:82-92 | the two-digit-year rule never yields a date |
| FundInfo.OutOfRangeError | src/data_validation.py:82-92 | outside 1900-2100 the error is `IndexError` iff all three values are the same number above 31, and `ValueError` otherwise |
| FundInfo.OutOfRangeSymmetric | src/data_validation.py:82-88 | with the year out of range, month and day play symmetric parts |
| FundInfo.SwapRule | src/data_validation.py:78-81 | with the year in range and the month above 12, month and day may be given either way round |
| FundInfo.NoDaysInMonthCheck | src/data_validation.py:93-98 | 2023-02-31 is accepted |
| FundInfo.IsoTextRoundTrip | src/data_validation.py:98 | the rendered date has ten characters and reads back as the year, month and day |
| FundInfo.MatchFrom | src/data_validation.py:121 | a match found at a position conforms to the pattern's tokens |
| FundInfo.TryDigits | src/data_validation.py:121 | backtracking gives a group at most the digits offered, and the result conforms |
| FundInfo.MatchFromComplete | src/data_validation.py:121 | the scanner misses no match: whenever the tokens can match at a position, it finds one |
| FundInfo.SearchFrom | src/data_validation.py:121 | `re.search`: the match is at the leftmost position where one exists |
| FundInfo.Search | src/data_validation.py:121 | a found match conforms to the pattern |
| FundInfo.MatchedText | src/data_validation.py:146 | `match.group()` is the covered text, found at the match start |
| FundInfo.MatchedTextFirstOccurrence | src/data_validation.py:146 | the matched text first occurs where the match starts, so `split(...)[0]` is the text before the match |
| FundInfo.Group | src/data_validation.py:124 | a captured group is all digits, with a length within the group's bounds |
| FundInfo.Patterns | src/data_validation.py:105-114 | four patterns, each naming its groups with at most two digits for month, day, first and second |
| FundInfo.AmbiguousDate | src/data_validation.py:125-136 | corrected fallback: the month-first date when there is one; a success after a month-first failure follows a `ValueError` and is the day-first date |
| FundInfo.AmbiguousDateAsWritten | src/data_validation.py:125-136 | as written: the month-first date when there is one; a `ValueError` turns into `KeyError('second')` |
| FundInfo.AsWrittenRaisesKeyError | src/data_validation.py:127-136 | groups 13, 32, 2023 raise `KeyError('second')` as written and `ValueError` as intended |
| FundInfo.RetryNeverRescues | src/data_validation.py:125-136 | for two-digit groups the day-first retry never rescues a date month first rejected |
| FundInfo.AsWrittenAgreesOnDates | src/data_validation.py:125-136 | the code as written and the corrected fallback succeed on the same inputs, with the same date |
| FundInfo.Basename | src/data_validation.py:102 | the text after the last `/`, which holds no `/` |
| FundInfo.Stem | src/data_validation.py:102 | `splitext(...)[0]`: drops from the last `.` unless only dots precede it |
| FundInfo.CleanFundName | src/data_validation.py:149-156 | the cleaned fund name starts and ends outside ` .-_` |
| FundInfo.FirstMatch | src/data_validation.py:117-143 | the first pattern, in order, that occurs, and its leftmost match; every earlier pattern has none |
| FundInfo.ExtractFundInfo | src/data_validation.py:100-159 | the loop's result equals the specification `FundInfoOf` of the code as written, `KeyError('second')` included |
| FundInfo.DateOfAgreesWithIntended | src/data_validation.py:113-136 | the date of a match as written and as intended succeed together with the same date; where they differ, the code as written raises `KeyError('second')` and the intended code `ValueError` |
| FundInfo.FundInfoAgreesWithIntended | src/data_validation.py:100-159 | the same for the whole extraction: the same name and date whenever either succeeds, and otherwise `KeyError('second')` as written against `ValueError` as intended |
| FundInfo.NoPatternNoInfo | src/data_validation.py:142-143 | "no valid date pattern" iff none of the four patterns occurs |
| FundInfo.DateOfNeverNoPattern | src/data_validation.py:120-140 | a found date fails only with the errors of `normalize_date` |
| FundInfo.FirstPatternDecides | src/data_validation.py:120-140 | the first pattern that occurs decides the date or the error, even when a later one would give a valid date |
| FundInfo.FundNameBeforeDate | src/data_validation.py:146-156 | the fund name is the cleaned text before the first matched date |
| FundInfo.ExtractedDateIsValid | src/data_validation.py:90-98 | a returned date is an ISO text in 1900-2100, 1-12, 1-31 |
| FundInfo.DateOfIsValid | src/data_validation.py:90-98 | the date of any match is a valid ISO text when it succeeds |
| FundInfoExamples.ReportFileInfo | tests/test_data_validation.py:27 | `rpt-GlobalFund.2023-12-25.csv` gives `('GlobalFund', '2023-12-25')` |
| FundInfoExamples.FirstMatchOfReport | tests/test_data_validation.py:27 | the first pattern matches that name at position 15 |
| FundInfoExamples.NameOfReport | tests/test_data_validation.py:27 | `rpt-GlobalFund.` cleans to `GlobalFund` |
| FundInfoExamples.MonthlyFileInfo | tests/test_data_validation.py:28 | `TT_monthly_AsiaFund.20230228.csv` gives `('AsiaFund', '2023-02-28')` |
| FundInfoExamples.FirstMatchOfMonthly | tests/test_data_validation.py:28 | neither separated pattern occurs in that name, so the compact `YYYYMMDD` pattern decides, matching at position 20 |
| FundInfoExamples.FundAFileInfo | tests/test_data_validation.py:26 | `FundA.2023-01-31.csv` gives `('FundA', '2023-01-31')` |
| FundInfoExamples.NoDigitsBeforeSeparator | src/data_validation.py:107-109 | a pattern that needs digits followed by a separator finds nothing where no digits end before a separator |
| FundInfoExamples.AmbiguousFileRaisesKeyError | src/data_validation.py:125-136 | `Fund.13-32-2023.csv` raises `KeyError('second')` as written and `ValueError` with the intended fallback |
| Preprocess.CollapseRuns | src/data_validation.py:20 | `re.sub('[^a-z0-9]+', '_')`: only `[a-z0-9_]` remains, without a double underscore, ending in `_` iff the input ends outside `[a-z0-9]` |
| Preprocess.CollapseKeepsWords | src/data_validation.py:20 | the letters and digits survive, in order |
| Preprocess.CollapseClean | src/data_validation.py:20 | a clean header is left as it is |
| Preprocess.NormalizeHeader | src/data_validation.py:20 | the header is `[a-z0-9_]`, has no double underscore, and does not start or end with `_` |
| Preprocess.HeaderIdempotent | src/data_validation.py:20 | normalising a normalised header changes nothing |
| Preprocess.HeaderKeepsWords | src/data_validation.py:20 | the header's lower-cased letters and digits are those of its normalised form |
| Preprocess.RenamedKeys | src/data_validation.py:20 | a column name is present iff some header normalises to it |
| Preprocess.RenamedColumn | src/data_validation.py:20 | with distinct normalised headers each column keeps its cells under its new name |
| Preprocess.RemoveNoise | src/data_validation.py:32 | removing `X_`, `SEC-` and `FIN-` never lengthens the text |
| Preprocess.RemoveNoiseUnchanged | src/data_validation.py:32 | the removal changes nothing iff none of the prefixes occurs |
| Preprocess.RemoveNoiseNotIdempotent | src/data_validation.py:32 | one pass is not idempotent: `SESEC-C-` becomes `SEC-`, which a second pass turns into the empty text |
| Preprocess.CleanSymbol | src/data_validation.py:32 | the cleaned text starts and ends outside Python whitespace and is no longer than `astype(str)` of the cell |
| Preprocess.CleanSymbolUnchanged | src/data_validation.py:32 | cleaning leaves a text alone iff no prefix occurs and it has no surrounding whitespace |
| Preprocess.MissingSymbolIsNan | src/data_validation.py:32 | a missing symbol becomes the text `nan` |
| Preprocess.CleanColumns | src/data_validation.py:30-32 | the listed columns that are present hold clean text; the others and the shape are unchanged |
| Preprocess.CleanTextColumns | src/data_validation.py:30-32 | the loop's table equals the specification `CleanColumns` |
| Preprocess.RowMask | src/data_validation.py:38 | a row is kept iff both `market_value` and `realised_p_l` are present |
| Preprocess.Select | src/data_validation.py:38 | one element per marked position |
| Preprocess.DropRows | src/data_validation.py:38 | the row drop keeps the columns and the shape |
| Preprocess.Coerced | src/data_validation.py:44 | a coerced cell is never text, and is a number iff `to_numeric` converts it |
| Preprocess.CoerceColumns | src/data_validation.py:42-44 | each listed column that is present holds, cell by cell, `to_numeric` of its cells (so no text); the others and the shape are unchanged |
| Preprocess.CoerceColumnShape | src/data_validation.py:44 | coercing one column converts each of its cells and leaves the others and the shape alone; coercing twice is coercing once |
| Preprocess.FillZeroShape | src/data_validation.py:47-48 | `fillna(0.0)` puts `0.0` in the missing cells, keeps every other cell and column, and turns a text-free column into numbers |
| Preprocess.FilledCoerced | src/data_validation.py:44-48 | coercing then filling a cell gives its number, or `0.0` for a NULL or a text that does not convert |
| Preprocess.FilledCells | src/data_validation.py:47-48 | after both `fillna` calls `realised_p_l` and `quantity` have `0.0` in their missing cells, and every other cell is as it was |
| Preprocess.FillCoercedCells | src/data_validation.py:42-48 | a column holding coerced cells ends as `NumberOrZero` of the original cells if it is filled, and as their coercion otherwise |
| Preprocess.FinishCells | src/data_validation.py:42-48 | lines 42-48 cell by cell on a numeric column: `NumberOrZero` for `realised_p_l` and `quantity`, `to_numeric` for the others |
| Preprocess.CoerceNumericColumns | src/data_validation.py:42-45 | the loop's table equals the specification `CoerceColumns` |
| Preprocess.PreparedHas | src/data_validation.py:20-32 | after line 32 a column is present iff it is a constant column or survives the empty-column drop |
| Preprocess.QualityOutcome | src/data_validation.py:34-39 | the two `KeyError`s, the kept column set, and the rows left |
| Preprocess.CheckedOutcome | src/data_validation.py:34-39 | the quality check fails only for a missing `market_value`, or a missing `realised_p_l` when some market value is missing; otherwise every column is kept |
| Preprocess.FilledOutcome | src/data_validation.py:47-48 | `fillna` fails for the first of `realised_p_l` and `quantity` that is missing, and otherwise keeps every column |
| Preprocess.ProcessedOutcome | src/data_validation.py:20-48 | the errors of lines 20-48 and when each arises |
| Preprocess.PreprocessOutcome | src/data_validation.py:16-55 | the result is `KeyError('market_value')`, `KeyError('realised_p_l')` or `KeyError('quantity')` exactly when that column is absent (in that order of checking); otherwise a table |
| Preprocess.EmptyFileFails | src/data_validation.py:23-35 | a file without rows loses every column and fails on `market_value` |
| Preprocess.KeptRowsBound | src/data_validation.py:35-38 | no row is lost unless a market value is missing, and the count never grows |
| Preprocess.CheckedRows | src/data_validation.py:35-39 | after line 39 the table has the rows `KeptRows` counts and the kept columns |
| Preprocess.PreparedText | src/data_validation.py:26-32 | after line 32 the constant columns hold the fund name and the date, and the text columns hold clean text |
| Preprocess.CheckedText | src/data_validation.py:26-39 | the row drop keeps the constant and clean text columns |
| Preprocess.FinishShape | src/data_validation.py:42-48 | `realised_p_l` and `quantity` hold only numbers, the other numeric columns no text, and the rest is unchanged |
| Preprocess.ProcessedNumbers | src/data_validation.py:42-48 | after line 48 `realised_p_l` and `quantity` hold only numbers, and the numeric columns no text |
| Preprocess.ProcessedRows | src/data_validation.py:35-48 | after line 48 the rows are those kept at line 39 and the columns are the kept ones |
| Preprocess.ProcessedText | src/data_validation.py:26-48 | after line 48 the constant and text columns are as prepared |
| Preprocess.ProcessedCells | src/data_validation.py:35-48 | after line 48 each cell of a numeric column is the cell kept at line 39, converted by `NumberOrZero` (`realised_p_l`, `quantity`) or `to_numeric` (`price`, `market_value`) |
| Preprocess.Selected | src/data_validation.py:51-55 | the required columns that are present, in the required order, each with its cells |
| Preprocess.TableColumnShaped | src/data_validation.py:26-48 | each column of a table with the prepared text and number facts is shaped as its name says |
| Preprocess.PreprocessNames | src/data_validation.py:51-55 | the result's column names are exactly the required columns that were kept, in the required order, and include `fund_name` and `eom_date` |
| Preprocess.ReturnedIffKept | src/data_validation.py:23-55 | a name is among the returned columns iff it is required and kept (a constant, or present with some value) |
| Preprocess.SymbolReturnedIffPresent | src/data_validation.py:23-55 | a `symbol` column is returned iff the file has one with at least one value |
| Preprocess.PreprocessCells | src/data_validation.py:16-55 | each returned column carries the processed table's cells: one per kept row, holding the fund name, the date, clean text, numbers or no text as its name says |
| Preprocess.Preprocess | src/data_validation.py:16-55 | the step-by-step method's result equals the specification `PreprocessSpec` |
| Strings.StripIsMiddle | src/price_reconciliation.py:61 | `strip()` keeps the middle of the text between two runs of stripped characters, starting and ending outside them |
| Strings.StripIdempotent | src/price_reconciliation.py:61 | stripping twice is stripping once |
| Strings.StripUnchanged | src/data_validation.py:32 | `strip()` leaves a text alone iff it starts and ends outside the set |
| Strings.DecimalString | src/data_validation.py:98 | `str(n)`: digits without a leading zero whose value is n |
| Strings.ZFill | src/data_validation.py:98 | `zfill`: left-pads with `0` to the width, keeping the text |
| Strings.TwoDigitPadding | src/data_validation.py:98 | `str(n).zfill(2)` for n < 100 is two digits whose value is n |
| Strings.Lower | src/data_validation.py:20 | `lower()` maps each ASCII capital to its small letter and keeps every other character |
| Strings.BeforeFirst | src/data_validation.py:146 | `split(sep)[0]`: the text before the first occurrence of the separator, or all of it |
| Strings.RemoveAll | src/data_validation.py:150-154 | `replace(token, '')` never lengthens the text |
| Strings.IndexOfFrom | src/data_validation.py:146 | the first occurrence at or after a position |
| Numeric.ToNumeric | src/price_reconciliation.py:56 | NULL stays NULL, a number passes through, and text converts only when it holds a digit |
| Numeric.NumberNeedsDigit | src/data_validation.py:44 | text without a digit becomes NULL |
| Numeric.ParseWholeNumber | src/data_validation.py:44 | the text of a whole number converts back to it |
| Numeric.NegativeText | src/data_validation.py:44 | a minus sign followed by digits converts to the negated value |
| Sorting.SortIsOrdered | src/price_reconciliation.py:76 | the stable sort leaves no inversion |
| Sorting.Sort | src/performance_report.py:37 | the sort is a permutation of its input |

## Left out

- The SQLite database and `pd.read_sql`. The two query results (and the aggregation query's input) are parameters, as sequences of rows. The SQL engine itself is not part of this model. `SELECT DISTINCT`, `UNION ALL`, `COALESCE`, `GROUP BY` with `SUM`, and `ORDER BY` are modelled on those rows.
- `pd.to_datetime`: dates are already parsed into year, month and day. Mixed formats and times of day are not modelled.
- IEEE floating point: prices and values are exact reals. Rounding, and NaN as a value inside sums, are not modelled. A NaN result is `None` (NULL). Division by zero gives an infinity or NaN as pandas does.
- Python's float-to-text conversion used by `astype(str)` on a numeric cell is the parameter `numberText`.
- Logging, `print` and the log messages are left out, as is the `LENGTH OF FINAL DF` line.
- `batch_preprocessing_csv` (directory listing, `read_csv`, `pd.concat` of files, the broad `except`) and `save_output` (CSV writing) are I/O around the core and are not part of this model.
- `\d`, `lower()` and `str.strip()` are modelled on ASCII digits and letters and on Python's whitespace set listed in `Strings.Whitespace`. Unicode digits and Unicode case mapping are not modelled.
- `os.path.basename` uses `/` as the only separator (POSIX).
- Preprocess.Preprocess: requires distinct normalised headers, because pandas' behaviour with duplicate column labels (a frame where a column is expected) is not modelled.
- Preprocess.PreprocessSpec: the result is the selected columns as a sequence of named columns. The frame's index labels after the row drop are not modelled.
- Numeric.ToNumeric: cells hold exact reals, so the texts pandas reads as infinities or NaN (`inf`, `-inf`, `Infinity`, `nan`) become NULL here instead of ±inf.
- Numeric.NumberNeedsDigit: holds for finite numerals only; pandas turns the digit-free texts `inf` and `Infinity` into floats.
- Preprocess.RemoveNoise: one pass over the text, as `str.replace` does; the prefixes a removal joins (`SESEC-C-` gives `SEC-`) stay, as in the source.
- PriceReconciliation.RunReconciliation: the `financial_type_ref` column of the reference query is never read, so it is not carried.
- PerformanceReport.RunAttribution: the output keeps `eom_date` as a date; the separate `eom_date` text column and `eom_date_dt` are one field.

## Findings

| source | as written | input that shows it | evidently intended | confidence | as-written member | corrected member |
|---|---|---|---|---|---|---|
| src/data_validation.py:133 | the day-first fallback reads `parts['second']` after line 128 rebound `parts` to year/month/day, so it raises `KeyError('second')` | ambiguous groups first 13, second 32, year 2023: month first raises `ValueError`, then the fallback raises `KeyError` | retry day first with the captured groups (which, for two-digit groups, can never succeed, so the intended outcome is the `ValueError`) | high; not executed | FundInfo.AmbiguousDateAsWritten, FundInfo.AsWrittenRaisesKeyError, FundInfoExamples.AmbiguousFileRaisesKeyError | FundInfo.AmbiguousDate, FundInfo.RetryNeverRescues, FundInfo.FundInfoAgreesWithIntended |
| src/price_reconciliation.py:85-89 | the left merge joins each position to every fund report row of its key, so k positions sharing identifier and date give k² rows | two funds holding the same instrument at the same month end give four rows instead of two | one row per position, carrying its last available price | medium; not executed | PriceReconciliation.RunReconciliation, PriceReconciliation.SharedKeyRowsMultiply | PriceReconciliation.RunReconciliationOnce, PriceReconciliation.DeduplicatedMerge |
