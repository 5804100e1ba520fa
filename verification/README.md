# Large-trade analysis of A-share tick data: a Dafny model

This project models the analysis core of `sellbuyAnalyis.py`, the Streamlit
page that loads the tick-by-tick trades of one stock for the day. For each
trade the page reads price (成交价格), volume (成交量), amount (成交金额) and side
(性质, buyer- or seller-initiated). Using those columns, the page:

1. converts the numeric columns with `pd.to_numeric(errors="coerce")`;
2. stops with a warning when the table is empty;
3. shows the row count, the total amount and the buy (买盘) and sell (卖盘)
   amounts;
4. keeps the trades whose amount is strictly greater than the threshold
   entered in the sidebar;
5. summarises those large trades per side. The summary has the amount sum
   of every side group, a missing side included, and the amount-weighted
   average price of every labelled group. It is sorted by amount sum,
   largest first.

A pandas DataFrame is modelled as the set of columns it has plus a sequence
of row records (`Ticks.Frame`). NaN is `Option.None`. An uncaught pandas
KeyError is a value of its own (`Outcome.KeyError`, `Page.Crashed`) that
names the column the page indexed without checking for it. Numbers are
Dafny reals. Text in a numeric column is read by a small decimal parser.

Modules, following the page from top to bottom:

- `Ticks`: the raw and coerced tables.
- `NumericParse`: the text-to-number reading, and the decimal rendering it
  inverts.
- `Coerce`: the protective conversion in `load_ticks`.
- `Sums`: the NaN-skipping sums and the headline figures.
- `LargeTrades`: the threshold filter.
- `Grouping`: the per-side grouping and the weighted average.
- `Summary`: the summary table and its ordering.
- `Analysis`: the page as a whole, with a worked example.

## Model

| member | source | states |
|---|---|---|
| Coerce.CoerceCell | sellbuyAnalyis.py:30 | A cell has a numeric reading exactly when it is a number or numeric text. A number keeps its value. |
| Coerce.CoerceRow | sellbuyAnalyis.py:28-30 | Each numeric field is its own cell's reading (price from the price cell, and so on), and NaN when its column is absent. The side label is kept unchanged. |
| Coerce.CoerceFrame | sellbuyAnalyis.py:28-30 | Coercion never drops, adds or reorders a row: same columns, same row count, and row i is the coercion of raw row i. Fields of absent columns are NaN. |
| Coerce.CoercionOfNumericTable | sellbuyAnalyis.py:28-30 | Coercing a table that is already numeric gives back exactly that table. |
| Coerce.CoerceRenderedCell | sellbuyAnalyis.py:30 | A non-negative decimal sent as text with any number of fractional digits coerces to its exact value. |
| NumericParse.RenderDecimalRoundTrip | sellbuyAnalyis.py:30 | Reading a rendered non-negative decimal gives back its value (round trip). |
| NumericParse.ParseNegated | sellbuyAnalyis.py:30 | A leading minus sign negates the value of the number text after it. |
| NumericParse.ParseNumber | sellbuyAnalyis.py:30 | Text with a reading contains at least one digit, so the empty string, a lone sign and a lone point coerce to NaN. Only a leading minus gives a negative value; with it the value is never positive. |
| NumericParse.RejectsStray | sellbuyAnalyis.py:30 | Any text holding a character other than a digit or a decimal point, apart from a sign in front, coerces to NaN. |
| NumericParse.RejectsTwoPoints | sellbuyAnalyis.py:30 | Any text with two decimal points coerces to NaN. |
| NumericParse.RejectsNonNumericText | sellbuyAnalyis.py:30 | Instances of the rules above: "abc", "", "-", "." and "1.2.3" all coerce to NaN. |
| Sums.TotalAmount | sellbuyAnalyis.py:52 | The total is 0 when the amount column is missing, and never negative when no amount is negative. |
| Sums.BuyAmount | sellbuyAnalyis.py:53 | The buy figure is NaN exactly without a side column. It is a KeyError exactly when the side column exists and the amount column does not. Otherwise it is the amount sum of the rows labelled 买盘. |
| Sums.SellAmount | sellbuyAnalyis.py:54 | The sell figure is NaN exactly without a side column. It is a KeyError exactly when the side column exists and the amount column does not. Otherwise it is the amount sum of the rows labelled 卖盘. |
| Sums.SideAmount | sellbuyAnalyis.py:53-54 | The buy or sell figure is NaN without a side column. It is a KeyError on the amount column exactly when the side column exists and the amount column does not. Otherwise it is the sum of the defined amounts of the rows with exactly that label. |
| Sums.TotalAmountByRows | sellbuyAnalyis.py:52 | The total is 0 for no rows, and 0 when the amount column is missing. A row adds its amount only when that amount is defined. Totals of concatenated tables add. |
| Sums.SidesPartitionTotal | sellbuyAnalyis.py:52-54 | For two distinct labels: buy sum + sell sum + the sum of all other rows = the total amount, because every row counts exactly once. |
| Sums.BuySellWithinTotal | sellbuyAnalyis.py:52-54 | With both columns present and non-negative amounts, both figures are defined and buy + sell ≤ total. The gap is exactly the amount of rows with neither label. |
| LargeTrades.LargeRows | sellbuyAnalyis.py:62 | The filter is sound and complete: a row is kept iff its amount is defined and strictly above the threshold. Each kept row keeps its multiplicity, and the kept rows stay in their original order (a subsequence). |
| LargeTrades.Bigger | sellbuyAnalyis.py:62 | Without an amount column the result has no columns and no rows. With one, the columns are unchanged and the rows are exactly the large rows, in order. |
| LargeTrades.LargeRowsIdempotent | sellbuyAnalyis.py:62 | Filtering the filtered rows again at the same threshold changes nothing. |
| LargeTrades.LargeRowsMonotone | sellbuyAnalyis.py:62 | Filtering at a low threshold and then at a higher one equals filtering once at the higher one. |
| LargeTrades.SumAboveThreshold | sellbuyAnalyis.py:62 | n large rows carry at least n·threshold in total, and strictly more when n > 0. |
| LargeTrades.LargeRowsSumWithinTotal | sellbuyAnalyis.py:62 | With non-negative amounts, the large trades never account for more than the total amount. |
| Grouping.GroupKeys | sellbuyAnalyis.py:69 | The group keys are distinct, and a key occurs iff some row carries that label. A missing label is a key like any other (`dropna=False`). |
| Grouping.GroupSumsConserveTotal | sellbuyAnalyis.py:69 | The group sums add up to the total amount of the rows grouped (conservation). |
| Grouping.GroupSumPositive | sellbuyAnalyis.py:72 | When all amounts are positive, every group that has a row has a positive amount sum, so the `wavg` denominator is non-zero. |
| Grouping.WeightedAverage | sellbuyAnalyis.py:71-73 | The average times the group's amount sum gives back the group's Σ(price·amount): it is the amount-weighted mean price. |
| Grouping.PriceAmountSumBounds | sellbuyAnalyis.py:72 | When every price in the group lies in [lo, hi] and amounts are non-negative: lo·Σamount ≤ Σ(price·amount) ≤ hi·Σamount. |
| Grouping.WeightedAverageWithin | sellbuyAnalyis.py:71-73 | The weighted average of a group whose prices lie in [lo, hi] also lies in [lo, hi]. |
| Grouping.WeightedAverageWithinPriceRange | sellbuyAnalyis.py:71-75 | When every row of the group has a price and a positive amount, the group's weighted average lies between the group's lowest and highest price. |
| Summary.Insert | sellbuyAnalyis.py:76 | Inserting a row into a non-increasing table keeps it non-increasing. The result holds exactly the old rows plus the new one (multiset). |
| Summary.SortByAmountDesc | sellbuyAnalyis.py:76 | The sorted summary is a permutation of its input with non-increasing amount sums. |
| Summary.NonIncreasingOrdersAllPairs | sellbuyAnalyis.py:76 | In a sorted summary every row's sum is at least that of every later row. |
| Summary.GroupRows | sellbuyAnalyis.py:69-75 | One row per key, in key order. Each row's sum is its group's amount sum, which is positive. Its average is defined exactly for a labelled key, and is then that group's weighted average. |
| Summary.Summarize | sellbuyAnalyis.py:68-78 | Without a side column the summary is empty. It is a KeyError on the price column iff the price column is missing and some row has a side label. Otherwise it is sorted and every row is faithful to its group. With a side column there is exactly one row per distinct label of the large trades, and no label appears twice. |
| Summary.SortedSides | sellbuyAnalyis.py:76 | Sorting keeps the set of side labels of the summary rows. |
| Summary.SortedDistinctSides | sellbuyAnalyis.py:69-76 | Sorting the rows of distinct group keys never repeats a side label, because two faithful rows with the same label are the same row. |
| Summary.SummaryConservesTotal | sellbuyAnalyis.py:69-76 | The amount sums of the summary rows add up to the total amount of the large trades. |
| Analysis.Analyze | sellbuyAnalyis.py:46-75 | The page shows the no-data warning iff the fetched table has no rows. A shown report counts every fetched row. The only uncaught KeyErrors are on the amount column and the price column. |
| Analysis.AnalyzeShown | sellbuyAnalyis.py:46-75 | A table with rows is shown whenever neither KeyError condition holds and the averaging grouping, when it runs, has a group. The KeyError conditions are: a side column without an amount column; and side and amount columns, no price column and a labelled large trade. The grouping runs when there are side and amount columns and a large trade; it has a group when some large trade is labelled. |
| Analysis.AnalyzeCrashesOnAmount | sellbuyAnalyis.py:53 | The page crashes on the amount column iff the table has rows and a side column but no amount column. |
| Analysis.AnalyzeCrashesOnPrice | sellbuyAnalyis.py:72-75 | The page crashes on the price column iff the table has rows, side and amount columns, no price column, and some labelled raw row whose amount exceeds the threshold. |
| Analysis.AnalyzeHeadline | sellbuyAnalyis.py:51-54 | A shown report carries the total amount and the buy and sell sums. The two sums are NaN exactly when there is no side column. |
| Analysis.AnalyzeLargeTrades | sellbuyAnalyis.py:62-66 | The large-trade table is the filter applied to the coerced table. It holds exactly the coerced rows whose defined amount is above the threshold. The summary is absent exactly when that table is empty. |
| Analysis.AnalyzeSummary | sellbuyAnalyis.py:68-78 | A shown summary is sorted by sum and faithful row by row, and no side label appears twice. With a side column it has exactly as many rows as the large trades have distinct labels, one per label; without one it is empty. |
| Analysis.AverageDenominatorsPositive | sellbuyAnalyis.py:72 | Because the threshold is at least 0, every group of the large trades has a positive amount sum. |
| Analysis.LabelledLargeTrade | sellbuyAnalyis.py:75 | The raw-table crash condition on the price column is exactly "the filtered table has a labelled row". |
| Analysis.WorkedExample | sellbuyAnalyis.py:51-76 | A worked page: three trades, one of them with its amount as text, at a threshold of 400000. It gives the exact figures, the two large trades and the two-row summary. |

## Left out

- The Streamlit user interface is not modelled: sidebar widgets, captions, metrics, formatting of figures, tables and download buttons (lines 6-22, 56-59, 80-115).
- Fetching and caching are not modelled (lines 24-26, 40-44). The fetched table is a parameter. A fetch that raises, or returns `None`, is not modelled.
- The conversion of the time column (lines 32-36) is not modelled, because nothing in the core reads it.
- Floating point is not modelled. Amounts and prices are exact reals, and NaN appears only as a missing value. Infinities and rounding are not represented.
- NumericParse.ParseNumber: reads only an optional sign, decimal digits and an optional fractional part. Exponents, surrounding whitespace, "inf"/"nan" spellings and other forms that pandas accepts are not modelled.
- NumericParse.RenderDecimal: renders non-negative decimals only. Negative numbers are covered by `ParseNegated` instead.
- Summary.SortByAmountDesc: puts tied sums in first-appearance order. pandas' default sort does not promise any tie order, so the contract states only ordering and permutation.
- Summary.Summarize: with a side column but no labelled large trade (every large trade has a missing side), the averaging grouping on line 75 has no groups, whether or not there is a price column. The model then returns the sums with no averages. What pandas does with a zero-group `apply`, and the `rename` and `concat` after it, is not modelled: the page may fail there or show a different table.
- Analysis.AnalyzeShown: makes no promise for a table with side and amount columns and large trades none of which has a side label. There the page runs the zero-group `apply` of line 75, which is not modelled (see `Summary.Summarize` above).
- Analysis.Analyze: `df.empty` is read as "no rows". A table that has rows but no columns at all is not modelled.
- Analysis.Analyze: the threshold is a whole number of yuan, at least 0, as the sidebar's `number_input` gives it (line 19).
- The heading on line 61 reads "≥ 阈值", but the filter on line 62 is strict. The model follows the code (`>`), as does the notice on line 65.
- The other files of the repository (`日内分时数据实时刷新.py`, `昨日大金额买卖盘分析.py`) are not part of this model.
