# Online retail dashboard: filter-and-aggregate model

A Dafny model of the one piece of logic in the online-retail dashboard: the
callback `update_graphs` in `app.py`, which runs whenever a filter control
changes. It takes the whole transaction table and four inputs: a start date,
an end date, a country dropdown and a product dropdown. It keeps the rows
that pass the filters. From those rows it derives three headline figures
(total sales, total quantity, top-selling product) and the grouped series
the charts draw (sales by country and the ten best-selling products).

Modules, one per stage of the callback:

- `Wrappers`: `Option` (an empty cell or dropdown) and `Result` (an operation that raises).
- `Transactions`: the `Row` record, the derived TotalSales column and the two column sums.
- `Filtering`: the `Criteria`, the boolean-mask selection `Where`, and the three
  filters applied in the callback's order (date range, then country, then product).
- `Grouping`: `groupby(key)[value].sum()` over (key, value) entries.
- `Ranking`: `idxmax` and `sort_values(ascending=False).head(n)` over a grouping.
- `Dashboard`: the derived series and the callback itself, as written
  (`UpdateGraphs`) and with its empty-grouping crash repaired (`ComputeView`).
- `Scenarios`: worked examples on a two-row table (a mug sold in the UK and in France).

Modelling choices:

- Invoice dates are integer timestamps. Both range bounds are inclusive.
- Unit prices are integer cents, so every sum is exact.
- A missing description is `None`.
- A dropdown counts as "selected" under Python truthiness: `None` and `""` both mean no filter.
- The description filter compares against `Some(product)`, so a row with no
  description never matches a selected product.
- Grouping by description skips rows with no description, as pandas' `groupby` does.

## Model

| member | source | states |
|---|---|---|
| `Transactions.TotalSales` | app.py:12 | A definition with no contract of its own: the derived TotalSales column, Quantity times UnitPrice, exact in integer cents. |
| `Transactions.SumSales` | app.py:117 | A definition with no contract of its own: the `.sum()` of the TotalSales column, 0 for no rows. Its properties are stated by `SumsOfConcatenation` and `Filtering.TotalsOverRetainedRows`. |
| `Transactions.SumQuantity` | app.py:118 | A definition with no contract of its own: the `.sum()` of the Quantity column, 0 for no rows. Its properties are stated by `SumsOfConcatenation` and `Filtering.TotalsOverRetainedRows`. |
| `Transactions.SumsOfConcatenation` | app.py:117-118 | Both column sums are additive: the sum over two tables placed end to end is the sum of their separate sums. |
| `Filtering.IsSelected` | app.py:109 | A definition with no contract of its own: a dropdown applies a filter only when its value is truthy, so `None` and `""` both leave the rows alone. The same test guards the product filter at app.py:113. |
| `Filtering.ByDate` | app.py:105-106 | The date mask keeps an order-preserving subsequence. A row is kept, with its original multiplicity, exactly when its date lies within both inclusive bounds. |
| `Filtering.ByCountry` | app.py:109-110 | With no country selected the rows pass unchanged. Otherwise the result is an order-preserving subsequence holding, with their multiplicity, exactly the rows of the selected country. |
| `Filtering.ByProduct` | app.py:113-114 | With no product selected the rows pass unchanged. Otherwise the result is an order-preserving subsequence holding, with their multiplicity, exactly the rows whose description is the selected product. A row with no description never matches. |
| `Filtering.OtherCountryDropped` | app.py:109-110 | With a country selected, a leading row from another country is dropped, and filtering continues with the rest of the table. |
| `Filtering.Where` | app.py:105-106 | A boolean mask keeps an order-preserving subsequence of the rows. Each row whose mask is true keeps its original multiplicity. Every other row is removed. |
| `Filtering.FilterRows` | app.py:102-114 | The filtered rows are an order-preserving subsequence of the table and are not altered. A row is kept, with its original multiplicity, exactly when its date is within both inclusive bounds, it matches a selected country and it matches a selected product. An unselected dropdown accepts every row. |
| `Filtering.FilterRowsIsOnePass` | app.py:104-114 | The three successive filters together act as one mask: the conjunction of the three predicates. |
| `Filtering.FullRangeKeepsEverything` | app.py:102-114 | With no dropdown selected and a date range that covers every invoice date, the whole table is returned. |
| `Filtering.TotalsOverRetainedRows` | app.py:117-118 | Total sales and total quantity are the sums over exactly the retained rows. A rejected row contributes nothing, and an empty selection gives 0. |
| `Grouping.Accumulate` | app.py:122 | Adding one observation to a grouping keeps keys distinct and adds its key. It raises only that key's sum, and the grand total grows by the observation's value. |
| `Grouping.GroupSum` | app.py:122 | Group-by-sum has one group per distinct key of the input. Each key's group total equals the sum of that key's values. The grand total is unchanged. |
| `Grouping.GroupSumEntries` | app.py:122 | Every group is an input key paired with that key's summed value, and every input key has a group. |
| `Grouping.SelectionKeepsDistinctKeys` | app.py:133-134 | Taking entries from a grouping, each at most as often as the grouping holds it, keeps the keys distinct. |
| `Ranking.MaxIndex` | app.py:119 | On a non-empty grouping, returns a position whose value is at least every other value. |
| `Ranking.IdxMax` | app.py:119 | `idxmax` fails exactly on an empty grouping. Otherwise it returns the key of some group whose value is at least every group's value. |
| `Ranking.InsertDescending` | app.py:134 | Inserting into a descending sequence keeps it descending and adds exactly the inserted element. |
| `Ranking.SortDescending` | app.py:134 | The sorted groups are a permutation of the input, with values non-increasing. |
| `Ranking.TopN` | app.py:134 | `head(n)` after a descending sort returns min(n, number of groups) of the groups, drawn from the input and in non-increasing order. No group left out has a larger value than any group returned. |
| `Dashboard.ProductQuantities` | app.py:119 | The (Description, Quantity) observations cover exactly the descriptions present. Per description they total that description's summed quantity. Rows without a description take no part. |
| `Dashboard.CountryEntries` | app.py:12 | The (Country, TotalSales) observations cover exactly the countries present. Per country they total that country's sales, and in all they total the table's sales. |
| `Dashboard.FirstRowContribution` | app.py:119-122 | The first row adds its description to the set of descriptions present, if it has one, and adds its country to the set of countries. It adds its quantity only to its own description's sum and its sales only to its own country's sum. |
| `Dashboard.ProductGroupsEmpty` | app.py:119 | The description grouping is empty exactly when no row has a description. |
| `Dashboard.LargestProductGroup` | app.py:119 | The key of a largest description group is a description present in the rows. Its summed quantity is at least every other description's. |
| `Dashboard.TopProduct` | app.py:119 | The top product fails exactly when no row has a description. Otherwise it is a description present in the rows, and its summed quantity is at least every other description's. |
| `Dashboard.SalesByCountry` | app.py:122 | There is exactly one bar per distinct country among the rows. Each bar is that country's summed sales, and the bars add up to total sales. |
| `Dashboard.SelectedGroupsAreProducts` | app.py:133-134 | Every entry drawn from the product grouping is a present description paired with its summed quantity. |
| `Dashboard.LeftOutProductsSellLess` | app.py:133-134 | A description left out of a top-n selection sells no more than any description that was selected. |
| `Dashboard.TopProducts` | app.py:133-134 | The pie shows min(10, number of descriptions) entries, each for a different description, in non-increasing order. So with fewer than ten descriptions, every description is shown. Each entry is a present description with its summed quantity. No description left out sells more than one that is shown. |
| `Dashboard.NoDescriptions` | app.py:119 | The set of descriptions present among the rows is empty exactly when every row's description is missing. |
| `Dashboard.ComputeView` | app.py:101-141 | Repaired callback. It is defined for every input. The view's rows are the filter's result: an order-preserving subsequence of the table holding each retained row with its original multiplicity and nothing else. Its totals are the masked sums over the table. The country bars are `SalesByCountry` of those same filtered rows: one bar per country among them, carrying that country's sales, and the bars add up to the total sales. The pie is `TopProducts` of the filtered rows, so at most ten products, each a different description with its summed quantity. The top product is absent exactly when no retained row has a description, and otherwise it is the `idxmax` result. |
| `Dashboard.UpdateGraphs` | app.py:101-141 | Callback as written. It raises exactly when no retained row has a description. Otherwise it returns the repaired view, which then always names a top product. |
| `Scenarios.MugGroups` | app.py:122 | In the two-row table, the countries are UK and FR and the only product is Mug. UK sales are 1000 cents and FR sales are 600 cents. |
| `Scenarios.MugBars` | app.py:122 | Sales by country for the two-row table are exactly two bars: UK 1000 and FR 600. |
| `Scenarios.OnlyMugOnTop` | app.py:119 | When the only described product left after filtering is Mug, the top product is Mug. |
| `Scenarios.WholeTable` | app.py:101-122 | With the full range and no dropdown: all rows are kept, total sales are 1600 cents and total quantity is 8. The top product is Mug, with bars UK 1000 and FR 600. |
| `Scenarios.FranceFiltered` | app.py:109-110 | Selecting FR keeps only the French row of the two-row table. |
| `Scenarios.FranceOnly` | app.py:101-119 | With France selected, only the French row is kept: 600 cents of sales, quantity 3, and Mug on top. |
| `Scenarios.EmptyRangeRaises` | app.py:104-119 | A date range that excludes every row makes the callback as written raise. The repaired view reports zero totals and no top product. |

## Findings

| source | as written | input that shows it | evidently intended | confidence | as-written member | corrected member |
|---|---|---|---|---|---|---|
| app.py:119 | `groupby('Description')['Quantity'].sum().idxmax()` is called with no guard. When no retained row has a description, the grouping is empty, `idxmax` raises, and the whole callback fails. | The two-row mug table with a date range after both invoices. `Scenarios.EmptyRangeRaises` proves that `UpdateGraphs` returns `Failure(EmptyGrouping)` there. | Show zero totals and report that there is no top product. | not executed | `Dashboard.UpdateGraphs` | `Dashboard.ComputeView` |

## Left out

- Dash application setup, page layout, dropdown option lists and callback registration (app.py:14-100, app.py:143-145). These are UI wiring with no logic of their own.
- Plotly figure construction (app.py:123-139). The sales-over-time line chart and the country/quantity scatter draw the filtered rows one point per row with no aggregation. The model exposes those rows as `View.filtered` and does not model the drawing.
- Spreadsheet loading and date-string parsing (app.py:8, app.py:11, and the `pd.to_datetime` calls at app.py:105-106). The model takes invoice dates and both bounds as already-parsed timestamps. A date picker that sends a bare day converts to midnight of that day, so a later time on the end day falls outside the range. That conversion is outside the model.
- Currency formatting of total sales (app.py:141): a display format only.
- Floating-point unit prices and sums. The model uses exact integer cents and does not model IEEE rounding.
- A missing country: the model's `Row.country` is always a string. pandas would drop a row with an empty country cell from the country grouping.
- Missing InvoiceDate, Quantity or UnitPrice cells: every `Row` field is always present. In pandas a missing date becomes NaT, which never passes the date mask at app.py:105-106. A missing quantity or price makes that row's TotalSales NaN, which `.sum()` skips at app.py:117.
- Fixed-width column sums: the Quantity sum at app.py:118 is an int64 sum that can wrap around. The model's `int` is unbounded and never wraps.
- Dashboard.TopProduct: promises some maximiser but not which one on ties. pandas picks the first maximum in its group order, which sorts keys, so a tie is not broken by first appearance in the table.
- Ranking.IdxMax: does not state a tie-break, for the same reason.
- Ranking.TopN: does not state the order among equal values. `sort_values` uses an unstable sort by default.
- Dashboard.SalesByCountry: does not state the order of the bars. pandas sorts the group keys, and the model's grouping lists them in an unspecified order.
- Ranking.SortDescending: does not state the order among equal values, for the same reason as TopN.
- All of etl.py (directory scan, spreadsheet reads, database writes with fixed credentials, print-and-continue error handling). It is file and database I/O with no logic to verify.
