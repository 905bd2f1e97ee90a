# Retail sales dashboard: verified report aggregation

This project models the reports of a retail sales dashboard (`dashboard.py`).
The dashboard reads sale records from a document store and offers eight
reports:

- the ten customers who spent the most;
- the ten products sold in the largest quantities;
- the twenty best-selling (branch, product) pairs;
- the twenty branches with the most revenue;
- total sales per calendar month;
- total sales per season;
- the best product of each season;
- the five most demanded products.

Every report is a pandas pipeline over the records its query returns:
`groupby(key)[metric].sum()`, an ordering, and sometimes a `head(k)`. The
model states what each pipeline computes, not how pandas computes it.

The model is split into five modules:

- `Sales` (`sales.dfy`) holds the sale record, the group keys, the per-record
  metrics and `GetSeason`, the month-to-season table.
- `Grouping` (`grouping.dfy`) is a generic group-sum. `GroupTotal` is the
  reference sum over all records that share a key. `GroupSum` is a one-pass
  fold, proved to give exactly one row per key that occurs, holding that
  key's `GroupTotal` (`IsGrouping`).
- `Ranking` (`ranking.dfy`) sorts a grouping by descending total and cuts
  it after k rows. `IsTopK` states what such a report promises:
  - true sums and distinct keys;
  - non-increasing totals;
  - exactly min(k, number of groups) rows;
  - dominance: no group that was dropped has a larger total than any group kept.
- `Reports` (`reports.dfy`) holds the eight reports, each stated against
  these predicates. Two more orders are defined here: calendar order for the
  monthly trend, and the Winter < Spring < Summer < Autumn category order for
  the best product per season.
- `Scenarios` (`scenarios.dfy`) holds two worked inputs with their reports
  (the seasonal one up to the order of its equal totals).

Prices and totals are exact `real`s. Quantities are `nat`s, summed as reals.
A sale date is already split into year, month (1..12) and day.

## Model

| member | source | states |
|---|---|---|
| Sales.GetSeason | dashboard.py:247-251 | every calendar month lands in quarter (month mod 12) / 3 of the season order, so December, January and February give Winter; a value that is not a calendar month gives Autumn (the function is total) |
| Sales.SeasonTable | dashboard.py:287-291 | the season table month by month, in both directions: 12, 1, 2 are Winter; 3, 4, 5 Spring; 6, 7, 8 Summer; 9, 10, 11 Autumn |
| Sales.SeasonRank | dashboard.py:300-302 | each season has a distinct position below 4 in the category order Winter, Spring, Summer, Autumn |
| Sales.SameMonthPeriod | dashboard.py:204 | `MonthOf`, the `dt.to_period("M")` key, puts two sales in the same period exactly when they agree on year and month, whatever their days |
| Sales.SeasonOf | dashboard.py:253 | `Month.apply(get_season)`: a sale's season is `GetSeason` of its month, at position (month mod 12) / 3 of the season order |
| Sales.RevenueIgnoresStoredTotal | dashboard.py:171 | `RevenueOf`, the per-sale `Quantity * Price` column, is the same whatever TotalPrice is stored with the sale |
| Grouping.AddTo | dashboard.py:72 | adding a value to a key's row yields exactly the old keys plus that key and keeps keys distinct |
| Grouping.GroupSum | dashboard.py:72 | `groupby(...).sum()`: one row per distinct key that occurs, no key twice, each row's total equal to the metric summed over exactly the records with that key |
| Grouping.GroupSumSize | dashboard.py:70-72 | the grouping has as many rows as there are distinct keys, and it is empty exactly when there are no records |
| Grouping.GroupSumReadsOnlyKeyAndMetric | dashboard.py:171-175 | two record sequences that agree record by record on key and metric give the same grouping |
| Grouping.PermutedGrouping | dashboard.py:176 | reordering the rows of a grouping leaves it a grouping |
| Grouping.NoRecordsNoRows | dashboard.py:70 | rows whose keys all occur in the records can exist only when there are records |
| Grouping.SingleRecordGroup | dashboard.py:256 | a key that occurs in only one record totals that record's metric |
| Grouping.DistinctKeysCount | dashboard.py:72 | rows with distinct keys are as many as their keys |
| Ranking.Insert | dashboard.py:73 | inserting a row into a descending table keeps it descending, adds exactly that row, and keeps keys distinct when the row's key is new |
| Ranking.SortDesc | dashboard.py:73 | `sort_values(ascending=False)`: non-increasing totals, the same rows as a multiset, distinct keys kept |
| Ranking.PermutedKeys | dashboard.py:73 | a reordered table has the same keys |
| Ranking.Ranked | dashboard.py:255-258 | a grouping of the records whose rows are in non-increasing order of total |
| Ranking.TopK | dashboard.py:71-74 | `groupby.sum.sort_values.head(k)`: satisfies `IsTopK` (true sums, distinct keys that occur, non-increasing, exactly min(k, groups) rows, dominance), at most k rows, no rows when there are no records |
| Ranking.TopKFacts | dashboard.py:176-179 | cutting a descending grouping after n rows dominates every group cut off |
| Ranking.TopKKeepsEveryGroup | dashboard.py:179 | a top-k report over at most k groups holds every group |
| Ranking.Heaviest | dashboard.py:304-306 | a row of the table whose total no other row exceeds |
| Reports.TopCustomers | dashboard.py:70-74 | top-10 report of customers (id, name) by summed TotalPrice, empty when there are no sales |
| Reports.TopProducts | dashboard.py:113-117 | top-10 report of products (id, name) by summed Quantity, empty when there are no sales |
| Reports.BranchProducts | dashboard.py:144-148 | top-20 report of (branch id, branch name, product name) by summed Quantity, empty when there are no sales |
| Reports.TopBranches | dashboard.py:170-179 | top-20 report of branches (id, name) by revenue summed from Quantity × Price per sale, empty when there are no sales |
| Reports.TopBranchesIgnoresStoredTotal | dashboard.py:171-175 | branch revenue is computed from quantity and price, so changing any sale's stored TotalPrice leaves the report unchanged |
| Reports.MostDemanded | dashboard.py:334-336 | top-5 report (the default length of `head()`) of products by summed Quantity, empty when there are no sales |
| Reports.ChronologicalDistinct | dashboard.py:208 | rows in strict calendar order have distinct months |
| Reports.InsertByMonth | dashboard.py:208 | inserting a row with a new month into a table in calendar order keeps it in calendar order and adds exactly that row |
| Reports.SortByMonth | dashboard.py:208 | `sort_values("SaleDate")` on rows with distinct months: strict calendar order, same rows as a multiset |
| Reports.MonthlyTrend | dashboard.py:200-208 | exactly one row per (year, month) that occurs, holding that month's summed TotalPrice, in strictly ascending date order; empty when there are no sales |
| Reports.AtMostFourSeasons | dashboard.py:256 | a table keyed by season with distinct keys has at most four rows |
| Reports.SeasonalTrend | dashboard.py:243-258 | one row per season that occurs, holding its summed TotalPrice, in non-increasing order of total, at most four rows; empty when there are no sales |
| Reports.InSeason | dashboard.py:305-306 | exactly the (season, product) rows of one season |
| Reports.BestIn | dashboard.py:304-307 | at most one row of the given season, at least as large as every group of that season, and present exactly when the season has a group |
| Reports.SeasonOrderIsStrict | dashboard.py:300-302 | the category list Winter, Spring, Summer, Autumn is strictly increasing in season order |
| Reports.BestFrom | dashboard.py:300-307 | for seasons in strict order, at most one row per season, in that order, each maximal in its season, with a row for every listed season that has groups and for no other |
| Reports.BestFromStep | dashboard.py:305-306 | putting a season's best group before the best groups of the later seasons keeps the order, the maximality and the season coverage |
| Reports.SeasonsInAppend | dashboard.py:306 | the seasons of two tables put together are the seasons of each |
| Reports.GroupSeasons | dashboard.py:293-297 | the seasons of the (season, product) groups are exactly the seasons in which something sold |
| Reports.BestProductPerSeason | dashboard.py:283-307 | satisfies `IsBestPerSeason`: rows are (season, product) groups that occur with their summed TotalPrice, go Winter, Spring, Summer, Autumn with at most one per season, each at least as large as every product of its season, and a season has a row exactly when something sold in it; at most four rows; empty when there are no sales |
| Reports.BestPerSeasonFacts | dashboard.py:304-307 | the best of each season taken from a grouping in category order satisfies `IsBestPerSeason` |
| Reports.BestRowsAreGroups | dashboard.py:304-306 | rows picked from the grouping keep their true sums and beat every group of their season |
| Scenarios.ProductSalesGrouped | dashboard.py:115 | sales of A (5 and 3 units) and B (10 units) group to A 8 and B 10 |
| Scenarios.TopProductsExample | dashboard.py:114-117 | those sales rank B (10) before A (8) |
| Scenarios.TwoGroupsRanked | dashboard.py:116 | with two groups and room for both, a top-k report is the larger group followed by the smaller |
| Scenarios.SeasonalTrendExample | dashboard.py:255-258 | sales of 100 in January, April, July and October give four rows, one per season, each 100 |
| Scenarios.OneSalePerSeason | dashboard.py:256 | four sales of 100, one in each season, group into four seasons at 100 each |

## Left out

- Page setup, styling, the sidebar menu and the footer (dashboard.py:17-29, 45-60, 354-367) are user interface. Each menu branch is one report function here. There is no separate dispatcher over report kinds.
- The connection to the store and the projected `find` queries (dashboard.py:32-33, 67, 110, 141, 167, 197, 240, 280, 331) are external I/O. Their result is the `seq<Record>` each report takes as input.
- Date parsing with `pd.to_datetime` and the period/timestamp conversions (dashboard.py:201, 207, 244, 284) are library parsing. A record's date arrives already split, with its month in 1..12, so the monthly report keys on (year, month) directly.
- `fix_arabic` (dashboard.py:36-40) is a call into text-shaping libraries. Names are opaque strings.
- Every chart, label, percentage and number format (for example dashboard.py:77-103, 150-161, 181-191, 210-234, 260-274, 309-325, 337-352) is rendering.
- Floating-point arithmetic on TotalPrice, Price and the revenue products is modelled as exact real arithmetic. Rounding is not modelled.
- Order among equal totals in the single-column sorts (dashboard.py:73, 116, 147, 176, 257, 336). `sort_values` on one column uses a non-stable sort by default, so the code fixes no order for ties there, and no contract here fixes one either. A tie-breaking rule or a stable sort is not what the code does.
- Reports.BestIn: leaves open which product wins a tie for a season's largest total, although the source fixes it. The multi-column `sort_values` at dashboard.py:305 is a stable lexicographic sort, and its input comes from the `groupby` at dashboard.py:296, which sorts its keys. So `head(1)` at dashboard.py:306 keeps the tied product with the smallest (ProductID, ProductName). The model keeps some maximal product of the season, not necessarily that one.
- Reports.BestProductPerSeason: for the same reason, it promises a maximal product per season, not the smallest (ProductID, ProductName) among tied ones.
- Missing or malformed fields, and `groupby` silently dropping missing keys, are not modelled. Every record has every field.
- Month values outside 1..12 never reach a report, because a record's `Month` is 1..12. The season table still states the source's Autumn fall-through for them.
