# Sales dashboard aggregation, in Dafny

This project models the data pipeline of a D3 sales dashboard (`index.js`).
The pipeline reads the rows of `sales.csv` and builds the datasets the charts draw:

- `chartData` (`Dashboard.ChartData`, a `Dashboard.Ranking` by category): the total sales per category, largest first. The bar tooltip shows each bar's percentage of the sum of all bars (`Dashboard.Percentage`).
- `salesTimeData` (`Dashboard.SalesTimeData`): the total sales per calendar month of `order_date` (`Dates.ParseIsoDate`, `Dates.MonthOf`), in calendar order.
- `salesData` (`Dashboard.SalesData`, a `Rollups.Rollup` by country): the total sales per country, in order of first appearance. The world map looks up each feature's `properties.name` in it with `===`. A match is drawn through the colour scale, a miss is grey (`#ccc`) and its tooltip reads "No data" (`GeoJoin.FillOf`, `GeoJoin.TooltipSales`).
- `topCountriesData` and `topProductsData` (`Dashboard.TopCountriesData`, `Dashboard.TopProductsData`, each a `Dashboard.TopTen`): the ten countries and the ten products with the largest total sales.

These dataset functions have no contracts of their own. What they compute is stated by the correctness lemmas in the table below that cite the same lines.

The model is pure and built from three library behaviours:

- `d3.rollup(rows, v => d3.sum(v, value), key)` is file-then-reduce. `Rollups.GroupBy` files each row, first to last, into the bucket of its key, the way the rollup's `InternMap` does: a bucket is appended when its key is first seen, so keys are unique and in first-appearance order. `Rollups.Reduce` then sums each bucket, adding from the first row to the last (`SumOf`).
- `Array.prototype.sort((a, b) => f(a) - f(b))` is stable since ECMAScript 2019. It is modelled as a stable insertion sort ascending by a score (`StableSort.SortBy`). "Largest total first" is the score `-total`, and month order is the score `year * 12 + month - 1`. `StableSort.StableSortCharacterised` proves that any stable sort gives the same result, so the choice of insertion sort is immaterial.
- `Array.prototype.find` is a linear search for the first match (`Rollups.FirstIndex`, `GeoJoin.Find`). `.slice(0, 10)` is `StableSort.Take`.

Modules, each in its own file:

- `Options`: the optional result.
- `Dates`: dates, month keys, and the text form `yyyy-mm-dd`.
- `Rollups`: sums, the grouping and the rollup.
- `StableSort`: the sort and the slice.
- `GeoJoin`: the country lookup, the fill, the tooltip text and `d3.max`.
- `Dashboard`: the datasets of `index.js` and their properties.

Amounts are exact `real`s.

Equal totals in the ranked lists are not broken by key. They keep the rollup's order, which is the order in which the keys first appear in the data, because that is what the stable sort in the code does (`Dashboard.RankingCorrect`, `StableSort.SortByKeepsTieOrder`).

## Model

| member | source | states |
|---|---|---|
| Rollups.RollupCorrect | index.js:23-27 | every key that occurs in the rows is reported exactly once, with the sum of the values of the rows that have that key, and no other key is reported; keys come in order of their first row |
| Rollups.RollupPreservesTotal | index.js:23-27 | the totals of a rollup add up to the sum of the values of all rows |
| Rollups.RollupIgnoresRowOrder | index.js:311-315 | the rollup of any reordering of the rows is still a correct summary of the original rows: totals do not depend on row order |
| Rollups.SummarisesPermutation | index.js:28-36 | any reordering of a correct summary of the rows (for instance the sorted list built from it) is still a correct summary |
| Rollups.KeySetSize | index.js:465 | a list with distinct keys has exactly as many entries as keys |
| Rollups.FirstIndex | index.js:423-425 | the position of the first row with the key, or the length when there is none: no earlier row has the key |
| StableSort.SortByCorrect | index.js:28-36 | the sort returns its input reordered (same multiset), non-decreasing in score, and for every score the elements with that score appear in input order |
| StableSort.SortedUnique | index.js:36 | two sorted sequences that list the same elements, in the same order, at every score are equal |
| StableSort.StableSortCharacterised | index.js:36 | a sequence is the result of SortBy exactly when it is sorted and keeps the input order within every score |
| StableSort.SortByKeepsTieOrder | index.js:36 | of two distinct input elements that tie on score, the one that came first in the input comes first in the output |
| StableSort.Take | index.js:465 | slice(0, n) keeps the first min(n, length) elements |
| StableSort.TakeOfSorted | index.js:465 | of a sorted sequence, no dropped element scores below a kept one |
| Dates.DaysInMonth | index.js:171 | April, June, September and November have 30 days, the other months from 1 to 12 have 31 except February, which has 29 in Gregorian leap years and 28 otherwise; a month number outside 1 to 12 has 0, so a valid date is a day of the calendar |
| Dates.YearLength | index.js:171 | the twelve months of a year add up to 365 days, or 366 in a leap year |
| Dates.MonthOf | index.js:177 | d3.timeMonth maps a valid date to a valid month; that two order dates get the same month exactly when their texts share the yyyy-mm prefix is Dates.SameMonthIffSamePrefix |
| Dates.MonthOrdinalOrder | index.js:183 | the month ordinal orders valid months as the calendar does and tells distinct months apart, so a.date - b.date has the sign of the difference of ordinals |
| Dates.ParseFormat | index.js:171 | parsing the zero-padded yyyy-mm-dd text of a valid date gives the date back |
| Dates.FormatParse | index.js:171 | any text that parses is the zero-padded text of the date it parses to |
| Dates.SameMonthIffSamePrefix | index.js:176-177 | two order dates fall into the same month bucket exactly when their texts share the yyyy-mm prefix |
| GeoJoin.Find | index.js:423-425 | find returns nothing exactly when no entry has the name, and otherwise the first entry of the list whose key is the name |
| GeoJoin.FindUnique | index.js:423-425 | with distinct keys, the only entry carrying a name is the one find returns |
| GeoJoin.JoinCorrect | index.js:422-426 | a feature's fill is the scale at a total exactly when some key equals its name, and then at that entry's total; otherwise it is #ccc and the tooltip reads "No data" |
| GeoJoin.JoinIgnoresOrder | index.js:431-441 | with distinct keys, fill and tooltip text depend only on the set of entries, not on their order |
| GeoJoin.MaxTotal | index.js:322 | d3.max gives nothing for an empty list, else a total that occurs and that no total exceeds |
| Dashboard.RankingCorrect | index.js:28-36 | a ranking reports every key once with its rows' total, has one entry per distinct key, is a permutation of the rollup, is non-increasing in total, keeps equal totals in first-appearance order, and sums to the total of all sales |
| Dashboard.TopTenCorrect | index.js:452-465 | the top list has min(10, number of distinct keys) entries, is a prefix of the ranking, and no left-out entry has a larger total than a kept one |
| Dashboard.ChartDataCorrect | index.js:23-36 | each category is one bar with the sum of its rows' sales; bars are non-increasing in total, ties in first-appearance order |
| Dashboard.TopCountriesCorrect | index.js:452-465 | the ten countries come from a correct ranking, number min(10, distinct countries), are its prefix, and outrank every country left out |
| Dashboard.TopProductsCorrect | index.js:592-605 | the same for products |
| Dashboard.SalesTimeDataCorrect | index.js:171-183 | with valid order dates, one point per month that occurs, with that month's sales, strictly increasing in calendar order, and summing to all sales |
| Dashboard.Percentage | index.js:130-133 | the tooltip percentage has a value exactly when the sum of all bars is not zero |
| Dashboard.PercentageMeaning | index.js:130-133 | the percentage p of a bar satisfies p times the sum of all bars = 100 times the bar's total |
| Dashboard.PercentageIsShare | index.js:130-133 | the denominator equals the sum of all sales, so each bar's percentage is its category's share of all sales |
| Dashboard.PercentagesSumToHundred | index.js:130-133 | when there are sales, the percentages of all bars add up to 100 |
| Dashboard.CountryJoinCorrect | index.js:422-441 | a country is drawn, and its tooltip shows, the sum of the sales of the rows with exactly its name; a country with no such row is #ccc and "No data", never zero |
| Dashboard.MapIgnoresRowOrder | index.js:311-319 | reordering the rows of the CSV changes no country's fill or tooltip |
| Dashboard.MaxIsTopCountry | index.js:322 | the colour scale's maximum is absent only without data, and is otherwise the total of the first country of the ranking |
| Dashboard.CategoryExample | index.js:23-36 | rows A 100, A 50, B 75 give the bars A 150 then B 75 |

## Left out

- Rendering: SVG and DOM drawing, scales, axes, transitions, the treemap (and its own sort at index.js:513), the projection, zoom and legends. None of it changes the datasets.
- Loading and I/O: `d3.csv`, `d3.json`, the promise chain and the error logging. The model takes the rows as a sequence.
- Text formatting: `toLocaleString`, `d3.format` and `toFixed(1)`. The model yields the numbers these functions format.
- Floating point: amounts are exact reals. Rounding, summation error, `NaN` from `+d.sales` on a non-numeric text and `d3.sum`'s skipping of `NaN` are not modelled. Rows carry `sales` already as a number.
- Dashboard.Row: `order_date` is carried already parsed, and no lemma ties `SalesTimeData` to the `order_date` text. Dates.SameMonthIffSamePrefix relates parsed dates to their text separately.
- Dates.ParseIsoDate: only the zero-padded `yyyy-mm-dd` form is modelled; `d3.timeParse`'s laxer digit widths are not. Valid dates are calendar dates (`Dates.DaysInMonth`, with Gregorian leap years). Out-of-range month or day numbers roll over in JavaScript (2023-02-31 becomes 3 March, 2023-13-05 becomes 5 January 2024, 2023-01-00 becomes 31 December 2022); the model refuses them with `None`.
- Dates.MonthOf: `d3.timeMonth` floors to local midnight of the first of the month. Time zones are not modelled: a month is its (year, month) pair, and the comparator's millisecond difference is replaced by the month ordinal, which has the same sign.
- Dashboard.Percentage: with a zero sum JavaScript gives `NaN` or `Infinity`. The model gives `None` instead.
- GeoJoin.FillOf: the colour is `Scaled(total)`, standing for `mapColorScale(total)`. The interpolation into a colour is not modelled.
