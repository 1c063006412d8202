# Sales report aggregation, modelled in Dafny

This project models the aggregation step of a small sales-report pipeline
(`process_data` in `main.py`) and the console currency format
`"${:,.2f}"`. The input is the loaded table of sales rows (date, product,
salesperson, amount, customer). The step computes four views:

- the grand total of all amounts;
- the monthly totals: one bucket per month, from the month of the earliest
  row to the month of the latest. A month with no rows still gets a bucket,
  holding 0;
- the top 5 salespeople by summed amount, largest first;
- the top 5 products by summed amount, largest first.

The code is pure, so the model is pure too: datatypes, functions and lemmas
over `seq<Row>`.

- Amounts are exact non-negative integer cents (`Sales.Cents`).
- A month is a `(year, month)` pair (`Calendar.Month`). Months are numbered
  by an ordinal, so December rolls over to January of the next year.
- Grouping gives one entry per distinct key, keys in ascending order. That
  is what a sorted group-by produces.
- The top-N step is a stable insertion sort by descending total on those
  key-sorted groups, followed by a prefix of length `min(n, number of keys)`.
  So among equal totals, the key that sorts first comes first. This is the
  `keep='first'` rule of the source applied to key-sorted groups.
- Key order is lexicographic by character code point, as in string comparison
  in the source language (`Lexicographic.Less`).

Modules:

- `Calendar`: dates, months, month ordinals.
- `Lexicographic`: the string order and sorted key lists.
- `Sales`: rows and filtered sums.
- `Monthly`: the monthly resample.
- `Ranking`: group-by-sum and the top-N list.
- `Currency`: the currency rendering and reading it back.
- `Report`: `ProcessData` and the properties of the whole report.

Two consequences of the code are worth stating:

- Tie order: `groupby` sorts the keys, and `nlargest(5)` keeps the first of
  equal totals (`keep='first'`) in that sorted order. So among equal totals
  the key that sorts first wins, whatever the order of the rows. With at most five
  distinct keys, `nlargest` falls back on a sort that is not guaranteed to
  be stable; the model fixes the tie order to the same rule in that case too.
- Order of the top lists: equal totals can occur, so the totals in a top
  list are non-increasing, not strictly descending. The model proves that
  each entry outranks the next: a larger total, or an equal total and a
  smaller key.

## Model

| member | source | states |
|---|---|---|
| Report.ProcessData | main.py:20-50 | the aggregation step; no monthly buckets exactly when there are no rows, and each top list has min(5, distinct keys) entries (the monthly view is specified by Monthly.MonthlyTotals, MonthlyEndpoints, MonthlyChronological, MonthlyCoversRows and MonthlyGapsAreZero; the top lists by TopListsSpec, which rests on Ranking.TopEntries and TopExcluded; the whole report by TotalsAgree, OrderIndependent and EmptyInput) |
| Calendar.FromOrdinal | main.py:33 | the month built from an ordinal has that ordinal |
| Calendar.Next | main.py:33 | the month after `m` has the next ordinal |
| Calendar.NextOfFromOrdinal | main.py:33 | the month after ordinal i is the month of ordinal i+1 (December rolls to January of the next year) |
| Calendar.OrdinalInjective | main.py:33 | months with equal ordinals are equal |
| Lexicographic.Less | main.py:36 | the key order of the sorted group-by, by code point with a proper prefix first; no key sorts before itself (order laws in Transitive, Trichotomy, AscendingUnique) |
| Lexicographic.Trichotomy | main.py:36 | any two different keys are ordered one way or the other |
| Lexicographic.Transitive | main.py:36 | the key order is transitive |
| Lexicographic.Insert | main.py:36 | inserting a key into a strictly ascending key list keeps it strictly ascending and adds exactly that key |
| Lexicographic.AscendingUnique | main.py:36 | two strictly ascending key lists with the same keys are equal, so the sorted group keys are determined by the set of keys |
| Sales.SumWhere | main.py:27-39 | the sum of the amounts of the rows meeting a criterion (all rows, one month, one key), as every aggregate uses; each matching row's amount is part of it, so none exceeds it (additivity in SumWhereAppend, order independence in SumWherePermutation) |
| Sales.Total | main.py:27 | the grand total: 0 for no rows, and no row's amount exceeds it (defining equations in TotalCons) |
| Sales.TotalCons | main.py:27 | the total of no rows is 0, and each row adds its own amount |
| Sales.SumWhereAppend | main.py:27 | sums over concatenated rows add up |
| Sales.SumWherePermutation | main.py:27 | every filtered sum is unchanged by reordering the rows |
| Monthly.FirstOrdinal | main.py:33 | the earliest month of non-empty rows: no row is earlier, and some row is in it |
| Monthly.LastOrdinal | main.py:33 | the latest month of non-empty rows: no row is later, and some row is in it |
| Monthly.MonthlyTotals | main.py:31-33 | no buckets exactly when there are no rows; each bucket holds the sum of its month's rows; each bucket's month is the month after the previous bucket's |
| Monthly.MonthlyEndpoints | main.py:33 | the first bucket is the month of the earliest row and the last bucket the month of the latest row |
| Monthly.MonthlyChronological | main.py:33 | the buckets are in strictly increasing month order, so no month appears twice |
| Monthly.MonthlyCoversRows | main.py:33 | every row's month has a bucket |
| Monthly.MonthlyGapsAreZero | main.py:33 | a bucket whose month has no rows holds 0 |
| Monthly.TallyPartitions | main.py:33 | buckets over distinct months that cover every row's month add up to the grand total |
| Monthly.MonthlyPartitionsTotal | main.py:27-33 | the monthly bucket values sum to the grand total |
| Ranking.GroupKeys | main.py:36 | the group keys are strictly ascending and are exactly the keys in the column |
| Ranking.GroupBySum | main.py:36 | one entry per distinct key, keys ascending, each with the exact sum of its rows; as many entries as distinct keys |
| Ranking.InsertDescending | main.py:36 | the insertion step adds exactly one entry (a permutation) |
| Ranking.SortDescending | main.py:36 | the sort is a permutation of its input |
| Ranking.SortDescendingNonIncreasing | main.py:36 | the sorted totals never increase, whatever the input |
| Ranking.SortDescendingRankOrdered | main.py:36 | on key-ascending input the stable sort orders by total descending, then key ascending |
| Ranking.RankedGroups | main.py:36 | the ranked groups list each distinct key once, with its exact total, in rank order |
| Ranking.Outranks | main.py:36-39 | the ranking order with the tie rule: a larger total, or an equal total and a key that sorts first |
| Ranking.OutranksStrictOrder | main.py:36-39 | the ranking order is a strict total order on entries with distinct keys: irreflexive, asymmetric, transitive, and any two keys are ranked one way or the other |
| Ranking.Top | main.py:36-39 | the top-n list, `nlargest(n)` of the grouped sums; it has min(n, distinct keys) entries (entries, totals and order in TopEntries, the keys left out in TopExcluded) |
| Ranking.TopEntries | main.py:36-39 | a top-n list has min(n, distinct keys) entries, each a key of the input with its exact total, keys distinct, each entry outranking the next |
| Ranking.TopExcluded | main.py:36-39 | every key left out of a top list is outranked by every entry kept: its total is at most the smallest kept, and on a tie its key sorts later |
| Currency.Grouped | main.py:65 | the integer part with the ',' option: it starts with a digit and holds only digits and commas (exact grouping in GroupedWellFormed, value in GroupedValue) |
| Currency.FormatCurrency | main.py:65-74 | the "${:,.2f}" rendering: at least five characters, '$' first, '.' third from the end, and only digits, ',' and '.' after the '$' (exact shape in FormatShape, round trip in FormatRoundTrip) |
| Currency.DecimalValue | main.py:65 | the decimal numeral reads back as its number, has no leading zero, and has at most three digits below 1000 |
| Currency.GroupedValue | main.py:65 | the comma-grouped numeral without its commas reads back as its number |
| Currency.GroupedWellFormed | main.py:65 | the comma-grouped numeral is well formed: a leading group of 1 to 3 digits, then groups of a comma and 3 digits |
| Currency.FormatRoundTrip | main.py:65 | removing '$', ',' and '.' from the rendering and reading the digits gives back the cents |
| Currency.FormatInjective | main.py:65-74 | different amounts render differently |
| Currency.FormatShape | main.py:65 | the rendering is '$', a well-grouped numeral, '.', exactly two digits that read as cents mod 100 |
| Report.TotalsAgree | main.py:27-33 | the report's total is the sum of all amounts and equals the sum of its monthly buckets |
| Report.TopListsSpec | main.py:36-39 | both top lists have min(5, distinct keys) entries, each a key of the input with its exact total, in rank order, and every key left out is outranked by every key kept |
| Report.EmptyInput | main.py:20-50 | no rows give total 0, no monthly buckets and empty top lists |
| Report.OrderIndependent | main.py:20-50 | reordering the rows leaves the whole report unchanged |
| Report.TopOfTwoKeys | main.py:36-39 | with exactly two keys, the one with the larger total comes first |
| Report.ThreeRowScenario | main.py:20-50 | a three-row input over two months gives total 350.00, buckets 300.00 and 50.00, Bob before Alice, Beta Gadget before Alpha Widget |

## Left out

- `load_data` (main.py:4-18): reading the CSV file, parsing dates and handling the missing-file exit are I/O. The model starts from parsed rows.
- Missing values: a `Row` always has a date and an amount. In the source an empty Amount cell is read as NaN, and every pandas sum skips it, so it counts as 0 (main.py:27, 33, 36, 39); such a row corresponds to a `Row` with amount 0. An empty Date cell becomes NaT (main.py:12): the resample at main.py:33 drops that row, but the grand total and both group-bys (main.py:27, 36, 39) still count it. The model has no row without a date.
- Monthly.MonthlyPartitionsTotal: holds for rows that all have a date, which every `Row` has; in the source a row with a NaT date counts in the total but in no bucket, so the buckets then add up to less.
- Report.TotalsAgree: the same restriction as MonthlyPartitionsTotal, for the same reason.
- Report.EmptyInput: the model's rows always carry numeric amounts. In the source a table with zero rows read from a header-only file has a non-numeric Amount column, and `nlargest` at main.py:36 raises an error on it instead of returning an empty list.
- Date validity: a day is any number from 1 to 31. Days per month and leap years are not checked, because only the month matters to the aggregation.
- Floating point: amounts are exact integer cents, so pandas' float sums and rounding are not modelled.
- Month-end labels: `resample('M')` labels each bucket with its last day; the model labels it with the `(year, month)` pair.
- Console output: the progress messages and the `to_string` table layout (main.py:13, 16-17, 24, 49, 64-74) are not modelled. Only the per-amount currency format is.
- Negative amounts: amounts are non-negative, so the rendering of a negative number is not modelled.
- NaN keys: the source's group-by drops missing keys. The model's rows always have a key.
- generate_data.py: random test-data generation and a CSV write, with nothing deterministic to model.
- Charts and PDF composition: that code is not part of this model.
