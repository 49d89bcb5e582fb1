# ENG vs IND batting analysis: filter and summary tables

This project models the computational core of a small batting-analysis
dashboard over a ball-by-ball delivery table of a cricket series. The
core has two parts:

- **The sidebar filter.** The full table is copied. Three optional
  multiselects are then applied in turn: batting player, bowling type and
  bowler. An empty multiselect is skipped. Last, an inclusive over-number
  range is always applied.
- **`make_group_table`.** The filtered rows are grouped by one column.
  Each group gets its total runs (sum), its balls faced (count) and its
  strike rate, which is 100 · runs / balls rounded to two decimals. The
  groups are then ordered by strike rate, highest first. The page builds
  three such tables: by batting feet, by length type and by line type.

Everything is modelled as pure functions over `seq<Row>`:

- `Deliveries`: the `Row` record and the three grouping columns.
- `Selection`: the boolean-mask selection `Keep` and sums `SumBy`, with
  their laws.
- `Filtering`: the filter block and its order-independence.
- `StrikeRates`: rounding to hundredths.
- `Grouping`: `make_group_table`.
- `Dashboard`: the three tables of the page.

Missing cells (pandas NaN) are `Option.None`. The multiselect options are
built with `dropna().unique()` (app.py:13-15), so a selection never
contains a missing value, and `isin` with such a selection never matches
a missing cell. A `set<string>` cannot hold a missing value either, so
the model's membership test excludes missing cells by construction.
Strike rates are whole numbers of hundredths, so 333.33 is `33333`.

Facts about the program that shape the model:

- **Missing keys.** `groupby` with its defaults drops rows whose key is
  missing, so those rows are in no group. `PartitionTotals` therefore
  counts only the rows that have a key.
- **Tie order.** `sort_values` with its defaults is not stable, so only
  the non-increasing order of strike rates is promised.
- **Zero balls.** Every group has at least one row, so `StrikeRate`
  requires `balls > 0` and `Summarise` meets that requirement from the
  row that created the key.

## Model

| member | source | states |
|---|---|---|
| `Selection.Keep` | app.py:21 | a boolean mask keeps at most as many rows as it is given, and every kept row passes the mask |
| `Selection.KeptPositions` | app.py:21 | the masked table is the input at a strictly increasing list of positions, and that list contains every position whose row passes: nothing is added, reordered or wrongly dropped |
| `Selection.KeepMembers` | app.py:21 | a row is in the masked table exactly when it is in the input and passes the mask |
| `Selection.KeepMultiset` | app.py:21 | every passing row keeps its multiplicity and every failing row has none |
| `Selection.KeepKeep` | app.py:20-26 | masking twice in a row is the same as masking once by the conjunction of the two masks |
| `Filtering.Step` | app.py:20-26 | one filter step never adds rows, and every row it keeps passes that step (an empty multiselect lets every row pass) |
| `Filtering.StepIsKeep` | app.py:20-26 | a step keeps exactly the passing rows, in input order; a skipped multiselect returns the table unchanged |
| `Filtering.ApplyFilters` | app.py:19-26 | every kept row has its over number in `[lo, hi]`, both ends included; each non-empty multiselect contains the kept row's value; a row is kept exactly when it is in the table and matches all active criteria; `lo > hi` gives an empty table |
| `Filtering.CriteriaMeanMatches` | app.py:20-26 | passing the four steps is the same as satisfying the AND of the criteria, where an empty multiselect imposes nothing |
| `Filtering.FilterBlockIsKeep` | app.py:19-26 | the four steps in the source's order keep exactly the matching rows, in input order |
| `Filtering.StepsIsKeep` | app.py:20-26 | any list of steps applied one after another keeps exactly the rows passing all of them, in input order |
| `Filtering.StepsOrderIrrelevant` | app.py:20-26 | two step lists with the same members give the same table: order and repetition do not matter |
| `Filtering.StepsCommute` | app.py:20-26 | any two filter steps commute |
| `Filtering.FilterIsOrderedSelection` | app.py:19-26 | the filter block is the ordered selection of the matching rows, and writing its four steps in any other order gives the same table |
| `Filtering.NoRestrictionIsIdentity` | app.py:19-26 | with no multiselect choice and a range covering every over, the filtered table equals the full table |
| `StrikeRates.RoundHalfEven` | app.py:31 | the result is within half a unit of `n / d`, and an exact tie goes to the even neighbour |
| `StrikeRates.RoundsToUnique` | app.py:31 | that rounding rule leaves no choice: any whole number satisfying it equals `RoundHalfEven` |
| `StrikeRates.StrikeRate` | app.py:31 | the strike rate in hundredths is `10000 · runs / balls` rounded to the nearest whole number, ties to even; balls must be positive |
| `Grouping.DistinctKeys` | app.py:29 | the group keys are pairwise distinct, and a value is a key exactly when some row carries it; missing values are not keys |
| `Grouping.Summarise` | app.py:29-31 | a group line has at least one ball, so its division is defined; balls = number of rows with that key, runs = sum of those rows' runs, strike rate rounded as above |
| `Grouping.Insert` | app.py:32 | inserting into a table ordered by strike rate (highest first) keeps it ordered and adds exactly that line, nothing else changing |
| `Grouping.InsertKeysDistinct` | app.py:32 | inserting a line whose key is fresh into a table with distinct keys keeps the keys distinct |
| `Grouping.SortByStrikeRate` | app.py:32 | the result is a permutation of the input, ordered by strike rate with no increase |
| `Grouping.SortKeysDistinct` | app.py:32 | sorting a table with distinct keys keeps them distinct |
| `Grouping.GroupsFacts` | app.py:29-31 | the grouped table before sorting has pairwise distinct keys, a line for a value exactly when some row carries it, and each line describes exactly the rows with its key |
| `Grouping.SummariseAllDescribes` | app.py:29-31 | every line computed for a list of occurring keys describes exactly the rows carrying its key |
| `Grouping.GroupTable` | app.py:28-32 | the output is ordered by strike rate, highest first; there is a line for a value exactly when some row carries it; each line has at least one ball and describes exactly the rows with its key |
| `Grouping.GroupTableKeysDistinct` | app.py:29 | no value has two lines in the table |
| `Grouping.SummariseAllBalls` | app.py:29 | for distinct keys, the lines' ball counts add up to the number of rows whose key is among them |
| `Grouping.SummariseAllRuns` | app.py:29 | for distinct keys, the lines' run totals add up to the runs of the rows whose key is among them |
| `Grouping.PartitionTotals` | app.py:29 | the groups partition the rows that have a key: Balls Faced sums to the number of such rows, and Total Runs to their runs |
| `Grouping.RowInExactlyOneGroup` | app.py:29 | a row with a key is counted in exactly one line of the table |
| `Dashboard.BuildSummaries` | app.py:35-42 | each of the three tables of the page is ordered by strike rate, highest first, and has distinct keys |
| `Dashboard.SummariesCountMatchingRows` | app.py:19-42 | each line of each table counts and sums exactly the deliveries that match the sidebar and carry its key; the lines together count every matching delivery that has a value in that column |
| `Dashboard.WorkedExample` | app.py:28-32 | three front-foot balls scoring 4, 0 and 6 give one line with 10 runs, 3 balls and strike rate 333.33 |

## Left out

- Streamlit calls (`st.title`, `st.sidebar.*`, `st.header`, `st.dataframe`) are presentation only. The widget values are the plain `Config` input.
- `pd.read_csv` and the CSV file are I/O. The table is an input `seq<Row>`.
- The option lists the multiselects offer (`dropna().unique()`) and the slider's bounds and default `(0, 10)` are UI constraints. Selections are arbitrary sets of strings, and `lo`, `hi` are arbitrary integers.
- StrikeRates.StrikeRate: rounds the exact rational `100 · runs / balls` half-to-even. The source divides in IEEE doubles and then rounds the Series with numpy's rule (scale by 100, round half to even with `rint`, scale back), so near a tie the two may differ in the last hundredth. The model does not claim bit-exact agreement with the floats.
- Grouping.GroupTable: promises only non-increasing strike rate. It does not fix the order among equal strike rates. pandas sorts the group keys first and then applies an unstable sort, so its tie order is not part of the model.
- Runs are `nat` and always present. pandas `sum` and `count` skip NaN runs, so a row with missing runs would count differently there; such rows are not modelled. The over number is likewise always present.
- The group key columns are taken to hold text. The numeric or mixed key types pandas would accept are not modelled.
- The output table's column names and index (`reset_index`, the renamed columns) are the fields of `GroupRow`.
- The wicket flag, false-shot percentage, innings filter and two-column cross-tabulation belong to other variants of the dashboard and are not part of this model. The file modelled computes none of them.
