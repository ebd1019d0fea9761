# Table rules of the AI-adoption EDA script

`src/eda_ai_adoption.py` loads a table of AI-adoption records. It cleans the table, profiles its columns, draws
distribution, correlation and per-industry charts, and exports summaries for
a dashboard. This Dafny project models the rules that decide what that
script computes:

- **Cleaning** (`cleaning.dfy`). A column more than half null is dropped. The
  nulls left in each remaining column are then filled in place, by the loop
  over `df_clean`'s columns (class `Frame`). A numeric column is filled with
  its median. Any other column is filled with the token `"Desconocido"`.
- **Median** (`stats.dfy`). This is pandas' `Series.median()`: nulls are
  skipped, and an even count takes the mean of the two middle values. An
  empty series gives NaN, written `None` here.
- **Column classes** (`profiling.dfy`). The numeric and the text columns are
  told apart. A text column gets a frequency report only when it has at most
  50 distinct values.
- **Grid** (`layout.dfy`). The distribution figure has `min(3, k)` panels to
  a row for `k` numeric columns. The panels past the `k`-th are hidden, in
  place on the array of panels.
- **Strong correlations** (`correlations.dfy`). The nested loops scan the
  strict upper triangle of the correlation matrix. They collect the entries
  whose absolute value exceeds 0.7.
- **Summaries** (`summaries.dfy`):
  - the industry, country and year summaries: mean adoption rate, mean daily
    active users and company count per key;
  - the industry ranking, by mean adoption rate, highest first;
  - the top-10 industries.
- **Shared pieces**. `tables.dfy` holds the table representation: typed
  columns of optional cells, null counts, selection and distinct values.
  `sorting.dfy` holds a stable descending sort and `nlargest`.

## Model

| member | source | states |
|---|---|---|
| Tables.NullCount | src/eda_ai_adoption.py:49 | the null count of a column is at most its length, and it is zero exactly when the column has no null |
| Tables.Select | src/eda_ai_adoption.py:67 | the selected columns are exactly those satisfying the predicate, and they keep their original order (subsequence) |
| Tables.Lookup | src/eda_ai_adoption.py:219 | `name in df.columns`: no column is found exactly when no column has that name, and a found column is in the table with that name |
| Tables.Distinct | src/eda_ai_adoption.py:220 | the group keys: the same values as the input, each once, no more of them than there are rows |
| Tables.Count | src/eda_ai_adoption.py:226 | `groupby(...).size()` of one key is positive exactly when the key occurs, and at most the row count |
| Cleaning.TooSparse | src/eda_ai_adoption.py:66 | the floating-point test `nulls > rows * 0.5` holds exactly when twice the null count exceeds the row count |
| Cleaning.DropSparse | src/eda_ai_adoption.py:65-67 | a column is kept exactly when twice its null count is at most the row count, so a column exactly half null survives; the rows are kept, the survivors keep their order and contents, and well-formedness is preserved |
| Cleaning.SurvivorHasValue | src/eda_ai_adoption.py:66-75 | in a table with a row, every surviving column has a non-null cell, and a surviving numeric column has a median (never NaN) |
| Cleaning.FillNa | src/eda_ai_adoption.py:75-77 | `fillna`: the length and the non-null cells are kept, every null becomes the fill value, and a non-NaN fill leaves no null |
| Cleaning.FillValue | src/eda_ai_adoption.py:74-77 | a non-numeric column is filled with "Desconocido"; a numeric column's fill is a number exactly when the column has a number, and then it is the median of the column's numbers |
| Cleaning.Filled | src/eda_ai_adoption.py:73-77 | a filled column keeps its name, dtype, length and non-null cells, and each null becomes the column's fill value |
| Cleaning.FilledUnchanged | src/eda_ai_adoption.py:73 | a column without nulls is left exactly as it was |
| Cleaning.FilledColumn | src/eda_ai_adoption.py:72-77 | filling keeps a column well typed; in a numeric column with a number each null becomes the median of its numbers, in any other column each null becomes "Desconocido", and a column with a value is left with no null |
| Cleaning.FillValueExample | src/eda_ai_adoption.py:75 | the float column [1, null, 3] has median 2 |
| Cleaning.FillExample | src/eda_ai_adoption.py:75 | the float column [1, null, 3] is filled to [1, 2, 3] |
| Cleaning.Frame.constructor | src/eda_ai_adoption.py:62 | the frame starts as a copy of the table |
| Cleaning.Frame.FillMissing | src/eda_ai_adoption.py:72-77 | after the in-place loop every column is its filled version, and the row count is unchanged |
| Cleaning.Clean | src/eda_ai_adoption.py:62-77 | the cleaned table keeps the rows, holds the surviving columns in order, each filled, is well formed and has no null cell |
| Stats.Median | src/eda_ai_adoption.py:75 | a median exists exactly when the series has a number |
| Stats.MedianHalves | src/eda_ai_adoption.py:75 | at least half of the values are at most the median, and at least half are at least the median |
| Stats.MedianWithinRange | src/eda_ai_adoption.py:75 | the median lies between the smallest and the largest value |
| Stats.MedianOfTwo | src/eda_ai_adoption.py:75 | the median of two values is their mean |
| Sorting.SortDesc | src/eda_ai_adoption.py:191 | `sort_values(ascending=False)`: a permutation of the input, sorted by key, highest first |
| Sorting.Largest | src/eda_ai_adoption.py:254 | `nlargest(n)`: min(n, length) elements, highest first, taken from the input, and no element left out has a higher key than one kept |
| Profiling.NumericColumns | src/eda_ai_adoption.py:85 | exactly the int64/float64 columns, in table order |
| Profiling.CategoricalColumns | src/eda_ai_adoption.py:86 | exactly the object columns, in table order |
| Profiling.Cardinality | src/eda_ai_adoption.py:138 | `nunique()` is the size of the set of non-null values; with the null count it is at most the length, and it is zero exactly when the column is all null |
| Profiling.ReportedColumns | src/eda_ai_adoption.py:136-138 | exactly the object columns with at most 50 distinct values, in order |
| Layout.DistributionGrid | src/eda_ai_adoption.py:100-101 | for k >= 1 panels: the width is min(3, k), there is at least one row, the grid holds all k panels, and one row fewer would not |
| Layout.HiddenPanelsFewerThanARow | src/eda_ai_adoption.py:100-126 | the number of hidden panels, rows * cols - k, is at least 0 and below one row's width |
| Layout.HideUnusedPanels | src/eda_ai_adoption.py:125-126 | panel i stays as it was when i < k and is hidden otherwise |
| Layout.LayoutPanels | src/eda_ai_adoption.py:100-126 | panel i is shown exactly when i < k; the grid has room for every column, and fewer than one row of panels is hidden |
| Correlations.RowPairsExact | src/eda_ai_adoption.py:171-172 | one row's strong entries come in increasing column order, and an entry of the scanned columns is there exactly when it is strong |
| Correlations.JoinInOrder | src/eda_ai_adoption.py:170-171 | appending the next row's pairs after the earlier rows keeps the loop order |
| Correlations.UpperPairsOrdered | src/eda_ai_adoption.py:170-171 | the pairs of the first n rows are in row-major order |
| Correlations.UpperPairsExact | src/eda_ai_adoption.py:170-172 | a pair is among the first n rows' pairs exactly when its row is below n, it lies above the diagonal and it is strong |
| Correlations.StrongIndexPairs | src/eda_ai_adoption.py:170-172 | the reported index pairs lie strictly above the diagonal and come in loop order, by first index and then by second |
| Correlations.StrongIndexPairsExact | src/eda_ai_adoption.py:170-172 | (i, j) is reported exactly when i < j and the correlation exceeds 0.7 in absolute value; no diagonal or lower-triangle entry ever appears |
| Correlations.StrongCorrelations | src/eda_ai_adoption.py:169-177 | the nested loops return, in loop order, the two column names and the correlation of each strong pair |
| Correlations.Example | src/eda_ai_adoption.py:169-177 | on a 3x3 matrix the report is (a, b, 0.8) then (b, c, -0.75) |
| Summaries.GroupMeanBounds | src/eda_ai_adoption.py:221 | when every measure of a group lies in [lo, hi], so does the group mean |
| Summaries.GroupMean | src/eda_ai_adoption.py:221 | a group's mean times its row count is the sum of its measures |
| Summaries.GroupSumBounds | src/eda_ai_adoption.py:221 | a group's sum lies between count * lo and count * hi |
| Summaries.GroupMeans | src/eda_ai_adoption.py:191 | `groupby(key)[measure].mean()`: one row per distinct key, every key of the data present once, each row carrying its group's mean |
| Summaries.Summarize | src/eda_ai_adoption.py:220-226 | one row per distinct key, in order of first appearance; each row carries its key's row count and the group means of adoption_rate and daily_active_users |
| Summaries.SummarizeCounts | src/eda_ai_adoption.py:220-226 | one summary row per distinct key; each company count is the number of rows with that key, and the counts add up to the row count |
| Summaries.SummaryBy | src/eda_ai_adoption.py:219-247 | skipped exactly when the key column is absent; fails exactly when a measure column is absent or cannot be averaged (neither numeric nor bool); otherwise it is the per-key summary of the key and measure columns, with distinct keys whose counts add up to the table's rows |
| Summaries.IndustryMeans | src/eda_ai_adoption.py:187-191 | skipped exactly when industry or adoption_rate is absent; fails exactly when adoption_rate cannot be averaged; otherwise the group means of adoption_rate per industry |
| Summaries.IndustryRanking | src/eda_ai_adoption.py:191 | the industry means, permuted into descending order |
| Summaries.TopIndustries | src/eda_ai_adoption.py:252-254 | at most 10 industry means, highest first, drawn from all the means, and no industry left out has a higher mean than one kept |
| Summaries.TopIndustriesFromData | src/eda_ai_adoption.py:252-254 | each top row is an industry present in the data, paired with its mean adoption rate |
| Summaries.ExampleOne | src/eda_ai_adoption.py:220-226 | one row of industry A at 0.2 forms group A with sum 0.2 and count 1 |
| Summaries.ExampleTwo | src/eda_ai_adoption.py:220-226 | two rows of industry A, at 0.2 and 0.4, form group A with sum 0.6 and count 2 |
| Summaries.ExampleGroups | src/eda_ai_adoption.py:220-226 | industries [A, A, B] form groups A (sum 0.6, 2 rows) and B (sum 0.6, 1 row) |
| Summaries.IndustryExample | src/eda_ai_adoption.py:191-226 | with rates [0.2, 0.4, 0.6] for industries [A, A, B], the means are A 0.3 and B 0.6, and the ranking is B then A |

## Left out

- Reading the CSV and exiting when the file is missing (lines 17-27) are
  I/O, so they are left out. The model starts from an already-typed table.
  Inferring each column's dtype is not modelled.
- Console output is left out: the shape, head, `info`, `describe`, null
  percentages, and every `print`.
- Plot rendering, `savefig` and `show` are left out. This covers the
  histogram/bar choice for `year` (lines 114-119), the heatmap and the
  industry bar chart. Only the grid sizing and which panels are hidden are
  modelled.
- The Pearson correlation matrix (line 149) is not computed. It is an input
  to `StrongCorrelations`, a square matrix together with the column names.
- Floating point is modelled as exact reals. This covers the median, the
  means and the comparisons with 0.5 and 0.7. `.round(3)` on the summaries
  is not modelled, and neither is NaN arithmetic beyond an empty median.
- Cardinality's top-5 `value_counts()` listing (line 142) is output only.
  Cardinality models the `nunique()` filter.
- The `data/` directory and the `to_csv` writes are left out (lines
  207-212, 228, 238, 248, 255). So is how one exception in the try-block
  skips the later exports. Each summary is modelled on its own, and
  `Failed` marks the case that raises.
- Summaries.GroupMeans, Summaries.Summarize, Summaries.SummaryBy: pandas'
  `groupby` returns keys in ascending order. The model keeps
  first-appearance order, so the industry, country and year summaries list
  their rows in a different order from the files pandas writes. The set of
  rows, their means and their counts are the same.
- Summaries.TopIndustries: on a tie at the tenth place the model keeps the
  industries that appear first in the data. pandas keeps the first in
  ascending key order. So on such a tie the kept set can differ.
- Cleaning.Frame.FillMissing: the model fills `df_clean` in place, as the
  chained `df_clean[col].fillna(..., inplace=True)` does when pandas runs
  without copy-on-write. Under copy-on-write (the default from pandas 3.0)
  that call fills a temporary copy and `df_clean` keeps its nulls. The
  no-null result of `Cleaning.Clean`, and the summaries built on it, assume
  the former behaviour.
- Bool columns are modelled only without nulls and with 0/1 cells; `mean`
  averages them with True as 1. A CSV column with missing booleans is read
  with the object dtype, which is modelled.
- Sorting.SortDesc: ties keep input order (a stable sort). pandas'
  `sort_values` does not promise an order for ties.
- Summaries.SummaryBy, Summaries.IndustryMeans: `groupby` dropping null
  keys and `mean` skipping null measures are not modelled. These functions
  require a table with no null, which is what `Cleaning.Clean` produces.
- Cleaning.FillValue: an all-null numeric column would get a NaN fill and
  keep its nulls. `Cleaning.SurvivorHasValue` shows this cannot happen
  after the drop rule when the table has a row.
