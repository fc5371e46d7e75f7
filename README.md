# Product dataset pipeline and product repository, modelled in Dafny

This project models the logic of a small product-catalogue backend in two parts.

The first part is the product-dataset pipeline, four scripts:

- **`check_integrity`** counts four kinds of issue in a product CSV: missing required columns, nulls in the non-nullable columns, negative numbers in the numeric columns, and unparseable or non-positive shelf lives. Its `main` turns the counters into an exit status.
- **`calculate_product_metrics`** loads the four metric columns, coerces the numeric ones, and computes the row count, global means and sums, and per-category aggregates.
- **`exploratory_analysis`** takes a head of the file, then computes three global means and per-category records.
- **`create_product_dataset`** generates a synthetic 14-column dataset. Its random draws are supplied as inputs.

The second part is **`ProductoRepository`**, the create/read/update/delete layer over the product table.

How the model represents things:

- A CSV is a `Tables.Table`: a row count and a map from column name to a sequence of optional text cells (`None` is a missing value).
- After coercion the data is a `Tables.Frame`, in which the coerced columns hold `Option<real>`.
- Numbers are exact reals. A mean over no values is `NaN`, as in pandas.
- `pd.to_numeric` and `pd.to_timedelta` (with `errors="coerce"`) are parser functions passed in as parameters.
- The repository is a class holding an in-memory map from id to product, plus the next id the database would assign.
- The uniqueness check of the repository is an abstract guard, a function parameter that may reject.

Modules:

| module | file | models |
|---|---|---|
| `Wrappers` | `wrappers.dfy` | `Option` and `Result` |
| `Tables` | `tables.dfy` | raw tables, coerced frames, per-cell numeric coercion, the outcome of reading a file |
| `Aggregates` | `aggregates.dfy` | pandas `sum` / `mean` over present values, `groupby(dropna=False)` groups, and the partition of rows into groups |
| `Integrity` | `integrity.dfy` | `check_dataset_integrity.py` |
| `ProductMetrics` | `product_metrics.dfy` | `calculate_product_metrics.py` |
| `Exploratory` | `exploratory.dfy` | `exploratory_analysis.py` |
| `Generator` | `generator.dfy` | `create_product_dataset.py` |
| `Repository` | `repository.dfy` | `producto_repository.py` |

Behaviour the code has and the model follows:

- **`read_csv(usecols=...)` fails on a missing column.** `load_dataset` and `load_for_metrics` read with an explicit `usecols` list. `read_csv` raises `ValueError` when any listed column is absent from the file. So a file without one of Category, BaseYield, Cost or EnvironmentalImpact never reaches `compute_metrics`. The uncaught exception ends the process with status 1. `ProductMetrics.LoadDataset` returns `Failure` in that case, and both `main` models return 1.
- **A missing aggregated column raises `KeyError`.** `compute_metrics` is also modelled on frames it cannot get from its own loader. On such a frame, when Category is present and an aggregated column is not, `grouped.agg(...)` raises `KeyError`. The model returns `Failure` there.
- **`missing_columns` counts the ShelfLife column twice.** An absent ShelfLife is counted once as a required column and once more by the dedicated shelf-life branch.

## Model

| member | source | states |
|---|---|---|
| Tables.Coerce | backend/app/scripts/calculate_product_metrics.py:34 | a missing cell becomes missing; a present cell becomes exactly what the parser makes of its text, so a value comes only from a present cell the parser accepts (the same coercion serves `pd.to_timedelta` at line 77 of check_dataset_integrity.py) |
| Tables.ToNumericColumn | backend/app/scripts/calculate_product_metrics.py:34 | coercing a column keeps its length and coerces each cell independently |
| Tables.Restrict | backend/app/scripts/calculate_product_metrics.py:28-29 | selecting columns keeps exactly the requested columns that exist, with their contents unchanged |
| Integrity.MissingColumns | backend/app/scripts/check_dataset_integrity.py:49 | the result lists exactly the required names absent from the table |
| Integrity.PresentColumns | backend/app/scripts/check_dataset_integrity.py:55 | the result lists exactly the candidate names present in the table |
| Integrity.NullCount | backend/app/scripts/check_dataset_integrity.py:57 | a column's null count is at most its number of cells |
| Integrity.NegativeCount | backend/app/scripts/check_dataset_integrity.py:67-68 | a column's count of negative numbers is at most its number of cells |
| Integrity.UnparsedCount | backend/app/scripts/check_dataset_integrity.py:77-78 | a column's count of unparseable shelf lives is at most its number of cells |
| Integrity.NonPositiveCount | backend/app/scripts/check_dataset_integrity.py:77-79 | a column's count of non-positive shelf lives is at most its number of cells |
| Integrity.TotalIssues | backend/app/scripts/check_dataset_integrity.py:119 | the total is 0 exactly when every counter is 0 |
| Integrity.IsNegative | backend/app/scripts/check_dataset_integrity.py:67-68 | a cell counts as negative only when it is present and parses to a number below 0; a missing or unparseable cell compares false |
| Integrity.IsNonPositive | backend/app/scripts/check_dataset_integrity.py:77-79 | a cell counts as non-positive only when it is present and parses to a duration of at most 0; NaT compares false |
| Integrity.ValidShelfLife | backend/app/scripts/check_dataset_integrity.py:77-82 | a shelf life is valid exactly when it parses and is not non-positive, so it adds to neither count |
| Integrity.NullsOver | backend/app/scripts/check_dataset_integrity.py:57-60 | the summed nulls are at least the null count of each listed column |
| Integrity.NegativesOver | backend/app/scripts/check_dataset_integrity.py:65-73 | the summed negatives are at least the negative count of each listed column |
| Integrity.IssuesOf | backend/app/scripts/check_dataset_integrity.py:27-87 | the tally `check_integrity` returns; without a ShelfLife column, `missing_columns` is at least 2 (the column is counted twice) and `invalid_shelf_life` is 0 |
| Integrity.CheckIntegrity | backend/app/scripts/check_dataset_integrity.py:27-87 | the step-by-step update of the issue counters (all start at 0; missing columns set, nulls set, negatives accumulated per column, ShelfLife checked or counted missing once more) ends in exactly `IssuesOf` |
| Integrity.AddNegatives | backend/app/scripts/check_dataset_integrity.py:65-73 | the loop over the present numeric columns adds each column's count of negative numbers to `negatives` and leaves the other counters alone |
| Integrity.NegativesOverStep | backend/app/scripts/check_dataset_integrity.py:66-73 | one more column adds exactly that column's negative count |
| Integrity.MissingColumnsCardinality | backend/app/scripts/check_dataset_integrity.py:49-52 | over distinct names, the length of the missing list is the number of absent names |
| Integrity.MissingColumnsCount | backend/app/scripts/check_dataset_integrity.py:37-85 | `missing_columns` is the number of the ten required columns absent, plus one more when ShelfLife is absent (the second count comes from the shelf-life branch); it is 0 exactly when all ten are present, and never more than 11 |
| Integrity.RequiredColumnsDistinct | backend/app/scripts/check_dataset_integrity.py:37-48 | the ten required column names are pairwise distinct |
| Integrity.MissingColumnsLength | backend/app/scripts/check_dataset_integrity.py:49-52 | the missing list is no longer than the required list, and is empty exactly when every required name is present |
| Integrity.NullCountBounds | backend/app/scripts/check_dataset_integrity.py:57 | a column's null count is at most its length, and 0 exactly when every cell is present |
| Integrity.NegativeCountBounds | backend/app/scripts/check_dataset_integrity.py:67-68 | a column's negative count is at most its length, and 0 exactly when no cell coerces to a number below 0 |
| Integrity.ShelfLifeCountBounds | backend/app/scripts/check_dataset_integrity.py:77-82 | unparseable plus non-positive shelf lives never exceed the row count, because an unparseable cell is not also non-positive; the sum is 0 exactly when every cell parses to a positive duration |
| Integrity.NullsOverBound | backend/app/scripts/check_dataset_integrity.py:57-60 | nulls summed over some columns are at most the number of columns times the row count |
| Integrity.NullsOverZero | backend/app/scripts/check_dataset_integrity.py:56-62 | nulls summed over some columns are 0 exactly when none of those columns has a missing cell, in particular when there are no such columns |
| Integrity.NegativesOverBound | backend/app/scripts/check_dataset_integrity.py:65-73 | negatives summed over some columns are at most the number of columns times the row count |
| Integrity.NegativesOverZero | backend/app/scripts/check_dataset_integrity.py:65-73 | negatives summed over some columns are 0 exactly when no cell of those columns coerces to a negative number |
| Integrity.IssueBounds | backend/app/scripts/check_dataset_integrity.py:55-82 | `nulls` is at most 5 times the row count, `negatives` at most 4 times, `invalid_shelf_life` at most the row count |
| Integrity.PresentColumnsLength | backend/app/scripts/check_dataset_integrity.py:55 | the present list is no longer than the candidate list |
| Integrity.NullsZeroIff | backend/app/scripts/check_dataset_integrity.py:55-62 | `nulls` is 0 exactly when no present non-nullable column has a missing cell |
| Integrity.NegativesZeroIff | backend/app/scripts/check_dataset_integrity.py:65-73 | `negatives` is 0 exactly when no present numeric column has a cell that coerces to a negative number; absent columns and unparseable cells contribute nothing |
| Integrity.NoIssuesIffClean | backend/app/scripts/check_dataset_integrity.py:29-87 | the total of the four counters is 0 exactly when all ten required columns are present, the non-nullable ones have no missing cell, no numeric cell is negative and every shelf life parses to a positive duration |
| Integrity.ExitCode | backend/app/scripts/check_dataset_integrity.py:119-128 | the exit status is 0 or 1, and 1 exactly when strict mode is on and the total of the counters is positive |
| Integrity.RunIntegrityCheck | backend/app/scripts/check_dataset_integrity.py:105-128 | a missing or unreadable file gives 1 before any check; otherwise the status is `ExitCode` of the counters, 1 exactly when strict and the table is not clean, and always 0 without strict mode |
| Aggregates.Present | backend/app/scripts/calculate_product_metrics.py:40-42 | the values pandas aggregates are exactly the present values, never more than the cells |
| Aggregates.Sum | backend/app/scripts/calculate_product_metrics.py:41 | the values added up in order, 0 for none; it has no contract of its own, and `SumOf`, `SumOfAppendOne` and `SumBounds` state what it means |
| Aggregates.SumOf | backend/app/scripts/calculate_product_metrics.py:41 | `series.sum()` of a column with no present value is 0 |
| Aggregates.MeanOf | backend/app/scripts/calculate_product_metrics.py:40-42 | `series.mean()` is NaN exactly when no value is present, and otherwise the sum of the present values over their number |
| Aggregates.PresentAppendOne | backend/app/scripts/calculate_product_metrics.py:40-42 | a missing cell adds nothing to the present values, a present one appends its value |
| Aggregates.PresentAppend | backend/app/scripts/calculate_product_metrics.py:40-42 | the present values of two joined columns are the joined present values |
| Aggregates.SumOfAppendOne | backend/app/scripts/calculate_product_metrics.py:41 | one more cell adds its value to the sum, or nothing when it is missing |
| Aggregates.AbsentCellIgnored | backend/app/scripts/calculate_product_metrics.py:40-42 | inserting a missing cell anywhere changes neither the sum nor the mean |
| Aggregates.SumBounds | backend/app/scripts/exploratory_analysis.py:41-47 | values in a half-open range have a sum between the count times the lower bound and the count times the upper bound |
| Aggregates.QuotientBounds | backend/app/scripts/exploratory_analysis.py:41-47 | a sum within the bounds gives a quotient within the range |
| Aggregates.PresentWithin | backend/app/scripts/exploratory_analysis.py:41-47 | when some cell is present and all present values are in range, the present values are non-empty and all in range |
| Aggregates.AverageWithin | backend/app/scripts/exploratory_analysis.py:41-47 | the average of values in a range is in that range |
| Aggregates.MeanWithin | backend/app/scripts/exploratory_analysis.py:41-47 | the mean of a column with some present value, all in a range, is a number in that range |
| Aggregates.GroupValues | backend/app/scripts/calculate_product_metrics.py:47-48 | a group has one entry per row carrying its key, so its size is the key's multiplicity |
| Aggregates.GroupValuesAppendOne | backend/app/scripts/calculate_product_metrics.py:47 | a new row joins exactly the group of its own key |
| Aggregates.GroupValuesMembers | backend/app/scripts/calculate_product_metrics.py:47-53 | a value is in a group exactly when some row with that key carries it |
| Aggregates.PresentNone | backend/app/scripts/calculate_product_metrics.py:40-42 | a column of missing cells has no present values |
| Aggregates.MeanNaNIff | backend/app/scripts/exploratory_analysis.py:42-46 | the mean is NaN exactly when every cell is missing |
| Aggregates.GroupNaNIff | backend/app/scripts/calculate_product_metrics.py:49-53 | a group's mean is NaN exactly when every row with that key has a missing value |
| Aggregates.GroupIgnoresOtherRows | backend/app/scripts/calculate_product_metrics.py:47-53 | changing a row of another key leaves a group unchanged |
| Aggregates.Distinct | backend/app/scripts/calculate_product_metrics.py:62 | the distinct keys have no duplicates and are exactly the keys that occur, whatever their order |
| Aggregates.CountOverAppendOne | backend/app/scripts/calculate_product_metrics.py:48 | one more row adds one to the summed group sizes when its key is counted |
| Aggregates.GroupSizesPartition | backend/app/scripts/calculate_product_metrics.py:47-48 | summed over distinct keys covering every row, the group sizes add up to the number of rows |
| Aggregates.CountOverEmpty | backend/app/scripts/calculate_product_metrics.py:48 | no rows give group sizes that sum to 0 |
| Aggregates.TotalOverAppendOne | backend/app/scripts/calculate_product_metrics.py:51 | one more row adds its value to the summed group totals when its key is counted |
| Aggregates.TotalOverEmpty | backend/app/scripts/calculate_product_metrics.py:51 | no rows give group totals that sum to 0 |
| Aggregates.GroupSumsPartition | backend/app/scripts/calculate_product_metrics.py:41-51 | summed over distinct keys covering every row, the group sums add up to the column's sum: the per-group `sum` aggregates, added over all groups, give the global sum |
| ProductMetrics.MissingUseCols | backend/app/scripts/calculate_product_metrics.py:28-29 | the error lists exactly the requested columns the file lacks |
| ProductMetrics.LoadDataset | backend/app/scripts/calculate_product_metrics.py:26-35 | loading fails exactly when one of the four columns is absent, naming those columns; on success the frame has exactly those four columns with the three numeric ones coerced cell by cell (`load_for_metrics` in exploratory_analysis.py, lines 31-37, is the same load) |
| ProductMetrics.CoerceColumns | backend/app/scripts/calculate_product_metrics.py:32-34 | the loop replaces exactly the listed columns that exist by their coerced values, leaves every other column unchanged and neither adds nor drops a column (the same loop is at lines 34-36 of exploratory_analysis.py) |
| ProductMetrics.NotNa | backend/app/scripts/calculate_product_metrics.py:58-60 | a per-category NaN becomes `None`, a number stays that number |
| ProductMetrics.Label | backend/app/scripts/calculate_product_metrics.py:56 | a present category keeps its text; the label is "nan" exactly for the missing category and for the text "nan" |
| ProductMetrics.ColumnMean | backend/app/scripts/calculate_product_metrics.py:40-42 | the global mean is `None` exactly when the column is absent, and NaN exactly when it has no present value |
| ProductMetrics.CategoryOf | backend/app/scripts/calculate_product_metrics.py:56-61 | an entry's count is positive exactly when its label occurs, and its TotalCost is never `None` |
| ProductMetrics.Labels | backend/app/scripts/calculate_product_metrics.py:56 | each row's key is `str` of its category, row by row |
| ProductMetrics.MissingAggColumns | backend/app/scripts/calculate_product_metrics.py:49-53 | the error lists exactly the aggregated columns the frame lacks |
| ProductMetrics.ByCategory | backend/app/scripts/calculate_product_metrics.py:55-62 | there is one entry per distinct category label |
| ProductMetrics.ComputeMetrics | backend/app/scripts/calculate_product_metrics.py:38-71 | `rows` is the row count; each global metric is `None` exactly when its column is absent, and otherwise `average_base_yield` and `average_environmental_impact` are the means and `total_cost` the sum of the column's present values; `by_category` is empty without Category and otherwise keyed by exactly the distinct labels; aggregating a missing column fails |
| ProductMetrics.LoadedFrameAggregates | backend/app/scripts/calculate_product_metrics.py:85-88 | a frame produced by a successful load always has its metrics, with all three globals present and one entry per distinct label |
| ProductMetrics.FrameLabels | backend/app/scripts/calculate_product_metrics.py:56 | one label per row |
| ProductMetrics.CategoryMetricsMeaning | backend/app/scripts/calculate_product_metrics.py:47-62 | on a frame with Category and the aggregated columns, every row's label has an entry; its count is the number of rows with that label, and positive; TotalCost is the sum of the group's present costs; AvgYield and AvgEnvImpact are `None` exactly when the group has no present value, and otherwise the group's mean yield and mean impact |
| ProductMetrics.ByCategorySums | backend/app/scripts/calculate_product_metrics.py:55-62 | summing the entries over some labels gives the group sizes and group cost totals over those labels |
| ProductMetrics.ByCategoryPartition | backend/app/scripts/calculate_product_metrics.py:47-62 | when the keys list every label once, the counts add up to the number of rows and the TotalCosts add up to the column's sum |
| ProductMetrics.CategoriesPartitionRows | backend/app/scripts/calculate_product_metrics.py:41-66 | when the keys list every label once, each is an entry of `by_category`, the per-category counts add up to `rows` and the per-category TotalCosts add up to `total_cost` |
| ProductMetrics.DistinctCategoriesPartitionRows | backend/app/scripts/calculate_product_metrics.py:41-66 | over the distinct labels of any groupable frame, each is an entry of `by_category`, the counts add up to `rows` and the TotalCosts to `total_cost` |
| ProductMetrics.RunMetrics | backend/app/scripts/calculate_product_metrics.py:74-115 | the status is 0 exactly when the file exists and has the four columns, and then the metrics are `ComputeMetrics` of a frame loaded from the file, with `rows` equal to the file's row count and all three globals present; otherwise 1 |
| Exploratory.LoadHead | backend/app/scripts/exploratory_analysis.py:27-28 | the head has the first max(1, n) rows of every column, or all of them when the file is shorter, and the same columns |
| Exploratory.HeadNotEmpty | backend/app/scripts/exploratory_analysis.py:28 | a file with rows gives at least one row for a head size of 0 or less, and never more than asked for |
| Exploratory.HeadOfWholeTable | backend/app/scripts/exploratory_analysis.py:28 | asking for at least every row gives the whole table |
| Exploratory.HeadOfHead | backend/app/scripts/exploratory_analysis.py:28 | the head of a longer head is the shorter head |
| Exploratory.SummaryOf | backend/app/scripts/exploratory_analysis.py:53-58 | a record's count is positive exactly when its category cell occurs; its three means are the group means, as `Exploratory.RecordMeaning` states |
| Exploratory.ComputeSummary | backend/app/scripts/exploratory_analysis.py:40-63 | each average is `None` exactly when its column is absent, and otherwise the mean of the column's present values (for Cost too: a mean, not the sum); there are no records without Category, otherwise one per distinct category cell, the missing one included; aggregating a missing column fails |
| Exploratory.CategorySummaryMeaning | backend/app/scripts/exploratory_analysis.py:51-61 | on a frame with Category and the aggregated columns, every category cell has a record; its count is the group size and positive; AvgYield, AvgCost and AvgEnvImpact are the group's mean yield, cost and impact; each mean is NaN exactly when the group has no present value in that column |
| Exploratory.RecordMeaning | backend/app/scripts/exploratory_analysis.py:53-58 | for one record built from the four columns: the count is the group size and positive, the three averages are the group means, and each is NaN exactly when the group has no present value |
| Exploratory.LabelGroups | backend/app/scripts/calculate_product_metrics.py:56 | grouping by label and grouping by cell give the same groups while no cell is the text "nan" |
| Exploratory.SummaryAgreesWithMetrics | backend/app/scripts/exploratory_analysis.py:51-61 | on the same frame, every category cell has a record in both scripts, with the same count and the same yield and impact averages, the aggregator's missing where the exploratory one is NaN |
| Exploratory.RunExploratory | backend/app/scripts/exploratory_analysis.py:66-106 | a missing or unreadable file gives 1 and neither a head nor a summary; a read file always gives its head, and the status is 0 exactly when the four columns exist, in which case the summary is `ComputeSummary` of a frame loaded from the file and has all three averages |
| Generator.NatToString | backend/app/scripts/create_product_dataset.py:40-41 | a number renders as a non-empty string of decimal digits |
| Generator.ParseNatToString | backend/app/scripts/create_product_dataset.py:40-41 | reading back a rendered number gives the number |
| Generator.Numbered | backend/app/scripts/create_product_dataset.py:40-56 | a prefix followed by `str(k)` starts with the prefix, continues with decimal digits only, and those digits read back as k |
| Generator.NameOf | backend/app/scripts/create_product_dataset.py:40 | row i's Name is "Product_" followed by decimal digits only, reading i+1 |
| Generator.CodeOf | backend/app/scripts/create_product_dataset.py:41 | row i's Code is "P" followed by decimal digits only, reading i+1000 |
| Generator.DescriptionOf | backend/app/scripts/create_product_dataset.py:42 | row i's Description is "Description of product " followed by decimal digits only, reading i+1 |
| Generator.NoteOf | backend/app/scripts/create_product_dataset.py:55 | row i's Notes is "Note " followed by decimal digits only, reading i+1 |
| Generator.SupplierOf | backend/app/scripts/create_product_dataset.py:56 | row i's Supplier is "Supplier " followed by decimal digits only, reading i mod 5 + 1, between 1 and 5 |
| Generator.DiscontinuedAt | backend/app/scripts/create_product_dataset.py:45-50 | a cell is a timestamp exactly when its `rand()` draw is below 0.1, and then lies within the 365 days up to that row's clock reading; otherwise it is missing |
| Generator.Columns | backend/app/scripts/create_product_dataset.py:38-60 | the dataset's columns are exactly the 14 names and each has one entry per row |
| Generator.TextColumn | backend/app/scripts/create_product_dataset.py:40-42 | a comprehension over `range(n)` gives n cells, cell i built from i |
| Generator.NumberColumn | backend/app/scripts/create_product_dataset.py:51-54 | the uniform draws become the column, in order |
| Generator.GenerateDataset | backend/app/scripts/create_product_dataset.py:23-60 | the generated dataset has exactly `num_samples` rows in every column |
| Generator.GeneratedColumns | backend/app/scripts/create_product_dataset.py:38-58 | a generated dataset has all 14 columns, each with `num_samples` entries |
| Generator.NamesAndCodesIdentifyRows | backend/app/scripts/create_product_dataset.py:40-41 | row i has Name "Product_" followed by the number i+1 and Code "P" followed by the number i+1000 |
| Generator.NamesAndCodesDistinct | backend/app/scripts/create_product_dataset.py:40-41 | two different rows have different Names and different Codes |
| Generator.DescriptionsAndNotesIdentifyRows | backend/app/scripts/create_product_dataset.py:42-55 | row i has Description "Description of product " followed by i+1 and Notes "Note " followed by i+1 |
| Generator.SuppliersCycle | backend/app/scripts/create_product_dataset.py:56 | row i has Supplier "Supplier " followed by i mod 5 + 1 |
| Generator.SuppliersPeriodic | backend/app/scripts/create_product_dataset.py:56 | the Supplier column repeats with period 5 |
| Generator.SupplierNamed | backend/app/scripts/create_product_dataset.py:56 | row i's supplier is the (i mod 5)-th of the five supplier names |
| Generator.AtMostFiveSuppliers | backend/app/scripts/create_product_dataset.py:56 | at most five distinct suppliers appear |
| Generator.SubsetCardinality | backend/app/scripts/create_product_dataset.py:56 | a subset is no larger than the set containing it |
| Generator.ImageBound | backend/app/scripts/create_product_dataset.py:56 | wrapping the names of a sequence gives no more distinct cells than the sequence has entries |
| Generator.CategoriesFromList | backend/app/scripts/create_product_dataset.py:36-43 | every generated Category is one of Food, Supplement, Beverage, Material, Other |
| Generator.ShelfLivesPositive | backend/app/scripts/create_product_dataset.py:57 | every ShelfLife is a day count in [30, 365) |
| Generator.DiscontinuedWithinAYear | backend/app/scripts/create_product_dataset.py:45-50 | DiscontinuedAt is a timestamp exactly when the row's `rand()` draw is below 0.1, and is then that row's own clock reading less a whole number of days in [0, 365); otherwise it is missing |
| Generator.ShelfLifeCells | backend/app/scripts/create_product_dataset.py:57 | a day count is written as its rendered text, one cell per row |
| Generator.GeneratedShelfLivesValid | backend/app/scripts/create_product_dataset.py:57 | with a duration parser that reads a rendered day count back, a generated ShelfLife column contributes 0 to `invalid_shelf_life` |
| Generator.NumberCells | backend/app/scripts/create_product_dataset.py:51-54 | a number column reads back as present values, one per row |
| Generator.GeneratedAveragesInRange | backend/app/scripts/create_product_dataset.py:51-54 | for at least one row, the mean BaseYield lies in [50, 100), the mean Cost in [10, 100) and the mean EnvironmentalImpact in [0.1, 5.0) |
| Generator.NumberColumnMean | backend/app/scripts/create_product_dataset.py:51-54 | the mean of a non-empty number column drawn in a range lies in that range |
| Repository.OrZero | backend/app/repositories/producto_repository.py:19-20 | a missing stock figure is stored as 0, a given one as given |
| Repository.Created | backend/app/repositories/producto_repository.py:18-20 | the stored product keeps the id, name, SKU and description; a stock figure is 0 exactly when it was missing or given as 0 |
| Repository.RenamesTo | backend/app/repositories/producto_repository.py:41-44 | a change is applied only to a new, different value; a missing or empty value, or the current one, changes nothing |
| Repository.IsLowStock | backend/app/repositories/producto_repository.py:64-66 | a product is low on stock only when its stock is below its minimum; one stored with non-negative stock and a minimum of 0 (the default) never is |
| Repository.Merge | backend/app/repositories/producto_repository.py:41-50 | the update changes nombre or sku exactly when the new value is non-empty and differs, and then to that value; it overwrites descripcion and stock whenever they are given; it never changes the id or stock_minimo |
| Repository.MergeIdempotent | backend/app/repositories/producto_repository.py:41-50 | applying the same update twice is the same as applying it once |
| Repository.MergeEmpty | backend/app/repositories/producto_repository.py:41-50 | an update with no fields set leaves the product unchanged, whatever its stock_minimo |
| Repository.Pick | backend/app/repositories/producto_repository.py:29 | some element of a non-empty set of ids is taken |
| Repository.Inserted | backend/app/repositories/producto_repository.py:86-87 | inserting products in order gives consecutive ids from the first one, each holding the product created from its input |
| Repository.InsertedStep | backend/app/repositories/producto_repository.py:86-87 | one more insert extends the inserted table by exactly the next product |
| Repository.SeededSkus | backend/app/repositories/producto_repository.py:73-84 | a complete seed stores ten products whose SKUs are BIO001 to BIO010 in id order, all with stock and stock_minimo 0 |
| Repository.InsertedSkus | backend/app/repositories/producto_repository.py:18-20 | inputs without stock figures are stored with 0 stock and 0 stock_minimo, and keep their SKUs in order |
| Repository.DemoSkusMatch | backend/app/repositories/producto_repository.py:73-84 | the ten demo inputs have SKUs BIO001 to BIO010 and no stock figures |
| Repository.ProductoRepository.constructor | backend/app/repositories/producto_repository.py:11-12 | a new repository starts with an empty table |
| Repository.ProductoRepository.CreateProducto | backend/app/repositories/producto_repository.py:15-26 | creation fails exactly when the uniqueness guard rejects the name and SKU, and then stores nothing; otherwise the product gets a fresh id, missing stock figures become 0, and it is stored under that id with nothing else changed |
| Repository.ProductoRepository.CollectWhere | backend/app/repositories/producto_repository.py:64-66 | the result holds exactly the stored products that satisfy the filter, each once |
| Repository.ProductoRepository.GetAllProductos | backend/app/repositories/producto_repository.py:28-30 | one entry per stored product: every entry is stored, every stored product is listed, and the count matches |
| Repository.ProductoRepository.DistinctIdsCount | backend/app/repositories/producto_repository.py:28-30 | a listing of stored products with distinct ids that covers the table has one entry per stored product |
| Repository.ProductoRepository.IdsOfDistinct | backend/app/repositories/producto_repository.py:28-30 | entries with pairwise distinct ids have as many ids as entries |
| Repository.ProductoRepository.GetProductoById | backend/app/repositories/producto_repository.py:32-34 | the result is missing exactly when no product has that id, and is otherwise the stored product |
| Repository.ProductoRepository.UpdateProducto | backend/app/repositories/producto_repository.py:36-54 | an unknown id gives no product and changes nothing; a rename rejected by the guard fails and changes nothing; otherwise the stored product is replaced by the merge and returned |
| Repository.ProductoRepository.DeleteProducto | backend/app/repositories/producto_repository.py:56-62 | the result is true exactly when the id was stored, and the table loses only that id |
| Repository.ProductoRepository.GetLowStockProducts | backend/app/repositories/producto_repository.py:64-66 | the result holds exactly the stored products with stock below stock_minimo, each once |
| Repository.ProductoRepository.SeedProductos | backend/app/repositories/producto_repository.py:68-89 | a non-empty table is left unchanged; an empty one receives the first m demo products in order with consecutive ids; m is 10 and the result a success unless the guard rejected demo product m, seen against the m already inserted |
| Repository.ProductoRepository.CreateAll | backend/app/repositories/producto_repository.py:86-87 | creating a list in order adds the first `created` inputs with consecutive ids and advances the next id by that many; it stops short only when the guard rejected input `created` against the table as it then stood, and succeeds exactly when all were created |
| Repository.ProductoRepository.CreateNext | backend/app/repositories/producto_repository.py:86-87 | one turn of the seeding loop: either the guard rejects the next input against the table built so far and nothing changes, or that input is inserted under the next id |

The test files state concrete expectations that these members cover in general:

- `test_calculate_product_metrics.py` (lines 29-45): `rows`, the global means and sum, and the per-category count, AvgYield and TotalCost. These follow from `ProductMetrics.ComputeMetrics` and `ProductMetrics.CategoryMetricsMeaning`. Lines 48-60, the exit status 0 and the keys of the output, follow from `ProductMetrics.RunMetrics`.
- `test_exploratory_analysis.py` (lines 26-46): the head size follows from `Exploratory.LoadHead`; the averages, including Cost as a mean, from `Exploratory.ComputeSummary`; the per-record counts and all three means from `Exploratory.CategorySummaryMeaning`.
- `test_create_product_dataset.py` (lines 6-27): the row count and the 14 columns follow from `Generator.GeneratedColumns`.

## Left out

- File I/O and the command line: argument parsing, `Path.exists`, `read_csv`, `to_csv`, `json.dump`, `mkdir` and the default paths. An input file is given as an outcome: not found, unreadable, or loaded as a table.
- Console output: the printed counts, minimums, maximums and messages, including the min/max figures the integrity check prints. These affect no result.
- Type inference in `read_csv`. Every cell is text or missing until a parser coerces it. A cell that pandas reads as the text "nan" becomes missing when read, so the model does not distinguish the two.
- The grammars of `pd.to_numeric` and `pd.to_timedelta`. Both are parameters.
- IEEE-754 arithmetic. Means and sums are exact reals; NaN is a separate value.
- Uncaught exceptions (for example the `usecols` `ValueError`). The model takes Python's default: the process ends with status 1.
- The order of dictionary entries and records. `by_category` is a map in both models, so the order of records from `to_dict(orient="records")` is not modelled.
- Numeric types of the JSON output: the counts are naturals; the `int(...)` and `float(...)` conversions are identities on exact values.
- The concrete numbers in the two test files (250.0, 50.0, 3.0, 150.0, 19.5, 10.0). The general lemmas about means, sums and group sizes cover them, but no lemma evaluates the sample table.
- Random generation: `np.random.seed`, the distributions, `uuid.uuid4` and `datetime.now()`. The draws, the Id strings and the clock readings are inputs, one clock reading per row, as the comprehension reads the clock anew for each discontinued row. Seed reproducibility and the order in which the draws are taken are not stated.
- Generator.RenderDays: the CSV text of a whole-day `timedelta` is assumed to be "N days 00:00:00". `to_csv`'s formatting is not part of this model, and `GeneratedShelfLivesValid` holds for any duration parser that reads this text back.
- Generator.GenerateDataset: a negative `num_samples`, for which numpy raises, is excluded by the type `nat`; the uniqueness of the uuid Ids is not stated.
- The IsActive probabilities (0.9 / 0.1) and the DiscontinuedAt probability (0.1). Only the ranges of the draws are modelled.
- The SQLAlchemy session (`add`, `commit`, `refresh`, `query`) and the ORM/domain mappers. The session is the in-memory map; a commit is the map update.
- The body of `check_unicidad_producto`. It is an abstract guard that sees the committed table and may reject, which stands for the exception it raises.
- Repository.ProductoRepository.UpdateProducto: a guard in the source may also see a pending rename of nombre flushed before the sku check; the model's guard sees the committed table for both checks.
- The `ProductoCreate` and `ProductoUpdate` schemas are not part of this model. Their fields are taken as used in the repository: text nombre and sku, optional descripcion, optional stock figures. `ProductoUpdate.stock_minimo` is carried but never applied, as in the repository.
- `stock or 0` also turns a given 0 into 0, which is the same value, so `OrZero` covers it.
- The ordering of `get_all_productos` and `get_low_stock_products`. Database order is not shown; the results are stated as sets of stored products, each once.
- `backend/app/main.py`, `backend/app/console/main_console.py` and `backend/app/db/models/__init__.py`: web wiring, an interactive menu and re-exports, with no logic to state.
