# Brand vs generic prescription metrics — a Dafny model

This project models the data-reshaping core of a pharmaceutical sales
dashboard. Its tables hold box counts ("boîtes") keyed by region (BEN_REG),
sex (sexe), age band (age) and a product code. A brand product is keyed by its
CIP13; a generic group is keyed by its GEN_NUM. Each prescriber specialty
(PSP_SPE) gets its own column. The model covers six pieces of that core:

- **The wide-table loader `load_unified`** (utils/loaders.py, its identical copy
  pharma/utils/loaders.py, and the app_streamlit.py variant). It coerces the
  numbers, resolves the Region/Sex/Age labels, picks a "Medication" or
  "Generic" display column, drops the raw codes and renames the prescriber
  columns. Modules: `Loaders`, `LoaderFacts`, `AppLoader`.
- **The wide-shape builder of `execute_query`** (pharma/backend/execute_query.py).
  It sums the coerced BOITES per (region, sex, age, product) and per
  prescriber, pivots the prescribers into columns, and merges the two.
  Module: `WideShape`.
- **The labelled copies and the entry point `execute_query`**. Module:
  `QueryPipeline`.
- **`prepare_unified` and `compare_brand_vs_generic`**. The segment outer merge,
  `combined_total` and `brand_share`, the three one-dimension rollups and the
  prescriber melt and merge. Module: `BrandGeneric`.
- **The long-form page pharma/pages/3_Brand_vs_Generic.py**. It covers
  `load_long`, the four-label outer merge with `Sanofi_Share`, and `aggregate`
  with `Volume_Share`. Module: `LongCompare`.
- **The summary page pages/3_Brand_vs_Generic.py**. It covers `load_and_prep`,
  the generic-products table `gp` with its per-group share and `is_ours`
  flag, and the four-label slice with its top five. Module: `SummaryPage`.

The pandas building blocks are stated once and used by every module:

- `Cells`: a cell read as text, and numeric coercion.
- `Lookup`: a code replaced by its label, with fallback to the code.
- `Frames`: a table of named columns, with column assignment, drop, select and
  rename.
- `Relational`: group-by sums, and an outer merge that allows repeated keys.
- `Sorting`: `sort_values` and `nlargest`.

Reading CSVs, the lookup tables (`load_maps`), the database and the number
parser behind `pd.to_numeric` are all parameters. A table is a value given to
the model. The lookup tables are a `Maps` record. Parsing a string is a
function `string -> Option<real>`.

Shares are exact `real`s. A share the source computes without a zero guard is
`Option<real>`, and it is `None` where the source produces NaN (emitted later
as `None`). A share the source guards with `np.where` is a `real` that is 0
on a zero total.

Where the code steps through a frame in a loop, the model is a `method`. This
covers `load_unified`, the coercion loop of `load_long` and the loop of
`load_and_prep`. Each such method is proved equal to a function that states
the whole result. The properties are proved about that function.
Whole-table expressions are functions: groupby, merge, melt, pivot,
`sort_values` and `nlargest`. The straight-line column assignments of
pharma/backend/execute_query.py (`product_type`, `combined_total`,
`brand_share`, the label columns) and the `agg` and `gp` tables of the Brand vs Generic pages are
functions too. Each builds the finished table as one value; see "## Left out".

## Model

| member | source | states |
|---|---|---|
| Cells.Trunc | app_streamlit.py:16-20 | `astype(int)` truncates toward zero: the result is within 1 of the number, on the same side of 0 |
| Cells.CoerceInt | utils/loaders.py:20-24 | a missing or unparsable cell becomes 0; a number becomes its truncation toward zero |
| Cells.CoerceReal | pages/3_Brand_vs_Generic.py:18-20 | a missing or unparsable cell becomes 0.0 and a number is kept exactly; truncating the result gives the integer coercion of the same cell, so the float and int readings of a cell agree |
| Lookup.ResolveInjective | utils/loaders.py:53-56 | `presc_map.get(c, c)` on two distinct codes gives the same name exactly when both labels coincide or one label is spelled like the other code; with no such clash, distinct codes keep distinct names |
| Lookup.ResolveCellChanges | utils/loaders.py:37-39 | `map(m).fillna(col)` changes a cell exactly when it is a text code with a different label; text stays text, a missing cell stays missing |
| Frames.Assign | utils/loaders.py:37-47 | `df[n] = vals` overwrites an existing column in place or appends a new one; every other column is unchanged and the names stay distinct |
| Frames.Drop | utils/loaders.py:50 | `drop(errors="ignore")`: exactly the named columns disappear, absent names are ignored, every kept cell is unchanged |
| Frames.RenameKeepsDistinct | utils/loaders.py:55 | `rename(columns=m)`: every new name is an old one or a label, and a header of distinct names stays distinct when no two columns resolve to the same name |
| Frames.CoerceColumns | utils/loaders.py:27-32 | the listed columns are int-coerced cell by cell; the header and the other columns are unchanged |
| Frames.Without | utils/loaders.py:26 | the kept names are exactly the names not excluded, still distinct |
| Frames.KeptIndices | utils/loaders.py:26 | each kept name is the header's name at its recorded position |
| Frames.KeptIndicesOrdered | utils/loaders.py:26 | the kept positions increase and include every non-excluded position, so the kept names keep the header order |
| Relational.GroupSum | pharma/backend/execute_query.py:53-54 | `groupby(key).sum()`: one row per distinct key, each holding the sum over the rows with that key |
| Relational.GroupSumConserves | pharma/backend/execute_query.py:171-175 | grouping keeps the grand total of the summed column |
| Relational.GroupSum2 | pharma/backend/execute_query.py:68-71 | a two-column group-by sum: one row per distinct key, both sums per key |
| Relational.GroupSum2Conserves | pharma/backend/execute_query.py:68-71 | both summed columns keep their grand totals |
| Relational.OuterMerge | pharma/backend/execute_query.py:109-113 | `merge(how="outer").fillna(0)`: every row comes from a matched pair, a left row without a partner (0 on the right) or a right row without a partner (0 on the left); every key of either side appears |
| Relational.MergeDistinctSums | pharma/backend/execute_query.py:56 | with distinct keys on each side, the outer merge keeps both sides' totals |
| Relational.OuterMergeCounts | pharma/backend/execute_query.py:109-113 | `merge(how="outer").fillna(0)` row for row: (k, a, b) occurs (left rows (k, a)) × (right rows (k, b)) times when both sides have k; (left rows (k, a)) times with b = 0 when only the left side has k; (right rows (k, b)) times with a = 0 when only the right side has k; never otherwise |
| Relational.OuterMergeComplete | pharma/backend/execute_query.py:109-113 | every left row and right row with the same key appear paired in the merge; a row whose key the other side lacks appears with 0 on that side |
| Relational.OuterMergeManyToMany | pharma/backend/execute_query.py:109-113 | with repeated keys, the merge pairs every left row with every right row: two rows on each side give four rows and double the left total, so key uniqueness is not claimed for the prescriber merge |
| Sorting.SortBy | pharma/backend/execute_query.py:59 | `sort_values`: a permutation of the rows, sorted by the key, NaN last |
| Sorting.SortBySum | pharma/backend/execute_query.py:74 | sorting keeps every column's total |
| Sorting.NLargest | pages/3_Brand_vs_Generic.py:189 | `nlargest(n, keep="first")`: min(n, size) rows of the input, in descending order, none smaller than a row left out; for every key value, the rows kept are the first rows of the input with that key, in input order |
| Sorting.SortByStable | pages/3_Brand_vs_Generic.py:189 | the model's sort keeps rows with equal keys in input order, which gives `keep="first"` its earliest-rows-win behaviour |
| Loaders.CoerceNumbers | utils/loaders.py:20-32 | `total_boites` and every column outside the key set become integers; the key columns keep the text read |
| Loaders.MapDemographics | utils/loaders.py:37-39 | adds Region, Sex and Age as the resolved labels of BEN_REG, sexe and age; the other columns are unchanged |
| Loaders.ProductLabel | utils/loaders.py:42-47 | for GEN_NUM, "Generic" holds GEN_NUM as it stands; otherwise "Medication" holds the cpi label of CIP13; the display name is returned |
| Loaders.RenamePrescribers | utils/loaders.py:50-56 | raw codes dropped, each non-core column takes its prescriber label, and the returned list is those labels in column order |
| Loaders.LoadUnifiedWith | utils/loaders.py:13-58 | the load equals `Expected`: a KeyError on the first column read and not found, otherwise the kept columns under their new names with their coerced or labelled cells |
| Loaders.LoadUnified | pharma/utils/loaders.py:13-58 | the same, with the six-column key set of both loader files |
| LoaderFacts.LoadFails | utils/loaders.py:20-47 | the load fails exactly when total_boites, BEN_REG, sexe, age or the chosen code column is absent, and the error names an absent column |
| LoaderFacts.OtherCodeIgnored | utils/loaders.py:50 | a table lacking the other code column still loads; the drop ignores the absence |
| LoaderFacts.ResultShape | utils/loaders.py:18-58 | the result keeps the number and order of rows, one cell per kept column |
| LoaderFacts.ResultCell | utils/loaders.py:18-58 | each result cell is its kept column's coerced or labelled cell, under that column's new name |
| LoaderFacts.TotalBoxes | utils/loaders.py:20-24 | `total_boites` keeps its name and holds the int coercion of the cell read |
| LoaderFacts.DemographicLabels | utils/loaders.py:37-39 | Region, Sex and Age hold the label of the raw code, or the code when the table lacks it |
| LoaderFacts.GenericColumn | utils/loaders.py:42-44 | a generic table's display column is "Generic", holding GEN_NUM as read |
| LoaderFacts.MedicationColumn | utils/loaders.py:45-47 | any other table's display column is "Medication", holding the cpi label of CIP13 or the code |
| LoaderFacts.PrescriberColumn | utils/loaders.py:25-32 | every other kept column is an original non-code column: it is renamed to its prescriber label (or keeps its name) and holds int-coerced cells |
| LoaderFacts.CodesDropped | utils/loaders.py:50 | no raw code column survives; a result column can bear a code's name only as some prescriber label |
| LoaderFacts.PrescriberList | utils/loaders.py:53-56 | the prescriber list is the result's header at the prescriber positions, in order and of the same length |
| AppLoader.LoadUnified | app_streamlit.py:11-62 | the app's load equals `Expected` under its five-column key set (no GEN_NUM) |
| AppLoader.SameKeys | app_streamlit.py:23 | the two key sets differ only in GEN_NUM |
| AppLoader.CoercedAgree | app_streamlit.py:15-32 | every column but GEN_NUM is coerced by the two loaders alike |
| AppLoader.VariantsAgree | app_streamlit.py:40-60 | the two loaders give the same display name, header and prescriber list, and the same cell everywhere but a generic table's "Generic" column |
| AppLoader.GenericVariants | app_streamlit.py:46-48 | in a generic table the app's "Generic" holds the int-coerced GEN_NUM (0 if unparsable), where the library loader keeps GEN_NUM as read |
| WideShape.PivotShape | pharma/backend/execute_query.py:185-194 | `pivot_table`: one row per distinct key of `dist` and one column per distinct PSP_SPE, each once, every row as wide as the columns |
| WideShape.PivotFill | pharma/backend/execute_query.py:185-194 | `fill_value=0`: a (key, PSP_SPE) pair without a `dist` row has a 0 cell |
| WideShape.PivotValue | pharma/backend/execute_query.py:178-194 | with one `dist` row per (key, PSP_SPE), as the group-by makes it, a cell holds that row's value |
| WideShape.BuildWide | pharma/backend/execute_query.py:166-197 | an empty result raises KeyError on BOITES; otherwise the table is rectangular and tagged with its code column |
| WideShape.InnerMergeOneToOne | pharma/backend/execute_query.py:197 | when the pivot has each total's key exactly once, the inner merge keeps every total row in order, with its pivot cells |
| WideShape.PivotComplete | pharma/backend/execute_query.py:185-194 | every key of the records has its pivot row |
| WideShape.WideRowsAre | pharma/backend/execute_query.py:171-197 | the rows are the group totals in order, each with the pivot cells of its key |
| WideShape.WidePrescribers | pharma/backend/execute_query.py:185-194 | the prescriber columns are exactly the PSP_SPE values of the records, each once |
| WideShape.WideKeys | pharma/backend/execute_query.py:171-175 | one row per distinct (BEN_REG, sexe, age, product) of the records, each once |
| WideShape.WideTotals | pharma/backend/execute_query.py:168-175 | a row's `total_boites` is the sum of its records' coerced BOITES |
| WideShape.WideCells | pharma/backend/execute_query.py:178-194 | a row's prescriber cell is the sum of the BOITES of its key and that PSP_SPE, 0 when there are none |
| WideShape.WideCellsSum | pharma/backend/execute_query.py:171-194 | the prescriber cells of a row add up to its `total_boites` |
| WideShape.WideConserves | pharma/backend/execute_query.py:171-175 | the `total_boites` column adds up to all the coerced BOITES |
| WideShape.WideNonNegative | pharma/backend/execute_query.py:168-194 | non-negative BOITES give non-negative totals and cells |
| QueryPipeline.LabelWide | pharma/backend/execute_query.py:199-214 | the header is total_boites, the prescriber labels, Region, Sex, Age and the product column; rows keep their counts and show the labels of their codes |
| QueryPipeline.LabelledRows | pharma/backend/execute_query.py:166-214 | every labelled row shows some record's labels and that key's total, and every record's labels have a row |
| QueryPipeline.LabelledConserves | pharma/backend/execute_query.py:199-214 | labelling keeps the total of all coerced BOITES |
| QueryPipeline.PlainWide | pharma/backend/execute_query.py:209-211 | records whose PSP_SPE is never a fixed column name give a table whose prescriber columns are all renamed |
| QueryPipeline.ExecuteQuery | pharma/backend/execute_query.py:133-292 | the call fails (KeyError on BOITES) exactly when either query returns no record |
| QueryPipeline.ExecuteQueryMetrics | pharma/backend/execute_query.py:281 | the metrics compare the unlabelled brand and generic tables |
| QueryPipeline.ExecuteQueryConserves | pharma/backend/execute_query.py:166-281 | the segment table and the three rollups each account for all brand and all generic BOITES |
| QueryPipeline.ExecuteQueryShares | pharma/backend/execute_query.py:166-281 | with non-negative BOITES, every metrics row has a share in [0, 1] wherever its combined total is positive |
| BrandGeneric.PrepareUnified | pharma/backend/execute_query.py:18-32 | CIP13 (else GEN_NUM) becomes `product_code` and a `product_type` tag is added; with neither column it raises KeyError; the input is untouched |
| BrandGeneric.PrescriberColumns | pharma/backend/execute_query.py:93-94 | the prescriber columns are exactly the columns outside the six fixed names |
| BrandGeneric.PrepareFails | pharma/backend/execute_query.py:25-30 | on a table with plain prescriber names, preparing fails exactly when its code column is neither CIP13 nor GEN_NUM |
| BrandGeneric.PrepareKnown | pharma/backend/execute_query.py:25-28 | a CIP13 or GEN_NUM table always prepares |
| BrandGeneric.PreparedPrescribers | pharma/backend/execute_query.py:93-94 | after preparing, the prescriber columns are the table's own PSP_SPE columns |
| BrandGeneric.Ratio | pharma/backend/execute_query.py:58 | the unguarded division has no value exactly when the divisor is 0, and otherwise its value times the divisor is the dividend |
| BrandGeneric.WithShares | pharma/backend/execute_query.py:57-58 | every row keeps its key and counts; `combined_total` is brand + generic; `brand_share` has no value exactly when the combined total is 0, and otherwise share × combined = brand |
| BrandGeneric.ShareInUnit | pharma/backend/execute_query.py:58 | with non-negative counts and a positive combined total, the share is in [0, 1] |
| BrandGeneric.RelabelKeeps | pharma/backend/execute_query.py:62-65 | only the key changes, to the label of the old key; counts, combined totals and shares are kept, so the table keeps its totals, its consistency and its share bounds |
| BrandGeneric.RelabelSorted | pharma/backend/execute_query.py:59-65 | labelling after sorting keeps the order by share |
| BrandGeneric.SegmentsExact | pharma/backend/execute_query.py:53-65 | one segment row per (BEN_REG, sexe, age) key of either side, each once, each holding that side's `total_boites` sum (0 when the side lacks it) |
| BrandGeneric.SegmentsConserve | pharma/backend/execute_query.py:53-56 | the segment table keeps each side's total box count |
| BrandGeneric.SegmentsConsistent | pharma/backend/execute_query.py:57-59 | every segment row computes its combined total and share from its counts; the table is sorted by share |
| BrandGeneric.RollupRows | pharma/backend/execute_query.py:68-73 | every rollup row sums the segments with its label and recomputes its share from those sums |
| BrandGeneric.RollupHas | pharma/backend/execute_query.py:68-71 | every label of the segments has its rollup row |
| BrandGeneric.RollupCount | pharma/backend/execute_query.py:68-71 | one rollup row per distinct label |
| BrandGeneric.RollupConserves | pharma/backend/execute_query.py:68-90 | a rollup keeps the brand, generic and combined totals of the segment table |
| BrandGeneric.RollupConsistent | pharma/backend/execute_query.py:72-74 | rollup rows are consistent and sorted by share |
| BrandGeneric.MeltEntries | pharma/backend/execute_query.py:96-107 | the melt has one entry per (row, prescriber column) and nothing else |
| BrandGeneric.MeltKeys | pharma/backend/execute_query.py:96-107 | every (segment, PSP_SPE) pair of a table is a key of its melt |
| BrandGeneric.PrescriberRows | pharma/backend/execute_query.py:109-123 | every prescriber row is consistent and is labelled from a key merged from the two melts |
| BrandGeneric.PrescriberCoverage | pharma/backend/execute_query.py:109-123 | on tables whose PSP_SPE codes are not spelled like a fixed column, every (segment, PSP_SPE) pair of either side has a row, under its labels |
| BrandGeneric.PrescribersConsistent | pharma/backend/execute_query.py:114-116 | prescriber rows are consistent and sorted by share |
| BrandGeneric.CompareBrandVsGeneric | pharma/backend/execute_query.py:34-131 | the comparison fails exactly when either table lacks a product code column, with the source's message; on success, the columns lines 93-94 melt are exactly each table's PSP_SPE columns |
| BrandGeneric.ComparisonConserves | pharma/backend/execute_query.py:53-90 | the segment table and the three rollups each keep both sides' totals |
| BrandGeneric.ComparisonConsistent | pharma/backend/execute_query.py:53-123 | all five tables compute combined and share from their counts and are sorted by share |
| BrandGeneric.ComparisonShares | pharma/backend/execute_query.py:53-123 | with non-negative counts, every row of all five tables has a share in [0, 1] where its combined total is positive |
| LongCompare.DigitColumns | pharma/pages/3_Brand_vs_Generic.py:24 | the prescriber columns are exactly the all-digit column names, each once |
| LongCompare.DigitColumnsInOrder | pharma/pages/3_Brand_vs_Generic.py:24 | the digit columns are the header without its other names: they sit at increasing header positions and every digit-named position is among them |
| LongCompare.CoerceCounts | pharma/pages/3_Brand_vs_Generic.py:27-29 | after the loop, `total_boites` and every digit column are int-coerced and nothing else changes |
| LongCompare.MeltAll | pharma/pages/3_Brand_vs_Generic.py:37-43 | an entry is in the melt exactly when some (row, prescriber column) gives it with a positive count |
| LongCompare.Grid | pharma/pages/3_Brand_vs_Generic.py:37 | `melt` before the filter has rows × columns entries |
| LongCompare.GridAt | pharma/pages/3_Brand_vs_Generic.py:37 | the entry of row i under the j-th column sits at position j × rows + i |
| LongCompare.MeltAllGrid | pharma/pages/3_Brand_vs_Generic.py:37-43 | the melt is that grid with the non-positive counts removed, in order, so each positive cell gives exactly one entry even when entries are equal |
| LongCompare.Capitalize | pharma/pages/3_Brand_vs_Generic.py:47 | `str.capitalize`: same length, first letter upper case, the rest lower case |
| LongCompare.ValueColumns | pharma/pages/3_Brand_vs_Generic.py:47-51 | the two loads name their counts Boxes_Generic and Boxes_Sanofi |
| LongCompare.LoadLong | pharma/pages/3_Brand_vs_Generic.py:22-47 | the load equals `LongOf`: the KeyError of the first missing column, or the labelled positive entries |
| LongCompare.CoercedEntry | pharma/pages/3_Brand_vs_Generic.py:27-44 | an entry holds its row's labels, its prescriber label and the int-coerced cell |
| LongCompare.LongEntries | pharma/pages/3_Brand_vs_Generic.py:22-47 | the load fails exactly when a label column or total_boites is absent; otherwise an entry appears exactly when some positive (row, digit column) cell gives it, labelled |
| LongCompare.LongEntriesGrid | pharma/pages/3_Brand_vs_Generic.py:22-47 | a successful load is the grid of (digit column, row) entries of the coerced table with the non-positive counts removed, in order |
| LongCompare.GridCsvEntry | pharma/pages/3_Brand_vs_Generic.py:27-44 | the grid entry of the j-th digit column and row i is that CSV cell's labelled, int-coerced entry |
| LongCompare.PositiveEntries | pharma/pages/3_Brand_vs_Generic.py:43 | every entry of a loaded long table has a positive count |
| LongCompare.Counts | pharma/pages/3_Brand_vs_Generic.py:57 | one (labels, count) pair per entry, in order, keyed by the entry's four labels |
| LongCompare.CountsTotal | pharma/pages/3_Brand_vs_Generic.py:57 | the pairs keep every entry's labels and all of its boxes |
| LongCompare.FillZero | pharma/pages/3_Brand_vs_Generic.py:59 | a filled label is never missing; it differs from the label read exactly when that was missing, and then it is 0 |
| LongCompare.CombineRows | pharma/pages/3_Brand_vs_Generic.py:54-62 | every merged row comes from a merge key, with 0 for the missing side and its total and share computed from the counts |
| LongCompare.CombineCovers | pharma/pages/3_Brand_vs_Generic.py:54-59 | no entry of either side is lost by the outer merge: a generic and a Sanofi entry with the same four labels meet in a row holding both counts; an entry whose labels the other side lacks gets a row with its count and 0 for the other side |
| LongCompare.ShareBounded | pharma/pages/3_Brand_vs_Generic.py:62 | the zero-guarded Sanofi share of non-negative counts is in [0, 1] |
| LongCompare.CombineShares | pharma/pages/3_Brand_vs_Generic.py:59-62 | with positive entry counts, every merged row has a positive total and a share in [0, 1] |
| LongCompare.CombineConserves | pharma/pages/3_Brand_vs_Generic.py:54-61 | with no repeated label combination, the merge keeps the Generic, Sanofi and combined totals |
| LongCompare.LongComparison | pharma/pages/3_Brand_vs_Generic.py:49-62 | the page's merged table fails exactly when either load fails |
| LongCompare.LongComparisonRows | pharma/pages/3_Brand_vs_Generic.py:49-62 | the counts are named Boxes_Generic and Boxes_Sanofi; every row comes from a merge key with a positive total and a share in [0, 1] |
| LongCompare.Grouped | pharma/pages/3_Brand_vs_Generic.py:74-82 | one group per distinct label of the view, each the group of its label |
| LongCompare.AggregateRows | pharma/pages/3_Brand_vs_Generic.py:74-82 | every aggregate row sums its label's rows and computes its total, share and volume share from those sums |
| LongCompare.AggregateKeys | pharma/pages/3_Brand_vs_Generic.py:74-78 | the labels of the aggregate are exactly the labels of the table, one row each |
| LongCompare.AggregateSorted | pharma/pages/3_Brand_vs_Generic.py:83 | the groups come in descending order of total |
| LongCompare.AggregateConserves | pharma/pages/3_Brand_vs_Generic.py:74-80 | the groups keep the table's Generic, Sanofi and combined totals |
| LongCompare.VolumeSharesSum | pharma/pages/3_Brand_vs_Generic.py:80-82 | when the table holds any boxes, the volume shares add up to 1 |
| LongCompare.VolumeBounded | pharma/pages/3_Brand_vs_Generic.py:82 | the volume share of a part of a non-negative whole is in [0, 1] |
| LongCompare.AggregateBounded | pharma/pages/3_Brand_vs_Generic.py:79-82 | with non-negative counts, every group's share and volume share are in [0, 1] |
| SummaryPage.RealCoerced | pages/3_Brand_vs_Generic.py:18-20 | each listed column that is present is coerced to a number (0 if unparsable); absent ones are skipped; other columns are unchanged |
| SummaryPage.Divide | pages/3_Brand_vs_Generic.py:23 | the unguarded division has a value exactly for two numbers with a non-zero divisor, and then value × divisor = dividend; otherwise the cell is missing |
| SummaryPage.LoadAndPrep | pages/3_Brand_vs_Generic.py:15-27 | after the loop, the result equals `Prepped`: the coerced table, the share added when absent, the code column labelled and renamed |
| SummaryPage.PreppedErrors | pages/3_Brand_vs_Generic.py:22-27 | the call fails exactly when the share needs a missing combined_total (checked first) or the code column is missing |
| SummaryPage.PreppedCells | pages/3_Brand_vs_Generic.py:15-27 | the header is the one read, plus `generic_share` when added, with the code column renamed; every cell read stays in place, coerced or labelled |
| SummaryPage.PreppedShare | pages/3_Brand_vs_Generic.py:22-23 | the added share is generic_total / combined_total, missing where combined_total is 0 |
| SummaryPage.FirstMissing | pages/3_Brand_vs_Generic.py:36-46 | none is missing exactly when every column read is present, else a column read that is absent |
| SummaryPage.FirstMissingFirst | pages/3_Brand_vs_Generic.py:36-46 | the column reported comes no later than any absent column, so it is the first absent one in read order, the one the KeyError names |
| SummaryPage.ProductsRows | pages/3_Brand_vs_Generic.py:36-46 | `gp` fails exactly when a column it reads is absent; otherwise it has one product per row with its labels, integer boxes, `is_ours` and its share in its generic group |
| SummaryPage.GroupSharesSum | pages/3_Brand_vs_Generic.py:37-41 | the shares within a generic group add up to 1 when the group's total is non-zero |
| SummaryPage.SharesBounded | pages/3_Brand_vs_Generic.py:41 | with non-negative boxes, every share is in [0, 1] |
| SummaryPage.Slice | pages/3_Brand_vs_Generic.py:180-185 | the slice keeps exactly the products matching all four labels, each as often as in the input |
| SummaryPage.SliceOrdered | pages/3_Brand_vs_Generic.py:180-185 | the slice's t-th product is the one at the t-th kept position; the kept positions increase, each holds a matching product, and every matching position is kept: the boolean mask keeps the table's row order |
| SummaryPage.TopFiveOfSlice | pages/3_Brand_vs_Generic.py:180-189 | the top five has min(5, slice size) products of the slice, all matching, descending in boxes, none below a product left out; among products with equal boxes, the earliest ones of the slice are kept |

## Left out

- I/O is left out. This covers `pd.read_csv`, `load_maps`, the database connection and its SQL, the environment, the `st.cache_data` cache and the JSON export at pharma/backend/execute_query.py:284-292. Tables, query records, lookup maps and the number parser are parameters.
- The UI is left out: Streamlit widgets, the view radio, the selectboxes, the plots, the percentage formatting and the `ours` table of pages/3_Brand_vs_Generic.py:207-215. The selection the widgets produce is a parameter (`View`, `Selection`).
- pharma/backend/db.py, pharma/backend/main.py and the other pages are not part of this model.
- Row order of group-by, pivot columns and merges: pandas sorts group keys and pivot columns. The model keeps the order of first appearance, so only the set of rows is stated, never their order.
- Sorting.SortBy: pandas' `sort_values` is not stable, so the model's `SortBy` promises only a sorted permutation. Its own tie order (input order, `Sorting.SortByStable`) is used only to derive `nlargest`'s `keep="first"`.
- Cells.CoerceInt: the number parser is taken to yield finite values within the 64-bit range. `to_numeric("inf")` gives an infinity that `fillna(0)` keeps, and `astype(int)` then raises; values beyond int64 raise or wrap. The model truncates every parsed value and never fails there.
- Floating point is left out. Shares are exact rationals. NaN and ±infinity from an unguarded division (`x / 0`) are both modelled as "no value": `BrandGeneric.Ratio` gives `None` and `SummaryPage.Divide` gives `Missing`.
- A group key that is NaN is not modelled in `compare_brand_vs_generic`, whose keys are strings. In `gp`, a missing Generic label gets no share.
- Number parsing (`pd.to_numeric`) is a parameter. `str()` of a numeric code before the lookups of pharma/backend/execute_query.py:62-64 and 203-206 is the identity on the string codes the model uses.
- QueryPipeline.ExecuteQuery: it requires that no PSP_SPE value is spelled like a fixed column name. The names are BEN_REG, sexe, age, the code column, Region, Sex, Age, the display column, total_boites, product_code, product_type, CIP13 and GEN_NUM. Otherwise pandas would give a table duplicate column names, overwrite the PSP_SPE column with the `product_type` tag, or rename it to `product_code` and melt the codes as counts. The model does not represent those tables.
- BrandGeneric.CompareBrandVsGeneric: like `BrandGeneric.PrescriberTable` and every lemma about their results, it requires `Plain` tables, whose PSP_SPE codes are none of BEN_REG, sexe, age, product_code, total_boites, product_type, CIP13 and GEN_NUM. A table with such a PSP_SPE column loses that prescriber or melts code values as counts in the source. The model does not say what happens then.
- BrandGeneric.PrescriberCoverage: it is stated only for `Plain` tables, for the same reason.
- QueryPipeline.LabelWide: the same restriction as `QueryPipeline.ExecuteQuery`.
- BrandGeneric.PrepareFails: it is stated only for tables whose PSP_SPE names are not fixed column names, for the same reason.
- WideShape.BuildWide and QueryPipeline.ExecuteQuery: the query's key columns (BEN_REG, sexe, age, the product code, PSP_SPE) are taken to be non-NULL, since a `Fact`'s keys are strings. pandas' group-bys at pharma/backend/execute_query.py:171-182 drop NaN keys. A record with a NULL PSP_SPE would count in `total_boites` but in no prescriber cell. A record with another NULL key would drop out of both.
- Loaders.LoadUnifiedWith: a prescriber label equal to another column's name gives duplicate column names after the rename. The model keeps the header as a sequence and states cells by position, not by name.
- LongCompare.Capitalize: it covers ASCII case mapping only. `LongCompare.IsDigits` likewise covers ASCII digits only.
- LongCompare.CombineConserves: it is proved only when neither long table repeats a label combination. With repeated combinations the merge is many-to-many and multiplies rows; `Relational.OuterMergeManyToMany` shows this.
- BrandGeneric.PrepareUnified, BrandGeneric.WithShares, BrandGeneric.Relabel and QueryPipeline.LabelWide: each builds its finished table as one value. The source instead assigns columns one at a time, in place, on a frame local to the function. Those assignments are `df['product_type']` at pharma/backend/execute_query.py:31, `combined_total` and `brand_share` at 57-58 and 114-115, the label columns at 62-64 and 119-122, and `unified_df_mapped[...]` at 203-206. The model does not capture the update in place or the intermediate frames. Aliasing is not captured either; it cannot be seen here, because each frame comes fresh from `rename`, `merge` or `copy` and no caller holds it. The order of the new columns is stated in the contracts, as the header each function returns.
- LongCompare.Aggregate: the added columns are computed with the groups. This stands in for assigning `Boxes_Total`, `Sanofi_Share` and `Volume_Share` to `agg` in place one after another.
- SummaryPage.ProductsOf: the same holds for the `gp` column assignments of pages/3_Brand_vs_Generic.py:37-46. The model builds the records whole.
- The SQL `IN ()` of an empty code list (a database error) is not modelled; an empty query result is modelled.
