# Cleaning utilities for the San Francisco RHNA parcel pipeline

This project models `clean_utils.py`, the cleaning and linking helpers of a
pipeline. The pipeline links San Francisco parcels, the housing-element site
inventory, the assessor's tax roll and DBI building permits across Regional
Housing Needs Allocation (RHNA) cycles. The helpers come in two near-identical
copies: `pdev/clean_utils.py` and the one at the repository root. Each copy is
one Dafny module of entry points: `PdevCleanUtils` and `RootCleanUtils`. Both
are built on shared modules:

- `Tables`: boolean-mask row selection, `map`, and `unique` on row sequences.
- `Text`: lower-casing, substring tests, `str` of an integer, and removal of a
  character.
- `Frames`: a column frame class with the in-place `clean_dates` and
  `clean_numbers`.
- `Caching`: the memoised module globals `ALLPARCELS` and `DBIPERMITS`.
- `Records`: typed rows of the parcel, permit, site, tax and candidate tables.
  Dates hold the year of the timestamp, or `None` for NaT.
- `Windows`: the cycle constants and the parcel survival filters for RHNA4 and
  RHNA5.
- `Permits`: the derived permit columns, the cycle-window test and the RHNA
  classification.
- `Pipeline`: the group-by aggregation of `get_pipeline_permits`.
- `Linkage`: the site-inventory flag, the tax join with its spatial fallback,
  and the bluesky right merge with its most-recent choice and backup lists.

A pandas comparison with NaT or NaN is false. So a missing year never excludes
a parcel and never puts a permit in a window, and the model states this
explicitly. Every filter keeps rows unchanged and in order: the result is a
subsequence of the input that holds every copy of a selected row and no copy
of another. Every filter contract says which rows survive, in both directions.

## Model

| member | source | states |
|---|---|---|
| Tables.Filter | pdev/clean_utils.py:43-46 | A boolean mask keeps exactly the rows it selects, unchanged and in order, and never more rows than it had |
| Tables.FilterMultiset | pdev/clean_utils.py:43-46 | The mask keeps every copy of a selected row and no copy of any other row |
| Tables.FilterFilter | pdev/clean_utils.py:43-46 | Two masks applied one after the other select the same rows as their conjunction applied once |
| Tables.Unique | clean_utils.py:71 | `unique` lists every value of the column, each once |
| Tables.UniqueAtMostOne | clean_utils.py:76-79 | The unique list has at most one entry exactly when all values in the column are equal |
| Text.Strip | pdev/clean_utils.py:62-63 | Splitting on a character and joining with the empty string removes every occurrence of it and keeps every occurrence of every other character, in order |
| Text.StripAbsent | pdev/clean_utils.py:73-75 | Normalising an identifier without the character leaves it unchanged |
| Text.StripIdempotent | pdev/clean_utils.py:73-75 | Normalising an identifier twice is the same as normalising it once |
| Frames.Converted | pdev/clean_utils.py:30-32 | Every column keeps its name and length. Each cell of a column whose name selects the key is converted, and every other column is left as it was |
| Frames.CleanDatesShape | pdev/clean_utils.py:27-32 | In a column whose lower-cased name contains "date", `clean_dates` turns each cell into the timestamp the parser gives (NaT when it cannot parse), keeping an existing timestamp. It leaves the other columns alone |
| Frames.CleanNumbersShape | pdev/clean_utils.py:34-38 | In a column whose lower-cased name contains "num", `clean_numbers` turns each cell into the number the parser gives (NaN when it cannot parse), keeping an existing number. It leaves the other columns alone |
| Frames.CleanDatesIdempotent | pdev/clean_utils.py:27-32 | A second `clean_dates` changes nothing |
| Frames.CleanNumbersIdempotent | pdev/clean_utils.py:34-38 | A second `clean_numbers` changes nothing |
| Frames.Frame.ConvertWhere | pdev/clean_utils.py:30-32 | The loop over selected columns reassigns each one in place, giving the converted frame |
| Frames.Frame.CleanDates | pdev/clean_utils.py:27-32 | The frame's columns become the date-converted columns |
| Frames.Frame.CleanNumbers | pdev/clean_utils.py:34-38 | The frame's columns become the number-converted columns |
| Caching.Cache.Get | pdev/clean_utils.py:11-17 | The first call stores the loaded table. Every call returns the stored one, and it is stored afterwards |
| Windows.ActiveParcelsSpec | pdev/clean_utils.py:43-46 | The four exclusion masks are one mask: the parcels not deleted before the start year and not added in or after the end year, unchanged and in order |
| Windows.Rhna4Parcels | pdev/clean_utils.py:40-47 | A parcel is kept exactly when it is in the input and none of these holds: map deletion before 2007, record deletion before 2007, record addition in 2015 or later, map addition in 2015 or later. A missing year never drops it. The result is a subsequence of the input holding every copy of a kept parcel |
| Windows.Rhna5Parcels | pdev/clean_utils.py:49-56 | The same rule with 2015 and 2023 |
| Windows.CycleParcels | pdev/clean_utils.py:112-116 | Cycle 4 or 5 keeps exactly the parcels active in that cycle's window, every copy of each. Any other cycle keeps the table as it is |
| Permits.DeriveAllIdempotent | clean_utils.py:101-105 | Recomputing `units`, `blocklot` and `na_existing_units` on a frame that has them changes nothing |
| Permits.PermitsInWindow | pdev/clean_utils.py:159-172 | A permit is kept exactly when one of its five dates has a year in [start, start+8), every copy of it, in order |
| Permits.ClassifiedSpec | clean_utils.py:147-183 | A permit is kept exactly when it has a date in the window and, if filtering for construction, it adds units with a relevant use and a construction permit type, every copy of it, in order |
| Permits.PermitFrame.Derive | pdev/clean_utils.py:190-193 | The frame gains the derived columns, recomputed from the raw ones for every row |
| Permits.PermitFrame.DeriveIfAbsent | pdev/clean_utils.py:151-155 | A frame without a `units` column gains the derived columns. One that has them is left alone |
| Pipeline.TotalCostAppend | pdev/clean_utils.py:178 | The cost sum of a table with one more permit adds that permit's cost, a missing cost counting as zero |
| Pipeline.InsertSorted | pdev/clean_utils.py:175 | Inserting a permit type into the sorted type columns keeps them strictly ascending and adds exactly that type |
| Pipeline.TypesOf | pdev/clean_utils.py:175-176 | The type columns are strictly ascending and are exactly the permit types present |
| Pipeline.GroupCost | pdev/clean_utils.py:178 | A block-lot has a row exactly when some permit has that block-lot. Its cost is the total cost of that block-lot's permits |
| Pipeline.GroupCount | pdev/clean_utils.py:175-177 | The count of a type in a block-lot's row is the number of its permits of that type, zero when there are none |
| Pipeline.SumOfCounts | pdev/clean_utils.py:175-177 | A block-lot's counts over a list of distinct type columns add up to its number of permits of those types |
| Pipeline.AggregateSpec | pdev/clean_utils.py:175-183 | The aggregate has these columns: `<prefix>_costs`, and `<prefix><type>` for each permit type present, ascending. It has one row per block-lot present, holding that block-lot's cost sum and zero-filled per-type counts |
| Pipeline.CyclePipeline | pdev/clean_utils.py:159-183 | The pipeline table is the aggregate of the permits with a date in the cycle's window. An unknown cycle starts the window at year 3 |
| Linkage.NormaliseSiteId | pdev/clean_utils.py:62-63 | A site identifier loses every `/` and keeps its other characters in order. NaN stays NaN |
| Linkage.InInventorySpec | pdev/clean_utils.py:59-66 | An identifier is in the inventory exactly when it is the normalised `locapn` or `apn` of a San Francisco site of cycle `RHNA<cycle>` |
| Linkage.FlagInventory | pdev/clean_utils.py:58-68 | Same rows in the same order. The flag is set on every row and is true exactly when the identifier is in the cycle's San Francisco inventory |
| Linkage.CleanApn | pdev/clean_utils.py:73-75 | The cleaned tax identifier has no space and keeps the other characters in order |
| Linkage.IdJoinSpec | pdev/clean_utils.py:79 | The inner merge holds exactly the pairs of rows with equal identifiers |
| Linkage.IdJoinMultiset | pdev/clean_utils.py:79 | Each pair with equal identifiers occurs once for every copy of its left row times every copy of its tax row. No other pair occurs |
| Linkage.SpatialJoinSpec | pdev/clean_utils.py:99 | The spatial join holds exactly the pairs whose geometries intersect |
| Linkage.FirstPerMaster | pdev/clean_utils.py:100 | `drop_duplicates` keeps only rows of the input, at most one per left identifier |
| Linkage.FirstPerMasterCovers | pdev/clean_utils.py:100 | Every left identifier in the join keeps a row |
| Linkage.FirstPerMasterKeepsFirst | pdev/clean_utils.py:100 | The row kept for an identifier is its first row in the join |
| Linkage.FallbackSpec | pdev/clean_utils.py:89-102 | The spatial fallback keeps one row per identifier, and only for rows whose identifier the tax roll lacks. Each is joined to a tax parcel with a geometry that it intersects, the first such in the join. Every such row that meets some tax parcel is represented |
| Linkage.MergeTaxRows | pdev/clean_utils.py:78-105 | The result is an error exactly when a tax identifier repeats. Otherwise it is the identifier join (exactly the pairs with equal identifiers, each as many times as the inner merge yields it) followed by the spatial fallback. The fallback holds one row per identifier, only for rows the tax roll lacks. Each is the first pair of the spatial join with a tax parcel the row intersects, and every such row that meets a tax parcel with a geometry is represented |
| Linkage.MergeTaxOneToOne | pdev/clean_utils.py:79-95 | When the merge succeeds the tax identifiers are one-to-one, so the identifier part holds each matching pair once per copy of the candidate row |
| Linkage.RightMergeSpec | pdev/clean_utils.py:118 | The right merge holds exactly these rows: each site paired with each parcel bearing its identifier, or with no parcel when none does |
| Linkage.RightMergeKeepsSites | pdev/clean_utils.py:118 | Every site has a row in the right merge |
| Linkage.MostRecent | pdev/clean_utils.py:139 | The first row after sorting by map-added date, newest first with NaT last, is a row no other row is newer than |
| Linkage.RowsOf | pdev/clean_utils.py:139 | The rows of a group are exactly the merged rows with that identifier |
| Linkage.PrimaryRows | pdev/clean_utils.py:139 | The group-by has one row per identifier. It is a merged row of that identifier that no other row of it is newer than |
| Linkage.MostRecentLink | pdev/clean_utils.py:118-143 | The result has one row per site identifier: a merged row of that identifier whose map-added date no other merged row of it beats |
| Linkage.MergedMasters | pdev/clean_utils.py:118 | The identifiers of the right merge are exactly the site identifiers |
| Linkage.BackupSpec | clean_utils.py:71-83 | The backup of a column is absent exactly when all rows agree on it. Otherwise it has at least two distinct entries, exactly the values the rows take |
| Linkage.BackupOfMerged | clean_utils.py:71-83 | The same for the merged rows of one identifier |
| Linkage.LinkWithBackup | clean_utils.py:68-93 | One row per site identifier: the most recent merged row, with the backup lists for `blklot` and `geometry` as above |
| PdevCleanUtils.GetSiteInventoryFeature | pdev/clean_utils.py:58-68 | The caller's table gains the inventory flag in place and is returned |
| PdevCleanUtils.MergeTax | pdev/clean_utils.py:70-105 | The caller's tax table gets the cleaned identifier. The parcels come from the cache when none are given. The result is the merge of the rows against the parcel identifiers |
| PdevCleanUtils.TransformBlueskyToGeospatial | pdev/clean_utils.py:107-143 | The cached parcels are loaded and the cycle's parcels selected. The result is their most-recent link with the sites |
| PdevCleanUtils.GetPipelinePermits | pdev/clean_utils.py:146-183 | The given or cached frame gains its derived columns if absent. A given frame leaves the cache and the cached frame untouched. The result is its cycle pipeline under the prefix `permit` |
| PdevCleanUtils.DbiPermits | pdev/clean_utils.py:185-225 | A row is in the result exactly when it is an input row with recomputed derived columns that counts towards RHNA and has a date in the window (start 4 for an unknown cycle). The result is a subsequence of the derived table holding every copy of a selected row |
| PdevCleanUtils.DerivedRows | pdev/clean_utils.py:190-193 | The derived table holds exactly the input rows with recomputed derived columns |
| PdevCleanUtils.GetDbiPermits | pdev/clean_utils.py:185-225 | The cached frame's derived columns are recomputed unconditionally. The result is the selection above, whatever `filter_for_construction` says |
| RootCleanUtils.GetRhna4ParcelsAsWritten | clean_utils.py:39-46 | Every call raises `NameError` for `rhna4end` |
| RootCleanUtils.Rhna4NameError | clean_utils.py:39-46 | As written the function raises on every table. The intended rule keeps exactly the parcels active from 2007 to 2014 |
| RootCleanUtils.ParcelsForCycleAsWritten | clean_utils.py:62-66 | Cycle 4 raises `NameError` for `rhna4end`. Any other cycle selects the cycle's parcels |
| RootCleanUtils.TransformBlueskyToGeospatial | clean_utils.py:57-93 | The cached parcels are loaded. Cycle 4, the default, raises `NameError` for `rhna4end`. Any other cycle gives the link with backups of the cycle's parcels |
| RootCleanUtils.TransformBlueskyToGeospatialIntended | clean_utils.py:57-93 | With the RHNA4 window corrected, every cycle, 4 included, gives the link with backups of the cycle's parcels |
| RootCleanUtils.GetPipelinePermits | clean_utils.py:96-133 | As in the pdev copy (a given frame leaves the cache untouched), under the prefix `pipeline` |
| RootCleanUtils.GetDbiPermits | clean_utils.py:135-184 | The cached frame gains its derived columns if absent. The result keeps exactly the permits with a date in the window that, when `filter_for_construction`, count towards RHNA, every copy of each, in order |

## Left out

- Reading the shapefile and the GeoJSON is not modelled. What a read yields is the `onDisk` field of a `Cache`.
- Geometry is not modelled. `dissolve` becomes the set of parcel identifiers. The `intersects` predicate of `sjoin` is a parameter, and a geometry is an opaque identifier.
- Cell parsing by `pd.to_datetime` and `pd.to_numeric` with `errors='coerce'` is a parameter. The typed records hold years as they stand after `clean_dates`.
- The in-place `clean_dates` that `get_rhna4_parcels`, `get_rhna5_parcels`, `get_pipeline_permits` and `get_dbi_permits` apply to the caller's frame is modelled only by `Frames.Frame.CleanDates`, not inside those functions.
- The float casts (`astype(float)`) are not modelled: unit counts and costs are integers.
- The failure of `permit_type.astype(int)` on a missing or non-numeric type is not modelled: the permit type is an integer in the record.
- Column bookkeeping is not modelled: renaming `Location` to `geometry`, the column drops in `merge_tax` and `transform_bluesky_to_geospatial`, the `_left`/`_right` suffixes, `reset_index` and the index of `concat`. The records carry only the columns that are read.
- Python's `str.lower` beyond ASCII letters is not modelled.
- A missing `block` or `lot` becoming the text `"nan"` in `blocklot` is not modelled: block and lot are strings in the record.
- A missing (NaN) identifier in the candidate, tax or bluesky tables is not modelled: identifiers are strings. Missing site identifiers are modelled.
- Pipeline.Aggregate: its rows are a map keyed by block-lot, so the row order of the group-by is not stated.
- Linkage.MostRecentLink: the source sorts on the full `date_map_a` timestamp, but the records hold only its year, so the choice is made on years. Among the rows added in the newest year, the model does not reproduce which one the source picks (the latest timestamp, with ties broken by the unstable sort). The contract says only that no other row has a later year.
- Linkage.LinkWithBackup: the order of the entries of a backup list (first appearance, as `unique` gives it) is not stated, only which values it holds, each once.
- Linkage.MergeTaxRows: the order of the identifier-join rows is not stated, only which pairs occur and how often. The model lists them in the order of the candidate rows, and pandas' inner-merge row order has changed between versions.
- Linkage.MergeTaxRows: the model joins spatially in the order of the candidate rows and then of the tax roll. The source orders the tax geometries by `mapblklot`, so which intersecting tax parcel is kept for a row is not stated beyond "one it intersects".
- PdevCleanUtils.MergeTax: the `cycle` parameter is never read by the source and is omitted.
- The commented-out code in both copies is not modelled: the cycle selection in `merge_tax`, the backup lists in the pdev transform, and the two permit queries in `get_dbi_permits`.

## Findings

| source | as written | input that shows it | evidently intended | confidence | as-written member | corrected member |
|---|---|---|---|---|---|---|
| clean_utils.py:44 | `get_rhna4_parcels` compares against `rhna4end`, which the module never defines, so every call raises `NameError`, and so does `transform_bluesky_to_geospatial` for its default cycle 4 | any parcel table, the empty one included | the end year `rhna4start + 8` (2015), as pdev/clean_utils.py:45-46 writes it | high; not executed | RootCleanUtils.GetRhna4ParcelsAsWritten | Windows.Rhna4Parcels |
| clean_utils.py:63-64 | `transform_bluesky_to_geospatial` calls the raising `get_rhna4_parcels` for cycle 4, its default | any parcel table and any sites, with `cycle=4` | the link with backups of the parcels active from 2007 to 2014 | high; not executed | RootCleanUtils.TransformBlueskyToGeospatial | RootCleanUtils.TransformBlueskyToGeospatialIntended |
