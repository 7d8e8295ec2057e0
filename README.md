# birdcall_distribution in Dafny

A model of the deterministic core of `birdcall_distribution`. The package maps
bird-call observations onto a lattice of square cells over a region, joins
them with per-cell covariates from Earth Engine, and fits a family of Poisson
log-rate models, some with a spatial CAR term. The model covers five parts:

- `Geo` (geo.py). `generate_grid` is a method with two nested loops that
  fills an insertion-ordered dictionary of lattice squares keyed `"{x}_{y}"`.
  `generate_grid_adjaceny_list` is a method that builds each cell's neighbour
  list. Both are proved against recursive specification functions.
- `Data` and `Scaling` (data.py). The `prepare_dataframe` steps are functions
  on sequences:
  - drop unjoinable rows;
  - relabel all but the top-n species as `"other"`;
  - count per (species, cell);
  - cross join and outer merge;
  - attach the adjacency index and sort by it;
  - sum the land-cover columns.

  `prepare_scaled_data` is a method whose loop over `log_cols` is proved
  against a specification function.
- `ModelFamily` (model.py). It covers:
  - the column list of `_scaled_data`;
  - the coordinate domains of `_coords`;
  - the ten builders, each as a flag triple (intercept kind, covariate kind,
    CAR or not);
  - the log-rate of one row, as the sum of an intercept term, a covariate
    term and an optional `phi[adj_idx[i]]`.
- `EarthEngine` (commands/earth_engine.py). It covers `t_modis_to_celsius`,
  normalising the land-cover histogram into 17 zero-padded keys, and
  assembling the record with `dict(name=..., **a, **b, ...)`. That call fails
  with a TypeError when a keyword repeats.
- `TimeParse` (utils.py). `convert_time` is modelled with Python's
  `str.split` and `int()`, and every failure gives `None` (NaN).

Supporting modules:
- `Wrappers`: Option and Result.
- `Seqs`: distinct values, ranges, and an insertion sort by a comparator.
- `Decimal`: decimal strings of integers and two-digit zero padding.

Calls into libraries this model cannot see become parameters:
- the region geometry test `region: Square -> bool`;
- the cell of a latitude/longitude `cellOf`;
- the adjacency `mapping`;
- `log` for `np.log`;
- `standardise` for the StandardScaler transform of one column.

## Model

| member | source | states |
|---|---|---|
| Geo.Put | birdcall_distribution/geo.py:36 | `d[k] = v` keeps the dict well formed: a new key goes last, an existing key keeps its position, and the entry for `k` becomes `v` |
| Geo.Arange | birdcall_distribution/geo.py:28-29 | `np.arange(start, stop, step)` lists `start + i*step` for every value below `stop`, and no more |
| Geo.CandidatesCoverExtent | birdcall_distribution/geo.py:28-31 | `cols[:-1]` is empty when `xmin >= xmax`; otherwise it is `xmin, xmin+width, ...`, each corner in `[xmin, xmax)`, and the last cell reaches `xmax` |
| Geo.KeptCellsMembers | birdcall_distribution/geo.py:30-35 | a square is kept iff its corner is a candidate pair, it has the grid's width and length, and the region intersects it |
| Geo.CellKeyRoundTrip | birdcall_distribution/geo.py:36 | the key `"{x}_{y}"` parses back to the corner `(x, y)` |
| Geo.CellKeyInjective | birdcall_distribution/geo.py:36 | equal keys mean equal corners |
| Geo.DistinctCornersDistinctKeys | birdcall_distribution/geo.py:36 | squares with different corners never share a key, so no kept cell overwrites another |
| Geo.GridOfAscending | birdcall_distribution/geo.py:30-36 | inserting cells with strictly x-major, y-minor ascending corners gives one key per cell, in insertion order, each mapping to its own square |
| Geo.GenerateGrid | birdcall_distribution/geo.py:21-37 | the nested loops produce exactly the dict obtained by inserting the kept candidate cells in x-major, y-minor order |
| Geo.AddColumn | birdcall_distribution/geo.py:31-36 | the inner loop over `rows[:-1]` inserts exactly the kept cells of one column, in row order |
| Geo.GenerateGridContents | birdcall_distribution/geo.py:23-37 | the grid is well formed; its keys are the kept cells' keys in x-major, y-minor order; each maps to its square; a square is present iff it is a candidate the region intersects |
| Geo.LatticeIntersects | birdcall_distribution/geo.py:32-35 | two lattice squares intersect iff their column and row offsets both differ by at most 1, so corner contact counts |
| Geo.NeighboursMembers | birdcall_distribution/geo.py:47-49 | `other` is in the neighbour list of `key` iff it is a key of the grid, differs from `key`, and its square intersects that of `key` |
| Geo.GenerateAdjacencyList | birdcall_distribution/geo.py:40-50 | the result has exactly the input's keys, in the same order, and each entry is that key's neighbour list scanned in dict order |
| Geo.NeighbourList | birdcall_distribution/geo.py:47-49 | the inner loop collects exactly the other keys whose squares intersect the key's square, in dict order |
| Geo.NoSelfNeighbour | birdcall_distribution/geo.py:48 | no key appears in its own neighbour list |
| Geo.NeighboursSymmetric | birdcall_distribution/geo.py:47-49 | `b` is a neighbour of `a` iff `a` is a neighbour of `b` |
| Geo.NeighboursOrdered | birdcall_distribution/geo.py:47-49 | a neighbour list has no duplicates and is a subsequence of the dict's key order |
| Decimal.IntRoundTrip | birdcall_distribution/geo.py:36 | the decimal text of an integer, as `str(x)` writes it, parses back to that integer |
| Decimal.ZeroPad2Value | birdcall_distribution/commands/earth_engine.py:82 | `{k:02d}` has at least two characters, all digits, denoting `k` |
| EarthEngine.TModisToCelsius | birdcall_distribution/commands/earth_engine.py:19-24 | the result is None exactly when the input is None |
| EarthEngine.CelsiusRoundTrip | birdcall_distribution/commands/earth_engine.py:23-24 | over exact reals, the conversion is inverted by `(c + 273.15) * 50`, so no two readings collide |
| EarthEngine.CelsiusStrictlyIncreasing | birdcall_distribution/commands/earth_engine.py:23-24 | a larger MODIS value gives a larger temperature |
| EarthEngine.CelsiusExample | birdcall_distribution/commands/earth_engine.py:23-24 | over exact reals, 15000 becomes 26.85 °C |
| EarthEngine.LandCoverKeyInjective | birdcall_distribution/commands/earth_engine.py:82 | distinct classes get distinct `land_cover_{k:02d}` names |
| EarthEngine.LandCoverKeysSpellClasses | birdcall_distribution/commands/earth_engine.py:81-82 | `range(1, 18)` gives 17 distinct names; the i-th is `land_cover_` followed by two or more digits that read back as class i+1 |
| EarthEngine.NormaliseLandCover | birdcall_distribution/commands/earth_engine.py:81-82 | each of the 17 keys is present and holds the histogram entry for `str(k)`, or 0 when that entry is absent; there are no other keys |
| EarthEngine.NormalisedKeys | birdcall_distribution/commands/earth_engine.py:81-82 | the normalised map has exactly the 17 names `land_cover_01` to `land_cover_17` |
| EarthEngine.NormaliseIgnoresOtherKeys | birdcall_distribution/commands/earth_engine.py:82 | two histograms normalise alike iff they agree on classes 1 to 17, so every other key is dropped |
| EarthEngine.HistogramCount | birdcall_distribution/commands/earth_engine.py:76 | the histogram entry for class k counts the sampled pixels of class k |
| EarthEngine.LandCoverSumIsClassTotal | birdcall_distribution/commands/earth_engine.py:80-82 | the 17 land-cover values sum to the histogram total over keys "1" to "17", so nothing is smoothed |
| EarthEngine.LandCoverCountsEveryPixel | birdcall_distribution/commands/earth_engine.py:80-82 | when every pixel has a class in 1 to 17, the 17 values add up to the number of pixels |
| EarthEngine.DictCallRefuses | birdcall_distribution/commands/earth_engine.py:84-91 | `dict(**a, **b, ...)` succeeds iff the mappings' key sets are pairwise disjoint |
| EarthEngine.DictCallLookup | birdcall_distribution/commands/earth_engine.py:84-91 | on success, every key of every mapping is present with that mapping's value |
| EarthEngine.DictCallKeys | birdcall_distribution/commands/earth_engine.py:84-91 | on success, every key of the result comes from one of the mappings |
| EarthEngine.AssembleRecordFields | birdcall_distribution/commands/earth_engine.py:84-91 | the record has `name = key`; population and elevation values copied; each temperature converted to Celsius; each land-cover count as a number; no other field |
| EarthEngine.AssembleRecordRefuses | birdcall_distribution/commands/earth_engine.py:84-91 | assembly fails iff a reducer result holds the key "name" or two parts share a key |
| EarthEngine.CellStatsLandCover | birdcall_distribution/commands/earth_engine.py:80-91 | a cell's record holds each of the 17 land-cover columns with the histogram count of its class |
| Data.DropUnjoinable | birdcall_distribution/data.py:30-33 | dropping never adds rows |
| Data.DropUnjoinableMembers | birdcall_distribution/data.py:30-33 | a row survives iff its label, latitude and longitude are present and it lies in a cell; it then carries that cell and `mapping.get(cell)` |
| Data.DropUnjoinableAppend | birdcall_distribution/data.py:30-33 | the survivors of two row blocks in sequence are the survivors of the first followed by those of the second, so the filter keeps the rows' relative order |
| Data.ByCountDescendingTotal | birdcall_distribution/data.py:37-42 | ordering species by decreasing count is a total preorder |
| Data.TopLabelsProperties | birdcall_distribution/data.py:36-42 | the top-n list holds min(n, #species) distinct observed species, and no species left out has more observations than one kept |
| Data.RelabelTopN | birdcall_distribution/data.py:36-45 | relabelling keeps the number of rows, the cell and the index; a label is kept or becomes "other" |
| Data.RelabelKeepsTop | birdcall_distribution/data.py:43-45 | with `n_species` set, a label survives iff it is among the top n (or already "other") |
| Data.RelabelBoundsSpecies | birdcall_distribution/data.py:36-45 | after relabelling there are at most n+1 distinct species |
| Data.CountRowsProperties | birdcall_distribution/data.py:48-50 | one count row per distinct observed (species, cell) pair, with `y` the number of its observations, hence `y >= 1` |
| Data.CountRowsTotal | birdcall_distribution/data.py:48-50 | the `y` values sum to the number of surviving observations |
| Data.CrossJoin | birdcall_distribution/data.py:52-54 | the cross join has \|covariate rows\| × \|distinct species\| rows |
| Data.CrossJoinAt | birdcall_distribution/data.py:52-54 | row `i*L + j` pairs covariate row i with species j |
| Data.CrossJoinMembers | birdcall_distribution/data.py:52-54 | a row is in the cross join iff it pairs some covariate row with some species |
| Data.UnmatchedRowsMembers | birdcall_distribution/data.py:55-57 | a count row whose pair has no covariate row is kept, with covariates missing |
| Data.OuterMergePairs | birdcall_distribution/data.py:55-57 | the merge holds a pair iff either side holds it; covariates are missing exactly for pairs without a covariate row |
| Data.OuterMergeY | birdcall_distribution/data.py:47-57 | a merged row's `y` is missing iff its pair was never observed; otherwise it is the pair's number of observations |
| Data.SortByIndexProperties | birdcall_distribution/data.py:58-59 | sorting yields a permutation of the indexed rows, each under its cell's index, ascending, with rows lacking an index last |
| Data.SumLandCoverOnlyLandCover | birdcall_distribution/data.py:61-62 | `sum_land_cover` depends only on columns whose name starts with `land_cover` |
| Data.SumLandCoverIsHistogramTotal | birdcall_distribution/data.py:61-62 | over a record from the Earth Engine step, `sum_land_cover` is the histogram total over classes 1 to 17 |
| Data.PrepareDataframeRows | birdcall_distribution/data.py:29-62 | every prepared row carries its cell's index, rows ascend by index with unindexed rows last, and `y` is the pair's count, or missing when it is 0 |
| Scaling.Select | birdcall_distribution/data.py:71 | `df[data_cols]` succeeds iff every column exists; it then holds those columns in order; otherwise it fails with a KeyError naming a missing column |
| Scaling.ApplyLogsNames | birdcall_distribution/data.py:78-79 | the log loop keeps the column names and succeeds iff every entry of `log_cols` names a column |
| Scaling.ApplyLogsColumns | birdcall_distribution/data.py:78-79 | each column receives `log(x + 1)` once per occurrence of its name in `log_cols`; the other columns are untouched |
| Scaling.PrepareScaledData | birdcall_distribution/data.py:67-86 | the method with the in-place loop returns exactly `ScaledData`, which labels the columns with the corrected labelling of the Findings row: with `intercept=True` the ones column is named "intercept" and the data columns keep their names, where the source prepends "intercept" to the labels |
| Scaling.ScaledDataShape | birdcall_distribution/data.py:71-81 | the output has `len(data_cols)` columns, plus one when `intercept` is set |
| Scaling.ScaledDataErrors | birdcall_distribution/data.py:71-81 | it fails iff a data column is missing, a log column is neither a data column nor the intercept, or the intercept column name clashes with a data column |
| Scaling.PreparedColumns | birdcall_distribution/data.py:71-76 | before logs, the table holds the data columns in order and then the ones column |
| Scaling.ScaledColumnsNamed | birdcall_distribution/data.py:71-81 | column i is the standardised, log-transformed data column i, under its own name; the last is the standardised ones column, named "intercept" |
| Scaling.AsWrittenRelabels | birdcall_distribution/data.py:73-81 | the code as written gives the same column values as the corrected one, and the same result when `intercept` is false |
| Scaling.InterceptLabelMismatch | birdcall_distribution/data.py:75-81 | for data column "a" = [5.0] with intercept, the code as written labels the data column "intercept" and the ones column "a" |
| ModelFamily.LandCoverColumnNames | birdcall_distribution/model.py:8 | the land-cover covariates are `land_cover_07`, `_08`, `_09`, `_10` and `_16` |
| ModelFamily.DataColumnNames | birdcall_distribution/model.py:8-17 | the nine data columns and the six log columns, literally and in order |
| ModelFamily.DataColumnsShape | birdcall_distribution/model.py:8-18 | nine distinct data columns; each log column is a data column exactly once; the rest are elevation and the two temperatures |
| ModelFamily.ScaledCovariatesShape | birdcall_distribution/model.py:7-19 | `_scaled_data` succeeds iff the nine columns exist; the result is named by them with no intercept, and logs only the log columns before standardising |
| ModelFamily.ScaledCovariatesColumn | birdcall_distribution/model.py:16-18 | column i of the result is the i-th data column, logged as `log(x + 1)` when it is a log column, then standardised |
| ModelFamily.StrLeTotal | birdcall_distribution/model.py:23 | category order (string order) is total |
| ModelFamily.StrLeTransitive | birdcall_distribution/model.py:23 | category order is transitive |
| ModelFamily.StrLeAntisymmetric | birdcall_distribution/model.py:23 | category order is antisymmetric |
| ModelFamily.CategoryCodesProperties | birdcall_distribution/model.py:21-25 | categories are the sorted distinct labels; each row's code points at its label; equal codes iff equal labels |
| ModelFamily.SpeciesCoordsAreRange | birdcall_distribution/model.py:27 | `sorted(codes.unique())` is `0 .. #categories-1` |
| ModelFamily.CoordsDomains | birdcall_distribution/model.py:22-31 | `features_idx` and `obs_idx` are ranges; `species_idx` is the category range; `adj_idx` is the strictly ascending distinct index values, a full range when the index covers `0..n-1` |
| ModelFamily.BuildersCoverage | birdcall_distribution/model.py:34-390 | ten distinct builders: all twelve combinations except pooled intercept alone without CAR, and pooled intercept with pooled covariates and CAR |
| ModelFamily.CoordsSizedParamsWellShaped | birdcall_distribution/model.py:20-29 | parameters sized by the coordinates, and an index below `W.shape[0]`, make every index in the log-rate of any builder in bounds |
| ModelFamily.NoCarIgnoresPhi | birdcall_distribution/model.py:138-142 | a builder without CAR does not depend on `phi` |
| ModelFamily.CarAddsCellEffect | birdcall_distribution/model.py:79-81 | a CAR builder's log-rate is its non-CAR counterpart's plus `phi[adj_idx[i]]` |
| ModelFamily.NoCovariateIgnoresX | birdcall_distribution/model.py:40-45 | a builder without covariates depends neither on `X` nor on `betas` |
| ModelFamily.PooledIsSpeciesBlind | birdcall_distribution/model.py:158-168 | with a pooled intercept and no varying covariates, rows with the same covariates and cell have the same rate whatever their species |
| ModelFamily.VaryingInterceptShiftsOneSpecies | birdcall_distribution/model.py:76-80 | changing one species' intercept moves exactly that species' rows by the same amount |
| ModelFamily.DotAdd | birdcall_distribution/model.py:140 | `sum(X[i] * (b + c))` is `sum(X[i] * b) + sum(X[i] * c)` |
| ModelFamily.DotScale | birdcall_distribution/model.py:140 | `sum(X[i] * (k * c))` is `k * sum(X[i] * c)` |
| ModelFamily.DotLinear | birdcall_distribution/model.py:140 | `sum(X[i] * betas)` is linear in `betas`: shifting the effects by `k * c` shifts the term by `k` times `c`'s term |
| ModelFamily.PooledBetasShiftRate | birdcall_distribution/model.py:138-142 | with pooled covariates, moving `betas` by `k * c` keeps every index in range and moves each row's log-rate by `k * sum(X[i] * c)` |
| ModelFamily.ObservedRowsProperties | birdcall_distribution/model.py:45-47 | the masked `y` keeps exactly the rows with an observed count, in order |
| TimeParse.Split | birdcall_distribution/utils.py:4 | `split(":")` gives one more piece than there are colons |
| TimeParse.SplitJoin | birdcall_distribution/utils.py:4 | no piece holds the separator, and joining the pieces with it gives the text back |
| TimeParse.SplitAtOneColon | birdcall_distribution/utils.py:4 | text with one colon splits into its two sides |
| TimeParse.PyInt | birdcall_distribution/utils.py:5 | `int()` accepts only text holding a digit |
| TimeParse.PyIntOfDecimal | birdcall_distribution/utils.py:5 | `int(str(n)) == n` |
| TimeParse.PyIntOfDigits | birdcall_distribution/utils.py:5 | `int()` of plain digits, leading zeros included, is their decimal value |
| TimeParse.ConvertTime | birdcall_distribution/utils.py:1-8 | non-text input and text without exactly one colon give NaN; the function never raises |
| TimeParse.ConvertTimeNeedsIntegers | birdcall_distribution/utils.py:4-8 | `"a:b"` converts iff both sides parse as integers, and then the result is `int(a) + int(b)/60` |
| TimeParse.ConvertTimeRoundTrip | birdcall_distribution/utils.py:4-5 | `convert_time(f"{h}:{m}") == h + m/60` |
| TimeParse.ConvertTimeWithinHour | birdcall_distribution/utils.py:4-5 | for any text `a:b` with `int(a) == h` and `int(b) == m`, `0 <= m < 60`, padded or not, the result lies in `[h, h+1)` |
| TimeParse.ConvertTimePadded | birdcall_distribution/utils.py:4-5 | zero-padded `"07:05"` gives 7 + 5/60 |
| TimeParse.ConvertTimeOverflowingMinutes | birdcall_distribution/utils.py:5 | there is no range check: `"25:90"` gives 26.5 |
| TimeParse.ConvertTimeNoColon | birdcall_distribution/utils.py:4-8 | `"1230"` gives NaN |
| TimeParse.ConvertTimeTwoColons | birdcall_distribution/utils.py:4-8 | `"1:2:3"` gives NaN |
| TimeParse.ConvertTimeNotInteger | birdcall_distribution/utils.py:5-8 | `"ab:00"` gives NaN |

## Left out

- Shapely and cartopy geometry (`get_shape_us_state`, polygon intersection with a state shape): the region's test is the parameter `region`. Cell-to-cell intersection is the exact closed-square rule.
- Floating-point lattices: `np.arange` over floats and the float text in keys (`-124.0_32.0`) are not modelled. Corners are integers and keys use integer text.
- Geo.GenerateGrid: requires `width > 0` and `length > 0`, which the source does not check. With a zero or negative step `np.arange` returns nothing or raises.
- Geo.GenerateGrid and Geo.GenerateAdjacencyList: the dicts are values that the methods rebuild, so aliasing of the Python dict objects is not captured.
- `add_lonlat_columns`, `get_adjacency_mapping`, `convert_to_adjacency_matrix` and `get_grid_meta` are not part of this model. Their results enter as the parameters `cellOf` and `mapping`.
- data.py imports `generate_grid_adjacency_list`, while geo.py defines `generate_grid_adjaceny_list`. The model follows the definition.
- File reads and writes (`read_parquet`, `read_csv`, `to_parquet`), the Earth Engine queries and the `multiprocessing` fan-out are not modelled.
- Sorting ties: pandas' `sort_values` and `sort_index` are not stable, and the order among equal keys is left unspecified. Data.TopLabelsProperties and Data.SortByIndexProperties state only what holds for every tie order. So a tie at the n-th place may keep a different species than pandas would.
- Row order of the count table and the outer merge is not modelled. pandas sorts `groupby` and outer-merge keys; the model keeps first-occurrence order. The proved properties do not depend on that order. `unique()` is first-occurrence order, as in pandas.
- Column order of the Earth Engine record is not modelled. Scaling.Table keeps columns in a map; only the selected columns' order matters.
- EarthEngine.DictCallRefuses: the TypeError does not say which keyword repeats.
- EarthEngine.HistogramOf: models the Earth Engine histogram as integer counts keyed by decimal class names. Float counts from sampling are not modelled.
- PyMC priors, the CAR density, `exp`, sampling and the Poisson likelihood are not modelled. Only the log-rate structure and its indices are.
- StandardScaler numerics are the parameter `standardise`, applied column by column. `np.log` is the parameter `log`, applied as `log(x + 1)`.
- Scaling.PrepareScaledData: computes the corrected labelling of the Findings row, not the source's `["intercept"] + data_cols` labels; Scaling.ScaledDataAsWritten and Scaling.AsWrittenRelabels hold the labels as written. With `intercept=False` the two agree.
- Scaling.PrepareScaledData: requires distinct `data_cols`. With repeated names pandas builds a frame with duplicate columns, which this model does not represent.
- Scaling.PrepareScaledData: `return_scaler` only adds the fitted scaler to the result and is not modelled.
- ModelFamily.CoordsDomains: a table index holding NaN (a row whose cell has no adjacency index) is not representable in `adj_idx`, which holds naturals only.
- `model_assets.py`, `plot.py`, `earth_engine_assets.py`, `generate_manifest.py` and `bird_name_mapping.py` are not part of this model. They hold sampling, plotting and file I/O.
- TimeParse.PyInt: models `int()` on ASCII text only. Unicode digits and whitespace outside ASCII are not recognised.
- TimeParse.ConvertTime: `h + m / 60` is computed in exact rationals, without float rounding.
- EarthEngine.TModisToCelsius: `0.02 * t - 273.15` and its lemmas (EarthEngine.CelsiusRoundTrip, EarthEngine.CelsiusStrictlyIncreasing, EarthEngine.CelsiusExample) use exact reals, not float rounding. Python gives 26.850000000000023 for 15000, and `(c + 273.15) * 50` is an exact inverse only over the reals.

## Findings

| source | as written | input that shows it | evidently intended | confidence | as-written member | corrected member |
|---|---|---|---|---|---|---|
| birdcall_distribution/data.py:75-81 | the ones column is appended last (`temp_df["intercept"] = 1`), but the labels put "intercept" first (`["intercept"] + data_cols`) | `data_cols = ["a"]` with column a = [5.0], `intercept=True`: the standardised data column is labelled "intercept" and the ones column "a" | each column keeps its own name, with "intercept" naming the ones column | not executed | Scaling.InterceptLabelMismatch | Scaling.ScaledColumnsNamed |
