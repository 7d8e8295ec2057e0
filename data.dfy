/** The table pipeline of `prepare_dataframe`
    (birdcall_distribution/data.py): observations are filtered and joined to
    grid cells, minor species are folded into "other", calls are counted per
    (species, cell), every covariate row is paired with every species, the
    counts are outer-merged in, rows are indexed by adjacency index and sorted,
    and a land-cover total is added. */
module Data {
  import opened Wrappers
  import opened Seqs
  import EarthEngine

  // ---------------------------------------------------------------------
  // Dropping unusable observations (data.py lines 30-33)

  /** One row of the recordings table, restricted to the three columns used;
      a missing value is None. */
  datatype RawObservation = RawObservation(species: Option<string>, latitude: Option<real>, longitude: Option<real>)

  /** An observation that has a species, a position and a grid cell. */
  datatype Observation = Observation(species: string, gridId: string, adjacency: Option<nat>)

  /** The row survives `dropna()` and `add_lonlat_columns` places it in a cell
      (`cellOf` stands for that spatial join). */
  predicate Joinable(row: RawObservation, cellOf: (real, real) -> Option<string>) {
    && row.species.Some? && row.latitude.Some? && row.longitude.Some?
    && cellOf(row.latitude.value, row.longitude.value).Some?
  }

  /** `mapping.get(grid_id, None)`. */
  function AdjacencyIndex(mapping: map<string, nat>, gridId: string): Option<nat> {
    if gridId in mapping then Some(mapping[gridId]) else None
  }

  function Observe(row: RawObservation, cellOf: (real, real) -> Option<string>, mapping: map<string, nat>): Observation
    requires Joinable(row, cellOf)
  {
    var gridId := cellOf(row.latitude.value, row.longitude.value).value;
    Observation(row.species.value, gridId, AdjacencyIndex(mapping, gridId))
  }

  /** The observations kept, in their original order. */
  function DropUnjoinable(raw: seq<RawObservation>, cellOf: (real, real) -> Option<string>, mapping: map<string, nat>)
    : (obs: seq<Observation>)
    ensures |obs| <= |raw|
  {
    if raw == [] then []
    else
      var last := raw[|raw| - 1];
      DropUnjoinable(raw[..|raw| - 1], cellOf, mapping) + (if Joinable(last, cellOf) then [Observe(last, cellOf, mapping)] else [])
  }

  /** Filtering rows one after another: the survivors of `a + b` are those of
      `a` followed by those of `b`, so the rows keep their relative order. */
  lemma {:induction false} DropUnjoinableAppend(a: seq<RawObservation>, b: seq<RawObservation>,
                                                cellOf: (real, real) -> Option<string>, mapping: map<string, nat>)
    ensures DropUnjoinable(a + b, cellOf, mapping) == DropUnjoinable(a, cellOf, mapping) + DropUnjoinable(b, cellOf, mapping)
  {
    if b == [] {
      assert a + b == a;
    } else {
      var init := b[..|b| - 1];
      DropUnjoinableAppend(a, init, cellOf, mapping);
      assert (a + b)[..|a + b| - 1] == a + init;
      assert (a + b)[|a + b| - 1] == b[|b| - 1];
    }
  }

  /** An observation is kept exactly when it comes from a row with a species, a
      latitude, a longitude and a grid cell. */
  lemma {:induction false} DropUnjoinableMembers(raw: seq<RawObservation>, cellOf: (real, real) -> Option<string>,
                                                 mapping: map<string, nat>, o: Observation)
    ensures o in DropUnjoinable(raw, cellOf, mapping) <==>
      exists i :: 0 <= i < |raw| && Joinable(raw[i], cellOf) && o == Observe(raw[i], cellOf, mapping)
  {
    if raw != [] {
      var init := raw[..|raw| - 1];
      DropUnjoinableMembers(init, cellOf, mapping, o);
      assert forall i :: 0 <= i < |init| ==> init[i] == raw[i];
      if o in DropUnjoinable(init, cellOf, mapping) {
        var i :| 0 <= i < |init| && Joinable(init[i], cellOf) && o == Observe(init[i], cellOf, mapping);
        assert Joinable(raw[i], cellOf) && o == Observe(raw[i], cellOf, mapping);
      }
    }
  }

  // ---------------------------------------------------------------------
  // Keeping the top n species (data.py lines 36-45)

  function Labels(obs: seq<Observation>): seq<string>
  {
    seq(|obs|, i requires 0 <= i < |obs| => obs[i].species)
  }

  /** Number of observations of species `species`. */
  function LabelCount(obs: seq<Observation>, species: string): nat {
    multiset(Labels(obs))[species]
  }

  /** Orders species by decreasing number of observations. */
  function ByCountDescending(obs: seq<Observation>): (string, string) -> bool {
    (a: string, b: string) => LabelCount(obs, a) >= LabelCount(obs, b)
  }

  lemma ByCountDescendingTotal(obs: seq<Observation>)
    ensures TotalPreorder(ByCountDescending(obs))
  {
  }

  /** The `n` species with the most observations (value counts sorted in
      descending order, first `n`). */
  function TopLabels(obs: seq<Observation>, n: nat): seq<string> {
    var ranked := SortWith(Distinct(Labels(obs)), ByCountDescending(obs));
    ranked[..if n <= |ranked| then n else |ranked|]
  }

  /** The top-n list has min(n, number of species) distinct observed species,
      and none of the species left out has more observations than one kept. */
  lemma TopLabelsProperties(obs: seq<Observation>, n: nat)
    ensures var top := TopLabels(obs, n);
      && |top| == (if n <= |Distinct(Labels(obs))| then n else |Distinct(Labels(obs))|)
      && NoDuplicates(top)
      && (forall l :: l in top ==> l in Labels(obs))
      && (forall a, b :: a in top && b in Labels(obs) && b !in top ==> LabelCount(obs, a) >= LabelCount(obs, b))
  {
    var le := ByCountDescending(obs);
    var distinct := Distinct(Labels(obs));
    var ranked := SortWith(distinct, le);
    var m := if n <= |ranked| then n else |ranked|;
    var top := ranked[..m];
    PermutationNoDuplicates(distinct, ranked);
    ByCountDescendingTotal(obs);
    SortWithSorted(distinct, le);
    forall l | l in top ensures l in Labels(obs) {
      SortWithMembers(distinct, le, l);
    }
    forall a, b | a in top && b in Labels(obs) && b !in top ensures LabelCount(obs, a) >= LabelCount(obs, b) {
      SortWithMembers(distinct, le, b);
      var i :| 0 <= i < m && top[i] == a;
      var j :| 0 <= j < |ranked| && ranked[j] == b;
      assert j >= m by {
        assert j < m ==> b in top;
      }
      assert le(ranked[i], ranked[j]);
    }
  }

  /** `x if x in top_n.index else "other"`, row by row. */
  function Relabel(obs: seq<Observation>, top: seq<string>): (r: seq<Observation>)
    ensures |r| == |obs|
    ensures forall i :: 0 <= i < |obs| ==>
      && r[i].gridId == obs[i].gridId && r[i].adjacency == obs[i].adjacency
      && (r[i].species == obs[i].species || r[i].species == "other")
  {
    seq(|obs|, i requires 0 <= i < |obs| =>
      obs[i].(species := if obs[i].species in top then obs[i].species else "other"))
  }

  /** The relabelling runs only when `n_species` is truthy (given and not 0). */
  function RelabelTopN(obs: seq<Observation>, nSpecies: Option<nat>): (r: seq<Observation>)
    ensures |r| == |obs|
    ensures forall i :: 0 <= i < |obs| ==>
      && r[i].gridId == obs[i].gridId && r[i].adjacency == obs[i].adjacency
      && (r[i].species == obs[i].species || r[i].species == "other")
  {
    if nSpecies.Some? && nSpecies.value != 0 then Relabel(obs, TopLabels(obs, nSpecies.value)) else obs
  }

  /** With `n_species = n > 0`, an observation keeps its species exactly when
      that species is among the top n (or is already "other"). */
  lemma RelabelKeepsTop(obs: seq<Observation>, n: nat, i: nat)
    requires n > 0 && i < |obs|
    ensures var r := RelabelTopN(obs, Some(n));
      r[i].species == obs[i].species <==> obs[i].species in TopLabels(obs, n) || obs[i].species == "other"
  {
  }

  /** After relabelling with `n_species = n`, at most n + 1 species remain. */
  lemma RelabelBoundsSpecies(obs: seq<Observation>, n: nat)
    requires n > 0
    ensures |Distinct(Labels(RelabelTopN(obs, Some(n))))| <= n + 1
  {
    var top := TopLabels(obs, n);
    var r := RelabelTopN(obs, Some(n));
    var d := Distinct(Labels(r));
    TopLabelsProperties(obs, n);
    assert (set l | l in d) <= (set l | l in top) + {"other"} by {
      forall l | l in d ensures l in top || l == "other" {
        var i :| 0 <= i < |r| && Labels(r)[i] == l;
      }
    }
    NoDuplicatesSetSize(d);
    SetSizeAtMost(top);
    assert |(set l | l in top) + {"other"}| <= |set l | l in top| + 1;
    SetSizeLe((set l | l in d), (set l | l in top) + {"other"});
  }

  lemma SetSizeLe(a: set<string>, b: set<string>)
    requires a <= b
    ensures |a| <= |b|
  {
    assert b == a + (b - a);
  }

  // ---------------------------------------------------------------------
  // Counting calls per (species, cell) (data.py lines 48-50)

  /** A row of `counts_df`. */
  datatype CountRow = CountRow(species: string, gridId: string, y: nat)

  function Pairs(obs: seq<Observation>): seq<(string, string)>
  {
    seq(|obs|, i requires 0 <= i < |obs| => (obs[i].species, obs[i].gridId))
  }

  function CountRowsOf(pairs: seq<(string, string)>, all: seq<(string, string)>): (rows: seq<CountRow>)
    ensures |rows| == |pairs|
    ensures forall i :: 0 <= i < |pairs| ==>
      rows[i] == CountRow(pairs[i].0, pairs[i].1, multiset(all)[pairs[i]])
  {
    if pairs == [] then []
    else
      var p := pairs[|pairs| - 1];
      CountRowsOf(pairs[..|pairs| - 1], all) + [CountRow(p.0, p.1, multiset(all)[p])]
  }

  /** `groupby(["primary_label", "grid_id"]).value_counts()`: one row per
      distinct pair, with its number of observations. */
  function CountRows(obs: seq<Observation>): seq<CountRow> {
    CountRowsOf(Distinct(Pairs(obs)), Pairs(obs))
  }

  /** Number of observations of species `species` in cell `gridId`. */
  function PairCount(obs: seq<Observation>, species: string, gridId: string): nat {
    multiset(Pairs(obs))[(species, gridId)]
  }

  /** The count rows are exactly the observed (species, cell) pairs, each once,
      with `y` the number of observations of that pair, hence at least 1. */
  lemma CountRowsProperties(obs: seq<Observation>)
    ensures var rows := CountRows(obs);
      && (forall i, j :: 0 <= i < j < |rows| ==> (rows[i].species, rows[i].gridId) != (rows[j].species, rows[j].gridId))
      && (forall i :: 0 <= i < |rows| ==> rows[i].y == PairCount(obs, rows[i].species, rows[i].gridId) && rows[i].y >= 1)
      && (forall species, gridId ::
            (exists i :: 0 <= i < |rows| && rows[i].species == species && rows[i].gridId == gridId)
            <==> (species, gridId) in Pairs(obs))
  {
    var d := Distinct(Pairs(obs));
    var rows := CountRows(obs);
    forall species, gridId | (species, gridId) in Pairs(obs)
      ensures exists i :: 0 <= i < |rows| && rows[i].species == species && rows[i].gridId == gridId
    {
      var i :| 0 <= i < |d| && d[i] == (species, gridId);
      assert rows[i].species == species && rows[i].gridId == gridId;
    }
    forall i | 0 <= i < |rows| ensures rows[i].y >= 1 {
      assert d[i] in Pairs(obs);
    }
  }

  function TotalY(rows: seq<CountRow>): nat {
    if rows == [] then 0 else TotalY(rows[..|rows| - 1]) + rows[|rows| - 1].y
  }

  lemma {:induction false} TotalYOf(pairs: seq<(string, string)>, all: seq<(string, string)>)
    ensures TotalY(CountRowsOf(pairs, all)) == SumCounts(pairs, all)
  {
    if pairs != [] {
      TotalYOf(pairs[..|pairs| - 1], all);
      var rows := CountRowsOf(pairs, all);
      assert rows[..|rows| - 1] == CountRowsOf(pairs[..|pairs| - 1], all);
    }
  }

  /** The counts add up to the number of observations. */
  lemma CountRowsTotal(obs: seq<Observation>)
    ensures TotalY(CountRows(obs)) == |obs|
  {
    TotalYOf(Distinct(Pairs(obs)), Pairs(obs));
    DistinctCountsSum(Pairs(obs));
  }

  // ---------------------------------------------------------------------
  // Pairing every covariate row with every species (data.py lines 52-54)

  /** A row of the Earth Engine table, `name` renamed to `grid_id`; `values`
      holds its statistics columns (a missing value is None). */
  datatype CovariateRow = CovariateRow(gridId: string, values: map<string, Option<real>>)

  /** A row of `ee_with_species`. */
  datatype CrossRow = CrossRow(gridId: string, species: string, values: map<string, Option<real>>)

  function PairWith(row: CovariateRow, speciesList: seq<string>): seq<CrossRow>
  {
    seq(|speciesList|, j requires 0 <= j < |speciesList| => CrossRow(row.gridId, speciesList[j], row.values))
  }

  /** `merge(..., how="cross")`: for each covariate row in order, one row per species. */
  function CrossJoin(ee: seq<CovariateRow>, speciesList: seq<string>): (r: seq<CrossRow>)
    ensures |r| == |ee| * |speciesList|
  {
    if ee == [] then []
    else
      var init := CrossJoin(ee[..|ee| - 1], speciesList);
      assert |init| + |speciesList| == (|ee| - 1) * |speciesList| + |speciesList| == |ee| * |speciesList|;
      init + PairWith(ee[|ee| - 1], speciesList)
  }

  /** Row `i * L + j` of the cross join pairs covariate row `i` with species `j`. */
  lemma {:induction false} CrossJoinAt(ee: seq<CovariateRow>, speciesList: seq<string>, i: nat, j: nat)
    requires i < |ee| && j < |speciesList|
    ensures i * |speciesList| + j < |CrossJoin(ee, speciesList)|
    ensures CrossJoin(ee, speciesList)[i * |speciesList| + j] == CrossRow(ee[i].gridId, speciesList[j], ee[i].values)
  {
    var n, l := |ee|, |speciesList|;
    var init := ee[..n - 1];
    assert |CrossJoin(init, speciesList)| == (n - 1) * l;
    if i == n - 1 {
      assert i * l + j == (n - 1) * l + j;
    } else {
      CrossJoinAt(init, speciesList, i, j);
      assert init[i] == ee[i];
      assert i * l + j < (n - 1) * l by {
        assert i * l + l <= (n - 1) * l;
      }
    }
  }

  /** Every row of the cross join is some covariate row with some species. */
  lemma {:induction false} CrossJoinMembers(ee: seq<CovariateRow>, speciesList: seq<string>, c: CrossRow)
    ensures c in CrossJoin(ee, speciesList) <==>
      exists i, j :: 0 <= i < |ee| && 0 <= j < |speciesList| && c == CrossRow(ee[i].gridId, speciesList[j], ee[i].values)
  {
    if ee != [] {
      var init := ee[..|ee| - 1];
      CrossJoinMembers(init, speciesList, c);
      assert forall i :: 0 <= i < |init| ==> init[i] == ee[i];
      if c in CrossJoin(init, speciesList) {
        var i, j :| 0 <= i < |init| && 0 <= j < |speciesList| && c == CrossRow(init[i].gridId, speciesList[j], init[i].values);
        assert c == CrossRow(ee[i].gridId, speciesList[j], ee[i].values);
      }
      if exists i, j :: 0 <= i < |ee| && 0 <= j < |speciesList| && c == CrossRow(ee[i].gridId, speciesList[j], ee[i].values) {
        var i, j :| 0 <= i < |ee| && 0 <= j < |speciesList| && c == CrossRow(ee[i].gridId, speciesList[j], ee[i].values);
        CrossJoinAt(ee, speciesList, i, j);
      }
    }
  }

  // ---------------------------------------------------------------------
  // Outer merge of counts and covariates (data.py lines 55-57)

  /** A row of `prep_df`: `y` is None (NaN) where no call was counted,
      `covariates` is None where the cell has no covariate row. */
  datatype MergedRow = MergedRow(species: string, gridId: string, y: Option<nat>, covariates: Option<map<string, Option<real>>>)

  /** The count of the pair, if the counts have a row for it. */
  function LookupCount(counts: seq<CountRow>, species: string, gridId: string): (y: Option<nat>)
    ensures y.None? <==> forall i :: 0 <= i < |counts| ==> counts[i].species != species || counts[i].gridId != gridId
    ensures y.Some? ==> exists i :: 0 <= i < |counts| && counts[i] == CountRow(species, gridId, y.value)
  {
    if counts == [] then None
    else if counts[0].species == species && counts[0].gridId == gridId then Some(counts[0].y)
    else
      var y := LookupCount(counts[1..], species, gridId);
      assert forall i :: 1 <= i < |counts| ==> counts[i] == counts[1..][i - 1];
      y
  }

  /** Some row of the cross join has this (species, cell) pair. */
  predicate HasPair(cross: seq<CrossRow>, species: string, gridId: string) {
    exists i :: 0 <= i < |cross| && cross[i].species == species && cross[i].gridId == gridId
  }

  /** The rows of the cross join, each with the count for its pair (or none). */
  function MatchedRows(counts: seq<CountRow>, cross: seq<CrossRow>): seq<MergedRow>
  {
    seq(|cross|, i requires 0 <= i < |cross| =>
      MergedRow(cross[i].species, cross[i].gridId, LookupCount(counts, cross[i].species, cross[i].gridId), Some(cross[i].values)))
  }

  /** The count rows whose pair the cross join lacks, without covariates. */
  function UnmatchedRows(counts: seq<CountRow>, cross: seq<CrossRow>): (r: seq<MergedRow>)
    ensures |r| <= |counts|
  {
    if counts == [] then []
    else
      var k := counts[|counts| - 1];
      UnmatchedRows(counts[..|counts| - 1], cross)
        + (if HasPair(cross, k.species, k.gridId) then [] else [MergedRow(k.species, k.gridId, Some(k.y), None)])
  }

  lemma {:induction false} UnmatchedRowsMembers(counts: seq<CountRow>, cross: seq<CrossRow>, m: MergedRow)
    ensures m in UnmatchedRows(counts, cross) <==>
      exists i :: 0 <= i < |counts| && !HasPair(cross, counts[i].species, counts[i].gridId)
        && m == MergedRow(counts[i].species, counts[i].gridId, Some(counts[i].y), None)
  {
    if counts != [] {
      var init := counts[..|counts| - 1];
      UnmatchedRowsMembers(init, cross, m);
      assert forall i :: 0 <= i < |init| ==> init[i] == counts[i];
    }
  }

  /** `counts_df.merge(ee_with_species, on=["grid_id", "primary_label"], how="outer")`
      (row order aside: the rows are sorted afterwards). */
  function OuterMerge(counts: seq<CountRow>, cross: seq<CrossRow>): seq<MergedRow> {
    MatchedRows(counts, cross) + UnmatchedRows(counts, cross)
  }

  /** The merge keeps every (species, cell) pair of either side and no other;
      `covariates` is missing exactly for pairs the cross join lacks. */
  lemma OuterMergePairs(counts: seq<CountRow>, cross: seq<CrossRow>, species: string, gridId: string)
    ensures (exists m :: m in OuterMerge(counts, cross) && m.species == species && m.gridId == gridId)
      <==> HasPair(cross, species, gridId) || LookupCount(counts, species, gridId).Some?
    ensures forall m :: m in OuterMerge(counts, cross) && m.species == species && m.gridId == gridId ==>
      (m.covariates.None? <==> !HasPair(cross, species, gridId))
  {
    var matched, unmatched := MatchedRows(counts, cross), UnmatchedRows(counts, cross);
    if HasPair(cross, species, gridId) {
      var i :| 0 <= i < |cross| && cross[i].species == species && cross[i].gridId == gridId;
      assert matched[i] in OuterMerge(counts, cross);
    } else if LookupCount(counts, species, gridId).Some? {
      var i :| 0 <= i < |counts| && counts[i] == CountRow(species, gridId, LookupCount(counts, species, gridId).value);
      UnmatchedRowsMembers(counts, cross, MergedRow(species, gridId, Some(counts[i].y), None));
    }
    forall m | m in OuterMerge(counts, cross) && m.species == species && m.gridId == gridId
      ensures HasPair(cross, species, gridId) || LookupCount(counts, species, gridId).Some?
      ensures m.covariates.None? <==> !HasPair(cross, species, gridId)
    {
      if m in unmatched {
        UnmatchedRowsMembers(counts, cross, m);
        var i :| 0 <= i < |counts| && !HasPair(cross, counts[i].species, counts[i].gridId)
          && m == MergedRow(counts[i].species, counts[i].gridId, Some(counts[i].y), None);
      } else {
        var i :| 0 <= i < |matched| && matched[i] == m;
      }
    }
  }

  /** Merged with the counts of the observations, `y` is missing exactly for
      pairs without observations, and otherwise is their number. */
  lemma OuterMergeY(obs: seq<Observation>, cross: seq<CrossRow>, m: MergedRow)
    requires m in OuterMerge(CountRows(obs), cross)
    ensures m.y == if PairCount(obs, m.species, m.gridId) == 0 then None else Some(PairCount(obs, m.species, m.gridId))
  {
    var counts := CountRows(obs);
    CountRowsProperties(obs);
    var y := LookupCount(counts, m.species, m.gridId);
    if m in UnmatchedRows(counts, cross) {
      UnmatchedRowsMembers(counts, cross, m);
      var i :| 0 <= i < |counts| && !HasPair(cross, counts[i].species, counts[i].gridId)
        && m == MergedRow(counts[i].species, counts[i].gridId, Some(counts[i].y), None);
    } else {
      var i :| 0 <= i < |cross| && MatchedRows(counts, cross)[i] == m;
      assert m.y == y;
      if y.Some? {
        var k :| 0 <= k < |counts| && counts[k] == CountRow(m.species, m.gridId, y.value);
      } else {
        assert (m.species, m.gridId) !in Pairs(obs);
      }
    }
  }

  // ---------------------------------------------------------------------
  // Indexing by adjacency index and sorting (data.py lines 58-59)

  /** A merged row under its `adjacency_idx` (None where the cell has no index). */
  datatype IndexedRow = IndexedRow(index: Option<nat>, row: MergedRow)

  /** `sort_index()` order: ascending, missing indices last. */
  predicate IndexLe(a: Option<nat>, b: Option<nat>) {
    match (a, b)
    case (Some(x), Some(y)) => x <= y
    case (Some(_), None) => true
    case (None, Some(_)) => false
    case (None, None) => true
  }

  function ByIndex(): (IndexedRow, IndexedRow) -> bool {
    (a: IndexedRow, b: IndexedRow) => IndexLe(a.index, b.index)
  }

  /** `prep_df["adjacency_idx"] = prep_df.grid_id.apply(mapping.get)`. */
  function AttachIndex(rows: seq<MergedRow>, mapping: map<string, nat>): seq<IndexedRow>
  {
    seq(|rows|, i requires 0 <= i < |rows| => IndexedRow(AdjacencyIndex(mapping, rows[i].gridId), rows[i]))
  }

  /** `set_index("adjacency_idx").sort_index()`. */
  function SortByIndex(rows: seq<MergedRow>, mapping: map<string, nat>): seq<IndexedRow> {
    SortWith(AttachIndex(rows, mapping), ByIndex())
  }

  /** The sorted table holds the same rows, each under its cell's index,
      in ascending index order with the rows lacking an index last. */
  lemma SortByIndexProperties(rows: seq<MergedRow>, mapping: map<string, nat>)
    ensures var r := SortByIndex(rows, mapping);
      && multiset(r) == multiset(AttachIndex(rows, mapping))
      && (forall i :: 0 <= i < |r| ==> r[i].index == AdjacencyIndex(mapping, r[i].row.gridId))
      && (forall i, j :: 0 <= i < j < |r| && r[j].index.Some? ==> r[i].index.Some? && r[i].index.value <= r[j].index.value)
  {
    var attached := AttachIndex(rows, mapping);
    var r := SortByIndex(rows, mapping);
    assert TotalPreorder(ByIndex());
    SortWithSorted(attached, ByIndex());
    forall i | 0 <= i < |r| ensures r[i].index == AdjacencyIndex(mapping, r[i].row.gridId) {
      SortWithMembers(attached, ByIndex(), r[i]);
    }
    forall i, j | 0 <= i < j < |r| && r[j].index.Some? ensures r[i].index.Some? && r[i].index.value <= r[j].index.value {
      assert ByIndex()(r[i], r[j]);
    }
  }

  // ---------------------------------------------------------------------
  // Land-cover total (data.py lines 61-62)

  /** The column name starts with `land_cover`. */
  predicate IsLandCoverColumn(c: string) {
    |c| >= 10 && c[..10] == "land_cover"
  }

  /** A cell of the row as summed: a missing value (NaN) adds nothing. */
  function CellValue(covariates: Option<map<string, Option<real>>>, c: string): real {
    if covariates.Some? && c in covariates.value && covariates.value[c].Some? then covariates.value[c].value else 0.0
  }

  function SumColumns(columns: seq<string>, covariates: Option<map<string, Option<real>>>): real {
    if columns == [] then 0.0
    else SumColumns(columns[..|columns| - 1], covariates) + CellValue(covariates, columns[|columns| - 1])
  }

  /** `prep_df[landcover_cols].sum(axis="columns")`. */
  function SumLandCover(columns: seq<string>, covariates: Option<map<string, Option<real>>>): real {
    SumColumns(Filter(columns, IsLandCoverColumn), covariates)
  }

  lemma {:induction false} SumColumnsAgree(columns: seq<string>, c1: Option<map<string, Option<real>>>,
                                           c2: Option<map<string, Option<real>>>)
    requires forall c :: c in columns ==> CellValue(c1, c) == CellValue(c2, c)
    ensures SumColumns(columns, c1) == SumColumns(columns, c2)
  {
    if columns != [] {
      SumColumnsAgree(columns[..|columns| - 1], c1, c2);
    }
  }

  /** The total depends only on the `land_cover*` columns: rows that agree
      there have the same total, whatever their other columns hold. */
  lemma SumLandCoverOnlyLandCover(columns: seq<string>, c1: Option<map<string, Option<real>>>,
                                  c2: Option<map<string, Option<real>>>)
    requires forall c :: c in columns && IsLandCoverColumn(c) ==> CellValue(c1, c) == CellValue(c2, c)
    ensures SumLandCover(columns, c1) == SumLandCover(columns, c2)
  {
    SumColumnsAgree(Filter(columns, IsLandCoverColumn), c1, c2);
  }

  lemma {:induction false} SumLandCoverKeys(histogram: map<string, nat>, v: map<string, Option<real>>, n: nat)
    requires n <= EarthEngine.LandCoverClasses
    requires forall k :: 1 <= k <= EarthEngine.LandCoverClasses ==>
      EarthEngine.LandCoverKey(k) in v && v[EarthEngine.LandCoverKey(k)] == Some(EarthEngine.ClassCount(histogram, k) as real)
    ensures SumColumns(EarthEngine.LandCoverKeys()[..n], Some(v)) == EarthEngine.ClassTotal(histogram, n) as real
  {
    if n > 0 {
      SumLandCoverKeys(histogram, v, n - 1);
      assert EarthEngine.LandCoverKeys()[..n][..n - 1] == EarthEngine.LandCoverKeys()[..n - 1];
    }
  }

  /** For a cell whose land-cover columns are the 17 normalised counts of a
      histogram, `sum_land_cover` is the histogram's total over classes 1-17. */
  lemma SumLandCoverIsHistogramTotal(columns: seq<string>, histogram: map<string, nat>, v: map<string, Option<real>>)
    requires Filter(columns, IsLandCoverColumn) == EarthEngine.LandCoverKeys()
    requires forall k :: 1 <= k <= EarthEngine.LandCoverClasses ==>
      EarthEngine.LandCoverKey(k) in v && v[EarthEngine.LandCoverKey(k)] == Some(EarthEngine.ClassCount(histogram, k) as real)
    ensures SumLandCover(columns, Some(v)) == EarthEngine.ClassTotal(histogram, EarthEngine.LandCoverClasses) as real
  {
    SumLandCoverKeys(histogram, v, EarthEngine.LandCoverClasses);
    assert EarthEngine.LandCoverKeys()[..EarthEngine.LandCoverClasses] == EarthEngine.LandCoverKeys();
  }

  // ---------------------------------------------------------------------
  // The whole pipeline

  /** A row of the prepared table. */
  datatype PreparedRow = PreparedRow(index: Option<nat>, row: MergedRow, sumLandCover: real)

  /** `prepare_dataframe` after the files are read: `raw` is the recordings
      table, `ee` the covariate table with column names `columns`, `cellOf`
      the spatial join and `mapping` the cell-key-to-index map. */
  function PrepareDataframe(ee: seq<CovariateRow>, columns: seq<string>, raw: seq<RawObservation>,
                            nSpecies: Option<nat>, cellOf: (real, real) -> Option<string>, mapping: map<string, nat>)
    : seq<PreparedRow>
  {
    var obs := KeptObservations(raw, nSpecies, cellOf, mapping);
    var merged := OuterMerge(CountRows(obs), CrossJoin(ee, Distinct(Labels(obs))));
    var sorted := SortByIndex(merged, mapping);
    seq(|sorted|, i requires 0 <= i < |sorted| =>
      PreparedRow(sorted[i].index, sorted[i].row, SumLandCover(columns, sorted[i].row.covariates)))
  }

  /** The surviving observations after dropping and relabelling. */
  function KeptObservations(raw: seq<RawObservation>, nSpecies: Option<nat>, cellOf: (real, real) -> Option<string>,
                            mapping: map<string, nat>): seq<Observation>
  {
    RelabelTopN(DropUnjoinable(raw, cellOf, mapping), nSpecies)
  }

  /** Every prepared row sits under its cell's adjacency index, the rows are in
      ascending index order with unindexed rows last, and `y` is missing
      exactly for (species, cell) pairs without kept observations and is
      otherwise their number. */
  lemma PrepareDataframeRows(ee: seq<CovariateRow>, columns: seq<string>, raw: seq<RawObservation>,
                             nSpecies: Option<nat>, cellOf: (real, real) -> Option<string>, mapping: map<string, nat>)
    ensures var obs := KeptObservations(raw, nSpecies, cellOf, mapping);
      var rows := PrepareDataframe(ee, columns, raw, nSpecies, cellOf, mapping);
      && (forall i :: 0 <= i < |rows| ==> rows[i].index == AdjacencyIndex(mapping, rows[i].row.gridId))
      && (forall i, j :: 0 <= i < j < |rows| && rows[j].index.Some? ==>
            rows[i].index.Some? && rows[i].index.value <= rows[j].index.value)
      && (forall i :: 0 <= i < |rows| ==>
            rows[i].row.y == if PairCount(obs, rows[i].row.species, rows[i].row.gridId) == 0 then None
                             else Some(PairCount(obs, rows[i].row.species, rows[i].row.gridId)))
  {
    var obs := KeptObservations(raw, nSpecies, cellOf, mapping);
    var cross := CrossJoin(ee, Distinct(Labels(obs)));
    var merged := OuterMerge(CountRows(obs), cross);
    var sorted := SortByIndex(merged, mapping);
    var rows := PrepareDataframe(ee, columns, raw, nSpecies, cellOf, mapping);
    SortByIndexProperties(merged, mapping);
    assert |rows| == |sorted|;
    forall i | 0 <= i < |rows| ensures rows[i].index == sorted[i].index && rows[i].row == sorted[i].row {
    }
    forall i | 0 <= i < |rows|
      ensures rows[i].row.y == if PairCount(obs, rows[i].row.species, rows[i].row.gridId) == 0 then None
                               else Some(PairCount(obs, rows[i].row.species, rows[i].row.gridId))
    {
      var attached := AttachIndex(merged, mapping);
      assert sorted[i] in multiset(attached);
      var k :| 0 <= k < |attached| && attached[k] == sorted[i];
      OuterMergeY(obs, cross, merged[k]);
    }
  }
}
