/** The family of Poisson models (birdcall_distribution/model.py): the
    covariate columns every builder uses, the coordinate domains it declares,
    and the linear predictor (log-rate) of each observation row, built from an
    intercept term, an optional covariate term and an optional spatial (CAR)
    term. Priors and sampling are not modelled: the parameters are inputs. */
module ModelFamily {
  import opened Wrappers
  import opened Seqs
  import EarthEngine
  import Scaling
  import Decimal

  // ---------------------------------------------------------------------
  // _scaled_data

  /** `[f"land_cover_{i:02d}" for i in [7, 8, 9, 10, 16]]`. */
  function LandCoverColumns(): (cols: seq<string>)
    ensures |cols| == 5
  {
    var classes := [7, 8, 9, 10, 16];
    seq(5, i requires 0 <= i < 5 => EarthEngine.LandCoverKey(classes[i]))
  }

  /** The two-digit forms of the five selected classes. */
  lemma PaddedClasses()
    ensures Decimal.ZeroPad2(7) == "07" && Decimal.ZeroPad2(8) == "08" && Decimal.ZeroPad2(9) == "09"
    ensures Decimal.ZeroPad2(10) == "10" && Decimal.ZeroPad2(16) == "16"
  {
    assert Decimal.DigitChar(0) == '0' && Decimal.DigitChar(1) == '1' && Decimal.DigitChar(6) == '6';
    assert Decimal.DigitChar(7) == '7' && Decimal.DigitChar(8) == '8' && Decimal.DigitChar(9) == '9';
    assert Decimal.NatToDecimal(1) == "1";
    assert Decimal.NatToDecimal(10) == Decimal.NatToDecimal(1) + [Decimal.DigitChar(0)] == "10";
    assert Decimal.NatToDecimal(16) == Decimal.NatToDecimal(1) + [Decimal.DigitChar(6)] == "16";
  }

  /** The nine covariate columns, in order. */
  function DataColumns(): seq<string> {
    ["population_density", "elevation_p50", "LST_Day_1km_p95", "LST_Night_1km_p5"] + LandCoverColumns()
  }

  /** The columns that get `log(x + 1)`. */
  function LogColumns(): seq<string> {
    ["population_density"] + LandCoverColumns()
  }

  lemma LandCoverColumnNames()
    ensures LandCoverColumns() == ["land_cover_07", "land_cover_08", "land_cover_09", "land_cover_10", "land_cover_16"]
  {
    var cols := LandCoverColumns();
    PaddedClasses();
    assert cols[0] == "land_cover_07" && cols[1] == "land_cover_08" && cols[2] == "land_cover_09";
    assert cols[3] == "land_cover_10" && cols[4] == "land_cover_16";
  }

  lemma DataColumnNames()
    ensures DataColumns() == ["population_density", "elevation_p50", "LST_Day_1km_p95", "LST_Night_1km_p5",
                              "land_cover_07", "land_cover_08", "land_cover_09", "land_cover_10", "land_cover_16"]
    ensures LogColumns() == ["population_density",
                             "land_cover_07", "land_cover_08", "land_cover_09", "land_cover_10", "land_cover_16"]
  {
    LandCoverColumnNames();
  }

  /** Length and last two characters tell the nine names apart. */
  lemma DataColumnsDistinct()
    ensures NoDuplicates(DataColumns())
  {
    DataColumnNames();
    NineNamesDistinct();
  }

  lemma NineNamesDistinct()
    ensures NoDuplicates(["population_density", "elevation_p50", "LST_Day_1km_p95", "LST_Night_1km_p5",
                          "land_cover_07", "land_cover_08", "land_cover_09", "land_cover_10", "land_cover_16"])
  {
    var d := ["population_density", "elevation_p50", "LST_Day_1km_p95", "LST_Night_1km_p5",
              "land_cover_07", "land_cover_08", "land_cover_09", "land_cover_10", "land_cover_16"];
    var keys := seq(|d|, i requires 0 <= i < |d| => (|d[i]|, d[i][|d[i]| - 2], d[i][|d[i]| - 1]));
    assert keys == [(18, 't', 'y'), (13, '5', '0'), (15, '9', '5'), (16, 'p', '5'),
                    (13, '0', '7'), (13, '0', '8'), (13, '0', '9'), (13, '1', '0'), (13, '1', '6')];
    forall i, j | 0 <= i < j < |d| ensures d[i] != d[j] {
      assert keys[i] != keys[j];
    }
  }

  /** The selection: nine distinct columns, log-marked exactly
      `population_density` and the five land-cover columns, each once. */
  lemma DataColumnsShape()
    ensures |DataColumns()| == 9 && NoDuplicates(DataColumns())
    ensures forall c :: c in LogColumns() ==> c in DataColumns() && multiset(LogColumns())[c] == 1
    ensures forall c :: c in DataColumns() && c !in LogColumns() ==>
      c in ["elevation_p50", "LST_Day_1km_p95", "LST_Night_1km_p5"]
  {
    DataColumnsDistinct();
    var d, l, lc := DataColumns(), LogColumns(), LandCoverColumns();
    var named := ["population_density", "elevation_p50", "LST_Day_1km_p95", "LST_Night_1km_p5"];
    assert d == named + lc && l == [named[0]] + lc;
    assert forall i :: 0 <= i < |l| ==> l[i] == d[if i == 0 then 0 else i + 3];
    assert NoDuplicates(l) by {
      forall i, j | 0 <= i < j < |l| ensures l[i] != l[j] {
        assert l[i] == d[if i == 0 then 0 else i + 3];
        assert l[j] == d[if j == 0 then 0 else j + 3];
      }
    }
    forall c | c in l ensures c in d && multiset(l)[c] == 1 {
      NoDuplicatesCount(l, c);
    }
    forall c | c in d && c !in l ensures c in named[1..] {
      var i :| 0 <= i < |d| && d[i] == c;
      assert i != 0 && i < 4;
      assert named[1..][i - 1] == c;
    }
  }

  /** `_scaled_data(prep_df)`: `prepare_scaled_data` with these columns and no intercept. */
  function ScaledCovariates(df: Scaling.Table, log: real -> real, standardise: seq<real> -> seq<real>)
    : Result<Scaling.Frame, Scaling.ScaleError>
  {
    DataColumnsShape();
    Scaling.ScaledData(df, DataColumns(), LogColumns(), false, log, standardise)
  }

  /** The covariate matrix has nine columns named as selected; it exists exactly
      when the table has all nine; the log-marked columns are log(x + 1) of the
      input before standardising and the other three are the input standardised. */
  lemma ScaledCovariatesShape(df: Scaling.Table, log: real -> real, standardise: seq<real> -> seq<real>)
    ensures ScaledCovariates(df, log, standardise).Ok? <==> forall c :: c in DataColumns() ==> c in df.columns
    ensures var r := ScaledCovariates(df, log, standardise);
      r.Ok? ==>
        && r.value.names == DataColumns() && |r.value.cols| == 9
        && (forall i :: 0 <= i < 9 ==>
              r.value.cols[i] == standardise(
                if DataColumns()[i] in LogColumns() then Scaling.LogPlusOne(df.columns[DataColumns()[i]], log)
                else df.columns[DataColumns()[i]]))
  {
    ScaledCovariatesSucceeds(df, log, standardise);
    var r := ScaledCovariates(df, log, standardise);
    if r.Ok? {
      DataColumnsShape();
      Scaling.ScaledDataShape(df, DataColumns(), LogColumns(), false, log, standardise);
      forall i | 0 <= i < 9
        ensures r.value.cols[i] == standardise(
          if DataColumns()[i] in LogColumns() then Scaling.LogPlusOne(df.columns[DataColumns()[i]], log)
          else df.columns[DataColumns()[i]])
      {
        ScaledCovariatesColumn(df, log, standardise, i);
      }
    }
  }

  lemma ScaledCovariatesSucceeds(df: Scaling.Table, log: real -> real, standardise: seq<real> -> seq<real>)
    ensures ScaledCovariates(df, log, standardise).Ok? <==> forall c :: c in DataColumns() ==> c in df.columns
  {
    DataColumnsShape();
    Scaling.ScaledDataErrors(df, DataColumns(), LogColumns(), false, log, standardise);
  }

  lemma ScaledCovariatesColumn(df: Scaling.Table, log: real -> real, standardise: seq<real> -> seq<real>, i: nat)
    requires ScaledCovariates(df, log, standardise).Ok? && i < 9
    ensures DataColumns()[i] in df.columns
    ensures ScaledCovariates(df, log, standardise).value.cols[i] == standardise(
      if DataColumns()[i] in LogColumns() then Scaling.LogPlusOne(df.columns[DataColumns()[i]], log)
      else df.columns[DataColumns()[i]])
  {
    DataColumnsShape();
    var d, l := DataColumns(), LogColumns();
    Scaling.ScaledColumnsNamed(df, d, l, false, log, standardise);
    if d[i] in l {
      assert multiset(l)[d[i]] == 1;
      assert Scaling.LogTimes(df.columns[d[i]], 1, log) == Scaling.LogPlusOne(df.columns[d[i]], log);
    } else {
      assert multiset(l)[d[i]] == 0;
    }
  }


  // ---------------------------------------------------------------------
  // Species categories (astype("category"))

  /** Python's string order (code point by code point). */
  predicate StrLe(a: string, b: string) {
    if a == [] then true
    else if b == [] then false
    else if a[0] != b[0] then a[0] < b[0]
    else StrLe(a[1..], b[1..])
  }

  lemma {:induction false} StrLeTotal(a: string, b: string)
    ensures StrLe(a, b) || StrLe(b, a)
  {
    if a != [] && b != [] && a[0] == b[0] {
      StrLeTotal(a[1..], b[1..]);
    }
  }

  lemma {:induction false} StrLeTransitive(a: string, b: string, c: string)
    requires StrLe(a, b) && StrLe(b, c)
    ensures StrLe(a, c)
  {
    if a != [] && b != [] && c != [] && a[0] == b[0] && b[0] == c[0] {
      StrLeTransitive(a[1..], b[1..], c[1..]);
    }
  }

  lemma {:induction false} StrLeAntisymmetric(a: string, b: string)
    requires StrLe(a, b) && StrLe(b, a)
    ensures a == b
  {
    if a != [] && b != [] {
      StrLeAntisymmetric(a[1..], b[1..]);
      assert a == [a[0]] + a[1..] && b == [b[0]] + b[1..];
    }
  }

  function ByString(): (string, string) -> bool {
    (a: string, b: string) => StrLe(a, b)
  }

  lemma ByStringTotalPreorder()
    ensures TotalPreorder(ByString())
  {
    forall a, b ensures StrLe(a, b) || StrLe(b, a) {
      StrLeTotal(a, b);
    }
    forall a, b, c | StrLe(a, b) && StrLe(b, c) ensures StrLe(a, c) {
      StrLeTransitive(a, b, c);
    }
  }

  /** The categories: the distinct species, sorted. */
  function Categories(species: seq<string>): seq<string> {
    SortWith(Distinct(species), ByString())
  }

  /** `cat.codes`: each row's position in the categories. */
  function CategoryCodes(species: seq<string>): (codes: seq<nat>)
    ensures |codes| == |species|
  {
    var cats := Categories(species);
    seq(|species|, i requires 0 <= i < |species| =>
      SortWithMembers(Distinct(species), ByString(), species[i]);
      IndexOf(cats, species[i]))
  }

  /** The categories are the distinct species in strictly increasing order,
      and a row's code is the position of its species among them: rows share a
      code exactly when they share a species, and codes follow string order. */
  lemma CategoryCodesProperties(species: seq<string>)
    ensures var cats := Categories(species);
      var codes := CategoryCodes(species);
      && NoDuplicates(cats)
      && (forall s :: s in cats <==> s in species)
      && (forall i, j :: 0 <= i < j < |cats| ==> StrLe(cats[i], cats[j]) && cats[i] != cats[j])
      && (forall i :: 0 <= i < |species| ==> codes[i] < |cats| && cats[codes[i]] == species[i])
      && (forall i, j :: 0 <= i < |species| && 0 <= j < |species| ==> (codes[i] == codes[j] <==> species[i] == species[j]))
  {
    var d := Distinct(species);
    var cats := Categories(species);
    PermutationNoDuplicates(d, cats);
    ByStringTotalPreorder();
    SortWithSorted(d, ByString());
    forall s ensures s in cats <==> s in species {
      SortWithMembers(d, ByString(), s);
    }
    forall i, j | 0 <= i < j < |cats| ensures StrLe(cats[i], cats[j]) && cats[i] != cats[j] {
      assert ByString()(cats[i], cats[j]);
    }
  }

  /** `sorted(species_cat.cat.codes.unique())` is `0 .. K - 1` for K categories. */
  lemma SpeciesCoordsAreRange(species: seq<string>)
    ensures SortedUnique(CategoryCodes(species)) == Range(|Categories(species)|)
  {
    var cats := Categories(species);
    var codes := CategoryCodes(species);
    CategoryCodesProperties(species);
    forall v: nat ensures v in codes <==> v < |cats| {
      if v < |cats| {
        assert cats[v] in species;
        var i :| 0 <= i < |species| && species[i] == cats[v];
        assert cats[codes[i]] == cats[v];
        assert codes[i] == v by {
          assert NoDuplicates(cats);
        }
      }
    }
    SortedUniqueOfFullRange(codes, |cats|);
  }

  // ---------------------------------------------------------------------
  // _coords

  datatype Coords = Coords(featuresIdx: seq<nat>, speciesIdx: seq<nat>, adjIdx: seq<nat>, obsIdx: seq<nat>)

  /** `_coords(prep_df, scaled_data_df)`: `species` and `index` are the table's
      species column and index, `nFeatures` the number of covariate columns. */
  function MakeCoords(species: seq<string>, index: seq<nat>, nFeatures: nat): Coords
    requires |index| == |species|
  {
    Coords(Range(nFeatures), SortedUnique(CategoryCodes(species)), SortedUnique(index), Range(|species|))
  }

  /** The coordinate domains: features and observations are `0 .. n - 1`,
      species `0 .. K - 1`, and `adj_idx` the distinct index values in
      increasing order, which is `0 .. N - 1` when every cell index occurs. */
  lemma CoordsDomains(species: seq<string>, index: seq<nat>, nFeatures: nat)
    requires |index| == |species|
    ensures var c := MakeCoords(species, index, nFeatures);
      && c.featuresIdx == Range(nFeatures) && c.obsIdx == Range(|species|)
      && c.speciesIdx == Range(|Categories(species)|)
      && (forall v :: v in c.adjIdx <==> v in index)
      && (forall i, j :: 0 <= i < j < |c.adjIdx| ==> c.adjIdx[i] < c.adjIdx[j])
    ensures forall n: nat :: (forall v: nat :: v in index <==> v < n) ==> MakeCoords(species, index, nFeatures).adjIdx == Range(n)
  {
    SpeciesCoordsAreRange(species);
    forall n: nat | forall v: nat :: v in index <==> v < n
      ensures SortedUnique(index) == Range(n)
    {
      SortedUniqueOfFullRange(index, n);
    }
  }

  // ---------------------------------------------------------------------
  // The ten builders

  datatype InterceptKind = PooledIntercept | VaryingIntercept
  datatype CovariateKind = NoCovariate | PooledCovariate | VaryingCovariate

  /** A builder: how the intercept and the covariate effects are shared across
      species, and whether a CAR spatial effect is added. */
  datatype ModelSpec = ModelSpec(intercept: InterceptKind, covariate: CovariateKind, car: bool)

  const VaryingInterceptModel := ModelSpec(VaryingIntercept, NoCovariate, false)
  const VaryingInterceptCarModel := ModelSpec(VaryingIntercept, NoCovariate, true)
  const PooledInterceptCarModel := ModelSpec(PooledIntercept, NoCovariate, true)
  const VaryingInterceptPooledCovariateModel := ModelSpec(VaryingIntercept, PooledCovariate, false)
  const PooledInterceptPooledCovariateModel := ModelSpec(PooledIntercept, PooledCovariate, false)
  const PooledInterceptVaryingCovariateModel := ModelSpec(PooledIntercept, VaryingCovariate, false)
  const VaryingInterceptVaryingCovariateModel := ModelSpec(VaryingIntercept, VaryingCovariate, false)
  const PooledInterceptVaryingCovariateCarModel := ModelSpec(PooledIntercept, VaryingCovariate, true)
  const VaryingInterceptPooledCovariateCarModel := ModelSpec(VaryingIntercept, PooledCovariate, true)
  const VaryingInterceptVaryingCovariateCarModel := ModelSpec(VaryingIntercept, VaryingCovariate, true)

  /** The builders in the order they are defined. */
  function Builders(): seq<ModelSpec> {
    [VaryingInterceptModel, VaryingInterceptCarModel, PooledInterceptCarModel,
     VaryingInterceptPooledCovariateModel, PooledInterceptPooledCovariateModel,
     PooledInterceptVaryingCovariateModel, VaryingInterceptVaryingCovariateModel,
     PooledInterceptVaryingCovariateCarModel, VaryingInterceptPooledCovariateCarModel,
     VaryingInterceptVaryingCovariateCarModel]
  }

  /** Ten distinct builders: every combination except a pooled intercept alone
      without CAR and a pooled intercept with pooled covariates and CAR. */
  lemma BuildersCoverage()
    ensures |Builders()| == 10 && NoDuplicates(Builders())
    ensures forall m: ModelSpec :: m in Builders() <==>
      m != ModelSpec(PooledIntercept, NoCovariate, false) && m != ModelSpec(PooledIntercept, PooledCovariate, true)
  {
    var b := Builders();
    forall m: ModelSpec
      | m != ModelSpec(PooledIntercept, NoCovariate, false) && m != ModelSpec(PooledIntercept, PooledCovariate, true)
      ensures m in b
    {
      var k :=
        match (m.intercept, m.covariate, m.car)
        case (VaryingIntercept, NoCovariate, false) => 0
        case (VaryingIntercept, NoCovariate, true) => 1
        case (PooledIntercept, NoCovariate, true) => 2
        case (VaryingIntercept, PooledCovariate, false) => 3
        case (PooledIntercept, PooledCovariate, false) => 4
        case (PooledIntercept, VaryingCovariate, false) => 5
        case (VaryingIntercept, VaryingCovariate, false) => 6
        case (PooledIntercept, VaryingCovariate, true) => 7
        case (VaryingIntercept, PooledCovariate, true) => 8
        case (VaryingIntercept, VaryingCovariate, true) => 9
        case _ => 0;
      assert b[k] == m;
    }
  }

  // ---------------------------------------------------------------------
  // The log-rate

  /** The model's parameters: a pooled intercept or one per species, pooled
      covariate effects or one vector per species, and the spatial effects. */
  datatype Params = Params(intercept: real, interceptBySpecies: seq<real>, betas: seq<real>,
                           betasBySpecies: seq<seq<real>>, phi: seq<real>)

  /** The data of the rows: covariate matrix, species codes and adjacency indices. */
  datatype RowData = RowData(x: seq<seq<real>>, speciesIdx: seq<nat>, adjIdx: seq<nat>)

  /** Every index the builder reads is in range (PyMC raises otherwise). */
  ghost predicate WellShaped(m: ModelSpec, p: Params, d: RowData) {
    && |d.speciesIdx| == |d.x| && |d.adjIdx| == |d.x|
    && (m.intercept == VaryingIntercept ==> forall i :: 0 <= i < |d.x| ==> d.speciesIdx[i] < |p.interceptBySpecies|)
    && (m.covariate == PooledCovariate ==> forall i :: 0 <= i < |d.x| ==> |d.x[i]| == |p.betas|)
    && (m.covariate == VaryingCovariate ==> forall i :: 0 <= i < |d.x| ==>
          d.speciesIdx[i] < |p.betasBySpecies| && |d.x[i]| == |p.betasBySpecies[d.speciesIdx[i]]|)
    && (m.car ==> forall i :: 0 <= i < |d.x| ==> d.adjIdx[i] < |p.phi|)
  }

  /** `sum(x * b)`. */
  function Dot(x: seq<real>, b: seq<real>): real
    requires |x| == |b|
  {
    if x == [] then 0.0 else x[0] * b[0] + Dot(x[1..], b[1..])
  }

  function InterceptTerm(m: ModelSpec, p: Params, d: RowData, i: nat): real
    requires WellShaped(m, p, d) && i < |d.x|
  {
    match m.intercept
    case PooledIntercept => p.intercept
    case VaryingIntercept => p.interceptBySpecies[d.speciesIdx[i]]
  }

  function CovariateTerm(m: ModelSpec, p: Params, d: RowData, i: nat): real
    requires WellShaped(m, p, d) && i < |d.x|
  {
    match m.covariate
    case NoCovariate => 0.0
    case PooledCovariate => Dot(d.x[i], p.betas)
    case VaryingCovariate => Dot(d.x[i], p.betasBySpecies[d.speciesIdx[i]])
  }

  function SpatialTerm(m: ModelSpec, p: Params, d: RowData, i: nat): real
    requires WellShaped(m, p, d) && i < |d.x|
  {
    if m.car then p.phi[d.adjIdx[i]] else 0.0
  }

  /** The argument of `exp` in `mu` for row `i`. */
  function LogRate(m: ModelSpec, p: Params, d: RowData, i: nat): real
    requires WellShaped(m, p, d) && i < |d.x|
  {
    InterceptTerm(m, p, d, i) + CovariateTerm(m, p, d, i) + SpatialTerm(m, p, d, i)
  }

  /** Parameters sized by the coordinates of a table satisfy every index the
      builders read, once every adjacency index is below the number of cells. */
  lemma CoordsSizedParamsWellShaped(m: ModelSpec, p: Params, species: seq<string>, index: seq<nat>,
                                    x: seq<seq<real>>, nFeatures: nat)
    requires |index| == |species| && |x| == |species|
    requires forall i :: 0 <= i < |x| ==> |x[i]| == nFeatures
    requires var c := MakeCoords(species, index, nFeatures);
      && |p.interceptBySpecies| == |c.speciesIdx| && |p.betas| == |c.featuresIdx|
      && |p.betasBySpecies| == |c.speciesIdx| && (forall s :: s in p.betasBySpecies ==> |s| == |c.featuresIdx|)
    requires forall i :: 0 <= i < |index| ==> index[i] < |p.phi|
    ensures WellShaped(m, p, RowData(x, CategoryCodes(species), index))
  {
    CoordsSizes(species, index, nFeatures);
    CategoryCodesInRange(species);
    var codes := CategoryCodes(species);
    assert |p.interceptBySpecies| == |p.betasBySpecies| == |Categories(species)| && |p.betas| == nFeatures;
    forall i | 0 <= i < |x|
      ensures codes[i] < |p.interceptBySpecies| && codes[i] < |p.betasBySpecies|
      ensures |x[i]| == |p.betas| && |x[i]| == |p.betasBySpecies[codes[i]]|
    {
      assert p.betasBySpecies[codes[i]] in p.betasBySpecies;
    }
  }

  lemma CoordsSizes(species: seq<string>, index: seq<nat>, nFeatures: nat)
    requires |index| == |species|
    ensures |MakeCoords(species, index, nFeatures).speciesIdx| == |Categories(species)|
    ensures |MakeCoords(species, index, nFeatures).featuresIdx| == nFeatures
  {
    CoordsDomains(species, index, nFeatures);
  }

  lemma CategoryCodesInRange(species: seq<string>)
    ensures forall i :: 0 <= i < |species| ==> CategoryCodes(species)[i] < |Categories(species)|
  {
    CategoryCodesProperties(species);
  }

  /** Without CAR the spatial effects play no part. */
  lemma NoCarIgnoresPhi(m: ModelSpec, p: Params, d: RowData, i: nat, phi: seq<real>)
    requires !m.car && WellShaped(m, p, d) && i < |d.x|
    ensures WellShaped(m, p.(phi := phi), d)
    ensures LogRate(m, p.(phi := phi), d, i) == LogRate(m, p, d, i)
  {
  }

  /** CAR adds the row's cell effect `phi[adj_idx[i]]` and nothing else. */
  lemma CarAddsCellEffect(m: ModelSpec, p: Params, d: RowData, i: nat)
    requires m.car && WellShaped(m, p, d) && i < |d.x|
    ensures WellShaped(m.(car := false), p, d)
    ensures LogRate(m, p, d, i) == LogRate(m.(car := false), p, d, i) + p.phi[d.adjIdx[i]]
  {
  }

  /** Without covariates the covariate matrix and effects play no part. */
  lemma NoCovariateIgnoresX(m: ModelSpec, p: Params, d: RowData, i: nat, x: seq<seq<real>>, betas: seq<real>,
                            betasBySpecies: seq<seq<real>>)
    requires m.covariate == NoCovariate && WellShaped(m, p, d) && i < |d.x| && |x| == |d.x|
    ensures WellShaped(m, p.(betas := betas, betasBySpecies := betasBySpecies), d.(x := x))
    ensures LogRate(m, p.(betas := betas, betasBySpecies := betasBySpecies), d.(x := x), i) == LogRate(m, p, d, i)
  {
  }

  /** With a pooled intercept and no per-species effects, the species code
      plays no part: rows with the same covariates and cell have the same rate. */
  lemma PooledIsSpeciesBlind(m: ModelSpec, p: Params, d: RowData, i: nat, j: nat)
    requires m.intercept == PooledIntercept && m.covariate != VaryingCovariate
    requires WellShaped(m, p, d) && i < |d.x| && j < |d.x|
    requires d.x[i] == d.x[j] && d.adjIdx[i] == d.adjIdx[j]
    ensures LogRate(m, p, d, i) == LogRate(m, p, d, j)
  {
  }

  /** With a varying intercept, raising species `s`'s intercept by `delta`
      raises exactly the rates of that species' rows, by `delta`. */
  lemma VaryingInterceptShiftsOneSpecies(m: ModelSpec, p: Params, d: RowData, i: nat, s: nat, delta: real)
    requires m.intercept == VaryingIntercept && WellShaped(m, p, d) && i < |d.x| && s < |p.interceptBySpecies|
    ensures var q := p.(interceptBySpecies := p.interceptBySpecies[s := p.interceptBySpecies[s] + delta]);
      && WellShaped(m, q, d)
      && LogRate(m, q, d, i) == LogRate(m, p, d, i) + (if d.speciesIdx[i] == s then delta else 0.0)
  {
  }

  /** With pooled covariates, moving the effects by `k * c` moves every row's
      log-rate by `k` times that row's covariate term under `c`. */
  lemma PooledBetasShiftRate(m: ModelSpec, p: Params, d: RowData, i: nat, c: seq<real>, k: real)
    requires m.covariate == PooledCovariate && WellShaped(m, p, d) && i < |d.x| && |c| == |p.betas|
    ensures var q := p.(betas := Add(p.betas, Scale(c, k)));
      && WellShaped(m, q, d)
      && LogRate(m, q, d, i) == LogRate(m, p, d, i) + k * Dot(d.x[i], c)
  {
    DotLinear(d.x[i], p.betas, c, k);
  }

  /** `b + c`, entry by entry. */
  function Add(b: seq<real>, c: seq<real>): (r: seq<real>)
    requires |b| == |c|
    ensures |r| == |b|
  {
    if b == [] then [] else [b[0] + c[0]] + Add(b[1..], c[1..])
  }

  /** `k * c`, entry by entry. */
  function Scale(c: seq<real>, k: real): (r: seq<real>)
    ensures |r| == |c|
  {
    if c == [] then [] else [k * c[0]] + Scale(c[1..], k)
  }

  /** The covariate term is additive in the effects. */
  lemma {:induction false} DotAdd(x: seq<real>, b: seq<real>, c: seq<real>)
    requires |x| == |b| == |c|
    ensures Dot(x, Add(b, c)) == Dot(x, b) + Dot(x, c)
  {
    if x != [] {
      DotAdd(x[1..], b[1..], c[1..]);
      var r := Add(b, c);
      assert r[1..] == Add(b[1..], c[1..]);
      assert x[0] * r[0] == x[0] * b[0] + x[0] * c[0];
    }
  }

  /** The covariate term scales with the effects. */
  lemma {:induction false} DotScale(x: seq<real>, c: seq<real>, k: real)
    requires |x| == |c|
    ensures Dot(x, Scale(c, k)) == k * Dot(x, c)
  {
    if x != [] {
      DotScale(x[1..], c[1..], k);
      var r := Scale(c, k);
      assert r[1..] == Scale(c[1..], k);
      assert x[0] * r[0] == k * (x[0] * c[0]);
      assert k * Dot(x, c) == k * (x[0] * c[0]) + k * Dot(x[1..], c[1..]);
    }
  }

  /** The covariate term is linear in the effects. */
  lemma DotLinear(x: seq<real>, b: seq<real>, c: seq<real>, k: real)
    requires |x| == |b| == |c|
    ensures Dot(x, Add(b, Scale(c, k))) == Dot(x, b) + k * Dot(x, c)
  {
    DotAdd(x, b, Scale(c, k));
    DotScale(x, c, k);
  }

  // ---------------------------------------------------------------------
  // Observations (np.ma.masked_invalid)

  /** The rows whose count enters the likelihood: missing counts are masked,
      not replaced by zero. */
  function ObservedRows(y: seq<Option<nat>>): seq<nat> {
    if y == [] then []
    else ObservedRows(y[..|y| - 1]) + (if y[|y| - 1].Some? then [|y| - 1] else [])
  }

  /** Exactly the rows with a count are observed, in row order. */
  lemma {:induction false} ObservedRowsProperties(y: seq<Option<nat>>)
    ensures forall i: nat :: i in ObservedRows(y) <==> i < |y| && y[i].Some?
    ensures forall a, b :: 0 <= a < b < |ObservedRows(y)| ==> ObservedRows(y)[a] < ObservedRows(y)[b]
  {
    if y != [] {
      var n := |y| - 1;
      var y' := y[..n];
      ObservedRowsProperties(y');
      var init, r := ObservedRows(y'), ObservedRows(y);
      assert r == init + (if y[n].Some? then [n] else []);
      forall i: nat ensures i in r <==> i < |y| && y[i].Some? {
        if i < n {
          assert y'[i] == y[i];
        }
      }
      forall a, b | 0 <= a < b < |r| ensures r[a] < r[b] {
        if b >= |init| {
          assert r[a] == init[a] && init[a] in init;
        }
      }
    }
  }

}
