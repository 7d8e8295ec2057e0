/** Shaping of one grid cell's covariate record
    (birdcall_distribution/commands/earth_engine.py): the MODIS temperature
    unit conversion, the land-cover histogram normalised to 17 fixed keys,
    and the merge of all statistics into one flat record. */
module EarthEngine {
  import opened Wrappers
  import opened Decimal
  import opened Seqs

  // ---------------------------------------------------------------------
  // t_modis_to_celsius

  /** MODIS land-surface temperature (units of 0.02 kelvin) to degrees Celsius;
      None passes through. */
  function TModisToCelsius(t: Option<real>): (c: Option<real>)
    ensures c.None? <==> t.None?
  {
    match t
    case None => None
    case Some(v) => Some(0.02 * v - 273.15)
  }

  /** The inverse conversion, from degrees Celsius back to MODIS units. */
  function CelsiusToModis(c: real): real {
    (c + 273.15) * 50.0
  }

  /** Converting and converting back gives the MODIS value again. */
  lemma CelsiusRoundTrip(t: real)
    ensures TModisToCelsius(Some(t)).Some?
    ensures CelsiusToModis(TModisToCelsius(Some(t)).value) == t
  {
  }

  /** The conversion is strictly increasing, so it keeps the order of percentiles. */
  lemma CelsiusStrictlyIncreasing(a: real, b: real)
    requires a < b
    ensures TModisToCelsius(Some(a)).value < TModisToCelsius(Some(b)).value
  {
  }

  lemma CelsiusExample()
    ensures TModisToCelsius(Some(15000.0)) == Some(26.85)
  {
  }

  // ---------------------------------------------------------------------
  // Land cover

  /** The MODIS LC_Type1 classes are numbered 1 to 17. */
  const LandCoverClasses: nat := 17

  /** `f"land_cover_{k:02d}"`. */
  function LandCoverKey(k: nat): string {
    "land_cover_" + ZeroPad2(k)
  }

  /** Distinct classes get distinct column names. */
  lemma LandCoverKeyInjective(a: nat, b: nat)
    requires LandCoverKey(a) == LandCoverKey(b)
    ensures a == b
  {
    var p := "land_cover_";
    assert ZeroPad2(a) == LandCoverKey(a)[|p|..];
    assert ZeroPad2(b) == LandCoverKey(b)[|p|..];
    ZeroPad2Value(a);
    ZeroPad2Value(b);
  }

  /** The 17 column names in class order. */
  function LandCoverKeys(): seq<string>
  {
    seq(LandCoverClasses, i requires 0 <= i < LandCoverClasses => LandCoverKey(i + 1))
  }

  /** The histogram's value for class `k` (keyed by `str(k)`), or 0 when absent. */
  function ClassCount(histogram: map<string, nat>, k: nat): nat {
    var hk := NatToDecimal(k);
    if hk in histogram then histogram[hk] else 0
  }

  /** `{f"land_cover_{k:02d}": land_cover.get(str(k), 0) for k in range(1, 18)}`. */
  function NormaliseLandCover(histogram: map<string, nat>): (r: map<string, nat>)
    ensures forall k :: 1 <= k <= LandCoverClasses ==>
      LandCoverKey(k) in r && r[LandCoverKey(k)] == ClassCount(histogram, k)
    ensures forall name :: name in r ==> exists k :: 1 <= k <= LandCoverClasses && name == LandCoverKey(k)
  {
    assert forall a, b :: 1 <= a <= LandCoverClasses && 1 <= b <= LandCoverClasses && LandCoverKey(a) == LandCoverKey(b) ==> a == b by {
      forall a, b | 1 <= a <= LandCoverClasses && 1 <= b <= LandCoverClasses && LandCoverKey(a) == LandCoverKey(b)
        ensures a == b
      {
        LandCoverKeyInjective(a, b);
      }
    }
    map k | 1 <= k <= LandCoverClasses :: LandCoverKey(k) := ClassCount(histogram, k)
  }

  /** The normalised land cover has exactly the 17 keys `land_cover_01` ... `land_cover_17`. */
  lemma NormalisedKeys(histogram: map<string, nat>)
    ensures NormaliseLandCover(histogram).Keys == set name | name in LandCoverKeys()
    ensures |NormaliseLandCover(histogram)| == LandCoverClasses
  {
    var r := NormaliseLandCover(histogram);
    var ks := LandCoverKeys();
    NormalisedKeysAre(histogram);
    assert r.Keys == set name | name in ks;
    LandCoverKeysDistinct();
    NoDuplicatesSetSize(ks);
  }

  lemma NormalisedKeysAre(histogram: map<string, nat>)
    ensures forall name :: name in NormaliseLandCover(histogram) <==> name in LandCoverKeys()
  {
    KeysAreClassKeys(NormaliseLandCover(histogram));
  }

  lemma KeysAreClassKeys(r: map<string, nat>)
    requires forall k :: 1 <= k <= LandCoverClasses ==> LandCoverKey(k) in r
    requires forall name :: name in r ==> exists k :: 1 <= k <= LandCoverClasses && name == LandCoverKey(k)
    ensures forall name :: name in r <==> name in LandCoverKeys()
  {
    var ks := LandCoverKeys();
    forall name | name in r ensures name in ks {
      var k :| 1 <= k <= LandCoverClasses && name == LandCoverKey(k);
      assert ks[k - 1] == name;
    }
    forall name | name in ks ensures name in r {
      var i :| 0 <= i < |ks| && ks[i] == name;
      assert name == LandCoverKey(i + 1);
    }
  }

  lemma LandCoverKeysDistinct()
    ensures NoDuplicates(LandCoverKeys())
  {
    var ks := LandCoverKeys();
    forall i, j | 0 <= i < j < |ks| ensures ks[i] != ks[j] {
      LandCoverKeysDiffer(i + 1, j + 1);
    }
  }

  /** `range(1, 18)` spells 17 distinct names, the i-th `land_cover_`
      followed by at least two digits that read back as class i + 1. */
  lemma LandCoverKeysSpellClasses()
    ensures |LandCoverKeys()| == 17 && NoDuplicates(LandCoverKeys())
    ensures forall i :: 0 <= i < 17 ==>
      var name := LandCoverKeys()[i];
      |name| >= 13 && name[..11] == "land_cover_" && AllDigits(name[11..]) && DecimalValue(name[11..]) == i + 1
  {
    LandCoverKeysDistinct();
    var ks := LandCoverKeys();
    forall i | 0 <= i < 17
      ensures |ks[i]| >= 13 && ks[i][..11] == "land_cover_" && AllDigits(ks[i][11..]) && DecimalValue(ks[i][11..]) == i + 1
    {
      ZeroPad2Value(i + 1);
      assert ks[i][11..] == ZeroPad2(i + 1);
    }
  }

  lemma LandCoverKeysDiffer(a: nat, b: nat)
    requires a != b
    ensures LandCoverKey(a) != LandCoverKey(b)
  {
    if LandCoverKey(a) == LandCoverKey(b) {
      LandCoverKeyInjective(a, b);
    }
  }

  /** Only the entries keyed `"1"` ... `"17"` matter: two histograms agree there
      exactly when their normalised land covers are equal. */
  lemma NormaliseIgnoresOtherKeys(h1: map<string, nat>, h2: map<string, nat>)
    ensures NormaliseLandCover(h1) == NormaliseLandCover(h2)
      <==> forall k :: 1 <= k <= LandCoverClasses ==> ClassCount(h1, k) == ClassCount(h2, k)
  {
    var r1, r2 := NormaliseLandCover(h1), NormaliseLandCover(h2);
    if forall k :: 1 <= k <= LandCoverClasses ==> ClassCount(h1, k) == ClassCount(h2, k) {
      forall name | name in r1 ensures name in r2 && r1[name] == r2[name] {
        var k :| 1 <= k <= LandCoverClasses && name == LandCoverKey(k);
      }
      forall name | name in r2 ensures name in r1 {
        var k :| 1 <= k <= LandCoverClasses && name == LandCoverKey(k);
      }
    }
  }

  /** The sampled pixels' class histogram (what `aggregate_histogram` returns),
      keyed by the class written in decimal. */
  ghost function HistogramOf(pixels: seq<nat>): map<string, nat> {
    if pixels == [] then map[]
    else
      var h, c := HistogramOf(pixels[..|pixels| - 1]), pixels[|pixels| - 1];
      h[NatToDecimal(c) := ClassCount(h, c) + 1]
  }

  /** The histogram's entry for class `k` counts the pixels of that class. */
  lemma {:induction false} HistogramCount(pixels: seq<nat>, k: nat)
    ensures ClassCount(HistogramOf(pixels), k) == multiset(pixels)[k]
  {
    if pixels != [] {
      var init, c := pixels[..|pixels| - 1], pixels[|pixels| - 1];
      assert pixels == init + [c];
      HistogramCount(init, k);
      if NatToDecimal(c) == NatToDecimal(k) {
        NatToDecimalInjective(c, k);
      }
    }
  }

  /** Sum of the land-cover values for classes 1 .. n. */
  function LandCoverSum(landCover: map<string, nat>, n: nat): nat {
    if n == 0 then 0
    else LandCoverSum(landCover, n - 1) + (if LandCoverKey(n) in landCover then landCover[LandCoverKey(n)] else 0)
  }

  function PixelsUpTo(pixels: seq<nat>, n: nat): nat {
    if n == 0 then 0 else PixelsUpTo(pixels, n - 1) + multiset(pixels)[n]
  }

  lemma {:induction false} PixelsUpToAll(pixels: seq<nat>, n: nat)
    requires forall i :: 0 <= i < |pixels| ==> 1 <= pixels[i] <= n
    ensures PixelsUpTo(pixels, n) == |pixels|
  {
    if pixels == [] {
      PixelsUpToEmpty(n);
    } else {
      var init, c := pixels[..|pixels| - 1], pixels[|pixels| - 1];
      assert pixels == init + [c];
      assert forall i :: 0 <= i < |init| ==> init[i] == pixels[i];
      PixelsUpToAll(init, n);
      PixelsUpToSnoc(init, c, n);
    }
  }

  lemma {:induction false} PixelsUpToEmpty(n: nat)
    ensures PixelsUpTo([], n) == 0
  {
    if n > 0 {
      PixelsUpToEmpty(n - 1);
    }
  }

  lemma {:induction false} PixelsUpToSnoc(pixels: seq<nat>, c: nat, n: nat)
    requires 1 <= c
    ensures PixelsUpTo(pixels + [c], n) == PixelsUpTo(pixels, n) + (if c <= n then 1 else 0)
  {
    if n > 0 {
      PixelsUpToSnoc(pixels, c, n - 1);
      assert multiset(pixels + [c]) == multiset(pixels) + multiset{c};
    }
  }

  /** Sum of the histogram's counts for classes 1 .. n. */
  function ClassTotal(histogram: map<string, nat>, n: nat): nat {
    if n == 0 then 0 else ClassTotal(histogram, n - 1) + ClassCount(histogram, n)
  }

  lemma LandCoverSumIsClassTotal(histogram: map<string, nat>, n: nat)
    requires n <= LandCoverClasses
    ensures LandCoverSum(NormaliseLandCover(histogram), n) == ClassTotal(histogram, n)
  {
    LandCoverSumOfCounts(NormaliseLandCover(histogram), histogram, n);
  }

  lemma {:induction false} LandCoverSumOfCounts(r: map<string, nat>, histogram: map<string, nat>, n: nat)
    requires forall k :: 1 <= k <= n ==> LandCoverKey(k) in r && r[LandCoverKey(k)] == ClassCount(histogram, k)
    ensures LandCoverSum(r, n) == ClassTotal(histogram, n)
  {
    if n > 0 {
      LandCoverSumOfCounts(r, histogram, n - 1);
      assert LandCoverKey(n) in r && r[LandCoverKey(n)] == ClassCount(histogram, n);
    }
  }

  lemma {:induction false} ClassTotalIsPixels(pixels: seq<nat>, n: nat)
    ensures ClassTotal(HistogramOf(pixels), n) == PixelsUpTo(pixels, n)
  {
    if n > 0 {
      ClassTotalIsPixels(pixels, n - 1);
      HistogramCount(pixels, n);
    }
  }

  /** No smoothing: when every sampled pixel has a class in 1..17, the 17
      land-cover values are raw counts that add up to the number of pixels. */
  lemma LandCoverCountsEveryPixel(pixels: seq<nat>)
    requires forall i :: 0 <= i < |pixels| ==> 1 <= pixels[i] <= LandCoverClasses
    ensures LandCoverSum(NormaliseLandCover(HistogramOf(pixels)), LandCoverClasses) == |pixels|
  {
    LandCoverSumIsClassTotal(HistogramOf(pixels), LandCoverClasses);
    ClassTotalIsPixels(pixels, LandCoverClasses);
    PixelsUpToAll(pixels, LandCoverClasses);
  }

  // ---------------------------------------------------------------------
  // Record assembly (get_stats)

  /** A record field: the cell key, or a statistic that may be missing. */
  datatype Value = Text(s: string) | Number(n: Option<real>)

  /** `dict(...)` refuses a keyword given twice (Python raises TypeError). */
  datatype RecordError = DuplicateKeyword

  function AsNumbers(m: map<string, Option<real>>): (r: map<string, Value>)
    ensures r.Keys == m.Keys
  {
    map k | k in m :: Number(m[k])
  }

  function AsCelsius(m: map<string, Option<real>>): (r: map<string, Value>)
    ensures r.Keys == m.Keys
  {
    map k | k in m :: Number(TModisToCelsius(m[k]))
  }

  function CountsAsNumbers(m: map<string, nat>): (r: map<string, Value>)
    ensures r.Keys == m.Keys
  {
    map k | k in m :: Number(Some(m[k] as real))
  }

  /** No key is given by two of the mappings. */
  ghost predicate PairwiseDisjoint(parts: seq<map<string, Value>>) {
    forall i, j :: 0 <= i < j < |parts| ==> parts[i].Keys !! parts[j].Keys
  }

  /** `dict(**parts[0], **parts[1], ...)`: the mappings' union, or TypeError
      when a key is given twice. */
  function DictCall(parts: seq<map<string, Value>>): Result<map<string, Value>, RecordError> {
    if parts == [] then Ok(map[])
    else
      match DictCall(parts[..|parts| - 1])
      case Err(e) => Err(e)
      case Ok(m) =>
        var last := parts[|parts| - 1];
        if m.Keys !! last.Keys then Ok(m + last) else Err(DuplicateKeyword)
  }

  /** Every key of every mapping is in the result, with that mapping's value. */
  lemma {:induction false} DictCallLookup(parts: seq<map<string, Value>>, i: nat, k: string)
    requires DictCall(parts).Ok?
    requires i < |parts| && k in parts[i]
    ensures k in DictCall(parts).value && DictCall(parts).value[k] == parts[i][k]
  {
    var init, last := parts[..|parts| - 1], parts[|parts| - 1];
    var m := DictCall(init).value;
    if i < |init| {
      assert init[i] == parts[i];
      DictCallLookup(init, i, k);
    }
  }

  /** Every key of the result comes from one of the mappings. */
  lemma {:induction false} DictCallKeys(parts: seq<map<string, Value>>, k: string)
    requires DictCall(parts).Ok?
    requires k in DictCall(parts).value
    ensures exists i :: 0 <= i < |parts| && k in parts[i]
  {
    var init, last := parts[..|parts| - 1], parts[|parts| - 1];
    var m := DictCall(init).value;
    if k in m {
      DictCallKeys(init, k);
      var i :| 0 <= i < |init| && k in init[i];
      assert parts[i] == init[i];
    } else {
      assert k in last;
    }
  }

  /** The call succeeds exactly when no key is given twice. */
  lemma {:induction false} DictCallRefuses(parts: seq<map<string, Value>>)
    ensures DictCall(parts).Ok? <==> PairwiseDisjoint(parts)
  {
    if parts != [] {
      var init, last := parts[..|parts| - 1], parts[|parts| - 1];
      DictCallRefuses(init);
      assert forall i :: 0 <= i < |init| ==> init[i] == parts[i];
      if DictCall(init).Ok? {
        var m := DictCall(init).value;
        if m.Keys !! last.Keys {
          forall i, j | 0 <= i < j < |parts| ensures parts[i].Keys !! parts[j].Keys {
            if j == |parts| - 1 {
              forall k | k in parts[i] ensures k !in last {
                DictCallLookup(init, i, k);
              }
            }
          }
        } else {
          var k :| k in m && k in last;
          DictCallKeys(init, k);
          var i :| 0 <= i < |init| && k in init[i];
          assert !(parts[i].Keys !! parts[|parts| - 1].Keys);
        }
      } else {
        var i, j :| 0 <= i < j < |init| && !(init[i].Keys !! init[j].Keys);
        assert !(parts[i].Keys !! parts[j].Keys);
      }
    }
  }

  /** The five mappings `get_stats` merges, in call order. */
  function RecordParts(key: string, population: map<string, Option<real>>, elevation: map<string, Option<real>>,
                       surfaceTemp: map<string, Option<real>>, landCover: map<string, nat>): seq<map<string, Value>>
  {
    [map["name" := Text(key)], AsNumbers(population), AsNumbers(elevation),
     AsCelsius(surfaceTemp), CountsAsNumbers(landCover)]
  }

  /** `dict(name=key, **population_density, **elevation,
      **{k: t_modis_to_celsius(v) ...}, **land_cover)`. */
  function AssembleRecord(key: string, population: map<string, Option<real>>, elevation: map<string, Option<real>>,
                          surfaceTemp: map<string, Option<real>>, landCover: map<string, nat>)
    : Result<map<string, Value>, RecordError>
  {
    DictCall(RecordParts(key, population, elevation, surfaceTemp, landCover))
  }

  /** An assembled record holds the key under `name`, population and elevation
      as given, every temperature converted to Celsius and the land-cover
      counts, and nothing else. */
  lemma AssembleRecordFields(key: string, population: map<string, Option<real>>, elevation: map<string, Option<real>>,
                             surfaceTemp: map<string, Option<real>>, landCover: map<string, nat>)
    requires AssembleRecord(key, population, elevation, surfaceTemp, landCover).Ok?
    ensures var r := AssembleRecord(key, population, elevation, surfaceTemp, landCover).value;
      && "name" in r && r["name"] == Text(key)
      && (forall k :: k in population ==> k in r && r[k] == Number(population[k]))
      && (forall k :: k in elevation ==> k in r && r[k] == Number(elevation[k]))
      && (forall k :: k in surfaceTemp ==> k in r && r[k] == Number(TModisToCelsius(surfaceTemp[k])))
      && (forall k :: k in landCover ==> k in r && r[k] == Number(Some(landCover[k] as real)))
      && (forall k :: k in r ==>
            k == "name" || k in population || k in elevation || k in surfaceTemp || k in landCover)
  {
    var parts := RecordParts(key, population, elevation, surfaceTemp, landCover);
    DictCallLookup(parts, 0, "name");
    forall k | k in population ensures k in DictCall(parts).value && DictCall(parts).value[k] == Number(population[k]) {
      DictCallLookup(parts, 1, k);
    }
    forall k | k in elevation ensures k in DictCall(parts).value && DictCall(parts).value[k] == Number(elevation[k]) {
      DictCallLookup(parts, 2, k);
    }
    forall k | k in surfaceTemp
      ensures k in DictCall(parts).value && DictCall(parts).value[k] == Number(TModisToCelsius(surfaceTemp[k]))
    {
      DictCallLookup(parts, 3, k);
    }
    forall k | k in landCover
      ensures k in DictCall(parts).value && DictCall(parts).value[k] == Number(Some(landCover[k] as real))
    {
      DictCallLookup(parts, 4, k);
    }
    forall k | k in DictCall(parts).value
      ensures k == "name" || k in population || k in elevation || k in surfaceTemp || k in landCover
    {
      DictCallKeys(parts, k);
    }
  }

  /** The record is refused exactly when two statistics share a name or one is
      called `name`. */
  lemma AssembleRecordRefuses(key: string, population: map<string, Option<real>>, elevation: map<string, Option<real>>,
                              surfaceTemp: map<string, Option<real>>, landCover: map<string, nat>)
    ensures AssembleRecord(key, population, elevation, surfaceTemp, landCover).Err? <==>
      || "name" in population || "name" in elevation || "name" in surfaceTemp || "name" in landCover
      || !(population.Keys !! elevation.Keys) || !(population.Keys !! surfaceTemp.Keys)
      || !(population.Keys !! landCover.Keys) || !(elevation.Keys !! surfaceTemp.Keys)
      || !(elevation.Keys !! landCover.Keys) || !(surfaceTemp.Keys !! landCover.Keys)
  {
    var parts := RecordParts(key, population, elevation, surfaceTemp, landCover);
    DictCallRefuses(parts);
    assert parts[0].Keys == {"name"};
    assert parts[1].Keys == population.Keys && parts[2].Keys == elevation.Keys;
    assert parts[3].Keys == surfaceTemp.Keys && parts[4].Keys == landCover.Keys;
    PairwiseDisjointFive(parts);
  }

  lemma PairwiseDisjointFive(parts: seq<map<string, Value>>)
    requires |parts| == 5
    ensures PairwiseDisjoint(parts) <==>
      && parts[0].Keys !! parts[1].Keys && parts[0].Keys !! parts[2].Keys && parts[0].Keys !! parts[3].Keys
      && parts[0].Keys !! parts[4].Keys && parts[1].Keys !! parts[2].Keys && parts[1].Keys !! parts[3].Keys
      && parts[1].Keys !! parts[4].Keys && parts[2].Keys !! parts[3].Keys && parts[2].Keys !! parts[4].Keys
      && parts[3].Keys !! parts[4].Keys
  {
  }

  /** The record of one cell: the land cover normalised, every surface
      temperature converted, and the cell's key under `name`. */
  function CellStats(key: string, population: map<string, Option<real>>, elevation: map<string, Option<real>>,
                     surfaceTemp: map<string, Option<real>>, histogram: map<string, nat>)
    : Result<map<string, Value>, RecordError>
  {
    AssembleRecord(key, population, elevation, surfaceTemp, NormaliseLandCover(histogram))
  }

  /** A cell's record carries the 17 land-cover columns, each the histogram
      count for its class. */
  lemma CellStatsLandCover(key: string, population: map<string, Option<real>>, elevation: map<string, Option<real>>,
                           surfaceTemp: map<string, Option<real>>, histogram: map<string, nat>, k: nat)
    requires CellStats(key, population, elevation, surfaceTemp, histogram).Ok?
    requires 1 <= k <= LandCoverClasses
    ensures var r := CellStats(key, population, elevation, surfaceTemp, histogram).value;
      LandCoverKey(k) in r && r[LandCoverKey(k)] == Number(Some(ClassCount(histogram, k) as real))
  {
  }
}
