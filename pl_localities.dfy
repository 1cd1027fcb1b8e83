/**
 * `load_localities`, the import of the localities of the states, territories
 * and counties: the UTM projection chosen for each, the merge of the 2010 and
 * 2020 county lists, and the paths and aliases of a county (with the
 * overrides that tell independent cities from counties of the same name).
 * Shapefile downloads, centroids and the latitude/longitude to UTM zone
 * conversion are not modelled: a county's zone is an input.
 */
module PlLocalities {
  import opened Wrappers
  import opened Strings
  import EtlCommon
  import PyDicts

  /** What `load_localities` can raise. */
  datatype LocalityError =
    | ZoneNotCovered(zone: int)
    | NoZones
    | UnknownState(statefp: string)

  // ---------------------------------------------------------------------------
  // Projections

  /** `utm_zone_proj`: the EPSG identifier of a UTM projection for a zone the Census covers. */
  function UtmZoneProj(zone: int): (r: Result<string, LocalityError>)
    ensures r.Success? <==> 2 <= zone <= 20 || zone == 55
    ensures r.Failure? ==> r.error == ZoneNotCovered(zone)
    ensures r.Success? ==> StartsWith(r.value, "epsg:")
  {
    if 3 <= zone <= 20 then Success("epsg:269" + ZFill(DecimalString(zone), 2))
    else if zone == 2 then Success("epsg:6636")
    else if zone == 55 then Success("epsg:8693")
    else Failure(ZoneNotCovered(zone))
  }

  /** The two digits `zfill(2)` gives a zone from 3 to 20. */
  lemma TwoDigits(zone: int)
    requires 3 <= zone <= 20
    ensures ZFill(DecimalString(zone), 2) == [Digit(zone / 10), Digit(zone % 10)]
  {
    if zone < 10 {
      assert ZFill(DecimalString(zone), 2) == "0" + [Digit(zone)];
    }
  }

  lemma DecimalStep(n: nat)
    requires n >= 10
    ensures DecimalString(n) == DecimalString(n / 10) + [Digit(n % 10)]
  {
  }

  /** Zones 3 to 20 get the NAD83 projections EPSG:26903 to EPSG:26920. */
  lemma UtmZoneProjIsNad83(zone: int)
    requires 3 <= zone <= 20
    ensures UtmZoneProj(zone) == Success("epsg:" + DecimalString(26900 + zone))
  {
    ProjDigits(zone);
    Nad83Digits(zone);
  }

  lemma Nad83Digits(zone: int)
    requires 3 <= zone <= 20
    ensures "epsg:" + DecimalString(26900 + zone) == "epsg:269" + [Digit(zone / 10), Digit(zone % 10)]
  {
    var x := [Digit(zone / 10), Digit(zone % 10)];
    Nad83Decimal(zone);
    assert "epsg:" + ("269" + x) == "epsg:269" + x;
  }

  lemma Nad83Decimal(zone: int)
    requires 3 <= zone <= 20
    ensures DecimalString(26900 + zone) == "269" + [Digit(zone / 10), Digit(zone % 10)]
  {
    var t := zone / 10;
    var u := zone % 10;
    assert zone == 10 * t + u;
    DecimalStep(26900 + zone);
    assert (26900 + zone) / 10 == 2690 + t && (26900 + zone) % 10 == u;
    DecimalStep(2690 + t);
    assert (2690 + t) / 10 == 269 && (2690 + t) % 10 == t;
    Decimal269();
  }

  lemma Decimal269()
    ensures DecimalString(269) == "269"
  {
    DecimalStep(269);
  }

  lemma ProjDigits(zone: int)
    requires 3 <= zone <= 20
    ensures UtmZoneProj(zone) == Success("epsg:269" + [Digit(zone / 10), Digit(zone % 10)])
  {
    TwoDigits(zone);
  }

  /** The zone read back from the two digits of a NAD83 projection. */
  function ZoneOfNad83(proj: string): int
    requires |proj| == 10
  {
    (proj[8] as int - '0' as int) * 10 + (proj[9] as int - '0' as int)
  }

  /** A NAD83 projection names its zone. */
  lemma ZoneOfNad83Proj(zone: int)
    requires 3 <= zone <= 20
    ensures |UtmZoneProj(zone).value| == 10 && ZoneOfNad83(UtmZoneProj(zone).value) == zone
  {
    ProjDigits(zone);
    ZoneOfDigits(zone, UtmZoneProj(zone).value);
  }

  lemma ZoneOfDigits(zone: int, proj: string)
    requires 3 <= zone <= 20 && proj == "epsg:269" + [Digit(zone / 10), Digit(zone % 10)]
    ensures |proj| == 10 && ZoneOfNad83(proj) == zone
  {
    DigitValue(zone / 10);
    DigitValue(zone % 10);
  }

  lemma DigitValue(d: nat)
    requires d < 10
    ensures Digit(d) as int - '0' as int == d
  {
  }

  /** Different zones get different projections. */
  lemma UtmZoneProjInjective(a: int, b: int)
    requires UtmZoneProj(a).Success? && UtmZoneProj(b).Success? && a != b
    ensures UtmZoneProj(a).value != UtmZoneProj(b).value
  {
    var pa := UtmZoneProj(a).value;
    var pb := UtmZoneProj(b).value;
    if 3 <= a <= 20 && 3 <= b <= 20 {
      ZoneOfNad83Proj(a);
      ZoneOfNad83Proj(b);
    } else if 3 <= a <= 20 {
      ProjDigits(a);
      assert |pa| == 10 && |pb| == 9;
    } else if 3 <= b <= 20 {
      ProjDigits(b);
      assert |pa| == 9 && |pb| == 10;
    } else {
      assert pa[5] != pb[5];
    }
  }

  // ---------------------------------------------------------------------------
  // The modal zone

  /** How often `z` occurs among the zones. */
  function Count(zones: seq<int>, z: int): (c: nat)
    ensures c <= |zones|
    decreases |zones|
  {
    if |zones| == 0 then 0
    else Count(zones[..|zones| - 1], z) + (if zones[|zones| - 1] == z then 1 else 0)
  }

  /** The position of the first occurrence of `z`. */
  function FirstIndex(zones: seq<int>, z: int): (i: nat)
    requires z in zones
    ensures i < |zones| && zones[i] == z && forall j :: 0 <= j < i ==> zones[j] != z
    decreases |zones|
  {
    if zones[0] == z then 0 else 1 + FirstIndex(zones[1..], z)
  }

  /**
   * `Counter(...).most_common(1)[0][0]`: scanning in order, a zone replaces
   * the best one only with a strictly larger count, so among equally
   * frequent zones the first seen wins; no zones at all raise.
   */
  function ModalZone(zones: seq<int>): Result<int, LocalityError> {
    if |zones| == 0 then Failure(NoZones) else Success(BestFrom(zones, 1, zones[0]))
  }

  function BestFrom(zones: seq<int>, i: nat, best: int): int
    decreases |zones| - i
  {
    if i >= |zones| then best
    else BestFrom(zones, i + 1, if Count(zones, zones[i]) > Count(zones, best) then zones[i] else best)
  }

  /** What the scan keeps after the first `i` zones: the first of the most frequent among them. */
  ghost predicate BestSoFar(zones: seq<int>, i: nat, best: int)
    requires i <= |zones|
  {
    best in zones[..i]
    && (forall j :: 0 <= j < i ==> Count(zones, zones[j]) <= Count(zones, best))
    && (forall j :: 0 <= j < FirstIndex(zones, best) ==> Count(zones, zones[j]) < Count(zones, best))
  }

  lemma {:induction false} BestFromKeeps(zones: seq<int>, i: nat, best: int)
    requires 0 < i <= |zones| && BestSoFar(zones, i, best)
    ensures BestSoFar(zones, |zones|, BestFrom(zones, i, best))
    decreases |zones| - i
  {
    if i < |zones| {
      var next := if Count(zones, zones[i]) > Count(zones, best) then zones[i] else best;
      assert zones[..i + 1] == zones[..i] + [zones[i]];
      assert best in zones;
      assert BestSoFar(zones, i + 1, next);
      BestFromKeeps(zones, i + 1, next);
    }
  }

  /**
   * The modal zone occurs among the zones, no zone occurs more often, and
   * every zone first seen before it occurs strictly less often.
   */
  lemma ModalZoneIsMode(zones: seq<int>)
    ensures ModalZone(zones).Failure? <==> |zones| == 0
    ensures ModalZone(zones).Success? ==>
      var m := ModalZone(zones).value;
      m in zones
      && (forall j :: 0 <= j < |zones| ==> Count(zones, zones[j]) <= Count(zones, m))
      && (forall j :: 0 <= j < FirstIndex(zones, m) ==> Count(zones, zones[j]) < Count(zones, m))
  {
    if |zones| > 0 {
      BestSoFarStart(zones);
      BestFromKeeps(zones, 1, zones[0]);
      assert zones[..|zones|] == zones;
    }
  }

  lemma BestSoFarStart(zones: seq<int>)
    requires |zones| > 0
    ensures BestSoFar(zones, 1, zones[0])
  {
    assert zones[..1] == [zones[0]];
    assert FirstIndex(zones, zones[0]) == 0;
  }

  /** `identify_utm_zone` over the zones of a state's county centroids. */
  method IdentifyUtmZone(zones: seq<int>) returns (r: Result<int, LocalityError>)
    ensures r == ModalZone(zones)
  {
    if |zones| == 0 {
      return Failure(NoZones);
    }
    var best := zones[0];
    var bestCount := Count(zones, best);
    var i := 1;
    while i < |zones|
      invariant 1 <= i <= |zones|
      invariant bestCount == Count(zones, best)
      invariant BestFrom(zones, i, best) == BestFrom(zones, 1, zones[0])
    {
      var c := Count(zones, zones[i]);
      if c > bestCount {
        best, bestCount := zones[i], c;
      }
      i := i + 1;
    }
    return Success(best);
  }

  // ---------------------------------------------------------------------------
  // The county lists

  /** The 2010 shapefile's column names lose their `10` suffix. */
  function Rename2010Column(col: string): (r: string)
    ensures EndsWith(col, "10") ==> r + "10" == col
    ensures !EndsWith(col, "10") ==> r == col
  {
    if EndsWith(col, "10") then col[..|col| - 2] else col
  }

  /** The 2010 columns the script reads come out under their 2020 names. */
  lemma Renamed2010Columns()
    ensures Rename2010Column("GEOID10") == "GEOID" && Rename2010Column("STATEFP10") == "STATEFP"
    ensures Rename2010Column("NAME10") == "NAME" && Rename2010Column("NAMELSAD10") == "NAMELSAD"
    ensures Rename2010Column("geometry") == "geometry"
  {
    assert EndsWith("GEOID10", "10") && EndsWith("STATEFP10", "10");
    assert EndsWith("NAME10", "10") && EndsWith("NAMELSAD10", "10");
  }

  /** A county of a shapefile, with the UTM zone of its centroid. */
  datatype CountyRow = CountyRow(geoid: string, statefp: string, name: string, namelsad: string, zone: int)

  function Geoids(rows: seq<CountyRow>): set<string> {
    set i | 0 <= i < |rows| :: rows[i].geoid
  }

  /** The 2010 counties whose GEOID the 2020 list lacks, in their order. */
  function LegacyRows(rows2010: seq<CountyRow>, geoids2020: set<string>): (r: seq<CountyRow>)
    ensures forall x :: x in r <==> x in rows2010 && x.geoid !in geoids2020
    decreases |rows2010|
  {
    if |rows2010| == 0 then []
    else
      var n := |rows2010| - 1;
      assert rows2010 == rows2010[..n] + [rows2010[n]];
      var before := LegacyRows(rows2010[..n], geoids2020);
      if rows2010[n].geoid !in geoids2020 then before + [rows2010[n]] else before
  }

  /** The 2020 counties followed by the legacy counties of 2010. */
  function CombinedCounties(rows2020: seq<CountyRow>, rows2010: seq<CountyRow>): seq<CountyRow> {
    rows2020 + LegacyRows(rows2010, Geoids(rows2020))
  }

  /**
   * The combined list keeps every 2020 county first, adds exactly the
   * counties of 2010 whose GEOID left the list, and so covers the GEOIDs of
   * both years.
   */
  lemma CombinedCountiesCover(rows2020: seq<CountyRow>, rows2010: seq<CountyRow>)
    ensures var c := CombinedCounties(rows2020, rows2010);
      c[..|rows2020|] == rows2020
      && Geoids(c) == Geoids(rows2020) + Geoids(rows2010)
      && Geoids(c[|rows2020|..]) == Geoids(rows2010) - Geoids(rows2020)
  {
    var c := CombinedCounties(rows2020, rows2010);
    var legacy := LegacyRows(rows2010, Geoids(rows2020));
    assert c[|rows2020|..] == legacy;
    forall g ensures g in Geoids(legacy) <==> g in Geoids(rows2010) - Geoids(rows2020) {
      if g in Geoids(legacy) {
        var i :| 0 <= i < |legacy| && legacy[i].geoid == g;
        assert legacy[i] in legacy;
        var k :| 0 <= k < |rows2010| && rows2010[k] == legacy[i];
      }
      if g in Geoids(rows2010) - Geoids(rows2020) {
        var k :| 0 <= k < |rows2010| && rows2010[k].geoid == g;
        assert rows2010[k] in rows2010;
        var i :| 0 <= i < |legacy| && legacy[i] == rows2010[k];
      }
    }
    forall g ensures g in Geoids(c) <==> g in Geoids(rows2020) + Geoids(legacy) {
      if g in Geoids(c) {
        var i :| 0 <= i < |c| && c[i].geoid == g;
        if i >= |rows2020| {
          assert legacy[i - |rows2020|].geoid == g;
        }
      }
      if g in Geoids(legacy) {
        var i :| 0 <= i < |legacy| && legacy[i].geoid == g;
        assert c[|rows2020| + i].geoid == g;
      }
      if g in Geoids(rows2020) {
        var i :| 0 <= i < |rows2020| && rows2020[i].geoid == g;
        assert c[i].geoid == g;
      }
    }
  }

  // ---------------------------------------------------------------------------
  // Localities

  /** A state or territory of the `us` package. */
  datatype StateInfo = StateInfo(fips: string, name: string, abbr: string)

  /** `LocalityCreate` */
  datatype LocalityCreate = LocalityCreate(canonicalPath: string, parentPath: Option<string>, name: string,
                                           aliases: seq<string>, defaultProj: Option<string>)

  /** The zones of the counties of a state. */
  function StateZones(counties: seq<CountyRow>, fips: string): (r: seq<int>)
    ensures forall z :: z in r <==> exists i :: 0 <= i < |counties| && counties[i].statefp == fips && counties[i].zone == z
    decreases |counties|
  {
    if |counties| == 0 then []
    else
      var n := |counties| - 1;
      assert forall i :: 0 <= i < n ==> counties[..n][i] == counties[i];
      StateZones(counties[..n], fips) + (if counties[n].statefp == fips then [counties[n].zone] else [])
  }

  /** A state's locality: under `us`, aliased by its FIPS code and lowercased abbreviation, projected on its modal zone. */
  function StateLocality(state: StateInfo, counties: seq<CountyRow>): Result<LocalityCreate, LocalityError> {
    var zone :- ModalZone(StateZones(counties, state.fips));
    var proj :- UtmZoneProj(zone);
    Success(StateCreate(state, proj))
  }

  function StateCreate(state: StateInfo, proj: string): LocalityCreate {
    LocalityCreate(EtlCommon.Pathify(state.name), Some("us"), state.name, [state.fips, Lower(state.abbr)], Some(proj))
  }

  /**
   * The results of a loop that stops at the first error: every value when
   * all succeed, otherwise the first error.
   */
  function Sequence<T>(results: seq<Result<T, LocalityError>>): (r: Result<seq<T>, LocalityError>)
    ensures r.Success? ==> |r.value| == |results| && forall i :: 0 <= i < |results| ==> results[i] == Success(r.value[i])
    ensures r.Failure? <==> exists i :: 0 <= i < |results| && results[i].Failure?
    ensures r.Failure? ==> exists i :: (0 <= i < |results| && results[i] == Failure(r.error)
      && forall j :: 0 <= j < i ==> results[j].Success?)
    decreases |results|
  {
    if |results| == 0 then Success([])
    else
      var n := |results| - 1;
      assert forall i :: 0 <= i < n ==> results[..n][i] == results[i];
      var before :- Sequence(results[..n]);
      var last :- results[n];
      Success(before + [last])
  }

  lemma {:induction false} SequenceFailurePersists<T>(results: seq<Result<T, LocalityError>>, k: nat)
    requires k <= |results| && Sequence(results[..k]).Failure?
    ensures Sequence(results) == Sequence(results[..k])
    decreases |results| - k
  {
    if k < |results| {
      assert results[..k + 1][..k] == results[..k];
      SequenceFailurePersists(results, k + 1);
    } else {
      assert results[..k] == results;
    }
  }

  lemma SequenceStep<T>(results: seq<Result<T, LocalityError>>, i: nat)
    requires i < |results| && Sequence(results[..i]).Success?
    ensures Sequence(results[..i + 1]) == if results[i].Success?
      then Success(Sequence(results[..i]).value + [results[i].value]) else Failure(results[i].error)
  {
    assert results[..i + 1][..i] == results[..i];
  }

  /** `state_like_locs`: the states in order, stopping at the first error. */
  function StateLocalities(states: seq<StateInfo>, counties: seq<CountyRow>): (r: Result<seq<LocalityCreate>, LocalityError>)
    ensures r.Success? ==> |r.value| == |states| && forall i :: 0 <= i < |states| ==>
      StateLocality(states[i], counties) == Success(r.value[i])
    ensures r.Failure? ==> exists i :: (0 <= i < |states| && StateLocality(states[i], counties) == Failure(r.error)
      && forall j :: 0 <= j < i ==> StateLocality(states[j], counties).Success?)
  {
    Sequence(StateResults(states, counties))
  }

  function StateResults(states: seq<StateInfo>, counties: seq<CountyRow>): (r: seq<Result<LocalityCreate, LocalityError>>)
    ensures |r| == |states| && forall i :: 0 <= i < |states| ==> r[i] == StateLocality(states[i], counties)
  {
    seq(|states|, i requires 0 <= i < |states| => StateLocality(states[i], counties))
  }

  /** The loop building `state_like_locs`. */
  method BuildStateLocalities(states: seq<StateInfo>, counties: seq<CountyRow>)
    returns (r: Result<seq<LocalityCreate>, LocalityError>)
    ensures r == StateLocalities(states, counties)
  {
    ghost var results := StateResults(states, counties);
    var locs: seq<LocalityCreate> := [];
    var i := 0;
    while i < |states|
      invariant 0 <= i <= |states|
      invariant Sequence(results[..i]) == Success(locs)
    {
      SequenceStep(results, i);
      var zone := IdentifyUtmZone(StateZones(counties, states[i].fips));
      if zone.Failure? {
        SequenceFailurePersists(results, i + 1);
        return Failure(zone.error);
      }
      var proj := UtmZoneProj(zone.value);
      if proj.Failure? {
        SequenceFailurePersists(results, i + 1);
        return Failure(proj.error);
      }
      locs := locs + [StateCreate(states[i], proj.value)];
      i := i + 1;
    }
    assert results[..i] == results;
    return Success(locs);
  }

  /**
   * A state's locality hangs under `us` with a space-free path, is aliased by
   * its FIPS code first, and is projected on the modal zone of its counties;
   * a state without counties raises.
   */
  lemma StateLocalityShape(state: StateInfo, counties: seq<CountyRow>)
    ensures StateZones(counties, state.fips) == [] ==> StateLocality(state, counties) == Failure(NoZones)
    ensures StateLocality(state, counties).Success? ==>
      var loc := StateLocality(state, counties).value;
      loc.parentPath == Some("us") && ' ' !in loc.canonicalPath && loc.aliases[0] == state.fips
      && loc.defaultProj == Some(UtmZoneProj(ModalZone(StateZones(counties, state.fips)).value).value)
  {
    var zones := StateZones(counties, state.fips);
    if zones == [] {
      assert ModalZone(zones) == Failure(NoZones);
    } else if StateLocality(state, counties).Success? {
      var proj := UtmZoneProj(ModalZone(zones).value).value;
      assert StateLocality(state, counties) == Success(StateCreate(state, proj));
      EtlCommon.PathifyHasNoSpace(state.name);
    }
  }

  /** `CANONICAL_PATH_OVERRIDES` */
  const CanonicalPathOverrides: map<string, string> := map[
    "24005" := "maryland/baltimore-county",
    "24510" := "maryland/city-of-baltimore",
    "29189" := "missouri/st-louis-county",
    "29510" := "missouri/city-of-st-louis",
    "51059" := "virginia/fairfax-county",
    "51600" := "virginia/city-of-fairfax",
    "51067" := "virginia/franklin-county",
    "51620" := "virginia/city-of-franklin",
    "51161" := "virginia/roanoke-county",
    "51770" := "virginia/city-of-roanoke",
    "51159" := "virginia/richmond-county",
    "51760" := "virginia/city-of-richmond",
    "51019" := "virginia/bedford-county",
    "51515" := "virginia/city-of-bedford"
  ]

  /** `ALIAS_OVERRIDES` */
  const AliasOverrides: map<string, seq<string>> := map[
    "24005" := ["md/baltimore-county"],
    "24510" := ["md/city-of-baltimore", "maryland/baltimore-city", "md/baltimore-city"],
    "29189" := ["mo/st-louis-county"],
    "29510" := ["mo/city-of-st-louis", "missouri/st-louis-city", "mo/st-louis-city"],
    "51059" := ["va/fairfax-county"],
    "51600" := ["va/city-of-fairfax", "virginia/fairfax-city", "va/fairfax-city"],
    "51067" := ["va/franklin-county"],
    "51620" := ["va/city-of-franklin", "virginia/franklin-city", "va/franklin-city"],
    "51161" := ["va/roanoke-county"],
    "51770" := ["va/city-of-roanoke", "virginia/roanoke-city", "va/roanoke-city"],
    "51159" := ["va/richmond-county"],
    "51760" := ["va/city-of-richmond", "virginia/richmond-city", "va/richmond-city"],
    "51019" := ["va/bedford-county"],
    "51515" := ["va/city-of-bedford", "virginia/bedford-city", "va/bedford-city"]
  ]

  /** The override tables of the county loop. */
  datatype Overrides = Overrides(paths: map<string, string>, aliases: map<string, seq<string>>)

  const CountyOverrides := Overrides(CanonicalPathOverrides, AliasOverrides)

  /** Every overridden county has both a path and aliases. */
  lemma OverridesSameKeys()
    ensures CanonicalPathOverrides.Keys == AliasOverrides.Keys
  {
  }

  /** `CANONICAL_PATH_OVERRIDES.get(GEOID, "<state>/<county>")` */
  function CountyPath(ov: Overrides, geoid: string, stateName: string, name: string): string {
    if geoid in ov.paths then ov.paths[geoid]
    else EtlCommon.Pathify(stateName) + "/" + EtlCommon.Pathify(name)
  }

  /** `ALIAS_OVERRIDES.get(GEOID, ["<abbr>/<county>"]) + [GEOID]` */
  function CountyAliases(ov: Overrides, geoid: string, stateAbbr: string, name: string): seq<string> {
    (if geoid in ov.aliases then ov.aliases[geoid]
     else [EtlCommon.Pathify(stateAbbr) + "/" + EtlCommon.Pathify(name)]) + [geoid]
  }

  /**
   * A county's path is its override, or the state's path and the county's
   * own, each without spaces.
   */
  lemma CountyPathShape(ov: Overrides, geoid: string, stateName: string, name: string)
    ensures geoid !in ov.paths ==>
      StartsWith(CountyPath(ov, geoid, stateName, name), EtlCommon.Pathify(stateName) + "/")
      && ' ' !in CountyPath(ov, geoid, stateName, name)
    ensures geoid in ov.paths ==> CountyPath(ov, geoid, stateName, name) == ov.paths[geoid]
  {
    if geoid !in ov.paths {
      EtlCommon.PathifyHasNoSpace(stateName);
      EtlCommon.PathifyHasNoSpace(name);
      var prefix := EtlCommon.Pathify(stateName) + "/";
      var p := prefix + EtlCommon.Pathify(name);
      assert p[..|prefix|] == prefix;
    }
  }

  /** A county's aliases are the override list or the abbreviated path, and always end with the GEOID. */
  lemma CountyAliasesShape(ov: Overrides, geoid: string, stateAbbr: string, name: string)
    ensures var a := CountyAliases(ov, geoid, stateAbbr, name);
      |a| >= 1 && a[|a| - 1] == geoid
      && (geoid in ov.aliases ==> a[..|a| - 1] == ov.aliases[geoid])
      && (geoid !in ov.aliases ==> |a| == 2 && a[0] == EtlCommon.Pathify(stateAbbr) + "/" + EtlCommon.Pathify(name))
  {
  }

  /** The overridden paths tell every overridden county apart. */
  lemma OverridePathsDistinct(a: string, b: string)
    requires a in CanonicalPathOverrides && b in CanonicalPathOverrides && a != b
    ensures CanonicalPathOverrides[a] != CanonicalPathOverrides[b]
  {
  }

  /** The state lookups of the county loop (`state_fips_to_name`, `state_fips_to_abbr`). */
  function StateNames(states: seq<StateInfo>): (r: seq<(string, string)>)
    ensures |r| == |states| && forall i :: 0 <= i < |states| ==> r[i] == (states[i].fips, states[i].name)
  {
    seq(|states|, i requires 0 <= i < |states| => (states[i].fips, states[i].name))
  }

  function StateAbbrs(states: seq<StateInfo>): (r: seq<(string, string)>)
    ensures |r| == |states| && forall i :: 0 <= i < |states| ==> r[i] == (states[i].fips, states[i].abbr)
  {
    seq(|states|, i requires 0 <= i < |states| => (states[i].fips, states[i].abbr))
  }

  /**
   * A county's locality. The default path is built (and the state looked
   * up) even for an overridden county, so a county of an unknown state
   * raises before its zone is projected.
   */
  function CountyLocality(ov: Overrides, row: CountyRow, states: seq<StateInfo>): Result<LocalityCreate, LocalityError> {
    var stateName := PyDicts.Get(StateNames(states), row.statefp);
    var stateAbbr := PyDicts.Get(StateAbbrs(states), row.statefp);
    if stateName.None? || stateAbbr.None? then Failure(UnknownState(row.statefp))
    else
      var proj :- UtmZoneProj(row.zone);
      Success(CountyCreate(ov, row, stateName.value, stateAbbr.value, proj))
  }

  function CountyCreate(ov: Overrides, row: CountyRow, stateName: string, stateAbbr: string, proj: string): LocalityCreate {
    LocalityCreate(CountyPath(ov, row.geoid, stateName, row.name), Some(EtlCommon.Pathify(stateName)),
                   row.namelsad + ", " + stateName, CountyAliases(ov, row.geoid, stateAbbr, row.name), Some(proj))
  }

  /** The counties without the District of Columbia (state FIPS `11`). */
  function WithoutDC(rows: seq<CountyRow>): (r: seq<CountyRow>)
    ensures forall x :: x in r <==> x in rows && x.statefp != "11"
    ensures multiset(r) <= multiset(rows)
    decreases |rows|
  {
    if |rows| == 0 then []
    else
      var n := |rows| - 1;
      assert rows == rows[..n] + [rows[n]];
      var before := WithoutDC(rows[..n]);
      if rows[n].statefp != "11" then before + [rows[n]] else before
  }

  /** Lexicographic order of strings, as `sort_values` compares GEOIDs. */
  predicate StrLe(a: string, b: string)
    decreases |a|
  {
    |a| == 0 || (|b| > 0 && (a[0] < b[0] || (a[0] == b[0] && StrLe(a[1..], b[1..]))))
  }

  lemma {:induction false} StrLeTotal(a: string, b: string)
    ensures StrLe(a, b) || StrLe(b, a)
    decreases |a|
  {
    if |a| > 0 && |b| > 0 && a[0] == b[0] {
      StrLeTotal(a[1..], b[1..]);
    }
  }

  predicate SortedByGeoid(rows: seq<CountyRow>) {
    forall i :: 0 <= i < |rows| - 1 ==> StrLe(rows[i].geoid, rows[i + 1].geoid)
  }

  /** Inserts a row before the first row of a sorted list it does not follow. */
  function InsertByGeoid(x: CountyRow, rows: seq<CountyRow>): (r: seq<CountyRow>)
    requires SortedByGeoid(rows)
    ensures SortedByGeoid(r) && multiset(r) == multiset(rows) + multiset{x}
    ensures |r| > 0 && (r[0] == x || (|rows| > 0 && r[0] == rows[0]))
    decreases |rows|
  {
    if |rows| == 0 then [x]
    else if StrLe(x.geoid, rows[0].geoid) then [x] + rows
    else
      StrLeTotal(x.geoid, rows[0].geoid);
      assert rows == [rows[0]] + rows[1..];
      [rows[0]] + InsertByGeoid(x, rows[1..])
  }

  /** `sort_values(by=["GEOID"])`: the same rows, in GEOID order. */
  function SortByGeoid(rows: seq<CountyRow>): (r: seq<CountyRow>)
    ensures SortedByGeoid(r) && multiset(r) == multiset(rows)
    decreases |rows|
  {
    if |rows| == 0 then []
    else
      var n := |rows| - 1;
      assert rows == rows[..n] + [rows[n]];
      InsertByGeoid(rows[n], SortByGeoid(rows[..n]))
  }

  function CountyResults(ov: Overrides, rows: seq<CountyRow>, states: seq<StateInfo>): (r: seq<Result<LocalityCreate, LocalityError>>)
    ensures |r| == |rows| && forall i :: 0 <= i < |rows| ==> r[i] == CountyLocality(ov, rows[i], states)
  {
    seq(|rows|, i requires 0 <= i < |rows| => CountyLocality(ov, rows[i], states))
  }

  /** `county_locs`: the sorted counties in order, stopping at the first error. */
  function CountyLocalities(ov: Overrides, rows: seq<CountyRow>, states: seq<StateInfo>): (r: Result<seq<LocalityCreate>, LocalityError>)
    ensures r.Success? ==> |r.value| == |rows| && forall i :: 0 <= i < |rows| ==>
      CountyLocality(ov, rows[i], states) == Success(r.value[i])
    ensures r.Failure? ==> exists i :: (0 <= i < |rows| && CountyLocality(ov, rows[i], states) == Failure(r.error)
      && forall j :: 0 <= j < i ==> CountyLocality(ov, rows[j], states).Success?)
  {
    Sequence(CountyResults(ov, rows, states))
  }

  /** The county loop of `load_localities`, over the counties without DC in GEOID order. */
  method BuildCountyLocalities(ov: Overrides, counties: seq<CountyRow>, states: seq<StateInfo>)
    returns (r: Result<seq<LocalityCreate>, LocalityError>)
    ensures r == CountyLocalities(ov, SortByGeoid(WithoutDC(counties)), states)
  {
    var rows := SortByGeoid(WithoutDC(counties));
    r := CountyLoop(ov, rows, states);
  }

  /** The county loop over the sorted rows, stopping at the first county that raises. */
  method CountyLoop(ov: Overrides, rows: seq<CountyRow>, states: seq<StateInfo>)
    returns (r: Result<seq<LocalityCreate>, LocalityError>)
    ensures r == CountyLocalities(ov, rows, states)
  {
    ghost var results := CountyResults(ov, rows, states);
    var locs: seq<LocalityCreate> := [];
    var i := 0;
    while i < |rows|
      invariant 0 <= i <= |rows|
      invariant Sequence(results[..i]) == Success(locs)
    {
      SequenceStep(results, i);
      var loc := CountyLocality(ov, rows[i], states);
      if loc.Failure? {
        SequenceFailurePersists(results, i + 1);
        return Failure(loc.error);
      }
      locs := locs + [loc.value];
      i := i + 1;
    }
    assert results[..i] == results;
    return Success(locs);
  }

  /** A county's last alias is its GEOID. */
  lemma CountyLocalityEndsWithGeoid(ov: Overrides, row: CountyRow, states: seq<StateInfo>)
    requires CountyLocality(ov, row, states).Success?
    ensures var a := CountyLocality(ov, row, states).value.aliases;
      |a| > 0 && a[|a| - 1] == row.geoid
  {
    var name := PyDicts.Get(StateNames(states), row.statefp);
    var abbr := PyDicts.Get(StateAbbrs(states), row.statefp);
    var proj := UtmZoneProj(row.zone);
    assert name.Some? && abbr.Some? && proj.Success?;
    var loc := CountyCreate(ov, row, name.value, abbr.value, proj.value);
    assert CountyLocality(ov, row, states) == Success(loc);
    assert loc.aliases == CountyAliases(ov, row.geoid, abbr.value, row.name);
  }

  /**
   * The county localities are those of the counties outside DC, one each,
   * in GEOID order: the last alias of each is its county's GEOID.
   */
  lemma CountyLocalitiesInGeoidOrder(ov: Overrides, counties: seq<CountyRow>, states: seq<StateInfo>)
    requires CountyLocalities(ov, SortByGeoid(WithoutDC(counties)), states).Success?
    ensures var rows := SortByGeoid(WithoutDC(counties));
      var locs := CountyLocalities(ov, rows, states).value;
      multiset(rows) == multiset(WithoutDC(counties))
      && (forall i :: 0 <= i < |rows| ==> rows[i] in counties && rows[i].statefp != "11")
      && (forall i :: 0 <= i < |locs| ==> |locs[i].aliases| > 0 && locs[i].aliases[|locs[i].aliases| - 1] == rows[i].geoid)
      && (forall i :: 0 <= i < |locs| - 1 ==>
            StrLe(locs[i].aliases[|locs[i].aliases| - 1], locs[i + 1].aliases[|locs[i + 1].aliases| - 1]))
  {
    var rows := SortByGeoid(WithoutDC(counties));
    var locs := CountyLocalities(ov, rows, states).value;
    forall i | 0 <= i < |rows| ensures rows[i] in counties && rows[i].statefp != "11" {
      assert rows[i] in multiset(WithoutDC(counties));
    }
    forall i | 0 <= i < |locs| ensures |locs[i].aliases| > 0 && locs[i].aliases[|locs[i].aliases| - 1] == rows[i].geoid {
      assert CountyLocality(ov, rows[i], states) == Success(locs[i]);
      CountyLocalityEndsWithGeoid(ov, rows[i], states);
    }
  }

  // ---------------------------------------------------------------------------
  // The whole import

  /** The root locality, created before the states; it has no parent and no default projection. */
  const RootLocality := LocalityCreate("us", None, "United States of America", [], None)

  /**
   * What `load_localities` leaves in the database: the localities created, in
   * the order they were pushed, and the error that stopped the import, if
   * any. Each client call takes effect as it is made, so a later raise does
   * not undo an earlier push.
   */
  datatype LocalityImport = LocalityImport(created: seq<LocalityCreate>, error: Option<LocalityError>)

  /**
   * `load_localities` without its downloads: the first context creates the
   * root and pushes the states' localities, computed from the combined county
   * list; the second pushes the counties' localities, in GEOID order without
   * DC. A raise in either loop stops the import before that loop's push.
   */
  function LoadLocalities(rows2020: seq<CountyRow>, rows2010: seq<CountyRow>, states: seq<StateInfo>): (r: LocalityImport)
    ensures |r.created| > 0 && r.created[0] == RootLocality
    ensures var stateLocs := StateLocalities(states, CombinedCounties(rows2020, rows2010));
      stateLocs.Failure? ==> r == LocalityImport([RootLocality], Some(stateLocs.error))
    ensures var stateLocs := StateLocalities(states, CombinedCounties(rows2020, rows2010));
      var countyLocs := CountyLocalities(CountyOverrides, SortByGeoid(WithoutDC(CombinedCounties(rows2020, rows2010))), states);
      stateLocs.Success? && countyLocs.Failure? ==> r == LocalityImport([RootLocality] + stateLocs.value, Some(countyLocs.error))
    ensures var stateLocs := StateLocalities(states, CombinedCounties(rows2020, rows2010));
      var countyLocs := CountyLocalities(CountyOverrides, SortByGeoid(WithoutDC(CombinedCounties(rows2020, rows2010))), states);
      r.error.None? <==> stateLocs.Success? && countyLocs.Success?
    ensures var stateLocs := StateLocalities(states, CombinedCounties(rows2020, rows2010));
      var countyLocs := CountyLocalities(CountyOverrides, SortByGeoid(WithoutDC(CombinedCounties(rows2020, rows2010))), states);
      r.error.None? ==> (r.created == [RootLocality] + stateLocs.value + countyLocs.value
        && |r.created| == 1 + |states| + |WithoutDC(CombinedCounties(rows2020, rows2010))|)
  {
    var counties := CombinedCounties(rows2020, rows2010);
    var rows := SortByGeoid(WithoutDC(counties));
    assert |rows| == |multiset(WithoutDC(counties))|;
    Pushed(StateLocalities(states, counties), CountyLocalities(CountyOverrides, rows, states))
  }

  /**
   * The localities pushed, given the outcomes of the two loops: the root
   * always, the states once their loop has finished, and the counties once
   * theirs has too. The county loop runs only after the states' push.
   */
  function Pushed(stateLocs: Result<seq<LocalityCreate>, LocalityError>,
                  countyLocs: Result<seq<LocalityCreate>, LocalityError>): LocalityImport
  {
    if stateLocs.Failure? then LocalityImport([RootLocality], Some(stateLocs.error))
    else if countyLocs.Failure? then LocalityImport([RootLocality] + stateLocs.value, Some(countyLocs.error))
    else LocalityImport([RootLocality] + stateLocs.value + countyLocs.value, None)
  }

  /** The parent of a locality at position `j` was created before it. */
  ghost predicate ParentBefore(created: seq<LocalityCreate>, j: nat)
    requires j < |created|
  {
    created[j].parentPath.Some? ==>
      exists i :: 0 <= i < j && created[i].canonicalPath == created[j].parentPath.value
  }

  /**
   * Every locality is created after its parent: the states hang under the
   * root, and each county under the state its FIPS code names, whose
   * locality the first context pushed.
   */
  lemma ParentsCreatedFirst(rows2020: seq<CountyRow>, rows2010: seq<CountyRow>, states: seq<StateInfo>)
    ensures var created := LoadLocalities(rows2020, rows2010, states).created;
      forall j :: 0 <= j < |created| ==> ParentBefore(created, j)
  {
    var counties := CombinedCounties(rows2020, rows2010);
    PushedParentsFirst(states, counties, SortByGeoid(WithoutDC(counties)));
  }

  /** `ParentsCreatedFirst` for any county list and any order of the counties. */
  lemma PushedParentsFirst(states: seq<StateInfo>, counties: seq<CountyRow>, rows: seq<CountyRow>)
    ensures var created := Pushed(StateLocalities(states, counties), CountyLocalities(CountyOverrides, rows, states)).created;
      forall j :: 0 <= j < |created| ==> ParentBefore(created, j)
  {
    var stateLocs := StateLocalities(states, counties);
    var countyLocs := CountyLocalities(CountyOverrides, rows, states);
    var created := Pushed(stateLocs, countyLocs).created;
    if stateLocs.Failure? {
      assert created == [RootLocality];
      assert ParentBefore(created, 0);
    } else {
      var pushed := [RootLocality] + stateLocs.value;
      assert created[..|pushed|] == pushed;
      forall j | 0 <= j < |created| ensures ParentBefore(created, j) {
        if j == 0 {
        } else if j < |pushed| {
          assert created[j] == stateLocs.value[j - 1];
          StatePushedUnderRoot(states, counties, stateLocs.value, j - 1);
          assert created[0].canonicalPath == "us";
        } else {
          assert created == pushed + countyLocs.value;
          var m := j - |pushed|;
          assert created[j] == countyLocs.value[m];
          var k := CountyParentPushed(states, counties, stateLocs.value, countyLocs.value, rows, m);
          assert created[1 + k] == stateLocs.value[k];
        }
      }
    }
  }

  /** The states' localities hang under the root. */
  lemma StatePushedUnderRoot(states: seq<StateInfo>, counties: seq<CountyRow>, stateLocs: seq<LocalityCreate>, k: nat)
    requires StateLocalities(states, counties) == Success(stateLocs) && k < |stateLocs|
    ensures stateLocs[k].parentPath == Some("us")
  {
    StateLocalityShape(states[k], counties);
  }

  /** A county's parent is the path of one of the states' localities. */
  lemma CountyParentPushed(states: seq<StateInfo>, counties: seq<CountyRow>, stateLocs: seq<LocalityCreate>,
                           countyLocs: seq<LocalityCreate>, rows: seq<CountyRow>, m: nat) returns (k: nat)
    requires StateLocalities(states, counties) == Success(stateLocs)
    requires CountyLocalities(CountyOverrides, rows, states) == Success(countyLocs) && m < |countyLocs|
    ensures k < |stateLocs| && countyLocs[m].parentPath == Some(stateLocs[k].canonicalPath)
  {
    k := CountyParentState(rows[m], states);
    StateLocalityPath(states[k], counties);
  }

  /** A state's locality is at the pathified state name. */
  lemma StateLocalityPath(state: StateInfo, counties: seq<CountyRow>)
    requires StateLocality(state, counties).Success?
    ensures StateLocality(state, counties).value.canonicalPath == EtlCommon.Pathify(state.name)
  {
    var proj := UtmZoneProj(ModalZone(StateZones(counties, state.fips)).value).value;
    assert StateLocality(state, counties) == Success(StateCreate(state, proj));
  }

  /** A county's parent is the pathified name of a state carrying the county's state FIPS code. */
  lemma CountyParentState(row: CountyRow, states: seq<StateInfo>) returns (k: nat)
    requires CountyLocality(CountyOverrides, row, states).Success?
    ensures k < |states| && states[k].fips == row.statefp
    ensures CountyLocality(CountyOverrides, row, states).value.parentPath == Some(EtlCommon.Pathify(states[k].name))
  {
    var name := PyDicts.Get(StateNames(states), row.statefp).value;
    var abbr := PyDicts.Get(StateAbbrs(states), row.statefp).value;
    assert CountyLocality(CountyOverrides, row, states)
      == Success(CountyCreate(CountyOverrides, row, name, abbr, UtmZoneProj(row.zone).value));
    var i :| 0 <= i < |states| && StateNames(states)[i] == (row.statefp, name);
    k := i;
  }
}
