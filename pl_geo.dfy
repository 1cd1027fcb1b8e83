/**
 * `load_geo`, the import of one Census geographic layer: the rewriting of
 * auxiliary-level geography IDs (with the AIANNH trust/reservation tags and
 * the merge of the R/T pairs they collapse into one ID), and, in bulk mode,
 * the replacement of the layer's GeoSet versions and their members.
 * Shapefile downloads, geometry and the column-value load are not modelled
 * here (the loader is in `GerryDb`).
 */
module PlGeo {
  import opened Wrappers
  import opened Strings
  import opened PlConfig
  import ColumnValues
  import PyDicts

  /** What `load_geo` can raise while preparing the layer or its GeoSets. */
  datatype GeoError =
    | EmptyGeoId
    | NotTrustOrReservation(geoid: string)
    | TripleCollision(geoid: string)
    | NameMismatch(geoid: string)
    | MissingLocality(path: string)
    | MissingGeography(path: string)

  /**
   * `categorize_trust_res`: the class of an AIANNH area from the tag ending
   * its GEOID. Indexing the last character of an empty GEOID raises.
   */
  function CategorizeTrustRes(x: string): (r: Result<string, GeoError>)
    ensures |x| == 0 ==> r == Failure(EmptyGeoId)
    ensures |x| > 0 ==> (r == Success("trust") <==> x[|x| - 1] == 't' || x[|x| - 1] == 'T')
    ensures |x| > 0 ==> (r == Success("reservation") <==> x[|x| - 1] == 'r' || x[|x| - 1] == 'R')
    ensures |x| > 0 ==> (r.Failure? <==> x[|x| - 1] !in TrustResTags)
  {
    if |x| == 0 then Failure(EmptyGeoId)
    else if LowerChar(x[|x| - 1]) == 't' then Success("trust")
    else if LowerChar(x[|x| - 1]) == 'r' then Success("reservation")
    else Failure(NotTrustOrReservation(x))
  }

  /** The characters `rstrip("rtRT")` removes. */
  const TrustResTags: set<char> := {'r', 't', 'R', 'T'}

  /**
   * The ID a geography of `level` gets: AIANNH GEOIDs lose every trailing
   * trust/reservation tag and gain the level and the state, other auxiliary
   * levels gain the level only, spine levels keep their GEOID.
   */
  function RewriteId(level: string, fips: string, geoid: string): string {
    if level in AuxiliaryLevels then
      if level == "aiannh" then level + ":" + RStripChars(geoid, TrustResTags) + ":fips" + fips
      else level + ":" + geoid
    else geoid
  }

  lemma RStripTag(s: string, c: char)
    requires c in TrustResTags
    ensures RStripChars(s + [c], TrustResTags) == RStripChars(s, TrustResTags)
  {
    assert (s + [c])[..|s|] == s;
  }

  /**
   * Two AIANNH GEOIDs of a state get the same ID exactly when they agree
   * once their trailing tags are removed: the "R" and "T" parts of one area
   * collide, and nothing else does.
   */
  lemma AiannhIdsCollideExactly(fips: string, a: string, b: string)
    ensures RewriteId("aiannh", fips, a) == RewriteId("aiannh", fips, b)
      <==> RStripChars(a, TrustResTags) == RStripChars(b, TrustResTags)
    ensures RewriteId("aiannh", fips, a + "R") == RewriteId("aiannh", fips, a + "T")
  {
    AiannhIdShape(fips, a);
    AiannhIdShape(fips, b);
    TaggedIdInjective(RStripChars(a, TrustResTags), RStripChars(b, TrustResTags), fips);
    AiannhIdShape(fips, a + "R");
    AiannhIdShape(fips, a + "T");
    RStripTag(a, 'R');
    RStripTag(a, 'T');
  }

  lemma AiannhIdShape(fips: string, geoid: string)
    ensures RewriteId("aiannh", fips, geoid) == "aiannh:" + RStripChars(geoid, TrustResTags) + ":fips" + fips
  {
  }

  /** The middle of an AIANNH ID determines it. */
  lemma TaggedIdInjective(x: string, y: string, fips: string)
    ensures "aiannh:" + x + ":fips" + fips == "aiannh:" + y + ":fips" + fips <==> x == y
  {
    var ida := "aiannh:" + x + ":fips" + fips;
    var idb := "aiannh:" + y + ":fips" + fips;
    if ida == idb {
      assert |x| == |y|;
      assert x == ida[7..7 + |x|];
      assert y == idb[7..7 + |y|];
    }
  }

  /** Auxiliary IDs are the level and the GEOID; spine IDs are the GEOID itself. */
  lemma RewriteIdByLevel(level: string, fips: string, geoid: string)
    ensures level in CentralSpineLevels ==> RewriteId(level, fips, geoid) == geoid
    ensures level in AuxiliaryLevels && level != "aiannh" ==> RewriteId(level, fips, geoid) == level + ":" + geoid
    ensures level == "aiannh" ==>
      (StartsWith(RewriteId(level, fips, geoid), "aiannh:") && EndsWith(RewriteId(level, fips, geoid), ":fips" + fips))
  {
    SpineAndAuxiliaryDisjoint();
    if level == "aiannh" {
      var r := RewriteId(level, fips, geoid);
      var mid := RStripChars(geoid, TrustResTags);
      assert r == "aiannh:" + mid + ":fips" + fips;
      assert r[..7] == "aiannh:";
      assert r[|r| - |":fips" + fips|..] == ":fips" + fips;
    }
  }

  // ---------------------------------------------------------------------------
  // The R/T merge

  /** A row of the layer as far as IDs and the merge go (geometry is left out). */
  datatype GeoRow = GeoRow(geoid: string, name: string, aland: int, awater: int, resTrust: string, collisionCount: nat)

  /** The two IDs whose R and T parts carry different names (the Fallon Paiute-Shoshone areas). */
  predicate ExemptFromNameCheck(id: string) {
    id == "aiannh:1075:fips32" || id == "aiannh:1070:fips32"
  }

  /** `new_rows`: the IDs in insertion order and the merged row of each. */
  datatype Merged = Merged(keys: seq<string>, byId: map<string, GeoRow>)

  /**
   * One row of the merge loop: a new ID is stored with collision count 0; a
   * second row of the ID adds its land and water areas and makes the class
   * "union"; a third raises, and so do names that differ on a second row
   * (except for the two exempt IDs).
   */
  function MergeRow(mg: Merged, row: GeoRow): Result<Merged, GeoError> {
    var id := row.geoid;
    if id !in mg.byId then Success(Merged(mg.keys + [id], mg.byId[id := row.(collisionCount := 0)]))
    else
      var prev := mg.byId[id];
      if prev.collisionCount + 1 > 1 then Failure(TripleCollision(id))
      else if prev.name != row.name && !ExemptFromNameCheck(id) then Failure(NameMismatch(id))
      else
        Success(mg.(byId := mg.byId[id := prev.(collisionCount := prev.collisionCount + 1,
                                                 aland := prev.aland + row.aland,
                                                 awater := prev.awater + row.awater,
                                                 resTrust := "union")]))
  }

  predicate DistinctIds(ids: seq<string>) {
    forall i, j :: 0 <= i < j < |ids| ==> ids[i] != ids[j]
  }

  /** The merge loop over `rows` in order, stopping at the first error; its keys are each stored ID once. */
  function MergeSpec(rows: seq<GeoRow>): (r: Result<Merged, GeoError>)
    ensures r.Success? ==> DistinctIds(r.value.keys) && forall k :: k in r.value.keys <==> k in r.value.byId
    decreases |rows|
  {
    if |rows| == 0 then Success(Merged([], map[]))
    else
      var n := |rows| - 1;
      var before :- MergeSpec(rows[..n]);
      MergeRow(before, rows[n])
  }

  /** The rows of the merged frame, in the order their IDs were first seen. */
  function MergedRows(mg: Merged): seq<GeoRow>
    requires forall k :: k in mg.keys ==> k in mg.byId
  {
    seq(|mg.keys|, i requires 0 <= i < |mg.keys| => mg.byId[mg.keys[i]])
  }

  function MergeResult(rows: seq<GeoRow>): Result<seq<GeoRow>, GeoError> {
    var mg :- MergeSpec(rows);
    Success(MergedRows(mg))
  }

  lemma {:induction false} MergeFailurePersists(rows: seq<GeoRow>, k: nat)
    requires k <= |rows| && MergeSpec(rows[..k]).Failure?
    ensures MergeSpec(rows) == MergeSpec(rows[..k])
    decreases |rows| - k
  {
    if k < |rows| {
      assert rows[..k + 1][..k] == rows[..k];
      MergeFailurePersists(rows, k + 1);
    } else {
      assert rows[..k] == rows;
    }
  }

  /** One more row of the merge loop. */
  lemma MergeSpecStep(rows: seq<GeoRow>, i: nat)
    requires i < |rows| && MergeSpec(rows[..i]).Success?
    ensures MergeSpec(rows[..i + 1]) == MergeRow(MergeSpec(rows[..i]).value, rows[i])
  {
    assert rows[..i + 1][..i] == rows[..i];
  }

  /** The body of the merge loop for one row, on the IDs and rows merged so far. */
  method MergeOne(keys: seq<string>, newRows: map<string, GeoRow>, data: GeoRow) returns (r: Result<Merged, GeoError>)
    ensures r == MergeRow(Merged(keys, newRows), data)
  {
    var id := data.geoid;
    if id !in newRows {
      return Success(Merged(keys + [id], newRows[id := data.(collisionCount := 0)]));
    }
    var merged := newRows[id].(collisionCount := newRows[id].collisionCount + 1);
    if merged.collisionCount > 1 {
      return Failure(TripleCollision(id));
    }
    merged := merged.(aland := merged.aland + data.aland, awater := merged.awater + data.awater, resTrust := "union");
    if merged.name != data.name && !ExemptFromNameCheck(id) {
      return Failure(NameMismatch(id));
    }
    return Success(Merged(keys, newRows[id := merged]));
  }

  /** The merge loop of `load_geo` (run only when IDs repeat). */
  method MergeCollisions(rows: seq<GeoRow>) returns (r: Result<seq<GeoRow>, GeoError>)
    ensures r == MergeResult(rows)
  {
    var keys: seq<string> := [];
    var newRows: map<string, GeoRow> := map[];
    var i := 0;
    while i < |rows|
      invariant i <= |rows|
      invariant MergeSpec(rows[..i]) == Success(Merged(keys, newRows))
    {
      MergeSpecStep(rows, i);
      var step := MergeOne(keys, newRows, rows[i]);
      if step.Failure? {
        MergeFailurePersists(rows, i + 1);
        return Failure(step.error);
      }
      keys, newRows := step.value.keys, step.value.byId;
      i := i + 1;
    }
    assert rows[..i] == rows;
    return Success(MergedRows(Merged(keys, newRows)));
  }

  // What the merge computes

  /** How many rows carry `id`. */
  function CountId(rows: seq<GeoRow>, id: string): (c: nat)
    ensures c <= |rows|
    decreases |rows|
  {
    if |rows| == 0 then 0
    else CountId(rows[..|rows| - 1], id) + (if rows[|rows| - 1].geoid == id then 1 else 0)
  }

  /** The total land area of the rows carrying `id`. */
  function SumLand(rows: seq<GeoRow>, id: string): int
    decreases |rows|
  {
    if |rows| == 0 then 0
    else SumLand(rows[..|rows| - 1], id) + (if rows[|rows| - 1].geoid == id then rows[|rows| - 1].aland else 0)
  }

  /** The total water area of the rows carrying `id`. */
  function SumWater(rows: seq<GeoRow>, id: string): int
    decreases |rows|
  {
    if |rows| == 0 then 0
    else SumWater(rows[..|rows| - 1], id) + (if rows[|rows| - 1].geoid == id then rows[|rows| - 1].awater else 0)
  }

  /** The first row carrying `id`. */
  function FirstWith(rows: seq<GeoRow>, id: string): (r: Option<GeoRow>)
    ensures r.Some? <==> CountId(rows, id) > 0
    ensures r.Some? ==> r.value.geoid == id
    decreases |rows|
  {
    if |rows| == 0 then None
    else
      var before := FirstWith(rows[..|rows| - 1], id);
      if before.Some? then before
      else if rows[|rows| - 1].geoid == id then Some(rows[|rows| - 1])
      else None
  }

  /** An ID occurs in the rows exactly when it is counted. */
  lemma {:induction false} CountIdPositive(rows: seq<GeoRow>, id: string)
    ensures CountId(rows, id) > 0 <==> exists i :: 0 <= i < |rows| && rows[i].geoid == id
    decreases |rows|
  {
    if |rows| > 0 {
      var n := |rows| - 1;
      CountIdPositive(rows[..n], id);
      assert forall i :: 0 <= i < n ==> rows[..n][i] == rows[i];
    }
  }

  /** An ID counted once is carried by its first row only. */
  lemma {:induction false} CountIdOnce(rows: seq<GeoRow>, id: string, i: nat)
    requires CountId(rows, id) == 1 && i < |rows| && rows[i].geoid == id
    ensures rows[i] == FirstWith(rows, id).value
    decreases |rows|
  {
    var n := |rows| - 1;
    if i < n {
      assert rows[..n][i] == rows[i];
      if rows[n].geoid == id {
        CountIdPositive(rows[..n], id);
      } else {
        CountIdOnce(rows[..n], id, i);
      }
    } else {
      CountIdPositive(rows[..n], id);
      assert CountId(rows[..n], id) == 0;
    }
  }

  /** Rows not carrying `id` add nothing to its areas. */
  lemma {:induction false} AbsentIdSums(rows: seq<GeoRow>, id: string)
    requires CountId(rows, id) == 0
    ensures SumLand(rows, id) == 0 && SumWater(rows, id) == 0
    decreases |rows|
  {
    if |rows| > 0 {
      AbsentIdSums(rows[..|rows| - 1], id);
    }
  }

  /**
   * The merged row of `k`: it holds the ID, one less than the number of rows
   * carrying it as collision count, the summed land and water areas, the
   * first such row's name, and the first row's class or "union".
   */
  predicate MergedRowFor(rows: seq<GeoRow>, k: string, row: GeoRow)
    requires CountId(rows, k) > 0
  {
    var first := FirstWith(rows, k).value;
    row.geoid == k && row.collisionCount + 1 == CountId(rows, k)
    && row.aland == SumLand(rows, k) && row.awater == SumWater(rows, k)
    && row.name == first.name
    && row.resTrust == (if CountId(rows, k) == 1 then first.resTrust else "union")
  }

  /** After the merge, the stored IDs are exactly those the rows carry, each with its merged row. */
  ghost predicate MergedFrom(rows: seq<GeoRow>, mg: Merged) {
    forall k :: MergedKey(rows, mg, k)
  }

  lemma {:induction false} MergeSpecComputes(rows: seq<GeoRow>)
    requires MergeSpec(rows).Success?
    ensures MergedFrom(rows, MergeSpec(rows).value)
    decreases |rows|
  {
    if |rows| > 0 {
      var n := |rows| - 1;
      var p := rows[..n];
      var row := rows[n];
      MergeSpecComputes(p);
      var mg := MergeSpec(p).value;
      MergeSpecStep(rows, n);
      forall k ensures MergedKey(rows, MergeRow(mg, row).value, k) {
        MergeRowComputes(rows, mg, k);
      }
    }
  }

  lemma MergedAt(rows: seq<GeoRow>, k: string)
    requires MergeSpec(rows).Success?
    ensures MergedKey(rows, MergeSpec(rows).value, k)
  {
    MergeSpecComputes(rows);
  }

  /** `MergedFrom` at one ID. */
  ghost predicate MergedKey(rows: seq<GeoRow>, mg: Merged, k: string) {
    (k in mg.byId <==> CountId(rows, k) > 0) && (k in mg.byId ==> MergedRowFor(rows, k, mg.byId[k]))
  }

  /** One more row keeps every ID's merged row what the rows so far make of it. */
  lemma MergeRowComputes(rows: seq<GeoRow>, mg: Merged, k: string)
    requires |rows| > 0 && MergedFrom(rows[..|rows| - 1], mg) && MergeRow(mg, rows[|rows| - 1]).Success?
    ensures MergedKey(rows, MergeRow(mg, rows[|rows| - 1]).value, k)
  {
    var n := |rows| - 1;
    var p := rows[..n];
    assert MergedKey(p, mg, k);
    if k == rows[n].geoid && k !in mg.byId {
      AbsentIdSums(p, k);
    }
  }

  /** No ID on three rows, and names that agree on the two rows of an ID (except the exempt IDs). */
  predicate Mergeable(rows: seq<GeoRow>) {
    (forall i :: 0 <= i < |rows| ==> CountId(rows, rows[i].geoid) <= 2)
    && forall i, j :: 0 <= i < j < |rows| && rows[i].geoid == rows[j].geoid ==>
      rows[i].name == rows[j].name || ExemptFromNameCheck(rows[i].geoid)
  }

  lemma MergeableShrinks(rows: seq<GeoRow>)
    requires |rows| > 0 && Mergeable(rows)
    ensures Mergeable(rows[..|rows| - 1])
  {
    var n := |rows| - 1;
    forall i | 0 <= i < n ensures CountId(rows[..n], rows[..n][i].geoid) <= 2 {
      assert rows[..n][i] == rows[i];
    }
  }

  /** Mergeable rows merge without error. */
  lemma {:induction false} SucceedsWhenMergeable(rows: seq<GeoRow>)
    requires Mergeable(rows)
    ensures MergeSpec(rows).Success?
    decreases |rows|
  {
    if |rows| > 0 {
      var n := |rows| - 1;
      var p := rows[..n];
      var row := rows[n];
      var id := row.geoid;
      MergeableShrinks(rows);
      SucceedsWhenMergeable(p);
      var mg := MergeSpec(p).value;
      MergedAt(p, id);
      if id in mg.byId {
        assert CountId(rows, rows[n].geoid) <= 2;
        CountIdPositive(p, id);
        var f :| 0 <= f < n && p[f].geoid == id;
        CountIdOnce(p, id, f);
        assert rows[f] == p[f];
      }
    }
  }

  /** A row the merge accepts is at most the second of its ID, and then carries the first one's name (or an exempt ID). */
  lemma MergeStepAccepts(p: seq<GeoRow>, row: GeoRow)
    requires MergeSpec(p).Success? && MergeRow(MergeSpec(p).value, row).Success?
    ensures CountId(p, row.geoid) <= 1
    ensures CountId(p, row.geoid) == 1 ==> FirstWith(p, row.geoid).value.name == row.name || ExemptFromNameCheck(row.geoid)
  {
    MergedAt(p, row.geoid);
  }

  /** Rows that merge without error are mergeable. */
  lemma {:induction false} MergeableWhenSucceeds(rows: seq<GeoRow>)
    requires MergeSpec(rows).Success?
    ensures Mergeable(rows)
    decreases |rows|
  {
    if |rows| > 0 {
      var n := |rows| - 1;
      var p := rows[..n];
      var row := rows[n];
      var id := row.geoid;
      MergeableWhenSucceeds(p);
      MergeStepAccepts(p, row);
      assert forall i :: 0 <= i < n ==> p[i] == rows[i];
      CountIdPositive(p, id);
      forall i | 0 <= i < |rows| ensures CountId(rows, rows[i].geoid) <= 2 {
        if i < n {
          assert CountId(p, p[i].geoid) <= 2;
        }
      }
      forall i, j | 0 <= i < j < |rows| && rows[i].geoid == rows[j].geoid
        ensures rows[i].name == rows[j].name || ExemptFromNameCheck(rows[i].geoid)
      {
        if j == n {
          CountIdOnce(p, id, i);
        } else {
          assert p[i].geoid == p[j].geoid;
        }
      }
    }
  }

  /** The merge succeeds exactly on mergeable rows: it fails on a third row of an ID or on differing names. */
  lemma MergeSucceedsIff(rows: seq<GeoRow>)
    ensures MergeSpec(rows).Success? <==> Mergeable(rows)
  {
    if Mergeable(rows) {
      SucceedsWhenMergeable(rows);
    }
    if MergeSpec(rows).Success? {
      MergeableWhenSucceeds(rows);
    }
  }

  /** The merged IDs are those of `rows`, in order, each holding its row as first stored. */
  predicate StoresFirstRows(mg: Merged, rows: seq<GeoRow>) {
    mg.keys == Ids(rows) &&
    forall i :: 0 <= i < |rows| ==> rows[i].geoid in mg.byId && mg.byId[rows[i].geoid] == rows[i].(collisionCount := 0)
  }

  lemma {:induction false} MergeWithoutRepeats(rows: seq<GeoRow>)
    requires DistinctIds(Ids(rows))
    ensures MergeSpec(rows).Success? && StoresFirstRows(MergeSpec(rows).value, rows)
    decreases |rows|
  {
    if |rows| > 0 {
      var n := |rows| - 1;
      var p := rows[..n];
      assert DistinctIds(Ids(p)) by { IdsSnoc(rows); }
      MergeWithoutRepeats(p);
      var mg := MergeSpec(p).value;
      MergeSpecStep(rows, n);
      FreshRowStored(mg, rows);
    }
  }

  /** A row whose ID is new to the merge is stored as it is, and the earlier rows stay stored. */
  lemma FreshRowStored(mg: Merged, rows: seq<GeoRow>)
    requires |rows| > 0 && DistinctIds(Ids(rows))
    requires StoresFirstRows(mg, rows[..|rows| - 1]) && forall k :: k in mg.keys <==> k in mg.byId
    ensures MergeRow(mg, rows[|rows| - 1]) == Success(Merged(mg.keys + [rows[|rows| - 1].geoid],
      mg.byId[rows[|rows| - 1].geoid := rows[|rows| - 1].(collisionCount := 0)]))
    ensures StoresFirstRows(MergeRow(mg, rows[|rows| - 1]).value, rows)
  {
    var n := |rows| - 1;
    var p := rows[..n];
    IdsSnoc(rows);
    assert rows[n].geoid !in mg.keys by {
      forall i | 0 <= i < n ensures mg.keys[i] != rows[n].geoid {
        assert Ids(rows)[i] == mg.keys[i] && Ids(rows)[n] == rows[n].geoid;
      }
    }
    var after := mg.byId[rows[n].geoid := rows[n].(collisionCount := 0)];
    forall i | 0 <= i < |rows| ensures rows[i].geoid in after && after[rows[i].geoid] == rows[i].(collisionCount := 0) {
      if i < n {
        assert p[i] == rows[i];
        assert Ids(rows)[i] != Ids(rows)[n];
      }
    }
  }

  /**
   * Merging rows whose IDs are all distinct changes nothing but the
   * collision counts: skipping the loop when no ID repeats loses nothing.
   */
  lemma MergeWithoutRepeatsKeepsRows(rows: seq<GeoRow>)
    requires DistinctIds(Ids(rows))
    ensures MergeResult(rows) == Success(ResetCounts(rows))
  {
    MergeWithoutRepeats(rows);
    var mg := MergeSpec(rows).value;
    var merged := MergedRows(mg);
    assert |merged| == |rows|;
    forall i | 0 <= i < |rows| ensures merged[i] == ResetCounts(rows)[i] {
      assert merged[i] == mg.byId[mg.keys[i]];
      assert mg.keys[i] == rows[i].geoid;
    }
    assert merged == ResetCounts(rows);
  }

  /** The rows with collision count 0, as the merge stores a first occurrence. */
  function ResetCounts(rows: seq<GeoRow>): (r: seq<GeoRow>)
    ensures |r| == |rows| && forall i :: 0 <= i < |rows| ==> r[i] == rows[i].(collisionCount := 0)
  {
    seq(|rows|, i requires 0 <= i < |rows| => rows[i].(collisionCount := 0))
  }

  lemma IdsSnoc(rows: seq<GeoRow>)
    requires |rows| > 0
    ensures Ids(rows) == Ids(rows[..|rows| - 1]) + [rows[|rows| - 1].geoid]
  {
    var n := |rows| - 1;
    assert forall i :: 0 <= i < n ==> Ids(rows)[i] == Ids(rows[..n])[i];
  }

  function Ids(rows: seq<GeoRow>): (ids: seq<string>)
    ensures |ids| == |rows| && forall i :: 0 <= i < |rows| ==> ids[i] == rows[i].geoid
  {
    seq(|rows|, i requires 0 <= i < |rows| => rows[i].geoid)
  }

  // ---------------------------------------------------------------------------
  // Preparing the layer

  /**
   * `res_trust_class` for every row, in row order: the first row whose GEOID
   * carries no trust/reservation tag raises.
   */
  function Classify(rows: seq<GeoRow>): (r: Result<seq<GeoRow>, GeoError>)
    ensures r.Success? <==> forall i :: 0 <= i < |rows| ==> CategorizeTrustRes(rows[i].geoid).Success?
    ensures r.Success? ==> |r.value| == |rows| && forall i :: 0 <= i < |rows| ==>
      r.value[i] == rows[i].(resTrust := CategorizeTrustRes(rows[i].geoid).value)
    ensures r.Failure? ==> exists i :: (0 <= i < |rows| && CategorizeTrustRes(rows[i].geoid) == Failure(r.error)
      && forall j :: 0 <= j < i ==> CategorizeTrustRes(rows[j].geoid).Success?)
    decreases |rows|
  {
    if |rows| == 0 then Success([])
    else
      var n := |rows| - 1;
      assert forall i :: 0 <= i < n ==> rows[..n][i] == rows[i];
      var before :- Classify(rows[..n]);
      var cls :- CategorizeTrustRes(rows[n].geoid);
      Success(before + [rows[n].(resTrust := cls)])
  }

  /** The rows with their IDs rewritten for `level`. */
  function RewriteIds(level: string, fips: string, rows: seq<GeoRow>): (r: seq<GeoRow>)
    ensures |r| == |rows| && forall i :: 0 <= i < |rows| ==> r[i] == rows[i].(geoid := RewriteId(level, fips, rows[i].geoid))
  {
    seq(|rows|, i requires 0 <= i < |rows| => rows[i].(geoid := RewriteId(level, fips, rows[i].geoid)))
  }

  /**
   * The column selection that ends the AIANNH branch: only the name, the ID
   * and the reservation/trust class survive (with the geometry and the
   * internal point, which are not modelled). The area columns and the
   * collision count are dropped: in the rows returned their fields hold 0,
   * which stands for "column absent", not for a zero area or count.
   */
  function SelectAiannhColumns(rows: seq<GeoRow>): (r: seq<GeoRow>)
    ensures |r| == |rows|
    ensures forall i :: 0 <= i < |rows| ==>
      r[i].geoid == rows[i].geoid && r[i].name == rows[i].name && r[i].resTrust == rows[i].resTrust
    ensures forall i :: 0 <= i < |rows| ==> r[i].aland == 0 && r[i].awater == 0 && r[i].collisionCount == 0
  {
    seq(|rows|, i requires 0 <= i < |rows| => GeoRow(rows[i].geoid, rows[i].name, 0, 0, rows[i].resTrust, 0))
  }

  /**
   * The layer `load_geo` imports from the downloaded rows: AIANNH rows are
   * classified and rewritten, merged when an ID repeats, and cut down to
   * their name, ID and class; rows of the other auxiliary levels get
   * prefixed IDs; spine rows are kept.
   */
  function PrepareLayer(level: string, fips: string, rows: seq<GeoRow>): Result<seq<GeoRow>, GeoError> {
    if level in AuxiliaryLevels && level == "aiannh" then
      var classified :- Classify(rows);
      var rewritten := RewriteIds(level, fips, classified);
      var merged :- if DistinctIds(Ids(rewritten)) then Success(rewritten) else MergeResult(rewritten);
      Success(SelectAiannhColumns(merged))
    else
      Success(RewriteIds(level, fips, rows))
  }

  /**
   * A row of the prepared AIANNH layer, against the rewritten rows: the first
   * name and class seen for its ID ("union" when two parts were merged), and
   * no area or collision count.
   */
  predicate ImportedRowFor(rows: seq<GeoRow>, row: GeoRow) {
    CountId(rows, row.geoid) > 0
    && var first := FirstWith(rows, row.geoid).value;
    row.name == first.name
    && row.resTrust == (if CountId(rows, row.geoid) == 1 then first.resTrust else "union")
    && row.aland == 0 && row.awater == 0 && row.collisionCount == 0
  }

  /**
   * The areas the merge sums never reach the import: every prepared AIANNH
   * row carries the name and class of its ID and has lost its area columns
   * and its collision count.
   */
  lemma AiannhLayerCarriesNoAreas(fips: string, rows: seq<GeoRow>)
    requires PrepareLayer("aiannh", fips, rows).Success?
    ensures forall row :: row in PrepareLayer("aiannh", fips, rows).value ==>
      ImportedRowFor(RewriteIds("aiannh", fips, Classify(rows).value), row)
  {
    var rewritten := RewriteIds("aiannh", fips, Classify(rows).value);
    var out := PrepareLayer("aiannh", fips, rows).value;
    if DistinctIds(Ids(rewritten)) {
      MergeWithoutRepeats(rewritten);
      forall i | 0 <= i < |out| ensures ImportedRowFor(rewritten, out[i]) {
        MergedAt(rewritten, rewritten[i].geoid);
      }
    } else {
      var mg := MergeSpec(rewritten).value;
      forall i | 0 <= i < |out| ensures ImportedRowFor(rewritten, out[i]) {
        MergedAt(rewritten, mg.keys[i]);
      }
    }
  }

  /** Rows without a repeated ID are mergeable, so the skipped merge would have succeeded. */
  lemma DistinctIsMergeable(rows: seq<GeoRow>)
    requires DistinctIds(Ids(rows))
    ensures Mergeable(rows)
  {
    MergeWithoutRepeats(rows);
    MergeSucceedsIff(rows);
  }

  /** The merged rows carry their IDs, so the merged frame's index is its key list. */
  lemma MergedIds(rows: seq<GeoRow>)
    requires MergeSpec(rows).Success?
    ensures Ids(MergedRows(MergeSpec(rows).value)) == MergeSpec(rows).value.keys
  {
    var mg := MergeSpec(rows).value;
    var merged := MergedRows(mg);
    forall i | 0 <= i < |mg.keys| ensures merged[i].geoid == mg.keys[i] {
      MergedAt(rows, mg.keys[i]);
    }
  }

  /**
   * An AIANNH layer, once prepared, has unique IDs: the index `load_geo`
   * sets on it never repeats a geography path.
   */
  lemma AiannhLayerIdsUnique(fips: string, rows: seq<GeoRow>)
    requires PrepareLayer("aiannh", fips, rows).Success?
    ensures DistinctIds(Ids(PrepareLayer("aiannh", fips, rows).value))
  {
    var classified := Classify(rows).value;
    var rewritten := RewriteIds("aiannh", fips, classified);
    if !DistinctIds(Ids(rewritten)) {
      MergedIds(rewritten);
    }
  }

  /**
   * The prepared AIANNH layer holds exactly the rewritten IDs of the
   * downloaded rows: the merge drops no area and invents none.
   */
  lemma AiannhLayerKeepsIds(fips: string, rows: seq<GeoRow>, id: string)
    requires PrepareLayer("aiannh", fips, rows).Success?
    ensures id in Ids(PrepareLayer("aiannh", fips, rows).value)
      <==> exists i :: 0 <= i < |rows| && RewriteId("aiannh", fips, rows[i].geoid) == id
  {
    var classified := Classify(rows).value;
    var rewritten := RewriteIds("aiannh", fips, classified);
    PreparedAiannh(fips, rows);
    var merged := if DistinctIds(Ids(rewritten)) then rewritten else MergeResult(rewritten).value;
    SelectKeepsIds(merged);
    assert id in Ids(merged) <==> id in Ids(rewritten) by {
      if !DistinctIds(Ids(rewritten)) {
        MergeKeepsIds(rewritten, id);
      }
    }
    RewrittenHasId(fips, rows, classified, id);
  }

  /** A prepared AIANNH layer is the column selection of the rewritten rows, merged when an ID repeats. */
  lemma PreparedAiannh(fips: string, rows: seq<GeoRow>)
    requires PrepareLayer("aiannh", fips, rows).Success?
    ensures Classify(rows).Success?
    ensures var rewritten := RewriteIds("aiannh", fips, Classify(rows).value);
      (!DistinctIds(Ids(rewritten)) ==> MergeSpec(rewritten).Success?)
      && PrepareLayer("aiannh", fips, rows).value
         == SelectAiannhColumns(if DistinctIds(Ids(rewritten)) then rewritten else MergeResult(rewritten).value)
  {
  }

  lemma SelectKeepsIds(rows: seq<GeoRow>)
    ensures Ids(SelectAiannhColumns(rows)) == Ids(rows)
  {
  }

  /** Classified rows keep their GEOIDs, so their rewritten IDs are those of the downloaded rows. */
  lemma RewrittenHasId(fips: string, rows: seq<GeoRow>, classified: seq<GeoRow>, id: string)
    requires |classified| == |rows| && forall i :: 0 <= i < |rows| ==> classified[i].geoid == rows[i].geoid
    ensures id in Ids(RewriteIds("aiannh", fips, classified))
      <==> exists i :: 0 <= i < |rows| && RewriteId("aiannh", fips, rows[i].geoid) == id
  {
    var rewritten := RewriteIds("aiannh", fips, classified);
    if id in Ids(rewritten) {
      var i :| 0 <= i < |rewritten| && Ids(rewritten)[i] == id;
      assert RewriteId("aiannh", fips, rows[i].geoid) == id;
    }
    if exists i :: 0 <= i < |rows| && RewriteId("aiannh", fips, rows[i].geoid) == id {
      var i :| 0 <= i < |rows| && RewriteId("aiannh", fips, rows[i].geoid) == id;
      assert Ids(rewritten)[i] == id;
    }
  }

  /** The merge keeps every ID of its rows and adds none. */
  lemma MergeKeepsIds(rows: seq<GeoRow>, id: string)
    requires MergeSpec(rows).Success?
    ensures id in Ids(MergeResult(rows).value) <==> id in Ids(rows)
  {
    MergedIds(rows);
    MergedAt(rows, id);
    CountIdPositive(rows, id);
    if id in Ids(rows) {
      var i :| 0 <= i < |rows| && Ids(rows)[i] == id;
      assert rows[i].geoid == id;
    }
  }

  /**
   * An AIANNH layer is prepared without error exactly when every GEOID ends in
   * a tag and the rewritten rows are mergeable (no area split three ways, and
   * names agreeing between the parts of an area).
   */
  lemma AiannhLayerSucceedsIff(fips: string, rows: seq<GeoRow>)
    ensures PrepareLayer("aiannh", fips, rows).Success? <==>
      (forall i :: 0 <= i < |rows| ==> CategorizeTrustRes(rows[i].geoid).Success?)
      && Mergeable(RewriteIds("aiannh", fips, Classify(rows).value))
  {
    if Classify(rows).Success? {
      var rewritten := RewriteIds("aiannh", fips, Classify(rows).value);
      if DistinctIds(Ids(rewritten)) {
        DistinctIsMergeable(rewritten);
      } else {
        MergeSucceedsIff(rewritten);
      }
    }
  }

  /** Spine layers are imported as downloaded; other auxiliary layers only gain the level prefix. */
  lemma OtherLayersKeepRows(level: string, fips: string, rows: seq<GeoRow>)
    requires level != "aiannh"
    ensures PrepareLayer(level, fips, rows).Success?
    ensures level in CentralSpineLevels ==> PrepareLayer(level, fips, rows).value == rows
    ensures level in AuxiliaryLevels ==> forall i :: 0 <= i < |rows| ==>
      PrepareLayer(level, fips, rows).value[i] == rows[i].(geoid := level + ":" + rows[i].geoid)
  {
    var r := RewriteIds(level, fips, rows);
    forall i | 0 <= i < |rows| ensures level in CentralSpineLevels ==> r[i] == rows[i] {
      RewriteIdByLevel(level, fips, rows[i].geoid);
    }
  }

  /**
   * `load_geo` up to the import: nothing (`None`) for a dataset the Census
   * does not publish, and otherwise the prepared layer or the error raised.
   */
  function LoadGeoLayer(fips: string, level: string, year: string, rows: seq<GeoRow>): Option<Result<seq<GeoRow>, GeoError>> {
    if IsMissing(fips, level, year) then None
    else Some(PrepareLayer(level, fips, rows))
  }

  /**
   * The unpublished-dataset check comes first: those datasets are skipped
   * whatever was downloaded, the voting districts of the territories among
   * them, and every other dataset is imported.
   */
  lemma UnpublishedLayersSkipped(fips: string, level: string, year: string, rows: seq<GeoRow>)
    ensures LoadGeoLayer(fips, level, year, rows).None? <==> IsMissing(fips, level, year)
    ensures fips in OutlyingTerritories && level == "vtd" && (year == "2010" || year == "2020") ==>
      LoadGeoLayer(fips, level, year, rows).None?
  {
    TerritoriesLackVtds();
  }

  /**
   * `geos_by_county` after the rewrite: each county's geography IDs, with
   * the level prefix on auxiliary levels.
   */
  function CountyGeos(level: string, byCounty: seq<(string, seq<string>)>): (r: seq<(string, seq<string>)>)
    ensures |r| == |byCounty|
    ensures forall c :: 0 <= c < |byCounty| ==> r[c].0 == byCounty[c].0 && |r[c].1| == |byCounty[c].1|
  {
    seq(|byCounty|, c requires 0 <= c < |byCounty| =>
      (byCounty[c].0,
       if level in AuxiliaryLevels then
         seq(|byCounty[c].1|, j requires 0 <= j < |byCounty[c].1| => level + ":" + byCounty[c].1[j])
       else byCounty[c].1))
  }

  /**
   * Outside AIANNH, the county lists name the geographies by the IDs the
   * layer was given. AIANNH county lists would keep the tagged GEOID without
   * the state suffix, but AIANNH layers carry no county column.
   */
  lemma CountyGeosMatchLayer(level: string, fips: string, byCounty: seq<(string, seq<string>)>, c: nat, j: nat)
    requires level != "aiannh" && c < |byCounty| && j < |byCounty[c].1|
    ensures CountyGeos(level, byCounty)[c].1[j] == RewriteId(level, fips, byCounty[c].1[j])
  {
    SpineAndAuxiliaryDisjoint();
  }

  // ---------------------------------------------------------------------------
  // GeoSets (bulk mode)

  type Time = ColumnValues.Time

  /** A row of `GeoSetVersion`: the geographies of a layer that make up a locality, over a period. */
  datatype GeoSetVersion = GeoSetVersion(setVersionId: nat, layerId: nat, locId: nat, validFrom: Time,
                                         validTo: Option<Time>, metaId: nat)

  /** A row of `GeoSetMember`. */
  datatype GeoSetMember = GeoSetMember(setVersionId: nat, geoId: nat)

  /** `full_fips`: the state's locality path, then one path per county of the layer. */
  function FullFips(fips: string, counties: seq<string>): (r: seq<string>)
    ensures |r| == |counties| + 1 && r[0] == fips
    ensures forall i :: 0 <= i < |counties| ==> r[i + 1] == fips + counties[i]
  {
    [fips] + seq(|counties|, i requires 0 <= i < |counties| => fips + counties[i])
  }

  /** The locality query: the (path, `loc_id`) references whose path is among `paths`, in table order. */
  function FoundLocalities(refs: seq<(string, nat)>, paths: seq<string>): (r: seq<(string, nat)>)
    ensures forall x :: x in r <==> x in refs && x.0 in paths
    decreases |refs|
  {
    if |refs| == 0 then []
    else
      var n := |refs| - 1;
      var before := FoundLocalities(refs[..n], paths);
      assert refs == refs[..n] + [refs[n]];
      if refs[n].0 in paths then before + [refs[n]] else before
  }

  /** The `loc_id`s of the found references. */
  function LocIds(found: seq<(string, nat)>): set<nat> {
    set x | x in found :: x.1
  }

  /** The deprecation: the current versions of the layer for the localities `locs` end at `now`. */
  function Deprecate(versions: seq<GeoSetVersion>, layerId: nat, locs: set<nat>, now: Time): (r: seq<GeoSetVersion>)
    ensures |r| == |versions|
    ensures forall i :: 0 <= i < |versions| ==>
      r[i] == if versions[i].layerId == layerId && versions[i].locId in locs && versions[i].validTo.None?
              then versions[i].(validTo := Some(now)) else versions[i]
  {
    seq(|versions|, i requires 0 <= i < |versions| =>
      var v := versions[i];
      if v.layerId == layerId && v.locId in locs && v.validTo.None? then v.(validTo := Some(now)) else v)
  }

  /** The inserted versions, one per locality, current from `now`, numbered from `start`. */
  function NewVersions(start: nat, layerId: nat, locIds: seq<nat>, now: Time, metaId: nat): (r: seq<GeoSetVersion>)
    ensures |r| == |locIds|
    ensures forall i :: 0 <= i < |locIds| ==>
      r[i].setVersionId == start + i && r[i].layerId == layerId && r[i].locId == locIds[i]
      && r[i].validFrom == now && r[i].validTo.None? && r[i].metaId == metaId
  {
    seq(|locIds|, i requires 0 <= i < |locIds| => GeoSetVersion(start + i, layerId, locIds[i], now, None, metaId))
  }

  /** The `loc_id` of every locality found, in the order of `loc_ids_by_fips`. */
  function FoundLocIds(found: seq<(string, nat)>): seq<nat> {
    PyDicts.Values(PyDicts.FromItems(found))
  }

  /**
   * The version table once the locality's old versions are closed and a new
   * version per locality is inserted.
   */
  function Replaced(versions: seq<GeoSetVersion>, layerId: nat, found: seq<(string, nat)>, now: Time, metaId: nat): seq<GeoSetVersion> {
    Deprecate(versions, layerId, LocIds(found), now) + NewVersions(|versions|, layerId, FoundLocIds(found), now, metaId)
  }

  /** At most one current version per layer and locality. */
  predicate OneCurrent(versions: seq<GeoSetVersion>) {
    forall i, j :: (0 <= i < j < |versions| && versions[i].validTo.None? && versions[j].validTo.None?
      && versions[i].layerId == versions[j].layerId) ==> versions[i].locId != versions[j].locId
  }

  predicate DistinctNats(xs: seq<nat>) {
    forall i, j :: 0 <= i < j < |xs| ==> xs[i] != xs[j]
  }

  /** Every locality of `loc_ids_by_fips` was found by the query. */
  lemma FoundLocIdsFound(found: seq<(string, nat)>, m: nat)
    requires m < |FoundLocIds(found)|
    ensures FoundLocIds(found)[m] in LocIds(found)
  {
    var d := PyDicts.FromItems(found);
    PyDicts.UniqueKeyGet(d, m);
    PyDicts.FromItemsGet(found, d[m].0);
    var v := PyDicts.Get(found, d[m].0).value;
    var i :| 0 <= i < |found| && found[i] == (d[m].0, v) && forall j :: i < j < |found| ==> found[j].0 != d[m].0;
    assert found[i] in found;
  }

  /**
   * The replacement keeps at most one current version per layer and
   * locality, provided the paths found name distinct localities: every
   * version it inserts is current, and it closes every current one of the
   * localities it inserts for.
   */
  lemma ReplacedKeepsOneCurrent(versions: seq<GeoSetVersion>, layerId: nat, found: seq<(string, nat)>, now: Time, metaId: nat)
    requires OneCurrent(versions) && DistinctNats(FoundLocIds(found))
    ensures OneCurrent(Replaced(versions, layerId, found, now, metaId))
  {
    var locs := LocIds(found);
    var old_ := Deprecate(versions, layerId, locs, now);
    var added := NewVersions(|versions|, layerId, FoundLocIds(found), now, metaId);
    var r := Replaced(versions, layerId, found, now, metaId);
    assert r == old_ + added;
    forall i, j | 0 <= i < j < |r| && r[i].validTo.None? && r[j].validTo.None? && r[i].layerId == r[j].layerId
      ensures r[i].locId != r[j].locId
    {
      if j < |versions| {
        assert r[i] == old_[i] && r[j] == old_[j];
      } else if i < |versions| {
        var m := j - |versions|;
        assert r[j] == added[m];
        FoundLocIdsFound(found, m);
        assert r[i] == old_[i];
      } else {
        assert r[i] == added[i - |versions|] && r[j] == added[j - |versions|];
      }
    }
  }

  /**
   * The replacement keeps history: an old version changes only by ending at
   * `now`, a closed one not at all, and it ends exactly when it was current
   * and belongs to the layer and a locality found; the new versions are
   * current from `now`.
   */
  lemma ReplacedKeepsHistory(versions: seq<GeoSetVersion>, layerId: nat, found: seq<(string, nat)>, now: Time, metaId: nat)
    ensures var r := Replaced(versions, layerId, found, now, metaId);
      |r| == |versions| + |FoundLocIds(found)|
      && (forall i :: 0 <= i < |versions| ==> r[i].(validTo := versions[i].validTo) == versions[i])
      && (forall i :: 0 <= i < |versions| ==> (r[i].validTo.None? <==>
            versions[i].validTo.None? && !(versions[i].layerId == layerId && versions[i].locId in LocIds(found))))
      && (forall i :: 0 <= i < |versions| && r[i] != versions[i] ==> r[i].validTo == Some(now))
      && (forall i :: |versions| <= i < |r| ==>
            r[i].validFrom == now && r[i].validTo.None? && r[i].layerId == layerId && r[i].setVersionId == i)
  {
    var r := Replaced(versions, layerId, found, now, metaId);
    assert forall i :: 0 <= i < |versions| ==> r[i] == Deprecate(versions, layerId, LocIds(found), now)[i];
  }

  // Members

  /** `loc_id_to_set_id`: the set version inserted for each locality. */
  function SetIdPairs(inserted: seq<GeoSetVersion>): (r: seq<(nat, nat)>)
    ensures |r| == |inserted| && forall i :: 0 <= i < |inserted| ==> r[i] == (inserted[i].locId, inserted[i].setVersionId)
  {
    seq(|inserted|, i requires 0 <= i < |inserted| => (inserted[i].locId, inserted[i].setVersionId))
  }

  /** The set version for a locality path: `loc_id_to_set_id[loc_ids_by_fips[path]]`, a missing key raising. */
  function SetIdFor(path: string, found: seq<(string, nat)>, inserted: seq<GeoSetVersion>): Result<nat, GeoError> {
    match PyDicts.Get(found, path)
    case None => Failure(MissingLocality(path))
    case Some(loc) =>
      match PyDicts.Get(SetIdPairs(inserted), loc)
      case None => Failure(MissingLocality(path))
      case Some(setId) => Success(setId)
  }

  /** Every locality found gets a new version: its `loc_id` has a set ID. */
  lemma InsertedForFound(path: string, found: seq<(string, nat)>, inserted: seq<GeoSetVersion>)
    requires |inserted| == |FoundLocIds(found)|
    requires forall m :: 0 <= m < |inserted| ==> inserted[m].locId == FoundLocIds(found)[m]
    requires PyDicts.Get(found, path).Some?
    ensures PyDicts.Get(SetIdPairs(inserted), PyDicts.Get(found, path).value).Some?
  {
    var d := PyDicts.FromItems(found);
    PyDicts.FromItemsGet(found, path);
    var v := PyDicts.Get(d, path).value;
    var m :| 0 <= m < |d| && d[m] == (path, v) && forall j :: m < j < |d| ==> d[j].0 != path;
    assert SetIdPairs(inserted)[m].0 == v;
  }

  /**
   * Every locality found gets a set version from the insert, so a set ID is
   * missing exactly when the locality is, and it is the ID of a version
   * inserted for that locality.
   */
  lemma SetIdForFound(path: string, found: seq<(string, nat)>, start: nat, layerId: nat, now: Time, metaId: nat)
    ensures var inserted := NewVersions(start, layerId, FoundLocIds(found), now, metaId);
      var r := SetIdFor(path, found, inserted);
      (r.Success? <==> PyDicts.Get(found, path).Some?)
      && (r.Success? ==> exists m :: (0 <= m < |inserted| && inserted[m].setVersionId == r.value
            && inserted[m].locId == PyDicts.Get(found, path).value))
  {
    var inserted := NewVersions(start, layerId, FoundLocIds(found), now, metaId);
    var g := PyDicts.Get(found, path);
    if g.Some? {
      InsertedForFound(path, found, inserted);
      var pairs := SetIdPairs(inserted);
      var s := PyDicts.Get(pairs, g.value).value;
      var k :| 0 <= k < |pairs| && pairs[k] == (g.value, s) && forall j :: k < j < |pairs| ==> pairs[j].0 != g.value;
      assert SetIdFor(path, found, inserted) == Success(s);
      assert inserted[k].setVersionId == s && inserted[k].locId == g.value;
    }
  }

  /** The root set's members: every geography the import created. */
  function RootMembers(setId: nat, created: seq<(string, nat)>): (r: seq<GeoSetMember>)
    ensures |r| == |created| && forall i :: 0 <= i < |created| ==> r[i] == GeoSetMember(setId, created[i].1)
  {
    seq(|created|, i requires 0 <= i < |created| => GeoSetMember(setId, created[i].1))
  }

  /** The members a county's paths give its set: `geos_by_path[path]` for each, a missing path raising. */
  function PathMembers(setId: nat, paths: seq<string>, created: seq<(string, nat)>): (r: Result<seq<GeoSetMember>, GeoError>)
    ensures r.Success? <==> forall j :: 0 <= j < |paths| ==> PyDicts.Get(created, paths[j]).Some?
    ensures r.Success? ==> |r.value| == |paths| && forall j :: 0 <= j < |paths| ==>
      r.value[j] == GeoSetMember(setId, PyDicts.Get(created, paths[j]).value)
    decreases |paths|
  {
    if |paths| == 0 then Success([])
    else
      var n := |paths| - 1;
      assert forall j :: 0 <= j < n ==> paths[..n][j] == paths[j];
      var before :- PathMembers(setId, paths[..n], created);
      match PyDicts.Get(created, paths[n])
      case None => Failure(MissingGeography(paths[n]))
      case Some(geoId) => Success(before + [GeoSetMember(setId, geoId)])
  }

  lemma {:induction false} PathFailurePersists(setId: nat, paths: seq<string>, created: seq<(string, nat)>, k: nat)
    requires k <= |paths| && PathMembers(setId, paths[..k], created).Failure?
    ensures PathMembers(setId, paths, created) == PathMembers(setId, paths[..k], created)
    decreases |paths| - k
  {
    if k < |paths| {
      assert paths[..k + 1][..k] == paths[..k];
      PathFailurePersists(setId, paths, created, k + 1);
    } else {
      assert paths[..k] == paths;
    }
  }

  /** One county's members: its set version, then its geographies. */
  function OneCountyMembers(fips: string, county: (string, seq<string>), found: seq<(string, nat)>,
                            inserted: seq<GeoSetVersion>, created: seq<(string, nat)>): Result<seq<GeoSetMember>, GeoError> {
    var setId :- SetIdFor(fips + county.0, found, inserted);
    PathMembers(setId, county.1, created)
  }

  /** The county loop: the members of every county in turn, stopping at the first missing key. */
  function CountyMembers(fips: string, byCounty: seq<(string, seq<string>)>, found: seq<(string, nat)>,
                         inserted: seq<GeoSetVersion>, created: seq<(string, nat)>): (r: Result<seq<GeoSetMember>, GeoError>)
    ensures r.Success? <==> forall c :: 0 <= c < |byCounty| ==> OneCountyMembers(fips, byCounty[c], found, inserted, created).Success?
    decreases |byCounty|
  {
    if |byCounty| == 0 then Success([])
    else
      var n := |byCounty| - 1;
      assert forall c :: 0 <= c < n ==> byCounty[..n][c] == byCounty[c];
      var before :- CountyMembers(fips, byCounty[..n], found, inserted, created);
      var more :- OneCountyMembers(fips, byCounty[n], found, inserted, created);
      Success(before + more)
  }

  lemma {:induction false} CountyFailurePersists(fips: string, byCounty: seq<(string, seq<string>)>, found: seq<(string, nat)>,
                                                 inserted: seq<GeoSetVersion>, created: seq<(string, nat)>, k: nat)
    requires k <= |byCounty| && CountyMembers(fips, byCounty[..k], found, inserted, created).Failure?
    ensures CountyMembers(fips, byCounty, found, inserted, created) == CountyMembers(fips, byCounty[..k], found, inserted, created)
    decreases |byCounty| - k
  {
    if k < |byCounty| {
      assert byCounty[..k + 1][..k] == byCounty[..k];
      CountyFailurePersists(fips, byCounty, found, inserted, created, k + 1);
    } else {
      assert byCounty[..k] == byCounty;
    }
  }

  /** The members the import inserts: the root set's, then the counties'. */
  function MembersSpec(fips: string, byCounty: seq<(string, seq<string>)>, found: seq<(string, nat)>,
                       inserted: seq<GeoSetVersion>, created: seq<(string, nat)>): Result<seq<GeoSetMember>, GeoError> {
    var rootSet :- SetIdFor(fips, found, inserted);
    var counties :- CountyMembers(fips, byCounty, found, inserted, created);
    Success(RootMembers(rootSet, created) + counties)
  }

  /**
   * The members are inserted exactly when the state and each county have a
   * locality and every county geography was created; the root set then
   * holds every created geography, in order.
   */
  lemma MembersSucceedIff(fips: string, byCounty: seq<(string, seq<string>)>, found: seq<(string, nat)>,
                          created: seq<(string, nat)>, start: nat, layerId: nat, now: Time, metaId: nat)
    ensures var inserted := NewVersions(start, layerId, FoundLocIds(found), now, metaId);
      var r := MembersSpec(fips, byCounty, found, inserted, created);
      (r.Success? <==>
        PyDicts.Get(found, fips).Some?
        && (forall c :: 0 <= c < |byCounty| ==> PyDicts.Get(found, fips + byCounty[c].0).Some?)
        && (forall c, j :: 0 <= c < |byCounty| && 0 <= j < |byCounty[c].1| ==> PyDicts.Get(created, byCounty[c].1[j]).Some?))
      && (r.Success? ==> r.value[..|created|] == RootMembers(SetIdFor(fips, found, inserted).value, created))
  {
    var inserted := NewVersions(start, layerId, FoundLocIds(found), now, metaId);
    SetIdForFound(fips, found, start, layerId, now, metaId);
    CountiesSucceedIff(fips, byCounty, found, inserted, created, start, layerId, now, metaId);
  }

  /** The county loop succeeds exactly when each county has a locality and all its geographies were created. */
  lemma CountiesSucceedIff(fips: string, byCounty: seq<(string, seq<string>)>, found: seq<(string, nat)>,
                           inserted: seq<GeoSetVersion>, created: seq<(string, nat)>,
                           start: nat, layerId: nat, now: Time, metaId: nat)
    requires inserted == NewVersions(start, layerId, FoundLocIds(found), now, metaId)
    ensures CountyMembers(fips, byCounty, found, inserted, created).Success? <==>
      (forall c :: 0 <= c < |byCounty| ==> PyDicts.Get(found, fips + byCounty[c].0).Some?)
      && (forall c, j :: 0 <= c < |byCounty| && 0 <= j < |byCounty[c].1| ==> PyDicts.Get(created, byCounty[c].1[j]).Some?)
  {
    forall c | 0 <= c < |byCounty|
      ensures OneCountyMembers(fips, byCounty[c], found, inserted, created).Success? <==>
        PyDicts.Get(found, fips + byCounty[c].0).Some?
        && forall j :: 0 <= j < |byCounty[c].1| ==> PyDicts.Get(created, byCounty[c].1[j]).Some?
    {
      SetIdForFound(fips + byCounty[c].0, found, start, layerId, now, metaId);
    }
  }

  /** The loop over `geos_by_county`, appending each county's members. */
  method CollectCountyMembers(fips: string, byCounty: seq<(string, seq<string>)>, found: seq<(string, nat)>,
                              inserted: seq<GeoSetVersion>, created: seq<(string, nat)>)
    returns (r: Result<seq<GeoSetMember>, GeoError>)
    ensures r == CountyMembers(fips, byCounty, found, inserted, created)
  {
    var acc: seq<GeoSetMember> := [];
    var i := 0;
    while i < |byCounty|
      invariant 0 <= i <= |byCounty|
      invariant CountyMembers(fips, byCounty[..i], found, inserted, created) == Success(acc)
    {
      assert byCounty[..i + 1][..i] == byCounty[..i];
      var setId := SetIdFor(fips + byCounty[i].0, found, inserted);
      if setId.Failure? {
        CountyFailurePersists(fips, byCounty, found, inserted, created, i + 1);
        return Failure(setId.error);
      }
      var more := CollectPathMembers(setId.value, byCounty[i].1, created);
      if more.Failure? {
        CountyFailurePersists(fips, byCounty, found, inserted, created, i + 1);
        return Failure(more.error);
      }
      acc := acc + more.value;
      i := i + 1;
    }
    assert byCounty[..i] == byCounty;
    return Success(acc);
  }

  /** The inner loop over a county's geography paths. */
  method CollectPathMembers(setId: nat, paths: seq<string>, created: seq<(string, nat)>)
    returns (r: Result<seq<GeoSetMember>, GeoError>)
    ensures r == PathMembers(setId, paths, created)
  {
    var acc: seq<GeoSetMember> := [];
    var j := 0;
    while j < |paths|
      invariant 0 <= j <= |paths|
      invariant PathMembers(setId, paths[..j], created) == Success(acc)
    {
      assert paths[..j + 1][..j] == paths[..j];
      var geo := PyDicts.Get(created, paths[j]);
      if geo.None? {
        PathFailurePersists(setId, paths, created, j + 1);
        return Failure(MissingGeography(paths[j]));
      }
      acc := acc + [GeoSetMember(setId, geo.value)];
      j := j + 1;
    }
    assert paths[..j] == paths;
    return Success(acc);
  }

  /** The GeoSet tables of the database, as the bulk import updates them. */
  class GeoSetTables {
    var versions: seq<GeoSetVersion>
    var members: seq<GeoSetMember>

    constructor (versions: seq<GeoSetVersion>, members: seq<GeoSetMember>)
      ensures this.versions == versions && this.members == members
    {
      this.versions := versions;
      this.members := members;
    }

    /**
     * The GeoSet part of the bulk import: finds the state's and the counties'
     * localities, closes their current versions of the layer, inserts new
     * ones, and inserts the members, raising on a missing locality or
     * geography (after the versions were written; the surrounding
     * transaction then rolls back).
     */
    method ReplaceGeoSets(layerId: nat, fips: string, byCounty: seq<(string, seq<string>)>,
                          refs: seq<(string, nat)>, created: seq<(string, nat)>, now: Time, metaId: nat)
      returns (outcome: Outcome<GeoError>)
      modifies this
      ensures var found := FoundLocalities(refs, FullFips(fips, PyDicts.Keys(byCounty)));
        versions == Replaced(old(versions), layerId, found, now, metaId)
      ensures var found := FoundLocalities(refs, FullFips(fips, PyDicts.Keys(byCounty)));
        var inserted := NewVersions(|old(versions)|, layerId, FoundLocIds(found), now, metaId);
        var expected := MembersSpec(fips, byCounty, found, inserted, created);
        if expected.Success? then outcome == Pass && members == old(members) + expected.value
        else outcome == Fail(expected.error) && members == old(members)
    {
      var found := FoundLocalities(refs, FullFips(fips, PyDicts.Keys(byCounty)));
      var inserted := NewVersions(|versions|, layerId, FoundLocIds(found), now, metaId);
      versions := Deprecate(versions, layerId, LocIds(found), now) + inserted;

      var rootSet := SetIdFor(fips, found, inserted);
      if rootSet.Failure? {
        return Fail(rootSet.error);
      }
      var countyMembers := CollectCountyMembers(fips, byCounty, found, inserted, created);
      if countyMembers.Failure? {
        return Fail(countyMembers.error);
      }
      members := members + (RootMembers(rootSet.value, created) + countyMembers.value);
      return Pass;
    }
  }
}
