/**
 * `load_tables`, the import of one Census P.L. 94-171 table (P1 to P4) for
 * the geographies of one level: which API query and which identifying
 * columns a level uses, how a row's geography ID is composed from them, which
 * columns of the table are loaded (through the aliases of the table's column
 * set), and the count check of the bulk mode. The HTTP request and the client
 * calls are not modelled; the rows of the response are inputs.
 */
module PlPopTables {
  import opened Wrappers
  import opened Strings
  import PlConfig
  import PlGeo
  import PyDicts
  import ColumnValues

  /** `TABLES` */
  const Tables: seq<string> := ["P1", "P2", "P3", "P4"]

  /** The level tuples this script defines for itself. */
  const CentralSpineLevels: seq<string> := ["block", "bg", "tract", "county", "state"]
  const AuxiliaryLevels: seq<string> := ["vtd", "place", "cousub", "aiannh"]
  const Levels: seq<string> := CentralSpineLevels + AuxiliaryLevels

  /** The script's own `LEVELS` is the one of the configuration: the spine levels, then the auxiliary ones. */
  lemma LevelsAgree()
    ensures Levels == PlConfig.Levels && |Levels| == 9
    ensures AuxiliaryLevels == PlConfig.AuxiliaryLevels && CentralSpineLevels == PlConfig.CentralSpineLevels
  {
  }

  /** What `load_tables` can raise. */
  datatype TablesError =
    | FipsRequired(level: string)
    | UnknownLevel
    | MissingIdColumn(name: string)
    | TooFewGeographies(expected: nat, found: nat)
    | Load(error: ColumnValues.LoadError)

  /** The geography clauses of the API query (`in` is absent for a state). */
  datatype Query = Query(inClause: Option<string>, forClause: string)

  /** The AIANNH geography name the Census API uses. */
  const AiannhArea: string := "american indian area/alaska native area/hawaiian home land (or part)"

  /** The identifying columns of each level (none for an unknown level). */
  function IdColumns(level: string): seq<string> {
    if level == "block" then ["state", "county", "tract", "block"]
    else if level == "bg" then ["state", "county", "tract", "block group"]
    else if level == "tract" then ["state", "county", "tract"]
    else if level == "county" then ["state", "county"]
    else if level == "state" then ["state"]
    else if level == "vtd" then ["state", "county", "voting district"]
    else if level == "place" then ["state", "place"]
    else if level == "cousub" then ["state", "county", "county subdivision"]
    else if level == "aiannh" then [AiannhArea]
    else []
  }

  /** The query and the identifying columns of each level; an unknown level raises. */
  function LevelQuery(level: string, fips: string): (r: Result<(Query, seq<string>), TablesError>)
    ensures r.Success? <==> level in Levels
    ensures r.Failure? ==> r.error == UnknownLevel
    ensures r.Success? ==> r.value.1 == IdColumns(level) && |r.value.1| > 0 && (r.value.1[0] == "state" <==> level != "aiannh")
    ensures r.Success? && level != "state" ==>
      r.value.0.forClause == r.value.1[|r.value.1| - 1] + ":*" && r.value.0.inClause.Some?
      && StartsWith(r.value.0.inClause.value, "state:" + fips)
    ensures level == "state" ==> r == Success((Query(None, "state:" + fips), ["state"]))
  {
    var within := Some("state:" + fips);
    var counties := Some("state:" + fips + " county:*");
    if level == "block" then Success((Query(counties, "block:*"), IdColumns(level)))
    else if level == "bg" then Success((Query(counties, "block group:*"), IdColumns(level)))
    else if level == "tract" then Success((Query(within, "tract:*"), IdColumns(level)))
    else if level == "county" then Success((Query(within, "county:*"), IdColumns(level)))
    else if level == "state" then Success((Query(None, "state:" + fips), IdColumns(level)))
    else if level == "vtd" then Success((Query(within, "voting district:*"), IdColumns(level)))
    else if level == "place" then Success((Query(within, "place:*"), IdColumns(level)))
    else if level == "cousub" then Success((Query(within, "county subdivision:*"), IdColumns(level)))
    else if level == "aiannh" then Success((Query(within, AiannhArea + ":*"), IdColumns(level)))
    else Failure(UnknownLevel)
  }

  /**
   * The identifying columns of the spine levels nest: each level's columns
   * start with those of the level above it, so a geography's ID starts with
   * the ID of the geography containing it.
   */
  lemma SpineIdColumnsNest()
    ensures IdColumns("state") <= IdColumns("county") <= IdColumns("tract") <= IdColumns("block")
    ensures IdColumns("tract") <= IdColumns("bg")
    ensures IdColumns("county") <= IdColumns("cousub") && IdColumns("county") <= IdColumns("vtd")
    ensures IdColumns("state") <= IdColumns("place")
  {
  }

  /** `"".join(...)`: the parts one after the other. */
  function Concat(parts: seq<string>): string
    decreases |parts|
  {
    if |parts| == 0 then "" else parts[0] + Concat(parts[1..])
  }

  /** Concatenation distributes over appended parts, so nested columns give nested IDs. */
  lemma {:induction false} ConcatAppend(a: seq<string>, b: seq<string>)
    ensures Concat(a + b) == Concat(a) + Concat(b)
    decreases |a|
  {
    if |a| > 0 {
      assert (a + b)[1..] == a[1..] + b;
      ConcatAppend(a[1..], b);
    } else {
      assert a + b == b;
    }
  }

  /** The ID a table row gets from its concatenated identifying columns: prefixed on auxiliary levels, and suffixed with the state on AIANNH. */
  function TableId(level: string, fips: string, id: string): string {
    if level in AuxiliaryLevels then
      if level == "aiannh" then level + ":" + id + ":fips" + fips else level + ":" + id
    else id
  }

  /**
   * A table row lands on the geography `load_geo` created: outside AIANNH its
   * ID is the one the layer gave the same GEOID, and for AIANNH the table's
   * untagged code gives the ID of every tagged GEOID of that area.
   */
  lemma TableIdMatchesLayerId(level: string, fips: string, geoid: string)
    requires level in Levels
    ensures level != "aiannh" ==> TableId(level, fips, geoid) == PlGeo.RewriteId(level, fips, geoid)
    ensures level == "aiannh" ==>
      TableId(level, fips, RStripChars(geoid, PlGeo.TrustResTags)) == PlGeo.RewriteId(level, fips, geoid)
  {
    LevelsAgree();
  }

  /** An AIANNH code that ends in no tag (the API's codes end in a digit) is its own untagged form. */
  lemma UntaggedCodeIsStripped(code: string)
    requires |code| > 0 && code[|code| - 1] !in PlGeo.TrustResTags
    ensures RStripChars(code, PlGeo.TrustResTags) == code
  {
  }

  /** The position of the first column named `name`. */
  function ColumnIndex(header: seq<string>, name: string): (r: Option<nat>)
    ensures r.Some? <==> name in header
    ensures r.Some? ==> r.value < |header| && header[r.value] == name
    decreases |header|
  {
    if |header| == 0 then None
    else if header[0] == name then Some(0)
    else match ColumnIndex(header[1..], name)
      case None => None
      case Some(i) => Some(i + 1)
  }

  /** The first identifying column the response lacks (selecting it raises). */
  function FirstMissingColumn(idCols: seq<string>, header: seq<string>): (r: Option<string>)
    ensures r.None? <==> forall c :: c in idCols ==> c in header
    ensures r.Some? ==> r.value in idCols && r.value !in header
    decreases |idCols|
  {
    if |idCols| == 0 then None
    else if idCols[0] !in header then Some(idCols[0])
    else FirstMissingColumn(idCols[1..], header)
  }

  /** A record's identifying values, in the order of the identifying columns. */
  function IdValues(idCols: seq<string>, header: seq<string>, record: seq<string>): (r: seq<string>)
    requires |record| == |header| && forall c :: c in idCols ==> c in header
    ensures |r| == |idCols|
    ensures forall k :: 0 <= k < |idCols| ==> r[k] == record[ColumnIndex(header, idCols[k]).value]
  {
    seq(|idCols|, k requires 0 <= k < |idCols| => record[ColumnIndex(header, idCols[k]).value])
  }

  /**
   * The `id` column: for every record of the response, its identifying
   * values concatenated and rewritten for the level.
   */
  function RowIds(level: string, fips: string, idCols: seq<string>, header: seq<string>, records: seq<seq<string>>)
    : (r: Result<seq<string>, TablesError>)
    requires forall i :: 0 <= i < |records| ==> |records[i]| == |header|
    ensures r.Failure? <==> exists c :: c in idCols && c !in header
    ensures r.Failure? ==> r.error.MissingIdColumn? && r.error.name in idCols && r.error.name !in header
    ensures r.Success? ==> |r.value| == |records| && forall i :: 0 <= i < |records| ==>
      r.value[i] == TableId(level, fips, Concat(IdValues(idCols, header, records[i])))
  {
    match FirstMissingColumn(idCols, header)
    case Some(c) => Failure(MissingIdColumn(c))
    case None =>
      Success(seq(|records|, i requires 0 <= i < |records| => TableId(level, fips, Concat(IdValues(idCols, header, records[i])))))
  }

  /**
   * A block's ID starts with the ID of its tract, and a tract's with the ID
   * of its county, read from the same record.
   */
  lemma NestedRowIds(header: seq<string>, record: seq<string>, child: string, parent: string)
    requires |record| == |header|
    requires (child, parent) in {("block", "tract"), ("bg", "tract"), ("tract", "county"), ("county", "state")}
    requires forall c :: c in IdColumns(child) ==> c in header
    ensures forall c :: c in IdColumns(parent) ==> c in header
    ensures StartsWith(Concat(IdValues(IdColumns(child), header, record)),
                       Concat(IdValues(IdColumns(parent), header, record)))
  {
    var cc := IdColumns(child);
    var pc := IdColumns(parent);
    assert cc[..|pc|] == pc;
    var cv := IdValues(cc, header, record);
    var pv := IdValues(pc, header, record);
    assert cv == pv + cv[|pc|..];
    ConcatAppend(pv, cv[|pc|..]);
  }

  // ---------------------------------------------------------------------------
  // Columns

  /** A column of the table's column set, with its aliases. */
  datatype TableColumn = TableColumn(path: string, aliases: seq<string>)

  /** One column's (alias, column) pairs. */
  function ColumnAliasItems(col: TableColumn): (r: seq<(string, TableColumn)>)
    ensures |r| == |col.aliases| && forall j :: 0 <= j < |col.aliases| ==> r[j] == (col.aliases[j], col)
  {
    seq(|col.aliases|, j requires 0 <= j < |col.aliases| => (col.aliases[j], col))
  }

  /** Every (alias, column) pair of the column set, column by column. */
  function AliasItems(cols: seq<TableColumn>): seq<(string, TableColumn)>
    decreases |cols|
  {
    if |cols| == 0 then [] else AliasItems(cols[..|cols| - 1]) + ColumnAliasItems(cols[|cols| - 1])
  }

  /** `col_aliases`: the nested loop assigning every alias of every column in turn. */
  method BuildAliasMap(cols: seq<TableColumn>) returns (d: seq<(string, TableColumn)>)
    ensures d == PyDicts.FromItems(AliasItems(cols))
  {
    d := [];
    var i := 0;
    while i < |cols|
      invariant 0 <= i <= |cols|
      invariant d == PyDicts.FromItems(AliasItems(cols[..i]))
    {
      assert cols[..i + 1][..i] == cols[..i];
      d := AddAliases(d, AliasItems(cols[..i]), cols[i]);
      i := i + 1;
    }
    assert cols[..i] == cols;
  }

  /** The inner loop: every alias of one column now names it. */
  method AddAliases(d0: seq<(string, TableColumn)>, items: seq<(string, TableColumn)>, col: TableColumn)
    returns (d: seq<(string, TableColumn)>)
    requires d0 == PyDicts.FromItems(items)
    ensures d == PyDicts.FromItems(items + ColumnAliasItems(col))
  {
    d := d0;
    var j := 0;
    assert items + ColumnAliasItems(col)[..0] == items;
    while j < |col.aliases|
      invariant 0 <= j <= |col.aliases|
      invariant d == PyDicts.FromItems(items + ColumnAliasItems(col)[..j])
    {
      AliasItemsStep(items, col, j);
      d := PyDicts.Put(d, col.aliases[j], col);
      j := j + 1;
    }
    assert ColumnAliasItems(col)[..j] == ColumnAliasItems(col);
  }

  /** Assigning the `j`-th alias extends the dict of the pairs so far by one pair. */
  lemma AliasItemsStep(items: seq<(string, TableColumn)>, col: TableColumn, j: nat)
    requires j < |col.aliases|
    ensures PyDicts.FromItems(items + ColumnAliasItems(col)[..j + 1])
      == PyDicts.Put(PyDicts.FromItems(items + ColumnAliasItems(col)[..j]), col.aliases[j], col)
  {
    var before := items + ColumnAliasItems(col)[..j];
    assert ColumnAliasItems(col)[..j + 1] == ColumnAliasItems(col)[..j] + [(col.aliases[j], col)];
    assert items + ColumnAliasItems(col)[..j + 1] == before + [(col.aliases[j], col)];
    PyDicts.FromItemsSnoc(before, (col.aliases[j], col));
  }

  /** The last column carrying `alias`. */
  function LastWithAlias(cols: seq<TableColumn>, alias: string): (r: Option<TableColumn>)
    ensures r.Some? ==> exists i :: (0 <= i < |cols| && cols[i] == r.value && alias in cols[i].aliases
      && forall j :: i < j < |cols| ==> alias !in cols[j].aliases)
    ensures r.None? ==> forall i :: 0 <= i < |cols| ==> alias !in cols[i].aliases
    decreases |cols|
  {
    if |cols| == 0 then None
    else
      var n := |cols| - 1;
      assert forall i :: 0 <= i < n ==> cols[..n][i] == cols[i];
      if alias in cols[n].aliases then Some(cols[n]) else LastWithAlias(cols[..n], alias)
  }

  /** A column's own pairs give it for each of its aliases, and nothing else. */
  lemma ColumnAliasGet(col: TableColumn, alias: string)
    ensures PyDicts.Get(ColumnAliasItems(col), alias) == if alias in col.aliases then Some(col) else None
  {
    var r := PyDicts.Get(ColumnAliasItems(col), alias);
    if alias in col.aliases {
      var j :| 0 <= j < |col.aliases| && col.aliases[j] == alias;
      assert ColumnAliasItems(col)[j].0 == alias;
    }
  }

  /** In the alias map, a shared alias names the last column that carries it. */
  lemma {:induction false} AliasMapLaterWins(cols: seq<TableColumn>, alias: string)
    ensures PyDicts.Get(PyDicts.FromItems(AliasItems(cols)), alias) == LastWithAlias(cols, alias)
    decreases |cols|
  {
    PyDicts.FromItemsGet(AliasItems(cols), alias);
    AliasItemsGet(cols, alias);
  }

  lemma {:induction false} AliasItemsGet(cols: seq<TableColumn>, alias: string)
    ensures PyDicts.Get(AliasItems(cols), alias) == LastWithAlias(cols, alias)
    decreases |cols|
  {
    if |cols| > 0 {
      var n := |cols| - 1;
      AliasItemsGet(cols[..n], alias);
      PyDicts.GetAppend(AliasItems(cols[..n]), ColumnAliasItems(cols[n]), alias);
      ColumnAliasGet(cols[n], alias);
    }
  }

  /** The data frame's column names, lowercased. */
  function LowerColumns(header: seq<string>): (r: seq<string>)
    ensures |r| == |header| && forall i :: 0 <= i < |header| ==> r[i] == Lower(header[i])
  {
    seq(|header|, i requires 0 <= i < |header| => Lower(header[i]))
  }

  /** `table_cols`: the aliases of the map that name a column of the data frame. */
  function LoadedColumns(aliasMap: seq<(string, TableColumn)>, dfColumns: seq<string>): seq<(string, TableColumn)> {
    PyDicts.Filter(aliasMap, set c | c in dfColumns)
  }

  /**
   * The columns loaded are exactly the aliases found among the response's
   * lowercased column names, each with the last column of the set carrying
   * it.
   */
  lemma LoadedColumnsExactly(cols: seq<TableColumn>, header: seq<string>, alias: string)
    ensures PyDicts.Get(LoadedColumns(PyDicts.FromItems(AliasItems(cols)), LowerColumns(header)), alias)
      == if alias in LowerColumns(header) then LastWithAlias(cols, alias) else None
  {
    PyDicts.FilterGet(PyDicts.FromItems(AliasItems(cols)), (set c | c in LowerColumns(header)), alias);
    AliasMapLaterWins(cols, alias);
  }

  // ---------------------------------------------------------------------------
  // Checks before and around the import

  /**
   * The start of `load_tables`: an unpublished dataset ends the script, a
   * missing state code raises, and otherwise the level's query is chosen.
   */
  function LoadTablesStart(fips: Option<string>, level: string, year: string)
    : Result<Option<(Query, seq<string>)>, TablesError>
  {
    if fips.Some? && PlConfig.IsMissing(fips.value, level, year) then Success(None)
    else if fips.None? then Failure(FipsRequired(level))
    else
      var q :- LevelQuery(level, fips.value);
      Success(Some(q))
  }

  /** Exactly one of the three happens, the unpublished check first and the state code second. */
  lemma LoadTablesStartCases(fips: Option<string>, level: string, year: string)
    ensures LoadTablesStart(fips, level, year) == Success(None) <==> fips.Some? && PlConfig.IsMissing(fips.value, level, year)
    ensures LoadTablesStart(fips, level, year) == Failure(FipsRequired(level)) <==> fips.None?
    ensures (LoadTablesStart(fips, level, year).Success? && LoadTablesStart(fips, level, year).value.Some?)
      <==> fips.Some? && !PlConfig.IsMissing(fips.value, level, year) && level in Levels
  {
  }

  /** `geos_by_path`: the geographies found, by path. */
  function GeosByPath(geographies: seq<ColumnValues.Geography>): map<string, ColumnValues.Geography> {
    PyDicts.ToMap(seq(|geographies|, i requires 0 <= i < |geographies| => (geographies[i].fullPath, geographies[i])))
  }

  /**
   * The bulk import of the table: fewer geographies found than rows in the
   * frame raises before anything is written; otherwise the values are
   * loaded.
   */
  function BulkLoad(store: seq<ColumnValues.ColumnValue>, geographies: seq<ColumnValues.Geography>,
                    cols: seq<(string, ColumnValues.DataColumn)>, df: ColumnValues.DataFrame, metaId: nat,
                    now: ColumnValues.Time): Result<seq<ColumnValues.ColumnValue>, TablesError>
    requires df.Valid()
  {
    if |geographies| < |df.index| then Failure(TooFewGeographies(|df.index|, |geographies|))
    else
      match ColumnValues.GerryLoad(store, cols, GeosByPath(geographies), df, metaId, now)
      case Failure(e) => Failure(Load(e))
      case Success(values) => Success(values)
  }

  /** The paths of a sequence of geographies. */
  function Paths(geographies: seq<ColumnValues.Geography>): (r: set<string>)
    ensures forall p :: p in r <==> exists i :: 0 <= i < |geographies| && geographies[i].fullPath == p
  {
    set i | 0 <= i < |geographies| :: geographies[i].fullPath
  }

  /**
   * The count check never rejects a complete lookup: when the frame's index
   * entries are distinct and each has a geography, at least as many
   * geographies were found as there are rows.
   */
  lemma CompleteLookupPassesCount(geographies: seq<ColumnValues.Geography>, index: seq<string>)
    requires forall i, j :: 0 <= i < j < |index| ==> index[i] != index[j]
    requires forall i :: 0 <= i < |index| ==> index[i] in GeosByPath(geographies)
    ensures |geographies| >= |index|
  {
    var pairs := seq(|geographies|, i requires 0 <= i < |geographies| => (geographies[i].fullPath, geographies[i]));
    var wanted := set i | 0 <= i < |index| :: index[i];
    forall p | p in wanted ensures p in Paths(geographies) {
      var i :| 0 <= i < |index| && index[i] == p;
      var k :| 0 <= k < |pairs| && pairs[k].0 == p;
      assert geographies[k].fullPath == p;
    }
    SubsetCard(wanted, Paths(geographies));
    DistinctCard(index);
    PathsCard(geographies);
  }

  lemma SubsetCard(a: set<string>, b: set<string>)
    requires a <= b
    ensures |a| <= |b|
  {
    assert b == a + (b - a);
  }

  lemma {:induction false} DistinctCard(s: seq<string>)
    requires forall i, j :: 0 <= i < j < |s| ==> s[i] != s[j]
    ensures |set i | 0 <= i < |s| :: s[i]| == |s|
    decreases |s|
  {
    if |s| > 0 {
      var n := |s| - 1;
      DistinctCard(s[..n]);
      var before := set i | 0 <= i < n :: s[..n][i];
      assert (set i | 0 <= i < |s| :: s[i]) == before + {s[n]};
      assert s[n] !in before;
    }
  }

  lemma {:induction false} PathsCard(geographies: seq<ColumnValues.Geography>)
    ensures |Paths(geographies)| <= |geographies|
    decreases |geographies|
  {
    if |geographies| > 0 {
      var n := |geographies| - 1;
      PathsCard(geographies[..n]);
      assert Paths(geographies) == Paths(geographies[..n]) + {geographies[n].fullPath};
    }
  }

  /** A short count raises, whatever the columns and the store, before anything is written. */
  lemma ShortCountWritesNothing(store: seq<ColumnValues.ColumnValue>, geographies: seq<ColumnValues.Geography>,
                                cols: seq<(string, ColumnValues.DataColumn)>, df: ColumnValues.DataFrame, metaId: nat,
                                now: ColumnValues.Time)
    requires df.Valid()
    ensures BulkLoad(store, geographies, cols, df, metaId, now).Failure?
      && BulkLoad(store, geographies, cols, df, metaId, now).error.TooFewGeographies?
      <==> |geographies| < |df.index|
  {
  }
}
