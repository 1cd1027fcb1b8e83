# gerrydb-etl: a verified model of the direct bulk loader and the PL 94-171 bootstrap helpers

This project models in Dafny the core of the ETL scripts that fill a GerryDB
(and its predecessor, CherryDB) database with U.S. Census data.

- **The direct bulk column-value loader.** `DirectTransactionContext` exists in
  two historical variants, one in `gerrydb_etl/db.py` and one in
  `cherrydb_etl/db.py`. Each is a context manager. `__enter__` opens one
  transaction and one metadata row, and `__exit__` commits it or rolls it
  back. Inside it, `load_column_values` writes versioned column values:
  - it type-checks every cell;
  - it closes the current values it supersedes (`valid_to = now`);
  - it inserts one new current row per cell, with one `now` per call.

  The context managers are classes (`GerryDb.DirectTransactionContext`,
  `CherryDb.DirectTransactionContext`) over a `Sessions.Session`. A session
  keeps a durable snapshot, a working snapshot and a log of its calls. What
  one load does to the value table is stated as functions in `ColumnValues`:
  - `GerryLoad` and `CherryLoad`, the two variants as written;
  - `IntendedLoad`, what both were evidently meant to do.

  The lemmas there compare the three and prove the store's central
  invariant, at most one current value per (column, geography).
- **The shared helpers.** These are `pathify`, `ColumnConfig` and
  `TabularConfig.source_dtypes` (`EtlCommon`, `CherryCommon`), plus the PL
  configuration constants (`PlConfig`).
- **The PL 94-171 bootstrap helpers.**
  - `PopTableColumns`: Census label parsing, the three Census column-name
    formats, and the column and column-set plan of `create_columns`.
  - `PlGeo`: geography-ID construction per level, the AIANNH
    trust/reservation merge, and the GeoSet memberships and versions.
  - `PlPopTables`: per-level ID columns, ID composition, the alias map, and
    the bulk-mode count check.
  - `PlLocalities`: UTM zone to EPSG code, the modal zone, 2010 renames,
    legacy counties, and the county path/alias overrides.
- **Supporting modules.** `Strings` holds the Python `str` operations the
  scripts use (`lower`, `strip`, `replace`, `split`, `join`, `rstrip(chars)`,
  `zfill`). `PyDicts` holds Python dicts as insertion-ordered item
  sequences. `Wrappers` holds `Option` and `Result`.

The error messages of the type check are kept as the source writes them: its
suffix is a plain string, not an f-string, so every message ends with the
literal text "{geo.full_path}".

Python `dict` iteration order is insertion order. The model therefore keeps
dicts that are iterated as sequences of items (`cols`, the parsed labels, the
alias map), and keeps lookup-only tables as Dafny maps.

## Model

| member | source | states |
|---|---|---|
| EtlCommon.ColumnTypeToPyTypeDomain | gerrydb_etl/__init__.py:14-20 | Every column type except JSON has a Python type; JSON has none. |
| EtlCommon.PathifyHasNoSpace | gerrydb_etl/__init__.py:48-50 | A path produced by `pathify` never contains a space. |
| EtlCommon.PathifyHasNoDot | gerrydb_etl/__init__.py:48-50 | A path never contains a dot. |
| EtlCommon.PathifyNoLonger | gerrydb_etl/__init__.py:48-50 | A path is never longer than the name it came from. |
| EtlCommon.PathifyIgnoresOuterSpace | gerrydb_etl/__init__.py:48-50 | One whitespace character before or after the name does not change its path. |
| EtlCommon.PathifyIgnoresPadding | gerrydb_etl/__init__.py:48-50 | Whitespace padding of any length is stripped before spaces become dashes, so it never reaches the path. |
| EtlCommon.Pathify | gerrydb_etl/__init__.py:48-50 | Specification of `pathify`: strip, lowercase, spaces to dashes, dots dropped. Its properties are the `EtlCommon.Pathify…` lemmas above: no space, no dot, never longer, padding ignored. |
| EtlCommon.NewColumnConfig | gerrydb_etl/__init__.py:53-64 | A `ColumnConfig` built without aliases gets an empty alias list and keeps every other field as given. |
| EtlCommon.SourceDtypes | gerrydb_etl/__init__.py:76-82 | A source name is a key exactly when some column with that source has a type with a Python type. Which of those types the key maps to is stated by `EtlCommon.SourceDtypesLastWins`. |
| EtlCommon.SourceDtypesLastWins | gerrydb_etl/__init__.py:76-82 | When several columns share a source, the dict comprehension keeps the type of the last column that has a Python type. |
| EtlCommon.SourceDtypesOmitsJson | gerrydb_etl/__init__.py:79-81 | A source whose columns are all JSON gets no entry. |
| CherryCommon.PathifyMatchesGerry | cherrydb_etl/__init__.py:35-37 | The legacy `pathify` is the same function as the current one. |
| CherryCommon.PathifyProperties | cherrydb_etl/__init__.py:35-37 | The legacy path has no space and no dot, is no longer than its input, and ignores whitespace padding. |
| CherryCommon.Pathify | cherrydb_etl/__init__.py:35-37 | Specification of the legacy `pathify`. `CherryCommon.PathifyMatchesGerry` proves it equal to the current one, and `CherryCommon.PathifyProperties` states its properties. |
| PlConfig.LevelsLayout | gerrydb_etl/bootstrap/pl_config.py:4-18 | `LEVELS` is the five spine levels followed by the four auxiliary levels, with no repeats. |
| PlConfig.SpineAndAuxiliaryDisjoint | gerrydb_etl/bootstrap/pl_config.py:4-17 | No level is both a spine level and an auxiliary level. |
| PlConfig.MissingAreVtds | gerrydb_etl/bootstrap/pl_config.py:33-68 | Every missing dataset is a 2010 or 2020 VTD layer. |
| PlConfig.TerritoriesLackVtds | gerrydb_etl/bootstrap/pl_config.py:22-68 | Each outlying territory misses VTDs in both 2010 and 2020. |
| PlConfig.MissingIsFieldwise | gerrydb_etl/bootstrap/pl_config.py:29-68 | Membership of the named tuple compares all three fields: California's 2020 VTDs are missing, while its 2010 VTDs and 2020 blocks are not. |
| Sessions.FirstUserWithEmail | gerrydb_etl/db.py:44-45 | `.filter(User.email == email).first()`: there is no user exactly when the address is absent or matches no user; otherwise the first matching user is returned. |
| Sessions.Session.constructor | gerrydb_etl/db.py:37-38 | A new session sees the database as stored and has made no calls. |
| Sessions.Session.Begin | gerrydb_etl/db.py:39 | `begin()` changes no data and is logged. |
| Sessions.Session.Commit | gerrydb_etl/db.py:63-68 | A successful commit makes the working snapshot durable; a failing one leaves the durable snapshot and reports the failure. |
| Sessions.Session.Rollback | gerrydb_etl/db.py:62 | A rollback discards the transaction's work. |
| Sessions.Session.Close | gerrydb_etl/db.py:69 | `close()` changes no data and is logged. |
| Sessions.Session.CreateMeta | gerrydb_etl/db.py:47-52 | `obj_meta.create` appends exactly one metadata row, carrying the notes and the user's id, inside the transaction. |
| Sessions.Session.WriteValues | gerrydb_etl/db.py:135-147 | Replaces the value table inside the open transaction and changes nothing else. |
| GerryDb.RollbackConditions | gerrydb_etl/db.py:56-68 | The transaction is rolled back after an exception, on the dry-run flag, or when `GERRYDB_DRY_RUN` lowercases to "true" (so "TRUE" and "True" count). With no exception and no flag, an unset variable, "1" or "yes" lead to a commit. |
| GerryDb.RollsBack | gerrydb_etl/db.py:56-62 | Specification of the rollback test of `__exit__`. `GerryDb.RollbackConditions` states when it holds and `GerryDb.DirectTransactionContext.Exit` acts on it. |
| GerryDb.DirectTransactionContext.constructor | gerrydb_etl/db.py:24-33 | The dataclass fields are as given. |
| GerryDb.DirectTransactionContext.Enter | gerrydb_etl/db.py:35-54 | Fills only the fields that are still `None`: it opens a session when none was given, always calls `begin()`, takes the e-mail from the environment, finds the first user with it, and creates at most one metadata row carrying `notes`. Nothing becomes durable. |
| GerryDb.DirectTransactionContext.Exit | gerrydb_etl/db.py:56-69 | A rollback is followed by `close()`. A commit is attempted only when the rollback conditions fail; a failing commit is rolled back and re-raised without `close()`. The work becomes durable exactly when a commit succeeds. |
| GerryDb.DirectTransactionContext.LoadColumnValues | gerrydb_etl/db.py:71-147 | The outcome and the new value table are those of `GerryLoad`. On any error the table is unchanged. The loops are proved against `Collect` and `GerryStale`. |
| CherryDb.ExceptionIsCommitted | cherrydb_etl/db.py:55-64 | The legacy exit decides as the current one does when nothing was raised. When an exception was raised and no dry run is set, it commits where the current exit rolls back. |
| CherryDb.RollsBack | cherrydb_etl/db.py:55-57 | Specification of the legacy rollback test, which ignores the exception. `CherryDb.ExceptionIsCommitted` compares it with the current one. |
| CherryDb.DirectTransactionContext.constructor | cherrydb_etl/db.py:24-32 | The dataclass fields are as given. |
| CherryDb.DirectTransactionContext.Enter | cherrydb_etl/db.py:34-53 | Same as the current `__enter__`, reading `CHERRY_EMAIL`. |
| CherryDb.DirectTransactionContext.Exit | cherrydb_etl/db.py:55-64 | Rolls back only on the dry-run flag or `CHERRY_DRY_RUN`, and otherwise commits whether or not the block raised. A failing commit is rolled back and re-raised without `close()`. |
| CherryDb.DirectTransactionContext.LoadColumnValues | cherrydb_etl/db.py:66-138 | The outcome and the new value table are those of `CherryLoad`. On any error the table is unchanged. |
| ColumnValues.ToFloat | gerrydb_etl/db.py:93-95 | `float(value)` of an int is the float of the same number, and of a bool is 1.0 for `True` and 0.0 for `False`. |
| ColumnValues.CheckCell | gerrydb_etl/db.py:93-105 | An int or bool cell in a FLOAT column is stored as its float and flagged by nothing; every other cell is stored unchanged. A non-BOOL column flags exactly the values that do not fit its type, with that type's message. A BOOL column flags exactly the values that ARE booleans. |
| ColumnValues.IntendedCheckCell | gerrydb_etl/db.py:93-105 | The intended check promotes an int or bool cell of a FLOAT column to its float and stores every other cell unchanged. It flags exactly the values that do not fit the column's type. |
| ColumnValues.CheckCellsDifferOnlyOnBool | gerrydb_etl/db.py:104-105 | The written and intended checks store the same value and agree on every non-BOOL column; on a BOOL column they disagree on every cell. |
| ColumnValues.BoolCheckIsInverted | cherrydb_etl/db.py:100-101 | `True` in a BOOL column is flagged "Expected boolean …", while a string in it passes. |
| ColumnValues.FirstMissing | gerrydb_etl/db.py:90-91 | The `geos[geo_id]` lookup fails exactly when some index entry is absent from `geos`, and the entry it fails on is the first such entry. |
| ColumnValues.ColumnRows | gerrydb_etl/db.py:106-114 | A column contributes exactly one row per index entry. |
| ColumnValues.ColumnRowAt | gerrydb_etl/db.py:106-114 | The i-th row of a column carries the column's id, the i-th entry's geography, the call's meta id and `now`, and the i-th cell's checked value. |
| ColumnValues.ColumnErrors | gerrydb_etl/db.py:88-105 | A column's message list is empty exactly when none of its cells is flagged. |
| ColumnValues.IntendedColumnErrors | gerrydb_etl/db.py:88-105 | The same, for the intended check. |
| ColumnValues.CollectColumn | gerrydb_etl/db.py:90-114 | The inner cell loop fails on the first geography missing from `geos`. Otherwise it returns the column's rows and messages. |
| ColumnValues.CollectBatch | gerrydb_etl/db.py:84-114 | The column loop, with or without the legacy per-column row reset, computes `Collect`. |
| ColumnValues.CollectFailurePersists | gerrydb_etl/db.py:85-91 | Once the loop has raised, a longer column list raises the same error. |
| ColumnValues.CollectRowsStamped | gerrydb_etl/db.py:106-114 | Every row a call builds is current, is valid from the call's single `now`, and carries its meta id. |
| ColumnValues.CollectRowsOrigin | gerrydb_etl/db.py:85-114 | Every row built belongs to one of the call's columns and to the geography of one of the frame's index entries. |
| ColumnValues.CollectRowLayout | gerrydb_etl/db.py:84-114 | Without the reset there are exactly `|cols| * |index|` rows. The row at `j * |index| + i` is column j's row for entry i. |
| ColumnValues.CollectRowCount | gerrydb_etl/db.py:84-114 | Without the reset, exactly one row is built per (column, index entry). |
| ColumnValues.ResetBatchIsLastColumn | cherrydb_etl/db.py:79-110 | With the legacy reset, the rows passed on are exactly the last column's rows. |
| ColumnValues.CollectResetAgnostic | cherrydb_etl/db.py:83 | The row reset never changes whether the loop raises, what it raises, or the errors it leaves. |
| ColumnValues.ColIds | gerrydb_etl/db.py:120 | `col_ids` lists each column's id in order. |
| ColumnValues.StalePairsFor | gerrydb_etl/db.py:124-132 | The per-column query returns exactly the (col, geo) pairs of that column's current values among the given geographies. |
| ColumnValues.GerryStaleSpec | gerrydb_etl/db.py:119-133 | After the loop, `stale_values` holds a pair exactly when some current value has it, with its column among the call's columns and its geography among `geos`. |
| ColumnValues.CherryStale | cherrydb_etl/db.py:116-124 | The legacy query returns exactly the `val_id`s of current values whose column is among the call's columns and whose geography is among `geos` (the cross product). |
| ColumnValues.StaleDetectionAgrees | cherrydb_etl/db.py:116-124 | Both variants detect the same (column, geography) pairs. |
| ColumnValues.CloseByPairs | gerrydb_etl/db.py:138-146 | Row by row: a row whose (column, geography) pair is in the stale list gets `valid_to = now`, current or not; every other row is unchanged. |
| ColumnValues.CloseByIds | cherrydb_etl/db.py:129-136 | Row by row: a row whose `val_id` was detected gets `valid_to = now`; every other row is unchanged. |
| ColumnValues.ColumnRowsDistinct | gerrydb_etl/db.py:90-114 | Over distinct geographies, one column's rows have pairwise different pairs. |
| ColumnValues.CollectRowsDistinct | gerrydb_etl/db.py:85-114 | Without the reset, over distinct columns and geographies, each pair is written at most once. |
| ColumnValues.CloseCurrent | gerrydb_etl/db.py:138-146 | Row by row: a current row of one of the given pairs gets `valid_to = now`; every other row, closed ones included, is unchanged. |
| ColumnValues.GerryLoad | gerrydb_etl/db.py:71-147 | A successful load appends one new value per column and frame row to the store. Which old rows it closes is stated by `ColumnValues.GerryLoadCloses`. |
| ColumnValues.CherryLoad | cherrydb_etl/db.py:66-138 | A successful legacy load had at least one column and appends one new value per frame row: only the last column's values survive the per-column reset. Which old rows it closes is stated by `ColumnValues.CherryLoadCloses`. |
| ColumnValues.IntendedLoad | gerrydb_etl/db.py:71-147 | A successful intended load appends one new value per column and frame row. Which old rows it closes is stated by `ColumnValues.IntendedLoadCloses`. |
| ColumnValues.GerryLoadCloses | gerrydb_etl/db.py:119-146 | After a successful load, an old row is closed at `now` exactly when its column is loaded, its geography is among the ones passed in (not only those of the frame's rows) and its pair has some current value; every other old row is unchanged. |
| ColumnValues.CherryLoadCloses | cherrydb_etl/db.py:116-136 | After a successful legacy load, an old row is closed at `now` exactly when it is current, its column is loaded and its geography is among the ones passed in; every other old row is unchanged. |
| ColumnValues.CollectPairs | gerrydb_etl/db.py:84-114 | The collected rows cover exactly the pairs of a loaded column with a geography of some frame row. |
| ColumnValues.IntendedLoadCloses | gerrydb_etl/db.py:119-146 | After a successful intended load, an old row is closed exactly when it is current and its pair was written by this load; every other old row is unchanged. |
| ColumnValues.LoadsLeaveOtherPairs | gerrydb_etl/db.py:119-146 | A row whose column is not loaded, or whose geography is not passed in, is left unchanged by all three loads. |
| ColumnValues.Collect | gerrydb_etl/db.py:84-114 | Specification of the column loop. `ColumnValues.CollectBatch` computes it; `ColumnValues.CollectPairs` states which pairs it writes; `ColumnValues.IntendedLoadRejectsAnyInvalidCell` states when it fails. |
| ColumnValues.GerryStale | gerrydb_etl/db.py:119-133 | Specification of the stale-pair query: the pairs of a loaded column and a passed-in geography that have a current value. `ColumnValues.StaleDetectionAgrees` and `ColumnValues.ClosedLeavesNoCurrent` state its properties. |
| ColumnValues.IntendedErrors | gerrydb_etl/db.py:85-117 | The intended error list is empty exactly when no cell of any column fails its type. |
| ColumnValues.IntendedLoadRejectsAnyInvalidCell | gerrydb_etl/db.py:116-117 | The intended load raises exactly when some cell of some column fails its type. |
| ColumnValues.IntendedLoadKeepsHistory | gerrydb_etl/db.py:135-147 | The intended load only closes and appends. A closed row never changes, a current row at most gets `valid_to = now`, and every appended row is current from `now` under the call's meta. |
| ColumnValues.IntendedLoadCurrent | gerrydb_etl/db.py:119-147 | Over distinct columns and geographies, the intended load keeps at most one current value per pair, and each written cell is the one current value of its pair. |
| ColumnValues.IntendedLoadOfNothing | gerrydb_etl/db.py:85-117 | With no columns, the intended load leaves the table as it is. |
| ColumnValues.LoadOfNothingRaises | gerrydb_etl/db.py:85-116 | As written, both variants read `validation_errors` before any assignment when `cols` is empty, and raise. |
| ColumnValues.GerryLoadRewritesClosedRows | gerrydb_etl/db.py:140-146 | The current close-out has no `valid_to IS NULL` filter. A row closed long ago gets its `valid_to` rewritten to `now` whenever its pair is reloaded. |
| ColumnValues.ClosedLeavesNoCurrent | gerrydb_etl/db.py:123-146 | After the pair close-out, no value of a loaded column and geography is current. |
| ColumnValues.GerryLoadKeepsOneCurrent | gerrydb_etl/db.py:119-147 | Over distinct columns and geographies, the current variant keeps at most one current value per pair. |
| ColumnValues.CloseByPairsKeepsOneCurrent | gerrydb_etl/db.py:138-146 | Closing values never makes two current values share a pair. |
| ColumnValues.AppendKeepsOneCurrent | gerrydb_etl/db.py:147 | Appending rows with distinct pairs, none matching a current value, keeps at most one current value per pair. |
| ColumnValues.CherryLoadDropsCurrentValues | cherrydb_etl/db.py:83-138 | The legacy load, given two or more columns, closes the current value of an earlier column for a loaded geography and leaves that pair with no current value. The intended load has one there. |
| ColumnValues.CherryLoadClosesPair | cherrydb_etl/db.py:116-138 | In that case no row of the pair is current after the legacy load. |
| ColumnValues.IntendedLoadKeepsPair | gerrydb_etl/db.py:85-147 | After a successful intended load, the first column's pair for any loaded geography has a current value. |
| ColumnValues.ExampleBatch | gerrydb_etl/db.py:85-114 | A concrete two-column call whose first column holds a string in an INTEGER column builds both rows, and leaves only the last column's (empty) error list. |
| ColumnValues.GerryLoadIgnoresEarlierColumnErrors | gerrydb_etl/db.py:88-117 | In that call the current variant writes the ill-typed value, because the error list is reset per column. |
| ColumnValues.IntendedLoadReportsEarlierColumnErrors | gerrydb_etl/db.py:85-117 | The intended load refuses the same call, reporting the INTEGER message. |
| ColumnValues.ValidationMessagesAreLost | gerrydb_etl/db.py:116-117 | Whenever the validation raise is reached, both variants raise the `TypeError` of passing a keyword to `ValueError` instead of the messages; the intended load reports the validation error. |
| PlGeo.CategorizeTrustRes | gerrydb_etl/bootstrap/pl_geo.py:112-118 | A GEOID ending in t/T is "trust", one ending in r/R is "reservation", and any other last character raises `ValueError`. An empty GEOID raises when its last character is read. |
| PlGeo.RStripTag | gerrydb_etl/bootstrap/pl_geo.py:121 | `rstrip("rtRT")` removes a trailing tag character together with any tags before it. |
| PlGeo.AiannhIdsCollideExactly | gerrydb_etl/bootstrap/pl_geo.py:121-125 | Two AIANNH GEOIDs of a state get the same ID exactly when they agree once their trailing r/t letters are stripped. The R and T parts of one area always collide. |
| PlGeo.AiannhIdShape | gerrydb_etl/bootstrap/pl_geo.py:121 | An AIANNH ID is "aiannh:" + the GEOID with every trailing r/t/R/T stripped + ":fips" + the state FIPS. |
| PlGeo.TaggedIdInjective | gerrydb_etl/bootstrap/pl_geo.py:121 | Two AIANNH IDs of one state are equal exactly when their stripped GEOIDs are. |
| PlGeo.RewriteIdByLevel | gerrydb_etl/bootstrap/pl_geo.py:105-161 | Spine-level IDs are the GEOID unchanged. Other auxiliary levels get the "level:" prefix. AIANNH gets the stripped, state-suffixed form. |
| PlGeo.RewriteId | gerrydb_etl/bootstrap/pl_geo.py:105-161 | Specification of the ID rewrite of one row. `PlGeo.RewriteIdByLevel` and `PlGeo.AiannhIdShape` state its result per level. |
| PlGeo.MergeSpec | gerrydb_etl/bootstrap/pl_geo.py:126-137 | After a successful merge, each ID is stored once and has its merged row. |
| PlGeo.MergeFailurePersists | gerrydb_etl/bootstrap/pl_geo.py:128-153 | Once the merge loop raises, later rows do not change the error. |
| PlGeo.MergeOne | gerrydb_etl/bootstrap/pl_geo.py:129-153 | One loop iteration: a new ID is stored with collision count 0. A second occurrence adds ALAND and AWATER and sets the class to "union". A third occurrence, or a differing NAME outside the two Fallon IDs, raises. |
| PlGeo.MergeCollisions | gerrydb_etl/bootstrap/pl_geo.py:125-156 | The merge loop computes the merged frame of `MergeSpec`, in first-seen order. |
| PlGeo.FirstWith | gerrydb_etl/bootstrap/pl_geo.py:129-131 | The first row carrying an ID exists exactly when the ID occurs, and it carries that ID. |
| PlGeo.CountIdPositive | gerrydb_etl/bootstrap/pl_geo.py:125 | An ID is counted exactly when some row carries it. |
| PlGeo.CountIdOnce | gerrydb_etl/bootstrap/pl_geo.py:129-131 | An ID carried by one row only is stored as that row. |
| PlGeo.AbsentIdSums | gerrydb_etl/bootstrap/pl_geo.py:140-141 | Rows of other IDs add nothing to an ID's land and water areas. |
| PlGeo.MergeSpecComputes | gerrydb_etl/bootstrap/pl_geo.py:126-156 | After a successful merge the stored IDs are exactly those the rows carry. Each ID's row holds the number of further rows as collision count, the summed land and water areas, the first row's name, and the first row's class, or "union" when there were two rows. The column selection that follows drops the count and the areas again (`PlGeo.AiannhLayerCarriesNoAreas`). |
| PlGeo.MergeSucceedsIff | gerrydb_etl/bootstrap/pl_geo.py:135-153 | The merge succeeds exactly when no ID is on three or more rows and the two rows of an ID have the same name, or the ID is one of the two exempt Fallon IDs. |
| PlGeo.SucceedsWhenMergeable | gerrydb_etl/bootstrap/pl_geo.py:128-153 | Rows meeting those conditions merge without error. |
| PlGeo.MergeableWhenSucceeds | gerrydb_etl/bootstrap/pl_geo.py:135-153 | Rows that merge without error meet those conditions. |
| PlGeo.MergeStepAccepts | gerrydb_etl/bootstrap/pl_geo.py:135-153 | A row the loop accepts is at most the second of its ID, and then has the first one's name (or an exempt ID). |
| PlGeo.MergeWithoutRepeats | gerrydb_etl/bootstrap/pl_geo.py:128-131 | Rows with distinct IDs merge without error, each stored as it is. |
| PlGeo.MergeWithoutRepeatsKeepsRows | gerrydb_etl/bootstrap/pl_geo.py:125 | On rows with distinct IDs the loop would change nothing but the collision counts, so skipping it when no ID repeats loses nothing. |
| PlGeo.Classify | gerrydb_etl/bootstrap/pl_geo.py:120 | Every row gets its `res_trust_class` unless some GEOID has no tag. In that case the error raised is the one for such a GEOID. |
| PlGeo.RewriteIds | gerrydb_etl/bootstrap/pl_geo.py:121-161 | Each row keeps its data and gets its rewritten ID. |
| PlGeo.DistinctIsMergeable | gerrydb_etl/bootstrap/pl_geo.py:125 | Rows without a repeated ID would pass the merge's checks. |
| PlGeo.MergedIds | gerrydb_etl/bootstrap/pl_geo.py:156 | The merged frame's index is the list of stored IDs. |
| PlGeo.MergedRows | gerrydb_etl/bootstrap/pl_geo.py:156 | Specification of the merged frame's rows. `PlGeo.MergedIds` states that its index is the list of stored IDs. |
| PlGeo.AiannhLayerIdsUnique | gerrydb_etl/bootstrap/pl_geo.py:111-166 | A prepared AIANNH layer has unique IDs, so the index set on it never repeats a path. |
| PlGeo.AiannhLayerKeepsIds | gerrydb_etl/bootstrap/pl_geo.py:111-156 | A prepared AIANNH layer holds exactly the rewritten IDs of the downloaded rows. |
| PlGeo.RewrittenHasId | gerrydb_etl/bootstrap/pl_geo.py:120-121 | Classifying keeps the GEOIDs, so the rewritten IDs are those of the downloaded rows. |
| PlGeo.MergeKeepsIds | gerrydb_etl/bootstrap/pl_geo.py:125-156 | The merge keeps every ID of its rows and adds none. |
| PlGeo.AiannhLayerSucceedsIff | gerrydb_etl/bootstrap/pl_geo.py:111-156 | An AIANNH layer is prepared without error exactly when every GEOID ends in a tag and the rewritten rows meet the merge conditions. |
| PlGeo.OtherLayersKeepRows | gerrydb_etl/bootstrap/pl_geo.py:105-161 | Spine layers are imported as downloaded. Other auxiliary layers only gain the level prefix on each ID. Neither raises. |
| PlGeo.SelectAiannhColumns | gerrydb_etl/bootstrap/pl_geo.py:157 | The selection keeps every row, in order, with its ID, name and reservation/trust class. The dropped area columns and collision count read as 0, which stands for "column absent". |
| PlGeo.AiannhLayerCarriesNoAreas | gerrydb_etl/bootstrap/pl_geo.py:157 | Every prepared AIANNH row has the first name seen for its ID and its class, or "union" for a merged area, and carries no land or water area and no collision count: the selection keeps only the name, ID, geometry, internal point and class. |
| PlGeo.PrepareLayer | gerrydb_etl/bootstrap/pl_geo.py:105-165 | Specification of the layer preparation, including the AIANNH column selection. `PlGeo.AiannhLayerSucceedsIff`, `PlGeo.AiannhLayerKeepsIds`, `PlGeo.AiannhLayerIdsUnique`, `PlGeo.AiannhLayerCarriesNoAreas` and `PlGeo.OtherLayersKeepRows` state when it fails and what it yields. |
| PlGeo.UnpublishedLayersSkipped | gerrydb_etl/bootstrap/pl_geo.py:67-69 | `load_geo` stops before any work exactly for a dataset in `MISSING_DATASETS`; the territories' VTD layers are among them. |
| PlGeo.LoadGeoLayer | gerrydb_etl/bootstrap/pl_geo.py:67-69 | Specification of `load_geo` up to the import. `PlGeo.UnpublishedLayersSkipped` states when it stops early. |
| PlGeo.CountyGeos | gerrydb_etl/bootstrap/pl_geo.py:162-165 | `geos_by_county` keeps its counties and the length of each list. |
| PlGeo.CountyGeosMatchLayer | gerrydb_etl/bootstrap/pl_geo.py:160-165 | For levels other than AIANNH, each county list names its geographies by the IDs the layer was given. |
| PlGeo.FullFips | gerrydb_etl/bootstrap/pl_geo.py:247 | `full_fips` is the state FIPS, then the state FIPS + county FIPS for each county, in order. |
| PlGeo.FoundLocalities | gerrydb_etl/bootstrap/pl_geo.py:248-252 | The query returns exactly the references whose path is among `full_fips`. |
| PlGeo.ReplacedKeepsHistory | gerrydb_etl/bootstrap/pl_geo.py:256-277 | An old version changes only by ending at `now`. It ends exactly when it was current and belongs to the layer and a found locality. Every new version is current from the same `now`, for the layer. |
| PlGeo.ReplacedKeepsOneCurrent | gerrydb_etl/bootstrap/pl_geo.py:256-277 | When the found paths name distinct localities, the replacement keeps at most one current version per layer and locality. |
| PlGeo.Deprecate | gerrydb_etl/bootstrap/pl_geo.py:256-264 | Row by row: a version of the layer and a found locality that is still current ends at `now`; every other version is unchanged. |
| PlGeo.NewVersions | gerrydb_etl/bootstrap/pl_geo.py:266-277 | One new version per found locality, in order, numbered from `start`, for the layer, current from `now` and carrying the metadata id. |
| PlGeo.Replaced | gerrydb_etl/bootstrap/pl_geo.py:256-277 | Specification of the deprecate-then-insert step. `PlGeo.ReplacedKeepsHistory` and `PlGeo.ReplacedKeepsOneCurrent` state its properties. |
| PlGeo.FoundLocIdsFound | gerrydb_etl/bootstrap/pl_geo.py:253-275 | Every locality a version is inserted for was found by the query. |
| PlGeo.SetIdPairs | gerrydb_etl/bootstrap/pl_geo.py:278-280 | `loc_id_to_set_id` pairs each inserted version's locality with its set version id. |
| PlGeo.InsertedForFound | gerrydb_etl/bootstrap/pl_geo.py:275-284 | Every found locality has a set version id. |
| PlGeo.SetIdForFound | gerrydb_etl/bootstrap/pl_geo.py:284-293 | A path's set version lookup fails exactly when the path's locality was not found. When it succeeds, it gives the id of a version inserted for that locality. |
| PlGeo.RootMembers | gerrydb_etl/bootstrap/pl_geo.py:285-291 | The root set receives every created geography, in order. |
| PlGeo.PathMembers | gerrydb_etl/bootstrap/pl_geo.py:294-300 | A county's members succeed exactly when all its paths were created. They are then its geographies, in order, under its set version. |
| PlGeo.PathFailurePersists | gerrydb_etl/bootstrap/pl_geo.py:294-300 | Once a path lookup raises, later paths do not change the error. |
| PlGeo.CountyMembers | gerrydb_etl/bootstrap/pl_geo.py:292-300 | The county loop succeeds exactly when every county's members do. |
| PlGeo.CountyFailurePersists | gerrydb_etl/bootstrap/pl_geo.py:292-300 | Once a county raises, later counties do not change the error. |
| PlGeo.MembersSucceedIff | gerrydb_etl/bootstrap/pl_geo.py:284-301 | The members are inserted exactly when the state and every county have a locality and every county geography was created. The root set's members come first. |
| PlGeo.MembersSpec | gerrydb_etl/bootstrap/pl_geo.py:284-301 | Specification of the member rows. `PlGeo.MembersSucceedIff` states when they are inserted and their order. |
| PlGeo.CountiesSucceedIff | gerrydb_etl/bootstrap/pl_geo.py:292-300 | The county loop succeeds exactly when each county has a locality and all its geographies were created. |
| PlGeo.CollectCountyMembers | gerrydb_etl/bootstrap/pl_geo.py:292-300 | The county loop computes `CountyMembers`. |
| PlGeo.CollectPathMembers | gerrydb_etl/bootstrap/pl_geo.py:294-300 | The inner path loop computes `PathMembers`. |
| PlGeo.GeoSetTables.constructor | gerrydb_etl/bootstrap/pl_geo.py:256-301 | The tables hold the given versions and members. |
| PlGeo.GeoSetTables.ReplaceGeoSets | gerrydb_etl/bootstrap/pl_geo.py:247-301 | The version table becomes the replaced one (old versions closed, new ones inserted). The members are inserted when every lookup succeeds; otherwise the error is raised and the member table is unchanged. |
| PlPopTables.LevelsAgree | gerrydb_etl/bootstrap/pl_pop_tables.py:24-38 | The script's own `LEVELS`, spine and auxiliary tuples equal those of the configuration: the spine levels followed by the auxiliary levels, nine in all. |
| PlPopTables.LevelQuery | gerrydb_etl/bootstrap/pl_pop_tables.py:70-99 | A level gets a query and identifying columns exactly when it is one of the nine levels; any other level raises "Unknown level.". The identifying columns start with "state" except for AIANNH. Outside the state level, the `for` clause names the last identifying column and the `in` clause starts with the state. The state level queries `for=state:<fips>` alone. |
| PlPopTables.SpineIdColumnsNest | gerrydb_etl/bootstrap/pl_pop_tables.py:70-93 | Each spine level's identifying columns start with those of the level containing it (state, county, tract, block/block group), and so do those of places, county subdivisions and VTDs. |
| PlPopTables.IdColumns | gerrydb_etl/bootstrap/pl_pop_tables.py:70-99 | Specification of the identifying columns per level. `PlPopTables.LevelQuery` and `PlPopTables.SpineIdColumnsNest` state their shape. |
| PlPopTables.ConcatAppend | gerrydb_etl/bootstrap/pl_pop_tables.py:117 | Joining appended parts joins the two joins, so nested identifying columns give nested IDs. |
| PlPopTables.Concat | gerrydb_etl/bootstrap/pl_pop_tables.py:117 | Specification of joining the identifying values with "". `PlPopTables.ConcatAppend` and `PlPopTables.NestedRowIds` state its properties. |
| PlPopTables.TableIdMatchesLayerId | gerrydb_etl/bootstrap/pl_pop_tables.py:119-122 | A table row's ID is the one `load_geo` gives the same GEOID. For AIANNH, the untagged code gives the ID of every tagged GEOID of that area. |
| PlPopTables.UntaggedCodeIsStripped | gerrydb_etl/bootstrap/pl_pop_tables.py:122 | A code that ends in no r/t tag is unchanged by the strip. |
| PlPopTables.TableId | gerrydb_etl/bootstrap/pl_pop_tables.py:119-122 | Specification of a table row's ID. `PlPopTables.TableIdMatchesLayerId` proves it equal to the ID the geography import gives. |
| PlPopTables.ColumnIndex | gerrydb_etl/bootstrap/pl_pop_tables.py:116-117 | A column is found exactly when the header holds it, at a position holding its name. |
| PlPopTables.FirstMissingColumn | gerrydb_etl/bootstrap/pl_pop_tables.py:117 | Selecting the identifying columns fails exactly when one is absent from the header, and it names such a column. |
| PlPopTables.IdValues | gerrydb_etl/bootstrap/pl_pop_tables.py:117 | A record's identifying values are those of the identifying columns, in tuple order. |
| PlPopTables.RowIds | gerrydb_etl/bootstrap/pl_pop_tables.py:116-122 | The `id` column fails exactly when an identifying column is missing. Otherwise it holds, for each record, its identifying values concatenated in tuple order and rewritten for the level. |
| PlPopTables.NestedRowIds | gerrydb_etl/bootstrap/pl_pop_tables.py:70-84 | A block's (or block group's) ID starts with its tract's ID, a tract's with its county's, and a county's with its state's, all read from the same record. |
| PlPopTables.ColumnAliasItems | gerrydb_etl/bootstrap/pl_pop_tables.py:105-106 | A column contributes one (alias, column) pair per alias, in order. |
| PlPopTables.BuildAliasMap | gerrydb_etl/bootstrap/pl_pop_tables.py:103-106 | The nested loop builds the dict of all (alias, column) pairs, column by column. |
| PlPopTables.AddAliases | gerrydb_etl/bootstrap/pl_pop_tables.py:105-106 | The inner loop adds every alias of one column to the dict. |
| PlPopTables.LastWithAlias | gerrydb_etl/bootstrap/pl_pop_tables.py:104-106 | The last column carrying an alias carries it, and no later column does. When there is none, no column carries it. |
| PlPopTables.ColumnAliasGet | gerrydb_etl/bootstrap/pl_pop_tables.py:105-106 | A column's own pairs map each of its aliases to it, and nothing else. |
| PlPopTables.AliasMapLaterWins | gerrydb_etl/bootstrap/pl_pop_tables.py:103-106 | In the alias map, a shared alias names the last column that carries it. |
| PlPopTables.LowerColumns | gerrydb_etl/bootstrap/pl_pop_tables.py:124 | Every data frame column name is lowercased. |
| PlPopTables.LoadedColumnsExactly | gerrydb_etl/bootstrap/pl_pop_tables.py:124-129 | An alias is loaded exactly when it is among the lowercased response columns, and then it names the last column of the set carrying it. |
| PlPopTables.LoadedColumns | gerrydb_etl/bootstrap/pl_pop_tables.py:124-129 | Specification of the loaded aliases. `PlPopTables.LoadedColumnsExactly` states which aliases are kept and the column each names. |
| PlPopTables.LoadTablesStartCases | gerrydb_etl/bootstrap/pl_pop_tables.py:55-99 | The script stops quietly exactly for an unpublished (fips, level, year). A missing FIPS raises exactly when the FIPS is `None`. A query is chosen exactly for a published dataset of a known level. |
| PlPopTables.LoadTablesStart | gerrydb_etl/bootstrap/pl_pop_tables.py:55-99 | Specification of the script's start. `PlPopTables.LoadTablesStartCases` states its three outcomes. |
| PlPopTables.Paths | gerrydb_etl/bootstrap/pl_pop_tables.py:176 | The paths of the found geographies are exactly the paths some geography has. |
| PlPopTables.CompleteLookupPassesCount | gerrydb_etl/bootstrap/pl_pop_tables.py:147-155 | The count check never rejects a complete lookup: if the index entries are distinct and each has a geography, at least as many geographies were found as there are rows. |
| PlPopTables.ShortCountWritesNothing | gerrydb_etl/bootstrap/pl_pop_tables.py:151-155 | The bulk import raises the count error, before anything is written, exactly when fewer geographies were found than the frame has rows. |
| PlPopTables.BulkLoad | gerrydb_etl/bootstrap/pl_pop_tables.py:147-155 | Specification of the bulk import. `PlPopTables.ShortCountWritesNothing` and `PlPopTables.CompleteLookupPassesCount` state when the count check fails. |
| PlLocalities.UtmZoneProj | gerrydb_etl/bootstrap/pl_localities.py:90-104 | A projection is returned exactly for zones 2 to 20 and zone 55, and it is an "epsg:" identifier. Every other zone raises "Zone not covered by the U.S. Census.". |
| PlLocalities.TwoDigits | gerrydb_etl/bootstrap/pl_localities.py:95 | `str(zone).zfill(2)` of a zone from 3 to 20 is its tens digit and its units digit. |
| PlLocalities.UtmZoneProjIsNad83 | gerrydb_etl/bootstrap/pl_localities.py:92-95 | Zones 3 to 20 get EPSG:26903 to EPSG:26920, the code being 26900 + zone. |
| PlLocalities.ProjDigits | gerrydb_etl/bootstrap/pl_localities.py:92-95 | For zones 3 to 20 the identifier is "epsg:269" followed by the zone zero-padded to two digits. |
| PlLocalities.ZoneOfNad83Proj | gerrydb_etl/bootstrap/pl_localities.py:92-95 | The zone can be read back from the last two digits of its identifier. |
| PlLocalities.UtmZoneProjInjective | gerrydb_etl/bootstrap/pl_localities.py:90-104 | Different covered zones get different projections, including zone 2 ("epsg:6636") and zone 55 ("epsg:8693"). |
| PlLocalities.FirstIndex | gerrydb_etl/bootstrap/pl_localities.py:86-87 | The first occurrence of a zone is where it first appears, and no earlier zone equals it. |
| PlLocalities.BestFromKeeps | gerrydb_etl/bootstrap/pl_localities.py:86-87 | Scanning on from any point keeps the first of the most frequent zones seen so far. |
| PlLocalities.ModalZoneIsMode | gerrydb_etl/bootstrap/pl_localities.py:81-87 | `most_common(1)[0][0]` raises exactly when there are no zones. Otherwise it returns a zone that occurs, that no zone outnumbers, and that every zone first seen before it occurs strictly less often than (ties go to the first seen). |
| PlLocalities.ModalZone | gerrydb_etl/bootstrap/pl_localities.py:81-87 | Specification of `most_common(1)[0][0]`. `PlLocalities.ModalZoneIsMode` states that it is a mode with ties going to the first seen. |
| PlLocalities.IdentifyUtmZone | gerrydb_etl/bootstrap/pl_localities.py:81-87 | The counting scan computes `ModalZone`. |
| PlLocalities.Rename2010Column | gerrydb_etl/bootstrap/pl_localities.py:118-123 | A column ending in "10" loses exactly those two characters; any other column keeps its name. |
| PlLocalities.Renamed2010Columns | gerrydb_etl/bootstrap/pl_localities.py:118-123 | GEOID10, STATEFP10, NAME10 and NAMELSAD10 come out as GEOID, STATEFP, NAME and NAMELSAD; "geometry" is kept. |
| PlLocalities.LegacyRows | gerrydb_etl/bootstrap/pl_localities.py:124-127 | The legacy rows are exactly the 2010 rows whose GEOID is absent from the 2020 GEOIDs. |
| PlLocalities.CombinedCountiesCover | gerrydb_etl/bootstrap/pl_localities.py:124-131 | The combined list starts with the 2020 counties and covers the GEOIDs of both years. Its added part has exactly the 2010 GEOIDs minus the 2020 ones. |
| PlLocalities.CombinedCounties | gerrydb_etl/bootstrap/pl_localities.py:124-131 | Specification of the combined county list. `PlLocalities.CombinedCountiesCover` states its order and coverage. |
| PlLocalities.StateZones | gerrydb_etl/bootstrap/pl_localities.py:144-145 | A state's zones are exactly those of the counties with its state FIPS. |
| PlLocalities.Sequence | gerrydb_etl/bootstrap/pl_localities.py:142-198 | A loop that stops at the first error: all values when every step succeeds, otherwise the error of a failing step. |
| PlLocalities.SequenceFailurePersists | gerrydb_etl/bootstrap/pl_localities.py:142-154 | Once a step raises, later steps do not change the error. |
| PlLocalities.StateLocalities | gerrydb_etl/bootstrap/pl_localities.py:141-154 | `state_like_locs` holds one locality per state, in order, or the error of some state. |
| PlLocalities.BuildStateLocalities | gerrydb_etl/bootstrap/pl_localities.py:141-154 | The state loop computes `StateLocalities`. |
| PlLocalities.StateLocalityShape | gerrydb_etl/bootstrap/pl_localities.py:142-154 | A state with no counties raises. Otherwise its locality hangs under "us", has a space-free path, is aliased first by its FIPS code, and is projected on the modal zone of its counties. |
| PlLocalities.StateLocality | gerrydb_etl/bootstrap/pl_localities.py:142-154 | Specification of one state's locality. `PlLocalities.StateLocalityShape` states its failure case and shape. |
| PlLocalities.OverridesSameKeys | gerrydb_etl/bootstrap/pl_localities.py:35-73 | The two override tables cover the same GEOIDs. |
| PlLocalities.CountyPathShape | gerrydb_etl/bootstrap/pl_localities.py:183-185 | An overridden county's path is its override. Any other county's path is `pathify(state_name) + "/" + pathify(NAME)` and holds no space. |
| PlLocalities.CountyAliasesShape | gerrydb_etl/bootstrap/pl_localities.py:186-188 | A county's aliases are its override list, or the single `pathify(abbr)/pathify(NAME)`, always followed by the GEOID as the last alias. |
| PlLocalities.CountyPath | gerrydb_etl/bootstrap/pl_localities.py:183-185 | Specification of a county's path. `PlLocalities.CountyPathShape` states its two cases. |
| PlLocalities.CountyAliases | gerrydb_etl/bootstrap/pl_localities.py:186-188 | Specification of a county's aliases. `PlLocalities.CountyAliasesShape` states its two cases and the trailing GEOID. |
| PlLocalities.OverridePathsDistinct | gerrydb_etl/bootstrap/pl_localities.py:35-57 | The overridden paths are pairwise distinct. |
| PlLocalities.StateNames | gerrydb_etl/bootstrap/pl_localities.py:161 | `state_fips_to_name` pairs each state's FIPS with its name. |
| PlLocalities.StateAbbrs | gerrydb_etl/bootstrap/pl_localities.py:162 | `state_fips_to_abbr` pairs each state's FIPS with its abbreviation. |
| PlLocalities.WithoutDC | gerrydb_etl/bootstrap/pl_localities.py:164 | Dropping DC keeps exactly the rows outside state FIPS 11, and no more copies of any row. |
| PlLocalities.StrLeTotal | gerrydb_etl/bootstrap/pl_localities.py:170 | The string order compares any two GEOIDs. |
| PlLocalities.InsertByGeoid | gerrydb_etl/bootstrap/pl_localities.py:170 | Inserting into a sorted list keeps it sorted, and adds exactly the one row. |
| PlLocalities.SortByGeoid | gerrydb_etl/bootstrap/pl_localities.py:170 | `sort_values(by=["GEOID"])` is sorted by GEOID and a permutation of its input. |
| PlLocalities.CountyLocalities | gerrydb_etl/bootstrap/pl_localities.py:179-198 | `county_locs` holds one locality per county, in order, or the error of some county. |
| PlLocalities.BuildCountyLocalities | gerrydb_etl/bootstrap/pl_localities.py:164-198 | The county loop runs over the counties without DC, in GEOID order, and computes `CountyLocalities`. |
| PlLocalities.CountyLoop | gerrydb_etl/bootstrap/pl_localities.py:179-198 | The loop over the sorted rows computes `CountyLocalities`. |
| PlLocalities.CountyLocalityEndsWithGeoid | gerrydb_etl/bootstrap/pl_localities.py:186-188 | A county locality's last alias is its GEOID. |
| PlLocalities.CountyLocality | gerrydb_etl/bootstrap/pl_localities.py:179-198 | Specification of one county's locality. `PlLocalities.CountyLocalities` and `PlLocalities.CountyLocalityEndsWithGeoid` state its properties. |
| PlLocalities.CountyLocalitiesInGeoidOrder | gerrydb_etl/bootstrap/pl_localities.py:164-198 | The county localities are those of the counties outside DC, one each. Their last aliases are the counties' GEOIDs, in ascending order. |
| PlLocalities.LoadLocalities | gerrydb_etl/bootstrap/pl_localities.py:132-198 | The root "us" locality is always created first. A raise in the state loop leaves only the root. A raise in the county loop leaves the root and the pushed states, and reports the county error. Without a raise, the root, the states' localities and one locality per county outside DC are created, in that order. |
| PlLocalities.ParentsCreatedFirst | gerrydb_etl/bootstrap/pl_localities.py:132-198 | Every created locality with a parent comes after a locality at its parent path: the states under "us", each county under the state its FIPS code names. |
| PlLocalities.CountyParentState | gerrydb_etl/bootstrap/pl_localities.py:161-191 | A county's parent path is the pathified name of a state carrying the county's state FIPS code. |
| PopTableColumns.RedundantMapsAreInverse | gerrydb_etl/bootstrap/pl_pop_table_columns.py:53-63 | `CANONICAL_COLUMN_TO_REDUNDANT_COLUMN` is the exact inverse of `REDUNDANT_COLUMN_TO_CANONICAL_COLUMN`, and no name is both redundant and canonical. |
| PopTableColumns.SplitKeepsAbsent | gerrydb_etl/bootstrap/pl_pop_table_columns.py:71 | A character absent from a label is absent from every `!!` segment. |
| PopTableColumns.HumanLabelHasNoColon | gerrydb_etl/bootstrap/pl_pop_table_columns.py:71-74 | The human label never holds a colon: colons are removed first, and the later steps add none. |
| PopTableColumns.HumanLabel | gerrydb_etl/bootstrap/pl_pop_table_columns.py:71-74 | Specification of the human label. `PopTableColumns.HumanLabelHasNoColon` states that it holds no colon. |
| PopTableColumns.CanonicalName | gerrydb_etl/bootstrap/pl_pop_table_columns.py:75-84 | A label with no "; " separator has as canonical name its `COL_LABELS` entry, or itself when unmapped. Labels with several parts are covered by `PopTableColumns.CanonicalNameOfParts`. |
| PopTableColumns.CanonicalNameOfParts | gerrydb_etl/bootstrap/pl_pop_table_columns.py:75-84 | For a label made of parts with no semicolon joined by "; ", the canonical name is the parts, each mapped through `COL_LABELS` (unmapped parts kept), joined with "_". |
| PopTableColumns.CanonicalNameTwoParts | gerrydb_etl/bootstrap/pl_pop_table_columns.py:75-84 | "White; Black or African American" has the canonical name "white_black". |
| PopTableColumns.HispanicFlag | gerrydb_etl/bootstrap/pl_pop_table_columns.py:77-80 | The flag is `None` exactly when "Hispanic or Latino" does not occur in the label. It is `False` exactly when "Not Hispanic or Latino" occurs, and `True` otherwise. |
| PopTableColumns.ParseLabels | gerrydb_etl/bootstrap/pl_pop_table_columns.py:66-87 | The loop builds the items of the kept variables, in order, each with its parsed label. |
| PopTableColumns.ParseLabel | gerrydb_etl/bootstrap/pl_pop_table_columns.py:71-86 | Specification of one parsed label: the human label, its canonical name and the Hispanic flag. `PopTableColumns.HumanLabelHasNoColon` and `PopTableColumns.CanonicalNameOfParts` state their properties. |
| PopTableColumns.KeptItems | gerrydb_etl/bootstrap/pl_pop_table_columns.py:66-87 | Specification of the kept variables' items. `PopTableColumns.ParseLabels` proves the loop computes it. |
| PopTableColumns.KeptItemsExactly | gerrydb_etl/bootstrap/pl_pop_table_columns.py:69-82 | `parse_labels` keeps exactly the variables labelled "Total" or with predicate type "int", each under its own key with its parsed label, and never more items than it was given. |
| PopTableColumns.ColumnAliases | gerrydb_etl/bootstrap/pl_pop_table_columns.py:90-116 | A name in any of the three formats gets three aliases, itself among them; `None` comes only for a name in no format. Reading `name[2]` of a one- or two-character name starting with "P" raises, and nothing else raises. The prefix and length tests also give aliases to some malformed names ("P1_001X", "P0012345"). |
| PopTableColumns.ColumnAliasesStandardize | gerrydb_etl/bootstrap/pl_pop_table_columns.py:90-116 | For a well-formed name the aliases are the 2020, 2010 and long 2010 spellings, in that order, with the name at the position of its own format. Each of the three has exactly the same aliases. |
| PopTableColumns.HispanicPrefix | gerrydb_etl/bootstrap/pl_pop_table_columns.py:171-174 | The prefix is "", "hispanic_" or "non_hispanic_", with no space and no capital. |
| PopTableColumns.UnitSuffix | gerrydb_etl/bootstrap/pl_pop_table_columns.py:175 | The suffix is "_vap" for P3 and P4 and "_pop" otherwise. |
| PopTableColumns.ColumnNameShape | gerrydb_etl/bootstrap/pl_pop_table_columns.py:171-183 | A column name has no space, starts with the flag's prefix and ends with "pop" or "vap". A canonical name ending in "Hispanic or Latino" collapses to prefix + "pop"/"vap". |
| PopTableColumns.ColumnName | gerrydb_etl/bootstrap/pl_pop_table_columns.py:171-183 | Specification of a column name. `PopTableColumns.ColumnNameShape` states its shape. |
| PopTableColumns.LowerColumnNameShape | gerrydb_etl/bootstrap/pl_pop_table_columns.py:183-210 | The lowercased name the column is created under keeps that shape. |
| PopTableColumns.LowerAll | gerrydb_etl/bootstrap/pl_pop_table_columns.py:211 | Every alias is lowercased. |
| PopTableColumns.NewColumnProperties | gerrydb_etl/bootstrap/pl_pop_table_columns.py:171-218 | The requested column is named after its label and table and described by the table's description and its human label. It carries the lowercased aliases of its Census name: three, or six for a canonical total. A missing description is the first error. A 2020-format name that is not a canonical total always succeeds when its description exists. |
| PopTableColumns.NewColumn | gerrydb_etl/bootstrap/pl_pop_table_columns.py:171-218 | Specification of a requested column. `PopTableColumns.NewColumnProperties` states its name, aliases, description and errors. |
| PopTableColumns.PlanFailurePersists | gerrydb_etl/bootstrap/pl_pop_table_columns.py:158-238 | Once a variable raises, later variables of the table do not change the error. |
| PopTableColumns.PlanStep | gerrydb_etl/bootstrap/pl_pop_table_columns.py:164-238 | One variable: a redundant total takes the recorded column (a missing record raises `KeyError`). Any other variable gets its new column, or the existing one of that name, and a canonical total records its column for the redundant total it absorbs. |
| PopTableColumns.PlanReached | gerrydb_etl/bootstrap/pl_pop_table_columns.py:155-238 | The state a table's loop holds when it stops. When the loop succeeds, it is the loop's result. |
| PopTableColumns.PlanReachedPersists | gerrydb_etl/bootstrap/pl_pop_table_columns.py:158-238 | Once a variable raises, later variables of the table do not change what the loop holds. |
| PopTableColumns.PlanReachedStopsAtRaise | gerrydb_etl/bootstrap/pl_pop_table_columns.py:155-238 | A loop that raises stops at some variable `i`. It holds what the variables before `i` built, so the columns they created stay, and variable `i` is the one that raised. |
| PopTableColumns.PlanTable | gerrydb_etl/bootstrap/pl_pop_table_columns.py:155-238 | The loop over one table's variables computes `PlanTableSpec`, and the state it stops in is `PlanReached`. |
| PopTableColumns.PlanTableSpec | gerrydb_etl/bootstrap/pl_pop_table_columns.py:155-238 | Specification of one table's loop. `PopTableColumns.PlanTable` computes it; the `PopTableColumns.PlanTable…` lemmas below state its properties. |
| PopTableColumns.PlanEntry | gerrydb_etl/bootstrap/pl_pop_table_columns.py:164-238 | Specification of one variable's step. `PopTableColumns.PlanTableCoherent` states the invariant it keeps. |
| PopTableColumns.PlanTableGrows | gerrydb_etl/bootstrap/pl_pop_table_columns.py:156-238 | A table's loop appends exactly one column per variable. |
| PopTableColumns.PlanTableCoherent | gerrydb_etl/bootstrap/pl_pop_table_columns.py:203-238 | The loop never changes or drops a namespace column. Every column it lists or records is the namespace's column of that name. |
| PopTableColumns.PlanTableRecordsCanonical | gerrydb_etl/bootstrap/pl_pop_table_columns.py:193-236 | A canonical total's column is recorded for its redundant total, and no later variable of the table overwrites that record. |
| PopTableColumns.PlanTableKeepsOtherTotals | gerrydb_etl/bootstrap/pl_pop_table_columns.py:220-236 | Variables other than a total's canonical one leave its record alone. |
| PopTableColumns.PlanTableReusesTotal | gerrydb_etl/bootstrap/pl_pop_table_columns.py:165-169 | A redundant total whose canonical total is not in the table lists the column recorded before the table's loop began. |
| PopTableColumns.AddColumnSet | gerrydb_etl/bootstrap/pl_pop_table_columns.py:241-253 | Creating a column set at a new path adds it. At an existing path it keeps the existing set. No other set changes. |
| PopTableColumns.CreateTables | gerrydb_etl/bootstrap/pl_pop_table_columns.py:148-253 | A run that does not fail has one column list per table done. |
| PopTableColumns.CreateTablesStops | gerrydb_etl/bootstrap/pl_pop_table_columns.py:148-253 | Once a table fails, later tables change nothing. |
| PopTableColumns.CreateColumns | gerrydb_etl/bootstrap/pl_pop_table_columns.py:143-253 | The loop over `TABLES`, one client context per table, computes `CreateTables` over all four tables. |
| PopTableColumns.CreateTablesPrefix | gerrydb_etl/bootstrap/pl_pop_table_columns.py:148-253 | Runs over fewer tables are prefixes of a longer run that succeeds. |
| PopTableColumns.CreateTablesCoherent | gerrydb_etl/bootstrap/pl_pop_table_columns.py:148-238 | However far a run gets, it keeps every namespace column and binds each name to one column. Every listed or recorded column is the namespace's column of that name. |
| PopTableColumns.CreateTablesFailStep | gerrydb_etl/bootstrap/pl_pop_table_columns.py:149-253 | A table that raises adds no column set and no column list. It keeps, in the namespace and the recorded totals, exactly what its variables before the raising one built. A table that follows a failure changes nothing. |
| PopTableColumns.TablePathsDiffer | gerrydb_etl/bootstrap/pl_pop_table_columns.py:32-40 | The four tables' column-set paths are distinct. |
| PopTableColumns.CreateTablesSets | gerrydb_etl/bootstrap/pl_pop_table_columns.py:240-253 | A run keeps every existing column set and adds only the tables' own. Each table's set, when none existed at its path, holds exactly the table's columns. |
| PopTableColumns.ColumnSetFor | gerrydb_etl/bootstrap/pl_pop_table_columns.py:241-253 | Specification of a table's column set: the lowercased table path and the table's columns. `PopTableColumns.CreateTablesSets` states which sets a run adds. |
| PopTableColumns.SharedTotalReused | gerrydb_etl/bootstrap/pl_pop_table_columns.py:135-169 | A canonical total's column is the one the next table lists for the redundant total it absorbs: P2 reuses P1's total and P4 reuses P3's. |
| PopTableColumns.TotalsShareColumns | gerrydb_etl/bootstrap/pl_pop_table_columns.py:32-63 | P2's and P4's overall totals (2020 and 2010 names) are redundant copies of P1's and P3's, and `TABLES` lists P1, P2, P3, P4 in that order. |
| Strings.Lower | gerrydb_etl/__init__.py:50 | `lower()` keeps the length and lowercases each character in place. |
| Strings.LowerKeepsNonLetters | gerrydb_etl/__init__.py:50 | `lower()` neither adds nor removes a character that is not a letter. |
| Strings.LStrip | gerrydb_etl/__init__.py:50 | `lstrip()` returns a suffix of the text that starts with no whitespace. |
| Strings.RStrip | gerrydb_etl/__init__.py:50 | `rstrip()` returns a prefix of the text that ends with no whitespace. |
| Strings.Strip | gerrydb_etl/__init__.py:50 | `strip()` is no longer than the text and starts and ends with no whitespace. |
| Strings.StripLeadingSpace | gerrydb_etl/__init__.py:50 | Whitespace before a text does not survive `strip()`. |
| Strings.StripTrailingSpace | gerrydb_etl/__init__.py:50 | Whitespace after a text does not survive `strip()`. |
| Strings.ReplaceRemovesChar | gerrydb_etl/__init__.py:50 | Replacing a character by a text that does not hold it removes it everywhere. |
| Strings.ReplaceKeepsAbsent | gerrydb_etl/bootstrap/pl_pop_table_columns.py:72-74 | Replacing never brings in a character that neither the text nor the replacement holds. |
| Strings.ReplaceLength | gerrydb_etl/__init__.py:50 | A replacement no longer than its pattern never makes the text longer. |
| Strings.ReplaceAll | gerrydb_etl/bootstrap/pl_pop_table_columns.py:71-74 | Specification of `replace`. `Strings.ReplaceRemovesChar`, `Strings.ReplaceKeepsAbsent` and `Strings.ReplaceLength` state its properties. |
| Strings.Split | gerrydb_etl/bootstrap/pl_pop_table_columns.py:71-75 | `split(sep)` returns at least one piece. |
| Strings.JoinSplit | gerrydb_etl/bootstrap/pl_pop_table_columns.py:75-84 | Joining with the separator what `split` cut gives back the text. |
| Strings.SplitJoin | gerrydb_etl/bootstrap/pl_pop_table_columns.py:75 | Splitting a join of parts that do not contain the separator's first character gives back the parts. |
| Strings.Join | gerrydb_etl/bootstrap/pl_pop_table_columns.py:84 | Specification of `sep.join(parts)`. `Strings.JoinSplit` and `Strings.SplitJoin` prove it the inverse of `split`. |
| Strings.RStripChars | gerrydb_etl/bootstrap/pl_geo.py:121 | `rstrip(chars)` returns a prefix that does not end in one of `chars`, and every character it drops is one of them. |
| Strings.DecimalString | gerrydb_etl/bootstrap/pl_localities.py:95 | `str(n)` of a one- or two-digit number is its digits. |
| Strings.ZFill | gerrydb_etl/bootstrap/pl_localities.py:95 | `zfill(width)` pads the text on the left with zeros to the width, keeping the text at the end. |
| PyDicts.Get | gerrydb_etl/bootstrap/pl_pop_tables.py:103-106 | A key has a value exactly when some item carries it, and the value is that of the last such item. |
| PyDicts.PutGet | gerrydb_etl/bootstrap/pl_pop_tables.py:106 | After `d[k] = v`, k holds v and every other key keeps its value. |
| PyDicts.FromItemsGet | gerrydb_etl/bootstrap/pl_geo.py:253 | A dict built from items gives each key the value of its last item. |
| PyDicts.FromItemsKeys | gerrydb_etl/bootstrap/pl_geo.py:253-275 | A dict built from items has their keys in order of first appearance. |
| PyDicts.FromDistinctItems | gerrydb_etl/bootstrap/pl_pop_table_columns.py:68-82 | Items with distinct keys make a dict of exactly those items. |
| PyDicts.GetAppend | gerrydb_etl/bootstrap/pl_pop_tables.py:104-106 | In a lookup over items followed by more items, the later items win. |
| PyDicts.Filter | gerrydb_etl/bootstrap/pl_pop_tables.py:127-129 | A filtered dict holds exactly the items whose key is kept. |
| PyDicts.FilterGet | gerrydb_etl/bootstrap/pl_pop_tables.py:127-129 | A filtered dict keeps the value of every kept key and has no other key. |
| PyDicts.ToMap | gerrydb_etl/bootstrap/pl_pop_tables.py:176 | The items as a map: a key is present exactly when some item carries it, with the last item's value. |

## Left out

- Network and file I/O are not modelled. Downloads, shapefile reading, the Census API request and the YAML column configuration become input sequences, or are not modelled.
- The GerryDB client calls (`db.context`, `ctx.columns.create`, `create_bulk`, `load_dataframe`, the API-mode branches) are not modelled. Their results are inputs: the created geographies, the locality references, the existing columns and column sets.
- SQLAlchemy is reduced to what the loaders rely on. A session is a durable and a working snapshot plus a call log. A nested `begin(nested=True)` is one atomic step. A query returns rows in table order.
- Environment variables (`GERRYDB_EMAIL`, `GERRYDB_DRY_RUN`, `CHERRY_DRY_RUN`, …) and `datetime.now` are parameters. Whether `commit()` fails is a parameter too.
- Geometry and floating point are not modelled: centroids, `unary_union`, internal points, and the latitude/longitude to UTM conversion (`utm_of_point`). A county's UTM zone is an input.
- Logging, `print`, the `notes` and description texts of the import metadata (beyond the column description), and the `GERRYDB_BULK_IMPORT` / `crud is None` `RuntimeError` are not modelled.
- Strings.Lower: folds ASCII letters only; Python's `lower()` also folds other Unicode letters.
- ColumnValues.ColumnValue: the database-assigned `val_id` is the row's position in the store, since rows are never deleted. Likewise `PlGeo.NewVersions` numbers new `set_version_id`s after the existing versions.
- PlPopTables.RowIds: requires every record to have as many fields as the header. `DataFrame.from_records` on ragged rows is not modelled.
- `astype(int)` on the loaded table columns (gerrydb_etl/bootstrap/pl_pop_tables.py:130-131) is not modelled. Cells reach the loader as already-typed values.
- The `groupby` that builds `geos_by_county` (gerrydb_etl/bootstrap/pl_geo.py:99-103) is not modelled. The county lists are an input.
- PlGeo.CountyGeosMatchLayer: covers levels other than AIANNH only. An AIANNH county list would keep the tagged GEOID without the state suffix, but AIANNH layers carry no county column.
- PlGeo.GeoSetTables.ReplaceGeoSets: `loc_ids` is treated as a list that can be iterated twice (gerrydb_etl/bootstrap/pl_geo.py:253, 260). Whether the second iteration of the SQLAlchemy result sees any rows is not modelled.
- PlGeo.ReplacedKeepsOneCurrent: assumes the found paths name distinct localities. The database's path-to-locality relation is not modelled.
- Column-creation `ResultError`s other than "already exists" (gerrydb_etl/bootstrap/pl_pop_table_columns.py:237-238, 252-253) are not modelled. Creation either succeeds or finds the existing column or column set.
- What the client library's `db.context` does on an exception is not part of this model. The `ctx.columns.create` calls of a table that raises have already been made (gerrydb_etl/bootstrap/pl_pop_table_columns.py:208-217), so the model keeps those columns in the namespace.
- `PopTableColumns.PlanTableSpec` and its lemmas take the column builder as a parameter. `CreateColumns` instantiates it with `NewColumn` for its year and table.
- `PlLocalities.CountyLocalities` takes the override tables as a parameter; `LoadLocalities` uses the source's constants.
- PlLocalities.LoadLocalities: the metadata of the two `db.context` blocks (their notes and the file hashes) and a failure of a client call itself are not modelled; every push is taken to succeed.
- PopTableColumns.CanonicalName: its own contract covers one-part labels only. The multi-part case is proved by `PopTableColumns.CanonicalNameOfParts` for labels whose parts hold no ';', which every P.L. 94-171 label meets; a part containing ';' but not "; " is not covered.
- PlLocalities.SortByGeoid: states sortedness and permutation, not the stability of the sort among equal GEOIDs.
- PlLocalities.CountyLocality: a county whose state FIPS is not among the states would get a NaN name from `map`, and `pathify` of it raises. This is modelled as an `UnknownState` error.
- The `us` package's state list is an input (`states`), not the package's data.
- `templated_columns.py`, `daves_enacted.py`, `localities_base.py` and the cherrydb bootstrap scripts are not part of this model.

## Findings

| source | as written | input that shows it | evidently intended | confidence | as-written member | corrected member |
|---|---|---|---|---|---|---|
| gerrydb_etl/db.py:104-105 (also cherrydb_etl/db.py:100-101) | A BOOL column flags a value when it IS a boolean. | A BOOL column holding `True` gets "Expected boolean …"; one holding "yes" passes. | Flag values that are not booleans. | not executed | ColumnValues.BoolCheckIsInverted | ColumnValues.IntendedCheckCell |
| gerrydb_etl/db.py:88, 116-117 (also cherrydb_etl/db.py:84, 112-113) | `validation_errors` is reset for every column, so only the last column's errors are checked. | Columns a, b (INTEGER) over geography x with a = "oops", b = 1: the string is written. | Check every column before writing. | not executed | ColumnValues.GerryLoadIgnoresEarlierColumnErrors | ColumnValues.IntendedLoadReportsEarlierColumnErrors |
| gerrydb_etl/db.py:117 (also cherrydb_etl/db.py:113) | `ValueError(errors=...)`: built-in exceptions take no keyword arguments, so the raise itself fails with `TypeError`. | Any load whose last column has a flagged cell. | Raise a validation error carrying the messages. | not executed | ColumnValues.ValidationMessagesAreLost | ColumnValues.IntendedLoadRejectsAnyInvalidCell |
| gerrydb_etl/db.py:85-116 (also cherrydb_etl/db.py:80-112) | With an empty `cols`, `validation_errors` is read before it is ever assigned. | `cols = {}`: `UnboundLocalError`. | Loading no columns does nothing. | not executed | ColumnValues.LoadOfNothingRaises | ColumnValues.IntendedLoadOfNothing |
| gerrydb_etl/db.py:140-146 | The close-out matches every row of a stale (col, geo) pair, without `valid_to IS NULL`. | A pair with a row closed at t0 and a current row, reloaded at `now`: the old row's `valid_to` becomes `now`. | Close only the current values; history is kept. | not executed | ColumnValues.GerryLoadRewritesClosedRows | ColumnValues.IntendedLoadKeepsHistory |
| cherrydb_etl/db.py:83, 138 | `rows` is reset inside the column loop, but stale values of all columns are closed. | Two columns c1, c2 and a current value of (c1, g): it is closed, and only c2's rows are inserted. | Insert every column's rows; each loaded pair keeps one current value. | not executed | ColumnValues.CherryLoadDropsCurrentValues | ColumnValues.IntendedLoadCurrent |
| cherrydb_etl/db.py:55-64 | `__exit__` ignores `exc_type`, so a block that raised is committed. | An exception inside the block with no dry run: commit. | Roll back after an exception, as the current package does. | not executed | CherryDb.ExceptionIsCommitted | GerryDb.RollbackConditions |
