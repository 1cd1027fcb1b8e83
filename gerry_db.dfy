/**
 * `DirectTransactionContext` of the current ETL package: a context manager
 * that opens one transaction with one metadata row for a bulk import, and the
 * direct column-value loader that writes inside it. The environment variables
 * the source reads and the clock are parameters here.
 */
module GerryDb {
  import opened Wrappers
  import opened Strings
  import opened ColumnValues
  import opened Sessions

  /** `os.getenv(name, default)` */
  function EnvOr(value: Option<string>, default: string): string {
    if value.Some? then value.value else default
  }

  /** Whether `__exit__` rolls the transaction back rather than committing it. */
  predicate RollsBack(excRaised: bool, dryRun: bool, envDryRun: Option<string>) {
    excRaised || dryRun || Lower(EnvOr(envDryRun, "")) == "true"
  }

  /**
   * The transaction is rolled back after an exception, on the dry-run flag, or
   * when the dry-run variable spells "true" in any letter case; it is committed
   * only when none of these holds.
   */
  lemma RollbackConditions(excRaised: bool, dryRun: bool, envDryRun: Option<string>)
    ensures excRaised ==> RollsBack(excRaised, dryRun, envDryRun)
    ensures dryRun ==> RollsBack(excRaised, dryRun, envDryRun)
    ensures envDryRun == Some("TRUE") || envDryRun == Some("True") ==> RollsBack(excRaised, dryRun, envDryRun)
    ensures !excRaised && !dryRun && (envDryRun.None? || envDryRun == Some("1") || envDryRun == Some("yes"))
      ==> !RollsBack(excRaised, dryRun, envDryRun)
  {
    assert Lower("TRUE") == "true";
    assert Lower("True") == "true";
    assert Lower("1") != "true";
    assert |Lower("yes")| == 3;
  }

  class DirectTransactionContext {
    var db: Session?
    var dryRun: bool
    var notes: Option<string>
    var email: Option<string>
    var meta: Option<ObjectMeta>
    var user: Option<User>

    constructor (db: Session?, dryRun: bool, notes: Option<string>, email: Option<string>,
                 meta: Option<ObjectMeta>, user: Option<User>)
      ensures this.db == db && this.dryRun == dryRun && this.notes == notes && this.email == email
      ensures this.meta == meta && this.user == user
    {
      this.db := db;
      this.dryRun := dryRun;
      this.notes := notes;
      this.email := email;
      this.meta := meta;
      this.user := user;
    }

    /**
     * `__enter__`: opens a session on `database` when none was given, begins a
     * transaction, and fills in the e-mail address (from the environment), the
     * user (by that address) and the metadata row (carrying the notes) that
     * were not given, creating at most one metadata row.
     */
    method Enter(database: Snapshot, users: seq<User>, envEmail: Option<string>)
      modifies this, db
      ensures db != null
      ensures old(db) != null ==> db == old(db)
      ensures old(db) == null ==> fresh(db) && db.users == users
      ensures db.durable == (if old(db) == null then database else old(db.durable))
      ensures db.ops == (if old(db) == null then [] else old(db.ops)) + [SessionOp.Begin]
      ensures email == (if old(email).None? then envEmail else old(email))
      ensures user == (if old(user).None? then FirstUserWithEmail(db.users, email) else old(user))
      ensures var before := if old(db) == null then database else old(db.working);
        if old(meta).None? then
          meta == Some(ObjectMeta(|before.metas|, notes, UserIdOf(user)))
          && db.working == before.(metas := before.metas + [meta.value])
        else
          meta == old(meta) && db.working == before
      ensures dryRun == old(dryRun) && notes == old(notes)
    {
      if db == null {
        db := new Session(database, users);
      }
      db.Begin();
      if email.None? {
        email := envEmail;
      }
      if user.None? {
        user := FirstUserWithEmail(db.users, email);
      }
      if meta.None? {
        var created := db.CreateMeta(notes, user);
        meta := Some(created);
      }
    }

    /**
     * `__exit__`: rolls back after an exception or on a dry run, otherwise
     * commits; a failed commit is rolled back and re-raised (`raised`) without
     * closing the session. The transaction's work becomes durable exactly when
     * it is committed and the commit succeeds.
     */
    method Exit(excRaised: bool, envDryRun: Option<string>, commitFails: bool) returns (raised: bool)
      requires db != null
      modifies db
      ensures raised <==> !RollsBack(excRaised, dryRun, envDryRun) && commitFails
      ensures db.durable == (if RollsBack(excRaised, dryRun, envDryRun) || commitFails then old(db.durable) else old(db.working))
      ensures db.working == (if RollsBack(excRaised, dryRun, envDryRun) || commitFails then old(db.durable) else old(db.working))
      ensures RollsBack(excRaised, dryRun, envDryRun) ==> db.ops == old(db.ops) + [SessionOp.Rollback, SessionOp.Close]
      ensures !RollsBack(excRaised, dryRun, envDryRun) && commitFails ==> db.ops == old(db.ops) + [SessionOp.Commit, SessionOp.Rollback]
      ensures !RollsBack(excRaised, dryRun, envDryRun) && !commitFails ==> db.ops == old(db.ops) + [SessionOp.Commit, SessionOp.Close]
    {
      if RollsBack(excRaised, dryRun, envDryRun) {
        db.Rollback();
      } else {
        var ok := db.Commit(commitFails);
        if !ok {
          db.Rollback();
          return true;
        }
      }
      db.Close();
      return false;
    }

    /**
     * `load_column_values`: type-checks every cell of the frame's `cols`
     * columns, then, inside a nested transaction, closes the detected stale
     * values and inserts one current row per cell. The outcome and the new
     * table are those of `GerryLoad`; on any error the table is unchanged.
     */
    method LoadColumnValues(cols: seq<(string, DataColumn)>, geos: map<string, Geography>, df: DataFrame, now: Time)
      returns (outcome: Outcome<LoadError>)
      requires db != null && meta.Some? && df.Valid()
      modifies db
      ensures db.durable == old(db.durable) && db.ops == old(db.ops) && db.working.metas == old(db.working.metas)
      ensures var expected := GerryLoad(old(db.working.values), cols, geos, df, meta.value.metaId, now);
        if expected.Success? then outcome == Pass && db.working.values == expected.value
        else outcome == Fail(expected.error) && db.working.values == old(db.working.values)
    {
      var collected := CollectBatch(cols, geos, df, meta.value.metaId, now, false);
      if collected.Failure? {
        return Fail(collected.error);
      }
      var rows := collected.value.rows;
      var validationErrors := collected.value.lastErrors;
      if validationErrors.None? {
        return Fail(ErrorsUnbound);
      }
      if validationErrors.value != [] {
        return Fail(KeywordRejected);
      }

      var store := db.working.values;
      var geoIds := GeoIds(geos);
      var colIds := ColIds(cols);
      var stale: seq<(nat, nat)> := [];
      var c := 0;
      while c < |colIds|
        invariant c <= |colIds|
        invariant stale == GerryStale(store, colIds[..c], geoIds)
      {
        assert colIds[..c + 1][..c] == colIds[..c];
        stale := stale + StalePairsFor(store, colIds[c], geoIds);
        c := c + 1;
      }
      assert colIds[..c] == colIds;

      // The nested transaction: the close-out and the insert land together.
      var closed := store;
      if |stale| > 0 {
        closed := CloseByPairs(store, (set p | p in stale), now);
      }
      db.WriteValues(closed + rows);
      return Pass;
    }
  }
}
