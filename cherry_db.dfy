/**
 * `DirectTransactionContext` of the legacy ETL package. It differs from the
 * current one in three places: `__exit__` does not look at the exception, the
 * loader restarts its row list for every column, and stale values are found by
 * one cross-filtered query and closed by `val_id`.
 */
module CherryDb {
  import opened Wrappers
  import opened Strings
  import opened ColumnValues
  import opened Sessions
  import GerryDb

  /** Whether `__exit__` rolls back: only on the dry-run flag or variable. */
  predicate RollsBack(dryRun: bool, envDryRun: Option<string>) {
    dryRun || Lower(GerryDb.EnvOr(envDryRun, "")) == "true"
  }

  /**
   * The legacy exit ignores the exception: it decides as the current exit does
   * when nothing was raised, so an exception inside the block is followed by a
   * commit, where the current exit rolls back.
   */
  lemma ExceptionIsCommitted(excRaised: bool, dryRun: bool, envDryRun: Option<string>)
    ensures RollsBack(dryRun, envDryRun) == GerryDb.RollsBack(false, dryRun, envDryRun)
    ensures excRaised && !RollsBack(dryRun, envDryRun) ==> GerryDb.RollsBack(excRaised, dryRun, envDryRun)
    ensures !RollsBack(false, None) && GerryDb.RollsBack(true, false, None)
  {
    assert Lower("") == "";
  }

  class DirectTransactionContext {
    var db: Session?
    var dryRun: bool
    var notes: Option<string>
    var email: Option<string>
    var meta: Option<ObjectMeta>
    var user: Option<User>

    constructor (db: Session?, dryRun: bool, notes: Option<string>, email: Option<string>,
                 meta: Option<ObjectMeta>, user: Option<User>)
      ensures this.db == db && this.dryRun == dryRun && this.notes == notes && this.email == email
      ensures this.meta == meta && this.user == user
    {
      this.db := db;
      this.dryRun := dryRun;
      this.notes := notes;
      this.email := email;
      this.meta := meta;
      this.user := user;
    }

    /**
     * `__enter__`: opens a session on `database` when none was given, begins a
     * transaction, and fills in the e-mail address (from the environment), the
     * user (by that address) and the metadata row (carrying the notes) that
     * were not given, creating at most one metadata row.
     */
    method Enter(database: Snapshot, users: seq<User>, envEmail: Option<string>)
      modifies this, db
      ensures db != null
      ensures old(db) != null ==> db == old(db)
      ensures old(db) == null ==> fresh(db) && db.users == users
      ensures db.durable == (if old(db) == null then database else old(db.durable))
      ensures db.ops == (if old(db) == null then [] else old(db.ops)) + [SessionOp.Begin]
      ensures email == (if old(email).None? then envEmail else old(email))
      ensures user == (if old(user).None? then FirstUserWithEmail(db.users, email) else old(user))
      ensures var before := if old(db) == null then database else old(db.working);
        if old(meta).None? then
          meta == Some(ObjectMeta(|before.metas|, notes, UserIdOf(user)))
          && db.working == before.(metas := before.metas + [meta.value])
        else
          meta == old(meta) && db.working == before
      ensures dryRun == old(dryRun) && notes == old(notes)
    {
      if db == null {
        db := new Session(database, users);
      }
      db.Begin();
      if email.None? {
        email := envEmail;
      }
      if user.None? {
        user := FirstUserWithEmail(db.users, email);
      }
      if meta.None? {
        var created := db.CreateMeta(notes, user);
        meta := Some(created);
      }
    }

    /**
     * `__exit__`: rolls back on a dry run and otherwise commits, whether or not
     * the block raised (`excRaised` is not consulted); a failed commit is rolled
     * back and re-raised (`raised`) without closing the session.
     */
    method Exit(excRaised: bool, envDryRun: Option<string>, commitFails: bool) returns (raised: bool)
      requires db != null
      modifies db
      ensures raised <==> !RollsBack(dryRun, envDryRun) && commitFails
      ensures db.durable == (if RollsBack(dryRun, envDryRun) || commitFails then old(db.durable) else old(db.working))
      ensures db.working == (if RollsBack(dryRun, envDryRun) || commitFails then old(db.durable) else old(db.working))
      ensures RollsBack(dryRun, envDryRun) ==> db.ops == old(db.ops) + [SessionOp.Rollback, SessionOp.Close]
      ensures !RollsBack(dryRun, envDryRun) && commitFails ==> db.ops == old(db.ops) + [SessionOp.Commit, SessionOp.Rollback]
      ensures !RollsBack(dryRun, envDryRun) && !commitFails ==> db.ops == old(db.ops) + [SessionOp.Commit, SessionOp.Close]
    {
      if RollsBack(dryRun, envDryRun) {
        db.Rollback();
      } else {
        var ok := db.Commit(commitFails);
        if !ok {
          db.Rollback();
          return true;
        }
      }
      db.Close();
      return false;
    }

    /**
     * `load_column_values` of the legacy package: the outcome and the new table
     * are those of `CherryLoad`; on any error the table is unchanged.
     */
    method LoadColumnValues(cols: seq<(string, DataColumn)>, geos: map<string, Geography>, df: DataFrame, now: Time)
      returns (outcome: Outcome<LoadError>)
      requires db != null && meta.Some? && df.Valid()
      modifies db
      ensures db.durable == old(db.durable) && db.ops == old(db.ops) && db.working.metas == old(db.working.metas)
      ensures var expected := CherryLoad(old(db.working.values), cols, geos, df, meta.value.metaId, now);
        if expected.Success? then outcome == Pass && db.working.values == expected.value
        else outcome == Fail(expected.error) && db.working.values == old(db.working.values)
    {
      var collected := CollectBatch(cols, geos, df, meta.value.metaId, now, true);
      if collected.Failure? {
        return Fail(collected.error);
      }
      var rows := collected.value.rows;
      var validationErrors := collected.value.lastErrors;
      if validationErrors.None? {
        return Fail(ErrorsUnbound);
      }
      if validationErrors.value != [] {
        return Fail(KeywordRejected);
      }

      var store := db.working.values;
      var stale := CherryStale(store, (set c | c in ColIds(cols)), GeoIds(geos));

      // The nested transaction: the close-out and the insert land together.
      var closed := store;
      if stale != {} {
        closed := CloseByIds(store, stale, now);
      }
      db.WriteValues(closed + rows);
      return Pass;
    }
  }
}
