/**
 * The part of a database session the direct loaders use: a transaction over
 * the column-value store and the object metadata table, and the user table it
 * reads. `durable` is what committed transactions have stored, `working` is
 * what the open transaction sees; `ops` logs the calls made on the session.
 */
module Sessions {
  import opened Wrappers
  import opened ColumnValues

  datatype User = User(userId: nat, email: string)

  /** Metadata attached to every object a transaction writes. */
  datatype ObjectMeta = ObjectMeta(metaId: nat, notes: Option<string>, createdBy: Option<nat>)

  datatype Snapshot = Snapshot(values: seq<ColumnValue>, metas: seq<ObjectMeta>)

  datatype SessionOp = Begin | Commit | Rollback | Close

  /**
   * `query(User).filter(User.email == email).first()`: the first user with that
   * address. Comparing with `None` selects rows whose address is NULL, and no
   * user here lacks one.
   */
  function FirstUserWithEmail(users: seq<User>, email: Option<string>): (r: Option<User>)
    ensures r.None? <==> (email.None? || forall i :: 0 <= i < |users| ==> users[i].email != email.value)
    ensures r.Some? ==> email == Some(r.value.email) && exists i :: (0 <= i < |users| && users[i] == r.value
                          && forall j :: 0 <= j < i ==> users[j].email != email.value)
  {
    if email.None? || |users| == 0 then None
    else if users[0].email == email.value then Some(users[0])
    else
      var r := FirstUserWithEmail(users[1..], email);
      assert forall i :: 1 <= i < |users| ==> users[i] == users[1..][i - 1];
      r
  }

  function UserIdOf(user: Option<User>): Option<nat> {
    if user.Some? then Some(user.value.userId) else None
  }

  class Session {
    var durable: Snapshot
    var working: Snapshot
    const users: seq<User>
    var ops: seq<SessionOp>

    /** A session over a database holding `database` and `users`. */
    constructor (database: Snapshot, users: seq<User>)
      ensures durable == database && working == database && this.users == users && ops == []
    {
      durable := database;
      working := database;
      this.users := users;
      ops := [];
    }

    method Begin()
      modifies this
      ensures durable == old(durable) && working == old(working) && ops == old(ops) + [SessionOp.Begin]
    {
      ops := ops + [SessionOp.Begin];
    }

    /** Makes the transaction's work durable, unless the commit fails (`fails`). */
    method Commit(fails: bool) returns (ok: bool)
      modifies this
      ensures ok == !fails
      ensures durable == (if ok then old(working) else old(durable))
      ensures working == old(working) && ops == old(ops) + [SessionOp.Commit]
    {
      ops := ops + [SessionOp.Commit];
      if fails {
        return false;
      }
      durable := working;
      return true;
    }

    /** Discards the transaction's work. */
    method Rollback()
      modifies this
      ensures working == durable == old(durable) && ops == old(ops) + [SessionOp.Rollback]
    {
      working := durable;
      ops := ops + [SessionOp.Rollback];
    }

    method Close()
      modifies this
      ensures durable == old(durable) && working == old(working) && ops == old(ops) + [SessionOp.Close]
    {
      ops := ops + [SessionOp.Close];
    }

    /** `obj_meta.create`: a new metadata row, numbered after the existing ones. */
    method CreateMeta(notes: Option<string>, user: Option<User>) returns (meta: ObjectMeta)
      modifies this
      ensures meta == ObjectMeta(|old(working.metas)|, notes, UserIdOf(user))
      ensures working == old(working).(metas := old(working.metas) + [meta])
      ensures durable == old(durable) && ops == old(ops)
    {
      meta := ObjectMeta(|working.metas|, notes, UserIdOf(user));
      working := working.(metas := working.metas + [meta]);
    }

    /** Replaces the column-value table inside the open transaction. */
    method WriteValues(values: seq<ColumnValue>)
      modifies this
      ensures working == old(working).(values := values)
      ensures durable == old(durable) && ops == old(ops)
    {
      working := working.(values := values);
    }
  }
}
