/** The repository object: the loops of the sync and replication operations over the mutable store. */
module IdentityRepository {
  import opened Wrappers
  import opened IdentityStore
  import opened IdentitySync
  import opened IdentityReplication

  datatype ImportCounts = ImportCounts(usersInserted: nat, groupsInserted: nat, rolesInserted: nat)

  class Repository {
    const local: ConnId
    var db: Db

    constructor (local: ConnId)
      ensures this.local == local && db == EMPTY && Inv(db, local)
    {
      this.local := local;
      db := EMPTY;
    }

    /** Create or update one user of a connection, after the collision checks. */
    method UpsertUser(c: ConnId, input: UpsertInput, freshId: Id, now: int) returns (error: Option<Error>, id: Id)
      requires Inv(db, local) && freshId !in db.users
      modifies this
      ensures Inv(db, local) && OthersUnchanged(old(db), db, c) && ManualUnchanged(old(db), db)
      ensures error.Some? <==> UpsertChecksFail(old(db), c, input)
      ensures error.Some? ==> error == Some(UsernameCollision) && db == old(db)
      ensures error.None? ==>
                && IsUserRow(db.users, id, c, input.externalId)
                && db == old(db).(users := old(db).users[id := db.users[id]])
                && HoldsInput(db.users[id], c, input) && db.users[id].origin == Synced
                && db.users[id].createdAt == if id in old(db).users then old(db).users[id].createdAt else now
    {
      var colliding := Colliding(db, c, input);
      id := freshId;
      if colliding != {} {
        return Some(UsernameCollision), id;
      }
      var existing := set id | id in db.users && IsUserRow(db.users, id, c, input.externalId);
      var row := SyncedUser(c, input, now);
      if existing != {} {
        id :| id in existing;
        if db.users[id].origin == Manual {
          return Some(UsernameCollision), id;
        }
        row := UpdatedUser(db.users[id], input);
      }
      assert forall other :: other in db.users && IsUserRow(db.users, other, c, input.externalId) ==> other in existing;
      UpsertedRowIsSafe(db, local, c, input, id, row);
      db := db.(users := db.users[id := row]);
      return None, id;
    }

    /** Replace a user's groups or roles; a listed group or role of another source is refused. */
    method ReplaceMembers(side: Side, user: Id, ids: seq<Id>) returns (error: Option<Error>)
      requires Inv(db, local)
      modifies this
      ensures Inv(db, local)
      ensures user in old(db).users ==> OthersUnchanged(old(db), db, old(db).users[user].conn)
      ensures var entries := old(db).Entries(side);
              var foreign := user in old(db).users && exists k :: 0 <= k < |ids| && ids[k] in entries && entries[ids[k]].conn != old(db).users[user].conn;
              var valid := ids == [] || (user in old(db).users && NoRepeats(ids) && forall k :: 0 <= k < |ids| ==> ids[k] in entries);
              && (error == Some(CrossConnection) <==> foreign)
              && (error == Some(ConstraintViolated) <==> !foreign && !valid)
      ensures error.Some? ==> error.value in {CrossConnection, ConstraintViolated}
      ensures error.Some? ==> db == old(db)
      ensures error.None? && user in old(db).users ==> forall e :: (user, e) in db.Members(side) <==> e in ids
      ensures forall u, e :: u != user ==> ((u, e) in db.Members(side) <==> (u, e) in old(db).Members(side))
    {
      ReplacedMeans(db, side, user, ids);
      ghost var c := if user in db.users then db.users[user].conn else local;
      ReplaceMembersIsSafe(db, local, c, side, user, ids);
      ghost var expected := Apply(db, c, SyncOp.ReplaceMembers(side, user, ids));
      if SomeForeign(db, side, user, ids) {
        return Some(CrossConnection);
      }
      if InsertFails(db, side, user, ids) {
        return Some(ConstraintViolated);
      }
      db := Replaced(db, side, user, ids);
      assert db == expected.db;
      return None;
    }

    /** One transaction per user: its memberships go and it becomes inactive. */
    method DeactivateUsersNotIn(c: ConnId, externalIds: set<ExternalId>) returns (count: nat)
      requires Inv(db, local)
      modifies this
      ensures db == Deactivated(old(db), MissingUsers(old(db), c, externalIds))
      ensures count == |MissingUsers(old(db), c, externalIds)|
      ensures db.users.Keys == old(db).users.Keys
      ensures forall id :: id in db.users ==>
                var row := old(db).users[id];
                db.users[id] == if row.conn == c && row.origin == Synced && row.externalId !in externalIds then row.(active := false) else row
      ensures Inv(db, local) && OthersUnchanged(old(db), db, c)
      ensures forall id :: id in db.users && db.users[id].conn == c && db.users[id].origin == Synced && db.users[id].active
                ==> db.users[id].externalId in externalIds
    {
      var missing := MissingUsers(db, c, externalIds);
      count := |missing|;
      ghost var start := db;
      var left := missing;
      DeactivateNone(start);
      while left != {}
        invariant left <= missing
        invariant db == Deactivated(start, missing - left)
        decreases left
      {
        var id :| id in left;
        DeactivateMore(start, missing - left, {id});
        db := Deactivated(db, {id});
        assert missing - (left - {id}) == (missing - left) + {id};
        left := left - {id};
      }
      assert missing - left == missing;
      DeactivationLaws(start, local, c, externalIds);
    }

    /** Take a connection's synced identities out of service, 200 users per transaction, or delete them. */
    method RemoveConnection(c: ConnId, mode: RemovalMode, order: seq<Id>) returns (removed: nat)
      requires Inv(db, local)
      requires NoRepeats(order) && Elements(order) == SyncedUserIds(db, c)
      modifies this
      ensures db == Apply(old(db), c, SyncOp.RemoveConnection(mode)).db
      ensures removed == |order|
      ensures Inv(db, local) && OthersUnchanged(old(db), db, c)
    {
      BulkOpIsSafe(db, local, c, SyncOp.RemoveConnection(mode));
      removed := |order|;
      if mode == DeleteMode {
        db := Removed(db, c);
        return;
      }
      var parts := Chunk(order, 200);
      DeactivateParts(parts);
    }

    /** One transaction per part. */
    method DeactivateParts(parts: seq<seq<Id>>)
      modifies this
      ensures db == Deactivated(old(db), Elements(Flatten(parts)))
    {
      ghost var start := db;
      DeactivateNone(start);
      for i := 0 to |parts|
        invariant db == Deactivated(start, Elements(Flatten(parts[..i])))
      {
        assert parts[..i + 1][..i] == parts[..i];
        DeactivateMore(start, Elements(Flatten(parts[..i])), Elements(parts[i]));
        ElementsAppend(Flatten(parts[..i]), parts[i]);
        db := Deactivated(db, Elements(parts[i]));
      }
      assert parts[..|parts|] == parts;
    }

    /** The rows of a snapshot: groups, roles, users. */
    method ImportTableLoops(s: Snapshot, mode: ImportMode) returns (ok: bool, counts: ImportCounts)
      modifies this
      ensures ok <==> ImportTables(old(db), s, mode).Some?
      ensures ok ==> ImportTables(old(db), s, mode) == Some(db)
      ensures db.userGroups == old(db).userGroups && db.userRoles == old(db).userRoles
      ensures |db.users| == |old(db).users| + counts.usersInserted && |db.groups| == |old(db).groups| + counts.groupsInserted
      ensures |db.roles| == |old(db).roles| + counts.rolesInserted
      ensures mode == InsertMissing ==>
                SubMap(old(db).users, db.users) && SubMap(old(db).groups, db.groups) && SubMap(old(db).roles, db.roles)
    {
      counts := ImportCounts(0, 0, 0);
      var rowsOk, groups, inserted := ImportRowLoop(ENTRY_TABLE, db.groups, s.groups, mode);
      db := db.(groups := groups);
      counts := counts.(groupsInserted := inserted);
      if !rowsOk {
        return false, counts;
      }
      var roles;
      rowsOk, roles, inserted := ImportRowLoop(ENTRY_TABLE, db.roles, s.roles, mode);
      db := db.(roles := roles);
      counts := counts.(rolesInserted := inserted);
      if !rowsOk {
        return false, counts;
      }
      var users;
      rowsOk, users, inserted := ImportRowLoop(USER_TABLE, db.users, s.users, mode);
      db := db.(users := users);
      counts := counts.(usersInserted := inserted);
      ok := rowsOk;
    }

    /** The missing memberships of a snapshot whose rows are imported, in parts of 500. */
    method ImportMemberLoops(s: Snapshot) returns (ok: bool, ghost groupParts: seq<seq<(Id, Id)>>, ghost roleParts: seq<seq<(Id, Id)>>)
      modifies this
      ensures Flatten(groupParts) == NewPairs(old(db).userGroups, s.userGroups)
      ensures Flatten(roleParts) == NewPairs(old(db).userRoles, s.userRoles)
      ensures var groups := InsertParts(old(db).userGroups, old(db).users, old(db).groups, groupParts);
              var roles := InsertParts(old(db).userRoles, old(db).users, old(db).roles, roleParts);
              && (ok <==> groups.Some? && roles.Some?)
              && (ok ==> db == old(db).(userGroups := groups.value, userRoles := roles.value))
      ensures db.users == old(db).users && db.groups == old(db).groups && db.roles == old(db).roles
    {
      var parts := Chunk(NewPairs(db.userGroups, s.userGroups), 500);
      var moreParts := Chunk(NewPairs(db.userRoles, s.userRoles), 500);
      groupParts, roleParts := parts, moreParts;
      var userGroups;
      ok, userGroups := InsertPartsLoop(db.userGroups, db.users, db.groups, parts);
      db := db.(userGroups := userGroups);
      if !ok {
        return;
      }
      var userRoles;
      ok, userRoles := InsertPartsLoop(db.userRoles, db.users, db.roles, moreParts);
      db := db.(userRoles := userRoles);
    }

    /**
     * Import a snapshot: its rows, then the missing memberships. A constraint error stops the import where it is.
     * An export whose reads were torn by a write goes into an empty store exactly if none of its memberships dangles.
     */
    method ImportSnapshot(s: Snapshot, mode: ImportMode) returns (ok: bool, counts: ImportCounts)
      modifies this
      ensures ok ==> ImportTables(old(db), s, mode) == Some(db.(userGroups := old(db).userGroups, userRoles := old(db).userRoles))
      ensures ok ==> exists parts :: Flatten(parts) == NewPairs(old(db).userGroups, s.userGroups)
                                     && InsertParts(old(db).userGroups, db.users, db.groups, parts) == Some(db.userGroups)
      ensures ok ==> exists parts :: Flatten(parts) == NewPairs(old(db).userRoles, s.userRoles)
                                     && InsertParts(old(db).userRoles, db.users, db.roles, parts) == Some(db.userRoles)
      ensures |db.users| == |old(db).users| + counts.usersInserted && |db.groups| == |old(db).groups| + counts.groupsInserted
      ensures |db.roles| == |old(db).roles| + counts.rolesInserted
      ensures mode == InsertMissing ==>
                SubMap(old(db).users, db.users) && SubMap(old(db).groups, db.groups) && SubMap(old(db).roles, db.roles)
      ensures SchemaOk(old(db)) && IsSnapshot(old(db), s) ==> ok && db == old(db)
      ensures forall source :: old(db) == EMPTY && SchemaOk(source) && IsSnapshot(source, s) ==> ok && db == source
      ensures forall torn :: old(db) == EMPTY && KeysUnique(torn) && IsSnapshot(torn, s) ==> (ok <==> IsWhole(torn)) && (ok ==> db == torn)
    {
      ghost var start := db;
      ok, counts := ImportTableLoops(s, mode);
      ghost var middle := db;
      ghost var groupParts, roleParts;
      if ok {
        ok, groupParts, roleParts := ImportMemberLoops(s);
        ImportIntoSelf(start, middle, db, s, mode, ok, groupParts, roleParts);
        ImportIntoEmpty(start, middle, db, s, mode, ok, groupParts, roleParts);
      } else {
        TablesGoIn(start, s, mode);
      }
    }
  }

  /** The loop over one table's rows; it stops at the first constraint error. */
  method ImportRowLoop<T>(table: Table<T>, start: map<Id, T>, items: seq<(Id, T)>, mode: ImportMode)
    returns (ok: bool, rows: map<Id, T>, inserted: nat)
    ensures ok <==> ImportRows(table, start, start.Keys, items, mode).Some?
    ensures ok ==> ImportRows(table, start, start.Keys, items, mode) == Some(rows)
    ensures mode == InsertMissing ==> SubMap(start, rows)
    ensures |rows| == |start| + inserted
  {
    var existing := start.Keys;
    rows, inserted := start, 0;
    for i := 0 to |items|
      invariant ImportRows(table, start, existing, items[..i], mode) == Some(rows)
      invariant start.Keys <= rows.Keys && |rows| == |start| + inserted
      invariant mode == InsertMissing ==> SubMap(start, rows)
    {
      assert items[..i + 1][..i] == items[..i];
      var next := ImportRow(table, rows, existing, items[i], mode);
      if next.None? {
        StopsForGood(table, start, existing, items, mode, i + 1);
        assert items[..|items|] == items;
        return false, rows, inserted;
      }
      if items[i].0 !in existing {
        inserted := inserted + 1;
      }
      rows := next.value;
    }
    assert items[..|items|] == items;
    ok := true;
  }

  lemma {:induction false} StopsForGood<T>(table: Table<T>, start: map<Id, T>, existing: set<Id>, items: seq<(Id, T)>, mode: ImportMode, k: nat)
    requires k <= |items| && ImportRows(table, start, existing, items[..k], mode).None?
    ensures ImportRows(table, start, existing, items, mode).None?
    decreases |items| - k
  {
    if k < |items| {
      assert items[..k + 1][..k] == items[..k];
      StopsForGood(table, start, existing, items, mode, k + 1);
    } else {
      assert items[..k] == items;
    }
  }

  method InsertPartsLoop(start: Members, users: Users, entries: Entries, parts: seq<seq<(Id, Id)>>)
    returns (ok: bool, members: Members)
    ensures ok <==> InsertParts(start, users, entries, parts).Some?
    ensures ok ==> InsertParts(start, users, entries, parts) == Some(members)
  {
    members := start;
    for i := 0 to |parts|
      invariant InsertParts(start, users, entries, parts[..i]) == Some(members)
    {
      assert parts[..i + 1][..i] == parts[..i];
      var next := InsertPart(members, users, entries, parts[i]);
      if next.None? {
        PartsStopForGood(start, users, entries, parts, i + 1);
        return false, members;
      }
      members := next.value;
    }
    assert parts[..|parts|] == parts;
    ok := true;
  }

  lemma {:induction false} PartsStopForGood(start: Members, users: Users, entries: Entries, parts: seq<seq<(Id, Id)>>, k: nat)
    requires k <= |parts| && InsertParts(start, users, entries, parts[..k]).None?
    ensures InsertParts(start, users, entries, parts).None?
    decreases |parts| - k
  {
    if k < |parts| {
      assert parts[..k + 1][..k] == parts[..k];
      PartsStopForGood(start, users, entries, parts, k + 1);
    } else {
      assert parts[..k] == parts;
    }
  }

  lemma DeactivateMore(db: Db, done: set<Id>, more: set<Id>)
    ensures Deactivated(Deactivated(db, done), more) == Deactivated(db, done + more)
  {
    var a, b := Deactivated(Deactivated(db, done), more), Deactivated(db, done + more);
    assert a.users == b.users && a.userGroups == b.userGroups && a.userRoles == b.userRoles;
  }

  lemma DeactivateNone(db: Db)
    ensures Deactivated(db, {}) == db
  {
    assert Deactivated(db, {}).users == db.users;
  }

  lemma DeactivationLaws(db: Db, local: ConnId, c: ConnId, externalIds: set<ExternalId>)
    requires Inv(db, local)
    ensures var db' := Deactivated(db, MissingUsers(db, c, externalIds));
            && Inv(db', local) && OthersUnchanged(db, db', c)
            && forall id :: id in db'.users && db'.users[id].conn == c && db'.users[id].origin == Synced && db'.users[id].active
                 ==> db'.users[id].externalId in externalIds
  {
    DeactivatedIsSafe(db, local, c, MissingUsers(db, c, externalIds));
  }

  /** Rows that hold the username without being the row of this connection and external id. */
  function Colliding(db: Db, c: ConnId, input: UpsertInput): set<Id> {
    set id | id in db.users && db.users[id].username == input.username
             && (db.users[id].conn != c || db.users[id].externalId != input.externalId)
  }

  lemma UpsertedRowIsSafe(db: Db, local: ConnId, c: ConnId, input: UpsertInput, id: Id, row: User)
    requires Inv(db, local) && Colliding(db, c, input) == {}
    requires row.conn == c && row.externalId == input.externalId && row.username == input.username
    requires if HasUserRow(db.users, c, input.externalId) then IsUserRow(db.users, id, c, input.externalId) else id !in db.users
    requires row.origin == Synced && (id in db.users ==> db.users[id].origin == Synced)
    ensures var db' := db.(users := db.users[id := row]);
            Inv(db', local) && OthersUnchanged(db, db', c) && ManualUnchanged(db, db') && !UpsertChecksFail(db, c, input)
  {
    assert OnlyUserRow(db.users, id, row) by {
      forall other | other in db.users && db.users[other].conn == c && db.users[other].externalId == input.externalId
        ensures other == id
      {
        assert IsUserRow(db.users, other, c, input.externalId);
      }
    }
    assert !UsernameTakenByOther(db.users, input.username, id) by {
      forall other | other in db.users && other != id ensures db.users[other].username != input.username {
        assert other !in Colliding(db, c, input);
      }
    }
    PutUserIsSafe(db, local, id, row);
    assert forall other :: other in db.users && db.users[other].username == input.username ==> other !in Colliding(db, c, input);
  }

  lemma ElementsAppend(a: seq<Id>, b: seq<Id>)
    ensures Elements(a + b) == Elements(a) + Elements(b)
  {
  }

  /** An import of a store's own export, torn or not, does not stop at its rows. */
  lemma TablesGoIn(start: Db, s: Snapshot, mode: ImportMode)
    requires ImportTables(start, s, mode).None?
    ensures !(SchemaOk(start) && IsSnapshot(start, s))
    ensures forall torn :: !(start == EMPTY && KeysUnique(torn) && IsSnapshot(torn, s))
    ensures forall source :: !(start == EMPTY && SchemaOk(source) && IsSnapshot(source, s))
  {
    if SchemaOk(start) && IsSnapshot(start, s) {
      TablesIntoSelf(start, s, mode);
    }
    forall torn | start == EMPTY && KeysUnique(torn) && IsSnapshot(torn, s) ensures false {
      TablesIntoEmpty(torn, s, mode);
    }
  }

  /** What the loops over the memberships do to a store whose rows are imported. */
  ghost predicate MembersImported(
    middle: Db, end: Db, s: Snapshot, ok: bool, groupParts: seq<seq<(Id, Id)>>, roleParts: seq<seq<(Id, Id)>>)
  {
    var groups := InsertParts(middle.userGroups, middle.users, middle.groups, groupParts);
    var roles := InsertParts(middle.userRoles, middle.users, middle.roles, roleParts);
    && Flatten(groupParts) == NewPairs(middle.userGroups, s.userGroups)
    && Flatten(roleParts) == NewPairs(middle.userRoles, s.userRoles)
    && (ok <==> groups.Some? && roles.Some?)
    && (ok ==> end == middle.(userGroups := groups.value, userRoles := roles.value))
  }

  lemma ImportIntoSelf(start: Db, middle: Db, end: Db, s: Snapshot, mode: ImportMode, ok: bool,
                       groupParts: seq<seq<(Id, Id)>>, roleParts: seq<seq<(Id, Id)>>)
    requires ImportTables(start, s, mode) == Some(middle) && MembersImported(middle, end, s, ok, groupParts, roleParts)
    ensures SchemaOk(start) && IsSnapshot(start, s) ==> ok && end == start
  {
    if SchemaOk(start) && IsSnapshot(start, s) {
      TablesIntoSelf(start, s, mode);
      MembersComplete(start.users, start.groups, start.userGroups, start.userGroups, s.userGroups, groupParts);
      MembersComplete(start.users, start.roles, start.userRoles, start.userRoles, s.userRoles, roleParts);
    }
  }

  lemma ImportIntoEmpty(start: Db, middle: Db, end: Db, s: Snapshot, mode: ImportMode, ok: bool,
                        groupParts: seq<seq<(Id, Id)>>, roleParts: seq<seq<(Id, Id)>>)
    requires ImportTables(start, s, mode) == Some(middle) && MembersImported(middle, end, s, ok, groupParts, roleParts)
    ensures forall torn :: start == EMPTY && KeysUnique(torn) && IsSnapshot(torn, s) ==> (ok <==> IsWhole(torn)) && (ok ==> end == torn)
    ensures forall source :: start == EMPTY && SchemaOk(source) && IsSnapshot(source, s) ==> ok && end == source
  {
    forall torn | start == EMPTY && KeysUnique(torn) && IsSnapshot(torn, s)
      ensures (ok <==> IsWhole(torn)) && (ok ==> end == torn)
    {
      TablesIntoEmpty(torn, s, mode);
      MembersIntoEmptyIff(torn.users, torn.groups, torn.userGroups, s.userGroups, groupParts);
      MembersIntoEmptyIff(torn.users, torn.roles, torn.userRoles, s.userRoles, roleParts);
    }
    forall source | start == EMPTY && SchemaOk(source) && IsSnapshot(source, s) ensures ok && end == source {
      StoredIsWhole(source);
    }
  }
}
