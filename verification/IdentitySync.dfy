/** The operations a sync run issues for one connection, and what they leave alone. */
module IdentitySync {
  import opened Wrappers
  import opened IdentityStore

  datatype RemovalMode = DeactivateMode | DeleteMode

  datatype SyncOp =
    | UpsertUser(input: UpsertInput, freshId: Id, now: int)
    | UpsertEntry(side: Side, externalId: ExternalId, name: Text, freshEntryId: Id, at: int)
    | ReplaceMembers(side: Side, user: Id, ids: seq<Id>)
    | DeactivateUsersNotIn(externalIds: set<ExternalId>)
    | DeleteOrphans(side: Side, externalIds: set<ExternalId>)
    | RemoveConnection(mode: RemovalMode)

  datatype StepResult = StepResult(db: Db, error: Option<Error>)

  /** The upsert statement itself, whatever was checked before it. */
  ghost function UpsertUserWrite(db: Db, c: ConnId, input: UpsertInput, freshId: Id, now: int): StepResult {
    if id :| IsUserRow(db.users, id, c, input.externalId) then
      if UsernameTakenByOther(db.users, input.username, id) then StepResult(db, Some(UsernameCollision))
      else StepResult(db.(users := db.users[id := UpdatedUser(db.users[id], input)]), None)
    else if UsernameTakenByOther(db.users, input.username, freshId) || freshId in db.users
    then StepResult(db, Some(UsernameCollision))
    else StepResult(db.(users := db.users[freshId := SyncedUser(c, input, now)]), None)
  }

  /** The checks made before the upsert: the username is free or this row's own, and the row is not manual. */
  predicate UpsertChecksFail(db: Db, c: ConnId, input: UpsertInput) {
    || (exists id :: id in db.users && db.users[id].username == input.username
                     && (db.users[id].conn != c || db.users[id].externalId != input.externalId))
    || (exists id :: id in db.users && IsUserRow(db.users, id, c, input.externalId) && db.users[id].origin == Manual)
  }

  ghost function UpsertEntryWrite(db: Db, c: ConnId, side: Side, externalId: ExternalId, name: Text, freshId: Id, now: int): StepResult {
    var entries := db.Entries(side);
    if id :| IsEntryRow(entries, id, c, externalId) then
      if NameTakenByOther(entries, c, name, id) then StepResult(db, Some(NameCollision))
      else StepResult(db.WithEntries(side, entries[id := entries[id].(name := name)]), None)
    else if NameTakenByOther(entries, c, name, freshId) || freshId in entries
    then StepResult(db, Some(NameCollision))
    else StepResult(db.WithEntries(side, entries[freshId := Entry(c, externalId, Synced, name, now)]), None)
  }

  ghost function Apply(db: Db, c: ConnId, op: SyncOp): StepResult {
    match op
    case UpsertUser(input, freshId, now) =>
      if UpsertChecksFail(db, c, input) then StepResult(db, Some(UsernameCollision))
      else UpsertUserWrite(db, c, input, freshId, now)
    case UpsertEntry(side, externalId, name, freshId, now) => UpsertEntryWrite(db, c, side, externalId, name, freshId, now)
    case ReplaceMembers(side, user, ids) =>
      if SomeForeign(db, side, user, ids) then StepResult(db, Some(CrossConnection))
      else if InsertFails(db, side, user, ids) then StepResult(db, Some(ConstraintViolated))
      else StepResult(Replaced(db, side, user, ids), None)
    case DeactivateUsersNotIn(externalIds) => StepResult(Deactivated(db, MissingUsers(db, c, externalIds)), None)
    case DeleteOrphans(side, externalIds) =>
      StepResult(WithoutEntries(db, side, MissingEntries(db, side, c, externalIds)), None)
    case RemoveConnection(mode) =>
      if mode == DeactivateMode then StepResult(Deactivated(db, SyncedUserIds(db, c)), None)
      else StepResult(Removed(db, c), None)
  }

  /** All synced rows of a connection, deleted in one transaction. */
  function Removed(db: Db, c: ConnId): Db {
    var noUsers := WithoutUsers(db, SyncedUserIds(db, c));
    var noGroups := WithoutEntries(noUsers, Groups, SyncedEntryIds(noUsers, Groups, c));
    WithoutEntries(noGroups, Roles, SyncedEntryIds(noGroups, Roles, c))
  }

  function MissingUsers(db: Db, c: ConnId, externalIds: set<ExternalId>): set<Id> {
    set id | id in SyncedUserIds(db, c) && db.users[id].externalId !in externalIds && db.users[id].active
  }

  function MissingEntries(db: Db, side: Side, c: ConnId, externalIds: set<ExternalId>): set<Id> {
    set id | id in SyncedEntryIds(db, side, c) && db.Entries(side)[id].externalId !in externalIds
  }

  /** Which users and entries a sync takes out of service: the synced ones of its connection that it has not seen. */
  lemma MissingMeans(db: Db, side: Side, c: ConnId, seen: set<ExternalId>, id: Id)
    ensures id in MissingUsers(db, c, seen) <==>
              id in db.users && db.users[id].conn == c && db.users[id].origin == Synced && db.users[id].active && db.users[id].externalId !in seen
    ensures id in MissingEntries(db, side, c, seen) <==>
              && id in db.Entries(side) && db.Entries(side)[id].conn == c && db.Entries(side)[id].origin == Synced
              && db.Entries(side)[id].externalId !in seen
  {
  }

  /** Orphans, and nothing else, are deleted: a group or role stays if it is manual, of another source, or seen. */
  lemma OrphansDeleted(db: Db, c: ConnId, side: Side, seen: set<ExternalId>)
    ensures var r := Apply(db, c, DeleteOrphans(side, seen));
            && r.error.None? && r.db.users == db.users
            && (forall id :: id in r.db.Entries(side) <==>
                  && id in db.Entries(side)
                  && var row := db.Entries(side)[id]; row.conn != c || row.origin == Manual || row.externalId in seen)
            && (forall id :: id in r.db.Entries(side) ==> r.db.Entries(side)[id] == db.Entries(side)[id])
            && (forall u, e :: (u, e) in r.db.Members(side) <==>
                  && (u, e) in db.Members(side)
                  && (e in db.Entries(side) ==> var row := db.Entries(side)[e]; row.conn != c || row.origin == Manual || row.externalId in seen))
  {
    WithoutEntriesMeans(db, side, MissingEntries(db, side, c, seen));
  }

  /** A sync passes the users of its own connection. */
  ghost predicate Own(db: Db, c: ConnId, op: SyncOp) {
    op.ReplaceMembers? && op.user in db.users ==> db.users[op.user].conn == c
  }

  /**
   * However stale the checks before it, the upsert statement is safe by itself: it fails and
   * changes nothing, or it writes exactly the row of this connection and external id, which
   * is not a manual row.
   */
  lemma UpsertWriteIsGuarded(db: Db, local: ConnId, c: ConnId, input: UpsertInput, freshId: Id, now: int) returns (id: Id)
    requires Inv(db, local) && c != local
    ensures var r := UpsertUserWrite(db, c, input, freshId, now);
            && Inv(r.db, local) && OthersUnchanged(db, r.db, c)
            && (r.error.Some? ==> r.error == Some(UsernameCollision) && r.db == db)
            && (r.error.None? ==>
                  && IsUserRow(r.db.users, id, c, input.externalId)
                  && r.db == db.(users := db.users[id := r.db.users[id]])
                  && HoldsInput(r.db.users[id], c, input)
                  && r.db.users[id].origin == Synced
                  && (id in db.users || id == freshId)
                  && (id in db.users ==> db.users[id].origin == Synced)
                  && r.db.users[id].createdAt == if id in db.users then db.users[id].createdAt else now)
  {
    if HasUserRow(db.users, c, input.externalId) {
      id :| id in db.users && IsUserRow(db.users, id, c, input.externalId);
      if !UsernameTakenByOther(db.users, input.username, id) {
        PutUserIsSafe(db, local, id, UpdatedUser(db.users[id], input));
      }
    } else {
      id := freshId;
      if !UsernameTakenByOther(db.users, input.username, id) && id !in db.users {
        PutUserIsSafe(db, local, id, SyncedUser(c, input, now));
      }
    }
  }

  lemma UpsertEntryIsGuarded(db: Db, local: ConnId, c: ConnId, side: Side, externalId: ExternalId, name: Text, freshId: Id, now: int)
    returns (id: Id)
    requires Inv(db, local) && c != local
    ensures var r := UpsertEntryWrite(db, c, side, externalId, name, freshId, now);
            && Inv(r.db, local) && OthersUnchanged(db, r.db, c)
            && (r.error.Some? ==> r.error == Some(NameCollision) && r.db == db)
            && (r.error.None? ==>
                  var before, after := db.Entries(side), r.db.Entries(side);
                  && id in after && after[id].conn == c && after[id].externalId == externalId && after[id].origin == Synced
                  && after[id].name == name && after[id].createdAt == (if id in before then before[id].createdAt else now)
                  && (if id in before then before[id].conn == c && before[id].externalId == externalId else id == freshId)
                  && r.db == db.WithEntries(side, before[id := after[id]]))
  {
    var entries := db.Entries(side);
    if HasEntryRow(entries, c, externalId) {
      id :| id in entries && IsEntryRow(entries, id, c, externalId);
      EntryUpserted(db, c, side, externalId, name, freshId, now, id);
      RenamedEntryIsSafe(db, local, c, side, id, name);
    } else {
      id := freshId;
      EntryInserted(db, c, side, externalId, name, freshId, now);
      if !NameTakenByOther(entries, c, name, freshId) && freshId !in entries {
        PutEntryIsSafe(db, local, side, freshId, Entry(c, externalId, Synced, name, now));
      }
    }
  }

  /** The row that the key finds is the only one, so the statement renames it. */
  lemma EntryUpserted(db: Db, c: ConnId, side: Side, externalId: ExternalId, name: Text, freshId: Id, now: int, id: Id)
    requires EntriesUnique(db.Entries(side)) && IsEntryRow(db.Entries(side), id, c, externalId)
    ensures UpsertEntryWrite(db, c, side, externalId, name, freshId, now) ==
            if NameTakenByOther(db.Entries(side), c, name, id) then StepResult(db, Some(NameCollision))
            else StepResult(db.WithEntries(side, db.Entries(side)[id := db.Entries(side)[id].(name := name)]), None)
  {
    var entries := db.Entries(side);
    assert forall other :: other in entries && IsEntryRow(entries, other, c, externalId) ==> other == id;
  }

  lemma EntryInserted(db: Db, c: ConnId, side: Side, externalId: ExternalId, name: Text, freshId: Id, now: int)
    requires !HasEntryRow(db.Entries(side), c, externalId)
    ensures UpsertEntryWrite(db, c, side, externalId, name, freshId, now) ==
            if NameTakenByOther(db.Entries(side), c, name, freshId) || freshId in db.Entries(side)
            then StepResult(db, Some(NameCollision))
            else StepResult(db.WithEntries(side, db.Entries(side)[freshId := Entry(c, externalId, Synced, name, now)]), None)
  {
  }

  lemma RenamedEntryIsSafe(db: Db, local: ConnId, c: ConnId, side: Side, id: Id, name: Text)
    requires Inv(db, local) && id in db.Entries(side) && db.Entries(side)[id].conn == c
    ensures !NameTakenByOther(db.Entries(side), c, name, id) ==>
              var db' := db.WithEntries(side, db.Entries(side)[id := db.Entries(side)[id].(name := name)]);
              Inv(db', local) && OthersUnchanged(db, db', c) &&
              HasEntryRow(db'.Entries(side), c, db.Entries(side)[id].externalId)
  {
    var entries := db.Entries(side);
    assert EntriesUnique(entries);
    if !NameTakenByOther(entries, c, name, id) {
      var row := entries[id].(name := name);
      PutEntryIsSafe(db, local, side, id, row);
      assert IsEntryRow(entries[id := row], id, c, row.externalId);
    }
  }

  lemma RowOpIsSafe(db: Db, local: ConnId, c: ConnId, op: SyncOp)
    requires Inv(db, local) && c != local && (op.UpsertUser? || op.UpsertEntry?)
    ensures var r := Apply(db, c, op);
            Inv(r.db, local) && OthersUnchanged(db, r.db, c) && (r.error.Some? ==> r.db == db)
  {
    match op {
      case UpsertUser(input, freshId, now) =>
        var _ := UpsertWriteIsGuarded(db, local, c, input, freshId, now);
      case UpsertEntry(side, externalId, name, freshId, now) =>
        var _ := UpsertEntryIsGuarded(db, local, c, side, externalId, name, freshId, now);
    }
  }

  lemma BulkOpIsSafe(db: Db, local: ConnId, c: ConnId, op: SyncOp)
    requires Inv(db, local) && (op.DeactivateUsersNotIn? || op.DeleteOrphans? || op.RemoveConnection?)
    ensures var r := Apply(db, c, op); Inv(r.db, local) && OthersUnchanged(db, r.db, c) && r.error.None?
  {
    match op {
      case DeactivateUsersNotIn(externalIds) =>
        DeactivatedIsSafe(db, local, c, MissingUsers(db, c, externalIds));
      case DeleteOrphans(side, externalIds) =>
        WithoutEntriesIsSafe(db, local, c, side, MissingEntries(db, side, c, externalIds));
      case RemoveConnection(mode) =>
        if mode == DeactivateMode {
          DeactivatedIsSafe(db, local, c, SyncedUserIds(db, c));
        } else {
          RemovalIsSafe(db, local, c);
        }
    }
  }

  /** Every operation of a sync for c keeps the invariants and leaves every other source and all manual rows alone. */
  lemma SyncOpIsSafe(db: Db, local: ConnId, c: ConnId, op: SyncOp)
    requires Inv(db, local) && c != local && Own(db, c, op)
    ensures var r := Apply(db, c, op);
            && Inv(r.db, local)
            && OthersUnchanged(db, r.db, c)
            && ManualUnchanged(db, r.db)
            && (r.error.Some? ==> r.db == db)
  {
    if op.ReplaceMembers? {
      ReplaceMembersIsSafe(db, local, c, op.side, op.user, op.ids);
    } else if op.UpsertUser? || op.UpsertEntry? {
      RowOpIsSafe(db, local, c, op);
    } else {
      BulkOpIsSafe(db, local, c, op);
    }
    ManualInFrame(db, Apply(db, c, op).db, local, c);
  }

  lemma ReplaceMembersIsSafe(db: Db, local: ConnId, c: ConnId, side: Side, user: Id, ids: seq<Id>)
    requires Inv(db, local) && Own(db, c, ReplaceMembers(side, user, ids))
    ensures var r := Apply(db, c, ReplaceMembers(side, user, ids));
            && Inv(r.db, local) && OthersUnchanged(db, r.db, c)
            && (r.error.None? && user in db.users ==> forall e :: (user, e) in r.db.Members(side) <==> e in ids)
  {
    if user in db.users {
      if !SomeForeign(db, side, user, ids) && !InsertFails(db, side, user, ids) {
        ReplacedIsSafe(db, local, side, user, ids);
      }
    } else if ids == [] {
      assert WithinSource(db.users, db.Entries(side), db.Members(side));
      assert Replaced(db, side, user, ids).Members(side) == db.Members(side);
    }
  }

  lemma RemovalIsSafe(db: Db, local: ConnId, c: ConnId)
    requires Inv(db, local)
    ensures Inv(Removed(db, c), local) && OthersUnchanged(db, Removed(db, c), c)
  {
    var a := WithoutUsers(db, SyncedUserIds(db, c));
    WithoutUsersIsSafe(db, local, c, SyncedUserIds(db, c));
    var groups := SyncedEntryIds(a, Groups, c);
    var b := WithoutEntries(a, Groups, groups);
    WithoutEntriesIsSafe(a, local, c, Groups, groups);
    OthersUnchangedTrans(db, a, b, c);
    var roles := SyncedEntryIds(b, Roles, c);
    WithoutEntriesIsSafe(b, local, c, Roles, roles);
    OthersUnchangedTrans(db, b, WithoutEntries(b, Roles, roles), c);
  }

  /** Removal in delete mode takes the synced rows of the connection and the memberships of what it takes, and nothing else. */
  lemma RemovedMeans(db: Db, c: ConnId)
    ensures var r := Removed(db, c);
            && (forall id :: id in r.users <==> id in db.users && !(db.users[id].conn == c && db.users[id].origin == Synced))
            && (forall id :: id in r.groups <==> id in db.groups && !(db.groups[id].conn == c && db.groups[id].origin == Synced))
            && (forall id :: id in r.roles <==> id in db.roles && !(db.roles[id].conn == c && db.roles[id].origin == Synced))
            && (forall id :: id in r.users ==> r.users[id] == db.users[id])
            && (forall id :: id in r.groups ==> r.groups[id] == db.groups[id])
            && (forall id :: id in r.roles ==> r.roles[id] == db.roles[id])
            && (forall u, e :: (u, e) in r.userGroups <==>
                  (u, e) in db.userGroups && (u in db.users ==> u in r.users) && (e in db.groups ==> e in r.groups))
            && (forall u, e :: (u, e) in r.userRoles <==>
                  (u, e) in db.userRoles && (u in db.users ==> u in r.users) && (e in db.roles ==> e in r.roles))
  {
    var a := WithoutUsers(db, SyncedUserIds(db, c));
    WithoutUsersMeans(db, SyncedUserIds(db, c));
    var b := WithoutEntries(a, Groups, SyncedEntryIds(a, Groups, c));
    WithoutEntriesMeans(a, Groups, SyncedEntryIds(a, Groups, c));
    WithoutEntriesMeans(b, Roles, SyncedEntryIds(b, Roles, c));
  }

  /** After removal in delete mode nothing that was synced from c is left, and neither is any membership of it. */
  lemma RemovalIsComplete(db: Db, local: ConnId, c: ConnId)
    requires Inv(db, local) && c != local
    ensures var db' := Removed(db, c);
            && (forall id :: id in db'.users ==> db'.users[id].conn != c)
            && (forall id :: id in db'.groups ==> db'.groups[id].conn != c)
            && (forall id :: id in db'.roles ==> db'.roles[id].conn != c)
            && (forall u, e :: (u, e) in db'.userGroups + db'.userRoles ==> u in db'.users)
  {
    RemovalIsSafe(db, local, c);
  }
}
