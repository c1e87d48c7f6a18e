/**
 * The identity tables: users, groups, roles and memberships from several sources, with the
 * schema's unique keys and references, and the statements the repository issues.
 */
module IdentityStore {
  import opened Wrappers

  /** Row ids, connections and texts are only ever compared here, so numbers stand for them. */
  type Id = nat
  type ConnId = nat
  type Text = nat

  /** An external id from a source, or the one that a manual row derives from its own id. */
  datatype ExternalId = FromSource(text: Text) | ManualUserId(id: Id) | ManualEntryId(side: Side, id: Id)

  datatype Origin = Synced | Manual

  datatype User = User(
    conn: ConnId,
    externalId: ExternalId,
    origin: Origin,
    username: Text,
    email: Option<Text>,
    displayName: Option<Text>,
    passwordHash: Text,
    active: bool,
    createdAt: int)

  /** A group or a role; the two tables have the same shape. */
  datatype Entry = Entry(conn: ConnId, externalId: ExternalId, origin: Origin, name: Text, createdAt: int)

  datatype Side = Groups | Roles

  type Users = map<Id, User>
  type Entries = map<Id, Entry>
  type Members = set<(Id, Id)>

  datatype Db = Db(users: Users, groups: Entries, roles: Entries, userGroups: Members, userRoles: Members) {
    function Entries(side: Side): Entries {
      if side == Groups then groups else roles
    }

    function Members(side: Side): Members {
      if side == Groups then userGroups else userRoles
    }

    function WithEntries(side: Side, entries: Entries): Db {
      if side == Groups then this.(groups := entries) else this.(roles := entries)
    }

    function WithMembers(side: Side, members: Members): Db {
      if side == Groups then this.(userGroups := members) else this.(userRoles := members)
    }
  }

  const EMPTY := Db(map[], map[], map[], {}, {})

  datatype Error =
    | UsernameCollision
    | NameCollision
    | CrossConnection
    | ConstraintViolated   // a duplicate or dangling row, reported by the database
    | Refused              // a guard of the admin service

  // ------------------------------------------------------------------ invariants

  ghost predicate UsersUnique(users: Users) {
    && (forall i, j :: i in users && j in users && users[i].username == users[j].username ==> i == j)
    && (forall i, j ::
          i in users && j in users && users[i].conn == users[j].conn && users[i].externalId == users[j].externalId ==> i == j)
  }

  ghost predicate EntriesUnique(entries: Entries) {
    && (forall i, j ::
          i in entries && j in entries && entries[i].conn == entries[j].conn && entries[i].externalId == entries[j].externalId ==> i == j)
    && (forall i, j ::
          i in entries && j in entries && entries[i].conn == entries[j].conn && entries[i].name == entries[j].name ==> i == j)
  }

  /** Both ends of a membership exist and come from the same source. */
  ghost predicate WithinSource(users: Users, entries: Entries, members: Members) {
    forall u, e :: (u, e) in members ==> u in users && e in entries && users[u].conn == entries[e].conn
  }

  ghost predicate ManualIsLocal(db: Db, local: ConnId) {
    && (forall id :: id in db.users && db.users[id].origin == Manual ==> db.users[id].conn == local)
    && (forall id :: id in db.groups && db.groups[id].origin == Manual ==> db.groups[id].conn == local)
    && (forall id :: id in db.roles && db.roles[id].origin == Manual ==> db.roles[id].conn == local)
  }

  ghost predicate SchemaOk(db: Db) {
    && UsersUnique(db.users) && EntriesUnique(db.groups) && EntriesUnique(db.roles)
    && WithinSource(db.users, db.groups, db.userGroups)
    && WithinSource(db.users, db.roles, db.userRoles)
  }

  ghost predicate Inv(db: Db, local: ConnId) {
    SchemaOk(db) && ManualIsLocal(db, local)
  }

  // ------------------------------------------------------------------ frames

  ghost predicate UsersAgree(a: Users, b: Users, c: ConnId) {
    && (forall id :: id in a && a[id].conn != c ==> id in b && b[id] == a[id])
    && (forall id :: id in b && b[id].conn != c ==> id in a && a[id] == b[id])
  }

  ghost predicate EntriesAgree(a: Entries, b: Entries, c: ConnId) {
    && (forall id :: id in a && a[id].conn != c ==> id in b && b[id] == a[id])
    && (forall id :: id in b && b[id].conn != c ==> id in a && a[id] == b[id])
  }

  ghost predicate MembersAgree(users: Users, a: Members, b: Members, c: ConnId) {
    forall u, e :: u in users && users[u].conn != c ==> ((u, e) in a <==> (u, e) in b)
  }

  /** Rows and memberships of every connection but c are the same in both states. */
  ghost predicate OthersUnchanged(a: Db, b: Db, c: ConnId) {
    && UsersAgree(a.users, b.users, c)
    && EntriesAgree(a.groups, b.groups, c)
    && EntriesAgree(a.roles, b.roles, c)
    && MembersAgree(a.users, a.userGroups, b.userGroups, c)
    && MembersAgree(a.users, a.userRoles, b.userRoles, c)
  }

  ghost predicate ManualUnchanged(a: Db, b: Db) {
    && (forall id :: id in a.users && a.users[id].origin == Manual ==> id in b.users && b.users[id] == a.users[id])
    && (forall id :: id in a.groups && a.groups[id].origin == Manual ==> id in b.groups && b.groups[id] == a.groups[id])
    && (forall id :: id in a.roles && a.roles[id].origin == Manual ==> id in b.roles && b.roles[id] == a.roles[id])
  }

  // ------------------------------------------------------------------ statements

  /** The columns that a sync writes for a user. */
  datatype UpsertInput = UpsertInput(
    externalId: ExternalId,
    username: Text,
    email: Option<Text>,
    displayName: Option<Text>,
    passwordHash: Text,
    active: bool)

  predicate IsUserRow(users: Users, id: Id, c: ConnId, externalId: ExternalId) {
    id in users && users[id].conn == c && users[id].externalId == externalId
  }

  predicate HasUserRow(users: Users, c: ConnId, externalId: ExternalId) {
    exists id :: id in users && IsUserRow(users, id, c, externalId)
  }

  predicate UsernameTakenByOther(users: Users, username: Text, id: Id) {
    exists other :: other in users && other != id && users[other].username == username
  }

  predicate IsEntryRow(entries: Entries, id: Id, c: ConnId, externalId: ExternalId) {
    id in entries && entries[id].conn == c && entries[id].externalId == externalId
  }

  predicate HasEntryRow(entries: Entries, c: ConnId, externalId: ExternalId) {
    exists id :: id in entries && IsEntryRow(entries, id, c, externalId)
  }

  predicate NameTakenByOther(entries: Entries, c: ConnId, name: Text, id: Id) {
    exists other :: other in entries && other != id && entries[other].conn == c && entries[other].name == name
  }

  function SyncedUser(c: ConnId, u: UpsertInput, now: int): User {
    User(c, u.externalId, Synced, u.username, u.email, u.displayName, u.passwordHash, u.active, now)
  }

  function UpdatedUser(row: User, u: UpsertInput): User {
    row.(username := u.username, email := u.email, displayName := u.displayName,
         passwordHash := u.passwordHash, active := u.active)
  }

  /** Users get active = false and lose their memberships. */
  function Deactivated(db: Db, ids: set<Id>): Db {
    Db(map id | id in db.users :: if id in ids then db.users[id].(active := false) else db.users[id],
       db.groups, db.roles,
       set m | m in db.userGroups && m.0 !in ids,
       set m | m in db.userRoles && m.0 !in ids)
  }

  /** Deleting users deletes their memberships. */
  function WithoutUsers(db: Db, ids: set<Id>): Db {
    Db(db.users - ids, db.groups, db.roles,
       set m | m in db.userGroups && m.0 !in ids,
       set m | m in db.userRoles && m.0 !in ids)
  }

  /** Deleting groups or roles deletes the memberships in them. */
  function WithoutEntries(db: Db, side: Side, ids: set<Id>): Db {
    db.WithEntries(side, db.Entries(side) - ids)
      .WithMembers(side, set m | m in db.Members(side) && m.1 !in ids)
  }

  function SyncedUserIds(db: Db, c: ConnId): set<Id> {
    set id | id in db.users && db.users[id].conn == c && db.users[id].origin == Synced
  }

  function SyncedEntryIds(db: Db, side: Side, c: ConnId): set<Id> {
    set id | id in db.Entries(side) && db.Entries(side)[id].conn == c && db.Entries(side)[id].origin == Synced
  }

  predicate NoRepeats(ids: seq<Id>) {
    forall i, j :: 0 <= i < j < |ids| ==> ids[i] != ids[j]
  }

  function Elements(ids: seq<Id>): set<Id> {
    set id | id in ids
  }

  function MembersOf(user: Id, ids: seq<Id>): Members {
    set k | 0 <= k < |ids| :: (user, ids[k])
  }

  /** Delete a user's memberships and insert the listed ones; the insert fails on a repeat or a missing end. */
  predicate InsertFails(db: Db, side: Side, user: Id, ids: seq<Id>) {
    ids != [] && !(user in db.users && NoRepeats(ids) && forall k :: 0 <= k < |ids| ==> ids[k] in db.Entries(side))
  }

  function Replaced(db: Db, side: Side, user: Id, ids: seq<Id>): Db {
    db.WithMembers(side, (set m | m in db.Members(side) && m.0 != user) + MembersOf(user, ids))
  }

  /** The guard of a membership change: some listed group or role belongs to another source. */
  predicate SomeForeign(db: Db, side: Side, user: Id, ids: seq<Id>) {
    user in db.users
    && exists k :: 0 <= k < |ids| && ids[k] in db.Entries(side) && db.Entries(side)[ids[k]].conn != db.users[user].conn
  }

  // ------------------------------------------------------------------ effects, column by column

  /** The row holds what the input says, under the key and with the origin of a sync. */
  ghost predicate HoldsInput(row: User, c: ConnId, u: UpsertInput) {
    && row.conn == c && row.externalId == u.externalId
    && row.username == u.username && row.email == u.email && row.displayName == u.displayName
    && row.passwordHash == u.passwordHash && row.active == u.active
  }

  lemma UpsertedColumns(c: ConnId, row: User, u: UpsertInput, now: int)
    ensures HoldsInput(SyncedUser(c, u, now), c, u) && SyncedUser(c, u, now).origin == Synced && SyncedUser(c, u, now).createdAt == now
    ensures var r := UpdatedUser(row, u);
            && HoldsInput(r.(conn := c, externalId := u.externalId), c, u)
            && r.conn == row.conn && r.externalId == row.externalId && r.origin == row.origin && r.createdAt == row.createdAt
  {
  }

  /** Deactivating touches the active flag and the memberships of the users named, and nothing else. */
  lemma DeactivatedMeans(db: Db, ids: set<Id>)
    ensures var r := Deactivated(db, ids);
            && r.users.Keys == db.users.Keys && r.groups == db.groups && r.roles == db.roles
            && (forall id :: id in db.users && id !in ids ==> r.users[id] == db.users[id])
            && (forall id :: id in db.users && id in ids ==> r.users[id] == db.users[id].(active := false))
            && (forall u, e :: (u, e) in r.userGroups <==> (u, e) in db.userGroups && u !in ids)
            && (forall u, e :: (u, e) in r.userRoles <==> (u, e) in db.userRoles && u !in ids)
  {
  }

  /** Deleting users takes them and their memberships. */
  lemma WithoutUsersMeans(db: Db, ids: set<Id>)
    ensures var r := WithoutUsers(db, ids);
            && r.groups == db.groups && r.roles == db.roles
            && (forall id :: id in r.users <==> id in db.users && id !in ids)
            && (forall id :: id in r.users ==> r.users[id] == db.users[id])
            && (forall u, e :: (u, e) in r.userGroups <==> (u, e) in db.userGroups && u !in ids)
            && (forall u, e :: (u, e) in r.userRoles <==> (u, e) in db.userRoles && u !in ids)
  {
  }

  /** Deleting groups or roles takes them and the memberships in them; the other side stays. */
  lemma WithoutEntriesMeans(db: Db, side: Side, ids: set<Id>)
    ensures var r := WithoutEntries(db, side, ids);
            && r.users == db.users
            && (forall id :: id in r.Entries(side) <==> id in db.Entries(side) && id !in ids)
            && (forall id :: id in r.Entries(side) ==> r.Entries(side)[id] == db.Entries(side)[id])
            && (forall u, e :: (u, e) in r.Members(side) <==> (u, e) in db.Members(side) && e !in ids)
            && (side == Groups ==> r.roles == db.roles && r.userRoles == db.userRoles)
            && (side == Roles ==> r.groups == db.groups && r.userGroups == db.userGroups)
  {
  }

  /** A user has exactly the listed memberships on the side; all other memberships and rows stay. */
  lemma ReplacedMeans(db: Db, side: Side, user: Id, ids: seq<Id>)
    ensures var r := Replaced(db, side, user, ids);
            && r.users == db.users && r.groups == db.groups && r.roles == db.roles
            && (forall e :: (user, e) in r.Members(side) <==> e in ids)
            && (forall u, e :: u != user ==> ((u, e) in r.Members(side) <==> (u, e) in db.Members(side)))
            && (side == Groups ==> r.userRoles == db.userRoles)
            && (side == Roles ==> r.userGroups == db.userGroups)
  {
    forall e | e in ids ensures (user, e) in MembersOf(user, ids) {
      var k :| 0 <= k < |ids| && ids[k] == e;
      assert (user, ids[k]) in MembersOf(user, ids);
    }
  }

  // ------------------------------------------------------------------ effects of the bulk statements

  lemma DeactivatedIsSafe(db: Db, local: ConnId, c: ConnId, ids: set<Id>)
    requires Inv(db, local) && forall id :: id in ids ==> id in db.users && db.users[id].conn == c
    ensures Inv(Deactivated(db, ids), local) && OthersUnchanged(db, Deactivated(db, ids), c)
  {
  }

  lemma WithoutUsersIsSafe(db: Db, local: ConnId, c: ConnId, ids: set<Id>)
    requires Inv(db, local) && forall id :: id in ids ==> id in db.users && db.users[id].conn == c
    ensures Inv(WithoutUsers(db, ids), local) && OthersUnchanged(db, WithoutUsers(db, ids), c)
  {
  }

  lemma WithoutEntriesIsSafe(db: Db, local: ConnId, c: ConnId, side: Side, ids: set<Id>)
    requires Inv(db, local) && forall id :: id in ids ==> id in db.Entries(side) && db.Entries(side)[id].conn == c
    ensures Inv(WithoutEntries(db, side, ids), local) && OthersUnchanged(db, WithoutEntries(db, side, ids), c)
  {
  }

  ghost predicate OnlyUserRow(users: Users, id: Id, row: User) {
    forall other :: other in users && users[other].conn == row.conn && users[other].externalId == row.externalId ==> other == id
  }

  ghost predicate OnlyEntryRow(entries: Entries, id: Id, row: Entry) {
    forall other :: other in entries && entries[other].conn == row.conn && entries[other].externalId == row.externalId ==> other == id
  }

  lemma PutUserKeepsUnique(users: Users, id: Id, row: User)
    requires UsersUnique(users)
    requires !UsernameTakenByOther(users, row.username, id) && OnlyUserRow(users, id, row)
    ensures UsersUnique(users[id := row])
  {
  }

  lemma PutUserKeepsWithin(users: Users, entries: Entries, members: Members, id: Id, row: User)
    requires WithinSource(users, entries, members) && (id in users ==> users[id].conn == row.conn)
    ensures WithinSource(users[id := row], entries, members)
  {
  }

  /** Writing one user row of c, under keys that no other row has. */
  lemma PutUserIsSafe(db: Db, local: ConnId, id: Id, row: User)
    requires Inv(db, local) && (row.origin == Manual ==> row.conn == local)
    requires id in db.users ==> db.users[id].conn == row.conn
    requires !UsernameTakenByOther(db.users, row.username, id)
    requires OnlyUserRow(db.users, id, row)
    ensures Inv(db.(users := db.users[id := row]), local) && OthersUnchanged(db, db.(users := db.users[id := row]), row.conn)
  {
    PutUserKeepsUnique(db.users, id, row);
    PutUserKeepsWithin(db.users, db.groups, db.userGroups, id, row);
    PutUserKeepsWithin(db.users, db.roles, db.userRoles, id, row);
    UsersFrame(db.users, id, row);
  }

  lemma UsersFrame(users: Users, id: Id, row: User)
    requires id in users ==> users[id].conn == row.conn
    ensures UsersAgree(users, users[id := row], row.conn)
  {
  }

  lemma EntriesFrame(entries: Entries, id: Id, row: Entry)
    requires id in entries ==> entries[id].conn == row.conn
    ensures EntriesAgree(entries, entries[id := row], row.conn)
  {
  }

  /** Writing one group or role row of c, under keys that no other row has. */
  lemma PutEntryIsSafe(db: Db, local: ConnId, side: Side, id: Id, row: Entry)
    requires Inv(db, local) && (row.origin == Manual ==> row.conn == local)
    requires id in db.Entries(side) ==> db.Entries(side)[id].conn == row.conn
    requires !NameTakenByOther(db.Entries(side), row.conn, row.name, id)
    requires OnlyEntryRow(db.Entries(side), id, row)
    ensures Inv(db.WithEntries(side, db.Entries(side)[id := row]), local)
    ensures OthersUnchanged(db, db.WithEntries(side, db.Entries(side)[id := row]), row.conn)
  {
    PutKeepsUnique(db.Entries(side), id, row);
    PutKeepsWithin(db.users, db.Entries(side), db.Members(side), id, row);
    EntriesFrame(db.Entries(side), id, row);
    if side == Groups {
      PutGroupKeepsInv(db, local, id, row);
    } else {
      PutRoleKeepsInv(db, local, id, row);
    }
  }

  lemma PutGroupKeepsInv(db: Db, local: ConnId, id: Id, row: Entry)
    requires Inv(db, local) && (row.origin == Manual ==> row.conn == local)
    requires EntriesUnique(db.groups[id := row]) && WithinSource(db.users, db.groups[id := row], db.userGroups)
    ensures Inv(db.(groups := db.groups[id := row]), local)
  {
  }

  lemma PutRoleKeepsInv(db: Db, local: ConnId, id: Id, row: Entry)
    requires Inv(db, local) && (row.origin == Manual ==> row.conn == local)
    requires EntriesUnique(db.roles[id := row]) && WithinSource(db.users, db.roles[id := row], db.userRoles)
    ensures Inv(db.(roles := db.roles[id := row]), local)
  {
  }

  lemma PutKeepsUnique(entries: Entries, id: Id, row: Entry)
    requires EntriesUnique(entries)
    requires !NameTakenByOther(entries, row.conn, row.name, id)
    requires OnlyEntryRow(entries, id, row)
    ensures EntriesUnique(entries[id := row])
  {
  }

  lemma PutKeepsWithin(users: Users, entries: Entries, members: Members, id: Id, row: Entry)
    requires WithinSource(users, entries, members) && (id in entries ==> entries[id].conn == row.conn)
    ensures WithinSource(users, entries[id := row], members)
  {
  }

  lemma ReplacedIsSafe(db: Db, local: ConnId, side: Side, user: Id, ids: seq<Id>)
    requires Inv(db, local) && user in db.users && !InsertFails(db, side, user, ids) && !SomeForeign(db, side, user, ids)
    ensures Inv(Replaced(db, side, user, ids), local) && OthersUnchanged(db, Replaced(db, side, user, ids), db.users[user].conn)
    ensures forall e :: (user, e) in Replaced(db, side, user, ids).Members(side) <==> e in ids
  {
    var db' := Replaced(db, side, user, ids);
    forall u, e | (u, e) in db'.Members(side)
      ensures u in db.users && e in db.Entries(side) && db.users[u].conn == db.Entries(side)[e].conn
    {
      if (u, e) in MembersOf(user, ids) {
        var k :| 0 <= k < |ids| && (user, ids[k]) == (u, e);
        assert ids[k] in db.Entries(side);
      } else {
        assert (u, e) in db.Members(side);
        assert WithinSource(db.users, db.Entries(side), db.Members(side));
      }
    }
    forall e ensures (user, e) in db'.Members(side) <==> e in ids {
      if e in ids {
        var k :| 0 <= k < |ids| && ids[k] == e;
        assert (user, ids[k]) in MembersOf(user, ids);
      }
    }
  }

  lemma OthersUnchangedTrans(a: Db, b: Db, d: Db, c: ConnId)
    requires OthersUnchanged(a, b, c) && OthersUnchanged(b, d, c)
    ensures OthersUnchanged(a, d, c)
  {
  }

  /** Manual rows live under the local directory, so a frame for another connection covers them. */
  lemma ManualInFrame(a: Db, b: Db, local: ConnId, c: ConnId)
    requires ManualIsLocal(a, local) && c != local && OthersUnchanged(a, b, c)
    ensures ManualUnchanged(a, b)
  {
  }
}
