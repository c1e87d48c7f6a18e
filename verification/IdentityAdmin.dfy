/** The admin service over the identity tables: its guards, and what they protect. */
module IdentityAdmin {
  import opened Wrappers
  import opened IdentityStore
  import opened IdentitySync

  datatype ManualInput = ManualInput(username: Text, email: Option<Text>, displayName: Option<Text>, passwordHash: Text, active: bool)

  /** Absent fields stay as they are. */
  datatype UserPatch = UserPatch(
    username: Option<Text>,
    email: Option<Option<Text>>,
    displayName: Option<Option<Text>>,
    active: Option<bool>,
    passwordHash: Option<Text>)

  datatype AdminOp =
    | CreateUser(input: ManualInput, groupIds: seq<Id>, roleIds: seq<Id>, freshId: Id, now: int)
    | UpdateUser(id: Id, patch: UserPatch, newGroupIds: Option<seq<Id>>, newRoleIds: Option<seq<Id>>)
    | DeleteUser(id: Id)
    | CreateEntry(side: Side, name: Text, freshId: Id, now: int)
    | RenameEntry(side: Side, id: Id, name: Text)
    | DeleteEntry(side: Side, id: Id)

  /** The ids that a count query for a list of ids would count. */
  function Counted(ids: seq<Id>, entries: Entries): set<Id> {
    set id | id in ids && id in entries
  }

  function CountedIn(ids: seq<Id>, entries: Entries, c: ConnId): set<Id> {
    set id | id in ids && id in entries && entries[id].conn == c
  }

  /** The service compares counts with the length of the list. */
  predicate ValidIds(db: Db, side: Side, ids: seq<Id>, c: ConnId) {
    ids == [] || (|Counted(ids, db.Entries(side))| == |ids| && |CountedIn(ids, db.Entries(side), c)| == |ids|)
  }

  function Pick<T>(patch: Option<T>, current: T): T {
    if patch.Some? then patch.value else current
  }

  function Patched(row: User, p: UserPatch): User {
    row.(username := Pick(p.username, row.username), email := Pick(p.email, row.email),
         displayName := Pick(p.displayName, row.displayName), active := Pick(p.active, row.active),
         passwordHash := Pick(p.passwordHash, row.passwordHash))
  }

  function ReplacedIfGiven(db: Db, side: Side, user: Id, ids: Option<seq<Id>>): Db {
    if ids.Some? then Replaced(db, side, user, ids.value) else db
  }

  function ReplacedBoth(db: Db, user: Id, groupIds: Option<seq<Id>>, roleIds: Option<seq<Id>>): Db {
    ReplacedIfGiven(ReplacedIfGiven(db, Groups, user, groupIds), Roles, user, roleIds)
  }

  predicate ManualUser(db: Db, id: Id) {
    id in db.users && db.users[id].origin == Manual
  }

  predicate ManualEntry(db: Db, side: Side, id: Id) {
    id in db.Entries(side) && db.Entries(side)[id].origin == Manual
  }

  predicate HasMembers(db: Db, side: Side, id: Id) {
    exists m :: m in db.Members(side) && m.1 == id
  }

  // ------------------------------------------------------------------ the transactions, whatever was checked before them

  predicate UserKeyTaken(users: Users, id: Id, row: User) {
    exists other :: other in users && other != id && users[other].conn == row.conn && users[other].externalId == row.externalId
  }

  predicate EntryKeyTaken(entries: Entries, id: Id, row: Entry) {
    exists other :: other in entries && other != id && entries[other].conn == row.conn && entries[other].externalId == row.externalId
  }

  predicate InsertFailsIfGiven(db: Db, side: Side, user: Id, ids: Option<seq<Id>>) {
    ids.Some? && InsertFails(db, side, user, ids.value)
  }

  /** Write a user row and the lists given with it; any constraint error takes everything back. */
  function PutUserWrite(db: Db, id: Id, row: User, groupIds: Option<seq<Id>>, roleIds: Option<seq<Id>>): StepResult {
    var written := db.(users := db.users[id := row]);
    if UsernameTakenByOther(db.users, row.username, id) || UserKeyTaken(db.users, id, row)
       || InsertFailsIfGiven(written, Groups, id, groupIds) || InsertFailsIfGiven(written, Roles, id, roleIds)
    then StepResult(db, Some(ConstraintViolated))
    else StepResult(ReplacedBoth(written, id, groupIds, roleIds), None)
  }

  function ManualRow(local: ConnId, input: ManualInput, id: Id, now: int): User {
    User(local, ManualUserId(id), Manual, input.username, input.email, input.displayName, input.passwordHash, input.active, now)
  }

  function CreateUserWrite(db: Db, local: ConnId, input: ManualInput, groupIds: seq<Id>, roleIds: seq<Id>, freshId: Id, now: int): StepResult {
    if freshId in db.users then StepResult(db, Some(ConstraintViolated))
    else PutUserWrite(db, freshId, ManualRow(local, input, freshId, now), Some(groupIds), Some(roleIds))
  }

  function UpdateUserWrite(db: Db, id: Id, patch: UserPatch, groupIds: Option<seq<Id>>, roleIds: Option<seq<Id>>): StepResult {
    if id !in db.users then StepResult(db, Some(ConstraintViolated))
    else PutUserWrite(db, id, Patched(db.users[id], patch), groupIds, roleIds)
  }

  function DeleteUserWrite(db: Db, id: Id): StepResult {
    if id !in db.users then StepResult(db, Some(ConstraintViolated)) else StepResult(WithoutUsers(db, {id}), None)
  }

  function PutEntryWrite(db: Db, side: Side, id: Id, row: Entry): StepResult {
    if NameTakenByOther(db.Entries(side), row.conn, row.name, id) || EntryKeyTaken(db.Entries(side), id, row)
    then StepResult(db, Some(ConstraintViolated))
    else StepResult(db.WithEntries(side, db.Entries(side)[id := row]), None)
  }

  function CreateEntryWrite(db: Db, local: ConnId, side: Side, name: Text, freshId: Id, now: int): StepResult {
    if freshId in db.Entries(side) then StepResult(db, Some(ConstraintViolated))
    else PutEntryWrite(db, side, freshId, Entry(local, ManualEntryId(side, freshId), Manual, name, now))
  }

  function RenameEntryWrite(db: Db, side: Side, id: Id, name: Text): StepResult {
    if id !in db.Entries(side) then StepResult(db, Some(ConstraintViolated))
    else PutEntryWrite(db, side, id, db.Entries(side)[id].(name := name))
  }

  /** The memberships of the entry go with it. */
  function DeleteEntryWrite(db: Db, side: Side, id: Id): StepResult {
    if id !in db.Entries(side) then StepResult(db, Some(ConstraintViolated)) else StepResult(WithoutEntries(db, side, {id}), None)
  }

  /** A whole call with nothing else running: its guards, then its transaction. */
  function ApplyAdmin(db: Db, local: ConnId, op: AdminOp): StepResult {
    match op
    case CreateUser(input, groupIds, roleIds, freshId, now) =>
      if UsernameTakenByOther(db.users, input.username, freshId)
         || !ValidIds(db, Groups, groupIds, local) || !ValidIds(db, Roles, roleIds, local)
      then StepResult(db, Some(Refused))
      else CreateUserWrite(db, local, input, groupIds, roleIds, freshId, now)
    case UpdateUser(id, patch, groupIds, roleIds) =>
      if !ManualUser(db, id)
         || (patch.username.Some? && UsernameTakenByOther(db.users, patch.username.value, id))
         || (groupIds.Some? && !ValidIds(db, Groups, groupIds.value, db.users[id].conn))
         || (roleIds.Some? && !ValidIds(db, Roles, roleIds.value, db.users[id].conn))
      then StepResult(db, Some(Refused))
      else UpdateUserWrite(db, id, patch, groupIds, roleIds)
    case DeleteUser(id) =>
      if !ManualUser(db, id) then StepResult(db, Some(Refused)) else DeleteUserWrite(db, id)
    case CreateEntry(side, name, freshId, now) =>
      if NameTakenByOther(db.Entries(side), local, name, freshId) then StepResult(db, Some(Refused))
      else CreateEntryWrite(db, local, side, name, freshId, now)
    case RenameEntry(side, id, name) =>
      if !ManualEntry(db, side, id) || NameTakenByOther(db.Entries(side), db.Entries(side)[id].conn, name, id)
      then StepResult(db, Some(Refused))
      else RenameEntryWrite(db, side, id, name)
    case DeleteEntry(side, id) =>
      if !ManualEntry(db, side, id) || HasMembers(db, side, id) then StepResult(db, Some(Refused))
      else DeleteEntryWrite(db, side, id)
  }

  /** Rows that a sync manages are not touched. */
  ghost predicate SyncedUnchanged(a: Db, b: Db) {
    && (forall id :: id in a.users && a.users[id].origin == Synced ==> id in b.users && b.users[id] == a.users[id])
    && (forall id :: id in a.groups && a.groups[id].origin == Synced ==> id in b.groups && b.groups[id] == a.groups[id])
    && (forall id :: id in a.roles && a.roles[id].origin == Synced ==> id in b.roles && b.roles[id] == a.roles[id])
  }

  // ------------------------------------------------------------------ counting ids

  lemma {:induction false} ElementsCount(ids: seq<Id>)
    ensures |Elements(ids)| <= |ids|
    ensures |Elements(ids)| == |ids| <==> NoRepeats(ids)
  {
    if ids != [] {
      var init, last := ids[..|ids| - 1], ids[|ids| - 1];
      ElementsCount(init);
      assert ids == init + [last];
      assert Elements(ids) == Elements(init) + {last};
      if last in init {
        var k :| 0 <= k < |init| && init[k] == last;
        assert ids[k] == ids[|ids| - 1];
        assert Elements(ids) == Elements(init);
      } else {
        assert last !in Elements(init);
        assert |Elements(ids)| == |Elements(init)| + 1;
        if NoRepeats(init) {
          forall i, j | 0 <= i < j < |ids| ensures ids[i] != ids[j] {
            assert ids[i] == init[i];
          }
        } else {
          var i, j :| 0 <= i < j < |init| && init[i] == init[j];
          assert ids[i] == ids[j];
        }
      }
    }
  }

  lemma SubsetOfSameSize(a: set<Id>, b: set<Id>)
    requires a <= b
    ensures |a| <= |b| && (|a| == |b| ==> a == b)
  {
    assert b == a + (b - a);
  }

  /** The two counts match the length exactly when the list names existing entries of the source, each once. */
  lemma ValidIdsMeans(db: Db, side: Side, ids: seq<Id>, c: ConnId)
    ensures ValidIds(db, side, ids, c) <==>
              NoRepeats(ids) && forall k :: 0 <= k < |ids| ==> ids[k] in db.Entries(side) && db.Entries(side)[ids[k]].conn == c
  {
    var entries := db.Entries(side);
    ElementsCount(ids);
    SubsetOfSameSize(Counted(ids, entries), Elements(ids));
    SubsetOfSameSize(CountedIn(ids, entries, c), Elements(ids));
    if ids != [] && ValidIds(db, side, ids, c) {
      forall k | 0 <= k < |ids| ensures ids[k] in entries && entries[ids[k]].conn == c {
        assert ids[k] in Elements(ids);
      }
    }
    if NoRepeats(ids) && forall k :: 0 <= k < |ids| ==> ids[k] in entries && entries[ids[k]].conn == c {
      assert Counted(ids, entries) == Elements(ids);
      assert CountedIn(ids, entries, c) == Elements(ids);
    }
  }

  // ------------------------------------------------------------------ safety

  /** Whatever is listed and still there belongs to the source. */
  ghost predicate ListedIn(db: Db, side: Side, ids: seq<Id>, c: ConnId) {
    forall k :: 0 <= k < |ids| && ids[k] in db.Entries(side) ==> db.Entries(side)[ids[k]].conn == c
  }

  ghost predicate ListedIfGiven(db: Db, side: Side, ids: Option<seq<Id>>, c: ConnId) {
    ids.Some? ==> ListedIn(db, side, ids.value, c)
  }

  lemma ReplacedIfGivenIsSafe(db: Db, local: ConnId, side: Side, user: Id, ids: Option<seq<Id>>)
    requires Inv(db, local) && user in db.users && ListedIfGiven(db, side, ids, db.users[user].conn)
    requires !InsertFailsIfGiven(db, side, user, ids)
    ensures Inv(ReplacedIfGiven(db, side, user, ids), local)
    ensures OthersUnchanged(db, ReplacedIfGiven(db, side, user, ids), db.users[user].conn)
    ensures ids.Some? ==> forall e :: (user, e) in ReplacedIfGiven(db, side, user, ids).Members(side) <==> e in ids.value
  {
    if ids.Some? {
      ReplacedIsSafe(db, local, side, user, ids.value);
    }
  }

  /** Replacing both lists of a user leaves exactly the listed memberships. */
  lemma ReplacedBothIsSafe(db: Db, local: ConnId, user: Id, groupIds: Option<seq<Id>>, roleIds: Option<seq<Id>>)
    requires Inv(db, local) && user in db.users
    requires ListedIfGiven(db, Groups, groupIds, db.users[user].conn) && ListedIfGiven(db, Roles, roleIds, db.users[user].conn)
    requires !InsertFailsIfGiven(db, Groups, user, groupIds) && !InsertFailsIfGiven(db, Roles, user, roleIds)
    ensures var r := ReplacedBoth(db, user, groupIds, roleIds);
            && Inv(r, local) && OthersUnchanged(db, r, db.users[user].conn)
            && r.users == db.users && r.groups == db.groups && r.roles == db.roles
            && (groupIds.Some? ==> forall e :: (user, e) in r.userGroups <==> e in groupIds.value)
            && (roleIds.Some? ==> forall e :: (user, e) in r.userRoles <==> e in roleIds.value)
  {
    ReplacedIfGivenIsSafe(db, local, Groups, user, groupIds);
    var a := ReplacedIfGiven(db, Groups, user, groupIds);
    assert a.Entries(Roles) == db.Entries(Roles) && a.users == db.users;
    ReplacedIfGivenIsSafe(a, local, Roles, user, roleIds);
    OthersUnchangedTrans(db, a, ReplacedIfGiven(a, Roles, user, roleIds), db.users[user].conn);
    assert a.Members(Groups) == a.userGroups;
  }

  /** Writing a manual user row and its lists, whatever was checked how long before: safe if what is listed and still there is local. */
  lemma PutUserWriteIsSafe(db: Db, local: ConnId, id: Id, row: User, groupIds: Option<seq<Id>>, roleIds: Option<seq<Id>>)
    requires Inv(db, local) && row.conn == local && row.origin == Manual
    requires id in db.users ==> ManualUser(db, id)
    requires ListedIfGiven(db, Groups, groupIds, local) && ListedIfGiven(db, Roles, roleIds, local)
    ensures var r := PutUserWrite(db, id, row, groupIds, roleIds);
            && Inv(r.db, local) && OthersUnchanged(db, r.db, local) && SyncedUnchanged(db, r.db)
            && (r.error.Some? ==> r == StepResult(db, Some(ConstraintViolated)))
            && (r.error.None? ==>
                  && r.db.users == db.users[id := row] && r.db.groups == db.groups && r.db.roles == db.roles
                  && (groupIds.Some? ==> forall e :: (id, e) in r.db.userGroups <==> e in groupIds.value)
                  && (roleIds.Some? ==> forall e :: (id, e) in r.db.userRoles <==> e in roleIds.value))
  {
    var r := PutUserWrite(db, id, row, groupIds, roleIds);
    if r.error.None? {
      assert OnlyUserRow(db.users, id, row);
      PutUserIsSafe(db, local, id, row);
      var a := db.(users := db.users[id := row]);
      assert a.Entries(Groups) == db.Entries(Groups) && a.Entries(Roles) == db.Entries(Roles);
      ReplacedBothIsSafe(a, local, id, groupIds, roleIds);
      OthersUnchangedTrans(db, a, r.db, local);
      SyncedUsersKept(db, r.db, id, row);
    }
  }

  lemma SyncedUsersKept(db: Db, after: Db, id: Id, row: User)
    requires id in db.users ==> ManualUser(db, id)
    requires after.users == db.users[id := row] && after.groups == db.groups && after.roles == db.roles
    ensures SyncedUnchanged(db, after)
  {
  }

  /** A field that is given is written, one that is absent stays; what identifies the row stays in any case. */
  lemma PatchedColumns(row: User, p: UserPatch)
    ensures var r := Patched(row, p);
            && r.conn == row.conn && r.externalId == row.externalId && r.origin == row.origin && r.createdAt == row.createdAt
            && (if p.username.Some? then r.username == p.username.value else r.username == row.username)
            && (if p.email.Some? then r.email == p.email.value else r.email == row.email)
            && (if p.displayName.Some? then r.displayName == p.displayName.value else r.displayName == row.displayName)
            && (if p.active.Some? then r.active == p.active.value else r.active == row.active)
            && (if p.passwordHash.Some? then r.passwordHash == p.passwordHash.value else r.passwordHash == row.passwordHash)
  {
  }

  /** The list names groups or roles of the source, each once. */
  ghost predicate ListsOwn(entries: Entries, ids: seq<Id>, c: ConnId) {
    && (forall i, j :: 0 <= i < j < |ids| ==> ids[i] != ids[j])
    && forall k :: 0 <= k < |ids| ==> ids[k] in entries && entries[ids[k]].conn == c
  }

  /** No user but this one has the username. */
  ghost predicate IsFreeName(users: Users, username: Text, id: Id) {
    forall other :: other in users && users[other].username == username ==> other == id
  }

  ghost predicate MayCreate(db: Db, local: ConnId, op: AdminOp)
    requires op.CreateUser?
  {
    IsFreeName(db.users, op.input.username, op.freshId) && ListsOwn(db.groups, op.groupIds, local) && ListsOwn(db.roles, op.roleIds, local)
  }

  lemma CreateRefusedIff(db: Db, local: ConnId, op: AdminOp)
    requires op.CreateUser?
    ensures ApplyAdmin(db, local, op) == if MayCreate(db, local, op)
              then CreateUserWrite(db, local, op.input, op.groupIds, op.roleIds, op.freshId, op.now) else StepResult(db, Some(Refused))
  {
    ValidIdsMeans(db, Groups, op.groupIds, local);
    ValidIdsMeans(db, Roles, op.roleIds, local);
  }

  /** Creating a user succeeds exactly with a free username and lists of local groups and roles, and writes the input. */
  lemma CreateUserMeans(db: Db, local: ConnId, op: AdminOp)
    requires op.CreateUser? && Inv(db, local) && op.freshId !in db.users
    requires forall id :: id in db.users ==> db.users[id].externalId != ManualUserId(op.freshId)
    ensures var r := ApplyAdmin(db, local, op);
            if MayCreate(db, local, op) then
              && r.error.None? && r.db.users == db.users[op.freshId := r.db.users[op.freshId]]
              && var row := r.db.users[op.freshId];
                 && row.conn == local && row.externalId == ManualUserId(op.freshId) && row.origin == Manual && row.createdAt == op.now
                 && row.username == op.input.username && row.email == op.input.email && row.displayName == op.input.displayName
                 && row.passwordHash == op.input.passwordHash && row.active == op.input.active
            else r == StepResult(db, Some(Refused))
  {
    CreateRefusedIff(db, local, op);
    if MayCreate(db, local, op) {
      NothingTaken(db, local, op);
      CreateUserWriteIsSafe(db, local, op.input, op.groupIds, op.roleIds, op.freshId, op.now);
    }
  }

  lemma NothingTaken(db: Db, local: ConnId, op: AdminOp)
    requires op.CreateUser? && MayCreate(db, local, op) && op.freshId !in db.users
    requires forall id :: id in db.users ==> db.users[id].externalId != ManualUserId(op.freshId)
    ensures CreateUserWrite(db, local, op.input, op.groupIds, op.roleIds, op.freshId, op.now).error.None?
  {
    var row := ManualRow(local, op.input, op.freshId, op.now);
    assert !UserKeyTaken(db.users, op.freshId, row) && !UsernameTakenByOther(db.users, row.username, op.freshId);
    var written := db.(users := db.users[op.freshId := row]);
    assert written.Entries(Groups) == db.groups && written.Entries(Roles) == db.roles;
  }

  lemma ValidIsListed(db: Db, side: Side, ids: Option<seq<Id>>, c: ConnId)
    requires ids.Some? ==> ValidIds(db, side, ids.value, c)
    ensures ListedIfGiven(db, side, ids, c)
  {
    if ids.Some? {
      ValidIdsMeans(db, side, ids.value, c);
    }
  }

  lemma CreateUserWriteIsSafe(db: Db, local: ConnId, input: ManualInput, groupIds: seq<Id>, roleIds: seq<Id>, freshId: Id, now: int)
    requires Inv(db, local) && ListedIn(db, Groups, groupIds, local) && ListedIn(db, Roles, roleIds, local)
    ensures var r := CreateUserWrite(db, local, input, groupIds, roleIds, freshId, now);
            && Inv(r.db, local) && OthersUnchanged(db, r.db, local) && SyncedUnchanged(db, r.db)
            && (r.error.Some? ==> r == StepResult(db, Some(ConstraintViolated)))
            && (r.error.None? ==>
                  && r.db.users == db.users[freshId := ManualRow(local, input, freshId, now)]
                  && r.db.groups == db.groups && r.db.roles == db.roles
                  && (forall e :: (freshId, e) in r.db.userGroups <==> e in groupIds)
                  && (forall e :: (freshId, e) in r.db.userRoles <==> e in roleIds))
  {
    if freshId !in db.users {
      PutUserWriteIsSafe(db, local, freshId, ManualRow(local, input, freshId, now), Some(groupIds), Some(roleIds));
    }
  }

  lemma CreateUserIsSafe(db: Db, local: ConnId, op: AdminOp)
    requires op.CreateUser? && Inv(db, local)
    ensures var r := ApplyAdmin(db, local, op);
            && Inv(r.db, local) && OthersUnchanged(db, r.db, local) && SyncedUnchanged(db, r.db)
            && (r.error.Some? ==> r.db == db)
            && (r.error.None? ==>
                  && ManualUser(r.db, op.freshId)
                  && (forall e :: (op.freshId, e) in r.db.userGroups <==> e in op.groupIds)
                  && (forall e :: (op.freshId, e) in r.db.userRoles <==> e in op.roleIds))
  {
    if ValidIds(db, Groups, op.groupIds, local) && ValidIds(db, Roles, op.roleIds, local) {
      ValidIdsMeans(db, Groups, op.groupIds, local);
      ValidIdsMeans(db, Roles, op.roleIds, local);
      CreateUserWriteIsSafe(db, local, op.input, op.groupIds, op.roleIds, op.freshId, op.now);
    }
  }

  /** With nothing else running, the guards leave no constraint for the transaction to violate. */
  lemma GuardsSuffice(db: Db, local: ConnId, op: AdminOp)
    requires op.UpdateUser? && Inv(db, local)
    ensures ApplyAdmin(db, local, op).error != Some(ConstraintViolated)
  {
    if ApplyAdmin(db, local, op).error == Some(ConstraintViolated) {
      var written := db.(users := db.users[op.id := Patched(db.users[op.id], op.patch)]);
      assert written.Entries(Groups) == db.Entries(Groups) && written.Entries(Roles) == db.Entries(Roles);
      if op.newGroupIds.Some? {
        ValidIdsMeans(db, Groups, op.newGroupIds.value, db.users[op.id].conn);
      }
      if op.newRoleIds.Some? {
        ValidIdsMeans(db, Roles, op.newRoleIds.value, db.users[op.id].conn);
      }
      assert false;
    }
  }

  lemma GuardsMean(db: Db, local: ConnId, op: AdminOp)
    requires op.UpdateUser? && Inv(db, local)
    ensures ApplyAdmin(db, local, op).error == Some(Refused) <==>
              !(&& op.id in db.users && db.users[op.id].origin == Manual
                && (op.patch.username.Some? ==> IsFreeName(db.users, op.patch.username.value, op.id))
                && (op.newGroupIds.Some? ==> ListsOwn(db.groups, op.newGroupIds.value, local))
                && (op.newRoleIds.Some? ==> ListsOwn(db.roles, op.newRoleIds.value, local)))
    ensures ApplyAdmin(db, local, op).error in {None, Some(Refused), Some(ConstraintViolated)}
  {
    if op.newGroupIds.Some? {
      ValidIdsMeans(db, Groups, op.newGroupIds.value, local);
    }
    if op.newRoleIds.Some? {
      ValidIdsMeans(db, Roles, op.newRoleIds.value, local);
    }
  }

  lemma UpdateUserIsSafe(db: Db, local: ConnId, op: AdminOp)
    requires op.UpdateUser? && Inv(db, local)
    ensures var r := ApplyAdmin(db, local, op);
            && Inv(r.db, local) && OthersUnchanged(db, r.db, local) && SyncedUnchanged(db, r.db)
            && (r.error.Some? ==> r.db == db)
            && (r.error.None? <==>
                  && op.id in db.users && db.users[op.id].origin == Manual
                  && (op.patch.username.Some? ==> IsFreeName(db.users, op.patch.username.value, op.id))
                  && (op.newGroupIds.Some? ==> ListsOwn(db.groups, op.newGroupIds.value, local))
                  && (op.newRoleIds.Some? ==> ListsOwn(db.roles, op.newRoleIds.value, local)))
            && (r.error.None? ==>
                  && op.id in r.db.users && r.db.users == db.users[op.id := r.db.users[op.id]]
                  && r.db.users[op.id] == Patched(db.users[op.id], op.patch))
            && (r.error.None? && op.newGroupIds.Some? ==> forall e :: (op.id, e) in r.db.userGroups <==> e in op.newGroupIds.value)
            && (r.error.None? && op.newRoleIds.Some? ==> forall e :: (op.id, e) in r.db.userRoles <==> e in op.newRoleIds.value)
  {
    GuardsSuffice(db, local, op);
    GuardsMean(db, local, op);
    if ApplyAdmin(db, local, op).error.None? {
      ValidIsListed(db, Groups, op.newGroupIds, local);
      ValidIsListed(db, Roles, op.newRoleIds, local);
      PutUserWriteIsSafe(db, local, op.id, Patched(db.users[op.id], op.patch), op.newGroupIds, op.newRoleIds);
    }
  }

  /** Creating or renaming a group or role keeps every membership. */
  lemma PutManualEntry(db: Db, local: ConnId, side: Side, id: Id, row: Entry)
    requires Inv(db, local) && row.conn == local && row.origin == Manual
    requires id in db.Entries(side) ==> ManualEntry(db, side, id)
    requires !NameTakenByOther(db.Entries(side), local, row.name, id) && OnlyEntryRow(db.Entries(side), id, row)
    ensures var db' := db.WithEntries(side, db.Entries(side)[id := row]);
            && Inv(db', local) && OthersUnchanged(db, db', local) && SyncedUnchanged(db, db')
            && db'.userGroups == db.userGroups && db'.userRoles == db.userRoles
  {
    PutEntryIsSafe(db, local, side, id, row);
    SyncedEntriesKept(db, side, id, row);
  }

  lemma SyncedEntriesKept(db: Db, side: Side, id: Id, row: Entry)
    requires id in db.Entries(side) ==> ManualEntry(db, side, id)
    ensures SyncedUnchanged(db, db.WithEntries(side, db.Entries(side)[id := row]))
  {
  }

  lemma NoMembersLost(db: Db, side: Side, id: Id)
    requires !HasMembers(db, side, id)
    ensures WithoutEntries(db, side, {id}).userGroups == db.userGroups && WithoutEntries(db, side, {id}).userRoles == db.userRoles
  {
    assert WithoutEntries(db, side, {id}).Members(side) == db.Members(side);
  }

  lemma SyncedEntriesStay(db: Db, side: Side, id: Id)
    requires ManualEntry(db, side, id)
    ensures SyncedUnchanged(db, WithoutEntries(db, side, {id}))
  {
  }

  /** Writing a manual group or role, whatever was checked how long before. */
  lemma PutEntryWriteIsSafe(db: Db, local: ConnId, side: Side, id: Id, row: Entry)
    requires Inv(db, local) && row.conn == local && row.origin == Manual
    requires id in db.Entries(side) ==> ManualEntry(db, side, id)
    ensures var r := PutEntryWrite(db, side, id, row);
            && Inv(r.db, local) && OthersUnchanged(db, r.db, local) && SyncedUnchanged(db, r.db)
            && (r.error.Some? ==> r == StepResult(db, Some(ConstraintViolated)))
            && r.db.userGroups == db.userGroups && r.db.userRoles == db.userRoles
  {
    if PutEntryWrite(db, side, id, row).error.None? {
      assert OnlyEntryRow(db.Entries(side), id, row);
      PutManualEntry(db, local, side, id, row);
    }
  }

  lemma CreateEntryWriteIsSafe(db: Db, local: ConnId, side: Side, name: Text, freshId: Id, now: int)
    requires Inv(db, local)
    ensures var r := CreateEntryWrite(db, local, side, name, freshId, now);
            && Inv(r.db, local) && OthersUnchanged(db, r.db, local) && SyncedUnchanged(db, r.db)
            && (r.error.Some? ==> r == StepResult(db, Some(ConstraintViolated)))
            && r.db.userGroups == db.userGroups && r.db.userRoles == db.userRoles
  {
    if freshId !in db.Entries(side) {
      PutEntryWriteIsSafe(db, local, side, freshId, Entry(local, ManualEntryId(side, freshId), Manual, name, now));
    }
  }

  lemma RenameEntryWriteIsSafe(db: Db, local: ConnId, side: Side, id: Id, name: Text)
    requires Inv(db, local) && (id in db.Entries(side) ==> ManualEntry(db, side, id))
    ensures var r := RenameEntryWrite(db, side, id, name);
            && Inv(r.db, local) && OthersUnchanged(db, r.db, local) && SyncedUnchanged(db, r.db)
            && (r.error.Some? ==> r == StepResult(db, Some(ConstraintViolated)))
            && r.db.userGroups == db.userGroups && r.db.userRoles == db.userRoles
  {
    if id in db.Entries(side) {
      PutEntryWriteIsSafe(db, local, side, id, db.Entries(side)[id].(name := name));
    }
  }

  /** Deleting a manual group or role takes its memberships, if it has any, and nothing else. */
  lemma DeleteEntryWriteIsSafe(db: Db, local: ConnId, side: Side, id: Id)
    requires Inv(db, local) && (id in db.Entries(side) ==> ManualEntry(db, side, id))
    ensures var r := DeleteEntryWrite(db, side, id);
            && Inv(r.db, local) && OthersUnchanged(db, r.db, local) && SyncedUnchanged(db, r.db)
            && (r.error.Some? ==> r == StepResult(db, Some(ConstraintViolated)))
            && (r.db.userGroups == db.userGroups && r.db.userRoles == db.userRoles <==> !HasMembers(db, side, id))
  {
    if id in db.Entries(side) {
      WithoutEntriesIsSafe(db, local, local, side, {id});
      SyncedEntriesStay(db, side, id);
    }
    assert WithinSource(db.users, db.Entries(side), db.Members(side));
    var r := DeleteEntryWrite(db, side, id);
    if HasMembers(db, side, id) {
      var m :| m in db.Members(side) && m.1 == id;
      assert (m.0, m.1) in db.Members(side);
      assert m !in r.db.Members(side);
    } else if id in db.Entries(side) {
      NoMembersLost(db, side, id);
    }
  }

  /** With nothing else running, creating, renaming and deleting groups and roles loses no membership. */
  lemma EntryOpIsSafe(db: Db, local: ConnId, op: AdminOp)
    requires (op.CreateEntry? || op.RenameEntry? || op.DeleteEntry?) && Inv(db, local)
    ensures var r := ApplyAdmin(db, local, op);
            && Inv(r.db, local) && OthersUnchanged(db, r.db, local) && SyncedUnchanged(db, r.db)
            && (r.error.Some? ==> r.db == db)
            && r.db.userGroups == db.userGroups && r.db.userRoles == db.userRoles
  {
    if op.CreateEntry? {
      CreateEntryWriteIsSafe(db, local, op.side, op.name, op.freshId, op.now);
    } else if op.RenameEntry? {
      if ManualEntry(db, op.side, op.id) {
        RenameEntryWriteIsSafe(db, local, op.side, op.id, op.name);
      }
    } else if ManualEntry(db, op.side, op.id) {
      DeleteEntryWriteIsSafe(db, local, op.side, op.id);
    }
  }

  /** No group or role of the source but this one has the name. */
  ghost predicate IsFreeEntryName(entries: Entries, c: ConnId, name: Text, id: Id) {
    forall other :: other in entries && entries[other].conn == c && entries[other].name == name ==> other == id
  }

  lemma CreateEntryMeans(db: Db, local: ConnId, op: AdminOp)
    requires op.CreateEntry? && op.freshId !in db.Entries(op.side)
    requires forall id :: id in db.Entries(op.side) ==> db.Entries(op.side)[id].externalId != ManualEntryId(op.side, op.freshId)
    ensures ApplyAdmin(db, local, op) ==
            if IsFreeEntryName(db.Entries(op.side), local, op.name, op.freshId) then
              var row := Entry(local, ManualEntryId(op.side, op.freshId), Manual, op.name, op.now);
              StepResult(db.WithEntries(op.side, db.Entries(op.side)[op.freshId := row]), None)
            else StepResult(db, Some(Refused))
  {
    var row := Entry(local, ManualEntryId(op.side, op.freshId), Manual, op.name, op.now);
    assert !EntryKeyTaken(db.Entries(op.side), op.freshId, row);
  }

  lemma RenameEntryMeans(db: Db, local: ConnId, op: AdminOp)
    requires op.RenameEntry? && Inv(db, local)
    ensures ApplyAdmin(db, local, op) ==
            if op.id in db.Entries(op.side) && db.Entries(op.side)[op.id].origin == Manual
               && IsFreeEntryName(db.Entries(op.side), local, op.name, op.id)
            then StepResult(db.WithEntries(op.side, db.Entries(op.side)[op.id := db.Entries(op.side)[op.id].(name := op.name)]), None)
            else StepResult(db, Some(Refused))
  {
    if op.id in db.Entries(op.side) {
      assert EntriesUnique(db.Entries(op.side));
      assert !EntryKeyTaken(db.Entries(op.side), op.id, db.Entries(op.side)[op.id].(name := op.name));
    }
  }

  /** A manual group or role without members is deleted, and nothing else goes with it. */
  lemma DeleteEntryMeans(db: Db, local: ConnId, op: AdminOp)
    requires op.DeleteEntry?
    ensures ApplyAdmin(db, local, op) ==
            if op.id in db.Entries(op.side) && db.Entries(op.side)[op.id].origin == Manual
               && (forall u :: (u, op.id) !in db.Members(op.side))
            then StepResult(db.WithEntries(op.side, db.Entries(op.side) - {op.id}), None)
            else StepResult(db, Some(Refused))
  {
    assert HasMembers(db, op.side, op.id) <==> exists u :: (u, op.id) in db.Members(op.side) by {
      if HasMembers(db, op.side, op.id) {
        var m :| m in db.Members(op.side) && m.1 == op.id;
        assert (m.0, op.id) in db.Members(op.side);
      }
      if u :| (u, op.id) in db.Members(op.side) {
        assert (u, op.id).1 == op.id;
      }
    }
    if !HasMembers(db, op.side, op.id) {
      NoMembersLost(db, op.side, op.id);
      WithoutEntriesMeans(db, op.side, {op.id});
    }
  }

  /** A manual user is deleted with its memberships, and nothing else goes. */
  lemma DeleteUserMeans(db: Db, local: ConnId, op: AdminOp)
    requires op.DeleteUser?
    ensures var r := ApplyAdmin(db, local, op);
            if op.id in db.users && db.users[op.id].origin == Manual then
              && r.error.None? && r.db.users == db.users - {op.id} && r.db.groups == db.groups && r.db.roles == db.roles
              && (forall u, e :: (u, e) in r.db.userGroups <==> (u, e) in db.userGroups && u != op.id)
              && (forall u, e :: (u, e) in r.db.userRoles <==> (u, e) in db.userRoles && u != op.id)
            else r == StepResult(db, Some(Refused))
  {
  }

  /** A write to a row that is gone, or under an id that is taken, fails and changes nothing. */
  lemma MissingRowFails(db: Db, local: ConnId, side: Side, id: Id, patch: UserPatch, input: ManualInput, name: Text, now: int)
    ensures var failed := StepResult(db, Some(ConstraintViolated));
            && (id !in db.users ==> UpdateUserWrite(db, id, patch, None, None) == DeleteUserWrite(db, id) == failed)
            && (id in db.users ==> CreateUserWrite(db, local, input, [], [], id, now) == failed)
            && (id !in db.Entries(side) ==> RenameEntryWrite(db, side, id, name) == DeleteEntryWrite(db, side, id) == failed)
            && (id in db.Entries(side) ==> CreateEntryWrite(db, local, side, name, id, now) == failed)
  {
  }
}
