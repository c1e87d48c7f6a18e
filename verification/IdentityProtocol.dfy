/**
 * Syncs and admin calls over one store, split at every await: what a call checks and what it later
 * writes are separate events, and anything may run in between. A guard that only ends a call early
 * (a name that is taken, a missing row) is part of GiveUp: the transaction repeats it as a constraint.
 */
module IdentityProtocol {
  import opened Wrappers
  import opened IdentityStore
  import opened IdentitySync
  import opened IdentityAdmin

  type WorkerId = nat

  /** How far the guard of a membership change has come: the user's source, then the listed rows. */
  datatype Stage = NotRead | OwnerRead(owner: Option<ConnId>) | Guarded

  datatype Call =
    | Replacing(c: ConnId, side: Side, user: Id, ids: seq<Id>, stage: Stage)
    | Deactivating(c: ConnId, found: set<Id>)
    | Creating(input: ManualInput, groupIds: seq<Id>, roleIds: seq<Id>, checked: set<Side>)
    | Updating(id: Id, patch: UserPatch, newGroupIds: Option<seq<Id>>, newRoleIds: Option<seq<Id>>, owner: ConnId, checked: set<Side>)
    | DeletingUser(id: Id)
    | Renaming(entrySide: Side, entry: Id)
    | Deleting(entrySide: Side, entry: Id, counted: bool)

  /** Ids of all tables come from one counter and are never used again. */
  datatype State = State(db: Db, nextId: Id, calls: map<WorkerId, Call>)

  datatype Event =
    | UpsertUser(c: ConnId, input: UpsertInput, at: int)
    | UpsertEntry(c: ConnId, side: Side, externalId: ExternalId, name: Text, at: int)
    | StartReplace(w: WorkerId, c: ConnId, side: Side, user: Id, ids: seq<Id>)
    | ReadOwner(w: WorkerId)
    | CountForeign(w: WorkerId)
    | WriteMembers(w: WorkerId)
    | FindUsers(w: WorkerId, c: ConnId, found: set<Id>)
    | DeactivatePart(w: WorkerId, part: set<Id>)
    | DeleteOrphans(c: ConnId, side: Side, externalIds: set<ExternalId>)
    | RemoveAll(c: ConnId)
    | StartCreate(w: WorkerId, newUser: ManualInput, groupIds: seq<Id>, roleIds: seq<Id>)
    | StartUpdate(w: WorkerId, id: Id, patch: UserPatch, newGroupIds: Option<seq<Id>>, newRoleIds: Option<seq<Id>>)
    | CountListed(w: WorkerId, side: Side)
    | WriteUser(w: WorkerId, at: int)
    | StartDeleteUser(w: WorkerId, id: Id)
    | DeleteUser(w: WorkerId)
    | CreateEntry(side: Side, name: Text, at: int)
    | StartRename(w: WorkerId, side: Side, id: Id)
    | RenameEntry(w: WorkerId, name: Text)
    | StartDelete(w: WorkerId, side: Side, id: Id)
    | CountMembers(w: WorkerId)
    | DeleteEntry(w: WorkerId)
    | GiveUp(w: WorkerId)

  const INITIAL: State := State(EMPTY, 0, map[])

  function ListFor(call: Call, side: Side): seq<Id>
    requires call.Creating? || call.Updating?
  {
    match call
    case Creating(_, groupIds, roleIds, _) => if side == Groups then groupIds else roleIds
    case Updating(_, _, newGroupIds, newRoleIds, _, _) =>
      var ids := if side == Groups then newGroupIds else newRoleIds;
      if ids.Some? then ids.value else []
  }

  /** An empty list needs no check. */
  predicate IsChecked(call: Call, side: Side)
    requires call.Creating? || call.Updating?
  {
    ListFor(call, side) == [] || side in call.checked
  }

  ghost predicate Enabled(s: State, local: ConnId, e: Event) {
    match e
    case UpsertUser(c, _, _) => c != local
    case UpsertEntry(c, _, _, _, _) => c != local
    case StartReplace(w, c, _, user, ids) =>
      // a sync knows the ids that earlier statements returned, and passes users of its own connection
      && w !in s.calls && c != local && user < s.nextId && (forall k :: 0 <= k < |ids| ==> ids[k] < s.nextId)
      && (user in s.db.users ==> s.db.users[user].conn == c)
    case ReadOwner(w) => w in s.calls && s.calls[w].Replacing? && s.calls[w].stage == NotRead && s.calls[w].ids != []
    case CountForeign(w) => w in s.calls && s.calls[w].Replacing? && s.calls[w].stage.OwnerRead?
    case WriteMembers(w) => w in s.calls && s.calls[w].Replacing? && (s.calls[w].ids == [] || s.calls[w].stage == Guarded)
    case FindUsers(w, c, found) => w !in s.calls && c != local && found <= SyncedUserIds(s.db, c)
    case DeactivatePart(w, part) => w in s.calls && s.calls[w].Deactivating? && part <= s.calls[w].found
    case DeleteOrphans(c, _, _) => c != local
    case RemoveAll(c) => c != local
    case StartCreate(w, _, _, _) => w !in s.calls
    case StartUpdate(w, id, _, _, _) => w !in s.calls && ManualUser(s.db, id)
    case CountListed(w, _) => w in s.calls && (s.calls[w].Creating? || s.calls[w].Updating?)
    case WriteUser(w, _) =>
      w in s.calls && (s.calls[w].Creating? || s.calls[w].Updating?) && IsChecked(s.calls[w], Groups) && IsChecked(s.calls[w], Roles)
    case StartDeleteUser(w, id) => w !in s.calls && ManualUser(s.db, id)
    case DeleteUser(w) => w in s.calls && s.calls[w].DeletingUser?
    case CreateEntry(_, _, _) => true
    case StartRename(w, side, id) => w !in s.calls && ManualEntry(s.db, side, id)
    case RenameEntry(w, _) => w in s.calls && s.calls[w].Renaming?
    case StartDelete(w, side, id) => w !in s.calls && ManualEntry(s.db, side, id)
    case CountMembers(w) => w in s.calls && s.calls[w].Deleting? && !s.calls[w].counted
    case DeleteEntry(w) => w in s.calls && s.calls[w].Deleting? && s.calls[w].counted
    case GiveUp(w) => w in s.calls
  }

  /** A read or a check of a call: it goes on with what it saw, or ends. */
  ghost function AfterCheck(s: State, local: ConnId, e: Event): map<WorkerId, Call>
    requires Enabled(s, local, e)
  {
    match e
    case StartReplace(w, c, side, user, ids) => s.calls[w := Replacing(c, side, user, ids, NotRead)]
    case ReadOwner(w) =>
      var call := s.calls[w];
      var owner := if call.user in s.db.users then Some(s.db.users[call.user].conn) else None;
      s.calls[w := call.(stage := if owner.None? then Guarded else OwnerRead(owner))]
    case CountForeign(w) =>
      var call := s.calls[w];
      if exists k :: 0 <= k < |call.ids| && call.ids[k] in s.db.Entries(call.side)
                     && Some(s.db.Entries(call.side)[call.ids[k]].conn) != call.stage.owner
      then s.calls - {w}
      else s.calls[w := call.(stage := Guarded)]
    case FindUsers(w, c, found) => s.calls[w := Deactivating(c, found)]
    case StartCreate(w, input, groupIds, roleIds) => s.calls[w := Creating(input, groupIds, roleIds, {})]
    case StartUpdate(w, id, patch, newGroupIds, newRoleIds) =>
      s.calls[w := Updating(id, patch, newGroupIds, newRoleIds, s.db.users[id].conn, {})]
    case CountListed(w, side) =>
      var call := s.calls[w];
      var owner := if call.Updating? then call.owner else local;
      var ids := ListFor(call, side);
      if |CountedIn(ids, s.db.Entries(side), owner)| == |ids| then s.calls[w := call.(checked := call.checked + {side})] else s.calls - {w}
    case StartDeleteUser(w, id) => s.calls[w := DeletingUser(id)]
    case StartRename(w, side, id) => s.calls[w := Renaming(side, id)]
    case StartDelete(w, side, id) => s.calls[w := Deleting(side, id, false)]
    case CountMembers(w) =>
      var call := s.calls[w];
      if HasMembers(s.db, call.entrySide, call.entry) then s.calls - {w} else s.calls[w := call.(counted := true)]
    case GiveUp(w) => s.calls - {w}
    case _ => s.calls
  }

  predicate IsWrite(e: Event) {
    e.UpsertUser? || e.UpsertEntry? || e.WriteMembers? || e.DeactivatePart? || e.DeleteOrphans? || e.RemoveAll? || e.WriteUser? ||
    e.DeleteUser? || e.CreateEntry? || e.RenameEntry? || e.DeleteEntry?
  }

  /** The database after a write; a constraint error leaves it as it was. */
  ghost function Written(s: State, local: ConnId, e: Event): Db
    requires Enabled(s, local, e) && IsWrite(e)
  {
    match e
    case UpsertUser(c, input, at) => UpsertUserWrite(s.db, c, input, s.nextId, at).db
    case UpsertEntry(c, side, externalId, name, at) => UpsertEntryWrite(s.db, c, side, externalId, name, s.nextId, at).db
    case WriteMembers(w) =>
      var call := s.calls[w];
      if InsertFails(s.db, call.side, call.user, call.ids) then s.db else Replaced(s.db, call.side, call.user, call.ids)
    case DeactivatePart(_, part) => Deactivated(s.db, part)
    case DeleteOrphans(c, side, externalIds) => WithoutEntries(s.db, side, MissingEntries(s.db, side, c, externalIds))
    case RemoveAll(c) => Removed(s.db, c)
    case WriteUser(w, at) =>
      (match s.calls[w]
       case Creating(input, groupIds, roleIds, _) => CreateUserWrite(s.db, local, input, groupIds, roleIds, s.nextId, at).db
       case Updating(id, patch, newGroupIds, newRoleIds, _, _) => UpdateUserWrite(s.db, id, patch, newGroupIds, newRoleIds).db)
    case DeleteUser(w) => DeleteUserWrite(s.db, s.calls[w].id).db
    case CreateEntry(side, name, at) => CreateEntryWrite(s.db, local, side, name, s.nextId, at).db
    case RenameEntry(w, name) => RenameEntryWrite(s.db, s.calls[w].entrySide, s.calls[w].entry, name).db
    case DeleteEntry(w) => DeleteEntryWrite(s.db, s.calls[w].entrySide, s.calls[w].entry).db
  }

  /** A write ends its call, except that a deactivation goes on with its next part. */
  function AfterWrite(s: State, e: Event): map<WorkerId, Call> {
    match e
    case WriteMembers(w) => s.calls - {w}
    case WriteUser(w, _) => s.calls - {w}
    case DeleteUser(w) => s.calls - {w}
    case RenameEntry(w, _) => s.calls - {w}
    case DeleteEntry(w) => s.calls - {w}
    case _ => s.calls
  }

  ghost function Next(s: State, local: ConnId, e: Event): State
    requires Enabled(s, local, e)
  {
    if IsWrite(e) then State(Written(s, local, e), s.nextId + 1, AfterWrite(s, e))
    else State(s.db, s.nextId, AfterCheck(s, local, e))
  }

  ghost predicate IsRun(local: ConnId, states: seq<State>, events: seq<Event>) {
    && |states| == |events| + 1
    && forall k :: 0 <= k < |events| ==> Enabled(states[k], local, events[k]) && states[k + 1] == Next(states[k], local, events[k])
  }

  // ------------------------------------------------------------------ what a call may rely on

  ghost predicate Issued(db: Db, n: Id) {
    (forall id :: id in db.users ==> id < n) && (forall id :: id in db.groups ==> id < n) && (forall id :: id in db.roles ==> id < n)
  }

  ghost predicate UsersEvolve(a: Users, b: Users, n: Id) {
    forall id :: id in b && id < n ==> id in a && b[id].conn == a[id].conn && b[id].origin == a[id].origin
  }

  ghost predicate EntriesEvolve(a: Entries, b: Entries, n: Id) {
    forall id :: id in b && id < n ==> id in a && b[id].conn == a[id].conn && b[id].origin == a[id].origin
  }

  /** Rows come and go, but a row never changes its source or origin, and an id once gone stays gone. */
  ghost predicate Evolves(a: Db, b: Db, n: Id) {
    UsersEvolve(a.users, b.users, n) && EntriesEvolve(a.groups, b.groups, n) && EntriesEvolve(a.roles, b.roles, n)
  }

  ghost predicate Known(ids: seq<Id>, n: Id) {
    forall k :: 0 <= k < |ids| ==> ids[k] < n
  }

  ghost predicate CallOk(db: Db, n: Id, local: ConnId, call: Call) {
    match call
    case Replacing(c, side, user, ids, stage) =>
      && c != local && user < n && Known(ids, n) && (user in db.users ==> db.users[user].conn == c)
      && (stage.OwnerRead? ==> stage.owner == Some(c))
      && (stage == Guarded && user in db.users ==> ListedIn(db, side, ids, c))
    case Deactivating(c, found) =>
      c != local && forall id :: id in found ==> id < n && (id in db.users ==> db.users[id].conn == c && db.users[id].origin == Synced)
    case Creating(_, groupIds, roleIds, checked) =>
      && (Groups in checked ==> Known(groupIds, n) && ListedIn(db, Groups, groupIds, local))
      && (Roles in checked ==> Known(roleIds, n) && ListedIn(db, Roles, roleIds, local))
    case Updating(id, _, newGroupIds, newRoleIds, owner, checked) =>
      && id < n && owner == local && (id in db.users ==> ManualUser(db, id))
      && (Groups in checked ==> Known(ListFor(call, Groups), n) && ListedIn(db, Groups, ListFor(call, Groups), local))
      && (Roles in checked ==> Known(ListFor(call, Roles), n) && ListedIn(db, Roles, ListFor(call, Roles), local))
    case DeletingUser(id) => id < n && (id in db.users ==> ManualUser(db, id))
    case Renaming(side, id) => id < n && (id in db.Entries(side) ==> ManualEntry(db, side, id))
    case Deleting(side, id, _) => id < n && (id in db.Entries(side) ==> ManualEntry(db, side, id))
  }

  ghost predicate StateOk(s: State, local: ConnId) {
    Inv(s.db, local) && Issued(s.db, s.nextId) && forall w :: w in s.calls ==> CallOk(s.db, s.nextId, local, s.calls[w])
  }

  lemma ListedStays(a: Db, b: Db, n: Id, side: Side, ids: seq<Id>, c: ConnId)
    requires Evolves(a, b, n) && Known(ids, n) && ListedIn(a, side, ids, c)
    ensures ListedIn(b, side, ids, c)
  {
    assert EntriesEvolve(a.Entries(side), b.Entries(side), n);
  }

  /** What a call relies on survives every write of the others. */
  lemma CallStaysOk(a: Db, b: Db, n: Id, m: Id, local: ConnId, call: Call)
    requires CallOk(a, n, local, call) && Evolves(a, b, n) && n <= m
    ensures CallOk(b, m, local, call)
  {
    match call
    case Replacing(c, side, user, ids, stage) =>
      if stage == Guarded && user in b.users {
        ListedStays(a, b, n, side, ids, c);
      }
    case Creating(_, groupIds, roleIds, checked) =>
      if Groups in checked {
        ListedStays(a, b, n, Groups, groupIds, local);
      }
      if Roles in checked {
        ListedStays(a, b, n, Roles, roleIds, local);
      }
    case Updating(_, _, _, _, _, checked) =>
      if Groups in checked {
        ListedStays(a, b, n, Groups, ListFor(call, Groups), local);
      }
      if Roles in checked {
        ListedStays(a, b, n, Roles, ListFor(call, Roles), local);
      }
    case Renaming(side, _) => assert EntriesEvolve(a.Entries(side), b.Entries(side), n);
    case Deleting(side, _, _) => assert EntriesEvolve(a.Entries(side), b.Entries(side), n);
    case _ =>
  }

  // ------------------------------------------------------------------ every write

  /** What a write of a sync for c may change. */
  ghost predicate SyncFrame(a: Db, b: Db, c: ConnId) {
    OthersUnchanged(a, b, c) && ManualUnchanged(a, b)
  }

  /** What a write of an admin call may change. */
  ghost predicate AdminFrame(a: Db, b: Db, local: ConnId) {
    OthersUnchanged(a, b, local) && SyncedUnchanged(a, b)
  }

  /** The source a sync write is for. */
  function SourceOf(s: State, e: Event): Option<ConnId> {
    match e
    case UpsertUser(c, _, _) => Some(c)
    case UpsertEntry(c, _, _, _, _) => Some(c)
    case DeleteOrphans(c, _, _) => Some(c)
    case RemoveAll(c) => Some(c)
    case WriteMembers(w) => if w in s.calls && s.calls[w].Replacing? then Some(s.calls[w].c) else None
    case DeactivatePart(w, _) => if w in s.calls && s.calls[w].Deactivating? then Some(s.calls[w].c) else None
    case _ => None
  }

  ghost predicate InFrame(a: Db, b: Db, local: ConnId, source: Option<ConnId>) {
    match source
    case Some(c) => SyncFrame(a, b, c)
    case None => AdminFrame(a, b, local)
  }

  /** Only the next id may be new, and rows keep their source and origin. */
  ghost predicate Grows(a: Db, b: Db, n: Id) {
    Issued(b, n + 1) && Evolves(a, b, n)
  }

  ghost predicate SafeWrite(a: Db, b: Db, n: Id, local: ConnId, source: Option<ConnId>) {
    Inv(b, local) && Grows(a, b, n) && InFrame(a, b, local, source)
  }

  lemma Unchanged(db: Db, n: Id, local: ConnId, source: Option<ConnId>)
    requires Inv(db, local) && Issued(db, n)
    ensures SafeWrite(db, db, n, local, source)
  {
  }

  lemma PutUserGrows(db: Db, after: Db, id: Id, row: User, n: Id)
    requires Issued(db, n) && after.users == db.users[id := row] && after.groups == db.groups && after.roles == db.roles
    requires if id in db.users then row.conn == db.users[id].conn && row.origin == db.users[id].origin else id == n
    ensures Grows(db, after, n)
  {
  }

  lemma PutEntryGrows(db: Db, side: Side, id: Id, row: Entry, n: Id)
    requires Issued(db, n)
    requires var entries := db.Entries(side);
             if id in entries then row.conn == entries[id].conn && row.origin == entries[id].origin else id == n
    ensures Grows(db, db.WithEntries(side, db.Entries(side)[id := row]), n)
  {
  }

  /** Rows only leave or change other columns. */
  lemma ShrinkGrows(a: Db, b: Db, n: Id)
    requires Issued(a, n)
    requires forall id :: id in b.users ==> id in a.users && b.users[id].conn == a.users[id].conn && b.users[id].origin == a.users[id].origin
    requires forall id :: id in b.groups ==> id in a.groups && b.groups[id] == a.groups[id]
    requires forall id :: id in b.roles ==> id in a.roles && b.roles[id] == a.roles[id]
    ensures Grows(a, b, n)
  {
  }

  lemma UpsertUserIsSafe(db: Db, local: ConnId, c: ConnId, input: UpsertInput, n: Id, at: int)
    requires Inv(db, local) && Issued(db, n) && c != local
    ensures SafeWrite(db, UpsertUserWrite(db, c, input, n, at).db, n, local, Some(c))
  {
    var r := UpsertUserWrite(db, c, input, n, at);
    var id := UpsertWriteIsGuarded(db, local, c, input, n, at);
    ManualInFrame(db, r.db, local, c);
    if r.error.None? {
      assert UsersAgree(db.users, r.db.users, c);
      PutUserGrows(db, r.db, id, r.db.users[id], n);
    } else {
      Unchanged(db, n, local, Some(c));
    }
  }

  lemma UpsertEntryIsSafe(db: Db, local: ConnId, c: ConnId, side: Side, externalId: ExternalId, name: Text, n: Id, at: int)
    requires Inv(db, local) && Issued(db, n) && c != local
    ensures SafeWrite(db, UpsertEntryWrite(db, c, side, externalId, name, n, at).db, n, local, Some(c))
  {
    var entries := db.Entries(side);
    var _ := UpsertEntryIsGuarded(db, local, c, side, externalId, name, n, at);
    ManualInFrame(db, UpsertEntryWrite(db, c, side, externalId, name, n, at).db, local, c);
    UpsertEntryGrows(db, c, side, externalId, name, n, at);
  }

  lemma UpsertEntryGrows(db: Db, c: ConnId, side: Side, externalId: ExternalId, name: Text, n: Id, at: int)
    requires SchemaOk(db) && Issued(db, n)
    ensures Grows(db, UpsertEntryWrite(db, c, side, externalId, name, n, at).db, n)
  {
    var entries := db.Entries(side);
    if HasEntryRow(entries, c, externalId) {
      var id :| id in entries && IsEntryRow(entries, id, c, externalId);
      EntryUpserted(db, c, side, externalId, name, n, at, id);
      PutEntryGrows(db, side, id, entries[id].(name := name), n);
    } else {
      EntryInserted(db, c, side, externalId, name, n, at);
      PutEntryGrows(db, side, n, Entry(c, externalId, Synced, name, at), n);
    }
  }

  lemma WriteMembersIsSafe(db: Db, local: ConnId, call: Call, n: Id)
    requires Inv(db, local) && Issued(db, n) && call.Replacing? && CallOk(db, n, local, call)
    requires call.ids == [] || call.stage == Guarded
    requires !InsertFails(db, call.side, call.user, call.ids)
    ensures SafeWrite(db, Replaced(db, call.side, call.user, call.ids), n, local, Some(call.c))
  {
    if call.user in db.users {
      ReplacedIsSafe(db, local, call.side, call.user, call.ids);
    } else {
      ReplacedNobody(db, call.side, call.user);
    }
    ManualInFrame(db, Replaced(db, call.side, call.user, call.ids), local, call.c);
    ShrinkGrows(db, Replaced(db, call.side, call.user, call.ids), n);
  }

  lemma ReplacedNobody(db: Db, side: Side, user: Id)
    requires SchemaOk(db) && user !in db.users
    ensures Replaced(db, side, user, []) == db
  {
    assert WithinSource(db.users, db.Entries(side), db.Members(side));
    assert Replaced(db, side, user, []).Members(side) == db.Members(side);
  }

  lemma DeactivatePartIsSafe(db: Db, local: ConnId, c: ConnId, part: set<Id>, n: Id)
    requires Inv(db, local) && Issued(db, n) && c != local
    requires forall id :: id in part && id in db.users ==> db.users[id].conn == c
    ensures SafeWrite(db, Deactivated(db, part), n, local, Some(c))
  {
    var present := set id | id in part && id in db.users;
    DeactivatedPresent(db, part, present);
    DeactivatedIsSafe(db, local, c, present);
    ManualInFrame(db, Deactivated(db, part), local, c);
    ShrinkGrows(db, Deactivated(db, part), n);
  }

  /** Deactivating users that are gone meanwhile does nothing. */
  lemma DeactivatedPresent(db: Db, part: set<Id>, present: set<Id>)
    requires SchemaOk(db) && present == set id | id in part && id in db.users
    ensures Deactivated(db, part) == Deactivated(db, present)
  {
    var a, b := Deactivated(db, part), Deactivated(db, present);
    assert a.users == b.users;
    forall m | m in db.userGroups ensures m.0 in db.users {
      assert (m.0, m.1) in db.userGroups;
    }
    forall m | m in db.userRoles ensures m.0 in db.users {
      assert (m.0, m.1) in db.userRoles;
    }
    assert a.userGroups == b.userGroups && a.userRoles == b.userRoles;
  }

  lemma DeleteOrphansIsSafe(db: Db, local: ConnId, c: ConnId, side: Side, externalIds: set<ExternalId>, n: Id)
    requires Inv(db, local) && Issued(db, n) && c != local
    ensures SafeWrite(db, WithoutEntries(db, side, MissingEntries(db, side, c, externalIds)), n, local, Some(c))
  {
    var after := WithoutEntries(db, side, MissingEntries(db, side, c, externalIds));
    WithoutEntriesIsSafe(db, local, c, side, MissingEntries(db, side, c, externalIds));
    ManualInFrame(db, after, local, c);
    ShrinkGrows(db, after, n);
  }

  lemma RemoveAllIsSafe(db: Db, local: ConnId, c: ConnId, n: Id)
    requires Inv(db, local) && Issued(db, n) && c != local
    ensures SafeWrite(db, Removed(db, c), n, local, Some(c))
  {
    RemovalIsSafe(db, local, c);
    ManualInFrame(db, Removed(db, c), local, c);
    ShrinkGrows(db, Removed(db, c), n);
  }

  lemma CreateUserSafely(db: Db, local: ConnId, input: ManualInput, groupIds: seq<Id>, roleIds: seq<Id>, n: Id, at: int)
    requires Inv(db, local) && Issued(db, n) && ListedIn(db, Groups, groupIds, local) && ListedIn(db, Roles, roleIds, local)
    ensures SafeWrite(db, CreateUserWrite(db, local, input, groupIds, roleIds, n, at).db, n, local, None)
  {
    var r := CreateUserWrite(db, local, input, groupIds, roleIds, n, at);
    CreateUserWriteIsSafe(db, local, input, groupIds, roleIds, n, at);
    if r.error.None? {
      PutUserGrows(db, r.db, n, ManualRow(local, input, n, at), n);
    } else {
      Unchanged(db, n, local, None);
    }
  }

  lemma UpdateUserSafely(db: Db, local: ConnId, id: Id, patch: UserPatch, groupIds: Option<seq<Id>>, roleIds: Option<seq<Id>>, n: Id)
    requires Inv(db, local) && Issued(db, n) && (id in db.users ==> ManualUser(db, id))
    requires ListedIfGiven(db, Groups, groupIds, local) && ListedIfGiven(db, Roles, roleIds, local)
    ensures SafeWrite(db, UpdateUserWrite(db, id, patch, groupIds, roleIds).db, n, local, None)
  {
    Unchanged(db, n, local, None);
    if id in db.users {
      var r, row := UpdateUserWrite(db, id, patch, groupIds, roleIds), Patched(db.users[id], patch);
      PutUserWriteIsSafe(db, local, id, row, groupIds, roleIds);
      if r.error.None? {
        PutUserGrows(db, r.db, id, row, n);
      }
    }
  }

  lemma DeleteUserSafely(db: Db, local: ConnId, id: Id, n: Id)
    requires Inv(db, local) && Issued(db, n) && (id in db.users ==> ManualUser(db, id))
    ensures SafeWrite(db, DeleteUserWrite(db, id).db, n, local, None)
  {
    Unchanged(db, n, local, None);
    if id in db.users {
      WithoutUsersIsSafe(db, local, local, {id});
      ShrinkGrows(db, WithoutUsers(db, {id}), n);
    }
  }

  lemma CreateEntrySafely(db: Db, local: ConnId, side: Side, name: Text, n: Id, at: int)
    requires Inv(db, local) && Issued(db, n)
    ensures SafeWrite(db, CreateEntryWrite(db, local, side, name, n, at).db, n, local, None)
  {
    CreateEntryWriteIsSafe(db, local, side, name, n, at);
    if CreateEntryWrite(db, local, side, name, n, at).error.None? {
      PutEntryGrows(db, side, n, Entry(local, ManualEntryId(side, n), Manual, name, at), n);
    } else {
      Unchanged(db, n, local, None);
    }
  }

  lemma RenameEntrySafely(db: Db, local: ConnId, side: Side, id: Id, name: Text, n: Id)
    requires Inv(db, local) && Issued(db, n) && (id in db.Entries(side) ==> ManualEntry(db, side, id))
    ensures SafeWrite(db, RenameEntryWrite(db, side, id, name).db, n, local, None)
  {
    RenameEntryWriteIsSafe(db, local, side, id, name);
    if RenameEntryWrite(db, side, id, name).error.None? {
      PutEntryGrows(db, side, id, db.Entries(side)[id].(name := name), n);
    } else {
      Unchanged(db, n, local, None);
    }
  }

  lemma DeleteEntrySafely(db: Db, local: ConnId, side: Side, id: Id, n: Id)
    requires Inv(db, local) && Issued(db, n) && (id in db.Entries(side) ==> ManualEntry(db, side, id))
    ensures SafeWrite(db, DeleteEntryWrite(db, side, id).db, n, local, None)
  {
    DeleteEntryWriteIsSafe(db, local, side, id);
    ShrinkGrows(db, DeleteEntryWrite(db, side, id).db, n);
  }

  lemma SyncWriteIsSafe(s: State, local: ConnId, e: Event)
    requires StateOk(s, local) && Enabled(s, local, e) && IsWrite(e) && SourceOf(s, e).Some?
    ensures SafeWrite(s.db, Written(s, local, e), s.nextId, local, SourceOf(s, e))
  {
    match e
    case UpsertUser(c, input, at) => UpsertUserIsSafe(s.db, local, c, input, s.nextId, at);
    case UpsertEntry(c, side, externalId, name, at) => UpsertEntryIsSafe(s.db, local, c, side, externalId, name, s.nextId, at);
    case WriteMembers(w) =>
      var call := s.calls[w];
      assert CallOk(s.db, s.nextId, local, call);
      if InsertFails(s.db, call.side, call.user, call.ids) {
        Unchanged(s.db, s.nextId, local, Some(call.c));
      } else {
        WriteMembersIsSafe(s.db, local, call, s.nextId);
      }
    case DeactivatePart(w, part) =>
      assert CallOk(s.db, s.nextId, local, s.calls[w]);
      DeactivatePartIsSafe(s.db, local, s.calls[w].c, part, s.nextId);
    case DeleteOrphans(c, side, externalIds) => DeleteOrphansIsSafe(s.db, local, c, side, externalIds, s.nextId);
    case RemoveAll(c) => RemoveAllIsSafe(s.db, local, c, s.nextId);
    case _ =>
  }

  lemma AdminWriteIsSafe(s: State, local: ConnId, e: Event)
    requires StateOk(s, local) && Enabled(s, local, e) && IsWrite(e) && SourceOf(s, e).None?
    ensures SafeWrite(s.db, Written(s, local, e), s.nextId, local, None)
  {
    match e
    case WriteUser(w, at) =>
      var call := s.calls[w];
      assert CallOk(s.db, s.nextId, local, call);
      if call.Creating? {
        CreateUserSafely(s.db, local, call.input, call.groupIds, call.roleIds, s.nextId, at);
      } else {
        UpdateUserSafely(s.db, local, call.id, call.patch, call.newGroupIds, call.newRoleIds, s.nextId);
      }
    case DeleteUser(w) =>
      assert CallOk(s.db, s.nextId, local, s.calls[w]);
      DeleteUserSafely(s.db, local, s.calls[w].id, s.nextId);
    case CreateEntry(side, name, at) => CreateEntrySafely(s.db, local, side, name, s.nextId, at);
    case RenameEntry(w, name) =>
      assert CallOk(s.db, s.nextId, local, s.calls[w]);
      RenameEntrySafely(s.db, local, s.calls[w].entrySide, s.calls[w].entry, name, s.nextId);
    case DeleteEntry(w) =>
      assert CallOk(s.db, s.nextId, local, s.calls[w]);
      DeleteEntrySafely(s.db, local, s.calls[w].entrySide, s.calls[w].entry, s.nextId);
    case _ =>
  }

  lemma EveryWriteIsSafe(s: State, local: ConnId, e: Event)
    requires StateOk(s, local) && Enabled(s, local, e) && IsWrite(e)
    ensures SafeWrite(s.db, Written(s, local, e), s.nextId, local, SourceOf(s, e))
  {
    if SourceOf(s, e).Some? {
      SyncWriteIsSafe(s, local, e);
    } else {
      AdminWriteIsSafe(s, local, e);
    }
  }

  // ------------------------------------------------------------------ every check

  lemma ListedByCount(db: Db, side: Side, ids: seq<Id>, c: ConnId)
    requires |CountedIn(ids, db.Entries(side), c)| == |ids|
    ensures forall k :: 0 <= k < |ids| ==> ids[k] in db.Entries(side) && db.Entries(side)[ids[k]].conn == c
  {
    var counted := CountedIn(ids, db.Entries(side), c);
    ElementsCount(ids);
    SubsetOfSameSize(counted, Elements(ids));
    forall k | 0 <= k < |ids| ensures ids[k] in counted {
      assert ids[k] in Elements(ids);
    }
  }

  lemma CheckIsSound(s: State, local: ConnId, e: Event, w: WorkerId)
    requires StateOk(s, local) && Enabled(s, local, e) && !IsWrite(e) && w in AfterCheck(s, local, e)
    ensures CallOk(s.db, s.nextId, local, AfterCheck(s, local, e)[w])
  {
    if w in s.calls {
      assert CallOk(s.db, s.nextId, local, s.calls[w]);
    }
    if e.CountListed? && e.w == w {
      CountIsSound(s, local, w, e.side);
    }
  }

  lemma CountIsSound(s: State, local: ConnId, w: WorkerId, side: Side)
    requires StateOk(s, local) && Enabled(s, local, CountListed(w, side)) && w in AfterCheck(s, local, CountListed(w, side))
    ensures CallOk(s.db, s.nextId, local, AfterCheck(s, local, CountListed(w, side))[w])
  {
    var call := s.calls[w];
    assert CallOk(s.db, s.nextId, local, call);
    ListedByCount(s.db, side, ListFor(call, side), if call.Updating? then call.owner else local);
    assert forall id :: id in s.db.Entries(side) ==> id < s.nextId;
  }

  lemma StepKeepsOk(s: State, local: ConnId, e: Event)
    requires StateOk(s, local) && Enabled(s, local, e)
    ensures StateOk(Next(s, local, e), local)
  {
    var t := Next(s, local, e);
    if IsWrite(e) {
      EveryWriteIsSafe(s, local, e);
      forall w | w in t.calls ensures CallOk(t.db, t.nextId, local, t.calls[w]) {
        CallStaysOk(s.db, t.db, s.nextId, t.nextId, local, s.calls[w]);
      }
    } else {
      forall w | w in t.calls ensures CallOk(t.db, t.nextId, local, t.calls[w]) {
        CheckIsSound(s, local, e, w);
      }
    }
  }

  /**
   * However syncs of any sources and admin calls interleave, statement by statement: keys stay
   * unique, memberships stay within one source, and manual rows stay local.
   */
  lemma {:induction false} InvHolds(local: ConnId, states: seq<State>, events: seq<Event>, k: nat)
    requires IsRun(local, states, events) && states[0] == INITIAL && k < |states|
    ensures Inv(states[k].db, local) && StateOk(states[k], local)
  {
    if k > 0 {
      InvHolds(local, states, events, k - 1);
      StepKeepsOk(states[k - 1], local, events[k - 1]);
    }
  }

  /** However stale the checks before it, a write of a sync leaves every manual row and every other source alone. */
  lemma SyncWritesStayInTheirSource(local: ConnId, states: seq<State>, events: seq<Event>, k: nat)
    requires IsRun(local, states, events) && states[0] == INITIAL && k < |events| && SourceOf(states[k], events[k]).Some?
    ensures OthersUnchanged(states[k].db, states[k + 1].db, SourceOf(states[k], events[k]).value)
    ensures ManualUnchanged(states[k].db, states[k + 1].db)
  {
    InvHolds(local, states, events, k);
    EveryWriteIsSafe(states[k], local, events[k]);
  }

  /** And every other event leaves the rows that syncs manage, and every source but the local one, alone. */
  lemma AdminWritesStayLocal(local: ConnId, states: seq<State>, events: seq<Event>, k: nat)
    requires IsRun(local, states, events) && states[0] == INITIAL && k < |events| && SourceOf(states[k], events[k]).None?
    ensures OthersUnchanged(states[k].db, states[k + 1].db, local) && SyncedUnchanged(states[k].db, states[k + 1].db)
  {
    InvHolds(local, states, events, k);
    if IsWrite(events[k]) {
      EveryWriteIsSafe(states[k], local, events[k]);
    }
  }

  // ------------------------------------------------------------------ deleting a group or role

  predicate DeletesCounted(s: State, w: WorkerId, side: Side, id: Id) {
    w in s.calls && s.calls[w] == Deleting(side, id, true)
  }

  /** The m-th event gives the user a membership of the entry. */
  predicate Assigns(states: seq<State>, m: nat, side: Side, id: Id, user: Id)
    requires m + 1 < |states|
  {
    (user, id) !in states[m].db.Members(side) && (user, id) in states[m + 1].db.Members(side)
  }

  predicate IsMemberAt(states: seq<State>, q: nat, side: Side, id: Id, user: Id)
    requires q < |states|
  {
    (user, id) in states[q].db.Members(side)
  }

  /** An event between the two gives the user a membership of the entry, which then stays until the later one. */
  predicate AssignedAndKept(states: seq<State>, i: nat, j: nat, side: Side, id: Id, user: Id, m: nat)
    requires j < |states|
  {
    i < m < j && Assigns(states, m, side, id, user) && forall q :: m < q <= j ==> IsMemberAt(states, q, side, id, user)
  }

  lemma {:induction false} MembershipWasAssigned(states: seq<State>, i: nat, j: nat, side: Side, id: Id, user: Id) returns (m: nat)
    requires i < j < |states|
    requires !IsMemberAt(states, i + 1, side, id, user) && IsMemberAt(states, j, side, id, user)
    ensures AssignedAndKept(states, i, j, side, id, user, m)
    decreases j
  {
    if IsMemberAt(states, j - 1, side, id, user) {
      m := MembershipWasAssigned(states, i, j - 1, side, id, user);
    } else {
      m := j - 1;
      assert Assigns(states, m, side, id, user);
    }
  }

  /** A count that let the delete go on found no members. */
  lemma CountFoundNone(s: State, local: ConnId, w: WorkerId, side: Side, id: Id)
    requires Enabled(s, local, CountMembers(w)) && DeletesCounted(Next(s, local, CountMembers(w)), w, side, id)
    ensures Next(s, local, CountMembers(w)).db == s.db && !HasMembers(s.db, side, id)
  {
  }

  /** The delete loses memberships exactly if there are any when it comes, and only those of its entry. */
  lemma DeleteLosesMembers(s: State, local: ConnId, w: WorkerId, side: Side, id: Id)
    requires StateOk(s, local) && DeletesCounted(s, w, side, id)
    ensures var after := Next(s, local, Event.DeleteEntry(w)).db;
            && (after.Members(side) != s.db.Members(side) <==> HasMembers(s.db, side, id))
            && forall x :: x in s.db.Members(side) && x.1 != id ==> x in after.Members(side)
  {
    assert CallOk(s.db, s.nextId, local, s.calls[w]);
    DeleteTakesMembers(s.db, local, side, id);
  }

  lemma DeleteTakesMembers(db: Db, local: ConnId, side: Side, id: Id)
    requires Inv(db, local)
    ensures var after := DeleteEntryWrite(db, side, id).db;
            && (after.Members(side) != db.Members(side) <==> HasMembers(db, side, id))
            && forall x :: x in db.Members(side) && x.1 != id ==> x in after.Members(side)
  {
    assert WithinSource(db.users, db.Entries(side), db.Members(side));
    assert WithoutEntries(db, side, {id}).Members(side) == set x | x in db.Members(side) && x.1 != id;
    if HasMembers(db, side, id) {
      var x :| x in db.Members(side) && x.1 == id;
      assert (x.0, id) == x;
    } else {
      assert WithoutEntries(db, side, {id}).Members(side) == db.Members(side);
    }
  }

  lemma HasMembersMeans(states: seq<State>, q: nat, side: Side, id: Id)
    requires q < |states|
    ensures HasMembers(states[q].db, side, id) <==> exists user :: IsMemberAt(states, q, side, id, user)
  {
    if x :| x in states[q].db.Members(side) && x.1 == id {
      assert (x.0, id) == x;
      assert IsMemberAt(states, q, side, id, x.0);
    }
    if user :| IsMemberAt(states, q, side, id, user) {
      assert (user, id).1 == id;
    }
  }

  /** Members where there were none: one was assigned in between and not taken away again; and the other way round. */
  lemma MembersIffAssigned(states: seq<State>, i: nat, j: nat, side: Side, id: Id)
    requires i < j < |states| && !HasMembers(states[i + 1].db, side, id)
    ensures HasMembers(states[j].db, side, id) <==> exists user, m :: AssignedAndKept(states, i, j, side, id, user, m)
  {
    HasMembersMeans(states, i + 1, side, id);
    HasMembersMeans(states, j, side, id);
    if user :| IsMemberAt(states, j, side, id, user) {
      var m := MembershipWasAssigned(states, i, j, side, id, user);
    }
    if user, m :| AssignedAndKept(states, i, j, side, id, user, m) {
      assert IsMemberAt(states, j, side, id, user);
    }
  }

  /**
   * The count of an admin's delete let it go on at i; the delete itself comes at j. It loses
   * memberships if and only if one was assigned in between and not taken away again.
   */
  lemma DeleteLosesIffAssigned(local: ConnId, states: seq<State>, events: seq<Event>, i: nat, j: nat, w: WorkerId, side: Side, id: Id)
    requires IsRun(local, states, events) && states[0] == INITIAL && i < j < |events|
    requires events[i] == CountMembers(w) && DeletesCounted(states[i + 1], w, side, id)
    requires events[j] == Event.DeleteEntry(w) && DeletesCounted(states[j], w, side, id)
    ensures states[j + 1].db.Members(side) != states[j].db.Members(side) <==>
            exists user, m :: AssignedAndKept(states, i, j, side, id, user, m)
    ensures forall x :: x in states[j].db.Members(side) && x.1 != id ==> x in states[j + 1].db.Members(side)
  {
    InvHolds(local, states, events, j);
    CountFoundNone(states[i], local, w, side, id);
    DeleteLosesMembers(states[j], local, w, side, id);
    MembersIffAssigned(states, i, j, side, id);
  }

  /** In particular nothing is lost when no membership of the entry is written in between. */
  lemma DeleteLosesNothingUndisturbed(local: ConnId, states: seq<State>, events: seq<Event>, i: nat, j: nat, w: WorkerId, side: Side, id: Id)
    requires IsRun(local, states, events) && states[0] == INITIAL && i < j < |events|
    requires events[i] == CountMembers(w) && DeletesCounted(states[i + 1], w, side, id)
    requires events[j] == Event.DeleteEntry(w) && DeletesCounted(states[j], w, side, id)
    requires forall m, user :: i < m < j ==> !Assigns(states, m, side, id, user)
    ensures states[j + 1].db.Members(side) == states[j].db.Members(side)
  {
    DeleteLosesIffAssigned(local, states, events, i, j, w, side, id);
  }

  /** The events of a delete whose count is overtaken by an assignment to the same group. */
  function Overtaken(user: Id, group: Id, at: int): seq<Event> {
    [StartDelete(1, Groups, group), CountMembers(1), StartUpdate(2, user, KEEP_ALL, Some([group]), None), CountListed(2, Groups),
     WriteUser(2, at), Event.DeleteEntry(1)]
  }

  const KEEP_ALL := UserPatch(None, None, None, None, None)

  function Assigning(user: Id, group: Id, local: ConnId, checked: set<Side>): Call {
    Updating(user, KEEP_ALL, Some([group]), None, local, checked)
  }

  lemma CountPasses(s: State, local: ConnId, group: Id)
    requires !HasMembers(s.db, Groups, group) && ManualEntry(s.db, Groups, group) && 1 !in s.calls
    ensures Enabled(s, local, StartDelete(1, Groups, group))
    ensures var t := Next(s, local, StartDelete(1, Groups, group));
            && Enabled(t, local, CountMembers(1))
            && Next(t, local, CountMembers(1)) == State(s.db, s.nextId, s.calls[1 := Deleting(Groups, group, true)])
  {
  }

  lemma AssignmentPasses(s: State, local: ConnId, user: Id, group: Id)
    requires Inv(s.db, local) && ManualUser(s.db, user) && ManualEntry(s.db, Groups, group) && 2 !in s.calls
    ensures Enabled(s, local, StartUpdate(2, user, KEEP_ALL, Some([group]), None))
    ensures var t := Next(s, local, StartUpdate(2, user, KEEP_ALL, Some([group]), None));
            && Enabled(t, local, CountListed(2, Groups))
            && Next(t, local, CountListed(2, Groups)) == State(s.db, s.nextId, s.calls[2 := Assigning(user, group, local, {Groups})])
  {
    assert s.db.users[user].conn == local && s.db.groups[group].conn == local;
    assert CountedIn([group], s.db.Entries(Groups), local) == {group};
    assert {} + {Groups} == {Groups};
  }

  lemma AssignmentSucceeds(db: Db, local: ConnId, user: Id, group: Id)
    requires Inv(db, local) && ManualUser(db, user) && ManualEntry(db, Groups, group)
    ensures var after := UpdateUserWrite(db, user, KEEP_ALL, Some([group]), None).db;
            (user, group) in after.userGroups && after.groups == db.groups
  {
    var row := Patched(db.users[user], KEEP_ALL);
    assert row == db.users[user] && db.users[user := row] == db.users;
    assert !UsernameTakenByOther(db.users, row.username, user) && !UserKeyTaken(db.users, user, row);
    PutUserWriteIsSafe(db, local, user, row, Some([group]), None);
    assert group in [group];
  }

  ghost predicate IsStep(local: ConnId, s: State, e: Event, t: State) {
    Enabled(s, local, e) && t == Next(s, local, e)
  }

  lemma RunGrows(local: ConnId, states: seq<State>, events: seq<Event>, e: Event, t: State)
    requires IsRun(local, states, events) && IsStep(local, states[|events|], e, t)
    ensures IsRun(local, states + [t], events + [e])
  {
  }

  /** The delete's count. */
  lemma CountRun(s: State, local: ConnId, user: Id, group: Id, at: int) returns (states: seq<State>)
    requires !HasMembers(s.db, Groups, group) && ManualEntry(s.db, Groups, group) && s.calls == map[]
    ensures IsRun(local, states, Overtaken(user, group, at)[..2]) && states[0] == s
    ensures states[2] == State(s.db, s.nextId, map[1 := Deleting(Groups, group, true)])
  {
    var events := Overtaken(user, group, at);
    CountPasses(s, local, group);
    var s1 := Next(s, local, events[0]);
    states := [s, s1, Next(s1, local, events[1])];
    RunGrows(local, [s], [], events[0], s1);
    RunGrows(local, [s] + [s1], [] + [events[0]], events[1], states[2]);
    assert [] + [events[0]] + [events[1]] == events[..2] && [s] + [s1] + [states[2]] == states;
  }

  /** Then the guards of the assignment. */
  lemma GuardRun(s: State, local: ConnId, user: Id, group: Id, at: int) returns (states: seq<State>)
    requires StateOk(s, local) && s.calls == map[]
    requires ManualUser(s.db, user) && ManualEntry(s.db, Groups, group) && !HasMembers(s.db, Groups, group)
    ensures IsRun(local, states, Overtaken(user, group, at)[..4]) && states[0] == s
    ensures states[4].db == s.db && DeletesCounted(states[4], 1, Groups, group)
    ensures 2 in states[4].calls && states[4].calls[2] == Assigning(user, group, local, {Groups})
  {
    var events := Overtaken(user, group, at);
    var before := CountRun(s, local, user, group, at);
    var s2 := before[2];
    AssignmentPasses(s2, local, user, group);
    var s3 := Next(s2, local, events[2]);
    var s4 := Next(s3, local, events[3]);
    RunGrows(local, before, events[..2], events[2], s3);
    RunGrows(local, before + [s3], events[..2] + [events[2]], events[3], s4);
    states := before + [s3] + [s4];
    assert events[..2] + [events[2]] + [events[3]] == events[..4];
  }

  /** Then its transaction. */
  lemma AssignmentRun(s: State, local: ConnId, user: Id, group: Id, at: int) returns (states: seq<State>)
    requires StateOk(s, local) && s.calls == map[]
    requires ManualUser(s.db, user) && ManualEntry(s.db, Groups, group) && !HasMembers(s.db, Groups, group)
    ensures IsRun(local, states, Overtaken(user, group, at)[..5]) && states[0] == s
    ensures (user, group) in states[5].db.userGroups && group in states[5].db.groups && DeletesCounted(states[5], 1, Groups, group)
  {
    var events := Overtaken(user, group, at);
    var before := GuardRun(s, local, user, group, at);
    AssignmentSucceeds(s.db, local, user, group);
    var s5 := WriteAssigns(before[4], local, user, group, at);
    RunGrows(local, before, events[..4], events[4], s5);
    states := before + [s5];
    assert events[..4] + [events[4]] == events[..5];
  }

  /**
   * It does happen: from any state without calls, for any manual user and any manual group without
   * members, the assignment succeeds and the delete that had counted before it takes it away.
   */
  lemma AssignmentCanBeLost(s: State, local: ConnId, user: Id, group: Id, at: int) returns (states: seq<State>)
    requires StateOk(s, local) && s.calls == map[]
    requires ManualUser(s.db, user) && ManualEntry(s.db, Groups, group) && !HasMembers(s.db, Groups, group)
    ensures IsRun(local, states, Overtaken(user, group, at)) && states[0] == s
    ensures (user, group) in states[5].db.userGroups && group !in states[6].db.groups && (user, group) !in states[6].db.userGroups
  {
    var events := Overtaken(user, group, at);
    var before := AssignmentRun(s, local, user, group, at);
    var last := DeleteTakesAway(before[5], local, user, group);
    RunGrows(local, before, events[..5], events[5], last);
    states := before + [last];
    assert events[..5] + [events[5]] == events;
  }

  lemma DeleteTakesAway(s: State, local: ConnId, user: Id, group: Id) returns (t: State)
    requires DeletesCounted(s, 1, Groups, group) && group in s.db.groups
    ensures IsStep(local, s, Event.DeleteEntry(1), t)
    ensures group !in t.db.groups && (user, group) !in t.db.userGroups
  {
    t := Next(s, local, Event.DeleteEntry(1));
    assert t.db == WithoutEntries(s.db, Groups, {group});
  }

  /** The transaction goes through, and the other call stays where it is. */
  lemma WriteAssigns(s: State, local: ConnId, user: Id, group: Id, at: int) returns (t: State)
    requires 2 in s.calls && s.calls[2] == Assigning(user, group, local, {Groups}) && DeletesCounted(s, 1, Groups, group)
    requires var after := UpdateUserWrite(s.db, user, KEEP_ALL, Some([group]), None).db;
             (user, group) in after.userGroups && after.groups == s.db.groups
    ensures IsStep(local, s, WriteUser(2, at), t)
    ensures (user, group) in t.db.userGroups && t.db.groups == s.db.groups && DeletesCounted(t, 1, Groups, group)
  {
    t := Next(s, local, WriteUser(2, at));
  }
}
