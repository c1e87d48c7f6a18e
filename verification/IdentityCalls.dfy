/**
 * Whole calls as runs of the machine: with nothing else running, the checks and the write of an admin call or of
 * a sync operation that succeeds come one after the other, and leave the store as the operation states.
 */
module IdentityCalls {
  import opened Wrappers
  import opened IdentityStore
  import opened IdentitySync
  import opened IdentityAdmin
  import opened IdentityProtocol

  /** Some run goes from one state to the other. */
  ghost predicate Leads(local: ConnId, s: State, t: State) {
    exists states, events :: IsRun(local, states, events) && states[0] == s && states[|events|] == t
  }

  lemma LeadsNowhere(local: ConnId, s: State)
    ensures Leads(local, s, s)
  {
    assert IsRun(local, [s], []);
  }

  lemma LeadsNext(local: ConnId, s: State, t: State, e: Event)
    requires Leads(local, s, t) && Enabled(t, local, e)
    ensures Leads(local, s, Next(t, local, e))
  {
    var states, events :| IsRun(local, states, events) && states[0] == s && states[|events|] == t;
    RunGrows(local, states, events, e, Next(t, local, e));
  }

  /** The state in which the operation is done and the worker is free again. */
  function After(s: State, db: Db): State {
    State(db, s.nextId + 1, s.calls)
  }

  // ------------------------------------------------------------------ admin calls

  lemma RenameCallIsARun(s: State, local: ConnId, w: WorkerId, op: AdminOp)
    requires op.RenameEntry? && w !in s.calls && ApplyAdmin(s.db, local, op).error.None?
    ensures Leads(local, s, After(s, ApplyAdmin(s.db, local, op).db))
  {
    LeadsNowhere(local, s);
    LeadsNext(local, s, s, StartRename(w, op.side, op.id));
    var t := Next(s, local, StartRename(w, op.side, op.id));
    LeadsNext(local, s, t, Event.RenameEntry(w, op.name));
    assert t.calls - {w} == s.calls;
  }

  lemma DeleteEntryCallIsARun(s: State, local: ConnId, w: WorkerId, op: AdminOp)
    requires op.DeleteEntry? && w !in s.calls && ApplyAdmin(s.db, local, op).error.None?
    ensures Leads(local, s, After(s, ApplyAdmin(s.db, local, op).db))
  {
    var u := CountIsARun(s, local, w, op.side, op.id);
    LeadsNext(local, s, u, Event.DeleteEntry(w));
    assert u.calls - {w} == s.calls;
  }

  lemma CountIsARun(s: State, local: ConnId, w: WorkerId, side: Side, id: Id) returns (t: State)
    requires w !in s.calls && ManualEntry(s.db, side, id) && !HasMembers(s.db, side, id)
    ensures t == s.(calls := s.calls[w := Deleting(side, id, true)]) && Leads(local, s, t)
  {
    LeadsNowhere(local, s);
    LeadsNext(local, s, s, StartDelete(w, side, id));
    var started := Next(s, local, StartDelete(w, side, id));
    LeadsNext(local, s, started, CountMembers(w));
    t := Next(started, local, CountMembers(w));
  }

  /** The count of one list, if it is not empty. */
  lemma ListPasses(s: State, local: ConnId, t: State, w: WorkerId, side: Side) returns (u: State)
    requires Leads(local, s, t) && w in t.calls && (t.calls[w].Creating? || t.calls[w].Updating?)
    requires var owner := if t.calls[w].Updating? then t.calls[w].owner else local;
             ValidIds(t.db, side, ListFor(t.calls[w], side), owner)
    ensures Leads(local, s, u) && u.db == t.db && u.nextId == t.nextId && w in u.calls && u.calls - {w} == t.calls - {w}
    ensures (u.calls[w].Creating? || u.calls[w].Updating?) && u.calls[w] == t.calls[w].(checked := u.calls[w].checked)
    ensures t.calls[w].checked <= u.calls[w].checked && IsChecked(u.calls[w], side)
  {
    if ListFor(t.calls[w], side) == [] {
      u := t;
    } else {
      LeadsNext(local, s, t, CountListed(w, side));
      u := Next(t, local, CountListed(w, side));
    }
  }

  lemma ListsPass(s: State, local: ConnId, t: State, w: WorkerId) returns (u: State)
    requires Leads(local, s, t) && w in t.calls && (t.calls[w].Creating? || t.calls[w].Updating?)
    requires var owner := if t.calls[w].Updating? then t.calls[w].owner else local;
             ValidIds(t.db, Groups, ListFor(t.calls[w], Groups), owner) && ValidIds(t.db, Roles, ListFor(t.calls[w], Roles), owner)
    ensures Leads(local, s, u) && u.db == t.db && u.nextId == t.nextId && w in u.calls && u.calls - {w} == t.calls - {w}
    ensures (u.calls[w].Creating? || u.calls[w].Updating?) && u.calls[w] == t.calls[w].(checked := u.calls[w].checked)
    ensures IsChecked(u.calls[w], Groups) && IsChecked(u.calls[w], Roles)
  {
    u := ListPasses(s, local, t, w, Groups);
    u := ListPasses(s, local, u, w, Roles);
  }

  lemma CreateCallIsARun(s: State, local: ConnId, w: WorkerId, op: AdminOp)
    requires op.CreateUser? && op.freshId == s.nextId && w !in s.calls && ApplyAdmin(s.db, local, op).error.None?
    ensures Leads(local, s, After(s, ApplyAdmin(s.db, local, op).db))
  {
    LeadsNowhere(local, s);
    var start := StartCreate(w, op.input, op.groupIds, op.roleIds);
    LeadsNext(local, s, s, start);
    var u := ListsPass(s, local, Next(s, local, start), w);
    LeadsNext(local, s, u, WriteUser(w, op.now));
    assert u.calls - {w} == s.calls;
  }

  lemma UpdateCallIsARun(s: State, local: ConnId, w: WorkerId, op: AdminOp, at: int)
    requires op.UpdateUser? && w !in s.calls && ApplyAdmin(s.db, local, op).error.None?
    ensures Leads(local, s, After(s, ApplyAdmin(s.db, local, op).db))
  {
    LeadsNowhere(local, s);
    var start := StartUpdate(w, op.id, op.patch, op.newGroupIds, op.newRoleIds);
    LeadsNext(local, s, s, start);
    var u := ListsPass(s, local, Next(s, local, start), w);
    LeadsNext(local, s, u, WriteUser(w, at));
    assert u.calls - {w} == s.calls;
  }

  lemma DeleteCallIsARun(s: State, local: ConnId, w: WorkerId, op: AdminOp)
    requires op.DeleteUser? && w !in s.calls && ApplyAdmin(s.db, local, op).error.None?
    ensures Leads(local, s, After(s, ApplyAdmin(s.db, local, op).db))
  {
    LeadsNowhere(local, s);
    LeadsNext(local, s, s, StartDeleteUser(w, op.id));
    var t := Next(s, local, StartDeleteUser(w, op.id));
    LeadsNext(local, s, t, Event.DeleteUser(w));
    assert t.calls - {w} == s.calls;
  }

  /** An admin call that succeeds on its own is a run of the machine, whatever the other calls have come to. */
  lemma AdminCallIsARun(s: State, local: ConnId, w: WorkerId, op: AdminOp)
    requires op.CreateUser? || op.CreateEntry? ==> op.freshId == s.nextId
    requires w !in s.calls && ApplyAdmin(s.db, local, op).error.None?
    ensures Leads(local, s, After(s, ApplyAdmin(s.db, local, op).db))
  {
    match op {
      case CreateUser(_, _, _, _, _) => CreateCallIsARun(s, local, w, op);
      case UpdateUser(_, _, _, _) => UpdateCallIsARun(s, local, w, op, 0);
      case DeleteUser(_) => DeleteCallIsARun(s, local, w, op);
      case CreateEntry(side, name, _, now) =>
        LeadsNowhere(local, s);
        LeadsNext(local, s, s, Event.CreateEntry(side, name, now));
      case RenameEntry(_, _, _) => RenameCallIsARun(s, local, w, op);
      case DeleteEntry(_, _) => DeleteEntryCallIsARun(s, local, w, op);
    }
  }

  // ------------------------------------------------------------------ operations of a sync

  /** The guard of a membership change: the user's source, then the listed rows. */
  lemma GuardIsARun(s: State, local: ConnId, t: State, w: WorkerId) returns (u: State)
    requires Leads(local, s, t) && w in t.calls && t.calls[w].Replacing? && t.calls[w].stage == NotRead
    requires var call := t.calls[w]; call.ids != [] && !SomeForeign(t.db, call.side, call.user, call.ids)
    ensures Leads(local, s, u) && u == t.(calls := t.calls[w := t.calls[w].(stage := Guarded)])
  {
    LeadsNext(local, s, t, ReadOwner(w));
    u := Next(t, local, ReadOwner(w));
    if u.calls[w].stage.OwnerRead? {
      LeadsNext(local, s, u, CountForeign(w));
      u := Next(u, local, CountForeign(w));
    }
  }

  lemma ReplaceIsARun(s: State, local: ConnId, w: WorkerId, c: ConnId, op: SyncOp)
    requires op.ReplaceMembers? && Own(s.db, c, op) && c != local && w !in s.calls
    requires op.user < s.nextId && forall k :: 0 <= k < |op.ids| ==> op.ids[k] < s.nextId
    requires Apply(s.db, c, op).error.None?
    ensures Leads(local, s, After(s, Apply(s.db, c, op).db))
  {
    LeadsNowhere(local, s);
    var start := StartReplace(w, c, op.side, op.user, op.ids);
    LeadsNext(local, s, s, start);
    var t := Next(s, local, start);
    if op.ids != [] {
      t := GuardIsARun(s, local, t, w);
    }
    LeadsNext(local, s, t, WriteMembers(w));
    assert t.calls - {w} == s.calls;
  }

  lemma DeactivationIsARun(s: State, local: ConnId, w: WorkerId, c: ConnId, users: set<Id>)
    requires c != local && w !in s.calls && users <= SyncedUserIds(s.db, c)
    ensures Leads(local, s, After(s, Deactivated(s.db, users)))
  {
    LeadsNowhere(local, s);
    LeadsNext(local, s, s, FindUsers(w, c, users));
    var t := Next(s, local, FindUsers(w, c, users));
    LeadsNext(local, s, t, DeactivatePart(w, users));
    var u := Next(t, local, DeactivatePart(w, users));
    LeadsNext(local, s, u, GiveUp(w));
    assert u.calls - {w} == s.calls;
  }

  /** A sync operation that succeeds on its own is a run of the machine, whatever the other calls have come to. */
  lemma SyncOpIsARun(s: State, local: ConnId, w: WorkerId, c: ConnId, op: SyncOp)
    requires c != local && w !in s.calls && Own(s.db, c, op) && Apply(s.db, c, op).error.None?
    requires op.UpsertUser? ==> op.freshId == s.nextId
    requires op.UpsertEntry? ==> op.freshEntryId == s.nextId
    requires op.ReplaceMembers? ==> op.user < s.nextId && forall k :: 0 <= k < |op.ids| ==> op.ids[k] < s.nextId
    ensures Leads(local, s, After(s, Apply(s.db, c, op).db))
  {
    LeadsNowhere(local, s);
    match op {
      case UpsertUser(input, _, now) => LeadsNext(local, s, s, Event.UpsertUser(c, input, now));
      case UpsertEntry(side, externalId, name, _, at) => LeadsNext(local, s, s, Event.UpsertEntry(c, side, externalId, name, at));
      case ReplaceMembers(_, _, _) => ReplaceIsARun(s, local, w, c, op);
      case DeactivateUsersNotIn(externalIds) => DeactivationIsARun(s, local, w, c, MissingUsers(s.db, c, externalIds));
      case DeleteOrphans(side, externalIds) => LeadsNext(local, s, s, Event.DeleteOrphans(c, side, externalIds));
      case RemoveConnection(mode) =>
        if mode == DeactivateMode {
          DeactivationIsARun(s, local, w, c, SyncedUserIds(s.db, c));
        } else {
          LeadsNext(local, s, s, RemoveAll(c));
        }
    }
  }
}
