/** The registry of SSO sessions: termination, single and in bulk, with its logout fan-out. */
module SsoSessionService {
  import opened Wrappers

  type SsoId = nat
  type UserId = nat

  datatype Status = Active | Terminated

  datatype Session = Session(user: Option<UserId>, status: Status, expiresAt: int)

  datatype Outcome = DidTerminate | AlreadyTerminated | NotFound

  type Sessions = map<SsoId, Session>

  predicate IsActiveRow(sessions: Sessions, id: SsoId) {
    id in sessions && sessions[id].status == Active
  }

  function OutcomeFor(sessions: Sessions, id: SsoId): Outcome {
    if id !in sessions then NotFound else if sessions[id].status == Terminated then AlreadyTerminated else DidTerminate
  }

  /** The sessions of the set are terminated, the others are as before. */
  function TerminatedAll(sessions: Sessions, ids: set<SsoId>): Sessions {
    map id | id in sessions :: if id in ids then sessions[id].(status := Terminated) else sessions[id]
  }

  predicate NoRepeats(ids: seq<SsoId>) {
    forall i, j :: 0 <= i < j < |ids| ==> ids[i] != ids[j]
  }

  function ActiveAmong(sessions: Sessions, ids: set<SsoId>): set<SsoId> {
    set id | id in ids && IsActiveRow(sessions, id)
  }

  function Elements(ids: seq<SsoId>): set<SsoId> {
    set id | id in ids
  }

  /** What terminating ids[k] reports, the ids before it having been terminated. */
  function OutcomeAt(sessions: Sessions, ids: seq<SsoId>, k: nat): Outcome
    requires k < |ids|
  {
    OutcomeFor(TerminatedAll(sessions, Elements(ids[..k])), ids[k])
  }

  /** The active sessions of a list, each where it is first listed. */
  function FirstActive(sessions: Sessions, ids: seq<SsoId>): seq<SsoId> {
    if ids == [] then [] else
      var before, id := ids[..|ids| - 1], ids[|ids| - 1];
      FirstActive(sessions, before) + (if IsActiveRow(sessions, id) && id !in before then [id] else [])
  }

  class Registry {
    var sessions: Sessions
    /** The sessions whose logout has been fanned out, in order. */
    var propagated: seq<SsoId>

    constructor ()
      ensures sessions == map[] && propagated == []
    {
      sessions := map[];
      propagated := [];
    }

    /** Only an active session changes, and only then does its logout fan out. */
    method Terminate(id: SsoId) returns (outcome: Outcome)
      modifies this
      ensures outcome == OutcomeFor(old(sessions), id)
      ensures sessions == TerminatedAll(old(sessions), {id})
      ensures propagated == old(propagated) + (if outcome == DidTerminate then [id] else [])
    {
      if id !in sessions {
        assert TerminatedAll(sessions, {id}) == sessions;
        return NotFound;
      }
      if sessions[id].status == Terminated {
        assert TerminatedAll(sessions, {id}) == sessions;
        return AlreadyTerminated;
      }
      sessions := sessions[id := sessions[id].(status := Terminated)];
      propagated := propagated + [id];
      return DidTerminate;
    }

    /** Terminate a list of sessions one after the other. A repeated or unknown id does no harm. */
    method TerminateBulk(ids: seq<SsoId>) returns (results: seq<Outcome>, terminatedCount: nat)
      modifies this
      ensures |results| == |ids|
      ensures forall k :: 0 <= k < |ids| ==> results[k] == OutcomeAt(old(sessions), ids, k)
      ensures sessions == TerminatedAll(old(sessions), Elements(ids))
      ensures propagated == old(propagated) + FirstActive(old(sessions), ids)
      ensures terminatedCount == |FirstActive(old(sessions), ids)|
    {
      results, terminatedCount := [], 0;
      ghost var start := sessions;
      assert TerminatedAll(start, Elements([])) == start;
      assert ids[..0] == [];
      for i := 0 to |ids|
        invariant |results| == i
        invariant forall k :: 0 <= k < i ==> results[k] == OutcomeAt(start, ids, k)
        invariant sessions == TerminatedAll(start, Elements(ids[..i]))
        invariant propagated == old(propagated) + FirstActive(start, ids[..i])
        invariant terminatedCount == |FirstActive(start, ids[..i])|
      {
        var outcome := Terminate(ids[i]);
        OneMore(start, ids, i);
        if outcome == DidTerminate {
          terminatedCount := terminatedCount + 1;
        }
        results := results + [outcome];
      }
      assert ids[..|ids|] == ids;
    }

    /** Terminate what a query found active; none of it can be found twice. */
    method TerminateFound(found: seq<SsoId>) returns (count: nat)
      requires NoRepeats(found) && forall k :: 0 <= k < |found| ==> IsActiveRow(sessions, found[k])
      modifies this
      ensures count == |found| && sessions == TerminatedAll(old(sessions), Elements(found))
      ensures propagated == old(propagated) + found
    {
      count := 0;
      ghost var start := sessions;
      assert TerminatedAll(start, Elements([])) == start;
      for i := 0 to |found|
        invariant count == i && sessions == TerminatedAll(start, Elements(found[..i]))
        invariant propagated == old(propagated) + found[..i]
      {
        var outcome := Terminate(found[i]);
        OneMore(start, found, i);
        assert found[..i + 1] == found[..i] + [found[i]];
        if outcome == DidTerminate {
          count := count + 1;
        }
      }
      assert found[..|found|] == found;
    }

    /** The emergency switch: afterwards no session is active. */
    method TerminateAllActive(found: seq<SsoId>) returns (count: nat)
      requires NoRepeats(found) && Elements(found) == ActiveAmong(sessions, sessions.Keys)
      modifies this
      ensures forall id :: id in sessions ==> sessions[id].status == Terminated
      ensures sessions.Keys == old(sessions).Keys && count == |found|
    {
      assert forall k :: 0 <= k < |found| ==> found[k] in Elements(found);
      count := TerminateFound(found);
    }

    /** Deactivating or deleting a user: afterwards none of the user's sessions is active, and no other changed. */
    method TerminateAllForUser(user: UserId, found: seq<SsoId>) returns (count: nat)
      requires NoRepeats(found)
      requires Elements(found) == set id | id in sessions && IsActiveRow(sessions, id) && sessions[id].user == Some(user)
      modifies this
      ensures forall id :: id in sessions && sessions[id].user == Some(user) ==> sessions[id].status == Terminated
      ensures forall id :: id in old(sessions) && old(sessions)[id].user != Some(user) ==> id in sessions && sessions[id] == old(sessions)[id]
      ensures count == |found|
    {
      assert forall k :: 0 <= k < |found| ==> found[k] in Elements(found);
      count := TerminateFound(found);
    }
  }

  lemma OneMore(sessions: Sessions, ids: seq<SsoId>, i: nat)
    requires i < |ids|
    ensures TerminatedAll(TerminatedAll(sessions, Elements(ids[..i])), {ids[i]}) == TerminatedAll(sessions, Elements(ids[..i + 1]))
    ensures OutcomeAt(sessions, ids, i) == DidTerminate <==> IsActiveRow(sessions, ids[i]) && ids[i] !in ids[..i]
    ensures FirstActive(sessions, ids[..i + 1]) ==
            FirstActive(sessions, ids[..i]) + (if OutcomeAt(sessions, ids, i) == DidTerminate then [ids[i]] else [])
  {
    assert ids[..i + 1] == ids[..i] + [ids[i]];
    assert Elements(ids[..i + 1]) == Elements(ids[..i]) + {ids[i]};
  }

  lemma {:induction false} FirstActiveElements(sessions: Sessions, ids: seq<SsoId>)
    ensures forall id :: id in FirstActive(sessions, ids) <==> id in ids && IsActiveRow(sessions, id)
  {
    if ids != [] {
      FirstActiveElements(sessions, ids[..|ids| - 1]);
      assert ids == ids[..|ids| - 1] + [ids[|ids| - 1]];
    }
  }

  lemma {:induction false} FirstActiveNoRepeats(sessions: Sessions, ids: seq<SsoId>)
    ensures NoRepeats(FirstActive(sessions, ids))
  {
    if ids != [] {
      FirstActiveNoRepeats(sessions, ids[..|ids| - 1]);
      FirstActiveElements(sessions, ids[..|ids| - 1]);
    }
  }

  lemma {:induction false} NoRepeatsCounts(ids: seq<SsoId>)
    requires NoRepeats(ids)
    ensures |Elements(ids)| == |ids|
  {
    if ids != [] {
      var before, id := ids[..|ids| - 1], ids[|ids| - 1];
      NoRepeatsCounts(before);
      assert ids == before + [id];
      assert Elements(ids) == Elements(before) + {id};
    }
  }

  /** However often an id is listed, each active session listed is fanned out exactly once and no other is. */
  lemma FannedOutOnce(sessions: Sessions, ids: seq<SsoId>)
    ensures NoRepeats(FirstActive(sessions, ids))
    ensures Elements(FirstActive(sessions, ids)) == ActiveAmong(sessions, Elements(ids))
    ensures |FirstActive(sessions, ids)| == |ActiveAmong(sessions, Elements(ids))|
  {
    FirstActiveElements(sessions, ids);
    FirstActiveNoRepeats(sessions, ids);
    NoRepeatsCounts(FirstActive(sessions, ids));
    assert Elements(FirstActive(sessions, ids)) == ActiveAmong(sessions, Elements(ids));
  }
}
