/**
 * Bulk terminations: a call that goes through a list of sessions, one termination after the other. Any
 * number of them, of single terminations, openings and purges interleave at every database statement. An
 * update that finds its row gone throws, and nothing in the loop catches it: the call ends there.
 */
module SsoBulkTermination {
  import opened SsoSessionService
  import opened SsoTerminationProtocol

  /** todo holds, for each bulk call under way, the ids it has still to look up. */
  datatype BulkState = BulkState(base: State, todo: map<WorkerId, seq<SsoId>>)

  /** Begin starts a bulk call over a list; Return ends one that got to the end of its list. */
  datatype BulkEvent =
    | Begin(w: WorkerId, ids: seq<SsoId>)
    | Return(w: WorkerId)
    | Step(e: Event)

  /** The update of a bulk call whose row has been purged since its lookup. */
  predicate Throws(s: BulkState, e: Event, w: WorkerId) {
    e == Update(w) && w in s.base.calls && s.base.calls[w].id !in s.base.status
  }

  /** A bulk call looks up the next id of its list; a worker without a list terminates a single session. */
  predicate BulkEnabled(s: BulkState, e: BulkEvent) {
    match e
    case Begin(w, _) => w !in s.todo && w !in s.base.calls
    case Return(w) => w in s.todo && s.todo[w] == [] && w !in s.base.calls
    case Step(b) => Enabled(s.base, b) && (b.Check? && b.w in s.todo ==> s.todo[b.w] != [] && b.id == s.todo[b.w][0])
  }

  function BulkNext(s: BulkState, e: BulkEvent): BulkState
    requires BulkEnabled(s, e)
  {
    match e
    case Begin(w, ids) => s.(todo := s.todo[w := ids])
    case Return(w) => s.(todo := s.todo - {w})
    case Step(b) =>
      BulkState(Next(s.base, b),
                if b.Check? && b.w in s.todo then s.todo[b.w := s.todo[b.w][1..]]
                else if b.Update? && Throws(s, b, b.w) then s.todo - {b.w}
                else s.todo)
  }

  predicate IsBulkRun(states: seq<BulkState>, events: seq<BulkEvent>) {
    |states| == |events| + 1 && states[0] == BulkState(INITIAL, map[]) &&
    forall k :: 0 <= k < |events| ==> BulkEnabled(states[k], events[k]) && states[k + 1] == BulkNext(states[k], events[k])
  }

  /** Without Begin and Return, a bulk run is a run of terminations: everything proved of those holds here. */
  lemma {:induction false} BulkRunIsARun(states: seq<BulkState>, events: seq<BulkEvent>, k: nat)
    returns (bases: seq<State>, steps: seq<Event>)
    requires IsBulkRun(states, events) && k < |states|
    ensures IsRun(bases, steps) && bases[|steps|] == states[k].base
    ensures forall e :: e in steps ==> Step(e) in events[..k]
  {
    if k == 0 {
      bases, steps := [INITIAL], [];
    } else {
      bases, steps := BulkRunIsARun(states, events, k - 1);
      assert events[..k] == events[..k - 1] + [events[k - 1]];
      if events[k - 1].Step? {
        bases, steps := bases + [states[k].base], steps + [events[k - 1].e];
      }
    }
  }

  lemma BulkReachable(states: seq<BulkState>, events: seq<BulkEvent>, k: nat)
    requires IsBulkRun(states, events) && k < |states|
    ensures Inv(states[k].base)
  {
    var bases, steps := BulkRunIsARun(states, events, k);
    Reachable(bases, steps, |steps|);
  }

  /** Once all calls have ended, a stored session was fanned out if and only if it is terminated, bulk calls or not. */
  lemma NoBulkLogoutIsLost(states: seq<BulkState>, events: seq<BulkEvent>, k: nat, id: SsoId)
    requires IsBulkRun(states, events) && k < |states| && states[k].base.calls == map[] && id in states[k].base.status
    ensures id in states[k].base.fanned <==> states[k].base.status[id] == Terminated
  {
    var bases, steps := BulkRunIsARun(states, events, k);
    NoLogoutIsLost(bases, steps, |steps|, id);
  }

  // ---- one bulk call ----

  /** The call that w begins at i over ids runs until event k - 1 ends it. All ids were issued before it began. */
  ghost predicate IsCall(states: seq<BulkState>, events: seq<BulkEvent>, i: nat, k: nat, w: WorkerId, ids: seq<SsoId>) {
    && IsBulkRun(states, events) && i + 1 < k < |states|
    && events[i] == Begin(w, ids) && (forall id :: id in ids ==> id < states[i].base.nextId)
    && (forall m :: i < m < k ==> w in states[m].todo) && w !in states[k].todo
  }

  /** The ids of the list that the call has looked up so far. */
  function LookedUp(s: BulkState, w: WorkerId, ids: seq<SsoId>): seq<SsoId> {
    if w in s.todo && |s.todo[w]| <= |ids| then ids[..|ids| - |s.todo[w]|] else []
  }

  /** Between its lookup and its update the call's session is purged. */
  predicate PurgesChecked(s: BulkState, e: BulkEvent, w: WorkerId) {
    e.Step? && e.e.Purge? && IsChecked(s.base, w, e.e.purged)
  }

  /** Some session is purged after the call looked it up and found it active, and before the call updated it. */
  ghost predicate LosesOne(states: seq<BulkState>, events: seq<BulkEvent>, i: nat, k: nat, w: WorkerId)
    requires k < |states| == |events| + 1
  {
    exists m :: i < m < k && PurgesChecked(states[m], events[m], w)
  }

  /** The same, of a session that is not the last of the list. */
  ghost predicate LosesOneEarly(states: seq<BulkState>, events: seq<BulkEvent>, i: nat, k: nat, w: WorkerId)
    requires k < |states| == |events| + 1
  {
    exists m :: i < m < k && PurgesChecked(states[m], events[m], w) && w in states[m].todo && states[m].todo[w] != []
  }

  predicate IsLost(s: BulkState, w: WorkerId) {
    w in s.base.calls && s.base.calls[w].Checked? && s.base.calls[w].id !in s.base.status
  }

  /** Where the call stands: it is at the id it looked up last, and everything it looked up before is over. */
  ghost predicate Progress(s: BulkState, w: WorkerId, ids: seq<SsoId>) {
    && w in s.todo && |s.todo[w]| <= |ids| && s.todo[w] == ids[|ids| - |s.todo[w]|..]
    && (forall id :: id in ids ==> id < s.base.nextId)
    && (w in s.base.calls ==> |s.todo[w]| < |ids| && s.base.calls[w].id == ids[|ids| - |s.todo[w]| - 1])
    && (forall id :: id in LookedUp(s, w, ids) ==> IsOver(s.base, id) || IsChecked(s.base, w, id))
  }

  lemma StepKeepsProgress(s: BulkState, e: BulkEvent, w: WorkerId, ids: seq<SsoId>)
    requires Inv(s.base) && Progress(s, w, ids) && BulkEnabled(s, e) && w in BulkNext(s, e).todo
    ensures Progress(BulkNext(s, e), w, ids)
    ensures LookedUp(s, w, ids) <= LookedUp(BulkNext(s, e), w, ids)
  {
    if e.Step? && e.e.Check? && e.e.w == w {
      LookupKeepsProgress(s, e.e, w, ids);
    } else {
      var t := BulkNext(s, e);
      assert t.todo[w] == s.todo[w] && LookedUp(t, w, ids) == LookedUp(s, w, ids);
      forall id | id in LookedUp(t, w, ids) ensures IsOver(t.base, id) || IsChecked(t.base, w, id) {
        if e.Step? {
          LookedUpStep(s, e.e, w, id);
        }
      }
    }
  }

  lemma LookupKeepsProgress(s: BulkState, e: Event, w: WorkerId, ids: seq<SsoId>)
    requires Inv(s.base) && Progress(s, w, ids) && BulkEnabled(s, Step(e)) && e.Check? && e.w == w
    ensures Progress(BulkNext(s, Step(e)), w, ids)
    ensures LookedUp(s, w, ids) <= LookedUp(BulkNext(s, Step(e)), w, ids)
  {
    var t := BulkNext(s, Step(e));
    var n := |ids| - |s.todo[w]|;
    assert LookedUp(t, w, ids) == LookedUp(s, w, ids) + [ids[n]];
    assert e.id == s.todo[w][0] == ids[n] && ids[n] in ids;
    forall id | id in LookedUp(s, w, ids) ensures IsOver(t.base, id) {
      assert IsOver(s.base, id);
    }
  }

  /** A call loses its session by a purge, and then does nothing until its update throws. */
  lemma LostStep(s: BulkState, e: BulkEvent, w: WorkerId)
    requires Inv(s.base) && BulkEnabled(s, e) && w in s.todo && w in BulkNext(s, e).todo
    ensures IsLost(BulkNext(s, e), w) <==> IsLost(s, w) || PurgesChecked(s, e, w)
    ensures IsLost(BulkNext(s, e), w) ==> BulkNext(s, e).todo[w] == s.todo[w]
  {
  }

  lemma LookedUpStep(s: BulkState, e: Event, w: WorkerId, id: SsoId)
    requires Inv(s.base) && Enabled(s.base, e) && (IsOver(s.base, id) || IsChecked(s.base, w, id))
    ensures IsOver(Next(s.base, e), id) || IsChecked(Next(s.base, e), w, id)
  {
    if IsOver(s.base, id) {
      OverStays(s.base, e, id);
    }
  }

  lemma {:induction false} CallProgresses(
    states: seq<BulkState>, events: seq<BulkEvent>, i: nat, k: nat, w: WorkerId, ids: seq<SsoId>, m: nat)
    requires IsCall(states, events, i, k, w, ids) && i < m < k
    ensures Progress(states[m], w, ids)
    decreases m
  {
    if m > i + 1 {
      CallProgresses(states, events, i, k, w, ids, m - 1);
      InCall(states, events, i, k, w, ids, m - 1);
      StepKeepsProgress(states[m - 1], events[m - 1], w, ids);
    } else {
      BulkReachable(states, events, i);
      assert BulkEnabled(states[i], events[i]) && states[m] == BulkNext(states[i], events[i]);
    }
  }

  /** One step inside a call. */
  lemma InCall(states: seq<BulkState>, events: seq<BulkEvent>, i: nat, k: nat, w: WorkerId, ids: seq<SsoId>, m: nat)
    requires IsCall(states, events, i, k, w, ids) && i < m < k
    ensures Inv(states[m].base) && BulkEnabled(states[m], events[m]) && states[m + 1] == BulkNext(states[m], events[m])
    ensures m + 1 < k ==> w in states[m + 1].todo
  {
    BulkReachable(states, events, m);
  }

  lemma LostInCall(states: seq<BulkState>, events: seq<BulkEvent>, i: nat, k: nat, w: WorkerId, ids: seq<SsoId>, m: nat)
    requires IsCall(states, events, i, k, w, ids) && i < m && m + 1 < k
    ensures IsLost(states[m + 1], w) <==> IsLost(states[m], w) || PurgesChecked(states[m], events[m], w)
    ensures w in states[m].todo && w in states[m + 1].todo
    ensures IsLost(states[m + 1], w) ==> states[m + 1].todo[w] == states[m].todo[w]
  {
    InCall(states, events, i, k, w, ids, m);
    LostStep(states[m], events[m], w);
  }

  lemma {:induction false} LostSince(states: seq<BulkState>, events: seq<BulkEvent>, i: nat, k: nat, w: WorkerId, ids: seq<SsoId>, m: nat)
    returns (j: nat)
    requires IsCall(states, events, i, k, w, ids) && i < m < k && IsLost(states[m], w)
    ensures i < j < m && PurgesChecked(states[j], events[j], w) && w in states[j].todo && states[j].todo[w] == states[m].todo[w]
    decreases m
  {
    j := m - 1;
    if m == i + 1 {
      assert false;
    } else {
      LostInCall(states, events, i, k, w, ids, m - 1);
      if !PurgesChecked(states[m - 1], events[m - 1], w) {
        j := LostSince(states, events, i, k, w, ids, m - 1);
      }
    }
  }

  lemma {:induction false} LostFrom(
    states: seq<BulkState>, events: seq<BulkEvent>, i: nat, k: nat, w: WorkerId, ids: seq<SsoId>, j: nat, m: nat)
    requires IsCall(states, events, i, k, w, ids) && i < j < m < k && PurgesChecked(states[j], events[j], w)
    ensures IsLost(states[m], w) && states[j].todo[w] == states[m].todo[w]
    decreases m
  {
    if j < m - 1 {
      LostFrom(states, events, i, k, w, ids, j, m - 1);
    }
    LostInCall(states, events, i, k, w, ids, m - 1);
  }

  /**
   * A bulk call returns if and only if no session is purged between its lookup and its update; it gets
   * through its list if and only if that befalls none but the last. Either way all it looked up is over.
   */
  lemma BulkCallIff(states: seq<BulkState>, events: seq<BulkEvent>, i: nat, k: nat, w: WorkerId, ids: seq<SsoId>)
    requires IsCall(states, events, i, k, w, ids)
    ensures events[k - 1] == Return(w) <==> !LosesOne(states, events, i, k, w)
    ensures LookedUp(states[k - 1], w, ids) == ids <==> !LosesOneEarly(states, events, i, k, w)
    ensures forall id :: id in LookedUp(states[k - 1], w, ids) ==> IsOver(states[k].base, id)
  {
    var s := states[k - 1];
    InCall(states, events, i, k, w, ids, k - 1);
    CallProgresses(states, events, i, k, w, ids, k - 1);
    assert LookedUp(s, w, ids) == ids <==> s.todo[w] == [];
    assert !PurgesChecked(s, events[k - 1], w);
    if IsLost(s, w) {
      var j := LostSince(states, events, i, k, w, ids, k - 1);
    }
    forall m | i < m < k - 1 && PurgesChecked(states[m], events[m], w)
      ensures IsLost(s, w) && states[m].todo[w] == s.todo[w]
    {
      LostFrom(states, events, i, k, w, ids, m, k - 1);
    }
  }

  // ---- what a bulk call leaves ----

  /** Someone other than w terminates the session, or it is purged. */
  predicate OthersEnd(s: BulkState, e: BulkEvent, w: WorkerId, id: SsoId) {
    e == Step(Purge(id)) || (e.Step? && e.e.Update? && e.e.w != w && IsChecked(s.base, e.e.w, id))
  }

  predicate IsActive(s: BulkState, id: SsoId) {
    id in s.base.status && s.base.status[id] == Active
  }

  lemma OthersEndStep(s: BulkState, e: BulkEvent, w: WorkerId, id: SsoId)
    requires Inv(s.base) && BulkEnabled(s, e) && OthersEnd(s, e, w, id) && id < s.base.nextId
    ensures IsOver(BulkNext(s, e).base, id)
  {
  }

  lemma BulkOverStays(s: BulkState, e: BulkEvent, id: SsoId)
    requires Inv(s.base) && BulkEnabled(s, e) && IsOver(s.base, id)
    ensures IsOver(BulkNext(s, e).base, id)
  {
    if e.Step? {
      OverStays(s.base, e.e, id);
    }
  }

  lemma {:induction false} EndedStaysOver(
    states: seq<BulkState>, events: seq<BulkEvent>, i: nat, k: nat, w: WorkerId, ids: seq<SsoId>, id: SsoId, j: nat, m: nat)
    requires IsCall(states, events, i, k, w, ids) && i < j < m < k && OthersEnd(states[j], events[j], w, id) && id in ids
    ensures IsOver(states[m].base, id)
    decreases m
  {
    InCall(states, events, i, k, w, ids, m - 1);
    if j < m - 1 {
      EndedStaysOver(states, events, i, k, w, ids, id, j, m - 1);
      BulkOverStays(states[m - 1], events[m - 1], id);
    } else {
      CallProgresses(states, events, i, k, w, ids, j);
      OthersEndStep(states[j], events[j], w, id);
    }
  }

  /** An active session stays so until the call reaches it or someone else ends it. */
  lemma {:induction false} StaysActive(
    states: seq<BulkState>, events: seq<BulkEvent>, i: nat, k: nat, w: WorkerId, ids: seq<SsoId>, id: SsoId, m: nat)
    requires IsCall(states, events, i, k, w, ids) && i < m < k && IsActive(states[i], id)
    requires id !in LookedUp(states[m], w, ids) && forall j :: i < j < m ==> !OthersEnd(states[j], events[j], w, id)
    ensures IsActive(states[m], id)
    decreases m
  {
    if m == i + 1 {
      assert BulkEnabled(states[i], events[i]) && states[m] == BulkNext(states[i], events[i]);
    } else {
      NotReachedInCall(states, events, i, k, w, ids, id, m - 1);
      StaysActive(states, events, i, k, w, ids, id, m - 1);
    }
  }

  lemma NotReachedInCall(
    states: seq<BulkState>, events: seq<BulkEvent>, i: nat, k: nat, w: WorkerId, ids: seq<SsoId>, id: SsoId, m: nat)
    requires IsCall(states, events, i, k, w, ids) && i < m && m + 1 < k
    requires id !in LookedUp(states[m + 1], w, ids) && !OthersEnd(states[m], events[m], w, id)
    ensures id !in LookedUp(states[m], w, ids) && (IsActive(states[m], id) ==> IsActive(states[m + 1], id))
  {
    InCall(states, events, i, k, w, ids, m);
    CallProgresses(states, events, i, k, w, ids, m);
    NotReachedStep(states[m], events[m], w, ids, id);
  }

  lemma NotReachedStep(s: BulkState, e: BulkEvent, w: WorkerId, ids: seq<SsoId>, id: SsoId)
    requires Inv(s.base) && Progress(s, w, ids) && BulkEnabled(s, e) && w in BulkNext(s, e).todo
    requires id !in LookedUp(BulkNext(s, e), w, ids) && !OthersEnd(s, e, w, id)
    ensures id !in LookedUp(s, w, ids) && (IsActive(s, id) ==> IsActive(BulkNext(s, e), id))
  {
    StepKeepsProgress(s, e, w, ids);
    var n := |ids| - |s.todo[w]|;
    assert n > 0 ==> ids[..n][n - 1] == ids[n - 1];
  }

  lemma EndingChangesNothing(states: seq<BulkState>, events: seq<BulkEvent>, i: nat, k: nat, w: WorkerId, ids: seq<SsoId>, id: SsoId)
    requires IsCall(states, events, i, k, w, ids)
    ensures !OthersEnd(states[k - 1], events[k - 1], w, id)
    ensures states[k].base.status == states[k - 1].base.status && states[k].base.nextId == states[k - 1].base.nextId
  {
    InCall(states, events, i, k, w, ids, k - 1);
  }

  /**
   * What a bulk call leaves when it ends, however it ends: a session of its list that was active when it
   * began is over if and only if the call looked it up, or someone else terminated or purged it meanwhile.
   */
  lemma OverIffReached(states: seq<BulkState>, events: seq<BulkEvent>, i: nat, k: nat, w: WorkerId, ids: seq<SsoId>, id: SsoId)
    requires IsCall(states, events, i, k, w, ids) && id in ids && IsActive(states[i], id)
    ensures IsOver(states[k].base, id) <==>
              id in LookedUp(states[k - 1], w, ids) || exists j :: i < j < k && OthersEnd(states[j], events[j], w, id)
  {
    BulkCallIff(states, events, i, k, w, ids);
    EndingChangesNothing(states, events, i, k, w, ids, id);
    if id !in LookedUp(states[k - 1], w, ids) {
      if j :| i < j < k && OthersEnd(states[j], events[j], w, id) {
        EndedStaysOver(states, events, i, k, w, ids, id, j, k - 1);
      } else {
        StaysActive(states, events, i, k, w, ids, id, k - 1);
      }
    }
  }

  /**
   * A query found two active sessions. The first is purged between its lookup and its update, the call
   * ends there, and the second is still active.
   */
  lemma BulkCanStopShort()
    ensures exists states: seq<BulkState>, events: seq<BulkEvent> ::
              IsBulkRun(states, events) &&
              events == [Step(Open), Step(Open), Begin(1, [0, 1]), Step(Check(1, 0)), Step(Purge(0)), Step(Update(1))] &&
              states[6] == BulkState(State(map[1 := Active], map[], [], 2), map[])
  {
    var s0 := BulkState(INITIAL, map[]);
    var s1 := BulkNext(s0, Step(Open));
    var s2 := BulkNext(s1, Step(Open));
    var s3 := BulkNext(s2, Begin(1, [0, 1]));
    var s4 := BulkNext(s3, Step(Check(1, 0)));
    var s5 := BulkNext(s4, Step(Purge(0)));
    assert s5.base.status == map[1 := Active];
    var s6 := BulkNext(s5, Step(Update(1)));
    var states := [s0, s1, s2, s3, s4, s5, s6];
    var events := [Step(Open), Step(Open), Begin(1, [0, 1]), Step(Check(1, 0)), Step(Purge(0)), Step(Update(1))];
    assert s6 == BulkState(State(map[1 := Active], map[], [], 2), map[]);
    assert IsBulkRun(states, events);
  }

  // ---- a bulk call with nothing else running ----

  /** Some stretch of a bulk run goes from one state to the other. */
  ghost predicate Leads(s: BulkState, t: BulkState) {
    exists states: seq<BulkState>, events: seq<BulkEvent> :: IsPath(states, events) && states[0] == s && states[|events|] == t
  }

  predicate IsPath(states: seq<BulkState>, events: seq<BulkEvent>) {
    |states| == |events| + 1 &&
    forall k :: 0 <= k < |events| ==> BulkEnabled(states[k], events[k]) && states[k + 1] == BulkNext(states[k], events[k])
  }

  lemma LeadsNext(s: BulkState, t: BulkState, e: BulkEvent)
    requires Leads(s, t) && BulkEnabled(t, e)
    ensures Leads(s, BulkNext(t, e))
  {
    var states: seq<BulkState>, events: seq<BulkEvent> :| IsPath(states, events) && states[0] == s && states[|events|] == t;
    var longer, all := states + [BulkNext(t, e)], events + [e];
    forall k | 0 <= k < |all| ensures BulkEnabled(longer[k], all[k]) && longer[k + 1] == BulkNext(longer[k], all[k]) {
      assert longer[k] == states[k] && (k < |events| ==> all[k] == events[k] && longer[k + 1] == states[k + 1]);
    }
    assert IsPath(longer, all);
  }

  function Statuses(sessions: Sessions): map<SsoId, Status> {
    map id | id in sessions :: sessions[id].status
  }

  /** Worker w after the first k sessions of its list, the registry having been in the given state when it began. */
  function Through(s: BulkState, sessions: Sessions, w: WorkerId, ids: seq<SsoId>, k: nat): BulkState
    requires k <= |ids|
  {
    BulkState(s.base.(status := Statuses(TerminatedAll(sessions, Elements(ids[..k]))), fanned := s.base.fanned + FirstActive(sessions, ids[..k])),
              s.todo[w := ids[k..]])
  }

  lemma UpdateAndFanOut(s: BulkState, t: BulkState, w: WorkerId, id: SsoId)
    requires Leads(s, t) && w in t.todo && w in t.base.calls && t.base.calls[w] == Checked(id) && id in t.base.status
    ensures Leads(s, t.(base := State(t.base.status[id := Terminated], t.base.calls - {w}, t.base.fanned + [id], t.base.nextId)))
  {
    LeadsNext(s, t, Step(Update(w)));
    var updated := BulkNext(t, Step(Update(w)));
    LeadsNext(s, updated, Step(FanOut(w)));
    assert BulkNext(updated, Step(FanOut(w))).base.calls == t.base.calls - {w};
  }

  lemma OneSessionMore(s: BulkState, sessions: Sessions, w: WorkerId, ids: seq<SsoId>, k: nat)
    requires k < |ids| && w !in s.base.calls && Leads(s, Through(s, sessions, w, ids, k))
    ensures Leads(s, Through(s, sessions, w, ids, k + 1))
  {
    var t, id := Through(s, sessions, w, ids, k), ids[k];
    var now := TerminatedAll(sessions, Elements(ids[..k]));
    OneMore(sessions, ids, k);
    assert ids[k..][1..] == ids[k + 1..];
    LeadsNext(s, t, Step(Check(w, id)));
    var checked := BulkNext(t, Step(Check(w, id)));
    if IsActiveRow(now, id) {
      UpdateAndFanOut(s, checked, w, id);
      StatusesAfter(now, id);
    } else {
      assert TerminatedAll(now, {id}) == now;
      assert checked == Through(s, sessions, w, ids, k + 1);
    }
  }

  lemma StatusesAfter(sessions: Sessions, id: SsoId)
    requires IsActiveRow(sessions, id)
    ensures Statuses(TerminatedAll(sessions, {id})) == Statuses(sessions)[id := Terminated]
  {
  }

  lemma {:induction false} GoesThrough(s: BulkState, sessions: Sessions, w: WorkerId, ids: seq<SsoId>, k: nat)
    requires k <= |ids| && w !in s.todo && w !in s.base.calls && s.base.status == Statuses(sessions)
    ensures Leads(s, Through(s, sessions, w, ids, k))
  {
    if k == 0 {
      assert IsPath([s], []);
      assert Leads(s, s);
      LeadsNext(s, s, Begin(w, ids));
      assert TerminatedAll(sessions, Elements(ids[..0])) == sessions && ids[0..] == ids;
      assert BulkNext(s, Begin(w, ids)) == Through(s, sessions, w, ids, 0);
    } else {
      GoesThrough(s, sessions, w, ids, k - 1);
      OneSessionMore(s, sessions, w, ids, k - 1);
    }
  }

  /**
   * With nothing else running, a bulk call looks up every session of its list, terminates and fans out the active ones, and
   * returns, in any state of the other calls: what the method of the registry states.
   */
  lemma AloneIsTerminateBulk(s: BulkState, sessions: Sessions, w: WorkerId, ids: seq<SsoId>)
    requires w !in s.todo && w !in s.base.calls && s.base.status == Statuses(sessions)
    ensures Leads(s, s.(base := s.base.(status := Statuses(TerminatedAll(sessions, Elements(ids))),
                                        fanned := s.base.fanned + FirstActive(sessions, ids))))
  {
    GoesThrough(s, sessions, w, ids, |ids|);
    assert ids[..|ids|] == ids && ids[|ids|..] == [];
    LeadsNext(s, Through(s, sessions, w, ids, |ids|), Return(w));
    assert s.todo[w := []] - {w} == s.todo;
  }
}
