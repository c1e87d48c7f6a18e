/**
 * Concurrent terminations of SSO sessions. A call reads the session, then updates it, then fans its logout
 * out; openings, purges and other calls may run in between.
 */
module SsoTerminationProtocol {
  import opened Wrappers
  import opened SsoSessionService

  type WorkerId = nat

  /** A call that found its session active, and one that has also updated it. */
  datatype Call = Checked(id: SsoId) | Updated(id: SsoId)

  datatype State = State(status: map<SsoId, Status>, calls: map<WorkerId, Call>, fanned: seq<SsoId>, nextId: SsoId)

  datatype Event =
    | Open
    | Check(w: WorkerId, id: SsoId)
    | Update(w: WorkerId)
    | FanOut(w: WorkerId)
    | Purge(purged: SsoId)

  predicate Enabled(s: State, e: Event) {
    match e
    case Open => true
    case Check(w, _) => w !in s.calls
    case Update(w) => w in s.calls && s.calls[w].Checked?
    case FanOut(w) => w in s.calls && s.calls[w].Updated?
    case Purge(_) => true
  }

  function Next(s: State, e: Event): State
    requires Enabled(s, e)
  {
    match e
    case Open => s.(status := s.status[s.nextId := Active], nextId := s.nextId + 1)
    case Check(w, id) => if id in s.status && s.status[id] == Active then s.(calls := s.calls[w := Checked(id)]) else s
    case Update(w) =>
      var id := s.calls[w].id;
      // a row that is gone makes the update throw, which ends the call
      if id in s.status then s.(status := s.status[id := Terminated], calls := s.calls[w := Updated(id)])
      else s.(calls := s.calls - {w})
    case FanOut(w) => s.(fanned := s.fanned + [s.calls[w].id], calls := s.calls - {w})
    case Purge(id) => s.(status := s.status - {id})
  }

  const INITIAL: State := State(map[], map[], [], 0)

  predicate IsRun(states: seq<State>, events: seq<Event>) {
    |states| == |events| + 1 && states[0] == INITIAL &&
    forall k :: 0 <= k < |events| ==> Enabled(states[k], events[k]) && states[k + 1] == Next(states[k], events[k])
  }

  predicate Outstanding(s: State, w: WorkerId, id: SsoId) {
    w in s.calls && s.calls[w] == Updated(id)
  }

  ghost predicate Inv(s: State) {
    (forall id :: id in s.status ==> id < s.nextId) &&
    (forall w :: w in s.calls ==> s.calls[w].id < s.nextId) &&
    (forall id :: id in s.fanned ==> id < s.nextId && (id in s.status ==> s.status[id] == Terminated)) &&
    (forall w, id :: Outstanding(s, w, id) ==> id in s.status ==> s.status[id] == Terminated) &&
    (forall id :: id in s.status && s.status[id] == Terminated ==> id in s.fanned || exists w :: Outstanding(s, w, id))
  }

  lemma StepKeepsInv(s: State, e: Event)
    requires Inv(s) && Enabled(s, e)
    ensures Inv(Next(s, e))
  {
    var t := Next(s, e);
    if e.FanOut? {
      assert Outstanding(s, e.w, s.calls[e.w].id);
    }
    forall w, id | Outstanding(t, w, id) ensures id in t.status ==> t.status[id] == Terminated {
      assert Outstanding(s, w, id) || e == Update(w);
    }
    forall id | id in t.status && t.status[id] == Terminated && id !in t.fanned ensures exists w :: Outstanding(t, w, id) {
      if e.Update? && s.calls[e.w].id == id {
        assert Outstanding(t, e.w, id);
      } else {
        var w :| Outstanding(s, w, id);
        assert Outstanding(t, w, id);
      }
    }
  }

  lemma {:induction false} Reachable(states: seq<State>, events: seq<Event>, k: nat)
    requires IsRun(states, events) && k < |states|
    ensures Inv(states[k])
  {
    if k > 0 {
      Reachable(states, events, k - 1);
      StepKeepsInv(states[k - 1], events[k - 1]);
    }
  }

  /** No logout is lost and none is premature: once all calls have ended, exactly the terminated sessions among those stored were fanned out. */
  lemma NoLogoutIsLost(states: seq<State>, events: seq<Event>, k: nat, id: SsoId)
    requires IsRun(states, events) && k < |states| && states[k].calls == map[] && id in states[k].status
    ensures id in states[k].fanned <==> states[k].status[id] == Terminated
  {
    Reachable(states, events, k);
    assert forall w :: !Outstanding(states[k], w, id);
  }

  /** A terminated session never becomes active again, and a purged one never returns. */
  lemma {:induction false} TerminationIsFinal(states: seq<State>, events: seq<Event>, i: nat, j: nat, id: SsoId)
    requires IsRun(states, events) && i <= j < |states| && id < states[i].nextId
    requires id in states[i].status ==> states[i].status[id] == Terminated
    ensures id < states[j].nextId
    ensures id in states[j].status ==> id in states[i].status && states[j].status[id] == Terminated
    decreases j
  {
    if i < j {
      TerminationIsFinal(states, events, i, j - 1, id);
      Reachable(states, events, j - 1);
    }
  }

  function Times(ids: seq<SsoId>, id: SsoId): nat {
    if ids == [] then 0 else Times(ids[..|ids| - 1], id) + (if ids[|ids| - 1] == id then 1 else 0)
  }

  /** Two calls whose checks both come before the first update both fan out, so the receiving queue has to tell the two apart. */
  lemma OverlappingCallsFanOutTwice()
    ensures exists states: seq<State>, events: seq<Event> ::
              IsRun(states, events) &&
              events == [Open, Check(1, 0), Check(2, 0), Update(1), Update(2), FanOut(1), FanOut(2)] &&
              states[7].fanned == [0, 0]
  {
    var s1 := Next(INITIAL, Open);
    var s2 := Next(s1, Check(1, 0));
    var s3 := Next(s2, Check(2, 0));
    var s4 := Next(s3, Update(1));
    var s5 := Next(s4, Update(2));
    var s6 := Next(s5, FanOut(1));
    var s7 := Next(s6, FanOut(2));
    var states := [INITIAL, s1, s2, s3, s4, s5, s6, s7];
    var events := [Open, Check(1, 0), Check(2, 0), Update(1), Update(2), FanOut(1), FanOut(2)];
    assert IsRun(states, events) && states[7].fanned == [0, 0];
  }

  /** The calls that passed their check and have not updated yet. */
  predicate IsChecked(s: State, w: WorkerId, id: SsoId) {
    w in s.calls && s.calls[w] == Checked(id)
  }

  predicate Overlaps(s: State, e: Event, id: SsoId) {
    e.Update? && IsChecked(s, e.w, id) && exists w :: w in s.calls && w != e.w && IsChecked(s, w, id)
  }

  ghost predicate AtMostOnce(s: State, id: SsoId) {
    Times(s.fanned, id) <= 1 &&
    (forall v, w :: Outstanding(s, v, id) && Outstanding(s, w, id) ==> v == w) &&
    (forall w :: Outstanding(s, w, id) ==> Times(s.fanned, id) == 0) &&
    (id in s.status && s.status[id] == Active ==> Times(s.fanned, id) == 0) &&
    (id in s.status && s.status[id] == Terminated ==> forall w :: !IsChecked(s, w, id))
  }

  lemma {:induction false} NotYetFanned(ids: seq<SsoId>, id: SsoId)
    ensures Times(ids, id) == 0 <==> id !in ids
  {
    if ids != [] {
      NotYetFanned(ids[..|ids| - 1], id);
      assert ids == ids[..|ids| - 1] + [ids[|ids| - 1]];
    }
  }

  /** Unless two checked calls overlap at an update, a session is fanned out at most once. */
  lemma {:induction false} FannedOutOnceWithoutOverlap(states: seq<State>, events: seq<Event>, k: nat, id: SsoId)
    requires IsRun(states, events) && k < |states|
    requires forall m :: 0 <= m < k ==> !Overlaps(states[m], events[m], id)
    ensures AtMostOnce(states[k], id)
  {
    if k > 0 {
      FannedOutOnceWithoutOverlap(states, events, k - 1, id);
      Reachable(states, events, k - 1);
      StepAtMostOnce(states[k - 1], events[k - 1], id);
    }
  }

  lemma StepAtMostOnce(s: State, e: Event, id: SsoId)
    requires Inv(s) && Enabled(s, e) && AtMostOnce(s, id) && !Overlaps(s, e, id)
    ensures AtMostOnce(Next(s, e), id)
  {
    if e.FanOut? {
      FanOutAtMostOnce(s, e.w, id);
    } else if e.Update? {
      UpdateAtMostOnce(s, e.w, id);
    } else {
      QuietAtMostOnce(s, e, id);
    }
  }

  lemma FanOutAtMostOnce(s: State, w: WorkerId, id: SsoId)
    requires Inv(s) && Enabled(s, FanOut(w)) && AtMostOnce(s, id)
    ensures AtMostOnce(Next(s, FanOut(w)), id)
  {
    var t := Next(s, FanOut(w));
    assert t.fanned[..|s.fanned|] == s.fanned;
    assert Outstanding(s, w, s.calls[w].id);
    forall v ensures Outstanding(t, v, id) ==> Outstanding(s, v, id) && v != w {
    }
    forall v ensures IsChecked(t, v, id) ==> IsChecked(s, v, id) {
    }
  }

  lemma UpdateAtMostOnce(s: State, w: WorkerId, id: SsoId)
    requires Inv(s) && Enabled(s, Update(w)) && AtMostOnce(s, id) && !Overlaps(s, Update(w), id)
    ensures AtMostOnce(Next(s, Update(w)), id)
  {
    var t := Next(s, Update(w));
    var mine := s.calls[w].id == id;
    assert mine ==> IsChecked(s, w, id);
    forall v ensures Outstanding(t, v, id) ==> Outstanding(s, v, id) || (v == w && mine && id in s.status && s.status[id] == Active) {
    }
    forall v ensures IsChecked(t, v, id) ==> IsChecked(s, v, id) && v != w {
    }
  }

  /** Openings, checks and purges fan nothing out. */
  lemma QuietAtMostOnce(s: State, e: Event, id: SsoId)
    requires Inv(s) && Enabled(s, e) && AtMostOnce(s, id) && (e.Open? || e.Check? || e.Purge?)
    ensures AtMostOnce(Next(s, e), id)
  {
    var t := Next(s, e);
    NotYetFanned(s.fanned, id);
    forall v ensures Outstanding(t, v, id) ==> Outstanding(s, v, id) {
    }
    forall v ensures IsChecked(t, v, id) ==> IsChecked(s, v, id) || (e == Check(v, id) && id in s.status && s.status[id] == Active) {
    }
  }

  // ---- an overlap always fans out twice ----

  function UnderWay(s: State, id: SsoId): set<WorkerId> {
    set w | w in s.calls && s.calls[w].id == id
  }

  /** At least two calls for the session will fan out or have done so, as long as it is stored. */
  ghost predicate TwiceDoneOrUnderWay(s: State, id: SsoId) {
    id in s.status ==> Times(s.fanned, id) + |UnderWay(s, id)| >= 2
  }

  lemma OverlapGivesTwo(s: State, e: Event, id: SsoId)
    requires Enabled(s, e) && Overlaps(s, e, id)
    ensures TwiceDoneOrUnderWay(Next(s, e), id)
  {
    var t := Next(s, e);
    var other :| other in s.calls && other != e.w && IsChecked(s, other, id);
    if id in t.status {
      assert {e.w, other} <= UnderWay(t, id);
      MoreMembers({e.w, other}, UnderWay(t, id));
    }
  }

  lemma MoreMembers(a: set<WorkerId>, b: set<WorkerId>)
    requires a <= b
    ensures |a| <= |b|
  {
    assert b == a + (b - a);
  }

  lemma TwoStay(s: State, e: Event, id: SsoId)
    requires Inv(s) && Enabled(s, e) && TwiceDoneOrUnderWay(s, id) && id < s.nextId
    ensures TwiceDoneOrUnderWay(Next(s, e), id)
  {
    var t := Next(s, e);
    if id in t.status {
      assert id in s.status;
      if e.FanOut? {
        assert t.fanned[..|s.fanned|] == s.fanned;
        if s.calls[e.w].id == id {
          assert UnderWay(s, id) == UnderWay(t, id) + {e.w};
        } else {
          assert UnderWay(s, id) == UnderWay(t, id);
        }
      } else {
        MoreMembers(UnderWay(s, id), UnderWay(t, id));
      }
    }
  }

  lemma {:induction false} OverlapFansOutTwice(states: seq<State>, events: seq<Event>, m: nat, k: nat, id: SsoId)
    requires IsRun(states, events) && m < k < |states| && Overlaps(states[m], events[m], id)
    ensures id < states[k].nextId && TwiceDoneOrUnderWay(states[k], id)
    decreases k
  {
    if k == m + 1 {
      Reachable(states, events, m);
      OverlapGivesTwo(states[m], events[m], id);
    } else {
      OverlapFansOutTwice(states, events, m, k - 1, id);
      Reachable(states, events, k - 1);
      TwoStay(states[k - 1], events[k - 1], id);
    }
  }

  /**
   * Once all calls have ended, a stored session was fanned out at most once if and only if no
   * call updated it while another one had already passed its check.
   */
  lemma FannedOutOnceIff(states: seq<State>, events: seq<Event>, k: nat, id: SsoId)
    requires IsRun(states, events) && k < |states| && states[k].calls == map[] && id in states[k].status
    ensures Times(states[k].fanned, id) <= 1 <==> forall m :: 0 <= m < k ==> !Overlaps(states[m], events[m], id)
  {
    if forall m :: 0 <= m < k ==> !Overlaps(states[m], events[m], id) {
      FannedOutOnceWithoutOverlap(states, events, k, id);
    } else {
      var m :| 0 <= m < k && Overlaps(states[m], events[m], id);
      OverlapFansOutTwice(states, events, m, k, id);
      assert UnderWay(states[k], id) == {};
    }
  }

  // ---- over for good ----

  /** Terminated for good, or purged. */
  predicate IsOver(s: State, id: SsoId) {
    id < s.nextId && (id in s.status ==> s.status[id] == Terminated)
  }

  lemma OverStays(s: State, e: Event, id: SsoId)
    requires Inv(s) && Enabled(s, e) && IsOver(s, id)
    ensures IsOver(Next(s, e), id)
  {
  }
}
