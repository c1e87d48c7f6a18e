/**
 * Deliveries that interleave at every statement, with prune sweeps at any moment: how often a
 * row can be claimed and sent, and when the queue is empty. The runs have no enqueue and no
 * resend, and passes do not overlap: a row is picked only while no worker carries it.
 */
module LogoutDrain {
  import opened Wrappers
  import opened Arithmetic
  import opened LogoutQueue
  import opened LogoutProtocol
  import opened LogoutDelivery

  predicate Carries(s: State, w: WorkerId, id: RowId) {
    w in s.workers && s.workers[w].id == id
  }

  ghost predicate IsDeliveryStep(s: State, e: Event) {
    match e
    case EnqueueStep(_, _, _, _, _) => false
    case ResendStep(_, _, _) => false
    case PickStep(_, id, _) => forall v :: !Carries(s, v, id)
    case _ => true
  }

  ghost predicate IsDeliveryRun(cfg: Config, states: seq<State>, events: seq<Event>) {
    IsRun(cfg, states, events) && forall k :: 0 <= k < |events| ==> IsDeliveryStep(states[k], events[k])
  }

  /** Copies are up to date: each has its row's attempt count, its row is open until claimed, and no two are of one row. */
  ghost predicate Fresh(s: State) {
    && (forall w :: w in s.workers ==> s.workers[w].id in s.db && s.workers[w].attempts == s.db[s.workers[w].id].attempts)
    && (forall w :: w in s.workers && !s.workers[w].holding ==> Open(s.db[s.workers[w].id]))
    && (forall v, w, id :: Carries(s, v, id) && Carries(s, w, id) ==> v == w)
  }

  ghost predicate Good(cfg: Config, s: State, n: RowId) {
    Inv(cfg, s) && Fresh(s) && forall id :: id in s.db ==> id < n
  }

  lemma StepKeepsFresh(cfg: Config, s: State, e: Event)
    requires Inv(cfg, s) && Fresh(s) && Enabled(s, e) && IsDeliveryStep(s, e)
    ensures Fresh(Next(cfg, s, e))
  {
    match e
    case PickStep(_, _, _) => PickKeepsFresh(cfg, s, e);
    case PruneStep(_) => PruneKeepsFresh(cfg, s, e);
    case _ => WorkerStepKeepsFresh(cfg, s, e);
  }

  lemma PickKeepsFresh(cfg: Config, s: State, e: Event)
    requires Fresh(s) && e.PickStep? && Enabled(s, e) && IsDeliveryStep(s, e)
    ensures Fresh(Next(cfg, s, e))
  {
    var t := Next(cfg, s, e);
    forall v, id | Carries(t, v, id) ensures Carries(s, v, id) || (v == e.w && id == e.id) {
    }
  }

  lemma PruneKeepsFresh(cfg: Config, s: State, e: Event)
    requires Inv(cfg, s) && Fresh(s) && e.PruneStep?
    ensures Fresh(Next(cfg, s, e))
  {
    var t := Next(cfg, s, e);
    forall v, id | Carries(t, v, id) ensures Carries(s, v, id) {
    }
    forall w | w in s.workers ensures s.workers[w].id in t.db {
      assert WorkerOk(cfg, s, s.workers[w]);
    }
  }

  /** A claim or an outcome changes only the row its worker carries, which no other worker does. */
  lemma WorkerStepKeepsFresh(cfg: Config, s: State, e: Event)
    requires Inv(cfg, s) && Fresh(s) && (e.ClaimStep? || e.ResolveStep? || e.FailStep?) && Enabled(s, e)
    ensures Fresh(Next(cfg, s, e))
  {
    var t := Next(cfg, s, e);
    assert Carries(s, e.w, s.workers[e.w].id);
    forall v, id | Carries(t, v, id) ensures Carries(s, v, id) && (v != e.w ==> id != s.workers[e.w].id) {
      assert Carries(s, v, id);
    }
    forall w | w in t.workers && w != e.w ensures t.workers[w] == s.workers[w] && t.db[t.workers[w].id] == s.db[t.workers[w].id] {
      assert Carries(t, w, t.workers[w].id);
    }
  }

  lemma {:induction false} Reachable(cfg: Config, states: seq<State>, events: seq<Event>, n: RowId, k: nat)
    requires IsDeliveryRun(cfg, states, events) && Good(cfg, states[0], n) && k < |states|
    ensures Good(cfg, states[k], n)
  {
    if k > 0 {
      Reachable(cfg, states, events, n, k - 1);
      StepKeepsFresh(cfg, states[k - 1], events[k - 1]);
      StepKeepsInv(cfg, states[k - 1], events[k - 1]);
    }
  }

  // ------------------------------------------------------------------ what is left to claim

  /** Claims a row may still see. */
  function Remaining(cfg: Config, row: Row): nat {
    if row.attempts > cfg.maxRetries then 0
    else if Open(row) then cfg.maxRetries + 1 - row.attempts
    else if row.status == InFlight then cfg.maxRetries - row.attempts
    else 0
  }

  function RemainingAt(cfg: Config, db: Db, id: RowId): nat {
    if id in db then Remaining(cfg, db[id]) else 0
  }

  /** Claims the rows with ids below n may still see. */
  function Total(cfg: Config, db: Db, n: RowId): nat {
    if n == 0 then 0 else Total(cfg, db, n - 1) + RemainingAt(cfg, db, n - 1)
  }

  /** The event is the claim of this row. */
  predicate Claims(s: State, e: Event, id: RowId) {
    e.ClaimStep? && Carries(s, e.w, id)
  }

  /** Deliveries of a row that have begun. */
  function Started(row: Row): nat {
    row.attempts + (if row.status == InFlight then 1 else 0)
  }

  /** No step gives a row more claims, and a claim uses one up; the attempt count records it. */
  lemma StepOnRemaining(cfg: Config, s: State, e: Event, id: RowId)
    requires Inv(cfg, s) && Fresh(s) && Enabled(s, e) && IsDeliveryStep(s, e)
    ensures var t := Next(cfg, s, e);
            var claimed := if Claims(s, e, id) then 1 else 0;
            && RemainingAt(cfg, t.db, id) + claimed <= RemainingAt(cfg, s.db, id)
            && (id in t.db ==> id in s.db && Started(t.db[id]) == Started(s.db[id]) + claimed)
  {
    if e.ResolveStep? || e.FailStep? {
      assert WorkerOk(cfg, s, s.workers[e.w]);
    }
    if e.ClaimStep? {
      assert Carries(s, e.w, s.workers[e.w].id);
      assert RowOk(cfg, s.db[s.workers[e.w].id]);
    }
  }

  lemma {:induction false} TotalDrops(cfg: Config, before: Db, after: Db, n: RowId, id: RowId, drop: nat)
    requires forall other :: RemainingAt(cfg, after, other) <= RemainingAt(cfg, before, other)
    requires drop > 0 ==> id < n && RemainingAt(cfg, after, id) + drop <= RemainingAt(cfg, before, id)
    ensures Total(cfg, after, n) + drop <= Total(cfg, before, n)
  {
    if n > 0 {
      TotalDrops(cfg, before, after, n - 1, id, if id == n - 1 then 0 else drop);
    }
  }

  function ClaimCount(events: seq<Event>, k: nat): (n: nat)
    requires k <= |events|
    ensures n <= k
  {
    if k == 0 then 0 else ClaimCount(events, k - 1) + (if events[k - 1].ClaimStep? then 1 else 0)
  }

  function Sends(states: seq<State>, events: seq<Event>, k: nat, id: RowId): nat
    requires k <= |events| < |states|
  {
    if k == 0 then 0 else Sends(states, events, k - 1, id) + (if Claims(states[k - 1], events[k - 1], id) then 1 else 0)
  }

  lemma StepOnTotal(cfg: Config, s: State, e: Event, n: RowId)
    requires Good(cfg, s, n) && Enabled(s, e) && IsDeliveryStep(s, e)
    ensures Total(cfg, Next(cfg, s, e).db, n) + (if e.ClaimStep? then 1 else 0) <= Total(cfg, s.db, n)
  {
    var t := Next(cfg, s, e);
    forall other ensures RemainingAt(cfg, t.db, other) <= RemainingAt(cfg, s.db, other) {
      StepOnRemaining(cfg, s, e, other);
    }
    var id := if e.ClaimStep? then s.workers[e.w].id else 0;
    StepOnRemaining(cfg, s, e, id);
    TotalDrops(cfg, s.db, t.db, n, id, if e.ClaimStep? then 1 else 0);
  }

  lemma ClaimsAtStep(cfg: Config, states: seq<State>, events: seq<Event>, n: RowId, k: nat)
    requires IsDeliveryRun(cfg, states, events) && Good(cfg, states[0], n) && k < |events|
    ensures ClaimCount(events, k + 1) - ClaimCount(events, k) + Total(cfg, states[k + 1].db, n) <= Total(cfg, states[k].db, n)
  {
    Reachable(cfg, states, events, n, k);
    StepOnTotal(cfg, states[k], events[k], n);
  }

  /** However deliveries and sweeps interleave: all claims together are bounded by what was left at the start. */
  lemma {:induction false} ClaimsAreBounded(cfg: Config, states: seq<State>, events: seq<Event>, n: RowId, i: nat, k: nat)
    requires IsDeliveryRun(cfg, states, events) && Good(cfg, states[0], n) && i <= k <= |events|
    ensures ClaimCount(events, k) - ClaimCount(events, i) + Total(cfg, states[k].db, n) <= Total(cfg, states[i].db, n)
    decreases k
  {
    if i < k {
      ClaimsAreBounded(cfg, states, events, n, i, k - 1);
      ClaimsAtStep(cfg, states, events, n, k - 1);
    }
  }

  /** However they interleave, no row is sent more often than its first try and its retries allow, and every send is on its count. */
  lemma {:induction false} SendsAreBounded(cfg: Config, states: seq<State>, events: seq<Event>, n: RowId, k: nat, id: RowId)
    requires IsDeliveryRun(cfg, states, events) && Good(cfg, states[0], n) && k <= |events|
    ensures Sends(states, events, k, id) + RemainingAt(cfg, states[k].db, id) <= RemainingAt(cfg, states[0].db, id) <= cfg.maxRetries + 1
    ensures id in states[k].db ==>
              id in states[0].db && Started(states[k].db[id]) == Started(states[0].db[id]) + Sends(states, events, k, id)
  {
    if k > 0 {
      SendsAreBounded(cfg, states, events, n, k - 1, id);
      Reachable(cfg, states, events, n, k - 1);
      StepOnRemaining(cfg, states[k - 1], events[k - 1], id);
    }
  }

  // ------------------------------------------------------------------ passes that drain the queue

  /**
   * A pass from a to b: it picks a due batch while nothing is under way, and then its workers
   * claim and finish in any order, with any sweeps, until none is left.
   */
  ghost predicate IsPass(cfg: Config, states: seq<State>, events: seq<Event>, a: nat, b: nat, now: int, due: seq<RowId>)
    requires |states| == |events| + 1
  {
    && a + |due| <= b <= |events|
    && states[a].workers == map[] && states[b].workers == map[]
    && IsDueBatch(states[a].db, now, Limit(cfg, states[a].db), due)
    && (forall i :: 0 <= i < |due| ==> events[a + i].PickStep? && events[a + i].id == due[i] && events[a + i].at == now)
    && (forall m :: a + |due| <= m < b ==> !events[m].PickStep?)
  }

  /** A worker that has not claimed stays until it does. */
  lemma {:induction false} UnclaimedStays(cfg: Config, states: seq<State>, events: seq<Event>, m: nat, b: nat, w: WorkerId)
    requires IsDeliveryRun(cfg, states, events) && m <= b <= |events|
    requires w in states[m].workers && !states[m].workers[w].holding
    requires forall k :: m <= k < b ==> !events[k].ClaimStep?
    ensures w in states[b].workers && !states[b].workers[w].holding
    decreases b
  {
    if m < b {
      UnclaimedStays(cfg, states, events, m, b - 1, w);
    }
  }

  lemma {:induction false} NoClaimsNoCount(events: seq<Event>, a: nat, b: nat)
    requires a <= b <= |events|
    ensures ClaimCount(events, a) <= ClaimCount(events, b)
    ensures ClaimCount(events, a) == ClaimCount(events, b) ==> forall k :: a <= k < b ==> !events[k].ClaimStep?
    decreases b
  {
    if a < b {
      NoClaimsNoCount(events, a, b - 1);
    }
  }

  /** A pass with something to deliver claims something. */
  lemma PassClaims(cfg: Config, states: seq<State>, events: seq<Event>, a: nat, b: nat, now: int, due: seq<RowId>)
    requires IsDeliveryRun(cfg, states, events) && IsPass(cfg, states, events, a, b, now, due) && due != []
    ensures ClaimCount(events, b) >= ClaimCount(events, a) + 1
  {
    NoClaimsNoCount(events, a, b);
    if ClaimCount(events, b) == ClaimCount(events, a) {
      var first := due[0];
      assert events[a].PickStep? && events[a].id == first;
      UnclaimedStays(cfg, states, events, a + 1, b, events[a].w);
      assert false;
    }
  }

  /** Rows that were due stay due, and failures in between are due a full backoff later. */
  lemma {:induction false} DueAfter(cfg: Config, states: seq<State>, events: seq<Event>, n: RowId, a: nat, b: nat, now: int, later: int)
    requires IsDeliveryRun(cfg, states, events) && Good(cfg, states[0], n) && a <= b <= |events|
    requires AllDueBy(states[a].db, now) && now <= later
    requires forall m :: a <= m < b && events[m].FailStep? ==> events[m].at + cfg.retryMaxMs <= later
    ensures AllDueBy(states[b].db, later)
    decreases b
  {
    if a < b {
      DueAfter(cfg, states, events, n, a, b - 1, now, later);
      Reachable(cfg, states, events, n, b - 1);
      DueStep(cfg, states[b - 1], events[b - 1], later);
    }
  }

  lemma DueStep(cfg: Config, s: State, e: Event, later: int)
    requires Inv(cfg, s) && Enabled(s, e) && IsDeliveryStep(s, e) && AllDueBy(s.db, later)
    requires e.FailStep? ==> e.at + cfg.retryMaxMs <= later
    ensures AllDueBy(Next(cfg, s, e).db, later)
  {
    if e.FailStep? && s.workers[e.w].attempts + 1 <= cfg.maxRetries {
      JitterBounds(Backoff(cfg, s.workers[e.w].attempts + 1), e.random);
    }
  }

  lemma {:induction false} SomeRemaining(cfg: Config, db: Db, n: RowId) returns (id: RowId)
    requires Total(cfg, db, n) > 0
    ensures id < n && RemainingAt(cfg, db, id) > 0
  {
    if RemainingAt(cfg, db, n - 1) > 0 {
      id := n - 1;
    } else {
      id := SomeRemaining(cfg, db, n - 1);
    }
  }

  lemma {:induction false} NoneRemaining(cfg: Config, db: Db, n: RowId, id: RowId)
    requires Total(cfg, db, n) == 0 && id < n
    ensures RemainingAt(cfg, db, id) == 0
  {
    if id < n - 1 {
      NoneRemaining(cfg, db, n - 1, id);
    }
  }

  lemma QuietWithoutWorkers(cfg: Config, s: State)
    requires Inv(cfg, s) && s.workers == map[]
    ensures Quiet(s.db)
  {
    assert forall w, id :: !Holds(s, w, id);
  }

  /** While something is left, a pass that finds every open row due has something to deliver. */
  lemma PassFindsWork(cfg: Config, s: State, now: int, due: seq<RowId>, n: RowId)
    requires Good(cfg, s, n) && s.workers == map[] && AllDueBy(s.db, now) && Total(cfg, s.db, n) > 0
    requires IsDueBatch(s.db, now, Limit(cfg, s.db), due)
    ensures due != []
  {
    QuietWithoutWorkers(cfg, s);
    var id := SomeRemaining(cfg, s.db, n);
    assert InFlightIds(s.db) == {};
    assert Due(s.db[id], now);
  }

  /** Where each pass starts and, at the end, where the last one ends. */
  ghost predicate ArePasses(cfg: Config, states: seq<State>, events: seq<Event>, cuts: seq<nat>, nows: seq<int>, dues: seq<seq<RowId>>)
    requires |states| == |events| + 1
  {
    && |cuts| == |nows| + 1 && |dues| == |nows|
    && forall p :: 0 <= p < |nows| ==> IsPass(cfg, states, events, cuts[p], cuts[p + 1], nows[p], dues[p])
  }

  /** Each pass comes when the retries that the one before it left are due. */
  ghost predicate AreSpaced(cfg: Config, events: seq<Event>, cuts: seq<nat>, nows: seq<int>) {
    |cuts| == |nows| + 1 &&
    forall p :: 0 < p < |nows| ==>
      nows[p - 1] <= nows[p] &&
      forall m :: cuts[p - 1] <= m < cuts[p] && m < |events| && events[m].FailStep? ==> events[m].at + cfg.retryMaxMs <= nows[p]
  }

  lemma {:induction false} TotalFallsEachPass(cfg: Config, states: seq<State>, events: seq<Event>, n: RowId,
                                              cuts: seq<nat>, nows: seq<int>, dues: seq<seq<RowId>>, p: nat)
    requires IsDeliveryRun(cfg, states, events) && Good(cfg, states[0], n) && p <= |nows|
    requires ArePasses(cfg, states, events, cuts, nows, dues) && AreSpaced(cfg, events, cuts, nows)
    requires cuts[0] <= |events| && (nows != [] ==> AllDueBy(states[cuts[0]].db, nows[0]))
    ensures cuts[p] <= |events| && (p < |nows| ==> AllDueBy(states[cuts[p]].db, nows[p]))
    ensures Total(cfg, states[cuts[p]].db, n) == 0 || Total(cfg, states[cuts[p]].db, n) + p <= Total(cfg, states[cuts[0]].db, n)
  {
    if p > 0 {
      TotalFallsEachPass(cfg, states, events, n, cuts, nows, dues, p - 1);
      var a, b, now := cuts[p - 1], cuts[p], nows[p - 1];
      assert IsPass(cfg, states, events, a, b, now, dues[p - 1]);
      Reachable(cfg, states, events, n, a);
      ClaimsAreBounded(cfg, states, events, n, a, b);
      NoClaimsNoCount(events, a, b);
      if p < |nows| {
        DueAfter(cfg, states, events, n, a, b, now, nows[p]);
      }
      if Total(cfg, states[a].db, n) > 0 {
        PassFindsWork(cfg, states[a], now, dues[p - 1], n);
        PassClaims(cfg, states, events, a, b, now, dues[p - 1]);
      }
    }
  }

  /** After as many spaced passes as there are claims left, no row is pending, failed or in flight. */
  lemma QueueDrains(cfg: Config, states: seq<State>, events: seq<Event>, n: RowId, cuts: seq<nat>, nows: seq<int>, dues: seq<seq<RowId>>)
    requires IsDeliveryRun(cfg, states, events) && Good(cfg, states[0], n)
    requires ArePasses(cfg, states, events, cuts, nows, dues) && AreSpaced(cfg, events, cuts, nows)
    requires cuts[0] <= |events| && states[cuts[0]].workers == map[] && (nows != [] ==> AllDueBy(states[cuts[0]].db, nows[0]))
    requires |nows| >= Total(cfg, states[cuts[0]].db, n)
    ensures cuts[|nows|] <= |events|
    ensures var db := states[cuts[|nows|]].db; forall id :: id in db ==> !Open(db[id]) && db[id].status != InFlight
  {
    var p := |nows|;
    TotalFallsEachPass(cfg, states, events, n, cuts, nows, dues, p);
    var s := states[cuts[p]];
    Reachable(cfg, states, events, n, cuts[p]);
    assert p > 0 ==> IsPass(cfg, states, events, cuts[p - 1], cuts[p], nows[p - 1], dues[p - 1]);
    QuietWithoutWorkers(cfg, s);
    forall id | id in s.db ensures !Open(s.db[id]) {
      NoneRemaining(cfg, s.db, n, id);
      assert RowOk(cfg, s.db[id]);
    }
  }
}
