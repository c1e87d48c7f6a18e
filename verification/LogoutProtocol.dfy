/**
 * Any number of delivery workers, enqueues, operator resends and prune sweeps, interleaved
 * at every database statement. A worker first copies a due row, may lose or win the
 * conditional claim, and then writes the outcome of its delivery.
 */
module LogoutProtocol {
  import opened Wrappers
  import opened Arithmetic
  import opened LogoutQueue

  type WorkerId = nat

  /** A worker's copy of the row, as it was read; holding says that its claim succeeded. */
  datatype Worker = Worker(id: RowId, attempts: nat, requestId: Option<RequestId>, holding: bool)

  /** Row ids are issued in increasing order, so an id below nextId has been used. */
  datatype State = State(db: Db, workers: map<WorkerId, Worker>, nextId: RowId)

  datatype Event =
    | EnqueueStep(ssoSession: nat, sp: nat, hasEndpoint: bool, newRequestId: RequestId, at: int)
    | PickStep(w: WorkerId, id: RowId, at: int)
    | ClaimStep(w: WorkerId, at: int)
    | ResolveStep(w: WorkerId, partial: bool, spare: RequestId, at: int)
    | FailStep(w: WorkerId, endpointKnown: bool, spare: RequestId, random: real, at: int)
    | ResendStep(ssoSession: nat, sp: nat, at: int)
    | PruneStep(at: int)

  const EMPTY := State(map[], map[], 0)

  ghost predicate Enabled(s: State, e: Event) {
    match e
    case EnqueueStep(_, _, _, _, _) => true
    case PickStep(w, id, at) => w !in s.workers && id in s.db && Due(s.db[id], at)
    case ClaimStep(w, _) => w in s.workers && !s.workers[w].holding
    case ResolveStep(w, _, _, _) => w in s.workers && s.workers[w].holding && s.workers[w].id in s.db
    case FailStep(w, _, _, random, _) =>
      w in s.workers && s.workers[w].holding && s.workers[w].id in s.db && UnitInterval(random)
    case ResendStep(_, _, _) => true
    case PruneStep(_) => true
  }

  ghost function Next(cfg: Config, s: State, e: Event): State
    requires Enabled(s, e)
  {
    match e
    case EnqueueStep(ssoSession, sp, hasEndpoint, newRequestId, at) =>
      State(Enqueue(s.db, s.nextId, ssoSession, sp, hasEndpoint, newRequestId, at), s.workers, s.nextId + 1)
    case PickStep(w, id, _) =>
      s.(workers := s.workers[w := Worker(id, s.db[id].attempts, s.db[id].requestId, false)])
    case ClaimStep(w, at) =>
      var worker := s.workers[w];
      if Claimable(s.db, worker.id)
      then s.(db := Claim(s.db, worker.id, at), workers := s.workers[w := worker.(holding := true)])
      else s.(workers := s.workers - {w})
    case ResolveStep(w, partial, spare, at) =>
      var worker := s.workers[w];
      s.(db := Resolve(s.db, worker.id, worker.attempts + 1, SentId(worker.requestId, spare), partial, at),
         workers := s.workers - {w})
    case FailStep(w, endpointKnown, spare, random, at) =>
      var worker := s.workers[w];
      var written := if endpointKnown then Some(SentId(worker.requestId, spare)) else None;
      s.(db := Fail(cfg, s.db, worker.id, worker.attempts + 1, written, random, at),
         workers := s.workers - {w})
    case ResendStep(ssoSession, sp, at) => s.(db := LogoutQueue.Resend(s.db, ssoSession, sp, at))
    case PruneStep(at) => s.(db := Prune(cfg, s.db, at))
  }

  /** What one worker's copy guarantees while other workers run. */
  ghost predicate WorkerOk(cfg: Config, s: State, worker: Worker) {
    && worker.id < s.nextId
    && worker.attempts <= cfg.maxRetries
    && worker.requestId.Some?
    && (worker.id in s.db ==> s.db[worker.id].requestId == worker.requestId)
    && (worker.holding ==> worker.id in s.db && s.db[worker.id].status == InFlight)
  }

  ghost predicate Holds(s: State, w: WorkerId, id: RowId) {
    w in s.workers && s.workers[w].holding && s.workers[w].id == id
  }

  ghost predicate Inv(cfg: Config, s: State) {
    && DbOk(cfg, s.db)
    && (forall id :: id in s.db ==> id < s.nextId)
    && (forall w :: w in s.workers ==> WorkerOk(cfg, s, s.workers[w]))
    && (forall id :: id in s.db && s.db[id].status == InFlight ==> exists w :: Holds(s, w, id))
    && (forall v, w, id :: Holds(s, v, id) && Holds(s, w, id) ==> v == w)
  }

  /** A run: consecutive states joined by enabled events. */
  ghost predicate IsRun(cfg: Config, states: seq<State>, events: seq<Event>) {
    && |states| == |events| + 1
    && forall k :: 0 <= k < |events| ==> Enabled(states[k], events[k]) && states[k + 1] == Next(cfg, states[k], events[k])
  }

  lemma RunExtends(cfg: Config, states: seq<State>, events: seq<Event>, e: Event)
    requires IsRun(cfg, states, events) && Enabled(states[|events|], e)
    ensures IsRun(cfg, states + [Next(cfg, states[|events|], e)], events + [e])
  {
    var n := |events|;
    var longer, all := states + [Next(cfg, states[n], e)], events + [e];
    forall k | 0 <= k < |all| ensures Enabled(longer[k], all[k]) && longer[k + 1] == Next(cfg, longer[k], all[k]) {
      assert longer[k] == states[k] && (k < n ==> all[k] == events[k] && longer[k + 1] == states[k + 1]);
    }
  }

  lemma EnqueueKeepsInv(cfg: Config, s: State, e: Event)
    requires e.EnqueueStep? && Inv(cfg, s)
    ensures Inv(cfg, Next(cfg, s, e))
  {
    var t := Next(cfg, s, e);
    forall v, id | Holds(t, v, id) ensures Holds(s, v, id) {}
    forall id | id in t.db && t.db[id].status == InFlight ensures exists w :: Holds(t, w, id) {
      var w :| Holds(s, w, id);
      assert Holds(t, w, id);
    }
  }

  lemma PickKeepsInv(cfg: Config, s: State, e: Event)
    requires e.PickStep? && Enabled(s, e) && Inv(cfg, s)
    ensures Inv(cfg, Next(cfg, s, e))
  {
    var t := Next(cfg, s, e);
    forall v, id | Holds(t, v, id) ensures Holds(s, v, id) {}
    forall id | id in t.db && t.db[id].status == InFlight ensures exists w :: Holds(t, w, id) {
      var w :| Holds(s, w, id);
      assert Holds(t, w, id);
    }
  }

  lemma ClaimKeepsInv(cfg: Config, s: State, e: Event)
    requires e.ClaimStep? && Enabled(s, e) && Inv(cfg, s)
    ensures Inv(cfg, Next(cfg, s, e))
  {
    var t := Next(cfg, s, e);
    var mine := s.workers[e.w].id;
    forall v, id | Holds(t, v, id) ensures Holds(s, v, id) || (v == e.w && id == mine) {}
    forall id | id in t.db && t.db[id].status == InFlight ensures exists w :: Holds(t, w, id) {
      if Claimable(s.db, mine) && id == mine {
        assert Holds(t, e.w, id);
      } else {
        var w :| Holds(s, w, id);
        assert Holds(t, w, id);
      }
    }
  }

  lemma FinishKeepsInv(cfg: Config, s: State, e: Event)
    requires (e.ResolveStep? || e.FailStep?) && Enabled(s, e) && Inv(cfg, s)
    ensures Inv(cfg, Next(cfg, s, e))
  {
    var t := Next(cfg, s, e);
    var mine := s.workers[e.w].id;
    assert Holds(s, e.w, mine);
    if e.FailStep? && s.workers[e.w].attempts + 1 <= cfg.maxRetries {
      JitterBounds(Backoff(cfg, s.workers[e.w].attempts + 1), e.random);
    }
    forall v, id | Holds(t, v, id) ensures Holds(s, v, id) && v != e.w && id != mine {
      assert Holds(s, v, id);
    }
    forall id | id in t.db && t.db[id].status == InFlight ensures exists w :: Holds(t, w, id) {
      var w :| Holds(s, w, id);
      assert Holds(t, w, id);
    }
    forall w | w in t.workers ensures WorkerOk(cfg, t, t.workers[w]) {
      assert WorkerOk(cfg, s, s.workers[w]);
      if t.workers[w].holding {
        assert Holds(t, w, t.workers[w].id);
      }
    }
  }

  lemma MaintenanceKeepsInv(cfg: Config, s: State, e: Event)
    requires (e.ResendStep? || e.PruneStep?) && Enabled(s, e) && Inv(cfg, s)
    ensures Inv(cfg, Next(cfg, s, e))
  {
    var t := Next(cfg, s, e);
    forall v, id | Holds(t, v, id) ensures Holds(s, v, id) {}
    forall id | id in t.db && t.db[id].status == InFlight ensures exists w :: Holds(t, w, id) {
      var w :| Holds(s, w, id);
      assert Holds(t, w, id);
    }
  }

  lemma StepKeepsInv(cfg: Config, s: State, e: Event)
    requires Enabled(s, e) && Inv(cfg, s)
    ensures Inv(cfg, Next(cfg, s, e))
  {
    match e
    case EnqueueStep(_, _, _, _, _) => EnqueueKeepsInv(cfg, s, e);
    case PickStep(_, _, _) => PickKeepsInv(cfg, s, e);
    case ClaimStep(_, _) => ClaimKeepsInv(cfg, s, e);
    case ResolveStep(_, _, _, _) => FinishKeepsInv(cfg, s, e);
    case FailStep(_, _, _, _, _) => FinishKeepsInv(cfg, s, e);
    case ResendStep(_, _, _) => MaintenanceKeepsInv(cfg, s, e);
    case PruneStep(_) => MaintenanceKeepsInv(cfg, s, e);
  }

  /** Every state of every run from the empty queue satisfies the invariant. */
  lemma {:induction false} Reachable(cfg: Config, states: seq<State>, events: seq<Event>, k: nat)
    requires IsRun(cfg, states, events) && states[0] == EMPTY && k <= |events|
    ensures Inv(cfg, states[k])
  {
    if k > 0 {
      Reachable(cfg, states, events, k - 1);
      StepKeepsInv(cfg, states[k - 1], events[k - 1]);
    }
  }

  /** Each row being delivered is held by exactly one worker, and only such rows are held. */
  lemma ExactlyOneHolder(cfg: Config, states: seq<State>, events: seq<Event>, k: nat, id: RowId)
    requires IsRun(cfg, states, events) && states[0] == EMPTY && k <= |events|
    ensures id in states[k].db && states[k].db[id].status == InFlight <==>
            exists w :: Holds(states[k], w, id) && forall v :: Holds(states[k], v, id) ==> v == w
  {
    Reachable(cfg, states, events, k);
    var s := states[k];
    if w :| Holds(s, w, id) {
      assert WorkerOk(cfg, s, s.workers[w]);
    }
  }

  /** In every reachable state the status of a row fixes what its attempt count and retry time can be. */
  lemma StatusFixesAttempts(cfg: Config, states: seq<State>, events: seq<Event>, k: nat, id: RowId)
    requires IsRun(cfg, states, events) && states[0] == EMPTY && k <= |events|
    requires id in states[k].db
    ensures var row := states[k].db[id];
            && (row.status == Pending ==> row.attempts == 0)
            && (row.status == Failed ==> 1 <= row.attempts <= cfg.maxRetries)
            && (row.status == GivenUp ==> row.attempts == cfg.maxRetries + 1)
            && (row.status == Failed ==>
                  && row.nextRetryAt.Some?
                  && var cap := Min(cfg.retryMaxMs, cfg.retryBaseMs * Pow2(row.attempts - 1));
                     cap <= 2 * (row.nextRetryAt.value - row.updatedAt) <= 2 * cap)
  {
    Reachable(cfg, states, events, k);
    assert RowOk(cfg, states[k].db[id]);
  }

  /** What one event may do to one existing row. */
  lemma StepOnRow(cfg: Config, s: State, e: Event, id: RowId)
    requires Enabled(s, e) && Inv(cfg, s)
    requires id < s.nextId
    ensures var t := Next(cfg, s, e);
            && id < t.nextId
            && (id in t.db ==> id in s.db && t.db[id].requestId == s.db[id].requestId)
            && (id in s.db && s.db[id].status in {Succeeded, SkippedNoEndpoint} ==>
                  if id in t.db then t.db[id] == s.db[id] else e.PruneStep? && e.at - s.db[id].updatedAt > cfg.retentionMs)
  {
    match e {
      case ResolveStep(w, _, _, _) =>
        assert WorkerOk(cfg, s, s.workers[w]);
        assert Holds(s, w, s.workers[w].id);
      case FailStep(w, _, _, _, _) =>
        assert WorkerOk(cfg, s, s.workers[w]);
        assert Holds(s, w, s.workers[w].id);
      case _ =>
    }
  }

  /** A row's request id never changes while the row exists, and a row once gone never returns. */
  lemma {:induction false} RequestIdIsStable(cfg: Config, states: seq<State>, events: seq<Event>, i: nat, j: nat, id: RowId)
    requires IsRun(cfg, states, events) && states[0] == EMPTY && i <= j <= |events|
    requires id < states[i].nextId
    ensures id < states[j].nextId
    ensures id in states[j].db ==> id in states[i].db && states[j].db[id].requestId == states[i].db[id].requestId
    decreases j
  {
    if i < j {
      RequestIdIsStable(cfg, states, events, i, j - 1, id);
      Reachable(cfg, states, events, j - 1);
      StepOnRow(cfg, states[j - 1], events[j - 1], id);
    }
  }

  /** Succeeded and skipped rows are final: they stay as they are until a prune past the retention time. */
  lemma {:induction false} ResolvedRowsAreFinal(cfg: Config, states: seq<State>, events: seq<Event>, i: nat, j: nat, id: RowId)
    requires IsRun(cfg, states, events) && states[0] == EMPTY && i <= j <= |events|
    requires id in states[i].db && states[i].db[id].status in {Succeeded, SkippedNoEndpoint}
    ensures id < states[j].nextId
    ensures id in states[j].db ==> states[j].db[id] == states[i].db[id]
    ensures id !in states[j].db ==>
              exists m :: i <= m < j && events[m].PruneStep? && events[m].at - states[i].db[id].updatedAt > cfg.retentionMs
    decreases j
  {
    Reachable(cfg, states, events, i);
    if i < j {
      ResolvedRowsAreFinal(cfg, states, events, i, j - 1, id);
      Reachable(cfg, states, events, j - 1);
      StepOnRow(cfg, states[j - 1], events[j - 1], id);
    }
  }
}
