/** The concurrent delivery of one batch: whatever the order of its statements, the outcome is that of delivering it row by row. */
module LogoutBatch {
  import opened Wrappers
  import opened Arithmetic
  import opened LogoutQueue
  import opened LogoutProtocol
  import opened LogoutDelivery

  /** Worker i carries the i-th row of the batch, as the query returned it. */
  function BatchWorkers(db: Db, due: seq<RowId>, from: nat): map<WorkerId, Worker>
    requires forall id :: id in due ==> id in db
  {
    map w: nat | from <= w < |due| :: Worker(due[w], db[due[w]].attempts, db[due[w]].requestId, false)
  }

  ghost predicate IsBatch(db: Db, due: seq<RowId>, deliveries: RowId -> Delivery) {
    Distinct(due) && (forall id :: id in due ==> id in db && Open(db[id])) && forall id :: UnitInterval(deliveries(id).random)
  }

  /** The statements of the batch, each worker with its own answers from outside, and any prune sweeps. */
  ghost predicate IsBatchStep(due: seq<RowId>, deliveries: RowId -> Delivery, e: Event) {
    match e
    case ClaimStep(w, at) => w < |due| && at == deliveries(due[w]).claimedAt
    case ResolveStep(w, _, _, _) => w < |due| && e == Finish(w, deliveries(due[w]))
    case FailStep(w, _, _, _, _) => w < |due| && e == Finish(w, deliveries(due[w]))
    case PruneStep(_) => true
    case _ => false
  }

  ghost predicate IsBatchRun(cfg: Config, db: Db, due: seq<RowId>, deliveries: RowId -> Delivery, states: seq<State>, events: seq<Event>)
    requires IsBatch(db, due, deliveries)
  {
    && IsRun(cfg, states, events)
    && states[0].db == db && states[0].workers == BatchWorkers(db, due, 0)
    && forall k :: 0 <= k < |events| ==> IsBatchStep(due, deliveries, events[k])
  }

  /** What one row ends as. */
  function Outcome(cfg: Config, db: Db, id: RowId, d: Delivery): Row
    requires id in db && Open(db[id])
  {
    Deliver(cfg, map[id := db[id]], id, db[id], d)[id]
  }

  /** The row of worker w: untouched before its claim, held while its delivery runs, and its outcome afterwards unless swept away. */
  ghost predicate RowFits(cfg: Config, db: Db, due: seq<RowId>, deliveries: RowId -> Delivery, s: State, w: nat)
    requires IsBatch(db, due, deliveries) && w < |due|
  {
    var id, d := due[w], deliveries(due[w]);
    if w in s.workers then
      && s.workers[w] == Worker(id, db[id].attempts, db[id].requestId, s.workers[w].holding)
      && id in s.db
      && s.db[id] == if s.workers[w].holding then db[id].(status := InFlight, updatedAt := d.claimedAt) else db[id]
    else id in s.db ==> s.db[id] == Outcome(cfg, db, id, d)
  }

  ghost predicate BatchInv(cfg: Config, db: Db, due: seq<RowId>, deliveries: RowId -> Delivery, s: State)
    requires IsBatch(db, due, deliveries)
  {
    && (forall w :: w in s.workers ==> w < |due|)
    && (forall w :: 0 <= w < |due| ==> RowFits(cfg, db, due, deliveries, s, w))
    && (forall id :: id in s.db ==> id in db)
    && (forall id :: id in s.db && id !in due ==> s.db[id] == db[id])
  }

  lemma BatchStepKeepsInv(cfg: Config, db: Db, due: seq<RowId>, deliveries: RowId -> Delivery, s: State, e: Event)
    requires IsBatch(db, due, deliveries) && BatchInv(cfg, db, due, deliveries, s)
    requires Enabled(s, e) && IsBatchStep(due, deliveries, e)
    ensures BatchInv(cfg, db, due, deliveries, Next(cfg, s, e))
    ensures !e.PruneStep? ==> Next(cfg, s, e).db.Keys == s.db.Keys
  {
    var t := Next(cfg, s, e);
    forall w | 0 <= w < |due| ensures RowFits(cfg, db, due, deliveries, t, w) {
      assert RowFits(cfg, db, due, deliveries, s, w);
      if !e.PruneStep? {
        assert RowFits(cfg, db, due, deliveries, s, e.w);
        assert w != e.w ==> due[w] != due[e.w];
      }
    }
    if !e.PruneStep? {
      assert RowFits(cfg, db, due, deliveries, s, e.w);
    }
  }

  lemma {:induction false} BatchReachable(cfg: Config, db: Db, due: seq<RowId>, deliveries: RowId -> Delivery,
                                          states: seq<State>, events: seq<Event>, k: nat)
    requires IsBatch(db, due, deliveries) && IsBatchRun(cfg, db, due, deliveries, states, events) && k < |states|
    ensures BatchInv(cfg, db, due, deliveries, states[k])
    ensures (forall m :: 0 <= m < k ==> !events[m].PruneStep?) ==> states[k].db.Keys == db.Keys
  {
    if k > 0 {
      BatchReachable(cfg, db, due, deliveries, states, events, k - 1);
      BatchStepKeepsInv(cfg, db, due, deliveries, states[k - 1], events[k - 1]);
    }
  }

  /** Row by row: each row of the batch ends as its outcome, the others stay. */
  lemma {:induction false} DeliverAllRows(cfg: Config, db: Db, due: seq<RowId>, deliveries: RowId -> Delivery)
    requires IsBatch(db, due, deliveries)
    ensures var all := DeliverAll(cfg, db, due, deliveries);
            && all.Keys == db.Keys
            && (forall id :: id in due ==> all[id] == Outcome(cfg, db, id, deliveries(id)))
            && (forall id :: id in db && id !in due ==> all[id] == db[id])
  {
    if due != [] {
      var init, last := due[..|due| - 1], due[|due| - 1];
      assert IsBatch(db, init, deliveries) && last !in init;
      DeliverAllRows(cfg, db, init, deliveries);
      assert due == init + [last];
      LastRow(cfg, db, init, last, deliveries);
    }
  }

  lemma LastRow(cfg: Config, db: Db, init: seq<RowId>, last: RowId, deliveries: RowId -> Delivery)
    requires IsBatch(db, init, deliveries) && last in db && Open(db[last])
    requires var before := DeliverAll(cfg, db, init, deliveries); before.Keys == db.Keys && before[last] == db[last]
    ensures DeliverAll(cfg, db, init + [last], deliveries) ==
            DeliverAll(cfg, db, init, deliveries)[last := Outcome(cfg, db, last, deliveries(last))]
  {
    assert (init + [last])[..|init|] == init;
    DeliveryIsLocal(cfg, DeliverAll(cfg, db, init, deliveries), last, db[last], deliveries(last));
  }

  /**
   * Claims, outcomes and sweeps in any order: once all workers are done, every row still there is
   * what delivering the batch row by row gives, and without a sweep the whole queue is.
   */
  lemma EveryInterleavingDeliversTheBatch(cfg: Config, db: Db, due: seq<RowId>, deliveries: RowId -> Delivery,
                                          states: seq<State>, events: seq<Event>)
    requires IsBatch(db, due, deliveries) && IsBatchRun(cfg, db, due, deliveries, states, events)
    requires states[|events|].workers == map[]
    ensures var after, all := states[|events|].db, DeliverAll(cfg, db, due, deliveries);
            && (forall id :: id in after ==> id in all && after[id] == all[id])
            && ((forall m :: 0 <= m < |events| ==> !events[m].PruneStep?) ==> after == all)
  {
    BatchReachable(cfg, db, due, deliveries, states, events, |events|);
    DoneIsDelivered(cfg, db, due, deliveries, states[|events|]);
  }

  /** Once all workers are done, the rows still there are what delivering the batch row by row gives. */
  lemma DoneIsDelivered(cfg: Config, db: Db, due: seq<RowId>, deliveries: RowId -> Delivery, s: State)
    requires IsBatch(db, due, deliveries) && BatchInv(cfg, db, due, deliveries, s) && s.workers == map[]
    ensures var all := DeliverAll(cfg, db, due, deliveries);
            && all.Keys == db.Keys
            && (forall id :: id in s.db ==> id in all && s.db[id] == all[id])
            && (s.db.Keys == db.Keys ==> s.db == all)
  {
    DeliverAllRows(cfg, db, due, deliveries);
    forall id | id in s.db ensures s.db[id] == DeliverAll(cfg, db, due, deliveries)[id] {
      if id in due {
        var w :| 0 <= w < |due| && due[w] == id;
        assert RowFits(cfg, db, due, deliveries, s, w);
      }
    }
  }

  /** One more row delivered by a claim and its finish. */
  lemma OneRowMore(cfg: Config, db: Db, due: seq<RowId>, deliveries: RowId -> Delivery, s: State, w: WorkerId)
    requires IsBatch(db, due, deliveries) && w < |due|
    requires s.db == DeliverAll(cfg, db, due[..w], deliveries) && s.workers == BatchWorkers(db, due, w)
    ensures var d := deliveries(due[w]);
            && Enabled(s, ClaimStep(w, d.claimedAt))
            && var claimed := Next(cfg, s, ClaimStep(w, d.claimedAt));
               && Enabled(claimed, Finish(w, d))
               && Next(cfg, claimed, Finish(w, d)) ==
                  State(DeliverAll(cfg, db, due[..w + 1], deliveries), BatchWorkers(db, due, w + 1), s.nextId)
  {
    var id, d := due[w], deliveries(due[w]);
    assert due[..w + 1][..w] == due[..w];
    DeliverAllRows(cfg, db, due[..w], deliveries);
    assert id !in due[..w];
    DeliveryIsAProtocolRun(cfg, s, w, db[id], d);
    WorkersShrink(db, due, w);
  }

  lemma WorkersShrink(db: Db, due: seq<RowId>, w: nat)
    requires w < |due| && forall id :: id in due ==> id in db
    ensures w in BatchWorkers(db, due, w) && BatchWorkers(db, due, w) - {w} == BatchWorkers(db, due, w + 1)
    ensures BatchWorkers(db, due, w)[w := BatchWorkers(db, due, w)[w].(holding := true)] - {w} == BatchWorkers(db, due, w + 1)
  {
  }

  lemma RunGrowsByOne(cfg: Config, db: Db, due: seq<RowId>, deliveries: RowId -> Delivery,
                      states: seq<State>, events: seq<Event>, e: Event)
    requires IsBatch(db, due, deliveries) && IsBatchRun(cfg, db, due, deliveries, states, events)
    requires IsBatchStep(due, deliveries, e) && Enabled(states[|events|], e)
    ensures IsBatchRun(cfg, db, due, deliveries, states + [Next(cfg, states[|events|], e)], events + [e])
  {
    RunExtends(cfg, states, events, e);
  }

  lemma RunGrowsByTwo(cfg: Config, db: Db, due: seq<RowId>, deliveries: RowId -> Delivery,
                      states: seq<State>, events: seq<Event>, first: Event, second: Event)
    requires IsBatch(db, due, deliveries) && IsBatchRun(cfg, db, due, deliveries, states, events)
    requires IsBatchStep(due, deliveries, first) && IsBatchStep(due, deliveries, second)
    requires Enabled(states[|events|], first) && Enabled(Next(cfg, states[|events|], first), second)
    ensures var mid := Next(cfg, states[|events|], first);
            IsBatchRun(cfg, db, due, deliveries, states + [mid, Next(cfg, mid, second)], events + [first, second])
  {
    var mid := Next(cfg, states[|events|], first);
    RunGrowsByOne(cfg, db, due, deliveries, states, events, first);
    RunGrowsByOne(cfg, db, due, deliveries, states + [mid], events + [first], second);
    assert states + [mid] + [Next(cfg, mid, second)] == states + [mid, Next(cfg, mid, second)];
    assert events + [first] + [second] == events + [first, second];
  }

  /** Such a run exists: the rows delivered one after the other, each by a claim and its finish. */
  lemma {:induction false} RowByRowIsABatchRun(cfg: Config, db: Db, due: seq<RowId>, deliveries: RowId -> Delivery, nextId: RowId, i: nat)
    returns (states: seq<State>, events: seq<Event>)
    requires IsBatch(db, due, deliveries) && i <= |due|
    ensures IsBatchRun(cfg, db, due, deliveries, states, events)
    ensures |events| == 2 * i
    ensures states[|events|] == State(DeliverAll(cfg, db, due[..i], deliveries), BatchWorkers(db, due, i), nextId)
  {
    if i == 0 {
      states, events := [State(db, BatchWorkers(db, due, 0), nextId)], [];
    } else {
      var before, soFar := RowByRowIsABatchRun(cfg, db, due, deliveries, nextId, i - 1);
      var s, w := before[|soFar|], i - 1;
      var claim, finish := ClaimStep(w, deliveries(due[w]).claimedAt), Finish(w, deliveries(due[w]));
      OneRowMore(cfg, db, due, deliveries, s, w);
      RunGrowsByTwo(cfg, db, due, deliveries, before, soFar, claim, finish);
      var claimed := Next(cfg, s, claim);
      states, events := before + [claimed, Next(cfg, claimed, finish)], soFar + [claim, finish];
    }
  }
}
