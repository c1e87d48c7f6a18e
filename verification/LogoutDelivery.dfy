/**
 * One delivery from claim to outcome, the batch a pass works through, and passes in which the
 * batch is delivered row by row.
 */
module LogoutDelivery {
  import opened Wrappers
  import opened Arithmetic
  import opened LogoutQueue
  import opened LogoutProtocol

  /** SendThrew stands for any exception while building, signing or posting the request. */
  datatype SoapResult = SoapSucceeded | SoapPartial | SoapFailed | SendThrew

  /** What the outside world answers to one delivery. */
  datatype Delivery = Delivery(
    claimedAt: int,
    finishedAt: int,
    endpointKnown: bool,
    soap: SoapResult,
    spare: RequestId,
    random: real)

  /** The net effect of delivering the row that was read as copy. */
  function Deliver(cfg: Config, db: Db, id: RowId, copy: Row, d: Delivery): Db {
    if !Claimable(db, id) then db
    else
      var held := Claim(db, id, d.claimedAt);
      var attempts := copy.attempts + 1;
      var sent := SentId(copy.requestId, d.spare);
      if !d.endpointKnown then Fail(cfg, held, id, attempts, None, d.random, d.finishedAt)
      else if d.soap == SoapSucceeded || d.soap == SoapPartial
      then Resolve(held, id, attempts, sent, d.soap == SoapPartial, d.finishedAt)
      else Fail(cfg, held, id, attempts, Some(sent), d.random, d.finishedAt)
  }

  /** The protocol event by which a worker that holds a row ends its delivery. */
  function Finish(w: WorkerId, d: Delivery): Event {
    if d.endpointKnown && (d.soap == SoapSucceeded || d.soap == SoapPartial)
    then ResolveStep(w, d.soap == SoapPartial, d.spare, d.finishedAt)
    else FailStep(w, d.endpointKnown, d.spare, d.random, d.finishedAt)
  }

  /** An undisturbed delivery is two steps of the protocol, claim and finish. */
  lemma DeliveryIsAProtocolRun(cfg: Config, s: State, w: WorkerId, copy: Row, d: Delivery)
    requires w in s.workers && !s.workers[w].holding && UnitInterval(d.random)
    requires s.workers[w].attempts == copy.attempts && s.workers[w].requestId == copy.requestId
    ensures var id := s.workers[w].id;
            var claimed := Next(cfg, s, ClaimStep(w, d.claimedAt));
            if Claimable(s.db, id)
            then Enabled(claimed, Finish(w, d)) &&
                 Next(cfg, claimed, Finish(w, d)).db == Deliver(cfg, s.db, id, copy, d)
            else claimed.db == Deliver(cfg, s.db, id, copy, d)
  {
  }

  /** A delivery reads and writes its own row only. */
  lemma DeliveryIsLocal(cfg: Config, db: Db, id: RowId, copy: Row, d: Delivery)
    ensures Deliver(cfg, db, id, copy, d) ==
            if id in db then db[id := Deliver(cfg, map[id := db[id]], id, copy, d)[id]] else db
  {
  }

  /** Deliveries of different rows do not see each other, so a pass may run them in any order. */
  lemma DeliveriesCommute(cfg: Config, db: Db, a: RowId, copyA: Row, dA: Delivery, b: RowId, copyB: Row, dB: Delivery)
    requires a != b
    ensures Deliver(cfg, Deliver(cfg, db, a, copyA, dA), b, copyB, dB)
         == Deliver(cfg, Deliver(cfg, db, b, copyB, dB), a, copyA, dA)
  {
    var afterA, afterB := Deliver(cfg, db, a, copyA, dA), Deliver(cfg, db, b, copyB, dB);
    DeliveryIsLocal(cfg, db, a, copyA, dA);
    DeliveryIsLocal(cfg, db, b, copyB, dB);
    DeliveryIsLocal(cfg, afterA, b, copyB, dB);
    DeliveryIsLocal(cfg, afterB, a, copyA, dA);
  }

  // ------------------------------------------------------------------ the batch of one pass

  function InFlightIds(db: Db): set<RowId> {
    set id | id in db && db[id].status == InFlight
  }

  /** How many rows a pass may take: the concurrency, cut by what is left of the in-flight cap. */
  function Limit(cfg: Config, db: Db): nat {
    Max(0, Min(cfg.concurrency, cfg.maxInFlight - |InFlightIds(db)|))
  }

  predicate Distinct(ids: seq<RowId>) {
    forall i, j :: 0 <= i < j < |ids| ==> ids[i] != ids[j]
  }

  /** The rows an ordered, limited query for due rows may return. */
  ghost predicate IsDueBatch(db: Db, now: int, limit: nat, due: seq<RowId>) {
    && Distinct(due)
    && |due| <= limit
    && (forall id :: id in due ==> id in db && Due(db[id], now))
    && (forall i, j :: 0 <= i < j < |due| ==> db[due[i]].nextRetryAt.value <= db[due[j]].nextRetryAt.value)
    && (forall id :: id in db && Due(db[id], now) && id !in due ==>
          |due| == limit && forall i :: 0 <= i < |due| ==> db[due[i]].nextRetryAt.value <= db[id].nextRetryAt.value)
  }

  /** Deliver the batch, each row from the copy the query returned. */
  function DeliverAll(cfg: Config, db: Db, due: seq<RowId>, deliveries: RowId -> Delivery): Db
    requires forall id :: id in due ==> id in db
  {
    if due == [] then db
    else
      var last := due[|due| - 1];
      Deliver(cfg, DeliverAll(cfg, db, due[..|due| - 1], deliveries), last, db[last], deliveries(last))
  }

  // ------------------------------------------------------------------ what is left to do

  /** Deliveries a row may still get. */
  function Weight(cfg: Config, row: Row): nat {
    if Open(row) && row.attempts <= cfg.maxRetries then cfg.maxRetries + 1 - row.attempts else 0
  }

  ghost function WeightAt(cfg: Config, db: Db, id: RowId): nat {
    if id in db then Weight(cfg, db[id]) else 0
  }

  /** Deliveries the rows with ids below n may still get. */
  ghost function Measure(cfg: Config, db: Db, n: RowId): nat {
    if n == 0 then 0 else Measure(cfg, db, n - 1) + WeightAt(cfg, db, n - 1)
  }

  lemma {:induction false} MeasureDropsAt(cfg: Config, before: Db, after: Db, n: RowId, id: RowId)
    requires forall other :: other != id ==> WeightAt(cfg, before, other) == WeightAt(cfg, after, other)
    ensures Measure(cfg, before, n) - Measure(cfg, after, n)
         == if id < n then WeightAt(cfg, before, id) - WeightAt(cfg, after, id) else 0
  {
    if n > 0 {
      MeasureDropsAt(cfg, before, after, n - 1, id);
    }
  }

  /** No delivery is under way, as between two passes that do not overlap. */
  ghost predicate Quiet(db: Db) {
    forall id :: id in db ==> db[id].status != InFlight
  }

  /** An honest delivery: a random number in range, and a finish that is not before the pass. */
  ghost predicate Plausible(deliveries: RowId -> Delivery, now: int) {
    forall id :: UnitInterval(deliveries(id).random) && now <= deliveries(id).finishedAt
  }

  /** What a delivery may leave of a claimed row. */
  ghost predicate Delivered(cfg: Config, row: Row, row': Row, d: Delivery) {
    && RowOk(cfg, row')
    && row'.ssoSession == row.ssoSession && row'.sp == row.sp
    && row'.status != InFlight
    && row'.requestId == row.requestId
    && row'.attempts == row.attempts + 1
    && (Open(row') ==> row'.nextRetryAt.Some? && row'.nextRetryAt.value <= d.finishedAt + cfg.retryMaxMs)
    && (d.endpointKnown && d.soap == SoapSucceeded ==> row'.status == Succeeded)
    && (row'.status == Succeeded ==> d.endpointKnown && d.soap == SoapSucceeded)
    && Weight(cfg, row') < Weight(cfg, row)
  }

  lemma DeliverEffect(cfg: Config, db: Db, id: RowId, copy: Row, d: Delivery)
    requires id in db && Open(db[id]) && copy == db[id] && RowOk(cfg, db[id]) && UnitInterval(d.random)
    ensures var db' := Deliver(cfg, db, id, copy, d);
            && db'.Keys == db.Keys
            && (forall other :: other in db && other != id ==> db'[other] == db[other])
            && Delivered(cfg, db[id], db'[id], d)
  {
    if copy.attempts + 1 <= cfg.maxRetries {
      JitterBounds(Backoff(cfg, copy.attempts + 1), d.random);
    }
  }

  lemma {:induction false} BatchEffect(cfg: Config, db: Db, due: seq<RowId>, deliveries: RowId -> Delivery, n: RowId)
    requires Distinct(due) && DbOk(cfg, db) && (forall id :: id in db ==> id < n)
    requires forall id :: id in due ==> id in db && Open(db[id])
    requires forall id :: UnitInterval(deliveries(id).random)
    ensures var db' := DeliverAll(cfg, db, due, deliveries);
            && db'.Keys == db.Keys
            && (forall id :: id in db && id !in due ==> db'[id] == db[id])
            && (forall id :: id in due ==> Delivered(cfg, db[id], db'[id], deliveries(id)))
            && Measure(cfg, db', n) + |due| <= Measure(cfg, db, n)
  {
    if due != [] {
      var init, last := due[..|due| - 1], due[|due| - 1];
      BatchEffect(cfg, db, init, deliveries, n);
      var mid := DeliverAll(cfg, db, init, deliveries);
      assert last !in init;
      DeliverEffect(cfg, mid, last, db[last], deliveries(last));
      var db' := Deliver(cfg, mid, last, db[last], deliveries(last));
      forall other | other != last ensures WeightAt(cfg, mid, other) == WeightAt(cfg, db', other) {}
      MeasureDropsAt(cfg, mid, db', n, last);
    }
  }

  // ------------------------------------------------------------------ runs of passes

  datatype Pass = Pass(now: int, due: seq<RowId>, deliveries: RowId -> Delivery)

  /** A run of undisturbed passes, one after the other. */
  ghost predicate IsPass(cfg: Config, db: Db, pass: Pass, after: Db) {
    && Plausible(pass.deliveries, pass.now)
    && IsDueBatch(db, pass.now, Limit(cfg, db), pass.due)
    && after == DeliverAll(cfg, db, pass.due, pass.deliveries)
  }

  ghost predicate IsPassRun(cfg: Config, dbs: seq<Db>, passes: seq<Pass>) {
    && |dbs| == |passes| + 1
    && forall k :: 0 <= k < |passes| ==> IsPass(cfg, dbs[k], passes[k], dbs[k + 1])
  }

  ghost predicate StartsWell(cfg: Config, db: Db, n: RowId) {
    DbOk(cfg, db) && Quiet(db) && forall id :: id in db ==> id < n
  }

  lemma PassKeepsWell(cfg: Config, db: Db, pass: Pass, n: RowId)
    requires StartsWell(cfg, db, n) && Plausible(pass.deliveries, pass.now)
    requires IsDueBatch(db, pass.now, Limit(cfg, db), pass.due)
    ensures StartsWell(cfg, DeliverAll(cfg, db, pass.due, pass.deliveries), n)
  {
    BatchEffect(cfg, db, pass.due, pass.deliveries, n);
    var db' := DeliverAll(cfg, db, pass.due, pass.deliveries);
    forall id | id in db' ensures RowOk(cfg, db'[id]) && db'[id].status != InFlight
                                  && db'[id].ssoSession == db[id].ssoSession && db'[id].sp == db[id].sp {
      assert id in pass.due || db'[id] == db[id];
    }
  }

  /** Every open row is due by then. */
  ghost predicate AllDueBy(db: Db, now: int) {
    forall id :: id in db && Open(db[id]) ==> Due(db[id], now)
  }
}
