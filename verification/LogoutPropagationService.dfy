/** The service object that owns the delivery queue, statement by statement. */
module LogoutPropagationService {
  import opened Wrappers
  import opened Arithmetic
  import opened LogoutQueue
  import opened LogoutDelivery

  /** An SP that took part in a session, as the participation query returns it. */
  datatype Participation = Participation(sp: nat, active: bool, hasEndpoint: bool)

  /** How a notifier hook or another call may end. */
  datatype Completion = Returned | Threw | Rejected

  predicate Targeted(p: Participation, exclude: Option<nat>) {
    p.active && exclude != Some(p.sp)
  }

  /** The row a fan-out queues for one of the participations. */
  ghost predicate IsFanOut(participations: seq<Participation>, exclude: Option<nat>, session: nat, requestIds: nat -> RequestId, now: int, row: Row) {
    exists k :: && 0 <= k < |participations| && Targeted(participations[k], exclude)
                && row == NewRow(session, participations[k].sp, participations[k].hasEndpoint, requestIds(k), now)
  }

  /** Every targeted participation has its row, and every row that is new comes from one of them. */
  ghost predicate IsFannedOut(before: Db, after: Db, participations: seq<Participation>, exclude: Option<nat>, session: nat,
                              requestIds: nat -> RequestId, now: int)
  {
    && (forall id :: id in before ==> id in after && after[id] == before[id])
    && (forall k :: 0 <= k < |participations| && Targeted(participations[k], exclude) ==> HasRow(after, session, participations[k].sp))
    && (forall id :: id in after && id !in before ==> IsFanOut(participations, exclude, session, requestIds, now, after[id]))
  }

  lemma FanOutGrows(participations: seq<Participation>, p: Participation, exclude: Option<nat>, session: nat,
                    requestIds: nat -> RequestId, now: int, row: Row)
    requires IsFanOut(participations, exclude, session, requestIds, now, row)
    ensures IsFanOut(participations + [p], exclude, session, requestIds, now, row)
  {
    var k :| && 0 <= k < |participations| && Targeted(participations[k], exclude)
             && row == NewRow(session, participations[k].sp, participations[k].hasEndpoint, requestIds(k), now);
    assert (participations + [p])[k] == participations[k];
  }

  lemma FanOutSkips(before: Db, db: Db, participations: seq<Participation>, p: Participation, exclude: Option<nat>, session: nat,
                    requestIds: nat -> RequestId, now: int)
    requires IsFannedOut(before, db, participations, exclude, session, requestIds, now) && !Targeted(p, exclude)
    ensures IsFannedOut(before, db, participations + [p], exclude, session, requestIds, now)
  {
    forall id | id in db && id !in before ensures IsFanOut(participations + [p], exclude, session, requestIds, now, db[id]) {
      FanOutGrows(participations, p, exclude, session, requestIds, now, db[id]);
    }
  }

  lemma FanOutQueues(cfg: Config, before: Db, db: Db, id: RowId, participations: seq<Participation>, p: Participation,
                     exclude: Option<nat>, session: nat, requestIds: nat -> RequestId, now: int)
    requires IsFannedOut(before, db, participations, exclude, session, requestIds, now) && Targeted(p, exclude)
    requires DbOk(cfg, db) && id !in db
    ensures var after := Enqueue(db, id, session, p.sp, p.hasEndpoint, requestIds(|participations|), now);
            && DbOk(cfg, after) && (forall other :: other in after && other !in db ==> other == id)
            && IsFannedOut(before, after, participations + [p], exclude, session, requestIds, now)
  {
    var n, all := |participations|, participations + [p];
    var after := Enqueue(db, id, session, p.sp, p.hasEndpoint, requestIds(n), now);
    EnqueueKeeps(cfg, db, id, session, p.sp, p.hasEndpoint, requestIds(n), now);
    forall k | 0 <= k < |all| && Targeted(all[k], exclude) ensures HasRow(after, session, all[k].sp) {
      if k < n {
        RowStays(db, after, session, participations[k].sp);
      }
    }
    forall other | other in after && other !in before ensures IsFanOut(all, exclude, session, requestIds, now, after[other]) {
      if other in db {
        FanOutGrows(participations, p, exclude, session, requestIds, now, db[other]);
      } else {
        assert all[n] == p;
      }
    }
  }

  class LogoutPropagation {
    const cfg: Config
    var db: Db
    var nextId: RowId

    ghost predicate Valid()
      reads this
    {
      DbOk(cfg, db) && forall id :: id in db ==> id < nextId
    }

    constructor (cfg: Config)
      ensures Valid() && this.cfg == cfg && db == map[]
    {
      this.cfg := cfg;
      db := map[];
      nextId := 0;
    }

    /**
     * Queue one delivery for every SP of a terminated session that is active and not excluded. With an endpoint the row
     * is pending, carries its request id and is due at once; without one it is skipped for good.
     */
    method PropagateLogout(session: nat, participations: seq<Participation>, exclude: Option<nat>,
                           requestIds: nat -> RequestId, now: int)
      requires Valid()
      modifies this
      ensures Valid()
      ensures forall id :: id in old(db) ==> id in db && db[id] == old(db[id])
      ensures forall k :: && 0 <= k < |participations| && participations[k].active
                          && (exclude.Some? ==> participations[k].sp != exclude.value)
                ==> exists id :: id in db && db[id].ssoSession == session && db[id].sp == participations[k].sp
      ensures forall id :: id in db && id !in old(db) ==>
                exists k :: && 0 <= k < |participations|
                            && participations[k].active && (exclude.Some? ==> participations[k].sp != exclude.value)
                            && db[id].ssoSession == session && db[id].sp == participations[k].sp
                            && db[id].attempts == 0 && db[id].updatedAt == now
                            && (if participations[k].hasEndpoint
                                then db[id].status == Pending && db[id].requestId == Some(requestIds(k)) && db[id].nextRetryAt == Some(now)
                                else db[id].status == SkippedNoEndpoint && db[id].requestId == None && db[id].nextRetryAt == None)
    {
      for i := 0 to |participations|
        invariant Valid()
        invariant IsFannedOut(old(db), db, participations[..i], exclude, session, requestIds, now)
      {
        var p := participations[i];
        assert participations[..i + 1] == participations[..i] + [p];
        if Targeted(p, exclude) {
          FanOutQueues(cfg, old(db), db, nextId, participations[..i], p, exclude, session, requestIds, now);
          db := Enqueue(db, nextId, session, p.sp, p.hasEndpoint, requestIds(i), now);
          nextId := nextId + 1;
        } else {
          FanOutSkips(old(db), db, participations[..i], p, exclude, session, requestIds, now);
        }
      }
      assert participations[..|participations|] == participations;
      forall k | 0 <= k < |participations| && participations[k].active && (exclude.Some? ==> participations[k].sp != exclude.value)
        ensures exists id :: id in db && db[id].ssoSession == session && db[id].sp == participations[k].sp
      {
        assert Targeted(participations[k], exclude) && HasRow(db, session, participations[k].sp);
      }
    }

    /** Notifier hooks are observers: whatever the hook does, the caller goes on normally. */
    method NotifySafe(hook: Completion) returns (completion: Completion)
      ensures completion == Returned
    {
      completion := hook;
      if completion == Threw || completion == Rejected {
        completion := Returned; // caught and logged, at once or when the promise settles
      }
    }

    method FinishResolved(id: RowId, attempts: nat, requestId: RequestId, partial: bool, now: int, hook: Completion)
      returns (completion: Completion)
      requires id in db
      modifies this`db
      ensures completion == Returned
      ensures db == Resolve(old(db), id, attempts, requestId, partial, now)
    {
      db := Resolve(db, id, attempts, requestId, partial, now);
      completion := NotifySafe(hook);
    }

    method FinishFailure(id: RowId, attempts: nat, requestId: Option<RequestId>, random: real, now: int, hook: Completion)
      returns (completion: Completion)
      requires id in db && 1 <= attempts
      modifies this`db
      ensures completion == Returned
      ensures db == Fail(cfg, old(db), id, attempts, requestId, random, now)
    {
      db := Fail(cfg, db, id, attempts, requestId, random, now);
      completion := NotifySafe(hook);
    }

    /** Claim, send, and write the outcome. The result does not depend on what the notifier does. */
    method DeliverRow(id: RowId, copy: Row, d: Delivery, hook: Completion)
      modifies this`db
      ensures db == Deliver(cfg, old(db), id, copy, d)
      ensures db.Keys == old(db).Keys && forall other :: other in db && other != id ==> db[other] == old(db)[other]
      ensures id in old(db) && old(db)[id].status !in {Pending, Failed} ==> db == old(db)
      ensures id in old(db) && old(db)[id].status in {Pending, Failed} ==>
                var delivered := d.endpointKnown && d.soap in {SoapSucceeded, SoapPartial};
                var sent := if copy.requestId.Some? then copy.requestId else Some(d.spare);
                && db[id].ssoSession == old(db)[id].ssoSession && db[id].sp == old(db)[id].sp
                && db[id].attempts == copy.attempts + 1 && db[id].updatedAt == d.finishedAt
                && db[id].status == (if delivered then (if d.soap == SoapPartial then Partial else Succeeded)
                                     else if copy.attempts + 1 > cfg.maxRetries then GivenUp else Failed)
                && db[id].requestId == (if d.endpointKnown then sent else old(db)[id].requestId)
                && (db[id].status != Failed ==> db[id].nextRetryAt == None)
                && (db[id].status == Failed && UnitInterval(d.random) ==>
                      && db[id].nextRetryAt.Some?
                      && var wait, delay := Backoff(cfg, copy.attempts + 1), db[id].nextRetryAt.value - d.finishedAt;
                         -0.5 < delay as real - wait as real * (1.0 + d.random) / 2.0 <= 0.5)
    {
      if UnitInterval(d.random) {
        JitterIsNearest(Backoff(cfg, copy.attempts + 1), d.random);
      }
      var claimed := Claimable(db, id);
      db := Claim(db, id, d.claimedAt);
      if claimed {
        SendClaimed(id, copy, d, hook);
      }
    }

    /** Send what has been claimed. A send that throws, or whose handling throws, is a failure. */
    method SendClaimed(id: RowId, copy: Row, d: Delivery, hook: Completion)
      requires id in db && db[id].status == InFlight && db[id].updatedAt == d.claimedAt
      modifies this`db
      ensures var attempts, requestId := copy.attempts + 1, SentId(copy.requestId, d.spare);
              db == if !d.endpointKnown then Fail(cfg, old(db), id, attempts, None, d.random, d.finishedAt)
                    else if d.soap in {SoapSucceeded, SoapPartial}
                    then Resolve(old(db), id, attempts, requestId, d.soap == SoapPartial, d.finishedAt)
                    else Fail(cfg, old(db), id, attempts, Some(requestId), d.random, d.finishedAt)
    {
      var attempts := copy.attempts + 1;
      var requestId := SentId(copy.requestId, d.spare);
      if !d.endpointKnown {
        var _ := FinishFailure(id, attempts, None, d.random, d.finishedAt, hook);
        return;
      }
      var completion := Threw;
      if d.soap != SendThrew {
        var _ := NotifySafe(hook);
        if d.soap == SoapSucceeded || d.soap == SoapPartial {
          completion := FinishResolved(id, attempts, requestId, d.soap == SoapPartial, d.finishedAt, hook);
        } else {
          completion := FinishFailure(id, attempts, Some(requestId), d.random, d.finishedAt, hook);
        }
      }
      if completion == Threw {
        var _ := FinishFailure(id, attempts, Some(requestId), d.random, d.finishedAt, hook);
      }
    }

    /** The earliest row of a set of due rows. */
    static method Earliest(rows: Db, rest: set<RowId>) returns (first: RowId)
      requires rest != {} && forall id :: id in rest ==> id in rows && rows[id].nextRetryAt.Some?
      ensures first in rest
      ensures forall id :: id in rest ==> rows[first].nextRetryAt.value <= rows[id].nextRetryAt.value
    {
      first :| first in rest;
      var left := rest - {first};
      while left != {}
        invariant left <= rest && first in rest
        invariant forall id :: id in rest && id !in left ==> rows[first].nextRetryAt.value <= rows[id].nextRetryAt.value
        decreases left
      {
        var id :| id in left;
        if rows[id].nextRetryAt.value < rows[first].nextRetryAt.value {
          first := id;
        }
        left := left - {id};
      }
    }

    /** Due rows, earliest retry time first, at most limit of them. */
    method FindDue(now: int, limit: nat) returns (due: seq<RowId>)
      ensures IsDueBatch(db, now, limit, due)
    {
      due := [];
      var rest := set id | id in db && Due(db[id], now);
      while |due| < limit && rest != {}
        invariant |due| <= limit && Distinct(due)
        invariant forall id :: id in rest ==> id in db && Due(db[id], now) && id !in due
        invariant forall id :: id in due ==> id in db && Due(db[id], now)
        invariant forall id :: id in db && Due(db[id], now) ==> id in due || id in rest
        invariant forall i, j :: 0 <= i < j < |due| ==> db[due[i]].nextRetryAt.value <= db[due[j]].nextRetryAt.value
        invariant forall i, id :: 0 <= i < |due| && id in rest ==> db[due[i]].nextRetryAt.value <= db[id].nextRetryAt.value
      {
        var next := Earliest(db, rest);
        due := due + [next];
        rest := rest - {next};
      }
    }

    /** Deliver what is due, within the concurrency and the in-flight cap; returns how many were tried. */
    method ProcessDue(now: int, deliveries: RowId -> Delivery, hooks: RowId -> Completion)
      returns (tried: nat, due: seq<RowId>)
      modifies this`db
      ensures tried == |due| && IsDueBatch(old(db), now, Limit(cfg, old(db)), due)
      ensures db == DeliverAll(cfg, old(db), due, deliveries)
    {
      var copies := db;
      var budget := cfg.maxInFlight - |InFlightIds(db)|;
      if budget <= 0 {
        return 0, [];
      }
      due := FindDue(now, Min(cfg.concurrency, budget));
      for i := 0 to |due|
        invariant db == DeliverAll(cfg, copies, due[..i], deliveries)
      {
        DeliverRow(due[i], copies[due[i]], deliveries(due[i]), hooks(due[i]));
        assert due[..i + 1][..i] == due[..i];
      }
      assert due[..|due|] == due;
      tried := |due|;
    }

    /**
     * The first pass repeats until the clock passes the deadline or nothing is left to try.
     * It ends whatever the deadline is, because every round uses up deliveries.
     */
    method RunFirstPass(deadline: int, clock: nat -> int, deliveries: nat -> RowId -> Delivery, hooks: RowId -> Completion)
      returns (rounds: nat, ghost dbs: seq<Db>, ghost passes: seq<Pass>)
      requires Valid() && Quiet(db)
      requires forall k :: Plausible(deliveries(k), clock(k))
      modifies this`db
      ensures Valid() && Quiet(db)
      ensures IsPassRun(cfg, dbs, passes) && dbs[0] == old(db) && dbs[|passes|] == db
      ensures clock(rounds) >= deadline || forall id :: id in db ==> !Due(db[id], clock(rounds))
      ensures |passes| == if clock(rounds) < deadline then rounds + 1 else rounds
      ensures forall k :: 0 <= k < |passes| ==> passes[k].now == clock(k) < deadline && (passes[k].due == [] <==> k == rounds)
    {
      rounds, dbs, passes := 0, [db], [];
      while clock(rounds) < deadline
        invariant StartsWell(cfg, db, nextId)
        invariant IsPassRun(cfg, dbs, passes) && dbs[0] == old(db) && dbs[|passes|] == db && |passes| == rounds
        invariant forall k :: 0 <= k < rounds ==> passes[k].now == clock(k) < deadline && passes[k].due != []
        decreases Measure(cfg, db, nextId)
      {
        ghost var before := db;
        var tried, due := ProcessDue(clock(rounds), deliveries(rounds), hooks);
        ghost var pass := Pass(clock(rounds), due, deliveries(rounds));
        RoundExtendsRun(cfg, dbs, passes, pass, nextId);
        dbs, passes := dbs + [db], passes + [pass];
        if tried == 0 {
          break;
        }
        rounds := rounds + 1;
      }
    }

    /** Operator resend: failed, given-up and partial deliveries of the pair start over. */
    method Resend(session: nat, sp: nat, now: int)
      requires Valid()
      modifies this`db
      ensures Valid() && db == LogoutQueue.Resend(old(db), session, sp, now)
      ensures db.Keys == old(db).Keys
      ensures forall id :: id in db ==>
                db[id] == if old(db)[id].ssoSession == session && old(db)[id].sp == sp && old(db)[id].status in {Failed, GivenUp, Partial}
                          then old(db)[id].(status := Pending, attempts := 0, nextRetryAt := Some(now), updatedAt := now)
                          else old(db)[id]
    {
      db := LogoutQueue.Resend(db, session, sp, now);
    }

    /** The retention sweep; returns how many rows it removed. */
    method PruneSweep(now: int) returns (removed: nat)
      requires Valid()
      modifies this`db
      ensures Valid() && db == Prune(cfg, old(db), now)
      ensures removed == |old(db)| - |db|
      ensures forall id :: id in db ==> id in old(db) && db[id] == old(db)[id]
      ensures forall id :: id in old(db) ==>
                (id in db <==> old(db)[id].status in {Pending, InFlight, Failed} || old(db)[id].updatedAt >= now - cfg.retentionMs)
    {
      var kept := Prune(cfg, db, now);
      assert kept.Keys <= db.Keys;
      SubsetSize(kept.Keys, db.Keys);
      assert |kept| == |kept.Keys| && |db| == |db.Keys|;
      removed := |db| - |kept|;
      db := kept;
    }
  }

  /** Enqueueing keeps every row, adds at most the one asked for, and leaves the pair with a row. */
  lemma EnqueueKeeps(cfg: Config, db: Db, id: RowId, session: nat, sp: nat, hasEndpoint: bool, requestId: RequestId, now: int)
    requires DbOk(cfg, db) && id !in db
    ensures var after := Enqueue(db, id, session, sp, hasEndpoint, requestId, now);
            && DbOk(cfg, after) && HasRow(after, session, sp)
            && (forall other :: other in db ==> other in after && after[other] == db[other])
            && (forall other :: other in after && other !in db ==>
                  other == id && after[other] == NewRow(session, sp, hasEndpoint, requestId, now))
  {
    var after := Enqueue(db, id, session, sp, hasEndpoint, requestId, now);
    if !HasRow(db, session, sp) {
      assert after[id].ssoSession == session && after[id].sp == sp;
    }
  }

  lemma RowStays(before: Db, after: Db, session: nat, sp: nat)
    requires HasRow(before, session, sp) && forall id :: id in before ==> id in after && after[id] == before[id]
    ensures HasRow(after, session, sp)
  {
    var id :| id in before && before[id].ssoSession == session && before[id].sp == sp;
    assert after[id] == before[id];
  }

  /** One more round of the first pass extends its run and uses up deliveries, or finds nothing due. */
  lemma RoundExtendsRun(cfg: Config, dbs: seq<Db>, passes: seq<Pass>, pass: Pass, n: RowId)
    requires IsPassRun(cfg, dbs, passes) && Plausible(pass.deliveries, pass.now)
    requires var db := dbs[|passes|];
             StartsWell(cfg, db, n) && IsDueBatch(db, pass.now, Limit(cfg, db), pass.due)
    ensures var db := dbs[|passes|];
            var db' := DeliverAll(cfg, db, pass.due, pass.deliveries);
            && StartsWell(cfg, db', n)
            && IsPassRun(cfg, dbs + [db'], passes + [pass])
            && Measure(cfg, db', n) + |pass.due| <= Measure(cfg, db, n)
            && (pass.due == [] ==> db' == db && forall id :: id in db ==> !Due(db[id], pass.now))
  {
    var db := dbs[|passes|];
    PassKeepsWell(cfg, db, pass, n);
    RunGrows(cfg, dbs, passes, pass);
    RoundUsesUp(cfg, db, pass, n);
  }

  lemma RunGrows(cfg: Config, dbs: seq<Db>, passes: seq<Pass>, pass: Pass)
    requires IsPassRun(cfg, dbs, passes) && Plausible(pass.deliveries, pass.now)
    requires IsDueBatch(dbs[|passes|], pass.now, Limit(cfg, dbs[|passes|]), pass.due)
    ensures IsPassRun(cfg, dbs + [DeliverAll(cfg, dbs[|passes|], pass.due, pass.deliveries)], passes + [pass])
  {
    var after := DeliverAll(cfg, dbs[|passes|], pass.due, pass.deliveries);
    assert IsPass(cfg, dbs[|passes|], pass, after);
    forall k | 0 <= k < |passes| + 1 ensures IsPass(cfg, (dbs + [after])[k], (passes + [pass])[k], (dbs + [after])[k + 1]) {
    }
  }

  lemma RoundUsesUp(cfg: Config, db: Db, pass: Pass, n: RowId)
    requires StartsWell(cfg, db, n) && Plausible(pass.deliveries, pass.now)
    requires IsDueBatch(db, pass.now, Limit(cfg, db), pass.due)
    ensures Measure(cfg, DeliverAll(cfg, db, pass.due, pass.deliveries), n) + |pass.due| <= Measure(cfg, db, n)
    ensures pass.due == [] ==> forall id :: id in db ==> !Due(db[id], pass.now)
  {
    BatchEffect(cfg, db, pass.due, pass.deliveries, n);
    assert InFlightIds(db) == {};
  }

  lemma SubsetSize(a: set<RowId>, b: set<RowId>)
    requires a <= b
    ensures |a| <= |b|
  {
    assert b == a + (b - a);
  }
}
