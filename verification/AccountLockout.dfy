/**
 * The per-account lockout table: consecutive failures, a lock that doubles, and the sweep
 * that forgets stale rows.
 */
module AccountLockout {
  import opened Wrappers
  import opened Arithmetic

  datatype Scope = Admin | EndUser

  datatype Key = Key(scope: Scope, username: string)

  /** A threshold of zero switches the layer off. */
  datatype ScopeConfig = ScopeConfig(threshold: nat, baseMs: nat, maxMs: nat)

  datatype Config = Config(admin: ScopeConfig, endUser: ScopeConfig) {
    function For(scope: Scope): ScopeConfig {
      if scope == Admin then admin else endUser
    }

    /** How long a stale row is kept, whatever its scope. */
    function HorizonMs(): nat {
      Max(admin.maxMs, endUser.maxMs)
    }
  }

  datatype Row = Row(failedCount: nat, lockedUntil: Option<int>, lastFailedAt: int)

  type Rows = map<Key, Row>

  datatype LockCheck = LockCheck(locked: bool, lockedUntil: Option<int>, retryAfterMs: int)

  datatype FailureResult = FailureResult(lockedNow: bool, failedCount: nat, lockedUntil: Option<int>)

  const UNLOCKED := LockCheck(false, None, 0)

  predicate LockedAt(rows: Rows, key: Key, now: int) {
    key in rows && rows[key].lockedUntil.Some? && now < rows[key].lockedUntil.value
  }

  function CheckOf(cfg: Config, rows: Rows, key: Key, now: int): LockCheck {
    if cfg.For(key.scope).threshold != 0 && LockedAt(rows, key, now)
    then LockCheck(true, rows[key].lockedUntil, rows[key].lockedUntil.value - now)
    else UNLOCKED
  }

  /** The lock after the given number of failures past the threshold: doubling, with a ceiling. */
  function Backoff(cfg: ScopeConfig, over: nat): nat {
    Min(cfg.maxMs, cfg.baseMs * Pow2(over))
  }

  /** The atomic increment, creating the row on the first failure. */
  function Bumped(row: Option<Row>, now: int): Row {
    if row.Some? then row.value.(failedCount := row.value.failedCount + 1, lastFailedAt := now) else Row(1, None, now)
  }

  function RowAt(rows: Rows, key: Key): Option<Row> {
    if key in rows then Some(rows[key]) else None
  }

  /** The row after one undisturbed failure: the increment, then the lock if the threshold is reached. */
  function Failed(cfg: ScopeConfig, row: Option<Row>, now: int): Row {
    var bumped := Bumped(row, now);
    if bumped.failedCount >= cfg.threshold
    then bumped.(lockedUntil := Some(now + Backoff(cfg, bumped.failedCount - cfg.threshold)))
    else bumped
  }

  function AfterFailure(cfg: Config, rows: Rows, key: Key, now: int): Rows {
    if cfg.For(key.scope).threshold == 0 then rows else rows[key := Failed(cfg.For(key.scope), RowAt(rows, key), now)]
  }

  function FailureAnswer(cfg: Config, rows: Rows, key: Key, now: int): FailureResult {
    if cfg.For(key.scope).threshold == 0 then FailureResult(false, 0, None)
    else
      var row := Failed(cfg.For(key.scope), RowAt(rows, key), now);
      FailureResult(row.failedCount >= cfg.For(key.scope).threshold, row.failedCount, row.lockedUntil)
  }

  predicate Stale(row: Row, cutoff: int) {
    match row.lockedUntil
    case Some(until) => until < cutoff
    case None => row.lastFailedAt < cutoff
  }

  function Pruned(cfg: Config, rows: Rows, now: int): Rows {
    map key | key in rows && !Stale(rows[key], now - cfg.HorizonMs()) :: rows[key]
  }

  function LockedKeys(rows: Rows, scope: Scope, now: int): set<Key> {
    set key | key in rows && key.scope == scope && LockedAt(rows, key, now)
  }

  class AccountLockoutService {
    const cfg: Config
    var rows: Rows

    constructor (cfg: Config)
      ensures this.cfg == cfg && rows == map[]
    {
      this.cfg := cfg;
      rows := map[];
    }

    method Check(key: Key, now: int) returns (check: LockCheck)
      ensures check == CheckOf(cfg, rows, key, now)
      ensures check.locked ==> check.retryAfterMs > 0 && check.lockedUntil == Some(now + check.retryAfterMs)
    {
      if cfg.For(key.scope).threshold == 0 {
        return UNLOCKED;
      }
      if key !in rows || rows[key].lockedUntil.None? {
        return UNLOCKED;
      }
      var remaining := rows[key].lockedUntil.value - now;
      if remaining > 0 {
        return LockCheck(true, rows[key].lockedUntil, remaining);
      }
      return UNLOCKED;
    }

    method RecordFailure(key: Key, now: int) returns (result: FailureResult)
      modifies this`rows
      ensures cfg.For(key.scope).threshold == 0 ==> rows == old(rows) && result == FailureResult(false, 0, None)
      ensures cfg.For(key.scope).threshold != 0 ==>
                var row := Failed(cfg.For(key.scope), RowAt(old(rows), key), now);
                && rows == old(rows)[key := row]
                && result == FailureResult(row.failedCount >= cfg.For(key.scope).threshold, row.failedCount, row.lockedUntil)
      ensures rows == AfterFailure(cfg, old(rows), key, now) && result == FailureAnswer(cfg, old(rows), key, now)
    {
      var scope := cfg.For(key.scope);
      if scope.threshold == 0 {
        return FailureResult(false, 0, None);
      }
      rows := rows[key := Bumped(RowAt(rows, key), now)];
      var failedCount := rows[key].failedCount;
      var lockedUntil := rows[key].lockedUntil;
      var lockedNow := false;
      if failedCount >= scope.threshold {
        var over := failedCount - scope.threshold;
        var backoff := Min(scope.maxMs, scope.baseMs * Pow2(over));
        lockedUntil := Some(now + backoff);
        lockedNow := true;
        rows := rows[key := rows[key].(lockedUntil := lockedUntil)];
      }
      return FailureResult(lockedNow, failedCount, lockedUntil);
    }

    method RecordSuccess(key: Key)
      modifies this`rows
      ensures rows == old(rows) - {key}
    {
      rows := rows - {key};
    }

    method Unlock(key: Key) returns (cleared: bool)
      modifies this`rows
      ensures rows == old(rows) - {key} && cleared == (key in old(rows))
    {
      cleared := key in rows;
      rows := rows - {key};
    }

    method CountLocked(scope: Scope, now: int) returns (count: nat)
      ensures count == |LockedKeys(rows, scope, now)|
      ensures count == |set key | key in rows && key.scope == scope && rows[key].lockedUntil.Some? && now < rows[key].lockedUntil.value|
    {
      var locked := LockedKeys(rows, scope, now);
      assert locked == set key | key in rows && key.scope == scope && rows[key].lockedUntil.Some? && now < rows[key].lockedUntil.value;
      count := |locked|;
    }

    /** A row goes once its lock, or its last failure if it was never locked, is longer ago than the larger of the two longest locks. */
    method Prune(now: int)
      modifies this`rows
      ensures rows == Pruned(cfg, old(rows), now)
      ensures forall key :: key in rows ==> key in old(rows) && rows[key] == old(rows)[key]
      ensures forall key :: key in old(rows) ==>
                var last := match old(rows)[key].lockedUntil case Some(until) => until case None => old(rows)[key].lastFailedAt;
                key in rows <==> now - last <= cfg.admin.maxMs || now - last <= cfg.endUser.maxMs
    {
      rows := Pruned(cfg, rows, now);
    }
  }

  /** The escalation is remembered: after a sweep a failure within the horizon of the last lock counts on. */
  lemma PruneKeepsEscalation(cfg: Config, rows: Rows, now: int, key: Key, failedAt: int)
    requires key in rows && rows[key].lockedUntil.Some?
    requires now <= rows[key].lockedUntil.value + cfg.HorizonMs()
    ensures Failed(cfg.For(key.scope), RowAt(Pruned(cfg, rows, now), key), failedAt).failedCount == rows[key].failedCount + 1
  {
  }

  // ------------------------------------------------------------------ one account under attack

  /** One attempt: the check before the password, and the time the failure is recorded. */
  datatype Attempt = Attempt(checkedAt: int, failedAt: int)

  /** The account's row after the first k attempts, starting from no row. */
  function RowAfter(cfg: ScopeConfig, attempts: seq<Attempt>, k: nat): Option<Row>
    requires k <= |attempts|
  {
    if k == 0 then None else Some(Failed(cfg, RowAfter(cfg, attempts, k - 1), attempts[k - 1].failedAt))
  }

  predicate NotLocked(row: Option<Row>, now: int) {
    row.Some? && row.value.lockedUntil.Some? ==> row.value.lockedUntil.value <= now
  }

  /** The k-th attempt came after the one before it and was let through by its check. */
  predicate Passed(cfg: ScopeConfig, attempts: seq<Attempt>, k: nat)
    requires k < |attempts|
  {
    && attempts[k].checkedAt <= attempts[k].failedAt
    && (k > 0 ==> attempts[k - 1].failedAt <= attempts[k].checkedAt)
    && NotLocked(RowAfter(cfg, attempts, k), attempts[k].checkedAt)
  }

  ghost predicate AllPassed(cfg: ScopeConfig, attempts: seq<Attempt>) {
    forall k :: 0 <= k < |attempts| ==> Passed(cfg, attempts, k)
  }

  /** The first n locks together. */
  function TotalBackoff(cfg: ScopeConfig, n: nat): nat {
    if n == 0 then 0 else TotalBackoff(cfg, n - 1) + Backoff(cfg, n - 1)
  }

  lemma {:induction false} CountsAttempts(cfg: ScopeConfig, attempts: seq<Attempt>, k: nat)
    requires 1 <= k <= |attempts|
    ensures RowAfter(cfg, attempts, k).value.failedCount == k
    ensures RowAfter(cfg, attempts, k).value.lastFailedAt == attempts[k - 1].failedAt
    ensures k >= cfg.threshold ==>
              RowAfter(cfg, attempts, k).value.lockedUntil == Some(attempts[k - 1].failedAt + Backoff(cfg, k - cfg.threshold))
  {
    if k > 1 {
      CountsAttempts(cfg, attempts, k - 1);
    }
  }

  /** The m-th failure in a row comes at least the sum of the doubling locks after the threshold-th. */
  lemma {:induction false} FailuresAreSpaced(cfg: ScopeConfig, attempts: seq<Attempt>, m: nat)
    requires 1 <= cfg.threshold <= m <= |attempts| && AllPassed(cfg, attempts)
    ensures attempts[m - 1].failedAt - attempts[cfg.threshold - 1].failedAt >= TotalBackoff(cfg, m - cfg.threshold)
  {
    if m > cfg.threshold {
      FailuresAreSpaced(cfg, attempts, m - 1);
      CountsAttempts(cfg, attempts, m - 1);
      assert Passed(cfg, attempts, m - 1);
    }
  }

  // ------------------------------------------------------------------ sweeps over whole runs

  datatype Op =
    | FailOp(key: Key)
    | SuccessOp(key: Key)
    | UnlockOp(key: Key)
    | CheckOp(key: Key)
    | CountOp(scope: Scope)
    | PruneOp

  datatype Timed = Timed(op: Op, at: int)

  datatype Answer = Silent | Checked(check: LockCheck) | Counted(count: nat) | Cleared(found: bool) | FailedWith(result: FailureResult)

  /** The table after an operation; whether sweeps delete anything is a parameter. */
  function NextRows(cfg: Config, rows: Rows, e: Timed, sweeps: bool): Rows {
    match e.op
    case FailOp(key) => AfterFailure(cfg, rows, key, e.at)
    case SuccessOp(key) => rows - {key}
    case UnlockOp(key) => rows - {key}
    case PruneOp => if sweeps then Pruned(cfg, rows, e.at) else rows
    case _ => rows
  }

  function AnswerTo(cfg: Config, rows: Rows, e: Timed): Answer {
    match e.op
    case FailOp(key) => FailedWith(FailureAnswer(cfg, rows, key, e.at))
    case CheckOp(key) => Checked(CheckOf(cfg, rows, key, e.at))
    case CountOp(scope) => Counted(|LockedKeys(rows, scope, e.at)|)
    case UnlockOp(key) => Cleared(key in rows)
    case _ => Silent
  }

  function RowsAfter(cfg: Config, events: seq<Timed>, k: nat, sweeps: bool): Rows
    requires k <= |events|
  {
    if k == 0 then map[] else NextRows(cfg, RowsAfter(cfg, events, k - 1, sweeps), events[k - 1], sweeps)
  }

  ghost predicate InOrder(events: seq<Timed>) {
    forall i, j :: 0 <= i <= j < |events| ==> events[i].at <= events[j].at
  }

  /** A failure or an unlock, the operations that tell a row from no row. */
  predicate Asks(cfg: Config, op: Op, key: Key) {
    (op.FailOp? && op.key == key && cfg.For(key.scope).threshold != 0) || op == UnlockOp(key)
  }

  /** It hits an account whose row a sweep has deleted. */
  predicate HitsForgotten(cfg: Config, events: seq<Timed>, k: nat)
    requires k < |events|
  {
    exists key :: key in RowsAfter(cfg, events, k, false) && key !in RowsAfter(cfg, events, k, true) && Asks(cfg, events[k].op, key)
  }

  /** The swept table is the kept one without rows whose lock, if any, is over. */
  ghost predicate Forgets(swept: Rows, kept: Rows, now: int) {
    && (forall key :: key in swept ==> key in kept && swept[key] == kept[key])
    && (forall key :: key in kept ==> kept[key].failedCount >= 1)
    && (forall key :: key in kept && key !in swept ==> !LockedAt(kept, key, now))
  }

  /** The answers differ exactly when the operation asks for a row that was forgotten. */
  lemma SameAnswers(cfg: Config, swept: Rows, kept: Rows, e: Timed)
    requires Forgets(swept, kept, e.at)
    ensures (forall key :: key in kept && Asks(cfg, e.op, key) ==> key in swept) <==>
            AnswerTo(cfg, swept, e) == AnswerTo(cfg, kept, e)
  {
    if e.op.FailOp? || e.op.UnlockOp? {
      assert Asks(cfg, e.op, e.op.key) || (e.op.FailOp? && cfg.For(e.op.key.scope).threshold == 0);
    }
    if e.op.CountOp? {
      assert LockedKeys(swept, e.op.scope, e.at) == LockedKeys(kept, e.op.scope, e.at);
    }
  }

  lemma ForgetsStep(cfg: Config, swept: Rows, kept: Rows, e: Timed, later: int)
    requires Forgets(swept, kept, e.at) && e.at <= later
    requires forall key :: key in kept && Asks(cfg, e.op, key) ==> key in swept
    ensures Forgets(NextRows(cfg, swept, e, true), NextRows(cfg, kept, e, false), later)
  {
  }

  lemma {:induction false} SweptTableForgets(cfg: Config, events: seq<Timed>, k: nat)
    requires InOrder(events) && k < |events| && forall m :: 0 <= m < k ==> !HitsForgotten(cfg, events, m)
    ensures Forgets(RowsAfter(cfg, events, k, true), RowsAfter(cfg, events, k, false), events[k].at)
  {
    if k > 0 {
      SweptTableForgets(cfg, events, k - 1);
      assert !HitsForgotten(cfg, events, k - 1);
      ForgetsStep(cfg, RowsAfter(cfg, events, k - 1, true), RowsAfter(cfg, events, k - 1, false), events[k - 1], events[k].at);
    }
  }

  // ---- a recent failure is never forgotten ----

  /** Locks end no earlier than the failure that set them. */
  ghost predicate LocksCover(rows: Rows) {
    forall key :: key in rows && rows[key].lockedUntil.Some? ==> rows[key].lockedUntil.value >= rows[key].lastFailedAt
  }

  /** Every row that has a lock is at the threshold, so its next failure sets the lock anew. */
  ghost predicate LockedAreOver(cfg: Config, rows: Rows) {
    forall key :: key in rows && rows[key].lockedUntil.Some? ==> rows[key].failedCount >= cfg.For(key.scope).threshold
  }

  lemma {:induction false} LocksCoverAlways(cfg: Config, events: seq<Timed>, k: nat)
    requires k <= |events|
    ensures LocksCover(RowsAfter(cfg, events, k, true)) && LockedAreOver(cfg, RowsAfter(cfg, events, k, true))
  {
    if k > 0 {
      LocksCoverAlways(cfg, events, k - 1);
    }
  }

  /** A failure, a success or an unlock of the account. */
  predicate Touches(op: Op, key: Key) {
    (op.FailOp? || op.SuccessOp? || op.UnlockOp?) && op.key == key
  }

  /** Some longest lock still covers the time between. */
  predicate WithinHorizon(cfg: Config, from: int, now: int) {
    now - from <= cfg.admin.maxMs || now - from <= cfg.endUser.maxMs
  }

  lemma {:induction false} RecentRowStays(cfg: Config, events: seq<Timed>, i: nat, j: nat, key: Key)
    requires InOrder(events) && i < j <= |events| && events[i].op == FailOp(key) && cfg.For(key.scope).threshold != 0
    requires forall m :: i < m < j ==> !Touches(events[m].op, key)
    requires WithinHorizon(cfg, events[i].at, events[j - 1].at)
    ensures key in RowsAfter(cfg, events, j, true)
    ensures RowsAfter(cfg, events, j, true)[key] == RowsAfter(cfg, events, i + 1, true)[key]
    ensures RowsAfter(cfg, events, j, true)[key].lastFailedAt == events[i].at
    decreases j
  {
    if j > i + 1 {
      assert events[i].at <= events[j - 2].at <= events[j - 1].at;
      RecentRowStays(cfg, events, i, j - 1, key);
      LocksCoverAlways(cfg, events, j - 1);
    }
  }

  /**
   * Whatever sweeps, checks and failures of others come between: a failure that follows the account's last one within
   * the longest lock counts on from it, below the threshold and above.
   */
  lemma RecentFailureCountsOn(cfg: Config, events: seq<Timed>, i: nat, j: nat, key: Key)
    requires InOrder(events) && i < j < |events| && events[i].op == events[j].op == FailOp(key) && cfg.For(key.scope).threshold != 0
    requires forall m :: i < m < j ==> !Touches(events[m].op, key)
    requires WithinHorizon(cfg, events[i].at, events[j].at)
    ensures key in RowsAfter(cfg, events, i + 1, true) && key in RowsAfter(cfg, events, j + 1, true)
    ensures RowsAfter(cfg, events, j + 1, true)[key].failedCount == RowsAfter(cfg, events, i + 1, true)[key].failedCount + 1
  {
    assert events[j - 1].at <= events[j].at;
    RecentRowStays(cfg, events, i, j, key);
  }

  /** The event gets the same answer from the table that is swept and from one that never is. */
  ghost predicate AnsweredAlike(cfg: Config, events: seq<Timed>, k: nat)
    requires k < |events|
  {
    AnswerTo(cfg, RowsAfter(cfg, events, k, true), events[k]) == AnswerTo(cfg, RowsAfter(cfg, events, k, false), events[k])
  }

  lemma {:induction false} FirstForgotten(cfg: Config, events: seq<Timed>, m: nat) returns (first: nat)
    requires m < |events| && HitsForgotten(cfg, events, m)
    ensures first <= m && HitsForgotten(cfg, events, first) && forall k :: 0 <= k < first ==> !HitsForgotten(cfg, events, k)
  {
    if k :| 0 <= k < m && HitsForgotten(cfg, events, k) {
      first := FirstForgotten(cfg, events, k);
    } else {
      first := m;
    }
  }

  /**
   * Sweeps are never seen, in any answer of a whole run of failures, resets, checks, counts and
   * sweeps, if and only if no failure or unlock hits an account whose row a sweep has deleted.
   */
  lemma PruneIsUnobservableIff(cfg: Config, events: seq<Timed>)
    requires InOrder(events)
    ensures (forall k :: 0 <= k < |events| ==> AnsweredAlike(cfg, events, k)) <==>
            (forall k :: 0 <= k < |events| ==> !HitsForgotten(cfg, events, k))
  {
    if m :| 0 <= m < |events| && HitsForgotten(cfg, events, m) {
      var first := FirstForgotten(cfg, events, m);
      SweptTableForgets(cfg, events, first);
      SameAnswers(cfg, RowsAfter(cfg, events, first, true), RowsAfter(cfg, events, first, false), events[first]);
      assert !AnsweredAlike(cfg, events, first);
    } else {
      forall k | 0 <= k < |events| ensures AnsweredAlike(cfg, events, k) {
        SweptTableForgets(cfg, events, k);
        assert !HitsForgotten(cfg, events, k);
        SameAnswers(cfg, RowsAfter(cfg, events, k, true), RowsAfter(cfg, events, k, false), events[k]);
      }
    }
  }

  /** Until the first such operation, every answer is as without sweeps. */
  lemma AnswersAlikeUntilForgotten(cfg: Config, events: seq<Timed>, k: nat)
    requires InOrder(events) && k < |events| && forall m :: 0 <= m <= k ==> !HitsForgotten(cfg, events, m)
    ensures AnsweredAlike(cfg, events, k)
  {
    assert !HitsForgotten(cfg, events, k);
    SweptTableForgets(cfg, events, k);
    SameAnswers(cfg, RowsAfter(cfg, events, k, true), RowsAfter(cfg, events, k, false), events[k]);
  }

  /** It does happen: with a threshold of two, a sweep between two failures keeps the account unlocked. */
  lemma SweepCanForgive(cfg: Config, key: Key, now: nat)
    requires key.scope == EndUser && cfg.endUser.threshold == 2 && cfg.endUser.baseMs >= 1 && cfg.endUser.maxMs >= 1
    requires now == cfg.HorizonMs() + 1
    ensures var events := [Timed(FailOp(key), 0), Timed(PruneOp, now), Timed(FailOp(key), now), Timed(CheckOp(key), now)];
            && CheckOf(cfg, RowsAfter(cfg, events, 3, false), key, now).locked
            && !CheckOf(cfg, RowsAfter(cfg, events, 3, true), key, now).locked
  {
    var events := [Timed(FailOp(key), 0), Timed(PruneOp, now), Timed(FailOp(key), now), Timed(CheckOp(key), now)];
    assert RowsAfter(cfg, events, 1, true) == RowsAfter(cfg, events, 1, false) == map[key := Row(1, None, 0)];
    assert RowsAfter(cfg, events, 2, true) == map[] && RowsAfter(cfg, events, 2, false) == map[key := Row(1, None, 0)];
    assert RowsAfter(cfg, events, 3, true) == map[key := Row(1, None, now)];
    assert Pow2(0) == 1;
    assert RowsAfter(cfg, events, 3, false)[key].lockedUntil == Some(now + Backoff(cfg.endUser, 0));
  }

  // ------------------------------------------------------------------ racing failures

  /** The lock write of one failure: the count and the time it was computed from, and the row that was counted on. */
  datatype LockWrite = LockWrite(count: nat, at: int, generation: nat)

  function LockLength(cfg: ScopeConfig, write: LockWrite): nat {
    Backoff(cfg, if write.count >= cfg.threshold then write.count - cfg.threshold else 0)
  }

  function Until(cfg: ScopeConfig, write: LockWrite): int {
    write.at + LockLength(cfg, write)
  }

  /**
   * Failures of one account that interleave: each worker increments, and later writes the
   * lock that its own count asks for. Resets delete the row in between. For the record: the
   * failures since the row was last cleared, the lock write that landed last on this row, and
   * how many resets there were.
   */
  datatype RaceState =
    RaceState(row: Option<Row>, pending: map<nat, LockWrite>, bumps: nat, landed: Option<LockWrite>, generation: nat, clock: int)

  datatype RaceEvent =
    | BumpStep(w: nat, at: int)
    | LockStep(w: nat)
    | ClearStep

  predicate RaceEnabled(s: RaceState, e: RaceEvent) {
    match e
    case BumpStep(w, at) => w !in s.pending && s.clock <= at
    case LockStep(w) => w in s.pending
    case ClearStep => true
  }

  /** A lock write for a row that is gone fails and changes nothing. */
  function RaceNext(cfg: ScopeConfig, s: RaceState, e: RaceEvent): RaceState
    requires RaceEnabled(s, e)
  {
    match e
    case BumpStep(w, at) =>
      var row := Bumped(s.row, at);
      RaceState(Some(row),
                if row.failedCount >= cfg.threshold then s.pending[w := LockWrite(row.failedCount, at, s.generation)] else s.pending,
                s.bumps + 1, s.landed, s.generation, at)
    case LockStep(w) =>
      if s.row.None? then s.(pending := s.pending - {w})
      else
        s.(row := Some(s.row.value.(lockedUntil := Some(Until(cfg, s.pending[w])))),
           pending := s.pending - {w}, landed := Some(s.pending[w]))
    case ClearStep => s.(row := None, bumps := 0, landed := None, generation := s.generation + 1)
  }

  const RACE_START: RaceState := RaceState(None, map[], 0, None, 0, 0)

  ghost predicate IsRace(cfg: ScopeConfig, states: seq<RaceState>, events: seq<RaceEvent>) {
    && |states| == |events| + 1
    && states[0] == RACE_START
    && forall k :: 0 <= k < |events| ==> RaceEnabled(states[k], events[k]) && states[k + 1] == RaceNext(cfg, states[k], events[k])
  }

  /** A lock write is from a failure no later than the account's last, and its count reached the threshold. */
  predicate IsEarlierWrite(cfg: ScopeConfig, s: RaceState, write: LockWrite) {
    write.at <= s.clock && write.count >= cfg.threshold && (s.row.Some? ==> write.at <= s.row.value.lastFailedAt)
  }

  ghost predicate RaceInv(cfg: ScopeConfig, s: RaceState) {
    && s.bumps == (if s.row.Some? then s.row.value.failedCount else 0)
    && (s.row.Some? ==> s.row.value.lastFailedAt <= s.clock)
    && (s.row.None? ==> s.landed.None?)
    && (s.row.Some? ==> s.row.value.lockedUntil == if s.landed.Some? then Some(Until(cfg, s.landed.value)) else None)
    && (s.landed.Some? ==> IsEarlierWrite(cfg, s, s.landed.value))
    && (forall w :: w in s.pending ==> IsEarlierWrite(cfg, s, s.pending[w]))
  }

  lemma {:induction false} RaceReachable(cfg: ScopeConfig, states: seq<RaceState>, events: seq<RaceEvent>, k: nat)
    requires IsRace(cfg, states, events) && k <= |events|
    ensures RaceInv(cfg, states[k])
  {
    if k > 0 {
      RaceReachable(cfg, states, events, k - 1);
      RaceStepKeepsInv(cfg, states[k - 1], events[k - 1]);
    }
  }

  lemma RaceStepKeepsInv(cfg: ScopeConfig, s: RaceState, e: RaceEvent)
    requires RaceInv(cfg, s) && RaceEnabled(s, e)
    ensures RaceInv(cfg, RaceNext(cfg, s, e))
  {
  }

  /** A lock write ends its worker's part in any case; for a row that is gone it does nothing else. */
  lemma LockStepMeans(cfg: ScopeConfig, s: RaceState, w: nat)
    requires RaceEnabled(s, LockStep(w))
    ensures var t := RaceNext(cfg, s, LockStep(w));
            && t.pending == s.pending - {w} && t.bumps == s.bumps && t.clock == s.clock
            && (s.row.None? ==> t.row.None? && t.landed == s.landed)
            && (s.row.Some? ==>
                  && t.landed == Some(s.pending[w])
                  && t.row == Some(Row(s.row.value.failedCount, Some(Until(cfg, s.pending[w])), s.row.value.lastFailedAt)))
  {
  }

  /**
   * However failures and resets interleave: no failure is lost from the count, the lock is that
   * of the write which landed last on the row, and none ends later than maxMs after the last failure.
   */
  lemma RacingFailures(cfg: ScopeConfig, states: seq<RaceState>, events: seq<RaceEvent>, k: nat)
    requires IsRace(cfg, states, events) && k <= |events|
    ensures var s := states[k];
            && s.bumps == (if s.row.Some? then s.row.value.failedCount else 0)
            && (s.row.Some? ==> NotLocked(s.row, s.row.value.lastFailedAt + cfg.maxMs))
            && (s.row.Some? ==> s.row.value.lockedUntil == if s.landed.Some? then Some(Until(cfg, s.landed.value)) else None)
  {
    RaceReachable(cfg, states, events, k);
  }

  /** The lock that the account's count asks for. */
  function AskedFor(s: RaceState): LockWrite
    requires s.row.Some?
  {
    LockWrite(s.row.value.failedCount, s.row.value.lastFailedAt, s.generation)
  }

  /** A write from this row's counts: from one that the row has passed, or the one it asks for now. */
  predicate IsOwnWrite(s: RaceState, write: LockWrite) {
    write.generation == s.generation ==>
      s.row.Some? && write.count <= s.row.value.failedCount && (write.count == s.row.value.failedCount ==> write == AskedFor(s))
  }

  ghost predicate OwnInv(cfg: ScopeConfig, s: RaceState) {
    && RaceInv(cfg, s)
    && (forall w :: w in s.pending ==> s.pending[w].generation <= s.generation && IsOwnWrite(s, s.pending[w]))
    && (s.landed.Some? ==> s.landed.value.generation <= s.generation && IsOwnWrite(s, s.landed.value))
    && (s.row.Some? && s.row.value.failedCount >= cfg.threshold && s.pending == map[] ==> s.landed.Some?)
  }

  lemma {:induction false} OwnReachable(cfg: ScopeConfig, states: seq<RaceState>, events: seq<RaceEvent>, k: nat)
    requires IsRace(cfg, states, events) && k <= |events| && cfg.threshold >= 1
    ensures OwnInv(cfg, states[k])
  {
    if k > 0 {
      OwnReachable(cfg, states, events, k - 1);
      RaceStepKeepsInv(cfg, states[k - 1], events[k - 1]);
      var s, e := states[k - 1], events[k - 1];
      if e.BumpStep? && states[k].row.value.failedCount >= cfg.threshold {
        assert e.w in states[k].pending;
      }
    }
  }

  lemma ScaledDouble(base: nat, p: nat)
    ensures base * p <= base * (2 * p)
  {
    assert base * (2 * p) == base * p + base * p;
  }

  lemma {:induction false} BackoffGrows(cfg: ScopeConfig, m: nat, n: nat)
    requires m <= n
    ensures Backoff(cfg, m) <= Backoff(cfg, n)
  {
    if m < n {
      BackoffGrows(cfg, m, n - 1);
      ScaledDouble(cfg.baseMs, Pow2(n - 1));
      assert Pow2(n) == 2 * Pow2(n - 1);
    }
  }

  /**
   * Once no lock write is outstanding, in every run. Below the threshold the account has no lock, as it should,
   * if and only if no write from before a reset has landed on its row. From the threshold on some write has
   * landed. If it is the row's own, the lock is the one its count asks for if and only if it is the newest count's
   * write, or one of the same millisecond and the same length of lock. If it is from before a reset, it is so only
   * if the lengths make up for the difference in time.
   */
  lemma NewestLockIff(cfg: ScopeConfig, states: seq<RaceState>, events: seq<RaceEvent>, k: nat)
    requires IsRace(cfg, states, events) && k <= |events| && cfg.threshold >= 1
    requires states[k].row.Some? && states[k].pending == map[]
    ensures var s := states[k];
            var row := s.row.value;
            if row.failedCount < cfg.threshold then
              && (row.lockedUntil.None? <==> s.landed.None?)
              && (s.landed.Some? ==> s.landed.value.generation < s.generation)
            else
              && s.landed.Some?
              && var landed, asked := s.landed.value, AskedFor(s);
                 row.lockedUntil == Some(Until(cfg, asked)) <==>
                 if landed.generation == s.generation
                 then landed == asked || (landed.at == asked.at && LockLength(cfg, landed) == LockLength(cfg, asked))
                 else asked.at - landed.at == LockLength(cfg, landed) - LockLength(cfg, asked)
  {
    OwnReachable(cfg, states, events, k);
    var s := states[k];
    if s.row.value.failedCount >= cfg.threshold && s.landed.value.generation == s.generation {
      BackoffGrows(cfg, s.landed.value.count - cfg.threshold, s.row.value.failedCount - cfg.threshold);
    }
  }

  /** An older write that lands last shortens the lock: with every write settled, this account is not locked at its last failure. */
  lemma OlderLockCanLandLast(cfg: ScopeConfig)
    requires cfg == ScopeConfig(1, 1000, 100000)
    ensures exists states: seq<RaceState>, events: seq<RaceEvent> ::
              IsRace(cfg, states, events) && events == [BumpStep(0, 0), BumpStep(1, 1500), LockStep(1), LockStep(0)] &&
              states[4].pending == map[] && states[4].row == Some(Row(2, Some(1000), 1500)) && NotLocked(states[4].row, 1500)
  {
    assert Pow2(0) == 1 && Pow2(1) == 2;
    var s1 := RaceNext(cfg, RACE_START, BumpStep(0, 0));
    var s2 := RaceNext(cfg, s1, BumpStep(1, 1500));
    var s3 := RaceNext(cfg, s2, LockStep(1));
    var s4 := RaceNext(cfg, s3, LockStep(0));
    var states := [RACE_START, s1, s2, s3, s4];
    var events := [BumpStep(0, 0), BumpStep(1, 1500), LockStep(1), LockStep(0)];
    assert Until(cfg, LockWrite(1, 0, 0)) == 1000;
    assert s4.pending == map[];
    assert IsRace(cfg, states, events);
  }

  /** A write that outlives a reset lands on the next row: an account below the threshold can be locked. */
  lemma LockCanOutliveReset(cfg: ScopeConfig)
    requires cfg == ScopeConfig(2, 1000, 100000)
    ensures exists states: seq<RaceState>, events: seq<RaceEvent> ::
              IsRace(cfg, states, events) && events == [BumpStep(0, 0), BumpStep(1, 1), ClearStep, BumpStep(2, 2), LockStep(1)] &&
              states[5].pending == map[] && states[5].row == Some(Row(1, Some(1001), 2))
  {
    assert Pow2(0) == 1;
    var s1 := RaceNext(cfg, RACE_START, BumpStep(0, 0));
    var s2 := RaceNext(cfg, s1, BumpStep(1, 1));
    var s3 := RaceNext(cfg, s2, ClearStep);
    var s4 := RaceNext(cfg, s3, BumpStep(2, 2));
    var s5 := RaceNext(cfg, s4, LockStep(1));
    var states := [RACE_START, s1, s2, s3, s4, s5];
    var events := [BumpStep(0, 0), BumpStep(1, 1), ClearStep, BumpStep(2, 2), LockStep(1)];
    assert Until(cfg, LockWrite(2, 1, 0)) == 1001;
    assert s5.pending == map[];
    assert IsRace(cfg, states, events);
  }
}
