/**
 * The back-channel logout delivery queue: its rows and the single database statements
 * issued against it. Every function below is one atomic statement of the service.
 */
module LogoutQueue {
  import opened Wrappers
  import opened Arithmetic

  type RowId = nat
  type RequestId = nat

  datatype Status =
    | Pending
    | InFlight
    | Succeeded
    | Partial
    | Failed
    | GivenUp
    | SkippedNoEndpoint

  datatype Row = Row(
    ssoSession: nat,
    sp: nat,
    status: Status,
    attempts: nat,
    requestId: Option<RequestId>,
    nextRetryAt: Option<int>,
    updatedAt: int)

  type Db = map<RowId, Row>

  datatype ConfigValues = ConfigValues(
    maxRetries: nat,
    retryBaseMs: nat,
    retryMaxMs: nat,
    concurrency: nat,
    maxInFlight: nat,
    retentionMs: nat)

  /** The bounds that the configuration reader enforces on the environment values. */
  type Config = c: ConfigValues |
      && 1 <= c.retryBaseMs
      && 1 <= c.retryMaxMs
      && 1 <= c.concurrency
      && 1 <= c.maxInFlight
    witness ConfigValues(5, 30000, 3600000, 5, 20, 604800000)

  /** A row the workers may still claim. */
  predicate Open(row: Row) {
    row.status == Pending || row.status == Failed
  }

  predicate Resendable(row: Row) {
    row.status == Failed || row.status == GivenUp || row.status == Partial
  }

  predicate Prunable(row: Row, cutoff: int) {
    && (row.status == Succeeded || row.status == GivenUp
        || row.status == SkippedNoEndpoint || row.status == Partial)
    && row.updatedAt < cutoff
  }

  predicate Due(row: Row, now: int) {
    Open(row) && row.nextRetryAt.Some? && row.nextRetryAt.value <= now
  }

  predicate HasRow(db: Db, ssoSession: nat, sp: nat) {
    exists id :: id in db && db[id].ssoSession == ssoSession && db[id].sp == sp
  }

  function NewRow(ssoSession: nat, sp: nat, hasEndpoint: bool, requestId: RequestId, now: int): Row {
    if hasEndpoint
    then Row(ssoSession, sp, Pending, 0, Some(requestId), Some(now), now)
    else Row(ssoSession, sp, SkippedNoEndpoint, 0, None, None, now)
  }

  /** With an endpoint a row is due from its creation on, without one it never is. */
  lemma NewRowIsDueIff(ssoSession: nat, sp: nat, hasEndpoint: bool, requestId: RequestId, now: int, later: int)
    ensures Due(NewRow(ssoSession, sp, hasEndpoint, requestId, now), later) <==> hasEndpoint && now <= later
  {
  }

  /** Upsert keyed by session and SP; the update half is empty, so an existing row is left alone. */
  function Enqueue(db: Db, id: RowId, ssoSession: nat, sp: nat, hasEndpoint: bool,
                   requestId: RequestId, now: int): Db {
    if HasRow(db, ssoSession, sp) then db
    else db[id := NewRow(ssoSession, sp, hasEndpoint, requestId, now)]
  }

  /** A second fan-out of the same session to the same SP, whenever it comes, adds nothing. */
  lemma EnqueueTwiceIsOnce(db: Db, first: RowId, second: RowId, ssoSession: nat, sp: nat, hasEndpoint: bool,
                           id: RequestId, otherId: RequestId, now: int, later: int)
    ensures var once := Enqueue(db, first, ssoSession, sp, hasEndpoint, id, now);
            Enqueue(once, second, ssoSession, sp, hasEndpoint, otherId, later) == once
  {
    var once := Enqueue(db, first, ssoSession, sp, hasEndpoint, id, now);
    if !HasRow(db, ssoSession, sp) {
      assert once[first].ssoSession == ssoSession && once[first].sp == sp;
    }
  }

  predicate Claimable(db: Db, id: RowId) {
    id in db && Open(db[id])
  }

  /** The conditional update that hands a row to one worker. */
  function Claim(db: Db, id: RowId, now: int): Db {
    if Claimable(db, id) then db[id := db[id].(status := InFlight, updatedAt := now)] else db
  }

  function Resolve(db: Db, id: RowId, attempts: nat, requestId: RequestId, partial: bool, now: int): Db
    requires id in db
  {
    db[id := db[id].(status := if partial then Partial else Succeeded,
                     attempts := attempts,
                     requestId := Some(requestId),
                     nextRetryAt := None,
                     updatedAt := now)]
  }

  function Backoff(cfg: Config, attempts: nat): nat
    requires 1 <= attempts
  {
    Min(cfg.retryMaxMs, cfg.retryBaseMs * Pow2(attempts - 1))
  }

  /** JavaScript's Math.round: halves go up. */
  function Round(x: real): int {
    (x + 0.5).Floor
  }

  function Jittered(backoff: nat, random: real): int {
    Round(backoff as real / 2.0 + random * (backoff as real / 2.0))
  }

  /** The id a delivery carries: the stored one, or a fresh one if none was stored. */
  function SentId(stored: Option<RequestId>, spare: RequestId): RequestId {
    if stored.Some? then stored.value else spare
  }

  /** The id a failure writes back: an undefined value leaves the column as it is. */
  function WrittenId(row: Row, requestId: Option<RequestId>): Option<RequestId> {
    if requestId.Some? then requestId else row.requestId
  }

  function Fail(cfg: Config, db: Db, id: RowId, attempts: nat, requestId: Option<RequestId>,
                random: real, now: int): Db
    requires id in db && 1 <= attempts
  {
    if attempts > cfg.maxRetries then
      db[id := db[id].(status := GivenUp, attempts := attempts, nextRetryAt := None,
                       requestId := WrittenId(db[id], requestId), updatedAt := now)]
    else
      db[id := db[id].(status := Failed, attempts := attempts,
                       requestId := WrittenId(db[id], requestId),
                       nextRetryAt := Some(now + Jittered(Backoff(cfg, attempts), random)),
                       updatedAt := now)]
  }

  function ResentRow(row: Row, ssoSession: nat, sp: nat, now: int): Row {
    if row.ssoSession == ssoSession && row.sp == sp && Resendable(row)
    then row.(status := Pending, attempts := 0, nextRetryAt := Some(now), updatedAt := now)
    else row
  }

  function Resend(db: Db, ssoSession: nat, sp: nat, now: int): Db {
    map id | id in db :: ResentRow(db[id], ssoSession, sp, now)
  }

  function Prune(cfg: Config, db: Db, now: int): Db {
    map id | id in db && !Prunable(db[id], now - cfg.retentionMs) :: db[id]
  }

  /** What status, attempt count, request id and retry time say about each other. */
  ghost predicate RowOk(cfg: Config, row: Row) {
    match row.status
    case Pending => row.attempts == 0 && row.requestId.Some? && row.nextRetryAt.Some?
    case InFlight => row.attempts <= cfg.maxRetries && row.requestId.Some?
    case Succeeded => 1 <= row.attempts <= cfg.maxRetries + 1 && row.requestId.Some?
    case Partial => 1 <= row.attempts <= cfg.maxRetries + 1 && row.requestId.Some?
    case Failed =>
      && 1 <= row.attempts <= cfg.maxRetries
      && row.requestId.Some?
      && row.nextRetryAt.Some?
      && var delay := row.nextRetryAt.value - row.updatedAt;
         Backoff(cfg, row.attempts) <= 2 * delay && delay <= Backoff(cfg, row.attempts)
    case GivenUp => row.attempts == cfg.maxRetries + 1 && row.requestId.Some?
    case SkippedNoEndpoint => row.attempts == 0 && row.requestId.None?
  }

  ghost predicate DbOk(cfg: Config, db: Db) {
    && (forall id :: id in db ==> RowOk(cfg, db[id]))
    && (forall i, j :: i in db && j in db && db[i].ssoSession == db[j].ssoSession && db[i].sp == db[j].sp
                       ==> i == j)
  }

  /** Random numbers as Math.random returns them. */
  predicate UnitInterval(random: real) {
    0.0 <= random < 1.0
  }

  /** The jittered delay lies between half and all of the backoff, rounding included. */
  lemma JitterBounds(backoff: nat, random: real)
    requires UnitInterval(random)
    ensures backoff <= 2 * Jittered(backoff, random)
    ensures Jittered(backoff, random) <= backoff
  {
    var half := backoff as real / 2.0;
    assert 0.0 <= random * half <= half;
    var x := half + random * half + 0.5;
    assert half + 0.5 <= x <= backoff as real + 0.5;
  }

  /** The delay is the whole number nearest to the backoff times a factor that the random number spreads over a half to one. */
  lemma JitterIsNearest(backoff: nat, random: real)
    requires UnitInterval(random)
    ensures -0.5 < Jittered(backoff, random) as real - backoff as real * (1.0 + random) / 2.0 <= 0.5
  {
    var half := backoff as real / 2.0;
    assert half + random * half == backoff as real * (1.0 + random) / 2.0;
  }

  /** The first wait is the base, each further one twice the one before, none longer than the cap. */
  lemma BackoffDoubles(cfg: Config, attempts: nat)
    requires 1 <= attempts
    ensures Backoff(cfg, 1) == if cfg.retryBaseMs <= cfg.retryMaxMs then cfg.retryBaseMs else cfg.retryMaxMs
    ensures var twice := 2 * Backoff(cfg, attempts);
            Backoff(cfg, attempts + 1) == if twice <= cfg.retryMaxMs then twice else cfg.retryMaxMs
  {
    assert Pow2(0) == 1 && Pow2(attempts) == 2 * Pow2(attempts - 1);
    var wait := cfg.retryBaseMs * Pow2(attempts - 1);
    assert cfg.retryBaseMs * Pow2(attempts) == 2 * wait;
  }
}
