/**
 * Escalation per client address: enough trips within a window ban the address for a while.
 */
module IpBan {
  import opened Wrappers
  import opened RateLimiter
  import opened RateLimiterLaws

  /** A threshold of zero switches the layer off. */
  datatype Config = Config(threshold: nat, windowMs: int, banMs: nat)

  datatype BanCheck = BanCheck(banned: bool, retryAfterMs: int)

  datatype TripResult = TripResult(bannedNow: bool, count: nat, bannedUntil: Option<int>)

  /** Addresses with the time their ban ends. */
  type Bans = map<string, int>

  const NOT_BANNED := BanCheck(false, 0)
  const MAX_TRACKED_BANNED_IPS := 50000

  datatype State = State(trips: Limiter, bans: Bans)

  predicate BannedAt(bans: Bans, ip: string, now: int) {
    ip in bans && now < bans[ip]
  }

  function CheckFor(cfg: Config, bans: Bans, ip: string, now: int): BanCheck {
    if cfg.threshold != 0 && BannedAt(bans, ip, now) then BanCheck(true, bans[ip] - now) else NOT_BANNED
  }

  /** A check forgets the ban it finds expired, unless the layer is off. */
  function AfterCheck(cfg: Config, bans: Bans, ip: string, now: int): Bans {
    if cfg.threshold != 0 && ip in bans && bans[ip] <= now then bans - {ip} else bans
  }

  function SweptBans(bans: Bans, now: int): Bans {
    map ip | ip in bans && bans[ip] > now :: bans[ip]
  }

  function Trip(cfg: Config, s: State, ip: string, now: int): (State, TripResult) {
    if cfg.threshold == 0 then (s, TripResult(false, 0, None))
    else
      var (trips, answer) := Step(s.trips, Event(HitOp(ip, cfg.threshold), now), cfg.windowMs);
      var count := CountFor(trips.buckets, ip, cfg.windowMs, now);
      if !answer.Said? || !answer.verdict.limited then (State(trips, s.bans), TripResult(false, count, None))
      else
        var already := (if ip in s.bans then s.bans[ip] else 0) > now;
        var swept := if |s.bans| >= MAX_TRACKED_BANNED_IPS then SweptBans(s.bans, now) else s.bans;
        (State(trips, swept[ip := now + cfg.banMs]), TripResult(!already, count, Some(now + cfg.banMs)))
  }

  class IpBanService {
    const cfg: Config
    const trips: SlidingWindowRateLimiter
    var bans: Bans

    constructor (cfg: Config)
      ensures this.cfg == cfg && bans == map[] && fresh(trips) && Abstract() == State(Limiter(map[], 0), map[])
    {
      this.cfg := cfg;
      trips := new SlidingWindowRateLimiter();
      bans := map[];
    }

    ghost function Abstract(): State
      reads this, trips
    {
      State(Limiter(trips.buckets, trips.lastPruneMs), bans)
    }

    method Prune(now: int) returns (removed: nat)
      modifies this
      ensures bans == SweptBans(old(bans), now) && removed == |old(bans)| - |bans|
      ensures forall ip :: ip in bans <==> ip in old(bans) && old(bans)[ip] > now
      ensures forall ip :: ip in bans ==> bans[ip] == old(bans)[ip]
      ensures now >= 0 ==> Abstract() == NextState(cfg, old(Abstract()), Timed(SweepEvent, now))
    {
      removed := 0;
      var left := bans.Keys;
      while left != {}
        invariant left <= bans.Keys <= old(bans).Keys
        invariant removed == |old(bans)| - |bans|
        invariant forall ip :: ip in bans ==> bans[ip] == old(bans)[ip]
        invariant forall ip :: ip in old(bans) && ip !in left ==> (ip in bans <==> old(bans)[ip] > now)
        decreases left
      {
        var ip :| ip in left;
        left := left - {ip};
        if bans[ip] <= now {
          assert (bans - {ip}).Keys == bans.Keys - {ip};
          bans := bans - {ip};
          removed := removed + 1;
        }
      }
    }

    method Check(ip: string, now: int) returns (check: BanCheck)
      modifies this
      ensures check == CheckFor(cfg, old(bans), ip, now) && bans == AfterCheck(cfg, old(bans), ip, now)
      ensures check.banned <==> cfg.threshold != 0 && ip in old(bans) && now < old(bans)[ip]
      ensures check.retryAfterMs == if check.banned then old(bans)[ip] - now else 0
      ensures now >= 0 ==> Abstract() == NextState(cfg, old(Abstract()), Timed(CheckEvent(ip), now))
    {
      if cfg.threshold == 0 {
        return NOT_BANNED;
      }
      if ip !in bans {
        return NOT_BANNED;
      }
      var remaining := bans[ip] - now;
      if remaining > 0 {
        return BanCheck(true, remaining);
      }
      bans := bans - {ip};
      return NOT_BANNED;
    }

    method RecordTrip(ip: string, now: int) returns (result: TripResult)
      modifies this, trips
      ensures (Abstract(), result) == Trip(cfg, old(Abstract()), ip, now)
      ensures now >= 0 ==> Abstract() == NextState(cfg, old(Abstract()), Timed(TripEvent(ip), now))
    {
      if cfg.threshold == 0 {
        return TripResult(false, 0, None);
      }
      var verdict := trips.Hit(ip, cfg.threshold, cfg.windowMs, now);
      var count := trips.CurrentCount(ip, cfg.windowMs, now);
      if !verdict.limited {
        return TripResult(false, count, None);
      }
      var alreadyBanned := (if ip in bans then bans[ip] else 0) > now;
      if |bans| >= MAX_TRACKED_BANNED_IPS {
        var _ := Prune(now);
      }
      var bannedUntil := now + cfg.banMs;
      bans := bans[ip := bannedUntil];
      return TripResult(!alreadyBanned, count, Some(bannedUntil));
    }
  }

  /** The trip being recorded is always inside its window. */
  lemma RecordedIsLive(l: Limiter, ip: string, windowMs: int, now: int)
    requires windowMs >= 1
    ensures var recorded := Record(l, ip, windowMs, now).buckets;
            ip in recorded && !Expired(recorded[ip], windowMs, now) && Dropped(recorded, ip, windowMs, now) == recorded
  {
  }

  /** A ban is announced exactly when the trips reach the threshold and no ban is running. */
  lemma AnnouncedExactlyOnTransition(cfg: Config, s: State, ip: string, now: int)
    requires 0 <= now && cfg.windowMs >= 1
    ensures Trip(cfg, s, ip, now).1.bannedNow <==>
              && cfg.threshold >= 1
              && Trip(cfg, s, ip, now).1.count >= cfg.threshold
              && !CheckFor(cfg, s.bans, ip, now).banned
  {
    RecordedIsLive(s.trips, ip, cfg.windowMs, now);
  }

  // ------------------------------------------------------------------ runs

  datatype BanEvent =
    | TripEvent(ip: string)
    | CheckEvent(ip: string)
    | SweepEvent

  datatype Timed = Timed(event: BanEvent, at: nat)

  function NextState(cfg: Config, s: State, e: Timed): State {
    match e.event
    case TripEvent(ip) => Trip(cfg, s, ip, e.at).0
    case CheckEvent(ip) => s.(bans := AfterCheck(cfg, s.bans, ip, e.at))
    case SweepEvent => s.(bans := SweptBans(s.bans, e.at))
  }

  function StateAfter(cfg: Config, events: seq<Timed>, k: nat): State
    requires k <= |events|
  {
    if k == 0 then State(Limiter(map[], 0), map[])
    else NextState(cfg, StateAfter(cfg, events, k - 1), events[k - 1])
  }

  ghost predicate InOrder(events: seq<Timed>) {
    forall i, j :: 0 <= i <= j < |events| ==> events[i].at <= events[j].at
  }

  /** Event i is a trip of ip that announces a ban. */
  predicate Announces(cfg: Config, events: seq<Timed>, i: nat, ip: string)
    requires i < |events|
  {
    events[i].event == TripEvent(ip) && Trip(cfg, StateAfter(cfg, events, i), ip, events[i].at).1.bannedNow
  }

  lemma StepKeepsBan(cfg: Config, s: State, e: Timed, ip: string, until: int)
    requires ip in s.bans && s.bans[ip] >= until
    requires e.at < until <= e.at + cfg.banMs
    ensures var t := NextState(cfg, s, e);
            ip in t.bans && t.bans[ip] >= until
  {
  }

  lemma AnnouncedBan(cfg: Config, events: seq<Timed>, i: nat, ip: string)
    requires i < |events| && Announces(cfg, events, i, ip)
    ensures var bans := StateAfter(cfg, events, i + 1).bans; ip in bans && bans[ip] >= events[i].at + cfg.banMs
  {
  }

  /** A ban, once set, outlasts every event before its end that would set no shorter one. */
  lemma {:induction false} BanStays(cfg: Config, states: seq<State>, events: seq<Timed>, i: nat, j: nat, ip: string, until: int)
    requires |states| == |events| + 1 && i <= j <= |events|
    requires forall k :: 0 <= k < |events| ==> states[k + 1] == NextState(cfg, states[k], events[k])
    requires ip in states[i].bans && states[i].bans[ip] >= until
    requires forall k :: i <= k < j ==> events[k].at < until <= events[k].at + cfg.banMs
    ensures ip in states[j].bans && states[j].bans[ip] >= until
    decreases j
  {
    if j > i {
      BanStays(cfg, states, events, i, j - 1, ip, until);
      StepKeepsBan(cfg, states[j - 1], events[j - 1], ip, until);
    }
  }

  lemma RunKeepsBan(cfg: Config, events: seq<Timed>, i: nat, j: nat, ip: string, until: int)
    requires i <= j <= |events|
    requires ip in StateAfter(cfg, events, i).bans && StateAfter(cfg, events, i).bans[ip] >= until
    requires forall k :: i <= k < j ==> events[k].at < until <= events[k].at + cfg.banMs
    ensures ip in StateAfter(cfg, events, j).bans && StateAfter(cfg, events, j).bans[ip] >= until
  {
    var states := StatesOf(cfg, events, i, j);
    BanStays(cfg, states, events, i, j, ip, until);
  }

  /** The states of a run as a sequence. */
  lemma StatesOf(cfg: Config, events: seq<Timed>, i: nat, j: nat) returns (states: seq<State>)
    requires i <= |events| && j <= |events|
    ensures |states| == |events| + 1 && states[i] == StateAfter(cfg, events, i) && states[j] == StateAfter(cfg, events, j)
    ensures forall k :: 0 <= k < |events| ==> states[k + 1] == NextState(cfg, states[k], events[k])
  {
    states := seq(|events| + 1, k requires 0 <= k <= |events| => StateAfter(cfg, events, k));
    forall k | 0 <= k < |events| ensures states[k + 1] == NextState(cfg, states[k], events[k]) {
      assert states[k + 1] == StateAfter(cfg, events, k + 1);
    }
  }

  /** From an announcement on, every check says banned until the ban time has passed. */
  lemma BanHolds(cfg: Config, events: seq<Timed>, i: nat, j: nat, ip: string, now: int)
    requires InOrder(events) && i < j <= |events| && Announces(cfg, events, i, ip)
    requires events[j - 1].at <= now < events[i].at + cfg.banMs
    ensures CheckFor(cfg, StateAfter(cfg, events, j).bans, ip, now).banned
  {
    AnnouncedBan(cfg, events, i, ip);
    RunKeepsBan(cfg, events, i + 1, j, ip, events[i].at + cfg.banMs);
    BansMeanEnabled(cfg, events, i, ip);
  }

  /** An announcement needs a positive threshold, which is what turns the checks on. */
  lemma BansMeanEnabled(cfg: Config, events: seq<Timed>, i: nat, ip: string)
    requires i < |events| && Announces(cfg, events, i, ip)
    ensures cfg.threshold >= 1
  {
  }

  /** However hard an address is tried, its announcements are at least one ban time apart. */
  lemma AnnouncementsAreSpaced(cfg: Config, events: seq<Timed>, i: nat, j: nat, ip: string)
    requires InOrder(events) && i < j < |events|
    requires Announces(cfg, events, i, ip) && Announces(cfg, events, j, ip)
    ensures events[j].at >= events[i].at + cfg.banMs
  {
    if events[j].at < events[i].at + cfg.banMs {
      BanHolds(cfg, events, i, j, ip, events[j].at);
    }
  }

  // ------------------------------------------------------------------ a service that never forgets a ban

  /** A trip that never sweeps. */
  function KeepingTrip(cfg: Config, s: State, ip: string, now: int): (State, TripResult) {
    if cfg.threshold == 0 then (s, TripResult(false, 0, None))
    else
      var (trips, answer) := Step(s.trips, Event(HitOp(ip, cfg.threshold), now), cfg.windowMs);
      var count := CountFor(trips.buckets, ip, cfg.windowMs, now);
      if !answer.Said? || !answer.verdict.limited then (State(trips, s.bans), TripResult(false, count, None))
      else
        var running := BannedAt(s.bans, ip, now);
        (State(trips, s.bans[ip := now + cfg.banMs]), TripResult(!running, count, Some(now + cfg.banMs)))
  }

  function KeepingNext(cfg: Config, s: State, e: Timed): State {
    match e.event
    case TripEvent(ip) => KeepingTrip(cfg, s, ip, e.at).0
    case _ => s
  }

  function KeepingAfter(cfg: Config, events: seq<Timed>, k: nat): State
    requires k <= |events|
  {
    if k == 0 then State(Limiter(map[], 0), map[]) else KeepingNext(cfg, KeepingAfter(cfg, events, k - 1), events[k - 1])
  }

  datatype Reply = NoReply | Tripped(result: TripResult) | Checked(check: BanCheck)

  function ReplyTo(cfg: Config, s: State, e: Timed): Reply {
    match e.event
    case TripEvent(ip) => Tripped(Trip(cfg, s, ip, e.at).1)
    case CheckEvent(ip) => Checked(CheckFor(cfg, s.bans, ip, e.at))
    case SweepEvent => NoReply
  }

  function KeepingReplyTo(cfg: Config, s: State, e: Timed): Reply {
    match e.event
    case TripEvent(ip) => Tripped(KeepingTrip(cfg, s, ip, e.at).1)
    case CheckEvent(ip) => Checked(CheckFor(cfg, s.bans, ip, e.at))
    case SweepEvent => NoReply
  }

  /** The ban that still runs, if any. */
  function LiveBan(bans: Bans, ip: string, now: int): Option<int> {
    if BannedAt(bans, ip, now) then Some(bans[ip]) else None
  }

  /** The same trips, and the same running bans. */
  ghost predicate Alike(a: State, b: State, now: int) {
    a.trips == b.trips && forall ip :: LiveBan(a.bans, ip, now) == LiveBan(b.bans, ip, now)
  }

  lemma AlikeLater(a: State, b: State, now: int, later: int)
    requires Alike(a, b, now) && now <= later
    ensures Alike(a, b, later)
  {
    forall ip ensures LiveBan(a.bans, ip, later) == LiveBan(b.bans, ip, later) {
      assert LiveBan(a.bans, ip, now) == LiveBan(b.bans, ip, now);
    }
  }

  /** A sweep, and the forgetting of a check, leave every running ban. */
  lemma SweepKeepsLive(cfg: Config, bans: Bans, now: int, ip: string, checked: string)
    ensures LiveBan(SweptBans(bans, now), ip, now) == LiveBan(bans, ip, now)
    ensures LiveBan(AfterCheck(cfg, bans, checked, now), ip, now) == LiveBan(bans, ip, now)
  {
  }

  lemma TripsAlike(cfg: Config, a: State, b: State, ip: string, now: nat)
    requires Alike(a, b, now)
    ensures Alike(Trip(cfg, a, ip, now).0, KeepingTrip(cfg, b, ip, now).0, now)
    ensures Trip(cfg, a, ip, now).1 == KeepingTrip(cfg, b, ip, now).1
  {
    var (t, u) := (Trip(cfg, a, ip, now).0, KeepingTrip(cfg, b, ip, now).0);
    assert LiveBan(a.bans, ip, now) == LiveBan(b.bans, ip, now);
    forall other ensures LiveBan(t.bans, other, now) == LiveBan(u.bans, other, now) {
      assert LiveBan(a.bans, other, now) == LiveBan(b.bans, other, now);
      SweepKeepsLive(cfg, a.bans, now, other, other);
    }
  }

  lemma StepsAlike(cfg: Config, a: State, b: State, e: Timed)
    requires Alike(a, b, e.at)
    ensures Alike(NextState(cfg, a, e), KeepingNext(cfg, b, e), e.at) && ReplyTo(cfg, a, e) == KeepingReplyTo(cfg, b, e)
  {
    match e.event
    case TripEvent(ip) => TripsAlike(cfg, a, b, ip, e.at);
    case CheckEvent(checked) =>
      assert LiveBan(a.bans, checked, e.at) == LiveBan(b.bans, checked, e.at);
      forall ip ensures LiveBan(AfterCheck(cfg, a.bans, checked, e.at), ip, e.at) == LiveBan(b.bans, ip, e.at) {
        SweepKeepsLive(cfg, a.bans, e.at, ip, checked);
        assert LiveBan(a.bans, ip, e.at) == LiveBan(b.bans, ip, e.at);
      }
    case SweepEvent =>
      forall ip ensures LiveBan(SweptBans(a.bans, e.at), ip, e.at) == LiveBan(b.bans, ip, e.at) {
        SweepKeepsLive(cfg, a.bans, e.at, ip, ip);
        assert LiveBan(a.bans, ip, e.at) == LiveBan(b.bans, ip, e.at);
      }
  }

  /** In every run of trips, checks and sweeps each answer is that of a service which never deletes a ban. */
  lemma {:induction false} SweepIsUnobservable(cfg: Config, events: seq<Timed>, k: nat)
    requires InOrder(events) && k < |events|
    ensures Alike(StateAfter(cfg, events, k), KeepingAfter(cfg, events, k), events[k].at)
    ensures ReplyTo(cfg, StateAfter(cfg, events, k), events[k]) == KeepingReplyTo(cfg, KeepingAfter(cfg, events, k), events[k])
  {
    if k > 0 {
      SweepIsUnobservable(cfg, events, k - 1);
      StepsAlike(cfg, StateAfter(cfg, events, k - 1), KeepingAfter(cfg, events, k - 1), events[k - 1]);
      AlikeLater(StateAfter(cfg, events, k), KeepingAfter(cfg, events, k), events[k - 1].at, events[k].at);
    }
    StepsAlike(cfg, StateAfter(cfg, events, k), KeepingAfter(cfg, events, k), events[k]);
  }
}
