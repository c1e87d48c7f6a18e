/** The pre-password checks of the login and SSO endpoints, over one shared limiter. */
module LoginProtection {
  import opened Wrappers
  import opened RateLimiter
  import opened RateLimiterLaws
  import opened AccountLockout
  import IpBan

  datatype BlockReason = IpBanned | IpThrottle | UsernameThrottle | Lockout

  datatype Precheck = Allowed | Blocked(reason: BlockReason, retryAfterMs: int)

  datatype Limits = Limits(ipMax: nat, ipWindowMs: int, usernameMax: nat, usernameWindowMs: int)

  datatype Config = Config(trusted: string -> bool, admin: Limits, endUser: Limits, ssoIpMax: nat, ssoWindowMs: int) {
    function For(scope: Scope): Limits {
      if scope == Admin then admin else endUser
    }
  }

  function IpKey(scope: Scope, ip: string): string {
    (if scope == Admin then "ip:admin:" else "ip:end_user:") + ip
  }

  function UsernameKey(scope: Scope, username: string): string {
    (if scope == Admin then "un:admin:" else "un:end_user:") + username
  }

  function SsoKey(ip: string): string {
    "ip:sso:" + ip
  }

  /** Addresses, usernames and the two scopes never share a counter, and neither do the login and the SSO endpoint. */
  lemma KeysAreDistinct(scope: Scope, other: Scope, a: string, b: string)
    ensures IpKey(scope, a) == IpKey(other, b) <==> scope == other && a == b
    ensures UsernameKey(scope, a) == UsernameKey(other, b) <==> scope == other && a == b
    ensures SsoKey(a) == SsoKey(b) <==> a == b
    ensures IpKey(scope, a) != UsernameKey(other, b) && IpKey(scope, a) != SsoKey(b) && UsernameKey(scope, a) != SsoKey(b)
  {
    PrefixesTell("ip:admin:", "ip:end_user:", 3, a, b);
    PrefixesTell("ip:admin:", "ip:sso:", 3, a, b);
    PrefixesTell("ip:end_user:", "ip:sso:", 3, a, b);
    PrefixesTell("ip:end_user:", "ip:admin:", 3, a, b);
    PrefixesTell("un:admin:", "un:end_user:", 3, a, b);
    PrefixesTell("un:end_user:", "un:admin:", 3, a, b);
    SamePrefix("ip:admin:", a, b);
    SamePrefix("ip:end_user:", a, b);
    SamePrefix("un:admin:", a, b);
    SamePrefix("un:end_user:", a, b);
    SamePrefix("ip:sso:", a, b);
    assert IpKey(scope, a)[0] == 'i' && UsernameKey(other, b)[0] == 'u' && SsoKey(b)[0] == 'i' && UsernameKey(scope, a)[0] == 'u';
  }

  /** What each scope counts under, and the limits it counts against. */
  lemma ByScope(cfg: Config, text: string)
    ensures IpKey(Admin, text) == "ip:admin:" + text && IpKey(EndUser, text) == "ip:end_user:" + text && SsoKey(text) == "ip:sso:" + text
    ensures UsernameKey(Admin, text) == "un:admin:" + text && UsernameKey(EndUser, text) == "un:end_user:" + text
    ensures cfg.For(Admin) == cfg.admin && cfg.For(EndUser) == cfg.endUser
  {
  }

  lemma PrefixesTell(p: string, q: string, k: nat, a: string, b: string)
    requires k < |p| && k < |q| && p[k] != q[k]
    ensures p + a != q + b
  {
    assert (p + a)[k] == p[k] && (q + b)[k] == q[k];
  }

  lemma SamePrefix(p: string, a: string, b: string)
    ensures p + a == p + b <==> a == b
  {
    assert (p + a)[|p|..] == a && (p + b)[|p|..] == b;
  }

  /** The ban state after a precheck: every throttled or locked-out request of an untrusted address is a trip. */
  function BansAfter(cfg: IpBan.Config, before: IpBan.State, result: Precheck, ip: string, now: int): IpBan.State {
    var checked := before.(bans := IpBan.AfterCheck(cfg, before.bans, ip, now));
    if result.Blocked? && result.reason != IpBanned then IpBan.Trip(cfg, checked, ip, now).0 else checked
  }

  /** Between two states of the throttle, no window of at most the given length that still runs has changed. */
  ghost predicate KeepsLive(before: Buckets, after: Buckets, limits: Limits, now: int) {
    forall key, windowMs :: windowMs <= limits.ipWindowMs && windowMs <= limits.usernameWindowMs ==>
      LiveBucket(after, key, windowMs, now) == LiveBucket(before, key, windowMs, now)
  }

  /** A read for the address or the username drops nothing that still runs. */
  lemma DropKeepsLive(before: Buckets, between: Buckets, key: string, windowMs: int, limits: Limits, now: int)
    requires KeepsLive(before, between, limits, now) && windowMs in {limits.ipWindowMs, limits.usernameWindowMs}
    ensures KeepsLive(before, Dropped(between, key, windowMs, now), limits, now)
  {
    var after := Dropped(between, key, windowMs, now);
    forall other, length | length <= limits.ipWindowMs && length <= limits.usernameWindowMs
      ensures LiveBucket(after, other, length, now) == LiveBucket(before, other, length, now)
    {
      assert LiveBucket(between, other, length, now) == LiveBucket(before, other, length, now);
    }
  }

  class LoginProtectionService {
    const cfg: Config
    const throttle: SlidingWindowRateLimiter
    const ipBan: IpBan.IpBanService
    const lockout: AccountLockoutService

    constructor (cfg: Config, ipBan: IpBan.IpBanService, lockout: AccountLockoutService)
      ensures this.cfg == cfg && this.ipBan == ipBan && this.lockout == lockout && fresh(throttle) && Valid()
    {
      this.cfg := cfg;
      this.ipBan := ipBan;
      this.lockout := lockout;
      throttle := new SlidingWindowRateLimiter();
    }

    ghost predicate Valid() {
      throttle != ipBan.trips
    }

    ghost function Throttle(): Limiter
      reads throttle
    {
      Limiter(throttle.buckets, throttle.lastPruneMs)
    }

    /** The address-only check of the SSO endpoint: what it lets through, it counts. */
    method PrecheckSso(ip: string, now: int) returns (result: Precheck)
      requires Valid()
      modifies throttle, ipBan, ipBan.trips
      ensures cfg.trusted(ip) ==> result == Allowed && Throttle() == old(Throttle()) && ipBan.Abstract() == old(ipBan.Abstract())
      ensures !cfg.trusted(ip) && old(IpBan.CheckFor(ipBan.cfg, ipBan.bans, ip, now)).banned ==>
                result.Blocked? && result.reason == IpBanned && Throttle() == old(Throttle())
      ensures !cfg.trusted(ip) && !old(IpBan.CheckFor(ipBan.cfg, ipBan.bans, ip, now)).banned ==>
                var (limiter, answer) := Step(old(Throttle()), Event(AdmitOp(SsoKey(ip), cfg.ssoIpMax), now), cfg.ssoWindowMs);
                && Throttle() == limiter
                && result == if answer.verdict.limited then Blocked(IpThrottle, answer.verdict.retryAfterMs) else Allowed
      ensures !cfg.trusted(ip) ==> ipBan.Abstract() == BansAfter(ipBan.cfg, old(ipBan.Abstract()), result, ip, now)
    {
      if cfg.trusted(ip) {
        return Allowed;
      }
      var ban := ipBan.Check(ip, now);
      if ban.banned {
        return Blocked(IpBanned, ban.retryAfterMs);
      }
      var hit := throttle.Check(SsoKey(ip), cfg.ssoIpMax, cfg.ssoWindowMs, now);
      if hit.limited {
        RecordTrip(ip, now);
        return Blocked(IpThrottle, hit.retryAfterMs);
      }
      throttle.Record(SsoKey(ip), cfg.ssoWindowMs, now);
      return Allowed;
    }

    /**
     * Ban, address throttle, username throttle, lockout, in this order. A trusted address
     * skips the first three, never the lockout. Nothing is counted for an allowed attempt.
     */
    method PrecheckLogin(scope: Scope, username: string, ip: string, now: int) returns (result: Precheck)
      requires Valid()
      modifies throttle, ipBan, ipBan.trips
      ensures var ipHit := VerdictFor(old(throttle.buckets), IpKey(scope, ip), cfg.For(scope).ipMax, cfg.For(scope).ipWindowMs, now);
              var unHit := VerdictFor(old(throttle.buckets), UsernameKey(scope, username), cfg.For(scope).usernameMax,
                                      cfg.For(scope).usernameWindowMs, now);
              var ban := old(IpBan.CheckFor(ipBan.cfg, ipBan.bans, ip, now));
              var lock := CheckOf(lockout.cfg, lockout.rows, Key(scope, username), now);
              var open := cfg.trusted(ip) || !(ban.banned || ipHit.limited || unHit.limited);
              && (result == Allowed <==> open && !lock.locked)
              && (result.Blocked? && result.reason == Lockout <==> open && lock.locked)
              && (result.Blocked? && result.reason == IpBanned <==> !cfg.trusted(ip) && ban.banned)
              && (result.Blocked? && result.reason == IpThrottle <==> !cfg.trusted(ip) && !ban.banned && ipHit.limited)
      ensures KeepsLive(old(throttle.buckets), throttle.buckets, cfg.For(scope), now)
      ensures result.Blocked? ==>
                result.retryAfterMs ==
                match result.reason
                case IpBanned => old(IpBan.CheckFor(ipBan.cfg, ipBan.bans, ip, now)).retryAfterMs
                case IpThrottle => VerdictFor(old(throttle.buckets), IpKey(scope, ip), cfg.For(scope).ipMax, cfg.For(scope).ipWindowMs, now).retryAfterMs
                case UsernameThrottle =>
                  VerdictFor(old(throttle.buckets), UsernameKey(scope, username), cfg.For(scope).usernameMax,
                             cfg.For(scope).usernameWindowMs, now).retryAfterMs
                case Lockout => CheckOf(lockout.cfg, lockout.rows, Key(scope, username), now).retryAfterMs
      ensures cfg.trusted(ip) ==> ipBan.Abstract() == old(ipBan.Abstract())
      ensures !cfg.trusted(ip) ==> ipBan.Abstract() == BansAfter(ipBan.cfg, old(ipBan.Abstract()), result, ip, now)
    {
      if !cfg.trusted(ip) {
        var ban := ipBan.Check(ip, now);
        if ban.banned {
          return Blocked(IpBanned, ban.retryAfterMs);
        }
        var ipHit := throttle.Check(IpKey(scope, ip), cfg.For(scope).ipMax, cfg.For(scope).ipWindowMs, now);
        DropKeepsLive(old(throttle.buckets), old(throttle.buckets), IpKey(scope, ip), cfg.For(scope).ipWindowMs, cfg.For(scope), now);
        if ipHit.limited {
          RecordTrip(ip, now);
          return Blocked(IpThrottle, ipHit.retryAfterMs);
        }
        assert UsernameKey(scope, username)[0] != IpKey(scope, ip)[0];
        DropKeepsLive(old(throttle.buckets), throttle.buckets, UsernameKey(scope, username), cfg.For(scope).usernameWindowMs,
                      cfg.For(scope), now);
        var unHit := throttle.Check(UsernameKey(scope, username), cfg.For(scope).usernameMax, cfg.For(scope).usernameWindowMs, now);
        if unHit.limited {
          RecordTrip(ip, now);
          return Blocked(UsernameThrottle, unHit.retryAfterMs);
        }
      }
      var lock := lockout.Check(Key(scope, username), now);
      if lock.locked {
        RecordTrip(ip, now);
        return Blocked(Lockout, lock.retryAfterMs);
      }
      return Allowed;
    }

    /** A failed login counts against the address, the username and the account; a lock counts as a trip. */
    method RecordLoginFailure(scope: Scope, username: string, ip: string, now: int)
      requires Valid()
      modifies throttle, ipBan, ipBan.trips, lockout
      ensures var account := lockout.cfg.For(scope);
              var locks := account.threshold != 0 && Failed(account, RowAt(old(lockout.rows), Key(scope, username)), now).failedCount >= account.threshold;
              && (account.threshold != 0 ==>
                    lockout.rows == old(lockout.rows)[Key(scope, username) := Failed(account, RowAt(old(lockout.rows), Key(scope, username)), now)])
              && (account.threshold == 0 ==> lockout.rows == old(lockout.rows))
              && ipBan.Abstract() == (if locks && !cfg.trusted(ip) then IpBan.Trip(ipBan.cfg, old(ipBan.Abstract()), ip, now).0
                                      else old(ipBan.Abstract()))
      ensures Throttle() == Record(Record(old(Throttle()), IpKey(scope, ip), cfg.For(scope).ipWindowMs, now),
                                   UsernameKey(scope, username), cfg.For(scope).usernameWindowMs, now)
    {
      throttle.Record(IpKey(scope, ip), cfg.For(scope).ipWindowMs, now);
      throttle.Record(UsernameKey(scope, username), cfg.For(scope).usernameWindowMs, now);
      var result := lockout.RecordFailure(Key(scope, username), now);
      if result.lockedNow {
        RecordTrip(ip, now);
      }
    }

    /** A successful login clears the address, the username and the account. */
    method RecordLoginSuccess(scope: Scope, username: string, ip: string)
      requires Valid()
      modifies throttle, lockout
      ensures Throttle() == old(Throttle()).(buckets := old(throttle.buckets) - {IpKey(scope, ip), UsernameKey(scope, username)})
      ensures lockout.rows == old(lockout.rows) - {Key(scope, username)}
    {
      throttle.Reset(IpKey(scope, ip));
      throttle.Reset(UsernameKey(scope, username));
      lockout.RecordSuccess(Key(scope, username));
    }

    method RecordTrip(ip: string, now: int)
      requires Valid()
      modifies ipBan, ipBan.trips
      ensures cfg.trusted(ip) ==> ipBan.Abstract() == old(ipBan.Abstract())
      ensures !cfg.trusted(ip) ==> ipBan.Abstract() == IpBan.Trip(ipBan.cfg, old(ipBan.Abstract()), ip, now).0
    {
      if cfg.trusted(ip) {
        return;
      }
      var _ := ipBan.RecordTrip(ip, now);
    }
  }
}
