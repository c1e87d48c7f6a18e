/**
 * The in-memory request limiter. A key's window starts at its first hit and lasts windowMs.
 * The value functions give one operation each; the class keeps the mutable map.
 */
module RateLimiter {
  import opened Wrappers
  import opened Arithmetic

  datatype Verdict = Verdict(limited: bool, retryAfterMs: int)

  datatype Bucket = Bucket(count: nat, windowStartMs: int)

  type Buckets = map<string, Bucket>

  const NOT_LIMITED := Verdict(false, 0)
  const PRUNE_INTERVAL_MS := 60000

  predicate Expired(bucket: Bucket, windowMs: int, now: int) {
    now - bucket.windowStartMs >= windowMs
  }

  /** The bucket of a key as long as its window runs. */
  function LiveBucket(buckets: Buckets, key: string, windowMs: int, now: int): Option<Bucket> {
    if key in buckets && !Expired(buckets[key], windowMs, now) then Some(buckets[key]) else None
  }

  function VerdictFor(buckets: Buckets, key: string, max: nat, windowMs: int, now: int): Verdict {
    if key in buckets && !Expired(buckets[key], windowMs, now) && buckets[key].count >= max
    then Verdict(true, Max(0, windowMs - (now - buckets[key].windowStartMs)))
    else NOT_LIMITED
  }

  function Recorded(buckets: Buckets, key: string, windowMs: int, now: int): Buckets {
    if key !in buckets || Expired(buckets[key], windowMs, now)
    then buckets[key := Bucket(1, now)]
    else buckets[key := Bucket(buckets[key].count + 1, buckets[key].windowStartMs)]
  }

  function Swept(buckets: Buckets, windowMs: int, now: int): Buckets {
    map key | key in buckets && !Expired(buckets[key], windowMs, now) :: buckets[key]
  }

  /** A read drops the bucket it finds expired. */
  function Dropped(buckets: Buckets, key: string, windowMs: int, now: int): Buckets {
    if key in buckets && Expired(buckets[key], windowMs, now) then buckets - {key} else buckets
  }

  function CountFor(buckets: Buckets, key: string, windowMs: int, now: int): nat {
    if key !in buckets || Expired(buckets[key], windowMs, now) then 0 else buckets[key].count
  }

  class SlidingWindowRateLimiter {
    var buckets: Buckets
    var lastPruneMs: int

    constructor ()
      ensures buckets == map[] && lastPruneMs == 0
    {
      buckets := map[];
      lastPruneMs := 0;
    }

    method Check(key: string, max: nat, windowMs: int, now: int) returns (verdict: Verdict)
      modifies this`buckets
      ensures verdict == VerdictFor(old(buckets), key, max, windowMs, now)
      ensures buckets == Dropped(old(buckets), key, windowMs, now)
    {
      if key !in buckets {
        return NOT_LIMITED;
      }
      var bucket := buckets[key];
      var elapsed := now - bucket.windowStartMs;
      if elapsed >= windowMs {
        buckets := buckets - {key};
        return NOT_LIMITED;
      }
      if bucket.count >= max {
        return Verdict(true, Max(0, windowMs - elapsed));
      }
      return NOT_LIMITED;
    }

    /** Sweep at most once per interval. The sweep judges every key by the window of this caller. */
    method MaybePrune(windowMs: int, now: int)
      modifies this
      ensures now - old(lastPruneMs) < PRUNE_INTERVAL_MS ==> buckets == old(buckets) && lastPruneMs == old(lastPruneMs)
      ensures now - old(lastPruneMs) >= PRUNE_INTERVAL_MS ==> buckets == Swept(old(buckets), windowMs, now) && lastPruneMs == now
    {
      if now - lastPruneMs < PRUNE_INTERVAL_MS {
        return;
      }
      lastPruneMs := now;
      var left := buckets.Keys;
      while left != {}
        invariant left <= buckets.Keys <= old(buckets).Keys && lastPruneMs == now
        invariant forall key :: key in buckets ==> buckets[key] == old(buckets)[key]
        invariant forall key :: key in old(buckets) && key !in left ==>
                    (key in buckets <==> !Expired(old(buckets)[key], windowMs, now))
        decreases left
      {
        var key :| key in left;
        left := left - {key};
        if now - buckets[key].windowStartMs >= windowMs {
          buckets := buckets - {key};
        }
      }
    }

    method Record(key: string, windowMs: int, now: int)
      modifies this
      ensures buckets == Recorded(
                if now - old(lastPruneMs) < PRUNE_INTERVAL_MS then old(buckets) else Swept(old(buckets), windowMs, now),
                key, windowMs, now)
      ensures lastPruneMs == if now - old(lastPruneMs) < PRUNE_INTERVAL_MS then old(lastPruneMs) else now
    {
      MaybePrune(windowMs, now);
      if key !in buckets || now - buckets[key].windowStartMs >= windowMs {
        buckets := buckets[key := Bucket(1, now)];
        return;
      }
      buckets := buckets[key := Bucket(buckets[key].count + 1, buckets[key].windowStartMs)];
    }

    method Hit(key: string, max: nat, windowMs: int, now: int) returns (verdict: Verdict)
      modifies this
      ensures var pruned := now - old(lastPruneMs) >= PRUNE_INTERVAL_MS;
              var base := if pruned then Swept(old(buckets), windowMs, now) else old(buckets);
              var recorded := Recorded(base, key, windowMs, now);
              && verdict == VerdictFor(recorded, key, max, windowMs, now)
              && buckets == Dropped(recorded, key, windowMs, now)
              && lastPruneMs == if pruned then now else old(lastPruneMs)
    {
      Record(key, windowMs, now);
      verdict := Check(key, max, windowMs, now);
    }

    method CurrentCount(key: string, windowMs: int, now: int) returns (count: nat)
      ensures count == CountFor(buckets, key, windowMs, now)
    {
      if key !in buckets || now - buckets[key].windowStartMs >= windowMs {
        return 0;
      }
      return buckets[key].count;
    }

    method Reset(key: string)
      modifies this`buckets
      ensures buckets == old(buckets) - {key}
    {
      buckets := buckets - {key};
    }

    method Clear()
      modifies this`buckets
      ensures buckets == map[]
    {
      buckets := map[];
    }
  }
}
