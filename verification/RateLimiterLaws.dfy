/**
 * Laws of the limiter over whole runs: deleting expired buckets is never seen, the retry
 * time is exact, and two adjacent windows bound what one interval can admit.
 */
module RateLimiterLaws {
  import opened Wrappers
  import opened Arithmetic
  import opened RateLimiter

  datatype Op =
    | CheckOp(key: string, max: nat)
    | RecordOp(key: string)
    | AdmitOp(key: string, max: nat)
    | HitOp(key: string, max: nat)
    | CountOp(key: string)
    | ResetOp(key: string)
    | ClearOp

  /** AdmitOp is the check followed by a record if the check let the request through. */
  datatype Event = Event(op: Op, at: int)

  datatype Answer = Silent | Said(verdict: Verdict) | Counted(count: nat)

  datatype Limiter = Limiter(buckets: Buckets, lastPruneMs: int)

  function Prune(l: Limiter, windowMs: int, now: int): Limiter {
    if now - l.lastPruneMs < PRUNE_INTERVAL_MS then l else Limiter(Swept(l.buckets, windowMs, now), now)
  }

  function Record(l: Limiter, key: string, windowMs: int, now: int): Limiter {
    var pruned := Prune(l, windowMs, now);
    pruned.(buckets := Recorded(pruned.buckets, key, windowMs, now))
  }

  /** One operation of the limiter as it is, with its deletions. */
  function Step(l: Limiter, e: Event, windowMs: int): (Limiter, Answer) {
    match e.op
    case CheckOp(key, max) =>
      (l.(buckets := Dropped(l.buckets, key, windowMs, e.at)), Said(VerdictFor(l.buckets, key, max, windowMs, e.at)))
    case RecordOp(key) => (Record(l, key, windowMs, e.at), Silent)
    case AdmitOp(key, max) =>
      var verdict := VerdictFor(l.buckets, key, max, windowMs, e.at);
      var checked := l.(buckets := Dropped(l.buckets, key, windowMs, e.at));
      (if verdict.limited then checked else Record(checked, key, windowMs, e.at), Said(verdict))
    case HitOp(key, max) =>
      var recorded := Record(l, key, windowMs, e.at);
      (recorded.(buckets := Dropped(recorded.buckets, key, windowMs, e.at)),
       Said(VerdictFor(recorded.buckets, key, max, windowMs, e.at)))
    case CountOp(key) => (l, Counted(CountFor(l.buckets, key, windowMs, e.at)))
    case ResetOp(key) => (l.(buckets := l.buckets - {key}), Silent)
    case ClearOp => (l.(buckets := map[]), Silent)
  }

  /** The same operation on a limiter that only deletes when told to. */
  function KeepingStep(buckets: Buckets, e: Event, windowMs: int): (Buckets, Answer) {
    match e.op
    case CheckOp(key, max) => (buckets, Said(VerdictFor(buckets, key, max, windowMs, e.at)))
    case RecordOp(key) => (Recorded(buckets, key, windowMs, e.at), Silent)
    case AdmitOp(key, max) =>
      var verdict := VerdictFor(buckets, key, max, windowMs, e.at);
      (if verdict.limited then buckets else Recorded(buckets, key, windowMs, e.at), Said(verdict))
    case HitOp(key, max) =>
      var recorded := Recorded(buckets, key, windowMs, e.at);
      (recorded, Said(VerdictFor(recorded, key, max, windowMs, e.at)))
    case CountOp(key) => (buckets, Counted(CountFor(buckets, key, windowMs, e.at)))
    case ResetOp(key) => (buckets - {key}, Silent)
    case ClearOp => (map[], Silent)
  }

  function After(events: seq<Event>, k: nat, windowMs: int): Limiter
    requires k <= |events|
  {
    if k == 0 then Limiter(map[], 0) else Step(After(events, k - 1, windowMs), events[k - 1], windowMs).0
  }

  function KeepingAfter(events: seq<Event>, k: nat, windowMs: int): Buckets
    requires k <= |events|
  {
    if k == 0 then map[] else KeepingStep(KeepingAfter(events, k - 1, windowMs), events[k - 1], windowMs).0
  }

  ghost predicate MonotoneClock(events: seq<Event>) {
    forall i, j :: 0 <= i <= j < |events| ==> events[i].at <= events[j].at
  }

  /** Two maps agree when they hold the same live buckets. */
  ghost predicate Agree(a: Buckets, b: Buckets, windowMs: int, now: int) {
    forall key :: LiveBucket(a, key, windowMs, now) == LiveBucket(b, key, windowMs, now)
  }

  lemma AgreeLater(a: Buckets, b: Buckets, windowMs: int, now: int, later: int)
    requires Agree(a, b, windowMs, now) && now <= later
    ensures Agree(a, b, windowMs, later)
  {
    forall key ensures LiveBucket(a, key, windowMs, later) == LiveBucket(b, key, windowMs, later) {
      assert LiveBucket(a, key, windowMs, now) == LiveBucket(b, key, windowMs, now);
    }
  }

  lemma SweepAgrees(a: Buckets, windowMs: int, now: int)
    ensures Agree(Swept(a, windowMs, now), a, windowMs, now)
  {
  }

  lemma RecordAgrees(a: Buckets, b: Buckets, key: string, windowMs: int, now: int)
    requires Agree(a, b, windowMs, now)
    ensures Agree(Recorded(a, key, windowMs, now), Recorded(b, key, windowMs, now), windowMs, now)
  {
    assert LiveBucket(a, key, windowMs, now) == LiveBucket(b, key, windowMs, now);
    forall other ensures LiveBucket(Recorded(a, key, windowMs, now), other, windowMs, now)
                      == LiveBucket(Recorded(b, key, windowMs, now), other, windowMs, now) {
      assert LiveBucket(a, other, windowMs, now) == LiveBucket(b, other, windowMs, now);
    }
  }

  lemma StepAgrees(l: Limiter, b: Buckets, e: Event, windowMs: int)
    requires Agree(l.buckets, b, windowMs, e.at)
    ensures Agree(Step(l, e, windowMs).0.buckets, KeepingStep(b, e, windowMs).0, windowMs, e.at)
    ensures Step(l, e, windowMs).1 == KeepingStep(b, e, windowMs).1
  {
    match e.op
    case RecordOp(key) => RecordAgreesPruned(l, b, key, windowMs, e.at);
    case AdmitOp(key, max) =>
      assert LiveBucket(l.buckets, key, windowMs, e.at) == LiveBucket(b, key, windowMs, e.at);
      var checked := l.(buckets := Dropped(l.buckets, key, windowMs, e.at));
      assert Agree(checked.buckets, b, windowMs, e.at) by { DropAgrees(l.buckets, b, key, windowMs, e.at); }
      RecordAgreesPruned(checked, b, key, windowMs, e.at);
    case HitOp(key, max) =>
      RecordAgreesPruned(l, b, key, windowMs, e.at);
      var recorded := Record(l, key, windowMs, e.at).buckets;
      assert LiveBucket(recorded, key, windowMs, e.at) == LiveBucket(Recorded(b, key, windowMs, e.at), key, windowMs, e.at);
      DropAgrees(recorded, Recorded(b, key, windowMs, e.at), key, windowMs, e.at);
    case CheckOp(key, max) =>
      assert LiveBucket(l.buckets, key, windowMs, e.at) == LiveBucket(b, key, windowMs, e.at);
      DropAgrees(l.buckets, b, key, windowMs, e.at);
    case CountOp(key) =>
      assert LiveBucket(l.buckets, key, windowMs, e.at) == LiveBucket(b, key, windowMs, e.at);
    case ResetOp(key) =>
      forall other ensures LiveBucket(l.buckets - {key}, other, windowMs, e.at) == LiveBucket(b - {key}, other, windowMs, e.at) {
        assert LiveBucket(l.buckets, other, windowMs, e.at) == LiveBucket(b, other, windowMs, e.at);
      }
    case ClearOp =>
  }

  lemma DropAgrees(a: Buckets, b: Buckets, key: string, windowMs: int, now: int)
    requires Agree(a, b, windowMs, now)
    ensures Agree(Dropped(a, key, windowMs, now), b, windowMs, now)
  {
    forall other ensures LiveBucket(Dropped(a, key, windowMs, now), other, windowMs, now) == LiveBucket(b, other, windowMs, now) {
      assert LiveBucket(a, other, windowMs, now) == LiveBucket(b, other, windowMs, now);
    }
  }

  lemma RecordAgreesPruned(l: Limiter, b: Buckets, key: string, windowMs: int, now: int)
    requires Agree(l.buckets, b, windowMs, now)
    ensures Agree(Record(l, key, windowMs, now).buckets, Recorded(b, key, windowMs, now), windowMs, now)
  {
    var pruned := Prune(l, windowMs, now).buckets;
    SweepAgrees(l.buckets, windowMs, now);
    forall other ensures LiveBucket(pruned, other, windowMs, now) == LiveBucket(b, other, windowMs, now) {
      assert LiveBucket(l.buckets, other, windowMs, now) == LiveBucket(b, other, windowMs, now);
    }
    RecordAgrees(pruned, b, key, windowMs, now);
  }

  /** With one window length and a clock that never runs back, no answer reveals a deletion. */
  lemma {:induction false} CleanupIsUnobservable(events: seq<Event>, windowMs: int, k: nat)
    requires MonotoneClock(events) && k < |events|
    ensures Agree(After(events, k, windowMs).buckets, KeepingAfter(events, k, windowMs), windowMs, events[k].at)
    ensures Step(After(events, k, windowMs), events[k], windowMs).1
         == KeepingStep(KeepingAfter(events, k, windowMs), events[k], windowMs).1
  {
    if k > 0 {
      CleanupIsUnobservable(events, windowMs, k - 1);
      StepAgrees(After(events, k - 1, windowMs), KeepingAfter(events, k - 1, windowMs), events[k - 1], windowMs);
      AgreeLater(After(events, k, windowMs).buckets, KeepingAfter(events, k, windowMs), windowMs, events[k - 1].at, events[k].at);
    }
    StepAgrees(After(events, k, windowMs), KeepingAfter(events, k, windowMs), events[k], windowMs);
  }

  /**
   * One limiter shared by callers with different windows is another matter: a sweep by a
   * caller with window callerMs is invisible to keys counted over keyMs exactly when
   * callerMs is not the shorter one.
   */
  lemma SweepIsSafeIff(callerMs: int, keyMs: int)
    ensures (forall buckets, key, now ::
               VerdictFor(Swept(buckets, callerMs, now), key, 1, keyMs, now) == VerdictFor(buckets, key, 1, keyMs, now))
            <==> callerMs >= keyMs
  {
    if callerMs < keyMs {
      var buckets := map["k" := Bucket(1, 0)];
      assert "k" in buckets && Expired(buckets["k"], callerMs, callerMs) && !Expired(buckets["k"], keyMs, callerMs);
      assert VerdictFor(buckets, "k", 1, keyMs, callerMs).limited;
      assert !VerdictFor(Swept(buckets, callerMs, callerMs), "k", 1, keyMs, callerMs).limited;
    }
  }

  /** A limited key stays limited until the reported time has passed, and not a moment longer. */
  lemma RetryAfterIsExact(buckets: Buckets, key: string, max: nat, windowMs: int, now: int, later: int)
    requires VerdictFor(buckets, key, max, windowMs, now).limited && now <= later
    ensures VerdictFor(buckets, key, max, windowMs, now).retryAfterMs > 0
    ensures VerdictFor(buckets, key, max, windowMs, later).limited
       <==> later < now + VerdictFor(buckets, key, max, windowMs, now).retryAfterMs
  {
  }

  // ------------------------------------------------------------------ how much gets through

  ghost predicate AdmittedAt(events: seq<Event>, k: nat, windowMs: int, key: string)
    requires k < |events|
  {
    && events[k].op.AdmitOp? && events[k].op.key == key
    && !VerdictFor(After(events, k, windowMs).buckets, key, events[k].op.max, windowMs, events[k].at).limited
  }

  /** Requests of a key admitted among the first k events at times from lo up to but not including hi. */
  ghost function AdmittedIn(events: seq<Event>, k: nat, windowMs: int, key: string, lo: int, hi: int): nat
    requires k <= |events|
  {
    if k == 0 then 0
    else AdmittedIn(events, k - 1, windowMs, key, lo, hi)
         + if AdmittedAt(events, k - 1, windowMs, key) && lo <= events[k - 1].at < hi then 1 else 0
  }

  /** The key is only ever read or admitted, always with the same maximum. */
  ghost predicate OnlyAdmitted(events: seq<Event>, key: string, max: nat) {
    forall k :: 0 <= k < |events| ==>
      match events[k].op
      case AdmitOp(other, m) => other == key ==> m == max
      case RecordOp(other) => other != key
      case HitOp(other, _) => other != key
      case ResetOp(other) => other != key
      case ClearOp => false
      case _ => true
  }

  /** The bucket of the key, as the limiter without deletions has it, accounts for what was admitted. */
  ghost predicate Accounts(buckets: Buckets, key: string, max: nat, windowMs: int, now: int, lo: int, admitted: nat) {
    && admitted <= 2 * max - 1
    && (lo > now ==> admitted == 0)
    && (key !in buckets ==> admitted == 0)
    && (key in buckets ==>
          var b := buckets[key];
          && 1 <= b.count <= max && b.windowStartMs <= now
          && (lo > b.windowStartMs ==> admitted <= b.count - 1)
          && (b.windowStartMs - windowMs < lo <= b.windowStartMs ==> admitted <= max - 1 + b.count))
  }

  lemma {:induction false} BucketAccounts(events: seq<Event>, k: nat, windowMs: int, key: string, max: nat, lo: int, now: int)
    requires MonotoneClock(events) && OnlyAdmitted(events, key, max) && max >= 1 && windowMs >= 1
    requires k <= |events| && (k > 0 ==> events[k - 1].at <= now)
    ensures Accounts(KeepingAfter(events, k, windowMs), key, max, windowMs, now, lo,
                     AdmittedIn(events, k, windowMs, key, lo, lo + windowMs))
  {
    if k > 0 {
      var e := events[k - 1];
      BucketAccounts(events, k - 1, windowMs, key, max, lo, e.at);
      CleanupIsUnobservable(events, windowMs, k - 1);
      var before := KeepingAfter(events, k - 1, windowMs);
      if e.op.AdmitOp? && e.op.key == key {
        assert LiveBucket(After(events, k - 1, windowMs).buckets, key, windowMs, e.at) == LiveBucket(before, key, windowMs, e.at);
      } else {
        assert (key in before <==> key in KeepingAfter(events, k, windowMs))
               && (key in before ==> KeepingAfter(events, k, windowMs)[key] == before[key]);
      }
    }
  }

  /** Requests of a key admitted in the interval of one window length that starts at lo. */
  ghost function AdmittedFrom(events: seq<Event>, windowMs: int, key: string, lo: int): nat {
    AdmittedIn(events, |events|, windowMs, key, lo, lo + windowMs)
  }

  /** No interval as long as the window admits more than twice the maximum, less one. */
  lemma AdmissionBound(events: seq<Event>, windowMs: int, key: string, max: nat, lo: int)
    requires MonotoneClock(events) && OnlyAdmitted(events, key, max) && max >= 1 && windowMs >= 1
    ensures AdmittedFrom(events, windowMs, key, lo) <= 2 * max - 1
  {
    var now := if events == [] then 0 else events[|events| - 1].at;
    BucketAccounts(events, |events|, windowMs, key, max, lo, now);
  }

  // ---- the bound is met, and a sliding window would never meet it

  /** One request when the window opens, max - 1 in its last moment, max when the next one opens. */
  function Burst(key: string, max: nat, windowMs: int): (events: seq<Event>)
    requires max >= 1 && windowMs >= 1
    ensures |events| == 2 * max
    ensures forall k :: 0 <= k < 2 * max ==> events[k] == Event(AdmitOp(key, max), BurstTime(k, max, windowMs))
  {
    seq(2 * max, k requires 0 <= k < 2 * max => Event(AdmitOp(key, max), BurstTime(k, max, windowMs)))
  }

  function BurstTime(k: nat, max: nat, windowMs: int): int {
    if k == 0 then 0 else if k < max then windowMs - 1 else windowMs
  }

  /** The bucket after the first k requests of the burst. */
  lemma {:induction false} BurstBucket(key: string, max: nat, windowMs: int, k: nat)
    requires max >= 1 && windowMs >= 1 && 1 <= k <= 2 * max
    ensures var buckets := KeepingAfter(Burst(key, max, windowMs), k, windowMs);
            key in buckets && buckets[key] == if k <= max then Bucket(k, 0) else Bucket(k - max, windowMs)
  {
    if k > 1 {
      BurstBucket(key, max, windowMs, k - 1);
    }
  }

  lemma BurstIsOrdered(key: string, max: nat, windowMs: int)
    requires max >= 1 && windowMs >= 1
    ensures MonotoneClock(Burst(key, max, windowMs)) && OnlyAdmitted(Burst(key, max, windowMs), key, max)
  {
  }

  lemma BurstAdmits(key: string, max: nat, windowMs: int, k: nat)
    requires max >= 1 && windowMs >= 1 && k < 2 * max
    ensures AdmittedAt(Burst(key, max, windowMs), k, windowMs, key)
  {
    var events := Burst(key, max, windowMs);
    BurstIsOrdered(key, max, windowMs);
    CleanupIsUnobservable(events, windowMs, k);
    if k > 0 {
      BurstBucket(key, max, windowMs, k);
    }
  }

  lemma {:induction false} BurstCount(key: string, max: nat, windowMs: int, k: nat)
    requires max >= 1 && windowMs >= 2 && 1 <= k <= 2 * max
    ensures AdmittedIn(Burst(key, max, windowMs), k, windowMs, key, windowMs - 1, windowMs - 1 + windowMs) == k - 1
  {
    BurstAdmits(key, max, windowMs, k - 1);
    if k > 1 {
      BurstCount(key, max, windowMs, k - 1);
    }
  }

  /** For every maximum and window length some run attains the bound. */
  lemma BoundIsReached(key: string, max: nat, windowMs: int)
    requires max >= 1 && windowMs >= 2
    ensures var events := Burst(key, max, windowMs);
            && MonotoneClock(events) && OnlyAdmitted(events, key, max)
            && AdmittedFrom(events, windowMs, key, windowMs - 1) == 2 * max - 1
  {
    BurstIsOrdered(key, max, windowMs);
    BurstCount(key, max, windowMs, 2 * max);
  }

  /** What a sliding window would promise: no interval as long as the window admits more than the maximum. */
  ghost predicate SlidesIn(events: seq<Event>, windowMs: int, key: string, max: nat) {
    forall lo :: AdmittedFrom(events, windowMs, key, lo) <= max
  }

  ghost predicate IsSliding(key: string, max: nat, windowMs: int) {
    forall events :: MonotoneClock(events) && OnlyAdmitted(events, key, max) ==> SlidesIn(events, windowMs, key, max)
  }

  /** The limiter slides exactly if it admits one request a window, or its window is a single moment. */
  lemma SlidesIff(key: string, max: nat, windowMs: int)
    requires max >= 1 && windowMs >= 1
    ensures IsSliding(key, max, windowMs) <==> max == 1 || windowMs == 1
  {
    if max == 1 || windowMs == 1 {
      forall events | MonotoneClock(events) && OnlyAdmitted(events, key, max) ensures SlidesIn(events, windowMs, key, max) {
        forall lo ensures AdmittedFrom(events, windowMs, key, lo) <= max {
          if max == 1 {
            AdmissionBound(events, windowMs, key, max, lo);
          } else {
            var _ := MomentAccounts(events, |events|, key, max, lo);
          }
        }
      }
    } else {
      BoundIsReached(key, max, windowMs);
      var events := Burst(key, max, windowMs);
      assert !SlidesIn(events, windowMs, key, max) by {
        assert AdmittedFrom(events, windowMs, key, windowMs - 1) > max;
      }
    }
  }

  /** With a window of one moment, what was admitted at a moment is what the bucket of that moment counts. */
  lemma {:induction false} MomentAccounts(events: seq<Event>, k: nat, key: string, max: nat, lo: int) returns (admitted: nat)
    requires MonotoneClock(events) && OnlyAdmitted(events, key, max) && max >= 1 && k <= |events|
    ensures admitted == AdmittedIn(events, k, 1, key, lo, lo + 1) && admitted <= max
    ensures var buckets := KeepingAfter(events, k, 1);
            && (key in buckets ==> 1 <= buckets[key].count <= max && k > 0 && buckets[key].windowStartMs <= events[k - 1].at)
            && (admitted > 0 ==> key in buckets && lo <= buckets[key].windowStartMs)
            && (key in buckets && buckets[key].windowStartMs == lo ==> admitted <= buckets[key].count)
  {
    admitted := AdmittedIn(events, k, 1, key, lo, lo + 1);
    if k > 0 {
      var e := events[k - 1];
      var before := MomentAccounts(events, k - 1, key, max, lo);
      CleanupIsUnobservable(events, 1, k - 1);
      var buckets := KeepingAfter(events, k - 1, 1);
      if e.op.AdmitOp? && e.op.key == key {
        assert LiveBucket(After(events, k - 1, 1).buckets, key, 1, e.at) == LiveBucket(buckets, key, 1, e.at);
      } else {
        assert (key in buckets <==> key in KeepingAfter(events, k, 1))
               && (key in buckets ==> KeepingAfter(events, k, 1)[key] == buckets[key]);
      }
    }
  }

  // ---- one limiter for callers with several window lengths

  /** An operation with the window length of its caller. */
  datatype Call = Call(event: Event, windowMs: int)

  function MixedAfter(calls: seq<Call>, k: nat): Limiter
    requires k <= |calls|
  {
    if k == 0 then Limiter(map[], 0) else Step(MixedAfter(calls, k - 1), calls[k - 1].event, calls[k - 1].windowMs).0
  }

  function EventsOf(calls: seq<Call>): (events: seq<Event>)
    ensures |events| == |calls| && forall k :: 0 <= k < |calls| ==> events[k] == calls[k].event
  {
    seq(|calls|, k requires 0 <= k < |calls| => calls[k].event)
  }

  /** The operation reads or writes the key's bucket. */
  predicate Concerns(op: Op, key: string) {
    !op.ClearOp? && op.key == key
  }

  /** Calls for the key use its window; whoever may sweep has a window that is no shorter. */
  ghost predicate NoneUndercuts(calls: seq<Call>, key: string, windowMs: int) {
    forall k :: 0 <= k < |calls| ==>
      && (Concerns(calls[k].event.op, key) ==> calls[k].windowMs == windowMs)
      && (calls[k].event.op.RecordOp? || calls[k].event.op.AdmitOp? || calls[k].event.op.HitOp? ==> calls[k].windowMs >= windowMs)
  }

  predicate SameBucket(a: Buckets, b: Buckets, key: string, windowMs: int, now: int) {
    LiveBucket(a, key, windowMs, now) == LiveBucket(b, key, windowMs, now)
  }

  lemma SweepKeepsBucket(a: Buckets, key: string, windowMs: int, callerMs: int, now: int)
    requires callerMs >= windowMs
    ensures SameBucket(Swept(a, callerMs, now), a, key, windowMs, now)
  {
  }

  lemma RecordKeepsBucket(l: Limiter, b: Buckets, other: string, callerMs: int, key: string, windowMs: int, now: int)
    requires callerMs >= windowMs && (other == key ==> callerMs == windowMs) && SameBucket(l.buckets, b, key, windowMs, now)
    ensures SameBucket(Record(l, other, callerMs, now).buckets, Recorded(b, other, windowMs, now), key, windowMs, now)
  {
    SweepKeepsBucket(l.buckets, key, windowMs, callerMs, now);
  }

  /** A read by a caller for another key, or by one for this key, drops nothing of this key that is live. */
  lemma DropKeepsBucket(a: Buckets, other: string, callerMs: int, key: string, windowMs: int, now: int)
    requires other == key ==> callerMs == windowMs
    ensures SameBucket(Dropped(a, other, callerMs, now), a, key, windowMs, now)
  {
  }

  /** A caller with a window no shorter than the key's treats the key's bucket as its own callers would. */
  lemma StepKeepsBucket(l: Limiter, b: Buckets, call: Call, key: string, windowMs: int)
    requires NoneUndercuts([call], key, windowMs) && SameBucket(l.buckets, b, key, windowMs, call.event.at)
    ensures SameBucket(Step(l, call.event, call.windowMs).0.buckets, KeepingStep(b, call.event, windowMs).0, key, windowMs, call.event.at)
    ensures Concerns(call.event.op, key) ==> Step(l, call.event, call.windowMs).1 == KeepingStep(b, call.event, windowMs).1
  {
    assert [call][0] == call;
    var at, ms := call.event.at, call.windowMs;
    match call.event.op
    case CheckOp(other, _) => DropKeepsBucket(l.buckets, other, ms, key, windowMs, at);
    case RecordOp(other) => RecordKeepsBucket(l, b, other, ms, key, windowMs, at);
    case AdmitOp(other, max) => AdmitKeepsBucket(l, b, other, max, ms, key, windowMs, at);
    case HitOp(other, _) =>
      RecordKeepsBucket(l, b, other, ms, key, windowMs, at);
      DropKeepsBucket(Record(l, other, ms, at).buckets, other, ms, key, windowMs, at);
    case CountOp(_) =>
    case ResetOp(_) =>
    case ClearOp =>
  }

  lemma AdmitKeepsBucket(l: Limiter, b: Buckets, other: string, max: nat, callerMs: int, key: string, windowMs: int, now: int)
    requires callerMs >= windowMs && (other == key ==> callerMs == windowMs) && SameBucket(l.buckets, b, key, windowMs, now)
    ensures var e := Event(AdmitOp(other, max), now);
            && SameBucket(Step(l, e, callerMs).0.buckets, KeepingStep(b, e, windowMs).0, key, windowMs, now)
            && (other == key ==> Step(l, e, callerMs).1 == KeepingStep(b, e, windowMs).1)
  {
    var checked := l.(buckets := Dropped(l.buckets, other, callerMs, now));
    DropKeepsBucket(l.buckets, other, callerMs, key, windowMs, now);
    RecordKeepsBucket(checked, b, other, callerMs, key, windowMs, now);
    if other != key {
      OtherKeepsBucket(b, other, key, windowMs, now);
      OtherRecordKeepsBucket(checked, other, callerMs, key, windowMs, now);
    }
  }

  lemma OtherKeepsBucket(b: Buckets, other: string, key: string, windowMs: int, now: int)
    requires other != key
    ensures SameBucket(Recorded(b, other, windowMs, now), b, key, windowMs, now)
  {
  }

  lemma OtherRecordKeepsBucket(l: Limiter, other: string, callerMs: int, key: string, windowMs: int, now: int)
    requires other != key && callerMs >= windowMs
    ensures SameBucket(Record(l, other, callerMs, now).buckets, l.buckets, key, windowMs, now)
  {
    SweepKeepsBucket(l.buckets, key, windowMs, callerMs, now);
  }

  lemma {:induction false} MixedAgrees(calls: seq<Call>, key: string, windowMs: int, k: nat)
    requires MonotoneClock(EventsOf(calls)) && NoneUndercuts(calls, key, windowMs) && k < |calls|
    ensures SameBucket(MixedAfter(calls, k).buckets, KeepingAfter(EventsOf(calls), k, windowMs), key, windowMs, calls[k].event.at)
  {
    if k > 0 {
      MixedAgrees(calls, key, windowMs, k - 1);
      StepKeepsBucket(MixedAfter(calls, k - 1), KeepingAfter(EventsOf(calls), k - 1, windowMs), calls[k - 1], key, windowMs);
      assert EventsOf(calls)[k - 1].at <= EventsOf(calls)[k].at;
    }
  }

  /**
   * On a limiter shared by callers with different windows, a key whose window no sweeping caller
   * undercuts is answered in every run as if it were alone and nothing were ever deleted.
   */
  lemma SharedLimiterIsExact(calls: seq<Call>, key: string, windowMs: int, k: nat)
    requires MonotoneClock(EventsOf(calls)) && NoneUndercuts(calls, key, windowMs) && k < |calls|
    requires Concerns(calls[k].event.op, key)
    ensures Step(MixedAfter(calls, k), calls[k].event, calls[k].windowMs).1
         == KeepingStep(KeepingAfter(EventsOf(calls), k, windowMs), calls[k].event, windowMs).1
  {
    MixedAgrees(calls, key, windowMs, k);
    StepKeepsBucket(MixedAfter(calls, k), KeepingAfter(EventsOf(calls), k, windowMs), calls[k], key, windowMs);
  }

  /** Calls for the key use its window, all others another one. */
  ghost predicate IsSharedRun(calls: seq<Call>, key: string, windowMs: int, otherMs: int) {
    && MonotoneClock(EventsOf(calls))
    && forall k :: 0 <= k < |calls| ==> calls[k].windowMs == if Concerns(calls[k].event.op, key) then windowMs else otherMs
  }

  ghost predicate IsExactBeside(key: string, windowMs: int, otherMs: int) {
    forall calls: seq<Call>, k: nat | IsSharedRun(calls, key, windowMs, otherMs) && k < |calls| && Concerns(calls[k].event.op, key) ::
      IsAnsweredAlone(calls, key, windowMs, k)
  }

  /** The call is answered as if the key were alone on the limiter and nothing were ever deleted. */
  ghost predicate IsAnsweredAlone(calls: seq<Call>, key: string, windowMs: int, k: nat)
    requires k < |calls|
  {
    Step(MixedAfter(calls, k), calls[k].event, calls[k].windowMs).1
    == KeepingStep(KeepingAfter(EventsOf(calls), k, windowMs), calls[k].event, windowMs).1
  }

  /** A hit for the key, another caller's hit that sweeps as soon as it judges the first one expired, and a check. */
  function Undercut(key: string, windowMs: int, otherMs: int): seq<Call> {
    var start := Max(0, PRUNE_INTERVAL_MS - otherMs);
    [Call(Event(RecordOp(key), start), windowMs),
     Call(Event(RecordOp(key + "+"), start + otherMs), otherMs),
     Call(Event(CheckOp(key, 1), start + otherMs), windowMs)]
  }

  lemma UndercutIsSeen(key: string, windowMs: int, otherMs: int)
    requires 1 <= otherMs < windowMs
    ensures var calls := Undercut(key, windowMs, otherMs);
            && IsSharedRun(calls, key, windowMs, otherMs)
            && Concerns(calls[2].event.op, key) && !IsAnsweredAlone(calls, key, windowMs, 2)
  {
    var calls := Undercut(key, windowMs, otherMs);
    var start, other := Max(0, PRUNE_INTERVAL_MS - otherMs), key + "+";
    assert |other| == |key| + 1;
    assert MixedAfter(calls, 1) == Limiter(map[key := Bucket(1, start)], 0);
    assert key !in MixedAfter(calls, 2).buckets;
    var events := EventsOf(calls);
    assert events[0] == Event(RecordOp(key), start) && KeepingAfter(events, 0, windowMs) == map[];
    assert KeepingAfter(events, 1, windowMs) == map[key := Bucket(1, start)];
    assert KeepingAfter(events, 2, windowMs)[key] == Bucket(1, start);
  }

  /**
   * On a limiter shared by callers with two windows, a key is answered in every run as if it were alone
   * and nothing were ever deleted, if and only if the others' window is no shorter than its own.
   */
  lemma SharedIsExactIff(key: string, windowMs: int, otherMs: int)
    requires otherMs >= 1
    ensures IsExactBeside(key, windowMs, otherMs) <==> otherMs >= windowMs
  {
    if otherMs >= windowMs {
      forall calls: seq<Call>, k: nat | IsSharedRun(calls, key, windowMs, otherMs) && k < |calls| && Concerns(calls[k].event.op, key)
        ensures IsAnsweredAlone(calls, key, windowMs, k)
      {
        SharedLimiterIsExact(calls, key, windowMs, k);
      }
    } else {
      UndercutIsSeen(key, windowMs, otherMs);
    }
  }

  /** Requests of the key that the shared limiter admitted among the first k calls, in the window length from lo. */
  ghost function SharedAdmitted(calls: seq<Call>, k: nat, windowMs: int, key: string, lo: int): nat
    requires k <= |calls|
  {
    if k == 0 then 0
    else
      var e := calls[k - 1].event;
      SharedAdmitted(calls, k - 1, windowMs, key, lo)
      + if e.op.AdmitOp? && e.op.key == key && lo <= e.at < lo + windowMs
           && !VerdictFor(MixedAfter(calls, k - 1).buckets, key, e.op.max, windowMs, e.at).limited then 1 else 0
  }

  lemma {:induction false} SharedCountAgrees(calls: seq<Call>, key: string, windowMs: int, lo: int, k: nat)
    requires MonotoneClock(EventsOf(calls)) && NoneUndercuts(calls, key, windowMs) && k <= |calls|
    ensures SharedAdmitted(calls, k, windowMs, key, lo) == AdmittedIn(EventsOf(calls), k, windowMs, key, lo, lo + windowMs)
  {
    if k > 0 {
      SharedCountAgrees(calls, key, windowMs, lo, k - 1);
      MixedAgrees(calls, key, windowMs, k - 1);
      CleanupIsUnobservable(EventsOf(calls), windowMs, k - 1);
      var at := calls[k - 1].event.at;
      assert LiveBucket(After(EventsOf(calls), k - 1, windowMs).buckets, key, windowMs, at)
          == LiveBucket(KeepingAfter(EventsOf(calls), k - 1, windowMs), key, windowMs, at);
    }
  }

  /** The admission bound on a shared limiter. */
  lemma SharedAdmissionBound(calls: seq<Call>, key: string, windowMs: int, max: nat, lo: int)
    requires MonotoneClock(EventsOf(calls)) && NoneUndercuts(calls, key, windowMs)
    requires OnlyAdmitted(EventsOf(calls), key, max) && max >= 1 && windowMs >= 1
    ensures SharedAdmitted(calls, |calls|, windowMs, key, lo) <= 2 * max - 1
  {
    SharedCountAgrees(calls, key, windowMs, lo, |calls|);
    AdmissionBound(EventsOf(calls), windowMs, key, max, lo);
  }
}
