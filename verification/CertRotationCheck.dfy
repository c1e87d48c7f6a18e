/**
 * One automatic-rotation check of one kind, undisturbed, and what a sequence of checks
 * guarantees about the expiry of the active certificate.
 */
module CertRotationCheck {
  import opened Wrappers
  import opened CertSlots
  import opened CertTiming

  datatype Trigger = Scheduled | Manual | Boot

  datatype KindConfig = KindConfig(leadDays: nat, overlapDays: nat, bootGraceHours: nat, failureThreshold: nat)

  datatype KindRow = KindRow(slot: Slot, enabled: bool, disabledAt: Option<int>, failures: nat)

  /** Key generation shells out, so it may fail. */
  datatype Generation = Generated(pair: KeyPair) | GenerationFailed

  datatype Decision = Wait | AutoStart | AutoComplete

  function Decide(cfg: KindConfig, row: KindRow, now: int, trigger: Trigger): Decision {
    if !row.enabled || row.disabledAt.Some? || row.slot.cert.None? then Wait
    else if row.slot.pendingCert.Some? then
      if OverlapElapsed(row.slot, cfg.overlapDays, now) then AutoComplete else Wait
    else
      match row.slot.cert.value.notAfter
      case None => Wait
      case Some(notAfter) =>
        if !ExpiringSoon(notAfter, cfg.leadDays, now) then Wait
        else if trigger == Boot && !WithinBootGrace(notAfter, cfg.bootGraceHours, now) then Wait
        else AutoStart
  }

  /** A failed attempt counts; at the threshold, unless that is zero, the kind is switched off. */
  function RecordFailure(cfg: KindConfig, row: KindRow, now: int): KindRow {
    var count := row.failures + 1;
    row.(failures := count,
         disabledAt := if 0 < cfg.failureThreshold <= count then Some(now) else row.disabledAt)
  }

  function Check(cfg: KindConfig, row: KindRow, now: int, trigger: Trigger, dryRun: bool, generation: Generation): KindRow {
    match Decide(cfg, row, now, trigger)
    case Wait => row
    case AutoStart =>
      if dryRun then row
      else
        (match generation
         case Generated(pair) => row.(slot := PendingData(row.slot, pair, now), failures := 0)
         case GenerationFailed => RecordFailure(cfg, row, now))
    case AutoComplete =>
      if dryRun then row else row.(slot := CompleteData(row.slot, row.slot), failures := 0)
  }

  /** What an undisturbed check may change: nothing, the pending slot, or a promotion that has had its overlap. */
  lemma CheckIsSafe(cfg: KindConfig, row: KindRow, now: int, trigger: Trigger, dryRun: bool, generation: Generation, issued: set<KeyPair>)
    requires Coherent(row.slot, issued) && (generation.Generated? ==> generation.pair in issued)
    ensures var row' := Check(cfg, row, now, trigger, dryRun, generation);
            && Coherent(row'.slot, issued)
            && (HasActive(row.slot) ==> HasActive(row'.slot))
            && (dryRun || !row.enabled || row.disabledAt.Some? ==> row'.slot == row.slot)
            && (row'.slot.cert != row.slot.cert ==>
                  row'.slot.cert == row.slot.pendingCert && OverlapElapsed(row.slot, cfg.overlapDays, now))
  {
    var row' := Check(cfg, row, now, trigger, dryRun, generation);
    if Decide(cfg, row, now, trigger) == AutoComplete {
      var p :| p in issued && PendingIs(row.slot, p);
      assert ActiveIs(CompleteData(row.slot, row.slot), p) && NoPending(CompleteData(row.slot, row.slot));
    } else if Decide(cfg, row, now, trigger) == AutoStart && generation.Generated? {
      assert PendingIs(PendingData(row.slot, generation.pair, now), generation.pair);
      var a :| a in issued && ActiveIs(row.slot, a);
      assert ActiveIs(PendingData(row.slot, generation.pair, now), a);
    }
  }

  lemma IdleCheckWritesNothing(cfg: KindConfig, row: KindRow, now: int, trigger: Trigger, dryRun: bool, generation: Generation)
    requires dryRun || !row.enabled || row.disabledAt.Some? || row.slot.cert.None?
             || (row.slot.pendingCert.None? && row.slot.cert.value.notAfter.None?)
    ensures Check(cfg, row, now, trigger, dryRun, generation) == row
  {
  }

  /**
   * With nothing pending a rotation starts if and only if the certificate is inside its lead window and, at boot,
   * expires within the grace. Failing to generate counts, and switches the kind off at the threshold.
   */
  lemma StartsIff(cfg: KindConfig, row: KindRow, notAfter: int, now: int, trigger: Trigger, generation: Generation)
    requires row.enabled && row.disabledAt.None? && row.slot.cert.Some? && row.slot.pendingCert.None?
    requires row.slot.cert.value.notAfter == Some(notAfter)
    ensures var after := Check(cfg, row, now, trigger, false, generation);
            if notAfter - now <= cfg.leadDays * 86400000 && (trigger == Boot ==> notAfter - now <= cfg.bootGraceHours * 3600000) then
              match generation
              case Generated(pair) =>
                && after.slot == row.slot.(pendingCert := Some(pair.cert), pendingKey := Some(pair.key),
                                           pendingFamily := Some(pair.crypto.family), pendingAlgorithm := pair.crypto.algorithm,
                                           pendingModulusBits := pair.crypto.modulusBits, pendingCurve := pair.crypto.curve,
                                           startedAt := Some(now))
                && after == row.(slot := after.slot, failures := 0)
              case GenerationFailed =>
                after == row.(failures := row.failures + 1,
                              disabledAt := if cfg.failureThreshold != 0 && row.failures + 1 >= cfg.failureThreshold then Some(now) else None)
            else after == row
  {
  }

  /** A pending rotation is completed once it is as old as the overlap, or as the whole days that the active certificate has left. */
  lemma CompletesIff(cfg: KindConfig, row: KindRow, started: int, now: int, trigger: Trigger, generation: Generation)
    requires row.enabled && row.disabledAt.None? && row.slot.cert.Some? && row.slot.pendingCert.Some?
    requires row.slot.startedAt == Some(started) && started <= now
    ensures var after := Check(cfg, row, now, trigger, false, generation);
            if || now - started >= cfg.overlapDays * 86400000
               || (row.slot.cert.value.notAfter.Some? && now - started >= (row.slot.cert.value.notAfter.value - now) / 86400000 * 86400000)
            then
              && after.slot.cert == row.slot.pendingCert && after.slot.key == row.slot.pendingKey && NoPending(after.slot)
              && after == row.(slot := after.slot, failures := 0)
            else after == row
  {
    if row.slot.cert.value.notAfter.Some? {
      OverlapElapsedMeans(row.slot, cfg.overlapDays, now);
    }
  }

  // ------------------------------------------------------------------ repeated failures

  /** Row after n checks, at the given times, whose key generation fails each time. */
  function AfterFailures(cfg: KindConfig, row: KindRow, times: seq<int>, n: nat): KindRow
    requires n <= |times|
  {
    if n == 0 then row
    else Check(cfg, AfterFailures(cfg, row, times, n - 1), times[n - 1], Scheduled, false, GenerationFailed)
  }

  /** Failing checks count up to the threshold and then stop trying; the certificates stay as they are. */
  lemma {:induction false} FailuresDisable(cfg: KindConfig, row: KindRow, times: seq<int>, n: nat)
    requires n <= |times| && row.disabledAt.None? && row.failures == 0 && cfg.failureThreshold >= 1
    requires forall k :: 0 <= k < n ==> Decide(cfg, row, times[k], Scheduled) == AutoStart
    ensures var after := AfterFailures(cfg, row, times, n);
            && after.slot == row.slot && after.enabled == row.enabled
            && after.failures == (if n < cfg.failureThreshold then n else cfg.failureThreshold)
            && (after.disabledAt.Some? <==> n >= cfg.failureThreshold)
  {
    if n > 0 {
      FailuresDisable(cfg, row, times, n - 1);
      var before := AfterFailures(cfg, row, times, n - 1);
      assert Decide(cfg, row, times[n - 1], Scheduled) == AutoStart;
      if before.disabledAt.None? {
        assert Decide(cfg, before, times[n - 1], Scheduled) == AutoStart;
      }
    }
  }

  // ------------------------------------------------------------------ replaced before expiry

  /** Ticks of the scheduler: when each came, and the pair it would generate. */
  datatype Tick = Tick(at: int, pair: KeyPair)

  /** Only the first tick after a start can be a boot tick. */
  function RowAfter(cfg: KindConfig, row: KindRow, ticks: seq<Tick>, boot: bool, n: nat): KindRow
    requires n <= |ticks|
  {
    if n == 0 then row
    else
      Check(cfg, RowAfter(cfg, row, ticks, boot, n - 1), ticks[n - 1].at,
            if boot && n == 1 then Boot else Scheduled, false, Generated(ticks[n - 1].pair))
  }

  ghost predicate TicksEvery(ticks: seq<Tick>, period: int) {
    forall k :: 0 < k < |ticks| ==> ticks[k - 1].at < ticks[k].at <= ticks[k - 1].at + period
  }

  /** Certificates to come differ from the active one. */
  ghost predicate NewCerts(row: KindRow, ticks: seq<Tick>) {
    && (row.slot.pendingCert.Some? ==> row.slot.pendingCert != row.slot.cert)
    && forall k :: 0 <= k < |ticks| ==> Some(ticks[k].pair.cert) != row.slot.cert
  }

  /** Automatic rotation is on, an active certificate expires at notAfter, and what is pending started by now. */
  ghost predicate Running(row: KindRow, notAfter: int, now: int) {
    && row.enabled && row.disabledAt.None?
    && row.slot.cert.Some? && row.slot.cert.value.notAfter == Some(notAfter)
    && (row.slot.pendingCert.Some? ==> row.slot.startedAt.Some? && row.slot.startedAt.value <= now)
  }

  /** Some tick up to the n-th has replaced the certificate. */
  ghost predicate ReplacedBy(cfg: KindConfig, row: KindRow, ticks: seq<Tick>, boot: bool, n: nat)
    requires n <= |ticks|
  {
    exists j :: 0 < j <= n && RowAfter(cfg, row, ticks, boot, j).slot.cert != row.slot.cert
  }

  /** The first tick comes at boot, inside the lead window but before the grace, and so puts the rotation off. */
  predicate FirstDefers(cfg: KindConfig, ticks: seq<Tick>, boot: bool, notAfter: int)
    requires ticks != []
  {
    boot && notAfter - ticks[0].at > cfg.bootGraceHours * 3600000
  }

  /**
   * Until it is replaced, a certificate inside its lead window has a rotation pending after each tick, but for a
   * first one that puts it off.
   */
  lemma {:induction false} PendingInsideWindow(cfg: KindConfig, row: KindRow, ticks: seq<Tick>, boot: bool, period: int, notAfter: int, n: nat)
    requires 0 < n <= |ticks| && TicksEvery(ticks, period) && Running(row, notAfter, ticks[0].at) && NewCerts(row, ticks)
    requires !ReplacedBy(cfg, row, ticks, boot, n)
    ensures var after := RowAfter(cfg, row, ticks, boot, n);
            && Running(after, notAfter, ticks[n - 1].at)
            && after.slot.cert == row.slot.cert
            && (after.slot.pendingCert.Some? ==> after.slot.pendingCert != row.slot.cert)
            && (notAfter - ticks[n - 1].at <= cfg.leadDays * 86400000 ==>
                  after.slot.pendingCert.Some? || (n == 1 && FirstDefers(cfg, ticks, boot, notAfter)))
            && (n == 1 && row.slot.pendingCert.None? && after.slot.pendingCert.Some? ==>
                  notAfter - ticks[0].at <= (if boot && cfg.bootGraceHours * 3600000 < cfg.leadDays * 86400000
                                             then cfg.bootGraceHours * 3600000 else cfg.leadDays * 86400000))
  {
    if n > 1 {
      PendingInsideWindow(cfg, row, ticks, boot, period, notAfter, n - 1);
    } else {
      assert RowAfter(cfg, row, ticks, boot, 0) == row;
    }
    assert RowAfter(cfg, row, ticks, boot, n).slot.cert == row.slot.cert;
  }

  lemma {:induction false} LastTickBefore(ticks: seq<Tick>, period: int, limit: int, from: nat) returns (last: nat)
    requires from < |ticks| && TicksEvery(ticks, period) && ticks[from].at <= limit < ticks[|ticks| - 1].at
    ensures from <= last < |ticks| - 1 && ticks[last].at <= limit < ticks[last].at + period
    decreases |ticks| - from
  {
    if ticks[from + 1].at <= limit {
      last := LastTickBefore(ticks, period, limit, from + 1);
    } else {
      last := from;
    }
  }

  /** How far the first tick has to be from the expiry: one period, two if it puts the rotation off, half the lead time before the window. */
  predicate StartsEarlyEnough(cfg: KindConfig, ticks: seq<Tick>, boot: bool, period: int, notAfter: int)
    requires ticks != []
  {
    var left := notAfter - ticks[0].at;
    if left > cfg.leadDays * 86400000 then 2 * period <= cfg.leadDays * 86400000
    else left >= if FirstDefers(cfg, ticks, boot, notAfter) then 2 * period else period
  }

  /**
   * With automatic rotation on, keys that can be generated, ticks at most a period of at most a day apart that start
   * early enough and go on past the expiry: the active certificate is replaced by its expiry. The first tick may be a
   * boot tick, inside the lead window or before it.
   */
  lemma ReplacedBeforeExpiry(cfg: KindConfig, row: KindRow, ticks: seq<Tick>, boot: bool, period: int, notAfter: int)
    returns (j: nat)
    requires ticks != [] && TicksEvery(ticks, period) && Running(row, notAfter, ticks[0].at) && NewCerts(row, ticks)
    requires 0 < period <= MS_PER_DAY && StartsEarlyEnough(cfg, ticks, boot, period, notAfter)
    requires notAfter < ticks[|ticks| - 1].at
    ensures 0 < j <= |ticks| && ticks[j - 1].at <= notAfter
    ensures RowAfter(cfg, row, ticks, boot, j).slot.cert != row.slot.cert
  {
    var last := LastTickBefore(ticks, period, notAfter, 0);
    assert last > 0 && ticks[last].at <= ticks[last - 1].at + period;
    TicksAscend(ticks, period, 0, last - 1);
    if ReplacedBy(cfg, row, ticks, boot, last) {
      j :| 0 < j <= last && RowAfter(cfg, row, ticks, boot, j).slot.cert != row.slot.cert;
      TicksAscend(ticks, period, j - 1, last);
    } else {
      PendingInsideWindow(cfg, row, ticks, boot, period, notAfter, last);
      var before := RowAfter(cfg, row, ticks, boot, last);
      var now := ticks[last].at;
      assert WholeDaysLeft(notAfter, now) == 0;
      assert OverlapElapsed(before.slot, cfg.overlapDays, now);
      j := last + 1;
    }
  }

  lemma {:induction false} TicksAscend(ticks: seq<Tick>, period: int, i: nat, k: nat)
    requires TicksEvery(ticks, period) && i <= k < |ticks|
    ensures ticks[i].at <= ticks[k].at
    decreases k
  {
    if i < k {
      TicksAscend(ticks, period, i, k - 1);
    }
  }
}
