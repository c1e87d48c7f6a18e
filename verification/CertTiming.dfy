/** The time arithmetic of automatic rotation, in milliseconds. */
module CertTiming {
  import opened Wrappers
  import opened Arithmetic
  import opened CertSlots

  const MS_PER_DAY := 86400000
  const MS_PER_HOUR := 3600000

  /** Math.floor of the days until expiry, negative once expired. */
  function WholeDaysLeft(notAfter: int, now: int): int {
    (notAfter - now) / MS_PER_DAY
  }

  /** The configured overlap, cut so that it fits before the active certificate expires. */
  function EffectiveOverlapDays(configured: nat, active: Cert, now: int): nat {
    match active.notAfter
    case None => configured
    case Some(notAfter) =>
      var daysLeft := WholeDaysLeft(notAfter, now);
      if daysLeft <= 0 then 0 else Max(0, Min(configured, daysLeft))
  }

  predicate ExpiringSoon(notAfter: int, warningDays: nat, now: int) {
    notAfter <= now + warningDays * MS_PER_DAY
  }

  predicate WithinBootGrace(notAfter: int, graceHours: nat, now: int) {
    notAfter - now <= graceHours * MS_PER_HOUR
  }

  /** The pending certificate has been out for the effective overlap. */
  predicate OverlapElapsed(s: Slot, configured: nat, now: int) {
    && s.cert.Some? && s.startedAt.Some?
    && now >= s.startedAt.value + EffectiveOverlapDays(configured, s.cert.value, now) * MS_PER_DAY
  }

  /**
   * The overlap has elapsed exactly when the pending certificate is at least as old as the
   * configured overlap, or as the whole days that the active one has left.
   */
  lemma OverlapElapsedMeans(s: Slot, configured: nat, now: int)
    requires s.cert.Some? && s.cert.value.notAfter.Some? && s.startedAt.Some? && s.startedAt.value <= now
    ensures OverlapElapsed(s, configured, now) <==>
              || now - s.startedAt.value >= configured * MS_PER_DAY
              || now - s.startedAt.value >= WholeDaysLeft(s.cert.value.notAfter.value, now) * MS_PER_DAY
  {
  }
}
