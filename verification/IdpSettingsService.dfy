/** The settings service: manual certificate operations and the automatic check over both kinds. */
module IdpSettingsService {
  import opened Wrappers
  import opened CertSlots
  import opened CertTiming
  import opened CertRotationCheck

  datatype Conflict =
    | NeedPrimaryFirst
    | RotationInProgress
    | FinishOrCancelFirst
    | NoRotationInProgress
    | CheckInProgress

  type Outcome = Result<(), Conflict>

  class IdpSettings {
    const signingConfig: KindConfig
    const encryptionConfig: KindConfig
    var signing: KindRow
    var encryption: KindRow
    var lastCheckAt: Option<int>
    var autoRotationInFlight: bool
    ghost var issued: set<KeyPair>

    constructor (signingConfig: KindConfig, encryptionConfig: KindConfig)
      ensures Valid() && !autoRotationInFlight && issued == {}
      ensures this.signingConfig == signingConfig && this.encryptionConfig == encryptionConfig
      ensures signing == encryption == KindRow(BLANK, false, None, 0) && lastCheckAt == None
    {
      this.signingConfig := signingConfig;
      this.encryptionConfig := encryptionConfig;
      signing := KindRow(BLANK, false, None, 0);
      encryption := KindRow(BLANK, false, None, 0);
      lastCheckAt := None;
      autoRotationInFlight := false;
      issued := {};
    }

    ghost predicate Valid()
      reads this
    {
      Coherent(signing.slot, issued) && Coherent(encryption.slot, issued)
    }

    function Row(kind: Kind): KindRow
      reads this
    {
      if kind == Signing then signing else encryption
    }

    function ConfigFor(kind: Kind): KindConfig {
      if kind == Signing then signingConfig else encryptionConfig
    }

    function Other(kind: Kind): Kind {
      if kind == Signing then Encryption else Signing
    }

    method Update(kind: Kind, row: KindRow)
      modifies this`signing, this`encryption
      ensures Row(kind) == row && Row(Other(kind)) == old(Row(Other(kind)))
    {
      if kind == Signing {
        signing := row;
      } else {
        encryption := row;
      }
    }

    /** Generate or upload a primary pair; refused while a rotation is pending. */
    method InstallPrimary(kind: Kind, pair: KeyPair) returns (outcome: Outcome)
      requires Valid()
      modifies this
      ensures Valid() && Row(Other(kind)) == old(Row(Other(kind))) && autoRotationInFlight == old(autoRotationInFlight)
      ensures HasPending(old(Row(kind)).slot) ==> outcome == Err(FinishOrCancelFirst) && Row(kind) == old(Row(kind))
      ensures !HasPending(old(Row(kind)).slot) ==>
                outcome.Ok? && ActiveIs(Row(kind).slot, pair) && NoPending(Row(kind).slot)
                && Row(kind) == old(Row(kind)).(slot := Row(kind).slot)
    {
      var row := Row(kind);
      if HasPending(row.slot) {
        return Err(FinishOrCancelFirst);
      }
      var grown := issued + {pair};
      CoherentGrows(signing.slot, issued, grown);
      CoherentGrows(encryption.slot, issued, grown);
      SlotWrites(row.slot, grown, pair, 0, BLANK);
      issued := grown;
      Update(kind, row.(slot := PrimaryData(row.slot, pair)));
      return Ok(());
    }

    method StartRotation(kind: Kind, pair: KeyPair, now: int) returns (outcome: Outcome)
      requires Valid()
      modifies this
      ensures Valid() && Row(Other(kind)) == old(Row(Other(kind))) && autoRotationInFlight == old(autoRotationInFlight)
      ensures outcome.Ok? <==> HasActive(old(Row(kind)).slot) && !HasPending(old(Row(kind)).slot)
      ensures outcome == Err(NeedPrimaryFirst) <==> !HasActive(old(Row(kind)).slot)
      ensures outcome.Err? ==> Row(kind) == old(Row(kind))
      ensures outcome.Ok? ==>
                && PendingIs(Row(kind).slot, pair) && Row(kind).slot.startedAt == Some(now)
                && ClearPendingData(Row(kind).slot) == old(Row(kind)).slot
                && Row(kind) == old(Row(kind)).(slot := Row(kind).slot)
    {
      var row := Row(kind);
      if !HasActive(row.slot) {
        return Err(NeedPrimaryFirst);
      }
      if HasPending(row.slot) {
        return Err(RotationInProgress);
      }
      var grown := issued + {pair};
      CoherentGrows(signing.slot, issued, grown);
      CoherentGrows(encryption.slot, issued, grown);
      SlotWrites(row.slot, grown, pair, now, BLANK);
      issued := grown;
      Update(kind, row.(slot := PendingData(row.slot, pair, now)));
      return Ok(());
    }

    /** Promote what is pending; refused while a check runs or when nothing is pending. */
    method CompleteRotation(kind: Kind) returns (outcome: Outcome)
      requires Valid()
      modifies this`signing, this`encryption
      ensures Valid() && Row(Other(kind)) == old(Row(Other(kind)))
      ensures outcome == if autoRotationInFlight then Err(CheckInProgress)
                         else if !HasPending(old(Row(kind)).slot) then Err(NoRotationInProgress) else Ok(())
      ensures outcome.Err? ==> Row(kind) == old(Row(kind))
      ensures outcome.Ok? ==>
                && NoPending(Row(kind).slot)
                && (forall pair :: PendingIs(old(Row(kind)).slot, pair) ==> ActiveIs(Row(kind).slot, pair))
                && Row(kind) == old(Row(kind)).(slot := Row(kind).slot)
    {
      if autoRotationInFlight {
        return Err(CheckInProgress);
      }
      var row := Row(kind);
      if !HasPending(row.slot) {
        return Err(NoRotationInProgress);
      }
      ghost var pending :| pending in issued && PendingIs(row.slot, pending);
      SlotWrites(row.slot, issued, pending, 0, row.slot);
      Update(kind, row.(slot := CompleteData(row.slot, row.slot)));
      return Ok(());
    }

    /** Drop what is pending; the active pair stays. */
    method CancelRotation(kind: Kind) returns (outcome: Outcome)
      requires Valid()
      modifies this`signing, this`encryption
      ensures Valid() && Row(Other(kind)) == old(Row(Other(kind)))
      ensures outcome == if autoRotationInFlight then Err(CheckInProgress)
                         else if !HasPending(old(Row(kind)).slot) then Err(NoRotationInProgress) else Ok(())
      ensures outcome.Err? ==> Row(kind) == old(Row(kind))
      ensures outcome.Ok? ==>
                && NoPending(Row(kind).slot)
                && (forall pair :: ActiveIs(old(Row(kind)).slot, pair) ==> ActiveIs(Row(kind).slot, pair))
                && Row(kind) == old(Row(kind)).(slot := Row(kind).slot)
    {
      if autoRotationInFlight {
        return Err(CheckInProgress);
      }
      var row := Row(kind);
      if !HasPending(row.slot) {
        return Err(NoRotationInProgress);
      }
      ClearKeepsCoherent(row.slot, issued);
      Update(kind, row.(slot := ClearPendingData(row.slot)));
      return Ok(());
    }

    /** Switching automatic rotation on forgets the failures that switched it off. */
    method SetAutoRotation(kind: Kind, enabled: bool)
      requires Valid()
      modifies this`signing, this`encryption
      ensures Valid() && Row(Other(kind)) == old(Row(Other(kind)))
      ensures Row(kind).slot == old(Row(kind)).slot && Row(kind).enabled == enabled
      ensures enabled ==> Row(kind).disabledAt == None && Row(kind).failures == 0
      ensures !enabled ==> Row(kind) == old(Row(kind)).(enabled := false)
    {
      var row := Row(kind).(enabled := enabled);
      Update(kind, if enabled then row.(failures := 0, disabledAt := None) else row);
    }

    /** Evaluate one kind; a failed key generation is thrown to the caller. */
    method EvaluateKind(kind: Kind, now: int, trigger: Trigger, dryRun: bool, generation: Generation) returns (threw: bool)
      requires Valid() && (generation.Generated? ==> generation.pair in issued)
      modifies this`signing, this`encryption
      ensures Valid() && Row(Other(kind)) == old(Row(Other(kind)))
      ensures threw ==> Row(kind) == old(Row(kind))
                        && Check(ConfigFor(kind), Row(kind), now, trigger, dryRun, generation) == RecordFailure(ConfigFor(kind), Row(kind), now)
      ensures !threw ==> Row(kind) == Check(ConfigFor(kind), old(Row(kind)), now, trigger, dryRun, generation)
    {
      var row, cfg := Row(kind), ConfigFor(kind);
      CheckIsSafe(cfg, row, now, trigger, dryRun, generation, issued);
      if !row.enabled || row.disabledAt.Some? || row.slot.cert.None? {
        return false;
      }
      if row.slot.pendingCert.Some? {
        if OverlapElapsed(row.slot, cfg.overlapDays, now) {
          AutoComplete(kind, dryRun);
        }
        return false;
      }
      if row.slot.cert.value.notAfter.None? {
        return false;
      }
      var notAfter := row.slot.cert.value.notAfter.value;
      if ExpiringSoon(notAfter, cfg.leadDays, now) {
        if trigger == Boot && !WithinBootGrace(notAfter, cfg.bootGraceHours, now) {
          return false;
        }
        if dryRun {
          return false;
        }
        if generation.GenerationFailed? {
          return true;
        }
        Update(kind, row.(slot := PendingData(row.slot, generation.pair, now), failures := 0));
      }
      return false;
    }

    method AutoComplete(kind: Kind, dryRun: bool)
      modifies this`signing, this`encryption
      ensures Row(Other(kind)) == old(Row(Other(kind)))
      ensures var row := old(Row(kind));
              Row(kind) == if dryRun || !HasPending(row.slot) then row
                           else row.(slot := CompleteData(row.slot, row.slot), failures := 0)
    {
      var row := Row(kind);
      if !HasPending(row.slot) {
        return;
      }
      if dryRun {
        return;
      }
      Update(kind, row.(slot := CompleteData(row.slot, row.slot), failures := 0));
    }

    /** One check of both kinds. A failure of one kind never keeps the other from its check. */
    method RunAutoRotationCheck(trigger: Trigger, dryRun: bool, now: int, generations: Kind -> Generation)
      requires Valid()
      modifies this
      ensures Valid() && autoRotationInFlight == old(autoRotationInFlight)
      ensures old(autoRotationInFlight) ==> signing == old(signing) && encryption == old(encryption)
      ensures !old(autoRotationInFlight) ==>
                && signing == Check(signingConfig, old(signing), now, trigger, dryRun, generations(Signing))
                && encryption == Check(encryptionConfig, old(encryption), now, trigger, dryRun, generations(Encryption))
                && lastCheckAt == Some(now)
    {
      if autoRotationInFlight {
        return;
      }
      autoRotationInFlight := true;
      EvaluateKinds(trigger, dryRun, now, generations);
      lastCheckAt := Some(now);
      autoRotationInFlight := false;
    }

    /** The loop over the kinds; it runs under the flag that keeps other checks out. */
    method EvaluateKinds(trigger: Trigger, dryRun: bool, now: int, generations: Kind -> Generation)
      requires Valid() && autoRotationInFlight
      modifies this`signing, this`encryption, this`issued
      ensures Valid()
      ensures signing == Check(signingConfig, old(signing), now, trigger, dryRun, generations(Signing))
      ensures encryption == Check(encryptionConfig, old(encryption), now, trigger, dryRun, generations(Encryption))
    {
      var grown := issued + (set kind | generations(kind).Generated? :: generations(kind).pair);
      CoherentGrows(signing.slot, issued, grown);
      CoherentGrows(encryption.slot, issued, grown);
      issued := grown;
      var kinds := [Signing, Encryption];
      for i := 0 to |kinds|
        invariant Valid() && issued == grown
        invariant signing == if i > 0 then Check(signingConfig, old(signing), now, trigger, dryRun, generations(Signing)) else old(signing)
        invariant encryption == if i > 1 then Check(encryptionConfig, old(encryption), now, trigger, dryRun, generations(Encryption)) else old(encryption)
      {
        var kind := kinds[i];
        assert generations(kind).Generated? ==> generations(kind).pair in issued;
        ghost var before := Row(kind);
        ghost var other := Row(Other(kind));
        var threw := EvaluateKind(kind, now, trigger, dryRun, generations(kind));
        if threw {
          Update(kind, RecordFailure(ConfigFor(kind), Row(kind), now));
        }
        assert Row(kind) == Check(ConfigFor(kind), before, now, trigger, dryRun, generations(kind)) && Row(Other(kind)) == other;
      }
    }
  }
}
