/**
 * The certificate columns of the settings row for one kind (signing or encryption): an
 * active and a pending slot, and the column updates of each operation.
 */
module CertSlots {
  import opened Wrappers

  datatype Kind = Signing | Encryption

  datatype KeyFamily = Rsa | Ec

  /** A certificate; an expiry of None stands for text that does not parse. */
  datatype Cert = Cert(serial: nat, notAfter: Option<int>)

  datatype PrivateKey = PrivateKey(material: nat)

  datatype Crypto = Crypto(family: KeyFamily, algorithm: Option<nat>, modulusBits: Option<nat>, curve: Option<nat>)

  /** What one generation or one validated upload yields. */
  datatype KeyPair = KeyPair(cert: Cert, key: PrivateKey, crypto: Crypto)

  /** The nullable columns, one by one, as the row stores them. */
  datatype Slot = Slot(
    cert: Option<Cert>,
    key: Option<PrivateKey>,
    family: Option<KeyFamily>,
    algorithm: Option<nat>,
    modulusBits: Option<nat>,
    curve: Option<nat>,
    pendingCert: Option<Cert>,
    pendingKey: Option<PrivateKey>,
    pendingFamily: Option<KeyFamily>,
    pendingAlgorithm: Option<nat>,
    pendingModulusBits: Option<nat>,
    pendingCurve: Option<nat>,
    startedAt: Option<int>)

  const BLANK := Slot(None, None, None, None, None, None, None, None, None, None, None, None, None)

  predicate HasActive(s: Slot) {
    s.cert.Some? && s.key.Some?
  }

  predicate HasPending(s: Slot) {
    s.pendingCert.Some? || s.pendingKey.Some?
  }

  /** Generate, upload, or claim a primary pair. */
  function PrimaryData(s: Slot, pair: KeyPair): Slot {
    s.(cert := Some(pair.cert), key := Some(pair.key), family := Some(pair.crypto.family),
       algorithm := pair.crypto.algorithm, modulusBits := pair.crypto.modulusBits, curve := pair.crypto.curve)
  }

  /** Start a rotation. */
  function PendingData(s: Slot, pair: KeyPair, startedAt: int): Slot {
    s.(pendingCert := Some(pair.cert), pendingKey := Some(pair.key), pendingFamily := Some(pair.crypto.family),
       pendingAlgorithm := pair.crypto.algorithm, pendingModulusBits := pair.crypto.modulusBits,
       pendingCurve := pair.crypto.curve, startedAt := Some(startedAt))
  }

  /** Cancel a rotation. */
  function ClearPendingData(s: Slot): Slot {
    s.(pendingCert := None, pendingKey := None, pendingFamily := None, pendingAlgorithm := None,
       pendingModulusBits := None, pendingCurve := None, startedAt := None)
  }

  /** Complete a rotation: promote the pending columns of an earlier copy of the row. */
  function CompleteData(s: Slot, copy: Slot): Slot {
    ClearPendingData(s).(cert := copy.pendingCert, key := copy.pendingKey, family := copy.pendingFamily,
                         algorithm := copy.pendingAlgorithm, modulusBits := copy.pendingModulusBits,
                         curve := copy.pendingCurve)
  }

  /** The active columns are those of one pair. */
  predicate ActiveIs(s: Slot, pair: KeyPair) {
    s == PrimaryData(s, pair)
  }

  /** The pending columns are those of one pair, and the start time is set. */
  predicate PendingIs(s: Slot, pair: KeyPair) {
    s.startedAt.Some? && s == PendingData(s, pair, s.startedAt.value)
  }

  predicate NoActive(s: Slot) {
    s.cert.None? && s.key.None? && s.family.None? && s.algorithm.None? && s.modulusBits.None? && s.curve.None?
  }

  predicate NoPending(s: Slot) {
    s == ClearPendingData(s)
  }

  /** The predicates, column by column. */
  lemma Columns(s: Slot, pair: KeyPair)
    ensures ActiveIs(s, pair) <==>
              && s.cert == Some(pair.cert) && s.key == Some(pair.key) && s.family == Some(pair.crypto.family)
              && s.algorithm == pair.crypto.algorithm && s.modulusBits == pair.crypto.modulusBits && s.curve == pair.crypto.curve
    ensures PendingIs(s, pair) <==>
              && s.pendingCert == Some(pair.cert) && s.pendingKey == Some(pair.key) && s.pendingFamily == Some(pair.crypto.family)
              && s.pendingAlgorithm == pair.crypto.algorithm && s.pendingModulusBits == pair.crypto.modulusBits
              && s.pendingCurve == pair.crypto.curve && s.startedAt.Some?
    ensures NoPending(s) <==>
              && s.pendingCert.None? && s.pendingKey.None? && s.pendingFamily.None? && s.pendingAlgorithm.None?
              && s.pendingModulusBits.None? && s.pendingCurve.None? && s.startedAt.None?
    ensures NoActive(s) <==> s.cert.None? && s.key.None? && s.family.None? && s.algorithm.None? && s.modulusBits.None? && s.curve.None?
  {
  }

  /** What each update writes and what it leaves. */
  lemma WritesByColumn(s: Slot, pair: KeyPair, at: int, copy: Slot)
    ensures PrimaryData(s, pair) ==
            Slot(Some(pair.cert), Some(pair.key), Some(pair.crypto.family), pair.crypto.algorithm, pair.crypto.modulusBits, pair.crypto.curve,
                 s.pendingCert, s.pendingKey, s.pendingFamily, s.pendingAlgorithm, s.pendingModulusBits, s.pendingCurve, s.startedAt)
    ensures PendingData(s, pair, at) ==
            Slot(s.cert, s.key, s.family, s.algorithm, s.modulusBits, s.curve,
                 Some(pair.cert), Some(pair.key), Some(pair.crypto.family), pair.crypto.algorithm, pair.crypto.modulusBits, pair.crypto.curve,
                 Some(at))
    ensures ClearPendingData(s) ==
            Slot(s.cert, s.key, s.family, s.algorithm, s.modulusBits, s.curve, None, None, None, None, None, None, None)
    ensures CompleteData(s, copy) ==
            Slot(copy.pendingCert, copy.pendingKey, copy.pendingFamily, copy.pendingAlgorithm, copy.pendingModulusBits, copy.pendingCurve,
                 None, None, None, None, None, None, None)
  {
  }

  /** Each slot holds one issued pair or nothing, and nothing is pending without an active pair. */
  ghost predicate Coherent(s: Slot, issued: set<KeyPair>) {
    && (NoActive(s) || exists pair :: pair in issued && ActiveIs(s, pair))
    && (NoPending(s) || exists pair :: pair in issued && PendingIs(s, pair))
    && (!NoPending(s) ==> HasActive(s))
  }

  lemma CoherentGrows(s: Slot, issued: set<KeyPair>, more: set<KeyPair>)
    requires Coherent(s, issued) && issued <= more
    ensures Coherent(s, more)
  {
    if !NoActive(s) {
      var pair :| pair in issued && ActiveIs(s, pair);
      assert pair in more;
    }
    if !NoPending(s) {
      var pair :| pair in issued && PendingIs(s, pair);
      assert pair in more;
    }
  }

  /** Each kind of write keeps a coherent slot coherent and an active pair present. */
  lemma SlotWrites(s: Slot, issued: set<KeyPair>, pair: KeyPair, at: int, copy: Slot)
    requires Coherent(s, issued) && pair in issued
    ensures Coherent(PrimaryData(s, pair), issued) && HasActive(PrimaryData(s, pair))
    ensures HasActive(s) ==> Coherent(PendingData(s, pair, at), issued)
    ensures PendingIs(copy, pair) ==> Coherent(CompleteData(s, copy), issued) && HasActive(CompleteData(s, copy))
  {
    var primary, pending, complete := PrimaryData(s, pair), PendingData(s, pair, at), CompleteData(s, copy);
    assert ActiveIs(primary, pair) && PendingIs(pending, pair);
    if !NoPending(s) {
      var p :| p in issued && PendingIs(s, p);
      assert PendingIs(primary, p);
    } else {
      assert NoPending(primary);
    }
    if !NoActive(s) {
      var a :| a in issued && ActiveIs(s, a);
      assert ActiveIs(pending, a);
    }
    assert NoPending(complete);
    if PendingIs(copy, pair) {
      assert ActiveIs(complete, pair);
    }
  }

  lemma ClearKeepsCoherent(s: Slot, issued: set<KeyPair>)
    requires Coherent(s, issued)
    ensures Coherent(ClearPendingData(s), issued)
  {
    if !NoActive(s) {
      var a :| a in issued && ActiveIs(s, a);
      assert ActiveIs(ClearPendingData(s), a);
    }
    assert NoPending(ClearPendingData(s));
  }
}
