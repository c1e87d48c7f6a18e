/** Which private keys are offered for decryption while certificates rotate. */
module EncryptionKeys {
  import opened Wrappers
  import opened CertSlots
  import CertRotationProtocol

  /** Certificates in the published metadata. */
  function PublishedCerts(s: Slot): seq<Cert> {
    (if s.cert.Some? then [s.cert.value] else []) + (if s.pendingCert.Some? then [s.pendingCert.value] else [])
  }

  function One(condition: bool, key: Option<PrivateKey>): seq<PrivateKey> {
    if condition && key.Some? then [key.value] else []
  }

  predicate ActiveUsable(s: Slot) {
    s.key.Some? && s.cert.Some?
  }

  predicate PendingUsable(s: Slot) {
    s.pendingKey.Some? && s.pendingCert.Some? && s.startedAt.Some?
  }

  function RsaMaterial(s: Slot): seq<PrivateKey> {
    One(ActiveUsable(s) && s.family != Some(Ec), s.key) + One(PendingUsable(s) && s.pendingFamily != Some(Ec), s.pendingKey)
  }

  function EcMaterial(s: Slot): seq<PrivateKey> {
    One(ActiveUsable(s) && s.family == Some(Ec) && s.curve.Some?, s.key)
    + One(PendingUsable(s) && s.pendingFamily == Some(Ec) && s.pendingCurve.Some?, s.pendingKey)
  }

  /** The older, RSA-only list: empty as soon as the active key is an EC key. */
  function DecryptionMaterial(s: Slot): seq<PrivateKey> {
    if ActiveUsable(s) && s.family == Some(Ec) then [] else RsaMaterial(s)
  }

  /** Generation and upload validation name a curve for every EC key. */
  ghost predicate WellFormed(pair: KeyPair) {
    pair.crypto.family == Ec ==> pair.crypto.curve.Some?
  }

  /** The pairs behind the published certificates. */
  ghost predicate Behind(s: Slot, issued: set<KeyPair>, pairs: seq<KeyPair>) {
    && |pairs| == |PublishedCerts(s)|
    && forall i :: 0 <= i < |pairs| ==> pairs[i] in issued && pairs[i].cert == PublishedCerts(s)[i]
  }

  /** The keys of the pairs of one family, in order. */
  function KeysOf(pairs: seq<KeyPair>, family: KeyFamily): seq<PrivateKey> {
    if pairs == [] then []
    else (if pairs[0].crypto.family == family then [pairs[0].key] else []) + KeysOf(pairs[1..], family)
  }

  /** The issued pair in the active columns, as a list of at most one. */
  lemma ActivePairs(s: Slot, issued: set<KeyPair>) returns (pairs: seq<KeyPair>)
    requires Coherent(s, issued) && forall pair :: pair in issued ==> WellFormed(pair)
    ensures forall pair :: pair in pairs ==> pair in issued
    ensures if s.cert.Some? then |pairs| == 1 && pairs[0].cert == s.cert.value else pairs == []
    ensures KeysOf(pairs, Rsa) == One(ActiveUsable(s) && s.family != Some(Ec), s.key)
    ensures KeysOf(pairs, Ec) == One(ActiveUsable(s) && s.family == Some(Ec) && s.curve.Some?, s.key)
  {
    if NoActive(s) {
      pairs := [];
    } else {
      var a :| a in issued && ActiveIs(s, a);
      pairs := [a];
    }
  }

  lemma PendingPairs(s: Slot, issued: set<KeyPair>) returns (pairs: seq<KeyPair>)
    requires Coherent(s, issued) && forall pair :: pair in issued ==> WellFormed(pair)
    ensures forall pair :: pair in pairs ==> pair in issued
    ensures if s.pendingCert.Some? then |pairs| == 1 && pairs[0].cert == s.pendingCert.value else pairs == []
    ensures KeysOf(pairs, Rsa) == One(PendingUsable(s) && s.pendingFamily != Some(Ec), s.pendingKey)
    ensures KeysOf(pairs, Ec) == One(PendingUsable(s) && s.pendingFamily == Some(Ec) && s.pendingCurve.Some?, s.pendingKey)
  {
    if NoPending(s) {
      pairs := [];
    } else {
      var p :| p in issued && PendingIs(s, p);
      pairs := [p];
    }
  }

  lemma {:induction false} KeysAppend(a: seq<KeyPair>, b: seq<KeyPair>, family: KeyFamily)
    ensures KeysOf(a + b, family) == KeysOf(a, family) + KeysOf(b, family)
  {
    if a == [] {
      assert a + b == b && KeysOf(a, family) == [];
    } else {
      KeysAppend(a[1..], b, family);
      assert (a + b)[1..] == a[1..] + b && (a + b)[0] == a[0];
      var first := if a[0].crypto.family == family then [a[0].key] else [];
      assert first + (KeysOf(a[1..], family) + KeysOf(b, family)) == (first + KeysOf(a[1..], family)) + KeysOf(b, family);
    }
  }

  /** Both lists of a whole slot are the keys of the pairs it publishes. */
  lemma MaterialOfSlot(s: Slot, issued: set<KeyPair>) returns (pairs: seq<KeyPair>)
    requires Coherent(s, issued) && forall pair :: pair in issued ==> WellFormed(pair)
    ensures Behind(s, issued, pairs)
    ensures RsaMaterial(s) == KeysOf(pairs, Rsa) && EcMaterial(s) == KeysOf(pairs, Ec)
  {
    var active := ActivePairs(s, issued);
    var pending := PendingPairs(s, issued);
    pairs := active + pending;
    KeysAppend(active, pending, Rsa);
    KeysAppend(active, pending, Ec);
  }

  /**
   * However the rotations interleave, each published encryption certificate has exactly one
   * private key on offer, the key of its own pair, in the list of its family; and neither
   * list holds any other key.
   */
  lemma OneKeyPerPublishedCert(states: seq<CertRotationProtocol.State>, events: seq<CertRotationProtocol.Event>, k: nat)
    returns (pairs: seq<KeyPair>)
    requires CertRotationProtocol.IsRun(states, events) && k <= |events|
    requires forall pair :: pair in states[k].issued ==> WellFormed(pair)
    ensures Behind(states[k].row.encryption, states[k].issued, pairs)
    ensures RsaMaterial(states[k].row.encryption) == KeysOf(pairs, Rsa)
    ensures EcMaterial(states[k].row.encryption) == KeysOf(pairs, Ec)
  {
    CertRotationProtocol.SlotsAreWhole(states, events, k, Encryption);
    assert states[k].row.Get(Encryption) == states[k].row.encryption;
    pairs := MaterialOfSlot(states[k].row.encryption, states[k].issued);
  }

  /** The older list misses a usable key exactly when an EC key is active while an RSA key is pending. */
  lemma OlderListIsCompleteIff(s: Slot, issued: set<KeyPair>)
    requires Coherent(s, issued)
    ensures DecryptionMaterial(s) == RsaMaterial(s) <==> !(s.family == Some(Ec) && s.pendingFamily == Some(Rsa))
  {
    if s.family == Some(Ec) {
      var a :| a in issued && ActiveIs(s, a);
      var fromPending := One(PendingUsable(s) && s.pendingFamily != Some(Ec), s.pendingKey);
      assert RsaMaterial(s) == fromPending;
      if NoPending(s) {
        assert fromPending == [];
      } else {
        var p :| p in issued && PendingIs(s, p);
        assert fromPending == if p.crypto.family == Rsa then [p.key] else [];
      }
    }
  }
}
