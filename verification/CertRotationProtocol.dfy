/**
 * Every certificate operation, split where it awaits the database: a read that checks its
 * guard and keeps a copy, and a later write from that copy. Any number of operations of
 * both kinds interleave.
 */
module CertRotationProtocol {
  import opened Wrappers
  import opened CertSlots
  import opened CertTiming

  type WorkerId = nat

  datatype Settings = Settings(signing: Slot, encryption: Slot) {
    function Get(kind: Kind): Slot {
      if kind == Signing then signing else encryption
    }

    function With(kind: Kind, slot: Slot): Settings {
      if kind == Signing then this.(signing := slot) else this.(encryption := slot)
    }
  }

  /** What an operation carries from its read to its write. */
  datatype Op =
    | Installing(kind: Kind, pair: KeyPair)                     // generate or upload a primary
    | Starting(kind: Kind, pair: KeyPair, at: int)              // manual or automatic start
    | Completing(kind: Kind, copy: Slot)                        // manual or automatic completion, after its last read
    | Cancelling(kind: Kind)
    | Rereading(kind: Kind)                                     // automatic completion, before its second read
    | Claiming(pair: KeyPair)                                   // first use of the signing key
    | Retrying                                                  // first use that lost the claim

  /** returned holds the pair that a first-use caller got; issued every pair ever made or accepted. */
  datatype State = State(row: Settings, ops: map<WorkerId, Op>, issued: set<KeyPair>, returned: map<WorkerId, KeyPair>)

  datatype Event =
    | ReadForPrimary(w: WorkerId, kind: Kind, pair: KeyPair)
    | ReadForStart(w: WorkerId, kind: Kind, pair: KeyPair, at: int)
    | ReadForComplete(w: WorkerId, kind: Kind)
    | ReadForCancel(w: WorkerId, kind: Kind)
    | EvaluateStart(w: WorkerId, kind: Kind, pair: KeyPair, at: int)
    | EvaluateComplete(w: WorkerId, kind: Kind, overlapDays: nat, at: int)
    | Reread(w: WorkerId)
    | ReadForUse(w: WorkerId, pair: KeyPair)
    | Write(w: WorkerId)

  const INITIAL := State(Settings(BLANK, BLANK), map[], {}, map[])

  ghost predicate Enabled(s: State, e: Event) {
    match e
    case ReadForPrimary(w, kind, _) => w !in s.ops && !HasPending(s.row.Get(kind))
    case ReadForStart(w, kind, _, _) => w !in s.ops && HasActive(s.row.Get(kind)) && !HasPending(s.row.Get(kind))
    case ReadForComplete(w, kind) => w !in s.ops && HasPending(s.row.Get(kind))
    case ReadForCancel(w, kind) => w !in s.ops && HasPending(s.row.Get(kind))
    case EvaluateStart(w, kind, _, _) => w !in s.ops && s.row.Get(kind).cert.Some? && s.row.Get(kind).pendingCert.None?
    case EvaluateComplete(w, kind, overlapDays, at) =>
      w !in s.ops && s.row.Get(kind).pendingCert.Some? && OverlapElapsed(s.row.Get(kind), overlapDays, at)
    case Reread(w) => w in s.ops && s.ops[w].Rereading?
    case ReadForUse(w, _) => w !in s.ops || s.ops[w].Retrying?
    case Write(w) => w in s.ops && !s.ops[w].Rereading? && !s.ops[w].Retrying?
  }

  function Stored(s: Slot): KeyPair
    requires HasActive(s)
  {
    KeyPair(s.cert.value, s.key.value,
            Crypto(if s.family.Some? then s.family.value else Rsa, s.algorithm, s.modulusBits, s.curve))
  }

  ghost function AfterWrite(s: State, w: WorkerId): State
    requires w in s.ops && !s.ops[w].Rereading? && !s.ops[w].Retrying?
  {
    var rest := s.ops - {w};
    match s.ops[w]
    case Installing(kind, pair) => s.(row := s.row.With(kind, PrimaryData(s.row.Get(kind), pair)), ops := rest)
    case Starting(kind, pair, at) => s.(row := s.row.With(kind, PendingData(s.row.Get(kind), pair, at)), ops := rest)
    case Completing(kind, copy) => s.(row := s.row.With(kind, CompleteData(s.row.Get(kind), copy)), ops := rest)
    case Cancelling(kind) => s.(row := s.row.With(kind, ClearPendingData(s.row.Get(kind))), ops := rest)
    case Claiming(pair) =>
      if s.row.signing.cert.None? && s.row.signing.key.None?
      then s.(row := s.row.With(Signing, PrimaryData(s.row.signing, pair)), ops := rest, returned := s.returned[w := pair])
      else s.(ops := s.ops[w := Retrying])
  }

  ghost function Next(s: State, e: Event): State
    requires Enabled(s, e)
  {
    match e
    case ReadForPrimary(w, kind, pair) => s.(ops := s.ops[w := Installing(kind, pair)], issued := s.issued + {pair})
    case ReadForStart(w, kind, pair, at) => s.(ops := s.ops[w := Starting(kind, pair, at)], issued := s.issued + {pair})
    case ReadForComplete(w, kind) => s.(ops := s.ops[w := Completing(kind, s.row.Get(kind))])
    case ReadForCancel(w, kind) => s.(ops := s.ops[w := Cancelling(kind)])
    case EvaluateStart(w, kind, pair, at) => s.(ops := s.ops[w := Starting(kind, pair, at)], issued := s.issued + {pair})
    case EvaluateComplete(w, kind, _, _) => s.(ops := s.ops[w := Rereading(kind)])
    case Reread(w) =>
      var kind := s.ops[w].kind;
      if HasPending(s.row.Get(kind)) then s.(ops := s.ops[w := Completing(kind, s.row.Get(kind))])
      else s.(ops := s.ops - {w})
    case ReadForUse(w, pair) =>
      if HasActive(s.row.signing) then s.(ops := s.ops - {w}, returned := s.returned[w := Stored(s.row.signing)])
      else if HasPending(s.row.signing) then s.(ops := s.ops - {w})
      else s.(ops := s.ops[w := Claiming(pair)], issued := s.issued + {pair})
    case Write(w) => AfterWrite(s, w)
  }

  ghost predicate IsRun(states: seq<State>, events: seq<Event>) {
    && |states| == |events| + 1
    && states[0] == INITIAL
    && forall k :: 0 <= k < |events| ==> Enabled(states[k], events[k]) && states[k + 1] == Next(states[k], events[k])
  }

  /** What an operation in flight may rely on, whatever else has been written since its read. */
  ghost predicate OpOk(s: State, op: Op) {
    match op
    case Installing(_, pair) => pair in s.issued
    case Starting(kind, pair, _) => pair in s.issued && HasActive(s.row.Get(kind))
    case Completing(kind, copy) => exists pair :: pair in s.issued && PendingIs(copy, pair)
    case Cancelling(_) => true
    case Rereading(_) => true
    case Claiming(pair) => pair in s.issued
    case Retrying => HasActive(s.row.signing)
  }

  ghost predicate Inv(s: State) {
    && (forall kind :: Coherent(s.row.Get(kind), s.issued))
    && (forall w :: w in s.ops ==> OpOk(s, s.ops[w]))
    && (forall w :: w in s.returned ==> s.returned[w] in s.issued)
  }

  lemma OpOkGrows(s: State, t: State, op: Op)
    requires OpOk(s, op) && s.issued <= t.issued
    requires forall kind :: HasActive(s.row.Get(kind)) ==> HasActive(t.row.Get(kind))
    ensures OpOk(t, op)
  {
    if op.Completing? {
      var pair :| pair in s.issued && PendingIs(op.copy, pair);
      assert pair in t.issued;
    }
    assert s.row.Get(Signing) == s.row.signing && t.row.Get(Signing) == t.row.signing;
  }

  /** What one write does to the slot it is for: coherent as before, and never without its active pair. */
  lemma WriteOnSlot(s: State, w: WorkerId, kind: Kind)
    requires Inv(s) && Enabled(s, Write(w))
    ensures Coherent(AfterWrite(s, w).row.Get(kind), s.issued)
    ensures HasActive(s.row.Get(kind)) ==> HasActive(AfterWrite(s, w).row.Get(kind))
  {
    var op := s.ops[w];
    assert OpOk(s, op);
    assert Coherent(s.row.Get(kind), s.issued);
    match op
    case Installing(k, pair) =>
      SlotWrites(s.row.Get(k), s.issued, pair, 0, BLANK);
      assert AfterWrite(s, w).row.Get(kind) == if kind == k then PrimaryData(s.row.Get(k), pair) else s.row.Get(kind);
    case Starting(k, pair, at) =>
      SlotWrites(s.row.Get(k), s.issued, pair, at, BLANK);
      assert AfterWrite(s, w).row.Get(kind) == if kind == k then PendingData(s.row.Get(k), pair, at) else s.row.Get(kind);
    case Completing(k, copy) =>
      var pair :| pair in s.issued && PendingIs(copy, pair);
      SlotWrites(s.row.Get(k), s.issued, pair, 0, copy);
      assert AfterWrite(s, w).row.Get(kind) == if kind == k then CompleteData(s.row.Get(k), copy) else s.row.Get(kind);
    case Cancelling(k) => ClearKeepsCoherent(s.row.Get(k), s.issued);
    case Claiming(pair) =>
      assert Coherent(s.row.Get(Signing), s.issued);
      SlotWrites(s.row.signing, s.issued, pair, 0, BLANK);
  }

  lemma WriteKeepsInv(s: State, w: WorkerId)
    requires Inv(s) && Enabled(s, Write(w))
    ensures Inv(AfterWrite(s, w))
  {
    var t := AfterWrite(s, w);
    forall kind ensures Coherent(t.row.Get(kind), t.issued) && (HasActive(s.row.Get(kind)) ==> HasActive(t.row.Get(kind))) {
      WriteOnSlot(s, w, kind);
    }
    forall v | v in t.ops ensures OpOk(t, t.ops[v]) {
      if t.ops[v] == s.ops[v] {
        OpOkGrows(s, t, t.ops[v]);
      } else {
        assert Coherent(s.row.Get(Signing), s.issued);
      }
    }
  }

  lemma ReadKeepsInv(s: State, e: Event)
    requires Inv(s) && Enabled(s, e) && !e.Write?
    ensures Inv(Next(s, e))
  {
    var t := Next(s, e);
    assert t.row == s.row;
    forall kind ensures Coherent(t.row.Get(kind), t.issued) {
      CoherentGrows(s.row.Get(kind), s.issued, t.issued);
    }
    forall v | v in t.ops ensures OpOk(t, t.ops[v]) {
      if v in s.ops && t.ops[v] == s.ops[v] {
        OpOkGrows(s, t, t.ops[v]);
      } else if e.EvaluateStart? {
        assert Coherent(s.row.Get(e.kind), s.issued);
      } else if e.ReadForComplete? {
        assert Coherent(s.row.Get(e.kind), s.issued);
      } else if e.Reread? {
        assert Coherent(s.row.Get(s.ops[e.w].kind), s.issued);
      }
    }
    if e.ReadForUse? && HasActive(s.row.signing) {
      assert Coherent(s.row.Get(Signing), s.issued);
      var pair :| pair in s.issued && ActiveIs(s.row.signing, pair);
      assert Stored(s.row.signing) == pair;
    }
  }

  /** Every reachable row is coherent, and every operation in flight still stands on firm ground. */
  lemma {:induction false} Reachable(states: seq<State>, events: seq<Event>, k: nat)
    requires IsRun(states, events) && k <= |events|
    ensures Inv(states[k])
  {
    if k > 0 {
      Reachable(states, events, k - 1);
      if events[k - 1].Write? {
        WriteKeepsInv(states[k - 1], events[k - 1].w);
      } else {
        ReadKeepsInv(states[k - 1], events[k - 1]);
      }
    } else {
      assert NoActive(BLANK) && NoPending(BLANK);
    }
  }

  /** In every reachable row, either slot of either kind is empty or entirely one pair's. */
  lemma SlotsAreWhole(states: seq<State>, events: seq<Event>, k: nat, kind: Kind)
    requires IsRun(states, events) && k <= |events|
    ensures var s := states[k].row.Get(kind);
            && (NoActive(s) || exists pair :: pair in states[k].issued && ActiveIs(s, pair))
            && (NoPending(s) || (HasActive(s) && exists pair :: pair in states[k].issued && PendingIs(s, pair)))
  {
    Reachable(states, events, k);
  }

  /** An active pair, once present, may be replaced but is never lost. */
  lemma {:induction false} ActiveIsNeverLost(states: seq<State>, events: seq<Event>, i: nat, j: nat, kind: Kind)
    requires IsRun(states, events) && i <= j <= |events|
    requires HasActive(states[i].row.Get(kind))
    ensures HasActive(states[j].row.Get(kind))
    decreases j
  {
    if i < j {
      ActiveIsNeverLost(states, events, i, j - 1, kind);
      Reachable(states, events, j - 1);
      ActiveStays(states[j - 1], events[j - 1], kind);
    }
  }

  lemma ActiveStays(s: State, e: Event, kind: Kind)
    requires Inv(s) && Enabled(s, e) && HasActive(s.row.Get(kind))
    ensures HasActive(Next(s, e).row.Get(kind))
  {
    if e.Write? {
      WriteOnSlot(s, e.w, kind);
    }
  }

  /**
   * A first-use caller that loses the claim reads once more and gets the stored pair: while
   * it is between the two reads a pair is stored, and its next read ends the call.
   */
  lemma LoserGetsStoredPair(states: seq<State>, events: seq<Event>, k: nat, w: WorkerId, pair: KeyPair)
    requires IsRun(states, events) && k < |events|
    requires events[k] == ReadForUse(w, pair)
    requires w in states[k].ops && states[k].ops[w].Retrying?
    ensures w !in states[k + 1].ops && w in states[k + 1].returned
    ensures states[k + 1].returned[w] in states[k].issued && ActiveIs(states[k].row.signing, states[k + 1].returned[w])
  {
    Reachable(states, events, k);
    assert OpOk(states[k], states[k].ops[w]);
    assert Coherent(states[k].row.Get(Signing), states[k].issued);
    var stored :| stored in states[k].issued && ActiveIs(states[k].row.signing, stored);
    assert Stored(states[k].row.signing) == stored;
  }

  // ------------------------------------------------------------------ how early a promotion can be

  predicate WritesKind(s: State, e: Event, kind: Kind) {
    && e.Write? && e.w in s.ops
    && match s.ops[e.w]
       case Installing(k, _) => k == kind
       case Starting(k, _, _) => k == kind
       case Completing(k, _) => k == kind
       case Cancelling(k) => k == kind
       case Claiming(_) => kind == Signing
       case _ => false
  }

  lemma {:induction false} SlotUnchanged(states: seq<State>, events: seq<Event>, i: nat, j: nat, kind: Kind)
    requires IsRun(states, events) && i <= j <= |events|
    requires forall k :: i <= k < j ==> !WritesKind(states[k], events[k], kind)
    ensures states[j].row.Get(kind) == states[i].row.Get(kind)
    decreases j
  {
    if i < j {
      SlotUnchanged(states, events, i, j - 1, kind);
    }
  }

  /**
   * If nothing is written to the kind's columns between the evaluation and the second read,
   * the promoted certificate had its overlap when the check evaluated it.
   */
  lemma PromotionRespectsOverlap(states: seq<State>, events: seq<Event>, i: nat, j: nat, w: WorkerId, kind: Kind, overlapDays: nat, at: int)
    requires IsRun(states, events) && i < j < |events|
    requires events[i] == EvaluateComplete(w, kind, overlapDays, at) && events[j] == Reread(w)
    requires forall k :: i <= k < j ==> !WritesKind(states[k], events[k], kind)
    requires states[j].ops[w] == Rereading(kind)
    ensures w in states[j + 1].ops && states[j + 1].ops[w].Completing?
    ensures OverlapElapsed(states[j + 1].ops[w].copy, overlapDays, at)
  {
    SlotUnchanged(states, events, i, j, kind);
  }

  /** A rotation of the kind is started: the write of a manual or automatic start. */
  predicate StartsKind(s: State, e: Event, kind: Kind) {
    e.Write? && e.w in s.ops && s.ops[e.w].Starting? && s.ops[e.w].kind == kind
  }

  /** The certificate that a write makes the active one of the kind: an installation, a completion, or a claim that wins. */
  function NewActive(s: State, e: Event, kind: Kind): Option<Cert> {
    if !e.Write? || e.w !in s.ops then None
    else
      match s.ops[e.w]
      case Installing(k, pair) => if k == kind then Some(pair.cert) else None
      case Completing(k, copy) => if k == kind then copy.pendingCert else None
      case Claiming(pair) =>
        if kind == Signing && s.row.signing.cert.None? && s.row.signing.key.None? then Some(pair.cert) else None
      case _ => None
  }

  /** The date of the last rotation of the kind that was started between the two moments, or else the one given. */
  function LastStarted(states: seq<State>, events: seq<Event>, i: nat, j: nat, kind: Kind, before: Option<int>): Option<int>
    requires j <= |events| && |states| == |events| + 1
  {
    if j <= i then before
    else if StartsKind(states[j - 1], events[j - 1], kind) then Some(states[j - 1].ops[events[j - 1].w].at)
    else LastStarted(states, events, i, j - 1, kind, before)
  }

  /** The last certificate that was made active between the two moments, or else the one given. */
  function LastActive(states: seq<State>, events: seq<Event>, i: nat, j: nat, kind: Kind, before: Option<Cert>): Option<Cert>
    requires j <= |events| && |states| == |events| + 1
  {
    if j <= i then before
    else if NewActive(states[j - 1], events[j - 1], kind).Some? then NewActive(states[j - 1], events[j - 1], kind)
    else LastActive(states, events, i, j - 1, kind, before)
  }

  /** One step on the slot: what it leaves active, and that it starts, keeps or ends the pending rotation. */
  lemma StepOnSlot(s: State, e: Event, kind: Kind)
    requires Inv(s) && Enabled(s, e)
    ensures var before, after := s.row.Get(kind), Next(s, e).row.Get(kind);
            && after.cert == (if NewActive(s, e, kind).Some? then NewActive(s, e, kind) else before.cert)
            && (if StartsKind(s, e, kind) then after.startedAt == Some(s.ops[e.w].at)
                else NoPending(after) || (after.startedAt == before.startedAt && (NoPending(before) ==> NoPending(after))))
  {
    var before, after := s.row.Get(kind), Next(s, e).row.Get(kind);
    if WritesKind(s, e, kind) {
      assert OpOk(s, s.ops[e.w]);
      match s.ops[e.w]
      case Installing(_, pair) => assert after == PrimaryData(before, pair);
      case Starting(_, pair, at) => assert after == PendingData(before, pair, at);
      case Completing(_, copy) => assert after == CompleteData(before, copy);
      case Cancelling(_) => assert after == ClearPendingData(before);
      case Claiming(pair) => assert after == PrimaryData(before, pair) || after == before;
    } else {
      assert after == before;
    }
  }

  lemma RunStepOnSlot(states: seq<State>, events: seq<Event>, k: nat, kind: Kind)
    requires IsRun(states, events) && k < |events|
    ensures var before, after := states[k].row.Get(kind), states[k + 1].row.Get(kind);
            && after.cert == (if NewActive(states[k], events[k], kind).Some? then NewActive(states[k], events[k], kind) else before.cert)
            && (if StartsKind(states[k], events[k], kind) then after.startedAt == Some(states[k].ops[events[k].w].at)
                else NoPending(after) || (after.startedAt == before.startedAt && !NoPending(before)))
  {
    Reachable(states, events, k);
    assert Enabled(states[k], events[k]) && states[k + 1] == Next(states[k], events[k]);
    StepOnSlot(states[k], events[k], kind);
  }

  lemma {:induction false} ActiveSince(states: seq<State>, events: seq<Event>, i: nat, j: nat, kind: Kind)
    requires IsRun(states, events) && i <= j <= |events|
    ensures states[j].row.Get(kind).cert == LastActive(states, events, i, j, kind, states[i].row.Get(kind).cert)
    decreases j
  {
    if i < j {
      ActiveSince(states, events, i, j - 1, kind);
      RunStepOnSlot(states, events, j - 1, kind);
    }
  }

  lemma {:induction false} StartedSince(states: seq<State>, events: seq<Event>, i: nat, j: nat, kind: Kind)
    requires IsRun(states, events) && i <= j <= |events| && !NoPending(states[j].row.Get(kind))
    ensures states[j].row.Get(kind).startedAt == LastStarted(states, events, i, j, kind, states[i].row.Get(kind).startedAt)
    decreases j
  {
    if i < j {
      RunStepOnSlot(states, events, j - 1, kind);
      if !StartsKind(states[j - 1], events[j - 1], kind) {
        StartedSince(states, events, i, j - 1, kind);
      }
    }
  }

  /**
   * What the check promotes had its overlap if and only if the rotation that was started last is as old
   * as the effective overlap for the certificate that was made active last, whatever was written to the
   * kind's columns between the evaluation and the second read.
   */
  lemma OverlapHoldsIff(states: seq<State>, events: seq<Event>, i: nat, j: nat, w: WorkerId, kind: Kind, overlapDays: nat, at: int)
    requires IsRun(states, events) && i < j < |events|
    requires events[i] == EvaluateComplete(w, kind, overlapDays, at) && events[j] == Reread(w)
    requires states[j].ops[w] == Rereading(kind) && HasPending(states[j].row.Get(kind))
    ensures w in states[j + 1].ops && states[j + 1].ops[w].Completing?
    ensures var started := LastStarted(states, events, i, j, kind, states[i].row.Get(kind).startedAt);
            var active := LastActive(states, events, i, j, kind, states[i].row.Get(kind).cert);
            && started.Some? && active.Some?
            && (OverlapElapsed(states[j + 1].ops[w].copy, overlapDays, at) <==>
                at - started.value >= EffectiveOverlapDays(overlapDays, active.value, at) * MS_PER_DAY)
  {
    Reachable(states, events, j);
    assert Coherent(states[j].row.Get(kind), states[j].issued);
    assert !NoPending(states[j].row.Get(kind));
    ActiveSince(states, events, i, j, kind);
    StartedSince(states, events, i, j, kind);
  }

  /** Writes to the kind's columns are cancels, and starts that are dated at or after the given moment. */
  predicate OnlyCancelsAndLaterStarts(s: State, e: Event, kind: Kind, at: int) {
    WritesKind(s, e, kind) ==> s.ops[e.w].Cancelling? || (s.ops[e.w].Starting? && s.ops[e.w].at >= at)
  }

  /** Some rotation of the kind was started between the two moments of the run. */
  predicate StartedBetween(states: seq<State>, events: seq<Event>, i: nat, j: nat, kind: Kind)
    requires j <= |events| && |states| == |events| + 1
  {
    exists k :: i <= k < j && StartsKind(states[k], events[k], kind)
  }

  lemma {:induction false} LaterStartsOnly(
    states: seq<State>, events: seq<Event>, i: nat, j: nat, kind: Kind, at: int, started: Option<int>, active: Option<Cert>)
    requires |states| == |events| + 1 && i <= j <= |events|
    requires forall k :: i <= k < j ==> OnlyCancelsAndLaterStarts(states[k], events[k], kind, at)
    ensures LastActive(states, events, i, j, kind, active) == active
    ensures var last := LastStarted(states, events, i, j, kind, started);
            if StartedBetween(states, events, i, j, kind) then last.Some? && last.value >= at else last == started
    decreases j
  {
    if i < j {
      LaterStartsOnly(states, events, i, j - 1, kind, at, started, active);
      assert OnlyCancelsAndLaterStarts(states[j - 1], events[j - 1], kind, at);
    }
  }

  /**
   * The usual case: between the two reads the kind is only cancelled and started afresh, and the overlap
   * asked for is not nothing. What is promoted had its overlap if and only if no rotation was started
   * between the two reads.
   */
  lemma OverlapHoldsIffNoStart(states: seq<State>, events: seq<Event>, i: nat, j: nat, w: WorkerId, kind: Kind, overlapDays: nat, at: int)
    requires IsRun(states, events) && i < j < |events|
    requires events[i] == EvaluateComplete(w, kind, overlapDays, at) && events[j] == Reread(w)
    requires states[j].ops[w] == Rereading(kind) && HasPending(states[j].row.Get(kind))
    requires forall k :: i <= k < j ==> OnlyCancelsAndLaterStarts(states[k], events[k], kind, at)
    requires EffectiveOverlapDays(overlapDays, states[i].row.Get(kind).cert.value, at) >= 1
    ensures w in states[j + 1].ops && states[j + 1].ops[w].Completing?
    ensures OverlapElapsed(states[j + 1].ops[w].copy, overlapDays, at) <==> !StartedBetween(states, events, i, j, kind)
  {
    OverlapHoldsIff(states, events, i, j, w, kind, overlapDays, at);
    var slot := states[i].row.Get(kind);
    LaterStartsOnly(states, events, i, j, kind, at, slot.startedAt, slot.cert);
  }

  /** Two runs joined end to end. */
  ghost predicate Follows(s: State, events: seq<Event>, t: State)
    decreases |events|
  {
    if events == [] then s == t else Enabled(s, events[0]) && Follows(Next(s, events[0]), events[1..], t)
  }

  lemma {:induction false} FollowsIsRun(states: seq<State>, events: seq<Event>, more: seq<Event>, t: State) returns (all: seq<State>)
    requires IsRun(states, events) && Follows(states[|events|], more, t)
    ensures IsRun(all, events + more) && all[..|states|] == states && all[|events| + |more|] == t
    decreases |more|
  {
    if more == [] {
      all := states;
      assert events + more == events;
    } else {
      var next := Next(states[|events|], more[0]);
      all := FollowsIsRun(states + [next], events + [more[0]], more[1..], t);
      assert events + [more[0]] + more[1..] == events + more;
    }
  }

  lemma Prepend(s: State, e: Event, rest: seq<Event>, t: State)
    requires Enabled(s, e) && Follows(Next(s, e), rest, t)
    ensures Follows(s, [e] + rest, t)
  {
    assert ([e] + rest)[1..] == rest;
  }

  const SEVEN_DAYS := 7

  /** A signing rotation under way for its whole overlap, with a cancel of it already past its guard. */
  ghost predicate CancelUnderWay(s: State, now: int) {
    && s.ops == map[1 := Cancelling(Signing)]
    && HasActive(s.row.signing)
    && s.row.signing.cert.value.notAfter == Some(now + 100 * MS_PER_DAY)
    && s.row.signing.pendingCert.Some?
    && s.row.signing.startedAt == Some(now - SEVEN_DAYS * MS_PER_DAY)
  }

  lemma CancelCanBeUnderWay(p0: KeyPair, p1: KeyPair, now: int) returns (events: seq<Event>, t: State)
    requires p0.cert.notAfter == Some(now + 100 * MS_PER_DAY)
    ensures Follows(INITIAL, events, t) && CancelUnderWay(t, now)
  {
    var e0, e1 := ReadForPrimary(0, Signing, p0), Write(0);
    var e2 := ReadForStart(0, Signing, p1, now - SEVEN_DAYS * MS_PER_DAY);
    var e4 := ReadForCancel(1, Signing);
    var s1 := Next(INITIAL, e0);
    var s2 := Next(s1, e1);
    assert s2.row.signing == PrimaryData(BLANK, p0) && s2.ops == map[];
    var s3 := Next(s2, e2);
    var s4 := Next(s3, e1);
    assert s4.ops == map[];
    t := Next(s4, e4);
    Prepend(s4, e4, [], t);
    Prepend(s3, e1, [e4] + [], t);
    Prepend(s2, e2, [e1] + ([e4] + []), t);
    Prepend(s1, e1, [e2] + ([e1] + ([e4] + [])), t);
    Prepend(INITIAL, e0, [e1] + ([e2] + ([e1] + ([e4] + []))), t);
    events := [e0] + ([e1] + ([e2] + ([e1] + ([e4] + []))));
  }

  /** Between the two reads of the check, the cancel writes and a fresh rotation starts. */
  lemma FreshRotationSlipsIn(s: State, p2: KeyPair, now: int) returns (events: seq<Event>, mid: State)
    requires CancelUnderWay(s, now)
    ensures events != [] && events[0] == EvaluateComplete(2, Signing, SEVEN_DAYS, now)
    ensures Follows(s, events, mid)
    ensures PendingIs(mid.row.signing, p2) && mid.row.signing.startedAt == Some(now)
    ensures mid.row.signing.cert == s.row.signing.cert && mid.row.signing.key == s.row.signing.key
    ensures mid.ops == map[2 := Rereading(Signing)]
  {
    var e0 := EvaluateComplete(2, Signing, SEVEN_DAYS, now);
    var e2 := ReadForStart(3, Signing, p2, now);
    var s0 := Next(s, e0);
    var s1 := Next(s0, Write(1));
    assert s1.row.signing == ClearPendingData(s.row.signing) && s1.ops == map[2 := Rereading(Signing)];
    var s2 := Next(s1, e2);
    mid := Next(s2, Write(3));
    Prepend(s2, Write(3), [], mid);
    Prepend(s1, e2, [Write(3)] + [], mid);
    Prepend(s0, Write(1), [e2] + ([Write(3)] + []), mid);
    Prepend(s, e0, [Write(1)] + ([e2] + ([Write(3)] + [])), mid);
    events := [e0] + ([Write(1)] + ([e2] + ([Write(3)] + [])));
  }

  lemma RereadPromotes(mid: State, p2: KeyPair) returns (t: State)
    requires PendingIs(mid.row.signing, p2) && mid.ops == map[2 := Rereading(Signing)]
    ensures Follows(mid, [Reread(2)] + [Write(2)], t)
    ensures ActiveIs(t.row.signing, p2) && NoPending(t.row.signing)
  {
    var s1 := Next(mid, Reread(2));
    t := Next(s1, Write(2));
    Prepend(s1, Write(2), [], t);
    Prepend(mid, Reread(2), [Write(2)] + [], t);
    assert [Write(2)] + [] == [Write(2)];
  }

  /**
   * Without that condition it can fail: there is a run in which the check of worker 2 finds
   * the overlap of seven days elapsed and then promotes a certificate that has been pending
   * for no time at all.
   */
  lemma PromotionCanBeEarly(p0: KeyPair, p1: KeyPair, p2: KeyPair, now: int)
    returns (states: seq<State>, events: seq<Event>, i: nat, j: nat)
    requires p0.cert.notAfter == Some(now + 100 * MS_PER_DAY)
    ensures IsRun(states, events) && i < j == |events| - 2
    ensures events[i] == EvaluateComplete(2, Signing, SEVEN_DAYS, now) && events[j] == Reread(2) && events[j + 1] == Write(2)
    ensures PendingIs(states[j].row.signing, p2) && states[j].row.signing.startedAt == Some(now)
    ensures !OverlapElapsed(states[j].row.signing, SEVEN_DAYS, now)
    ensures ActiveIs(states[j + 2].row.signing, p2)
  {
    var setup, s := CancelCanBeUnderWay(p0, p1, now);
    var race, mid := FreshRotationSlipsIn(s, p2, now);
    var t := RereadPromotes(mid, p2);
    var before := FollowsIsRun([INITIAL], [], setup, s);
    assert [] + setup == setup;
    var during := FollowsIsRun(before, setup, race, mid);
    states := FollowsIsRun(during, setup + race, [Reread(2)] + [Write(2)], t);
    events := setup + race + ([Reread(2)] + [Write(2)]);
    i, j := |setup|, |setup| + |race|;
    assert states[j] == during[j] == mid;
  }
}
