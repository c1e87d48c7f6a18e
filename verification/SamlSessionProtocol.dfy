/**
 * Pending SAML sessions and the participations they turn into. Binding a user, completing
 * the login and purging expired rows interleave at every database statement.
 */
module SamlSessionProtocol {
  import opened Wrappers

  type SessionId = nat
  type SsoId = nat
  type UserId = nat
  type WorkerId = nat

  datatype Pending = Pending(samlRequestId: nat, user: Option<UserId>, expiresAt: int)

  /** Between the statements of an operation: a login that completes looks its SSO session up first, then the pending one. */
  datatype Op =
    | Binding(session: SessionId, user: UserId)
    | Entering(session: SessionId, user: UserId, sso: Option<SsoId>)
    | Completing(session: SessionId, user: UserId, sso: Option<SsoId>)

  /** History: one entry for each login that completed successfully. */
  datatype Completion = Completion(session: SessionId, user: UserId, sso: Option<SsoId>)

  /** An SSO session with the number of participation rows that belong to it and go with it. */
  datatype SsoSession = SsoSession(expiresAt: int, participations: nat)

  /** Ids are issued in increasing order. */
  datatype State = State(
    sessions: map<SessionId, Pending>,
    ssoSessions: map<SsoId, SsoSession>,
    ops: map<WorkerId, Op>,
    nextId: nat,
    completed: seq<Completion>)

  datatype Event =
    | Create(samlRequestId: nat, expiresAt: int)
    | OpenSso(ssoExpiresAt: int)
    | BindChecks(w: WorkerId, session: SessionId, user: UserId, at: int)
    | BindWrite(w: WorkerId, at: int)
    | EnterComplete(w: WorkerId, session: SessionId, user: UserId, sso: Option<SsoId>, at: int)
    | CompleteChecks(w: WorkerId, at: int)
    | CompleteCommit(w: WorkerId)
    | Purge(at: int)

  const INITIAL := State(map[], map[], map[], 0, [])

  predicate LiveRequest(s: State, samlRequestId: nat) {
    exists id :: id in s.sessions && s.sessions[id].samlRequestId == samlRequestId
  }

  ghost predicate Enabled(s: State, e: Event) {
    match e
    case Create(_, _) => true
    case OpenSso(_) => true
    case BindChecks(w, session, _, at) =>
      w !in s.ops && session in s.sessions && s.sessions[session].expiresAt > at && s.sessions[session].user.None?
    case BindWrite(w, _) => w in s.ops && s.ops[w].Binding?
    case EnterComplete(w, _, _, sso, at) =>
      w !in s.ops && (sso.Some? ==> sso.value in s.ssoSessions && s.ssoSessions[sso.value].expiresAt > at)
    case CompleteChecks(w, _) => w in s.ops && s.ops[w].Entering?
    case CompleteCommit(w) => w in s.ops && s.ops[w].Completing?
    case Purge(_) => true
  }

  /** The commit succeeds only while both rows it needs exist. */
  predicate CanCommit(s: State, op: Op)
    requires op.Completing?
  {
    op.session in s.sessions && (op.sso.Some? ==> op.sso.value in s.ssoSessions)
  }

  predicate MayComplete(s: State, op: Op, at: int) {
    op.session in s.sessions && s.sessions[op.session].expiresAt > at && s.sessions[op.session].user == Some(op.user)
  }

  predicate CanBind(s: State, op: Op, at: int)
    requires op.Binding?
  {
    op.session in s.sessions && s.sessions[op.session].user.None? && s.sessions[op.session].expiresAt > at
  }

  /** One more participation of the SSO session, if there is one. */
  function Joined(ssoSessions: map<SsoId, SsoSession>, sso: Option<SsoId>): map<SsoId, SsoSession>
    requires sso.Some? ==> sso.value in ssoSessions
  {
    if sso.Some?
    then ssoSessions[sso.value := ssoSessions[sso.value].(participations := ssoSessions[sso.value].participations + 1)]
    else ssoSessions
  }

  ghost function Next(s: State, e: Event): State
    requires Enabled(s, e)
  {
    match e
    case Create(samlRequestId, expiresAt) =>
      if LiveRequest(s, samlRequestId) then s
      else s.(sessions := s.sessions[s.nextId := Pending(samlRequestId, None, expiresAt)], nextId := s.nextId + 1)
    case OpenSso(expiresAt) => s.(ssoSessions := s.ssoSessions[s.nextId := SsoSession(expiresAt, 0)], nextId := s.nextId + 1)
    case BindChecks(w, session, user, _) => s.(ops := s.ops[w := Binding(session, user)])
    case BindWrite(w, at) =>
      var op := s.ops[w];
      if CanBind(s, op, at)
      then s.(sessions := s.sessions[op.session := s.sessions[op.session].(user := Some(op.user))], ops := s.ops - {w})
      else s.(ops := s.ops - {w})
    case EnterComplete(w, session, user, sso, _) => s.(ops := s.ops[w := Entering(session, user, sso)])
    case CompleteChecks(w, at) =>
      var op := s.ops[w];
      if MayComplete(s, op, at) then s.(ops := s.ops[w := Completing(op.session, op.user, op.sso)])
      else s.(ops := s.ops - {w})
    case CompleteCommit(w) =>
      var op := s.ops[w];
      if CanCommit(s, op)
      then s.(sessions := s.sessions - {op.session},
              ssoSessions := Joined(s.ssoSessions, op.sso),
              ops := s.ops - {w},
              completed := s.completed + [Completion(op.session, op.user, op.sso)])
      else s.(ops := s.ops - {w})
    case Purge(at) =>
      s.(sessions := map id | id in s.sessions && s.sessions[id].expiresAt >= at :: s.sessions[id],
         ssoSessions := map id | id in s.ssoSessions && s.ssoSessions[id].expiresAt >= at :: s.ssoSessions[id])
  }

  ghost predicate IsRun(states: seq<State>, events: seq<Event>) {
    && |states| == |events| + 1
    && states[0] == INITIAL
    && forall k :: 0 <= k < |events| ==> Enabled(states[k], events[k]) && states[k + 1] == Next(states[k], events[k])
  }

  /** Completions that carried the given SSO session. */
  function CompletionsFor(completed: seq<Completion>, sso: SsoId): nat {
    if completed == [] then 0
    else CompletionsFor(completed[..|completed| - 1], sso) + (if completed[|completed| - 1].sso == Some(sso) then 1 else 0)
  }

  ghost predicate OpOk(s: State, op: Op) {
    && (!op.Entering? ==> op.session < s.nextId)
    && (op.Completing? && op.session in s.sessions ==> s.sessions[op.session].user == Some(op.user))
  }

  ghost predicate Inv(s: State) {
    && (forall id :: id in s.sessions ==> id < s.nextId)
    && (forall id :: id in s.ssoSessions ==> id < s.nextId)
    && (forall i, j :: i in s.sessions && j in s.sessions && s.sessions[i].samlRequestId == s.sessions[j].samlRequestId ==> i == j)
    && (forall w :: w in s.ops ==> OpOk(s, s.ops[w]))
    && (forall k :: 0 <= k < |s.completed| ==> s.completed[k].session < s.nextId && s.completed[k].session !in s.sessions)
    && (forall i, j :: 0 <= i < j < |s.completed| ==> s.completed[i].session != s.completed[j].session)
    && (forall k :: 0 <= k < |s.completed| && s.completed[k].sso.Some? ==> s.completed[k].sso.value < s.nextId)
    && (forall id :: id in s.ssoSessions ==> s.ssoSessions[id].participations == CompletionsFor(s.completed, id))
    && (forall w :: w in s.ops && !s.ops[w].Binding? && s.ops[w].sso.Some? ==> s.ops[w].sso.value < s.nextId)
  }

  lemma {:induction false} NoneForFresh(completed: seq<Completion>, sso: SsoId)
    requires forall k :: 0 <= k < |completed| ==> completed[k].sso != Some(sso)
    ensures CompletionsFor(completed, sso) == 0
  {
    if completed != [] {
      NoneForFresh(completed[..|completed| - 1], sso);
    }
  }

  lemma StepKeepsInv(s: State, e: Event)
    requires Inv(s) && Enabled(s, e)
    ensures Inv(Next(s, e))
  {
    match e {
      case Create(_, _) => CreateKeepsInv(s, e);
      case OpenSso(_) => OpenKeepsInv(s, e);
      case CompleteCommit(w) => CommitKeepsInv(s, w);
      case Purge(_) => PurgeKeepsInv(s, e);
      case BindChecks(_, _, _, _) => BindKeepsInv(s, e);
      case BindWrite(_, _) => BindKeepsInv(s, e);
      case _ => CompleteChecksKeepInv(s, e);
    }
  }

  lemma CreateKeepsInv(s: State, e: Event)
    requires Inv(s) && e.Create?
    ensures Inv(Next(s, e))
  {
  }

  lemma OpenKeepsInv(s: State, e: Event)
    requires Inv(s) && e.OpenSso?
    ensures Inv(Next(s, e))
  {
    NoneForFresh(s.completed, s.nextId);
  }

  lemma BindKeepsInv(s: State, e: Event)
    requires Inv(s) && Enabled(s, e) && (e.BindChecks? || e.BindWrite?)
    ensures Inv(Next(s, e))
  {
  }

  lemma CompleteChecksKeepInv(s: State, e: Event)
    requires Inv(s) && Enabled(s, e) && (e.EnterComplete? || e.CompleteChecks?)
    ensures Inv(Next(s, e))
  {
  }

  lemma PurgeKeepsInv(s: State, e: Event)
    requires Inv(s) && e.Purge?
    ensures Inv(Next(s, e))
  {
  }

  lemma CommitKeepsInv(s: State, w: WorkerId)
    requires Inv(s) && Enabled(s, CompleteCommit(w))
    ensures Inv(Next(s, CompleteCommit(w)))
  {
    var op, t := s.ops[w], Next(s, CompleteCommit(w));
    assert OpOk(s, op);
    if CanCommit(s, op) {
      assert t.completed[..|s.completed|] == s.completed;
    }
  }

  lemma {:induction false} Reachable(states: seq<State>, events: seq<Event>, k: nat)
    requires IsRun(states, events) && k <= |events|
    ensures Inv(states[k])
  {
    if k > 0 {
      Reachable(states, events, k - 1);
      StepKeepsInv(states[k - 1], events[k - 1]);
    }
  }

  /** A bind writes the user exactly if the session is still there, unbound and unexpired. */
  lemma BindWriteMeans(s: State, w: WorkerId, at: int)
    requires Enabled(s, BindWrite(w, at))
    ensures var t, op := Next(s, BindWrite(w, at)), s.ops[w];
            && t.ops == s.ops - {w} && t.ssoSessions == s.ssoSessions && t.completed == s.completed
            && t.sessions ==
               if op.session in s.sessions && s.sessions[op.session].user == None && at < s.sessions[op.session].expiresAt
               then s.sessions[op.session := s.sessions[op.session].(user := Some(op.user))] else s.sessions
  {
  }

  /** A login goes on to its commit exactly if the session is there, unexpired and bound to its user. */
  lemma CompleteChecksMeans(s: State, w: WorkerId, at: int)
    requires Enabled(s, CompleteChecks(w, at))
    ensures var t, op := Next(s, CompleteChecks(w, at)), s.ops[w];
            && t == s.(ops := t.ops)
            && t.ops ==
               if op.session in s.sessions && at < s.sessions[op.session].expiresAt && s.sessions[op.session].user == Some(op.user)
               then s.ops[w := Completing(op.session, op.user, op.sso)] else s.ops - {w}
  {
  }

  /** A pending session's user changes at most once, from none to its user, and a session once gone stays gone. */
  lemma {:induction false} UserIsBoundOnce(states: seq<State>, events: seq<Event>, i: nat, j: nat, session: SessionId)
    requires IsRun(states, events) && i <= j <= |events| && session < states[i].nextId
    ensures session < states[j].nextId
    ensures session in states[j].sessions ==>
              && session in states[i].sessions
              && (states[i].sessions[session].user.Some? ==> states[j].sessions[session].user == states[i].sessions[session].user)
    decreases j
  {
    if i < j {
      UserIsBoundOnce(states, events, i, j - 1, session);
      Reachable(states, events, j - 1);
    }
  }

  /** No session completes twice, and each live SSO session has one participation per completion that named it. */
  lemma CompletionsAndParticipations(states: seq<State>, events: seq<Event>, k: nat)
    requires IsRun(states, events) && k <= |events|
    ensures forall i, j :: 0 <= i < j < |states[k].completed| ==> states[k].completed[i].session != states[k].completed[j].session
    ensures forall id :: id in states[k].ssoSessions ==> states[k].ssoSessions[id].participations == CompletionsFor(states[k].completed, id)
  {
    Reachable(states, events, k);
  }

  /** The commit that adds an entry finds its session still there, bound to the entry's user. */
  lemma CommitIsForBoundUser(s: State, e: Event)
    requires Inv(s) && Enabled(s, e) && Next(s, e).completed != s.completed
    ensures |Next(s, e).completed| == |s.completed| + 1 && Next(s, e).completed[..|s.completed|] == s.completed
    ensures var last := Next(s, e).completed[|s.completed|];
            last.session in s.sessions && s.sessions[last.session].user == Some(last.user)
  {
    assert OpOk(s, s.ops[e.w]);
  }

  /** A completion of the state after a step is an earlier one, or its session was there, bound to its user. */
  lemma CompletionStep(states: seq<State>, events: seq<Event>, k: nat, c: nat)
    requires IsRun(states, events) && k < |events| && c < |states[k + 1].completed|
    ensures c < |states[k].completed| ==> states[k + 1].completed[c] == states[k].completed[c]
    ensures c >= |states[k].completed| ==>
              var last := states[k + 1].completed[c];
              && last.session in states[k].sessions && states[k].sessions[last.session].user == Some(last.user)
              && last.session < states[k].nextId
  {
    Reachable(states, events, k);
    var s, e := states[k], events[k];
    assert Enabled(s, e) && states[k + 1] == Next(s, e);
    if Next(s, e).completed != s.completed {
      CommitIsForBoundUser(s, e);
    }
  }

  lemma StoredIsIssued(states: seq<State>, events: seq<Event>, i: nat, session: SessionId)
    requires IsRun(states, events) && i <= |events| && session in states[i].sessions
    ensures session < states[i].nextId
  {
    Reachable(states, events, i);
  }

  /** A completed login was for the user its session was bound to, and the session never had another user. */
  lemma {:induction false} CompletedForBoundUser(states: seq<State>, events: seq<Event>, k: nat, c: nat, i: nat)
    requires IsRun(states, events) && k <= |events| && c < |states[k].completed| && i < k
    requires states[k].completed[c].session in states[i].sessions
    ensures states[i].sessions[states[k].completed[c].session].user.Some? ==>
              states[i].sessions[states[k].completed[c].session].user == Some(states[k].completed[c].user)
    decreases k
  {
    CompletionStep(states, events, k - 1, c);
    if c >= |states[k - 1].completed| {
      StoredIsIssued(states, events, i, states[k].completed[c].session);
      UserIsBoundOnce(states, events, i, k - 1, states[k].completed[c].session);
    } else if i < k - 1 {
      CompletedForBoundUser(states, events, k - 1, c, i);
    } else {
      CompletedIsGone(states, events, i, c);
    }
  }

  lemma CompletedIsGone(states: seq<State>, events: seq<Event>, i: nat, c: nat)
    requires IsRun(states, events) && i <= |events| && c < |states[i].completed|
    ensures states[i].completed[c].session !in states[i].sessions
  {
    Reachable(states, events, i);
  }
}
