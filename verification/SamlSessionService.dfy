/** The one-time SAML session from request to response, as the services run it when undisturbed. */
module SamlSessionService {
  import opened Wrappers
  import opened SamlSessionProtocol

  datatype BindError = InvalidSession | SessionExpired | AlreadyAuthenticated | SpInactive

  datatype CompleteError =
    | SsoTerminated
    | NotFound
    | Expired
    | InactiveSp
    | NotBound
    | UserMismatch
    | NotConfigured
    | UserInactive

  class SamlSessions {
    var state: State

    constructor ()
      ensures state == INITIAL
    {
      state := INITIAL;
    }

    /** A request id may be pending only once at a time. */
    method Create(samlRequestId: nat, now: int, ttlSeconds: nat) returns (created: Option<SessionId>)
      requires Inv(state)
      modifies this
      ensures Inv(state) && state == Next(old(state), Event.Create(samlRequestId, now + ttlSeconds * 1000))
      ensures created.None? <==> exists id :: id in old(state).sessions && old(state).sessions[id].samlRequestId == samlRequestId
      ensures created.Some? ==>
                && created.value !in old(state).sessions
                && state.sessions == old(state).sessions[created.value := Pending(samlRequestId, None, now + ttlSeconds * 1000)]
    {
      StepKeepsInv(state, Event.Create(samlRequestId, now + ttlSeconds * 1000));
      if LiveRequest(state, samlRequestId) {
        return None;
      }
      created := Some(state.nextId);
      state := state.(sessions := state.sessions[state.nextId := Pending(samlRequestId, None, now + ttlSeconds * 1000)],
                      nextId := state.nextId + 1);
    }

    /** Bind the authenticated user; the write repeats the guard of the checks. */
    method Bind(session: SessionId, user: UserId, spActive: bool, now: int) returns (error: Option<BindError>)
      requires Inv(state)
      modifies this
      ensures error.None? <==>
                && session in old(state).sessions && old(state).sessions[session].expiresAt > now
                && old(state).sessions[session].user.None? && spActive
      ensures error.Some? ==> state == old(state)
      ensures error.None? ==>
                state == old(state).(sessions := old(state).sessions[session := old(state).sessions[session].(user := Some(user))])
      ensures error.Some? ==>
                error.value == if session !in old(state).sessions then InvalidSession
                               else if old(state).sessions[session].expiresAt <= now then SessionExpired
                               else if old(state).sessions[session].user.Some? then AlreadyAuthenticated
                               else SpInactive
      ensures Inv(state)
    {
      if session !in state.sessions {
        return Some(InvalidSession);
      }
      if state.sessions[session].expiresAt <= now {
        return Some(SessionExpired);
      }
      if state.sessions[session].user.Some? {
        return Some(AlreadyAuthenticated);
      }
      if !spActive {
        return Some(SpInactive);
      }
      state := state.(sessions := state.sessions[session := state.sessions[session].(user := Some(user))]);
      return None;
    }

    /** Issue the response: participation and deletion of the session in one transaction. */
    method CompleteSso(session: SessionId, user: UserId, sso: Option<SsoId>, ssoActive: bool, spActive: bool,
                       configured: bool, userActive: bool, now: int) returns (error: Option<CompleteError>)
      requires Inv(state) && (sso.Some? && ssoActive ==> sso.value in state.ssoSessions)
      modifies this
      ensures Inv(state)
      ensures error.None? <==>
                && (sso.Some? ==> ssoActive)
                && session in old(state).sessions && old(state).sessions[session].expiresAt > now
                && old(state).sessions[session].user == Some(user) && spActive && configured && userActive
      ensures error.Some? ==> state == old(state)
      ensures error.Some? ==>
                error.value == if sso.Some? && !ssoActive then SsoTerminated
                               else if session !in old(state).sessions then NotFound
                               else if old(state).sessions[session].expiresAt <= now then Expired
                               else if !spActive then InactiveSp
                               else if old(state).sessions[session].user == None then NotBound
                               else if old(state).sessions[session].user != Some(user) then UserMismatch
                               else if !configured then NotConfigured
                               else UserInactive
      ensures error.None? ==>
                && session !in state.sessions
                && state == old(state).(sessions := old(state).sessions - {session},
                                        ssoSessions := Joined(old(state).ssoSessions, sso),
                                        completed := old(state).completed + [Completion(session, user, sso)])
    {
      if sso.Some? && !ssoActive {
        return Some(SsoTerminated);
      }
      if session !in state.sessions {
        return Some(NotFound);
      }
      var row := state.sessions[session];
      if row.expiresAt <= now {
        return Some(Expired);
      }
      if !spActive {
        return Some(InactiveSp);
      }
      if row.user.None? {
        return Some(NotBound);
      }
      if row.user != Some(user) {
        return Some(UserMismatch);
      }
      if !configured {
        return Some(NotConfigured);
      }
      if !userActive {
        return Some(UserInactive);
      }
      CompletionKeepsInv(state, session, user, sso);
      state := state.(sessions := state.sessions - {session},
                      ssoSessions := Joined(state.ssoSessions, sso),
                      completed := state.completed + [Completion(session, user, sso)]);
      return None;
    }

    /** One sweep over pending and SSO sessions. */
    method PurgeExpired(now: int) returns (removed: nat)
      requires Inv(state)
      modifies this
      ensures Inv(state) && state == Next(old(state), Purge(now))
      ensures forall id :: id in state.sessions <==> id in old(state).sessions && old(state).sessions[id].expiresAt >= now
      ensures forall id :: id in state.sessions ==> state.sessions[id] == old(state).sessions[id]
      ensures forall id :: id in state.ssoSessions <==> id in old(state).ssoSessions && old(state).ssoSessions[id].expiresAt >= now
      ensures forall id :: id in state.ssoSessions ==> state.ssoSessions[id] == old(state).ssoSessions[id]
      ensures state.completed == old(state).completed
      ensures removed == |old(state).sessions| - |state.sessions| + |old(state).ssoSessions| - |state.ssoSessions|
    {
      StepKeepsInv(state, Purge(now));
      var sessions := map id | id in state.sessions && state.sessions[id].expiresAt >= now :: state.sessions[id];
      var ssoSessions := map id | id in state.ssoSessions && state.ssoSessions[id].expiresAt >= now :: state.ssoSessions[id];
      FewerKeys(sessions.Keys, state.sessions.Keys);
      FewerKeys(ssoSessions.Keys, state.ssoSessions.Keys);
      removed := |state.sessions| - |sessions| + (|state.ssoSessions| - |ssoSessions|);
      state := state.(sessions := sessions, ssoSessions := ssoSessions);
    }
  }

  lemma FewerKeys(a: set<nat>, b: set<nat>)
    requires a <= b
    ensures |a| <= |b|
  {
    assert b == a + (b - a);
  }

  lemma CompletionKeepsInv(s: State, session: SessionId, user: UserId, sso: Option<SsoId>)
    requires Inv(s) && session in s.sessions && s.sessions[session].user == Some(user)
    requires sso.Some? ==> sso.value in s.ssoSessions
    ensures Inv(s.(sessions := s.sessions - {session}, ssoSessions := Joined(s.ssoSessions, sso),
                   completed := s.completed + [Completion(session, user, sso)]))
  {
    var completed := s.completed + [Completion(session, user, sso)];
    assert completed[..|s.completed|] == s.completed;
  }
}
