/**
 * The authentication service's code over its tables: one method per stretch
 * between two awaits, each one step of the protocol, and the whole calls as
 * they run when nothing comes between.
 */
module AuthService {
  import opened Options
  import opened Sessions

  /**
   * Within the cap nothing changes; above it all but five of the user's live
   * sessions are revoked, none of them newer than one that stays.
   */
  ghost predicate Capped(before: map<Id, Session>, after: map<Id, Session>, user: Id, now: int) {
    && after.Keys == before.Keys
    && (forall id <- before ::
          after[id] == if id in LiveOf(before, user) - LiveOf(after, user) then before[id].(revokedAt := Some(now)) else before[id])
    && |LiveOf(after, user)| == (if |LiveOf(before, user)| <= 5 then |LiveOf(before, user)| else 5)
    && forall kept <- LiveOf(after, user), gone <- LiveOf(before, user) - LiveOf(after, user) :: before[gone].createdAt <= before[kept].createdAt
  }

  lemma AlreadyCapped(sessions: map<Id, Session>, user: Id, now: int)
    requires |LiveOf(sessions, user)| <= MAX_SESSIONS
    ensures Capped(sessions, sessions, user, now)
  {
  }

  lemma RevokingCaps(sessions: map<Id, Session>, user: Id, kept: set<Id>, now: int)
    requires |LiveOf(sessions, user)| > MAX_SESSIONS && NewestFive(sessions, LiveOf(sessions, user), kept)
    ensures Capped(sessions, RevokeThese(sessions, LiveOf(sessions, user) - kept, now), user, now)
  {
    var live := LiveOf(sessions, user);
    assert LiveOf(RevokeThese(sessions, live - kept, now), user) == kept;
    assert live - kept == live - LiveOf(RevokeThese(sessions, live - kept, now), user);
  }

  class AuthService {
    var sessions: map<Id, Session>
    var requests: map<Id, Request>

    ghost function State(): State
      reads this
    {
      Sessions.State(sessions, requests)
    }

    method BeginLogin(r: Id, user: Id)
      requires Enabled(State(), Event.Login(r, user))
      modifies this`requests
      ensures State() == Step(old(State()), Event.Login(r, user))
    {
      requests := requests[r := LoggingIn(user)];
    }

    /** Looks the token up and checks it; says whether the request goes on to rotate. */
    method FindSession(r: Id, token: Id, subject: Id, now: int) returns (outcome: Presented)
      requires Enabled(State(), Present(r, token, subject, now))
      modifies this`requests
      ensures outcome == Usable <==>
                && token in sessions && sessions[token].user == subject && sessions[token].revokedAt.None? && now <= sessions[token].expiresAt
      ensures outcome == Reuse <==>
                && token in sessions && sessions[token].user == subject && sessions[token].revokedAt.Some?
                && sessions[token].rotatedAt.Some? && sessions[token].rotatedAt.value + 60_000 < now
      ensures State() == Step(old(State()), Present(r, token, subject, now))
    {
      if token !in sessions || sessions[token].user != subject { return Rejected; }
      var session := sessions[token];
      if session.revokedAt.Some? {
        if session.rotatedAt.Some? && now - session.rotatedAt.value > REFRESH_REUSE_GRACE_MS {
          requests := requests[r := ReuseDetected(session.user)];
          return Reuse;
        }
        return Rejected;
      }
      if session.expiresAt < now { return Rejected; }
      requests := requests[r := Found(token)];
      return Usable;
    }

    /** The conditional update; `count` is the number of rows it changed. */
    method RotateSession(r: Id, now: int) returns (count: nat)
      requires Enabled(State(), Rotate(r, now))
      modifies this
      ensures State() == Step(old(State()), Rotate(r, now))
      ensures count == if Live(old(sessions), old(requests)[r].session) then 1 else 0
    {
      var id := requests[r].session;
      count := 0;
      if id in sessions && sessions[id].revokedAt.None? {
        sessions := sessions[id := sessions[id].(revokedAt := Some(now), rotatedAt := Some(now))];
        count := 1;
      }
      requests := if count != 1 then requests - {r} else requests[r := Rotated(id)];
    }

    method CreateSession(r: Id, id: Id, now: int, expiresAt: int)
      requires Enabled(State(), Create(r, id, now, expiresAt))
      modifies this
      ensures State() == Step(old(State()), Create(r, id, now, expiresAt))
    {
      match requests[r] {
        case LoggingIn(user) =>
          sessions := sessions[id := Session(user, id, None, now, expiresAt, None, None)];
          requests := requests[r := Created(user)];
        case Rotated(from) =>
          var session := sessions[from];
          sessions := sessions[id := Session(session.user, session.lineage, Some(from), now, expiresAt, None, None)];
          requests := requests[r := Created(session.user)];
      }
    }

    /** Lists the live sessions, newest first; `kept` are the first five of the list. */
    method ListSessions(r: Id, kept: set<Id>) returns (tooMany: bool)
      requires Enabled(State(), List(r, kept))
      modifies this`requests
      ensures State() == Step(old(State()), List(r, kept))
      ensures tooMany == (|LiveOf(sessions, old(requests)[r].user)| > MAX_SESSIONS)
    {
      var user := requests[r].user;
      var live := LiveOf(sessions, user);
      tooMany := |live| > MAX_SESSIONS;
      requests := if tooMany then requests[r := Listed(user, live - kept)] else requests - {r};
    }

    method RevokeOldSessions(r: Id, now: int)
      requires Enabled(State(), RevokeOld(r, now))
      modifies this
      ensures State() == Step(old(State()), RevokeOld(r, now))
    {
      sessions := RevokeThese(sessions, requests[r].toRevoke, now);
      requests := requests - {r};
    }

    method LogoutAll(user: Id, now: int)
      modifies this`sessions
      ensures State() == Step(old(State()), Event.LogoutAll(user, now))
    {
      sessions := RevokeThese(sessions, LiveOf(sessions, user), now);
    }

    /** Whether an access token is accepted: its session is its subject's, neither revoked nor expired. */
    method ValidateJwtUser(jti: Id, subject: Id, now: int) returns (valid: bool)
      ensures valid <==> jti in sessions && sessions[jti].user == subject && sessions[jti].revokedAt.None? && now <= sessions[jti].expiresAt
      ensures valid == Accepted(State(), jti, subject, now)
    {
      if jti !in sessions { return false; }
      var session := sessions[jti];
      valid := session.revokedAt.None? && session.expiresAt >= now && session.user == subject;
    }

    /** The newest of some sessions. */
    method Newest(ids: set<Id>) returns (best: Id)
      requires ids != {} && ids <= sessions.Keys
      ensures best in ids && forall id <- ids :: sessions[id].createdAt <= sessions[best].createdAt
    {
      best :| best in ids;
      var rest := ids - {best};
      while rest != {}
        invariant rest <= ids && best in ids
        invariant forall id <- ids - rest :: sessions[id].createdAt <= sessions[best].createdAt
        decreases |rest|
      {
        var id :| id in rest;
        if sessions[id].createdAt > sessions[best].createdAt { best := id; }
        rest := rest - {id};
      }
    }

    /** The first five of the sessions ordered newest first. */
    method FirstFive(live: set<Id>) returns (kept: set<Id>)
      requires |live| > MAX_SESSIONS && live <= sessions.Keys
      ensures NewestFive(sessions, live, kept)
    {
      kept := {};
      while |kept| < MAX_SESSIONS
        invariant kept <= live && |kept| <= MAX_SESSIONS
        invariant forall k <- kept, r <- live - kept :: sessions[r].createdAt <= sessions[k].createdAt
        decreases MAX_SESSIONS - |kept|
      {
        assert live == kept + (live - kept);
        var best := Newest(live - kept);
        kept := kept + {best};
      }
    }

    /** Creates a session for a login or a rotated one, and brings its user back within the cap. */
    method CreateSessionAndTokens(r: Id, id: Id, now: int, expiresAt: int)
      requires Enabled(State(), Create(r, id, now, expiresAt))
      modifies this
      ensures requests == old(requests) - {r}
      ensures var session := match old(requests)[r]
                             case LoggingIn(user) => Session(user, id, None, now, expiresAt, None, None)
                             case Rotated(from) =>
                               Session(old(sessions)[from].user, old(sessions)[from].lineage, Some(from), now, expiresAt, None, None);
              Capped(old(sessions)[id := session], sessions, session.user, now)
    {
      hide Capped;
      CreateSession(r, id, now, expiresAt);
      var user := requests[r].user;
      ghost var created := sessions;
      var kept := {};
      if |LiveOf(sessions, user)| > MAX_SESSIONS {
        kept := FirstFive(LiveOf(sessions, user));
      }
      var tooMany := ListSessions(r, kept);
      if tooMany {
        RevokeOldSessions(r, now);
        RevokingCaps(created, user, kept, now);
      } else {
        AlreadyCapped(created, user, now);
      }
    }

    /**
     * A whole refresh with nothing in between. A usable token is rotated into
     * exactly one new session; a reused one ends every session of its user; any
     * other changes no session.
     */
    method RefreshTokens(r: Id, token: Id, subject: Id, now: int, id: Id, expiresAt: int) returns (issued: bool)
      requires r !in requests && id !in sessions
      modifies this
      ensures requests == old(requests)
      ensures issued <==>
                && token in old(sessions) && old(sessions)[token].user == subject
                && old(sessions)[token].revokedAt.None? && now <= old(sessions)[token].expiresAt
      ensures issued ==>
                && sessions.Keys == old(sessions).Keys + {id}
                && sessions[id].user == subject && sessions[id].lineage == old(sessions)[token].lineage && sessions[id].parent == Some(token)
                && sessions[id].createdAt == now && sessions[id].expiresAt == expiresAt && sessions[id].rotatedAt.None?
                && sessions[token].rotatedAt == Some(now) && sessions[token].revokedAt.Some?
                && |LiveOf(sessions, subject)| <= 5
                && forall other <- old(sessions) | other != token ::
                     sessions[other] == old(sessions)[other] || sessions[other] == old(sessions)[other].(revokedAt := Some(now))
      ensures var reused := && token in old(sessions) && old(sessions)[token].user == subject && old(sessions)[token].revokedAt.Some?
                            && old(sessions)[token].rotatedAt.Some? && old(sessions)[token].rotatedAt.value + 60_000 < now;
              !issued ==>
                && sessions.Keys == old(sessions).Keys
                && forall other <- sessions ::
                     sessions[other] == if reused && old(sessions)[other].user == subject && old(sessions)[other].revokedAt.None?
                                        then old(sessions)[other].(revokedAt := Some(now)) else old(sessions)[other]
    {
      var outcome := FindSession(r, token, subject, now);
      if outcome == Reuse {
        LogoutAll(subject, now);
        requests := requests - {r};
      }
      if outcome != Usable { return false; }
      var count := RotateSession(r, now);
      if count != 1 { return false; }
      CreateSessionAndTokens(r, id, now, expiresAt);
      issued := true;
    }
  }
}
