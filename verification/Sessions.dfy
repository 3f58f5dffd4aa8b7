/**
 * Login, refresh-token rotation and the session cap, as concurrent requests.
 *
 * Every database statement is one atomic step; between two of them any other
 * request may run. A refresh token stands for the session it was issued with.
 * Clock readings and ids are part of the step that uses them.
 */
module Sessions {
  import opened Options

  type Id = nat

  /**
   * `lineage` is the first session of the chain of rotations a session belongs
   * to and `parent` the session it was rotated from: history for the proofs.
   */
  datatype Session = Session(
    user: Id,
    lineage: Id,
    parent: Option<Id>,
    createdAt: int,
    expiresAt: int,
    revokedAt: Option<int>,
    rotatedAt: Option<int>
  )

  /** How far a request has got: what it does next. */
  datatype Request =
    | LoggingIn(user: Id)
    | Found(session: Id)
    | Rotated(from: Id)
    | Created(user: Id)
    | Listed(user: Id, toRevoke: set<Id>)
    | ReuseDetected(user: Id)

  datatype State = State(sessions: map<Id, Session>, requests: map<Id, Request>)

  const REFRESH_REUSE_GRACE_MS := 60_000
  const MAX_SESSIONS := 5

  datatype Event =
    | Login(request: Id, user: Id)
    | Present(request: Id, token: Id, subject: Id, now: int)
    | Rotate(request: Id, now: int)
    | Create(request: Id, session: Id, now: int, expiresAt: int)
    | List(request: Id, kept: set<Id>)
    | RevokeOld(request: Id, now: int)
    | RevokeAll(request: Id, now: int)
    | Logout(user: Id, ids: set<Id>, now: int)
    | LogoutAll(user: Id, now: int)

  predicate Live(sessions: map<Id, Session>, id: Id) {
    id in sessions && sessions[id].revokedAt.None?
  }

  function LiveOf(sessions: map<Id, Session>, user: Id): set<Id> {
    set id <- sessions | sessions[id].revokedAt.None? && sessions[id].user == user
  }

  function Revoke(session: Session, now: int): Session {
    session.(revokedAt := Some(now))
  }

  /** `update sessions set revoked_at = now where id in ids`. */
  function RevokeThese(sessions: map<Id, Session>, ids: set<Id>, now: int): (after: map<Id, Session>)
    ensures after.Keys == sessions.Keys
  {
    map id <- sessions :: if id in ids then Revoke(sessions[id], now) else sessions[id]
  }

  /** What a presented token leads to before any write. */
  datatype Presented = Rejected | Reuse | Usable

  function CheckToken(sessions: map<Id, Session>, token: Id, subject: Id, now: int): Presented {
    if token !in sessions || sessions[token].user != subject then Rejected
    else
      var session := sessions[token];
      if session.revokedAt.Some? then
        if session.rotatedAt.Some? && now - session.rotatedAt.value > REFRESH_REUSE_GRACE_MS then Reuse else Rejected
      else if session.expiresAt < now then Rejected
      else Usable
  }

  /** The sessions a list step keeps when there are too many: five of the newest. */
  predicate NewestFive(sessions: map<Id, Session>, live: set<Id>, kept: set<Id>) {
    && kept <= live && |kept| == MAX_SESSIONS
    && forall k <- kept, r <- live - kept | k in sessions && r in sessions :: sessions[r].createdAt <= sessions[k].createdAt
  }

  predicate Enabled(s: State, e: Event) {
    match e
    case Login(r, _) => r !in s.requests
    case Present(r, _, _, _) => r !in s.requests
    case Rotate(r, _) => r in s.requests && s.requests[r].Found?
    case Create(r, id, _, _) =>
      r in s.requests && (s.requests[r].LoggingIn? || (s.requests[r].Rotated? && s.requests[r].from in s.sessions)) && id !in s.sessions
    case List(r, kept) =>
      && r in s.requests && s.requests[r].Created?
      && var live := LiveOf(s.sessions, s.requests[r].user);
         |live| > MAX_SESSIONS ==> NewestFive(s.sessions, live, kept)
    case RevokeOld(r, _) => r in s.requests && s.requests[r].Listed?
    case RevokeAll(r, _) => r in s.requests && s.requests[r].ReuseDetected?
    case Logout(_, _, _) => true
    case LogoutAll(_, _) => true
  }

  function Step(s: State, e: Event): State
    requires Enabled(s, e)
  {
    match e
    case Login(r, user) => s.(requests := s.requests[r := LoggingIn(user)])
    case Present(r, token, subject, now) => (
      match CheckToken(s.sessions, token, subject, now)
      case Rejected => s
      case Reuse => s.(requests := s.requests[r := ReuseDetected(s.sessions[token].user)])
      case Usable => s.(requests := s.requests[r := Found(token)]))
    case Rotate(r, now) =>
      var id := s.requests[r].session;
      if Live(s.sessions, id) then
        State(s.sessions[id := s.sessions[id].(revokedAt := Some(now), rotatedAt := Some(now))], s.requests[r := Rotated(id)])
      else s.(requests := s.requests - {r})
    case Create(r, id, now, expiresAt) =>
      var request := s.requests[r];
      var user := if request.LoggingIn? then request.user else s.sessions[request.from].user;
      var lineage := if request.LoggingIn? then id else s.sessions[request.from].lineage;
      var parent := if request.LoggingIn? then None else Some(request.from);
      State(s.sessions[id := Session(user, lineage, parent, now, expiresAt, None, None)], s.requests[r := Created(user)])
    case List(r, kept) =>
      var user := s.requests[r].user;
      var live := LiveOf(s.sessions, user);
      if |live| > MAX_SESSIONS then s.(requests := s.requests[r := Listed(user, live - kept)])
      else s.(requests := s.requests - {r})
    case RevokeOld(r, now) => State(RevokeThese(s.sessions, s.requests[r].toRevoke, now), s.requests - {r})
    case RevokeAll(r, now) =>
      State(RevokeThese(s.sessions, LiveOf(s.sessions, s.requests[r].user), now), s.requests - {r})
    case Logout(user, ids, now) => s.(sessions := RevokeThese(s.sessions, ids * LiveOf(s.sessions, user), now))
    case LogoutAll(user, now) => s.(sessions := RevokeThese(s.sessions, LiveOf(s.sessions, user), now))
  }

  /** A run: states linked by enabled steps, from an empty table with nothing in flight. */
  ghost predicate IsRun(states: seq<State>, events: seq<Event>) {
    && |states| == |events| + 1
    && states[0] == State(map[], map[])
    && forall i | 0 <= i < |events| :: Enabled(states[i], events[i]) && states[i + 1] == Step(states[i], events[i])
  }

  // ----- one live session per login

  /** What can hold a login chain: a live session, or a request about to create its successor. */
  datatype Holder = LiveSession(id: Id) | PendingRequest(id: Id)

  ghost predicate Holds(s: State, h: Holder, lineage: Id) {
    match h
    case LiveSession(id) => id in s.sessions && s.sessions[id].revokedAt.None? && s.sessions[id].lineage == lineage
    case PendingRequest(r) =>
      r in s.requests && s.requests[r].Rotated? && s.requests[r].from in s.sessions && s.sessions[s.requests[r].from].lineage == lineage
  }

  /** A login chain has at most one holder. */
  ghost predicate OneHolder(s: State) {
    forall g, h, lineage :: Holds(s, g, lineage) && Holds(s, h, lineage) ==> g == h
  }

  /** A session's chain starts at a session; a rotated one is revoked; its parent was rotated, in the same chain. */
  ghost predicate SessionSound(sessions: map<Id, Session>, id: Id) {
    id in sessions ==>
      && sessions[id].lineage in sessions
      && (sessions[id].rotatedAt.Some? ==> sessions[id].revokedAt.Some?)
      && (sessions[id].parent.Some? ==>
            var parent := sessions[id].parent.value;
            parent in sessions && sessions[parent].rotatedAt.Some? && sessions[parent].lineage == sessions[id].lineage)
  }

  ghost predicate SessionsSound(sessions: map<Id, Session>) {
    forall id {:trigger SessionSound(sessions, id)} :: SessionSound(sessions, id)
  }

  /** No two sessions were rotated from the same one. */
  ghost predicate Siblings(sessions: map<Id, Session>, a: Id, b: Id) {
    a in sessions && b in sessions && sessions[a].parent.Some? && sessions[a].parent == sessions[b].parent
  }

  ghost predicate OneSuccessor(sessions: map<Id, Session>) {
    forall a, b {:trigger Siblings(sessions, a, b)} :: Siblings(sessions, a, b) ==> a == b
  }

  /** A request about to create a successor follows a rotated session that has none yet. */
  ghost predicate RequestSound(sessions: map<Id, Session>, request: Request) {
    request.Rotated? ==>
      && request.from in sessions && sessions[request.from].rotatedAt.Some?
      && forall id <- sessions :: sessions[id].parent != Some(request.from)
  }

  ghost predicate RequestsSound(s: State) {
    forall r <- s.requests :: RequestSound(s.sessions, s.requests[r])
  }

  ghost predicate RotationInvariant(s: State) {
    OneHolder(s) && RequestsSound(s) && SessionsSound(s.sessions) && OneSuccessor(s.sessions)
  }

  lemma FewerHolders(s: State, t: State)
    requires OneHolder(s) && forall h, lineage :: Holds(t, h, lineage) ==> Holds(s, h, lineage)
    ensures OneHolder(t)
  {
  }

  /** The same requests, and the same sessions with some revoked. */
  lemma RevokingKeeps(s: State, ids: set<Id>, now: int)
    requires RotationInvariant(s)
    ensures RotationInvariant(s.(sessions := RevokeThese(s.sessions, ids, now)))
  {
    var t := s.(sessions := RevokeThese(s.sessions, ids, now));
    FewerHolders(s, t);
    forall id ensures SessionSound(t.sessions, id) { assert SessionSound(s.sessions, id); }
    forall a, b ensures Siblings(t.sessions, a, b) ==> a == b { assert Siblings(s.sessions, a, b) ==> a == b; }
    forall r <- t.requests ensures RequestSound(t.sessions, t.requests[r]) {
      assert RequestSound(s.sessions, s.requests[r]);
    }
  }

  /** A request that holds no login chain may come, change or go. */
  lemma RequestKeeps(s: State, requests: map<Id, Request>, r: Id)
    requires RotationInvariant(s)
    requires r in requests ==> !requests[r].Rotated?
    requires forall q <- requests | q != r :: q in s.requests && requests[q] == s.requests[q]
    ensures RotationInvariant(s.(requests := requests))
  {
    hide OneHolder;
    hide SessionsSound;
    hide OneSuccessor;
    FewerHolders(s, s.(requests := requests));
  }

  function RotatedAt(session: Session, now: int): Session {
    session.(revokedAt := Some(now), rotatedAt := Some(now))
  }

  /** The conditional update passes the chain from the session to the request. */
  lemma RotateKeeps(s: State, r: Id, now: int)
    requires RotationInvariant(s) && Enabled(s, Rotate(r, now)) && Live(s.sessions, s.requests[r].session)
    ensures RotationInvariant(Step(s, Rotate(r, now)))
  {
    var id := s.requests[r].session;
    var t := Step(s, Rotate(r, now));
    RotateHolders(s, r, now);
    assert t.sessions == s.sessions[id := RotatedAt(s.sessions[id], now)];
    forall x ensures SessionSound(t.sessions, x) { assert SessionSound(s.sessions, x); }
    forall a, b ensures Siblings(t.sessions, a, b) ==> a == b { assert Siblings(s.sessions, a, b) ==> a == b; }
    forall q <- t.requests ensures RequestSound(t.sessions, t.requests[q]) {
      if q == r { NoSuccessorYet(s.sessions, id); } else { assert RequestSound(s.sessions, s.requests[q]); }
    }
  }

  /** A live session has no successor. */
  lemma NoSuccessorYet(sessions: map<Id, Session>, id: Id)
    requires SessionsSound(sessions) && Live(sessions, id)
    ensures forall x <- sessions :: sessions[x].parent != Some(id)
  {
    forall x <- sessions ensures sessions[x].parent != Some(id) {
      assert SessionSound(sessions, x) && SessionSound(sessions, id);
    }
  }

  lemma RotateHolders(s: State, r: Id, now: int)
    requires OneHolder(s) && Enabled(s, Rotate(r, now)) && Live(s.sessions, s.requests[r].session)
    ensures OneHolder(Step(s, Rotate(r, now)))
  {
    var id := s.requests[r].session;
    var t := Step(s, Rotate(r, now));
    forall g, h, lineage | Holds(t, g, lineage) && Holds(t, h, lineage) ensures g == h {
      assert Holds(s, if g == PendingRequest(r) then LiveSession(id) else g, lineage);
      assert Holds(s, if h == PendingRequest(r) then LiveSession(id) else h, lineage);
    }
  }

  /** The insert passes the chain from the request to the new session. */
  lemma CreateKeeps(s: State, r: Id, id: Id, now: int, expiresAt: int)
    requires RotationInvariant(s) && Enabled(s, Create(r, id, now, expiresAt))
    ensures RotationInvariant(Step(s, Create(r, id, now, expiresAt)))
  {
    var t := Step(s, Create(r, id, now, expiresAt));
    CreateHolders(s, r, id, now, expiresAt);
    assert RequestSound(s.sessions, s.requests[r]);
    forall x ensures SessionSound(t.sessions, x) {
      assert SessionSound(s.sessions, x);
      if s.requests[r].Rotated? { assert SessionSound(s.sessions, s.requests[r].from); }
    }
    forall a, b ensures Siblings(t.sessions, a, b) ==> a == b { assert Siblings(s.sessions, a, b) ==> a == b; }
    forall q <- t.requests ensures RequestSound(t.sessions, t.requests[q]) {
      if q != r {
        assert RequestSound(s.sessions, s.requests[q]);
        if s.requests[q].Rotated? && s.requests[r].Rotated? { DifferentOrigins(s, q, r); }
      }
    }
  }

  /** Two requests about to create a successor follow different sessions. */
  lemma DifferentOrigins(s: State, q: Id, r: Id)
    requires OneHolder(s) && q in s.requests && r in s.requests && q != r
    requires s.requests[q].Rotated? && s.requests[r].Rotated? && s.requests[q].from in s.sessions && s.requests[r].from in s.sessions
    ensures s.requests[q].from != s.requests[r].from
  {
    assert Holds(s, PendingRequest(q), s.sessions[s.requests[q].from].lineage);
    assert Holds(s, PendingRequest(r), s.sessions[s.requests[r].from].lineage);
  }

  lemma CreateHolders(s: State, r: Id, id: Id, now: int, expiresAt: int)
    requires RotationInvariant(s) && Enabled(s, Create(r, id, now, expiresAt))
    ensures OneHolder(Step(s, Create(r, id, now, expiresAt)))
  {
    var t := Step(s, Create(r, id, now, expiresAt));
    forall g, h, lineage | Holds(t, g, lineage) && Holds(t, h, lineage) ensures g == h {
      if s.requests[r].Rotated? {
        assert Holds(s, if g == LiveSession(id) then PendingRequest(r) else g, lineage) by { HeldBefore(s, t, r, id, g, lineage); }
        assert Holds(s, if h == LiveSession(id) then PendingRequest(r) else h, lineage) by { HeldBefore(s, t, r, id, h, lineage); }
      } else {
        if g != LiveSession(id) { HeldBefore(s, t, r, id, g, lineage); ChainStarted(s, g, lineage); }
        if h != LiveSession(id) { HeldBefore(s, t, r, id, h, lineage); ChainStarted(s, h, lineage); }
      }
    }
  }

  /** Whatever holds a chain after the insert held it before, or is the new session. */
  lemma HeldBefore(s: State, t: State, r: Id, id: Id, h: Holder, lineage: Id)
    requires RequestsSound(s) && r in s.requests && id !in s.sessions && Holds(t, h, lineage)
    requires t.sessions.Keys == s.sessions.Keys + {id} && forall x <- s.sessions :: t.sessions[x] == s.sessions[x]
    requires t.requests == s.requests[r := Created(t.sessions[id].user)]
    ensures h != LiveSession(id) ==> Holds(s, h, lineage) && h != PendingRequest(r)
  {
    if h.PendingRequest? && h.id in s.requests { assert RequestSound(s.sessions, s.requests[h.id]); }
  }

  lemma ChainStarted(s: State, h: Holder, lineage: Id)
    requires SessionsSound(s.sessions) && Holds(s, h, lineage)
    ensures lineage in s.sessions
  {
    match h
    case LiveSession(id) => assert SessionSound(s.sessions, id);
    case PendingRequest(r) => assert SessionSound(s.sessions, s.requests[r].from);
  }

  lemma StepKeepsRotation(s: State, e: Event)
    requires RotationInvariant(s) && Enabled(s, e)
    ensures RotationInvariant(Step(s, e))
  {
    hide RotationInvariant;
    match e
    case Login(r, user) => RequestKeeps(s, s.requests[r := LoggingIn(user)], r);
    case Present(r, token, subject, now) =>
      RequestKeeps(s, s.requests[r := ReuseDetected(if token in s.sessions then s.sessions[token].user else 0)], r);
      RequestKeeps(s, s.requests[r := Found(token)], r);
    case Rotate(r, now) =>
      if Live(s.sessions, s.requests[r].session) { RotateKeeps(s, r, now); } else { RequestKeeps(s, s.requests - {r}, r); }
    case Create(r, id, now, expiresAt) => CreateKeeps(s, r, id, now, expiresAt);
    case List(r, kept) =>
      RequestKeeps(s, s.requests[r := Listed(s.requests[r].user, LiveOf(s.sessions, s.requests[r].user) - kept)], r);
      RequestKeeps(s, s.requests - {r}, r);
    case RevokeOld(r, now) =>
      RequestKeeps(s, s.requests - {r}, r);
      RevokingKeeps(s.(requests := s.requests - {r}), s.requests[r].toRevoke, now);
    case RevokeAll(r, now) =>
      RequestKeeps(s, s.requests - {r}, r);
      RevokingKeeps(s.(requests := s.requests - {r}), LiveOf(s.sessions, s.requests[r].user), now);
    case Logout(user, ids, now) => RevokingKeeps(s, ids * LiveOf(s.sessions, user), now);
    case LogoutAll(user, now) => RevokingKeeps(s, LiveOf(s.sessions, user), now);
  }

  /**
   * In every reachable state every login chain has at most one live session,
   * and every session has been rotated into at most one successor.
   */
  lemma {:induction false} RotationSafe(states: seq<State>, events: seq<Event>, i: nat)
    requires IsRun(states, events) && i < |states|
    ensures RotationInvariant(states[i])
  {
    if i == 0 {
      NothingYet();
    } else {
      RotationSafe(states, events, i - 1);
      assert Enabled(states[i - 1], events[i - 1]);
      StepKeepsRotation(states[i - 1], events[i - 1]);
    }
  }

  /** In every reachable state two live sessions of one login are the same, and so are two sessions rotated from one. */
  lemma OneLiveSessionPerLogin(states: seq<State>, events: seq<Event>, i: nat, a: Id, b: Id)
    requires IsRun(states, events) && i < |states| && a in states[i].sessions && b in states[i].sessions
    ensures (Live(states[i].sessions, a) && Live(states[i].sessions, b)
             && states[i].sessions[a].lineage == states[i].sessions[b].lineage) ==> a == b
    ensures states[i].sessions[a].parent.Some? && states[i].sessions[a].parent == states[i].sessions[b].parent ==> a == b
  {
    RotationSafe(states, events, i);
    var s := states[i];
    assert Live(s.sessions, a) ==> Holds(s, LiveSession(a), s.sessions[a].lineage);
    assert Live(s.sessions, b) ==> Holds(s, LiveSession(b), s.sessions[b].lineage);
    assert Siblings(s.sessions, a, b) ==> a == b;
  }

  lemma NothingYet()
    ensures RotationInvariant(State(map[], map[]))
  {
  }

  // ----- revoked sessions stay revoked

  /** Whether an access token of session `jti` is accepted. */
  predicate Accepted(s: State, jti: Id, subject: Id, now: int) {
    jti in s.sessions && s.sessions[jti].revokedAt.None? && s.sessions[jti].expiresAt >= now && s.sessions[jti].user == subject
  }

  lemma StepOnlyRevokes(s: State, e: Event, id: Id)
    requires Enabled(s, e) && id in s.sessions
    ensures id in Step(s, e).sessions
    ensures s.sessions[id].revokedAt.Some? ==> Step(s, e).sessions[id].revokedAt.Some?
    ensures Step(s, e).sessions[id].expiresAt == s.sessions[id].expiresAt && Step(s, e).sessions[id].user == s.sessions[id].user
  {
  }

  /** Once a session is revoked, no access token of it is accepted in any later state. */
  lemma {:induction false} RevokedForever(states: seq<State>, events: seq<Event>, i: nat, j: nat, id: Id, subject: Id, now: int)
    requires IsRun(states, events) && i <= j < |states|
    requires id in states[i].sessions && states[i].sessions[id].revokedAt.Some?
    ensures id in states[j].sessions && states[j].sessions[id].revokedAt.Some?
    ensures !Accepted(states[j], id, subject, now)
    decreases j
  {
    if i < j {
      RevokedForever(states, events, i, j - 1, id, subject, now);
      assert Enabled(states[j - 1], events[j - 1]);
      StepOnlyRevokes(states[j - 1], events[j - 1], id);
    }
  }

  // ----- reuse of a rotated token

  /** Step `k` is the update of a refresh that finds this session live. */
  ghost predicate RotatedBy(states: seq<State>, events: seq<Event>, k: nat, id: Id) {
    && k < |events| && k < |states| && events[k].Rotate?
    && events[k].request in states[k].requests && states[k].requests[events[k].request] == Found(id)
    && Live(states[k].sessions, id)
  }

  /** Only the update of a refresh marks a session as rotated. */
  lemma StepRotates(s: State, e: Event, id: Id)
    requires Enabled(s, e) && id in Step(s, e).sessions
    ensures id !in s.sessions ==> Step(s, e).sessions[id].rotatedAt.None?
    ensures id in s.sessions ==>
              Step(s, e).sessions[id].rotatedAt
              == if e.Rotate? && s.requests[e.request] == Found(id) && Live(s.sessions, id) then Some(e.now) else s.sessions[id].rotatedAt
  {
  }

  lemma {:induction false} SessionsStay(states: seq<State>, events: seq<Event>, i: nat, n: nat, id: Id)
    requires IsRun(states, events) && i <= n < |states| && id in states[i].sessions
    ensures id in states[n].sessions
    decreases n
  {
    if i < n {
      SessionsStay(states, events, i, n - 1, id);
      assert Enabled(states[n - 1], events[n - 1]);
      StepKeepsChain(states[n - 1], events[n - 1], id);
    }
  }

  /** A session is marked as rotated at `at` exactly when some refresh found it live and updated it then. */
  lemma {:induction false} RotatedExactly(states: seq<State>, events: seq<Event>, n: nat, id: Id, at: int)
    requires IsRun(states, events) && n < |states| && id in states[n].sessions
    ensures states[n].sessions[id].rotatedAt == Some(at) <==> exists k :: 0 <= k < n && RotatedBy(states, events, k, id) && events[k].now == at
    decreases n
  {
    if n > 0 {
      var s, e := states[n - 1], events[n - 1];
      assert Enabled(s, e) && states[n] == Step(s, e);
      StepRotates(s, e, id);
      hide Step;
      if id in s.sessions {
        RotatedExactly(states, events, n - 1, id, at);
        RotationSafe(states, events, n - 1);
        assert SessionSound(s.sessions, id);
        if RotatedBy(states, events, n - 1, id) {
          assert s.sessions[id].rotatedAt.None? && states[n].sessions[id].rotatedAt == Some(e.now);
        }
      } else {
        forall k | 0 <= k < n && RotatedBy(states, events, k, id) ensures false {
          SessionsStay(states, events, k, n - 1, id);
        }
      }
    }
  }

  // ----- no refresh after expiry

  /** The session a refresh has presented and not yet continued. */
  function Origin(request: Request): Option<Id> {
    match request
    case Found(session) => Some(session)
    case Rotated(from) => Some(from)
    case _ => None
  }

  /** A step that presents this token to its owner's account while the session is live and has not expired. */
  ghost predicate InTime(s: State, e: Event, token: Id) {
    && e.Present? && e.token == token && token in s.sessions
    && s.sessions[token].user == e.subject && s.sessions[token].revokedAt.None? && e.now <= s.sessions[token].expiresAt
  }

  ghost predicate WasInTime(states: seq<State>, events: seq<Event>, n: nat, token: Id) {
    exists k :: 0 <= k < n && k < |states| && k < |events| && InTime(states[k], events[k], token)
  }

  lemma StepOrigins(s: State, e: Event, token: Id)
    requires Enabled(s, e)
    ensures forall r <- Step(s, e).requests | Origin(Step(s, e).requests[r]) == Some(token) ::
              (r in s.requests && Origin(s.requests[r]) == Some(token)) || InTime(s, e, token)
    ensures forall id <- Step(s, e).sessions | Step(s, e).sessions[id].parent == Some(token) ::
              (id in s.sessions && s.sessions[id].parent == Some(token)) || exists r <- s.requests :: Origin(s.requests[r]) == Some(token)
  {
  }

  /** Every refresh under way, and every session that came of one, goes back to a token presented in time. */
  lemma {:induction false} OriginsInTime(states: seq<State>, events: seq<Event>, n: nat, token: Id)
    requires IsRun(states, events) && n < |states|
    ensures (exists r <- states[n].requests :: Origin(states[n].requests[r]) == Some(token)) ==> WasInTime(states, events, n, token)
    ensures (exists id <- states[n].sessions :: states[n].sessions[id].parent == Some(token)) ==> WasInTime(states, events, n, token)
  {
    if n > 0 {
      OriginsInTime(states, events, n - 1, token);
      assert Enabled(states[n - 1], events[n - 1]) && states[n] == Step(states[n - 1], events[n - 1]);
      StepOrigins(states[n - 1], events[n - 1], token);
    }
  }

  lemma {:induction false} ExpiryStays(states: seq<State>, events: seq<Event>, i: nat, n: nat, id: Id)
    requires IsRun(states, events) && i <= n < |states| && id in states[i].sessions
    ensures id in states[n].sessions
    ensures states[n].sessions[id].user == states[i].sessions[id].user && states[n].sessions[id].expiresAt == states[i].sessions[id].expiresAt
    decreases n
  {
    if i < n {
      ExpiryStays(states, events, i, n - 1, id);
      assert Enabled(states[n - 1], events[n - 1]);
      StepOnlyRevokes(states[n - 1], events[n - 1], id);
    }
  }

  /**
   * In every run a session that came of a refresh goes back to its parent's token
   * having been presented by its owner, not revoked, and no later than it
   * expired: a token first presented after that never gets a successor.
   */
  lemma RefreshedInTime(states: seq<State>, events: seq<Event>, n: nat, id: Id, token: Id) returns (k: nat)
    requires IsRun(states, events) && n < |states| && id in states[n].sessions && states[n].sessions[id].parent == Some(token)
    ensures k < n && token in states[n].sessions && events[k].Present? && events[k].token == token
    ensures events[k].subject == states[n].sessions[token].user && events[k].now <= states[n].sessions[token].expiresAt
    ensures Live(states[k].sessions, token)
  {
    OriginsInTime(states, events, n, token);
    k :| 0 <= k < n && k < |states| && k < |events| && InTime(states[k], events[k], token);
    ExpiryStays(states, events, k, n, token);
  }

  // ----- reuse

  /**
   * In every run a presented token counts as reused exactly when a refresh has
   * rotated its session longer ago than the grace window: a session that was
   * ended by a logout, the cap or an earlier reuse does not. If it is revoked and
   * not reused, presenting it changes nothing.
   */
  lemma ReuseExactly(states: seq<State>, events: seq<Event>, n: nat, token: Id, subject: Id, now: int)
    requires IsRun(states, events) && n < |states|
    ensures CheckToken(states[n].sessions, token, subject, now) == Reuse
            <==> && token in states[n].sessions && states[n].sessions[token].user == subject
                 && exists k :: 0 <= k < n && RotatedBy(states, events, k, token) && events[k].now + REFRESH_REUSE_GRACE_MS < now
    ensures CheckToken(states[n].sessions, token, subject, now) != Reuse
            && token in states[n].sessions && states[n].sessions[token].revokedAt.Some? ==>
              forall r | Enabled(states[n], Present(r, token, subject, now)) :: Step(states[n], Present(r, token, subject, now)) == states[n]
  {
    if token in states[n].sessions {
      var session := states[n].sessions[token];
      RotationSafe(states, events, n);
      assert SessionSound(states[n].sessions, token);
      if session.rotatedAt.Some? { RotatedExactly(states, events, n, token, session.rotatedAt.value); }
      forall k | 0 <= k < n && RotatedBy(states, events, k, token) ensures session.rotatedAt == Some(events[k].now) {
        RotatedExactly(states, events, n, token, events[k].now);
      }
    }
  }

  lemma StepKeepsChain(s: State, e: Event, id: Id)
    requires Enabled(s, e) && id in s.sessions
    ensures id in Step(s, e).sessions
    ensures Step(s, e).sessions[id].user == s.sessions[id].user && Step(s, e).sessions[id].lineage == s.sessions[id].lineage
  {
  }

  /** A chain of rotations stays with the user who logged in. */
  lemma {:induction false} ChainUser(states: seq<State>, events: seq<Event>, n: nat, id: Id)
    requires IsRun(states, events) && n < |states| && id in states[n].sessions
    ensures var sessions := states[n].sessions;
            sessions[id].lineage in sessions && sessions[sessions[id].lineage].user == sessions[id].user
    decreases n
  {
    if n > 0 {
      var s, e := states[n - 1], events[n - 1];
      assert Enabled(s, e) && states[n] == Step(s, e);
      if id in s.sessions {
        ChainUser(states, events, n - 1, id);
        StepKeepsChain(s, e, id);
        StepKeepsChain(s, e, s.sessions[id].lineage);
      } else if s.requests[e.request].Rotated? {
        var from := s.requests[e.request].from;
        ChainUser(states, events, n - 1, from);
        StepKeepsChain(s, e, s.sessions[from].lineage);
      }
    }
  }

  ghost predicate Dead(s: State, lineage: Id) {
    lineage in s.sessions && forall h :: !Holds(s, h, lineage)
  }

  lemma DeadStep(s: State, e: Event, lineage: Id)
    requires Enabled(s, e) && Dead(s, lineage)
    ensures Dead(Step(s, e), lineage)
  {
    var t := Step(s, e);
    forall h ensures !Holds(t, h, lineage) {
      assert !Holds(s, h, lineage);
      if e.Create? && s.requests[e.request].Rotated? { assert !Holds(s, PendingRequest(e.request), lineage); }
      if e.Rotate? { assert !Holds(s, LiveSession(s.requests[e.request].session), lineage); }
    }
  }

  /** A chain that nothing holds is never held again. */
  lemma {:induction false} DeadForever(states: seq<State>, events: seq<Event>, i: nat, n: nat, lineage: Id)
    requires IsRun(states, events) && i <= n < |states| && Dead(states[i], lineage)
    ensures Dead(states[n], lineage)
    decreases n
  {
    hide Dead;
    if i < n {
      DeadForever(states, events, i, n - 1, lineage);
      assert Enabled(states[n - 1], events[n - 1]);
      DeadStep(states[n - 1], events[n - 1], lineage);
    }
  }

  /** A request that has detected reuse stays so until it revokes. */
  lemma {:induction false} DetectedUntilRevoked(states: seq<State>, events: seq<Event>, i: nat, j: nat, r: Id, user: Id)
    requires IsRun(states, events) && i <= j < |states|
    requires r in states[i].requests && states[i].requests[r] == ReuseDetected(user)
    requires forall k | i <= k < j :: !(events[k].RevokeAll? && events[k].request == r)
    ensures r in states[j].requests && states[j].requests[r] == ReuseDetected(user)
    decreases j
  {
    if i < j {
      DetectedUntilRevoked(states, events, i, j - 1, r, user);
      assert Enabled(states[j - 1], events[j - 1]) && states[j] == Step(states[j - 1], events[j - 1]);
    }
  }

  /** The revocation leaves a chain of its user without holders, unless a rotation of it is under way. */
  lemma RevokeAllKills(s: State, r: Id, now: int, lineage: Id)
    requires Enabled(s, RevokeAll(r, now)) && lineage in s.sessions
    requires forall id <- s.sessions | s.sessions[id].lineage == lineage :: s.sessions[id].user == s.requests[r].user
    requires forall q :: !Holds(s, PendingRequest(q), lineage)
    ensures Dead(Step(s, RevokeAll(r, now)), lineage)
  {
    var t := Step(s, RevokeAll(r, now));
    forall h ensures !Holds(t, h, lineage) {
      if h.PendingRequest? { assert !Holds(s, h, lineage); }
    }
  }

  lemma {:induction false} SameUser(states: seq<State>, events: seq<Event>, i: nat, n: nat, id: Id)
    requires IsRun(states, events) && i <= n < |states| && id in states[i].sessions
    ensures id in states[n].sessions && states[n].sessions[id].user == states[i].sessions[id].user
    decreases n
  {
    if i < n {
      SameUser(states, events, i, n - 1, id);
      assert Enabled(states[n - 1], events[n - 1]);
      StepKeepsChain(states[n - 1], events[n - 1], id);
    }
  }

  /**
   * A reused token ends every session its user has. Presented at `i`, whatever
   * other requests do before and after the revocation at `j`, a session of the
   * user that is live later was created after `j`: by a login, or in a chain
   * that a refresh had rotated but not yet continued at that moment.
   */
  lemma ReuseEndsEverySession(states: seq<State>, events: seq<Event>, i: nat, j: nat, n: nat, r: Id, token: Id, subject: Id, now: int, id: Id)
    requires IsRun(states, events) && i < j < n < |states|
    requires events[i] == Present(r, token, subject, now) && CheckToken(states[i].sessions, token, subject, now) == Reuse
    requires events[j].RevokeAll? && events[j].request == r
    requires forall k | i < k < j :: !(events[k].RevokeAll? && events[k].request == r)
    requires Live(states[n].sessions, id) && states[n].sessions[id].user == subject
    ensures id !in states[j].sessions
    ensures var lineage := states[n].sessions[id].lineage;
            lineage !in states[j].sessions || exists q :: Holds(states[j], PendingRequest(q), lineage)
  {
    var s, lineage := states[j], states[n].sessions[id].lineage;
    assert Enabled(states[i], events[i]) && Enabled(s, events[j]) && states[j + 1] == Step(s, events[j]);
    DetectedUntilRevoked(states, events, i + 1, j, r, subject);
    assert Holds(states[n], LiveSession(id), lineage);
    if id in s.sessions {
      SameUser(states, events, j, n, id);
      RevokedForever(states, events, j + 1, n, id, subject, now);
    }
    if lineage in s.sessions && forall q :: !Holds(s, PendingRequest(q), lineage) {
      ChainUser(states, events, n, id);
      SameUser(states, events, j, n, lineage);
      forall x <- s.sessions | s.sessions[x].lineage == lineage ensures s.sessions[x].user == subject { ChainUser(states, events, j, x); }
      RevokeAllKills(s, r, events[j].now, lineage);
      DeadForever(states, events, j + 1, n, lineage);
    }
  }

  lemma Extend(states: seq<State>, events: seq<Event>, e: Event) returns (after: seq<State>, more: seq<Event>)
    requires IsRun(states, events) && Enabled(states[|events|], e)
    ensures after == states + [Step(states[|events|], e)] && more == events + [e] && IsRun(after, more)
  {
    hide Step;
    hide Enabled;
    after, more := states + [Step(states[|events|], e)], events + [e];
    forall i | 0 <= i < |more| ensures Enabled(after[i], more[i]) && after[i + 1] == Step(after[i], more[i]) {
      if i < |events| {
        assert more[i] == events[i] && after[i] == states[i] && after[i + 1] == states[i + 1];
      }
    }
  }

  /**
   * Such a refresh does get through, whatever the run was: its insert is not
   * conditional, so the chain it holds is live again after the revocation.
   */
  lemma RotationUnderWaySurvives(states: seq<State>, events: seq<Event>, r: Id, q: Id, at: int, id: Id, now: int, expiresAt: int, lineage: Id)
    returns (after: seq<State>, more: seq<Event>)
    requires IsRun(states, events)
    requires var s := states[|events|];
             && Enabled(s, RevokeAll(r, at)) && Holds(s, PendingRequest(q), lineage) && id !in s.sessions
             && lineage in s.sessions && s.sessions[lineage].user == s.requests[r].user
    ensures IsRun(after, more) && more == events + [RevokeAll(r, at), Create(q, id, now, expiresAt)]
    ensures var user, sessions := states[|events|].requests[r].user, after[|more|].sessions;
            Live(sessions, id) && sessions[id].lineage == lineage && LiveOf(sessions, user) == {id}
    ensures now <= expiresAt ==> Accepted(after[|more|], id, states[|events|].requests[r].user, now)
    ensures states <= after && LiveOf(after[|more| - 1].sessions, states[|events|].requests[r].user) == {}
  {
    var s := states[|events|];
    ChainUser(states, events, |events|, s.requests[q].from);
    after, more := Extend(states, events, RevokeAll(r, at));
    after, more := Extend(after, more, Create(q, id, now, expiresAt));
  }

  /**
   * And such runs exist, for every user and all ids and times: a login, a refresh,
   * a second refresh up to its update, and the first token presented once more
   * when its grace window is over.
   */
  lemma ReuseDuringRotation(user: Id, requests: seq<Id>, ids: seq<Id>, start: int, late: int, expiresAt: int)
    returns (states: seq<State>, events: seq<Event>)
    requires |requests| == 4 && |ids| == 3
    requires forall i, j | 0 <= i < j < 4 :: requests[i] != requests[j]
    requires forall i, j | 0 <= i < j < 3 :: ids[i] != ids[j]
    requires start + REFRESH_REUSE_GRACE_MS < late <= expiresAt
    ensures IsRun(states, events) && |events| == 10
    ensures events[7] == Present(requests[3], ids[0], user, late)
    ensures CheckToken(states[7].sessions, ids[0], user, late) == Reuse
    ensures events[8] == RevokeAll(requests[3], late)
    ensures LiveOf(states[9].sessions, user) == {} && LiveOf(states[10].sessions, user) == {ids[2]}
    ensures Accepted(states[10], ids[2], user, late)
  {
    var a, b, c, first, second, again := ids[0], ids[1], ids[2], requests[1], requests[2], requests[3];
    hide Step;
    hide Enabled;
    hide IsRun;
    states, events := LogIn(requests[0], user, a, start, expiresAt);
    states, events := RefreshUpToUpdate(states, events, first, a, user, start);
    states, events := InsertSuccessor(states, events, first, b, start, expiresAt);
    states, events := RefreshUpToUpdate(states, events, second, b, user, late);
    states, events := PresentReused(states, events, again, a, user, late);
    states, events := RotationUnderWaySurvives(states, events, again, second, late, c, late, expiresAt, a);
  }

  /** A login on empty tables, up to its insert. */
  lemma LogIn(r: Id, user: Id, id: Id, now: int, expiresAt: int) returns (states: seq<State>, events: seq<Event>)
    ensures IsRun(states, events) && |events| == 2
    ensures states[2] == State(map[id := Session(user, id, None, now, expiresAt, None, None)], map[r := Created(user)])
  {
    assert IsRun([State(map[], map[])], []);
    states, events := Extend([State(map[], map[])], [], Login(r, user));
    states, events := Extend(states, events, Create(r, id, now, expiresAt));
  }

  lemma RefreshUpToUpdate(states: seq<State>, events: seq<Event>, r: Id, token: Id, subject: Id, now: int)
    returns (after: seq<State>, more: seq<Event>)
    requires IsRun(states, events) && r !in states[|events|].requests
    requires Live(states[|events|].sessions, token) && states[|events|].sessions[token].user == subject
    requires now <= states[|events|].sessions[token].expiresAt
    ensures IsRun(after, more) && |more| == |events| + 2
    ensures var s := states[|events|];
            after[|more|] == State(s.sessions[token := RotatedAt(s.sessions[token], now)], s.requests[r := Rotated(token)])
  {
    var s := states[|events|];
    after, more := Extend(states, events, Present(r, token, subject, now));
    assert after[|more|] == s.(requests := s.requests[r := Found(token)]);
    after, more := Extend(after, more, Rotate(r, now));
    assert s.requests[r := Found(token)][r := Rotated(token)] == s.requests[r := Rotated(token)];
  }

  lemma InsertSuccessor(states: seq<State>, events: seq<Event>, r: Id, id: Id, now: int, expiresAt: int)
    returns (after: seq<State>, more: seq<Event>)
    requires IsRun(states, events) && r in states[|events|].requests && states[|events|].requests[r].Rotated?
    requires states[|events|].requests[r].from in states[|events|].sessions && id !in states[|events|].sessions
    ensures IsRun(after, more) && |more| == |events| + 1
    ensures var s, from := states[|events|], states[|events|].requests[r].from;
            after[|more|] == State(s.sessions[id := Session(s.sessions[from].user, s.sessions[from].lineage, Some(from), now, expiresAt, None, None)],
                                   s.requests[r := Created(s.sessions[from].user)])
  {
    after, more := Extend(states, events, Create(r, id, now, expiresAt));
  }

  lemma PresentReused(states: seq<State>, events: seq<Event>, r: Id, token: Id, subject: Id, now: int)
    returns (after: seq<State>, more: seq<Event>)
    requires IsRun(states, events) && r !in states[|events|].requests
    requires CheckToken(states[|events|].sessions, token, subject, now) == Reuse
    ensures IsRun(after, more) && after == states + [after[|more|]] && more == events + [Present(r, token, subject, now)]
    ensures after[|more|] == states[|events|].(requests := states[|events|].requests[r := ReuseDetected(subject)])
  {
    after, more := Extend(states, events, Present(r, token, subject, now));
  }

  // ----- the session cap

  /** A request on which the cap rests: it has yet to list, or has listed all but five of those still live. */
  ghost predicate CleansUp(live: set<Id>, request: Request, user: Id) {
    || request == Created(user)
    || (request.Listed? && request.user == user && |live - request.toRevoke| <= MAX_SESSIONS)
  }

  /** Either the user is within the cap, or some request will bring them back within it. */
  ghost predicate CapInvariant(s: State, user: Id) {
    var live := LiveOf(s.sessions, user);
    |live| <= MAX_SESSIONS || exists r <- s.requests :: CleansUp(live, s.requests[r], user)
  }

  lemma {:induction false} SubsetSize(s: set<Id>, t: set<Id>)
    requires s <= t
    ensures |s| <= |t|
  {
    assert t == s + (t - s);
  }

  /** The request a step belongs to; logouts belong to none. */
  function Actor(e: Event): Option<Id> {
    if e.Logout? || e.LogoutAll? then None else Some(e.request)
  }

  /** With no new live session, what the cap rests on stays, unless it is the acting request itself. */
  lemma CapWhenShrinking(s: State, t: State, user: Id, actor: Option<Id>)
    requires CapInvariant(s, user) && LiveOf(t.sessions, user) <= LiveOf(s.sessions, user)
    requires forall q <- s.requests | Some(q) != actor :: q in t.requests && t.requests[q] == s.requests[q]
    requires actor.Some? && actor.value in s.requests ==> !CleansUp(LiveOf(s.sessions, user), s.requests[actor.value], user)
    ensures CapInvariant(t, user)
  {
    var before, after := LiveOf(s.sessions, user), LiveOf(t.sessions, user);
    SubsetSize(after, before);
    if q :| q in s.requests && CleansUp(before, s.requests[q], user) {
      if s.requests[q].Listed? { SubsetSize(after - s.requests[q].toRevoke, before - s.requests[q].toRevoke); }
      assert CleansUp(after, t.requests[q], user);
    }
  }

  lemma StepShrinks(s: State, e: Event, user: Id)
    requires Enabled(s, e)
    requires e.Create? ==> Step(s, e).requests[e.request] != Created(user)
    ensures LiveOf(Step(s, e).sessions, user) <= LiveOf(s.sessions, user)
    ensures forall q <- s.requests | Some(q) != Actor(e) :: q in Step(s, e).requests && Step(s, e).requests[q] == s.requests[q]
  {
  }

  lemma StepKeepsCap(s: State, e: Event, user: Id)
    requires CapInvariant(s, user) && Enabled(s, e)
    ensures CapInvariant(Step(s, e), user)
  {
    var live, actor := LiveOf(s.sessions, user), Actor(e);
    if actor.Some? && actor.value in s.requests && CleansUp(live, s.requests[actor.value], user) {
      CleanerActs(s, e, user);
    } else if e.Create? && Step(s, e).requests[e.request] == Created(user) {
      assert CleansUp(LiveOf(Step(s, e).sessions, user), Step(s, e).requests[e.request], user);
    } else {
      hide CapInvariant;
      hide Step;
      StepShrinks(s, e, user);
      CapWhenShrinking(s, Step(s, e), user, actor);
    }
  }

  /** The request the cap rests on lists, or revokes all but five. */
  lemma CleanerActs(s: State, e: Event, user: Id)
    requires Enabled(s, e) && Actor(e).Some? && e.request in s.requests
    requires CleansUp(LiveOf(s.sessions, user), s.requests[e.request], user)
    ensures CapInvariant(Step(s, e), user)
  {
    var live, t := LiveOf(s.sessions, user), Step(s, e);
    if e.List? {
      if |live| > MAX_SESSIONS {
        assert live - (live - e.kept) == e.kept;
        assert CleansUp(live, t.requests[e.request], user);
      }
    } else {
      assert e.RevokeOld?;
      assert LiveOf(t.sessions, user) == live - s.requests[e.request].toRevoke;
    }
  }

  lemma {:induction false} CapSafe(states: seq<State>, events: seq<Event>, i: nat, user: Id)
    requires IsRun(states, events) && i < |states|
    ensures CapInvariant(states[i], user)
  {
    if i == 0 {
      assert LiveOf(states[0].sessions, user) == {};
    } else {
      CapSafe(states, events, i - 1, user);
      assert Enabled(states[i - 1], events[i - 1]);
      StepKeepsCap(states[i - 1], events[i - 1], user);
    }
  }

  /** Whenever no login or refresh of the user is between its insert and its clean-up, the user has at most five live sessions. */
  lemma AtMostFiveAtRest(states: seq<State>, events: seq<Event>, i: nat, user: Id)
    requires IsRun(states, events) && i < |states|
    requires forall r <- states[i].requests ::
               states[i].requests[r] != Created(user) && !(states[i].requests[r].Listed? && states[i].requests[r].user == user)
    ensures |LiveOf(states[i].sessions, user)| <= MAX_SESSIONS
  {
    CapSafe(states, events, i, user);
    var live := LiveOf(states[i].sessions, user);
    assert forall r <- states[i].requests :: !CleansUp(live, states[i].requests[r], user);
  }
}
