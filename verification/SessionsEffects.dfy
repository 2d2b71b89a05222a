/** What each session operation means to its caller: when it is refused and why, and what it leaves in Redis
    and Postgres, field by field. */
module SessionsEffects {
  import opened Common
  import opened Sessions
  import SessionsCoherence
  import Jwt
  import Permissions

  predicate Refused(s: State, t: State, a: Answer, e: Error) {
    t == s && a == Failure(e)
  }

  /** A user holds a code exactly when one of the user's roles gives it. */
  lemma HoldsIff(db: Db, uid: string, code: string)
    requires uid in db.users
    ensures code in PermissionCodes(db, uid) <==>
      exists role | role in db.users[uid].roles && role in db.roles :: code in db.roles[role]
  {
    GivenIff(db.roles, db.users[uid].roles, code);
  }

  lemma {:induction false} GivenIff(roles: map<string, seq<string>>, ids: seq<string>, code: string)
    ensures code in CodesOfRoles(roles, ids) <==> exists role | role in ids && role in roles :: code in roles[role]
  {
    if ids != [] {
      GivenIff(roles, ids[1..], code);
      assert ids == [ids[0]] + ids[1..];
    }
  }

  /** The key does not exist in Redis at this time: it was never set, or was removed, or has run out. */
  predicate Absent(st: Store, sid: string) {
    sid !in st.sessions || st.sessions[sid].expiresAt <= st.now
  }

  /** The user's index does not exist at this time. */
  predicate NoIndex(st: Store, uid: string) {
    uid !in st.index || (st.index[uid].expiresAt.Some? && st.index[uid].expiresAt.value <= st.now)
  }

  // ----- Login and logout -----

  /** A login goes through exactly when some user has the e-mail, the password is right, the user is ACTIVE,
      and all three Redis commands are carried out and answered. Refused before that, it changes nothing. */
  predicate LogsIn(s: State, t: State, a: Answer, email: string, passwordOk: bool, sid: string, ip: string,
                   userAgent: string, commands: nat, replied: bool)
  {
    if !passwordOk || forall uid | uid in s.db.users :: s.db.users[uid].email != email
    then Refused(s, t, a, WrongCredentials)
    else
      exists uid | uid in s.db.users && s.db.users[uid].email == email ::
        match s.db.users[uid].status
        case PENDING => Refused(s, t, a, NotInitialized)
        case INACTIVE => Refused(s, t, a, UserInactive)
        case ACTIVE =>
          && Opens(s, t, uid, email, sid, ip, userAgent, commands)
          && (if commands == 3 && replied
              then t.returned == s.returned + {sid} && a == TokensFor(s, email, sid)
              else t.returned == s.returned && a == Failure(TokensIssue))
  }

  function TokensFor(s: State, email: string, sid: string): Answer {
    var now := s.store.now / 1000;
    Tokens(Jwt.Token(Jwt.Auth, email, Some(sid), Some(now + s.cfg.authMs / 1000), true),
           Jwt.Token(Jwt.Refresh, email, Some(sid), Some(now + s.cfg.refreshMs / 1000), true))
  }

  /** The session is stored for the refresh lifetime, then listed in the user's index, then the index given
      the same lifetime; as many of these as are carried out. */
  predicate Opens(s: State, t: State, uid: string, email: string, sid: string, ip: string, userAgent: string,
                  commands: nat)
    requires uid in s.db.users
  {
    var now, ends := s.store.now, s.store.now + s.cfg.refreshMs;
    var codes, personId := PermissionCodes(s.db, uid), s.db.users[uid].personId;
    var session := Session(uid, personId, email, codes, true, ip, userAgent, now, now);
    var listed := (if NoIndex(s.store, uid) then {} else s.store.index[uid].sids) + {sid};
    && t.db == s.db && t.cfg == s.cfg && t.deactivated == s.deactivated && t.stale == s.stale && t.store.now == now
    && t.loginAt == s.loginAt[sid := now]
    && t.store.sessions == (if commands == 0 then s.store.sessions
                            else s.store.sessions[sid := Entry(Json(session), ends)])
    && t.store.index == (if commands < 2 then s.store.index
                         else if commands == 2
                         then s.store.index[uid := Index(listed, if NoIndex(s.store, uid) then None
                                                                 else s.store.index[uid].expiresAt)]
                         else s.store.index[uid := Index(listed, Some(ends))])
  }

  lemma LogInEffect(s: State, email: string, passwordOk: bool, sid: string, ip: string, userAgent: string,
                    commands: nat, replied: bool)
    requires UniqueEmails(s.db) && Enabled(s, LogIn(email, passwordOk, sid, ip, userAgent, commands, replied))
    ensures var (t, a) := Step(s, LogIn(email, passwordOk, sid, ip, userAgent, commands, replied));
            LogsIn(s, t, a, email, passwordOk, sid, ip, userAgent, commands, replied)
  {
    var op := LogIn(email, passwordOk, sid, ip, userAgent, commands, replied);
    if passwordOk && HasEmail(s.db, email) {
      var uid := ByEmail(s.db, email);
      OpensStore(s, op, uid);
      assert uid in s.db.users && s.db.users[uid].email == email;
    }
    hide LogInStore;
    hide PermissionCodes;
  }

  lemma OpensStore(s: State, op: Op, uid: string)
    requires op.LogIn? && op.commands <= 3 && uid in s.db.users && s.db.users[uid].email == op.email
    ensures var t := s.(store := LogInStore(s, uid, op), loginAt := s.loginAt[op.sid := s.store.now]);
            Opens(s, t, uid, op.email, op.sid, op.ip, op.userAgent, op.commands)
  {
    var session := NewSession(s, uid, op.ip, op.userAgent);
    hide PermissionCodes;
    var st := SAdd(SetPx(s.store, op.sid, session, s.cfg.refreshMs), uid, op.sid);
    var listed := (if NoIndex(s.store, uid) then {} else s.store.index[uid].sids) + {op.sid};
    assert {} + {op.sid} == {op.sid};
    assert st.index == s.store.index[uid := Index(listed, if NoIndex(s.store, uid) then None
                                                          else s.store.index[uid].expiresAt)];
    var ends := Some(s.store.now + s.cfg.refreshMs);
    assert PExpire(st, uid, s.cfg.refreshMs).index == s.store.index[uid := Index(listed, ends)];
  }

  /** A login hands out tokens exactly then. */
  lemma LogInIff(s: State, email: string, passwordOk: bool, sid: string, ip: string, userAgent: string,
                 commands: nat, replied: bool)
    requires UniqueEmails(s.db) && Enabled(s, LogIn(email, passwordOk, sid, ip, userAgent, commands, replied))
    ensures Step(s, LogIn(email, passwordOk, sid, ip, userAgent, commands, replied)).1.Tokens? <==>
      && passwordOk && commands == 3 && replied
      && exists uid | uid in s.db.users :: s.db.users[uid].email == email && s.db.users[uid].status == ACTIVE
  {
    LogInEffect(s, email, passwordOk, sid, ip, userAgent, commands, replied);
    hide Step;
    hide Opens;
    forall u, v | u in s.db.users && v in s.db.users && s.db.users[u].email == email && s.db.users[v].email == email
      ensures u == v
    {}
  }

  /** So it is in every state that runs from unique e-mails reach. */
  lemma {:induction false} LogInOnRuns(s0: State, ops: seq<Op>, op: Op)
    requires UniqueEmails(s0.db) && CanRun(s0, ops) && op.LogIn? && Enabled(Run(s0, ops), op)
    ensures var s := Run(s0, ops);
            Step(s, op).1.Tokens? <==>
              && op.passwordOk && op.commands == 3 && op.replied
              && exists uid | uid in s.db.users :: s.db.users[uid].email == op.email && s.db.users[uid].status == ACTIVE
    decreases |ops|
  {
    if ops == [] {
      LogInIff(s0, op.email, op.passwordOk, op.sid, op.ip, op.userAgent, op.commands, op.replied);
    } else {
      SessionsCoherence.UniqueEmailsStep(s0, ops[0]);
      hide Step;
      hide Enabled;
      LogInOnRuns(Step(s0, ops[0]).0, ops[1..], op);
    }
  }

  /** A logout deletes the session, then takes its sid out of the user's index; as many of these as are
      carried out, and it completes if both are and the reply arrives. */
  predicate LogsOut(s: State, t: State, a: Answer, uid: string, sid: string, commands: nat, replied: bool) {
    var rest := if NoIndex(s.store, uid) then {} else s.store.index[uid].sids - {sid};
    && t == s.(store := t.store) && t.store.now == s.store.now
    && t.store.sessions == (if commands == 0 then s.store.sessions else s.store.sessions - {sid})
    && t.store.index == (if commands < 2 || NoIndex(s.store, uid) then s.store.index
                         else if rest == {} then s.store.index - {uid}
                         else s.store.index[uid := Index(rest, s.store.index[uid].expiresAt)])
    && a == if commands == 2 && replied then Completed else Failure(RedisFailed)
  }

  lemma LogOutEffect(s: State, uid: string, sid: string, commands: nat, replied: bool)
    requires commands <= 2
    ensures var (t, a) := Step(s, LogOut(uid, sid, commands, replied)); LogsOut(s, t, a, uid, sid, commands, replied)
  {}

  // ----- Using a session -----

  /** What a routine that needs a session is refused with, if it is. */
  function SessionError(st: Store, sid: string): Option<Error> {
    if Absent(st, sid) then Some(SessionInvalid)
    else match st.sessions[sid].value
         case Garbled => Some(Unparseable)
         case Json(session) => if session.active then None else Some(SessionInvalid)
  }

  /** What refuses a refresh token before the session is looked at. */
  function RefreshTokenError(token: Jwt.Token, now: nat): Option<Jwt.Error> {
    if !token.signed || token.kind != Jwt.Refresh then Some(Jwt.VerificationFailed)
    else if token.exp.Some? && token.exp.value <= now / 1000 then Some(Jwt.TokenExpired)
    else if token.email == "" || token.exp.None? || token.exp.value == 0 then Some(Jwt.InvalidPayload)
    else if token.sid.None? || token.sid.value == "" then Some(Jwt.PayloadMissingData)
    else None
  }

  /** A refresh goes through for a valid token whose session is there and active and whose user is known; it
      rewrites the session's codes and refresh time and nothing else, and keeps its expiry. */
  predicate Refreshes(s: State, t: State, a: Answer, token: Jwt.Token, fate: Fate) {
    match RefreshTokenError(token, s.store.now)
    case Some(e) => Refused(s, t, a, JwtError(e))
    case None =>
      var sid := token.sid.value;
      if !fate.read then Refused(s, t, a, RedisFailed)
      else if SessionError(s.store, sid).Some? then Refused(s, t, a, SessionError(s.store, sid).value)
      else
        var entry := s.store.sessions[sid];
        var session := entry.value.session;
        if session.userId !in s.db.users then Refused(s, t, a, UserNotFound)
        else if fate.exec.Failed? then Refused(s, t, a, RedisFailed)
        else
          var renewed := Session(session.userId, session.personId, session.email, PermissionCodes(s.db, session.userId),
                                 true, session.ip, session.userAgent, session.createdAt, s.store.now);
          && t == s.(store := s.store.(sessions := s.store.sessions[sid := Entry(Json(renewed), entry.expiresAt)]),
                     stale := s.stale - {sid})
          && a == if fate.exec.Lost? then Failure(RedisFailed) else Renewed(s, token)
  }

  /** The tokens a refresh answers: a new access token, and the refresh token itself while it has at least
      the threshold of whole minutes left, otherwise a new one. */
  function Renewed(s: State, token: Jwt.Token): Answer
    requires token.exp.Some? && s.store.now / 1000 < token.exp.value
  {
    var now := s.store.now / 1000;
    var minutesLeft := (token.exp.value * 1000 - s.store.now) / 60000;
    Tokens(Jwt.Token(Jwt.Auth, token.email, token.sid, Some(now + s.cfg.authMs / 1000), true),
           if minutesLeft as real < s.cfg.threshold
           then Jwt.Token(Jwt.Refresh, token.email, token.sid, Some(now + s.cfg.refreshMs / 1000), true) else token)
  }

  lemma RefreshEffect(s: State, token: Jwt.Token, fate: Fate)
    ensures var (t, a) := Step(s, RefreshToken(token, fate)); Refreshes(s, t, a, token, fate)
  {
    hide PermissionCodes;
  }

  /** canDo asks whether the session carries the code, and changes nothing. */
  predicate Answers(s: State, t: State, a: Answer, sid: string, code: string) {
    t == s &&
    a == match SessionError(s.store, sid)
         case Some(e) => Failure(e)
         case None => Allowed(code in s.store.sessions[sid].value.session.permissions)
  }

  lemma CanDoEffect(s: State, sid: string, code: string)
    ensures var (t, a) := Step(s, CanDo(sid, code)); Answers(s, t, a, sid, code)
  {}

  /** A deactivation switches the session off and changes nothing else of it; one that is switched off already
      is switched off again. */
  predicate Deactivates(s: State, t: State, a: Answer, sid: string, fate: Fate) {
    if !fate.read then Refused(s, t, a, RedisFailed)
    else if Absent(s.store, sid) then t == s && a == Deactivated(false)
    else
      match s.store.sessions[sid].value
      case Garbled => Refused(s, t, a, Unparseable)
      case Json(x) =>
        if fate.exec.Failed? then Refused(s, t, a, RedisFailed)
        else
          var off := Session(x.userId, x.personId, x.email, x.permissions, false, x.ip, x.userAgent, x.createdAt,
                             x.lastRefreshAt);
          var entry := Entry(Json(off), s.store.sessions[sid].expiresAt);
          var sessions := s.store.sessions[sid := entry];
          && t == s.(store := s.store.(sessions := sessions), deactivated := s.deactivated + {sid})
          && a == if fate.exec.Lost? then Failure(RedisFailed) else Deactivated(true)
  }

  lemma DeactivateEffect(s: State, sid: string, fate: Fate)
    ensures var (t, a) := Step(s, DeactivateSession(sid, fate)); Deactivates(s, t, a, sid, fate)
  {}

  /** A listing answers the sessions that the user's index names and that can be read, and takes the named sids
      that cannot be read out of the index, as far as it gets. */
  predicate Lists(s: State, t: State, a: Answer, uid: string, read: bool, removed: set<string>, replied: bool) {
    if !read then Refused(s, t, a, RedisFailed)
    else
      var named := if NoIndex(s.store, uid) then {} else s.store.index[uid].sids;
      var unreadable := set sid | sid in named && (Absent(s.store, sid) || s.store.sessions[sid].value.Garbled?);
      && t == s.(store := s.store.(index := t.store.index))
      && t.store.index == (if named == {} then s.store.index
                           else if named - removed == {} then s.store.index - {uid}
                           else s.store.index[uid := Index(named - removed, s.store.index[uid].expiresAt)])
      && (if unreadable <= removed && (removed == {} || replied)
          then a == Listed(map sid | sid in named - unreadable :: s.store.sessions[sid].value.session)
          else a == Failure(RedisFailed))
  }

  lemma FindEffect(s: State, uid: string, read: bool, removed: set<string>, replied: bool)
    requires Enabled(s, FindUserSessions(uid, read, removed, replied))
    ensures var (t, a) := Step(s, FindUserSessions(uid, read, removed, replied));
            Lists(s, t, a, uid, read, removed, replied)
  {
    var named := if NoIndex(s.store, uid) then {} else s.store.index[uid].sids;
    var unreadable := set sid | sid in named && (Absent(s.store, sid) || s.store.sessions[sid].value.Garbled?);
    assert Members(s.store, uid) == named && Gone(s.store, uid) == unreadable;
    if named != {} {
      assert Index(named - removed, s.store.index[uid].expiresAt) == s.store.index[uid].(sids := named - removed);
    }
    if read && unreadable <= removed {
      assert (map sid | sid in Members(s.store, uid) && Readable(s.store, sid) :: s.store.sessions[sid].value.session)
          == map sid | sid in named - unreadable :: s.store.sessions[sid].value.session;
    }
  }

  // ----- Assignments -----

  /** Propagation to a user rewrites the codes of the sessions that the user's index names and that can be read,
      nothing else of them and no other session, and takes the other named sids out of the index. */
  lemma PropagateEffect(st: Store, uid: string, codes: seq<string>)
    ensures var t := Propagate(st, uid, codes);
            var named := if NoIndex(st, uid) then {} else st.index[uid].sids;
            var readable := set sid | sid in named && !Absent(st, sid) && st.sessions[sid].value.Json?;
            && t.now == st.now && t.sessions.Keys == st.sessions.Keys
            && (forall sid | sid in st.sessions && sid !in readable :: t.sessions[sid] == st.sessions[sid])
            && (forall sid | sid in readable ::
                  var x := st.sessions[sid].value.session;
                  var session := Session(x.userId, x.personId, x.email, codes, x.active, x.ip, x.userAgent, x.createdAt,
                                         x.lastRefreshAt);
                  t.sessions[sid] == Entry(Json(session), st.sessions[sid].expiresAt))
            && t.index == (if named == {} then st.index
                           else if readable == {} then st.index - {uid}
                           else st.index[uid := Index(readable, st.index[uid].expiresAt)])
  {
    var named := if NoIndex(st, uid) then {} else st.index[uid].sids;
    var readable := set sid | sid in named && !Absent(st, sid) && st.sessions[sid].value.Json?;
    assert Members(st, uid) == named && named - Gone(st, uid) == readable;
    assert Propagate(st, uid, codes).index == Drop(st, uid, Gone(st, uid)).index;
  }

  /** Redis lets a routine read and, if the user has an index at all, write. */
  predicate Interrupted(st: Store, uid: string, fate: Fate) {
    !fate.read || (!NoIndex(st, uid) && st.index[uid].sids != {} && !fate.exec.Done?)
  }

  function SessionsOf(st: Store, uid: string): set<string> {
    set sid | sid in st.sessions && st.sessions[sid].value.Json? && st.sessions[sid].value.session.userId == uid
  }

  function SessionsOfAll(st: Store, uids: seq<string>): set<string> {
    set sid | sid in st.sessions && st.sessions[sid].value.Json? && st.sessions[sid].value.session.userId in uids
  }

  /** A propagation to a user takes place unless Redis cannot be read, or there is something to write and it is
      not written; in that case the user's sessions are known to have missed it. */
  predicate Reaches(s: State, t: State, uid: string, fate: Fate)
    requires uid in s.db.users
  {
    var named := if NoIndex(s.store, uid) then {} else s.store.index[uid].sids;
    && t == s.(store := t.store, stale := t.stale)
    && if !fate.read || (named != {} && fate.exec.Failed?)
       then t.store == s.store && t.stale == s.stale + SessionsOf(s.store, uid)
       else t.store == Propagate(s.store, uid, PermissionCodes(s.db, uid))
            && t.stale == s.stale - SessionsOf(s.store, uid)
  }

  lemma AttemptEffect(s: State, uid: string, fate: Fate)
    requires uid in s.db.users
    ensures Reaches(s, Attempt(s, uid, fate), uid, fate)
    ensures Throws(s.store, uid, fate) <==> Interrupted(s.store, uid, fate)
  {
    hide Propagate;
    hide PermissionCodes;
    assert SidsOf(s.store, [uid]) == SessionsOf(s.store, uid);
  }

  /** The loop over a role's users propagates to one after the other, up to the first with whom it is
      interrupted; the sessions of those after that one have missed it. */
  lemma {:induction false} AttemptAllEffect(s: State, order: seq<string>, fates: seq<Fate>) returns (states: seq<State>)
    requires |fates| == |order| && forall uid | uid in order :: uid in s.db.users
    ensures |states| > 0 && states[0] == s && |states| <= |order| + 1
    ensures forall i | 0 <= i < |states| - 1 ::
      order[i] in states[i].db.users && Reaches(states[i], states[i + 1], order[i], fates[i])
    ensures forall i | 0 <= i < |states| - 1 ::
      Interrupted(states[i].store, order[i], fates[i]) ==> i == |states| - 2
    ensures |states| < |order| + 1 ==>
      |states| > 1 && Interrupted(states[|states| - 2].store, order[|states| - 2], fates[|states| - 2])
    ensures var t := AttemptAll(s, order, fates); var last := states[|states| - 1];
            t == last.(stale := last.stale + SessionsOfAll(last.store, order[|states| - 1..]))
    decreases |order|
  {
    hide Reaches;
    hide Interrupted;
    hide Throws;
    hide Attempt;
    if order == [] {
      states := [s];
    } else {
      AttemptEffect(s, order[0], fates[0]);
      var t := Attempt(s, order[0], fates[0]);
      assert t.db == s.db by { AttemptAllKeeps(s, order[..1], fates[..1]); }
      if Throws(s.store, order[0], fates[0]) {
        states := [s, t];
        assert SidsOf(t.store, order[1..]) == SessionsOfAll(t.store, order[1..]);
      } else {
        var rest := AttemptAllEffect(t, order[1..], fates[1..]);
        states := [s] + rest;
        forall i | 0 <= i < |states| - 1
          ensures order[i] in states[i].db.users && Reaches(states[i], states[i + 1], order[i], fates[i])
          ensures Interrupted(states[i].store, order[i], fates[i]) ==> i == |states| - 2
        {
          if i > 0 {
            assert states[i] == rest[i - 1] && states[i + 1] == rest[i] && order[i] == order[1..][i - 1];
          }
        }
        assert order[1..][|rest| - 1..] == order[|states| - 1..];
      }
    }
  }

  /** The users a query by role returns: those that have the role, each once. Such a listing there always is. */
  lemma UsersWithRoleIff(db: Db, roleId: string, order: seq<string>)
    ensures UsersWithRole(db, roleId, order) <==>
      multiset(order) == multiset(set uid | uid in db.users && roleId in db.users[uid].roles)
  {
    var users := set uid | uid in db.users && roleId in db.users[uid].roles;
    if UsersWithRole(db, roleId, order) {
      forall uid ensures multiset(order)[uid] == multiset(users)[uid] {
        OnceEach(order, uid);
      }
    }
    if multiset(order) == multiset(users) {
      forall uid ensures uid in order <==> uid in users {
        assert uid in order <==> uid in multiset(order);
      }
      forall i, j | 0 <= i < j < |order| ensures order[i] != order[j] {
        assert order == order[..i] + [order[i]] + order[i + 1..j] + [order[j]] + order[j + 1..];
        assert multiset(users)[order[i]] <= 1;
      }
    }
  }

  lemma {:induction false} OnceEach(order: seq<string>, uid: string)
    requires forall i, j | 0 <= i < j < |order| :: order[i] != order[j]
    ensures multiset(order)[uid] == if uid in order then 1 else 0
  {
    if order != [] {
      OnceEach(order[1..], uid);
      assert order == [order[0]] + order[1..];
      if uid == order[0] {
        assert uid !in order[1..];
      }
    }
  }

  lemma {:induction false} SomeListing(users: set<string>) returns (order: seq<string>)
    ensures multiset(order) == multiset(users)
  {
    order := [];
    if users != {} {
      var uid :| uid in users;
      var rest := SomeListing(users - {uid});
      order := [uid] + rest;
      assert users == (users - {uid}) + {uid};
    }
  }

  /** Nothing in the state keeps an assignment to a role from being called, whatever it meets. */
  lemma CanAssign(s: State, roleId: string, permissionIds: seq<string>, save: Outcome, query: bool, fate: Fate)
    returns (op: Op)
    ensures op.AssignPermissions? && op.roleId == roleId && op.permissionIds == permissionIds && Enabled(s, op)
    ensures op.save == save && op.query == query && forall x | x in op.fates :: x == fate
  {
    var order := SomeListing(set uid | uid in s.db.users && roleId in s.db.users[uid].roles);
    UsersWithRoleIff(s.db, roleId, order);
    op := AssignPermissions(roleId, permissionIds, save, query, order, seq(|order|, _ => fate));
  }

  /** An assignment of roles: refused when the user or a role is unknown or the save fails; saved, it replaces
      the user's roles and touches no other user. A save whose reply is lost reaches no session. */
  predicate AssignsRoles(s: State, t: State, a: Answer, uid: string, roleIds: seq<string>, save: Outcome) {
    if uid !in s.db.users then Refused(s, t, a, UserNotFound)
    else if exists r | r in roleIds :: r !in s.db.roles then Refused(s, t, a, RoleNotFound)
    else if save.Failed? then Refused(s, t, a, DbDown)
    else
      var u := s.db.users[uid];
      && t.db == Db(s.db.perms, s.db.roles, s.db.users[uid := User(u.email, u.personId, u.status, roleIds)])
      && t.cfg == s.cfg && t.returned == s.returned && t.loginAt == s.loginAt && t.deactivated == s.deactivated
      && (if save.Lost? then t.store == s.store && a == Failure(DbDown) else a == Completed)
  }

  lemma AssignRoleEffect(s: State, uid: string, roleIds: seq<string>, save: Outcome, fate: Fate)
    ensures var (t, a) := Step(s, AssignRole(uid, roleIds, save, fate));
            && AssignsRoles(s, t, a, uid, roleIds, save)
            && (uid in s.db.users && a == Completed ==> Reaches(s.(db := t.db), t, uid, fate))
            && (a == Failure(DbDown) && save.Lost? ==> t.stale == s.stale + SessionsOf(s.store, uid))
  {
    assert SidsOf(s.store, [uid]) == SessionsOf(s.store, uid);
    if uid in s.db.users && forall r | r in roleIds :: r in s.db.roles {
      AttemptEffect(WithRoles(s, uid, roleIds), uid, fate);
    }
    hide Propagate;
    hide PermissionCodes;
  }

  function CodesOf(perms: map<string, string>, ids: seq<string>): seq<string>
    requires forall id | id in ids :: id in perms
  {
    seq(|ids|, i requires 0 <= i < |ids| => perms[ids[i]])
  }

  /** An assignment of permissions: refused when the role or a permission is unknown or the save fails; saved, it
      replaces the role's codes by those of the permissions, in their order. A save whose reply is lost, and a
      query for the role's users that fails, reach no session. */
  predicate AssignsPermissions(s: State, t: State, a: Answer, roleId: string, permissionIds: seq<string>, save: Outcome,
                               query: bool)
  {
    if roleId !in s.db.roles then Refused(s, t, a, RoleNotFound)
    else if exists p | p in permissionIds :: p !in s.db.perms then Refused(s, t, a, PermissionNotFound)
    else if save.Failed? then Refused(s, t, a, DbDown)
    else
      && t.db == Db(s.db.perms, s.db.roles[roleId := CodesOf(s.db.perms, permissionIds)], s.db.users)
      && t.cfg == s.cfg && t.returned == s.returned && t.loginAt == s.loginAt && t.deactivated == s.deactivated
      && (save.Lost? || !query ==> t.store == s.store)
      && a == if save.Lost? then Failure(DbDown) else Completed
  }

  lemma AssignPermissionsEffect(s: State, roleId: string, permissionIds: seq<string>, save: Outcome, query: bool,
                                order: seq<string>, fates: seq<Fate>)
    requires Enabled(s, AssignPermissions(roleId, permissionIds, save, query, order, fates))
    ensures var (t, a) := Step(s, AssignPermissions(roleId, permissionIds, save, query, order, fates));
            && AssignsPermissions(s, t, a, roleId, permissionIds, save, query)
            && (a == Completed && query ==> |fates| == |order| && (forall uid | uid in order :: uid in t.db.users)
                                            && t == AttemptAll(s.(db := t.db), order, fates))
            && ((if a == Completed then !query else a == Failure(DbDown) && save.Lost?) ==>
                  t.stale == s.stale + SessionsOfAll(s.store, order))
  {
    var codes := Permissions.CodesFor(s.db.perms, permissionIds);
    if codes.Some? {
      assert forall p | p in permissionIds :: p in s.db.perms;
      assert codes.value == CodesOf(s.db.perms, permissionIds);
      AttemptAllKeeps(s.(db := s.db.(roles := s.db.roles[roleId := codes.value])), order, fates);
    }
    hide AttemptAll;
    hide CodesOf;
    hide Permissions.CodesFor;
  }

  lemma {:induction false} AttemptAllKeeps(s: State, order: seq<string>, fates: seq<Fate>)
    requires |fates| == |order| && forall uid | uid in order :: uid in s.db.users
    ensures var t := AttemptAll(s, order, fates); t == s.(store := t.store, stale := t.stale)
    decreases |order|
  {
    hide Propagate;
    hide PermissionCodes;
    if order != [] && !Throws(s.store, order[0], fates[0]) {
      AttemptAllKeeps(Attempt(s, order[0], fates[0]), order[1..], fates[1..]);
    }
  }

  // ----- Users -----

  /** A registration: refused unless all roles exist, e-mail and person are new and the mail goes out; then the
      user is there, PENDING, with these roles. */
  predicate Registers(s: State, t: State, a: Answer, uid: string, email: string, personId: string,
                      roleIds: seq<string>, mailed: bool)
  {
    if || !mailed
       || (exists r | r in roleIds :: r !in s.db.roles)
       || (exists u | u in s.db.users :: s.db.users[u].email == email || s.db.users[u].personId == personId)
    then Refused(s, t, a, NotRegistered)
    else
      var users := s.db.users[uid := User(email, personId, PENDING, roleIds)];
      t == s.(db := Db(s.db.perms, s.db.roles, users)) && a == Completed
  }

  lemma RegisterEffect(s: State, uid: string, email: string, personId: string, roleIds: seq<string>, mailed: bool)
    requires Enabled(s, Register(uid, email, personId, roleIds, mailed))
    ensures var (t, a) := Step(s, Register(uid, email, personId, roleIds, mailed));
            Registers(s, t, a, uid, email, personId, roleIds, mailed)
  {}

  /** A change of status from one to another: refused for an unknown user or any other status, and nothing but
      the status changes. */
  predicate Switches(s: State, t: State, a: Answer, uid: string, before: UserStatus, after: UserStatus) {
    if uid !in s.db.users then Refused(s, t, a, UserNotFound)
    else if s.db.users[uid].status != before then Refused(s, t, a, WrongStatus)
    else
      var u := s.db.users[uid];
      var users := s.db.users[uid := User(u.email, u.personId, after, u.roles)];
      t == s.(db := Db(s.db.perms, s.db.roles, users)) && a == Completed
  }

  lemma ActivateEffect(s: State, uid: string)
    ensures var (t, a) := Step(s, ActivateUser(uid)); Switches(s, t, a, uid, INACTIVE, ACTIVE)
  {}

  lemma DeactivateUserEffect(s: State, uid: string)
    ensures var (t, a) := Step(s, DeactivateUser(uid)); Switches(s, t, a, uid, ACTIVE, INACTIVE)
  {}

  /** A first activation: by e-mail, of a PENDING user, with the right password. */
  predicate FirstActivates(s: State, t: State, a: Answer, email: string, passwordOk: bool) {
    if forall uid | uid in s.db.users :: s.db.users[uid].email != email then Refused(s, t, a, UserNotFound)
    else
      exists uid | uid in s.db.users && s.db.users[uid].email == email ::
        if s.db.users[uid].status == PENDING && !passwordOk then Refused(s, t, a, WrongCredentials)
        else Switches(s, t, a, uid, PENDING, ACTIVE)
  }

  lemma FirstActivationEffect(s: State, email: string, passwordOk: bool)
    ensures var (t, a) := Step(s, FirstActivation(email, passwordOk)); FirstActivates(s, t, a, email, passwordOk)
  {
    if HasEmail(s.db, email) {
      var uid := ByEmail(s.db, email);
      assert uid in s.db.users && s.db.users[uid].email == email;
    }
  }

  /** Time passes for Redis, and nothing else happens. */
  lemma TickEffect(s: State, ms: nat)
    ensures Step(s, Tick(ms)) == (s.(store := Store(s.store.now + ms, s.store.sessions, s.store.index)), Completed)
  {}

  // ----- Runs -----

  /** What runs consist of: any call in any state, except that a login gets a session id of its own, a registration
      a user id of its own, a routine does not carry out more commands than it has, a listing removes only sids
      that it finds unreadable, and a query by role returns the users that have it. */
  lemma RunsCover(s: State, op: Op)
    ensures Enabled(s, op) <==>
      match op
      case LogIn(_, _, sid, _, _, commands, _) => sid != "" && sid !in s.loginAt && commands <= 3
      case LogOut(_, _, commands, _) => commands <= 2
      case AssignPermissions(roleId, _, _, _, order, fates) =>
        && |fates| == |order|
        && multiset(order) == multiset(set uid | uid in s.db.users && roleId in s.db.users[uid].roles)
      case FindUserSessions(uid, _, removed, _) =>
        forall sid | sid in removed ::
          && !NoIndex(s.store, uid) && sid in s.store.index[uid].sids
          && (Absent(s.store, sid) || s.store.sessions[sid].value.Garbled?)
      case Register(uid, _, _, _, _) => uid !in s.db.users
      case _ => true
  {
    if op.AssignPermissions? {
      UsersWithRoleIff(s.db, op.roleId, op.order);
      hide UsersWithRole;
    } else if op.FindUserSessions? {
      assert forall sid | sid in Gone(s.store, op.uid) :: !NoIndex(s.store, op.uid);
    }
  }
}
