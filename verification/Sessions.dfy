/** Sessions in Redis, users, roles and permissions in Postgres, and the operations on both. A session is
    kept under `auth_session:<sid>` with an expiry; `user_sessions:<uid>` is a Redis set of a user's sids
    with an expiry of its own. */
module Sessions {
  import opened Common
  import Jwt
  import Permissions

  // ----- Redis -----

  datatype Session = Session(userId: string, personId: string, email: string, permissions: seq<string>, active: bool,
                             ip: string, userAgent: string, createdAt: nat, lastRefreshAt: nat)

  /** A stored string: a session as JSON, or something that does not parse. */
  datatype Stored = Json(session: Session) | Garbled

  datatype Entry = Entry(value: Stored, expiresAt: nat)

  /** A Redis set; an expiry of None means that none has been set. */
  datatype Index = Index(sids: set<string>, expiresAt: Option<nat>)

  datatype Store = Store(now: nat, sessions: map<string, Entry>, index: map<string, Index>)

  /** GET auth_session:<sid>. An expired key does not exist. */
  function Get(st: Store, sid: string): Option<Stored> {
    if sid in st.sessions && st.now < st.sessions[sid].expiresAt then Some(st.sessions[sid].value) else None
  }

  predicate Readable(st: Store, sid: string) {
    Get(st, sid).Some? && Get(st, sid).value.Json?
  }

  predicate IndexLive(st: Store, uid: string) {
    uid in st.index && (st.index[uid].expiresAt.Some? ==> st.now < st.index[uid].expiresAt.value)
  }

  function Members(st: Store, uid: string): set<string> {
    if IndexLive(st, uid) then st.index[uid].sids else {}
  }

  function SetPx(st: Store, sid: string, session: Session, ttl: nat): Store {
    st.(sessions := st.sessions[sid := Entry(Json(session), st.now + ttl)])
  }

  function SetKeepTtl(st: Store, sid: string, session: Session): Store
    requires sid in st.sessions
  {
    st.(sessions := st.sessions[sid := st.sessions[sid].(value := Json(session))])
  }

  function SAdd(st: Store, uid: string, sid: string): Store {
    st.(index := st.index[uid := if IndexLive(st, uid) then st.index[uid].(sids := st.index[uid].sids + {sid})
                                 else Index({sid}, None)])
  }

  /** Removing the last member removes the set, expiry included. */
  function SRem(st: Store, uid: string, sid: string): Store {
    if !IndexLive(st, uid) then st
    else
      var rest := st.index[uid].sids - {sid};
      st.(index := if rest == {} then st.index - {uid} else st.index[uid := st.index[uid].(sids := rest)])
  }

  function PExpire(st: Store, uid: string, ttl: nat): Store {
    if IndexLive(st, uid) then st.(index := st.index[uid := st.index[uid].(expiresAt := Some(st.now + ttl))]) else st
  }

  function Del(st: Store, sid: string): Store {
    st.(sessions := st.sessions - {sid})
  }

  // ----- Postgres -----

  datatype UserStatus = ACTIVE | INACTIVE | PENDING

  datatype User = User(email: string, personId: string, status: UserStatus, roles: seq<string>)

  /** `roles` maps a role to the codes of its permissions. */
  datatype Db = Db(perms: map<string, string>, roles: map<string, seq<string>>, users: map<string, User>)

  function CodesOfRoles(roles: map<string, seq<string>>, ids: seq<string>): seq<string> {
    if ids == [] then []
    else (if ids[0] in roles then roles[ids[0]] else []) + CodesOfRoles(roles, ids[1..])
  }

  /** UserEntity.permissionCodes: the codes of the user's roles, role by role. */
  function PermissionCodes(db: Db, uid: string): seq<string>
    requires uid in db.users
  {
    CodesOfRoles(db.roles, db.users[uid].roles)
  }

  predicate HasEmail(db: Db, email: string) {
    exists uid | uid in db.users :: db.users[uid].email == email
  }

  ghost function ByEmail(db: Db, email: string): (uid: string)
    requires HasEmail(db, email)
    ensures uid in db.users && db.users[uid].email == email
  {
    var uid :| uid in db.users && db.users[uid].email == email;
    uid
  }

  /** The unique constraint on users.email. */
  predicate UniqueEmails(db: Db) {
    forall u, v | u in db.users && v in db.users && db.users[u].email == db.users[v].email :: u == v
  }

  /** The users a query by role returns, each once, with all their roles. */
  predicate UsersWithRole(db: Db, roleId: string, order: seq<string>) {
    && (forall uid | uid in order :: uid in db.users && roleId in db.users[uid].roles)
    && (forall uid | uid in db.users && roleId in db.users[uid].roles :: uid in order)
    && (forall i, j | 0 <= i < j < |order| :: order[i] != order[j])
  }

  // ----- Index cleaning and propagation -----

  /** The listed sids whose sessions are gone or unreadable. */
  function Gone(st: Store, uid: string): set<string> {
    set sid | sid in Members(st, uid) && !Readable(st, sid)
  }

  function Drop(st: Store, uid: string, sids: set<string>): Store {
    var keep := Members(st, uid) - sids;
    if Members(st, uid) == {} then st
    else st.(index := if keep == {} then st.index - {uid} else st.index[uid := st.index[uid].(sids := keep)])
  }

  /** Sids of the user's index that are gone or unreadable leave the index. */
  function Prune(st: Store, uid: string): Store {
    Drop(st, uid, Gone(st, uid))
  }

  function WithPermissions(e: Entry, codes: seq<string>): Entry
    requires e.value.Json?
  {
    e.(value := Json(e.value.session.(permissions := codes)))
  }

  /** refreshSessionPermissions: rewrite every readable session of the user's index, prune the rest. */
  function Propagate(st: Store, uid: string, codes: seq<string>): Store {
    Prune(st, uid).(sessions :=
      map sid | sid in st.sessions ::
        if sid in Members(st, uid) && Readable(st, sid)
        then WithPermissions(st.sessions[sid], codes) else st.sessions[sid])
  }

  /** How Redis answers a routine that reads and then writes: its reads, and the write, a SET or a MULTI,
      if it comes to that. */
  datatype Fate = Fate(read: bool, exec: Outcome)

  predicate CarriedOut(st: Store, uid: string, fate: Fate) {
    fate.read && (Members(st, uid) == {} || fate.exec.Applied())
  }

  predicate Throws(st: Store, uid: string, fate: Fate) {
    !fate.read || (Members(st, uid) != {} && fate.exec.Raised())
  }

  function SidsOf(st: Store, uids: seq<string>): set<string> {
    set sid | sid in st.sessions && st.sessions[sid].value.Json? && st.sessions[sid].value.session.userId in uids
  }

  // ----- Operations -----

  datatype Error = WrongCredentials | NotInitialized | UserInactive | TokensIssue | SessionInvalid | Unparseable
                 | DbDown | UserNotFound | RoleNotFound | PermissionNotFound | WrongStatus | RedisFailed | NotRegistered
                 | JwtError(error: Jwt.Error)

  datatype Answer = Tokens(access: Jwt.Token, refresh: Jwt.Token) | Listed(found: map<string, Session>)
                  | Allowed(yes: bool) | Completed | Deactivated(existed: bool) | Failure(error: Error)

  /** `returned`, `loginAt`, `deactivated` and `stale` are history: the sids whose login returned tokens,
      when each sid was created, the sids deactivated while they existed, and the sids of users whose
      last propagation was not carried out, unless a refresh of that sid came after it. */
  datatype State = State(db: Db, store: Store, cfg: Jwt.Config, returned: set<string>, loginAt: map<string, nat>,
                         deactivated: set<string>, stale: set<string>)

  datatype Op =
    | LogIn(email: string, passwordOk: bool, sid: string, ip: string, userAgent: string, commands: nat,
            replied: bool)
    | LogOut(uid: string, sid: string, commands: nat, replied: bool)
    | RefreshToken(token: Jwt.Token, fate: Fate)
    | CanDo(sid: string, code: string)
    | DeactivateSession(sid: string, fate: Fate)
    | FindUserSessions(uid: string, read: bool, removed: set<string>, replied: bool)
    | AssignRole(uid: string, roleIds: seq<string>, save: Outcome, fate: Fate)
    | AssignPermissions(roleId: string, permissionIds: seq<string>, save: Outcome, query: bool, order: seq<string>,
                        fates: seq<Fate>)
    | Register(uid: string, email: string, personId: string, roleIds: seq<string>, mailed: bool)
    | FirstActivation(email: string, passwordOk: bool)
    | ActivateUser(uid: string)
    | DeactivateUser(uid: string)
    | Tick(ms: nat)

  /** A sid is a fresh uuid; a query by role returns the users who have it. `commands` is how many of the
      Redis commands of a login or logout are carried out, and `replied` whether the reply to the last
      one arrives; the routine stops at the first missing reply. A listing likewise removes the sids
      that are gone one by one: `removed` are those it gets rid of. `save`, `query` and the fates are how
      Postgres and Redis answer an assignment. */
  predicate Enabled(s: State, op: Op) {
    match op
    case LogIn(_, _, sid, _, _, commands, _) => sid !in s.loginAt && sid != "" && commands <= 3
    case LogOut(_, _, commands, _) => commands <= 2
    case AssignPermissions(roleId, _, _, _, order, fates) => UsersWithRole(s.db, roleId, order) && |fates| == |order|
    case FindUserSessions(uid, _, removed, _) => removed <= Gone(s.store, uid)
    case Register(uid, _, _, _, _) => uid !in s.db.users
    case _ => true
  }

  function NewSession(s: State, uid: string, ip: string, userAgent: string): Session
    requires uid in s.db.users
  {
    var user := s.db.users[uid];
    Session(uid, user.personId, user.email, PermissionCodes(s.db, uid), true, ip, userAgent, s.store.now, s.store.now)
  }

  /** The three Redis commands of a login, or the first few of them. */
  function LogInStore(s: State, uid: string, op: Op): Store
    requires op.LogIn? && uid in s.db.users
  {
    var ttl := s.cfg.refreshMs;
    var st1 := SetPx(s.store, op.sid, NewSession(s, uid, op.ip, op.userAgent), ttl);
    var st2 := SAdd(st1, uid, op.sid);
    if op.commands == 0 then s.store else if op.commands == 1 then st1 else if op.commands == 2 then st2
    else PExpire(st2, uid, ttl)
  }

  function LogOutStore(st: Store, uid: string, sid: string, commands: nat): Store {
    if commands == 0 then st else if commands == 1 then Del(st, sid) else SRem(Del(st, sid), uid, sid)
  }

  function WithRoles(s: State, uid: string, roleIds: seq<string>): State
    requires uid in s.db.users
  {
    s.(db := s.db.(users := s.db.users[uid := s.db.users[uid].(roles := roleIds)]))
  }

  function SetStatus(s: State, uid: string, status: UserStatus): State
    requires uid in s.db.users
  {
    s.(db := s.db.(users := s.db.users[uid := s.db.users[uid].(status := status)]))
  }

  /** A refresh takes over the user's present codes and keeps the expiry. */
  function Refreshed(s: State, sid: string, session: Session): State
    requires sid in s.store.sessions && session.userId in s.db.users
  {
    var renewed := session.(permissions := PermissionCodes(s.db, session.userId), lastRefreshAt := s.store.now);
    s.(store := SetKeepTtl(s.store, sid, renewed), stale := s.stale - {sid})
  }

  /** The users' sessions have missed a change of codes. */
  function Miss(s: State, uids: seq<string>): State {
    s.(stale := s.stale + SidsOf(s.store, uids))
  }

  /** Propagation to one user, if Redis carries it out. */
  function Attempt(s: State, uid: string, fate: Fate): State
    requires uid in s.db.users
  {
    if CarriedOut(s.store, uid, fate)
    then s.(store := Propagate(s.store, uid, PermissionCodes(s.db, uid)), stale := s.stale - SidsOf(s.store, [uid]))
    else Miss(s, [uid])
  }

  /** refreshSessionPermissionsByRole over the users in the order the query returned them: it stops at
      the first user for whom it throws. */
  function AttemptAll(s: State, order: seq<string>, fates: seq<Fate>): State
    requires |fates| == |order| && forall uid | uid in order :: uid in s.db.users
    decreases |order|
  {
    if order == [] then s
    else
      var t := Attempt(s, order[0], fates[0]);
      if Throws(s.store, order[0], fates[0]) then Miss(t, order[1..]) else AttemptAll(t, order[1..], fates[1..])
  }

  ghost function Step(s: State, op: Op): (State, Answer)
    requires Enabled(s, op)
  {
    match op
    case LogIn(email, passwordOk, sid, _, _, commands, replied) =>
      if !HasEmail(s.db, email) || !passwordOk then (s, Failure(WrongCredentials))
      else
        var uid := ByEmail(s.db, email);
        var status := s.db.users[uid].status;
        if status == PENDING then (s, Failure(NotInitialized))
        else if status == INACTIVE then (s, Failure(UserInactive))
        else
          var t := s.(store := LogInStore(s, uid, op), loginAt := s.loginAt[sid := s.store.now]);
          if commands < 3 || !replied then (t, Failure(TokensIssue))
          else (t.(returned := t.returned + {sid}),
                Tokens(Jwt.GenerateToken(s.cfg, email, Some(sid), Jwt.Auth, s.store.now),
                       Jwt.GenerateToken(s.cfg, email, Some(sid), Jwt.Refresh, s.store.now)))
    case LogOut(uid, sid, commands, replied) =>
      (s.(store := LogOutStore(s.store, uid, sid, commands)),
       if commands < 2 || !replied then Failure(RedisFailed) else Completed)
    case RefreshToken(token, fate) =>
      (match Jwt.GetPayload(token, Jwt.Refresh, s.store.now)
       case Err(e) => (s, Failure(JwtError(e)))
       case Ok(payload) =>
         var sid := payload.sid.value;
         if !fate.read then (s, Failure(RedisFailed)) else
         match Get(s.store, sid)
         case None => (s, Failure(SessionInvalid))
         case Some(Garbled) => (s, Failure(Unparseable))
         case Some(Json(session)) =>
           if !session.active then (s, Failure(SessionInvalid))
           else if session.userId !in s.db.users then (s, Failure(UserNotFound))
           else if fate.exec.Failed? then (s, Failure(RedisFailed))
           else
             (Refreshed(s, sid, session),
              if fate.exec.Lost? then Failure(RedisFailed) else
              match Jwt.RefreshToken(s.cfg, token, s.store.now)
              case Err(e) => Failure(JwtError(e))
              case Ok((access, refresh)) => Tokens(access, refresh)))
    case CanDo(sid, code) =>
      (s, match Get(s.store, sid)
          case None => Failure(SessionInvalid)
          case Some(Garbled) => Failure(Unparseable)
          case Some(Json(session)) => if session.active then Allowed(code in session.permissions)
            else Failure(SessionInvalid))
    case DeactivateSession(sid, fate) =>
      if !fate.read then (s, Failure(RedisFailed)) else
      (match Get(s.store, sid)
       case None => (s, Deactivated(false))
       case Some(Garbled) => (s, Failure(Unparseable))
       case Some(Json(session)) =>
         if fate.exec.Failed? then (s, Failure(RedisFailed))
         else
           (s.(store := SetKeepTtl(s.store, sid, session.(active := false)), deactivated := s.deactivated + {sid}),
            if fate.exec.Lost? then Failure(RedisFailed) else Deactivated(true)))
    case FindUserSessions(uid, read, removed, replied) =>
      if !read then (s, Failure(RedisFailed))
      else
        (s.(store := Drop(s.store, uid, removed)),
         if removed != Gone(s.store, uid) || (removed != {} && !replied) then Failure(RedisFailed)
         else Listed(map sid | sid in Members(s.store, uid) && Readable(s.store, sid) ::
                       s.store.sessions[sid].value.session))
    case AssignRole(uid, roleIds, save, fate) =>
      if uid !in s.db.users then (s, Failure(UserNotFound))
      else if exists r | r in roleIds :: r !in s.db.roles then (s, Failure(RoleNotFound))
      else
        var t := WithRoles(s, uid, roleIds);
        // a propagation that throws is logged and otherwise ignored
        if save.Failed? then (s, Failure(DbDown))
        else if save.Lost? then (Miss(t, [uid]), Failure(DbDown))
        else (Attempt(t, uid, fate), Completed)
    case AssignPermissions(roleId, permissionIds, save, query, order, fates) =>
      if roleId !in s.db.roles then (s, Failure(RoleNotFound))
      else
        var codes := Permissions.CodesFor(s.db.perms, permissionIds);
        if codes.None? then (s, Failure(PermissionNotFound))
        else
          var t := s.(db := s.db.(roles := s.db.roles[roleId := codes.value]));
          if save.Failed? then (s, Failure(DbDown))
          else if save.Lost? then (Miss(t, order), Failure(DbDown))
          else (if query then AttemptAll(t, order, fates) else Miss(t, order), Completed)
    case Register(uid, email, personId, roleIds, mailed) =>
      // one transaction with the registration mail inside
      if (exists r | r in roleIds :: r !in s.db.roles) || !mailed
         || exists u | u in s.db.users :: s.db.users[u].email == email || s.db.users[u].personId == personId
      then (s, Failure(NotRegistered))
      else (s.(db := s.db.(users := s.db.users[uid := User(email, personId, PENDING, roleIds)])), Completed)
    case FirstActivation(email, passwordOk) =>
      if !HasEmail(s.db, email) then (s, Failure(UserNotFound))
      else
        var uid := ByEmail(s.db, email);
        if s.db.users[uid].status != PENDING then (s, Failure(WrongStatus))
        else if !passwordOk then (s, Failure(WrongCredentials))
        else (SetStatus(s, uid, ACTIVE), Completed)
    case ActivateUser(uid) =>
      if uid !in s.db.users then (s, Failure(UserNotFound))
      else if s.db.users[uid].status != INACTIVE then (s, Failure(WrongStatus))
      else (SetStatus(s, uid, ACTIVE), Completed)
    case DeactivateUser(uid) =>
      if uid !in s.db.users then (s, Failure(UserNotFound))
      else if s.db.users[uid].status != ACTIVE then (s, Failure(WrongStatus))
      else (SetStatus(s, uid, INACTIVE), Completed)
    case Tick(ms) => (s.(store := s.store.(now := s.store.now + ms)), Completed)
  }

  ghost predicate CanRun(s: State, ops: seq<Op>)
    decreases |ops|
  {
    ops == [] || (Enabled(s, ops[0]) && CanRun(Step(s, ops[0]).0, ops[1..]))
  }

  ghost function Run(s: State, ops: seq<Op>): State
    requires CanRun(s, ops)
    decreases |ops|
  {
    if ops == [] then s else Run(Step(s, ops[0]).0, ops[1..])
  }

  ghost function Answers(s: State, ops: seq<Op>): seq<Answer>
    requires CanRun(s, ops)
    decreases |ops|
  {
    if ops == [] then [] else [Step(s, ops[0]).1] + Answers(Step(s, ops[0]).0, ops[1..])
  }
}
