/** Sessions carry copies of their users' permission codes. What the copies influence: two answers, and
    nothing else. So the service can be compared with one that keeps no copies and asks the database. */
module SessionCopies {
  import opened Common
  import opened Sessions
  import opened SessionsCoherence
  import Jwt
  import Permissions

  function WithoutCopy(e: Entry): Entry {
    if e.value.Json? then WithPermissions(e, []) else e
  }

  /** The same state with the copies taken out of every session. */
  function Bare(s: State): State {
    s.(store := s.store.(sessions := map sid | sid in s.store.sessions :: WithoutCopy(s.store.sessions[sid])))
  }

  predicate AlikeStores(a: Store, b: Store) {
    && a.now == b.now && a.index == b.index && a.sessions.Keys == b.sessions.Keys
    && forall sid | sid in a.sessions :: WithoutCopy(a.sessions[sid]) == WithoutCopy(b.sessions[sid])
  }

  /** Two states that differ in the copies at most. */
  predicate Alike(s: State, t: State) {
    s.(store := t.store) == t && AlikeStores(s.store, t.store)
  }

  lemma BareAlike(s: State)
    ensures Alike(s, Bare(s))
  {}

  lemma AlikeBare(s: State, t: State)
    requires Alike(s, t)
    ensures Bare(s) == Bare(t)
  {
    assert Bare(s).store.sessions == Bare(t).store.sessions;
  }

  // ----- Every operation -----

  lemma AlikeReads(a: Store, b: Store, uid: string, sid: string)
    requires AlikeStores(a, b)
    ensures Members(a, uid) == Members(b, uid) && (Readable(a, sid) <==> Readable(b, sid))
    ensures Live(a, sid) <==> Live(b, sid)
    ensures Get(a, sid).None? <==> Get(b, sid).None?
    ensures Readable(a, sid) ==>
      WithPermissions(a.sessions[sid], []).value.session == WithPermissions(b.sessions[sid], []).value.session
  {
    assert sid in a.sessions ==> WithoutCopy(a.sessions[sid]) == WithoutCopy(b.sessions[sid]);
  }

  lemma AlikeGone(a: Store, b: Store, uid: string)
    requires AlikeStores(a, b)
    ensures Gone(a, uid) == Gone(b, uid)
  {
    forall sid ensures Members(a, uid) == Members(b, uid) && (Readable(a, sid) <==> Readable(b, sid)) {
      AlikeReads(a, b, uid, sid);
    }
  }

  lemma AlikeDrop(a: Store, b: Store, uid: string, sids: set<string>)
    requires AlikeStores(a, b)
    ensures AlikeStores(Drop(a, uid, sids), Drop(b, uid, sids))
  {
    AlikeReads(a, b, uid, "");
  }

  lemma AlikePrune(a: Store, b: Store, uid: string)
    requires AlikeStores(a, b)
    ensures AlikeStores(Prune(a, uid), Prune(b, uid))
  {
    AlikeGone(a, b, uid);
    AlikeDrop(a, b, uid, Gone(a, uid));
    hide Drop;
    hide Gone;
  }

  lemma AlikePropagate(a: Store, b: Store, uid: string, codes: seq<string>)
    requires AlikeStores(a, b)
    ensures AlikeStores(Propagate(a, uid, codes), Propagate(b, uid, codes))
  {
    AlikePrune(a, b, uid);
    forall sid | sid in a.sessions
      ensures WithoutCopy(Propagate(a, uid, codes).sessions[sid]) == WithoutCopy(Propagate(b, uid, codes).sessions[sid])
    {
      AlikeReads(a, b, uid, sid);
    }
    hide Prune;
  }

  lemma AlikeSids(s: State, t: State, uids: seq<string>)
    requires Alike(s, t)
    ensures SidsOf(s.store, uids) == SidsOf(t.store, uids)
  {
    forall sid | sid in s.store.sessions
      ensures s.store.sessions[sid].value.Json? <==> t.store.sessions[sid].value.Json?
      ensures s.store.sessions[sid].value.Json? ==> SessionOf(s.store, sid).userId == SessionOf(t.store, sid).userId
    {
      assert WithoutCopy(s.store.sessions[sid]) == WithoutCopy(t.store.sessions[sid]);
    }
  }

  lemma AlikeAttempt(s: State, t: State, uid: string, fate: Fate)
    requires Alike(s, t) && uid in s.db.users
    ensures Alike(Attempt(s, uid, fate), Attempt(t, uid, fate))
    ensures Throws(s.store, uid, fate) <==> Throws(t.store, uid, fate)
  {
    AlikePropagate(s.store, t.store, uid, PermissionCodes(s.db, uid));
    AlikeReads(s.store, t.store, uid, "");
    AlikeSids(s, t, [uid]);
    hide Propagate;
    hide SidsOf;
  }

  lemma {:induction false} AlikeAttemptAll(s: State, t: State, order: seq<string>, fates: seq<Fate>)
    requires Alike(s, t) && |fates| == |order| && forall uid | uid in order :: uid in s.db.users
    ensures Alike(AttemptAll(s, order, fates), AttemptAll(t, order, fates))
    decreases |order|
  {
    if order != [] {
      AlikeAttempt(s, t, order[0], fates[0]);
      var s', t' := Attempt(s, order[0], fates[0]), Attempt(t, order[0], fates[0]);
      AlikeSids(s', t', order[1..]);
      AttemptFrame(s, order[0], fates[0]);
      hide Attempt;
      hide SidsOf;
      hide Throws;
      if !Throws(s.store, order[0], fates[0]) {
        AlikeAttemptAll(s', t', order[1..], fates[1..]);
      }
    }
  }

  /** An operation that reads no copy in answering. */
  predicate Indifferent(op: Op) {
    !op.CanDo? && !op.FindUserSessions?
  }

  lemma AlikeStep(s: State, t: State, op: Op)
    requires Alike(s, t) && Enabled(s, op)
    ensures Enabled(t, op)
    ensures Alike(Step(s, op).0, Step(t, op).0)
    ensures Indifferent(op) ==> Step(s, op).1 == Step(t, op).1
  {
    hide Step;
    hide AlikeStores;
    match op
    case LogIn(_, _, _, _, _, _, _) => AlikeLogIn(s, t, op);
    case AssignRole(_, _, _, _) => AlikeAssignRole(s, t, op);
    case AssignPermissions(_, _, _, _, _, _) => AlikeAssignPermissions(s, t, op);
    case RefreshToken(_, _) => AlikeRefresh(s, t, op);
    case DeactivateSession(_, _) => AlikeDeactivate(s, t, op);
    case FindUserSessions(_, _, _, _) => AlikeFind(s, t, op);
    case LogOut(_, _, _, _) => AlikeLogOut(s, t, op);
    case CanDo(_, _) => AlikeCanDo(s, t, op);
    case _ => AlikeUsers(s, t, op);
  }

  lemma AlikeLogIn(s: State, t: State, op: Op)
    requires Alike(s, t) && op.LogIn? && Enabled(s, op)
    ensures Enabled(t, op) && Alike(Step(s, op).0, Step(t, op).0) && Step(s, op).1 == Step(t, op).1
  {
    if HasEmail(s.db, op.email) {
      AlikeLogInStore(s, t, op, ByEmail(s.db, op.email));
    }
    hide LogInStore;
    hide AlikeStores;
  }

  lemma AlikeLogInStore(s: State, t: State, op: Op, uid: string)
    requires Alike(s, t) && op.LogIn? && uid in s.db.users
    ensures AlikeStores(LogInStore(s, uid, op), LogInStore(t, uid, op))
  {
    assert NewSession(s, uid, op.ip, op.userAgent) == NewSession(t, uid, op.ip, op.userAgent);
    hide NewSession;
    hide PermissionCodes;
  }

  lemma AlikeLogOut(s: State, t: State, op: Op)
    requires Alike(s, t) && op.LogOut? && Enabled(s, op)
    ensures Enabled(t, op) && Alike(Step(s, op).0, Step(t, op).0) && Step(s, op).1 == Step(t, op).1
  {}

  lemma AlikeDeactivate(s: State, t: State, op: Op)
    requires Alike(s, t) && op.DeactivateSession?
    ensures Enabled(t, op) && Alike(Step(s, op).0, Step(t, op).0) && Step(s, op).1 == Step(t, op).1
  {
    AlikeReads(s.store, t.store, "", op.sid);
  }

  lemma AlikeFind(s: State, t: State, op: Op)
    requires Alike(s, t) && op.FindUserSessions? && Enabled(s, op)
    ensures Enabled(t, op) && Alike(Step(s, op).0, Step(t, op).0)
    ensures Step(s, op).1.Listed? <==> Step(t, op).1.Listed?
    ensures !Step(s, op).1.Listed? ==> Step(s, op).1 == Step(t, op).1
  {
    AlikeGone(s.store, t.store, op.uid);
    AlikeDrop(s.store, t.store, op.uid, op.removed);
    hide Drop;
    hide Gone;
    hide AlikeStores;
  }

  lemma AlikeCanDo(s: State, t: State, op: Op)
    requires Alike(s, t) && op.CanDo?
    ensures Enabled(t, op) && Alike(Step(s, op).0, Step(t, op).0)
  {
    hide AlikeStores;
  }

  lemma AlikeUsers(s: State, t: State, op: Op)
    requires Alike(s, t) && Enabled(s, op)
    requires op.Register? || op.FirstActivation? || op.ActivateUser? || op.DeactivateUser? || op.Tick?
    ensures Enabled(t, op) && Alike(Step(s, op).0, Step(t, op).0) && Step(s, op).1 == Step(t, op).1
  {}

  lemma AlikeAssignRole(s: State, t: State, op: Op)
    requires Alike(s, t) && op.AssignRole?
    ensures Alike(Step(s, op).0, Step(t, op).0) && Step(s, op).1 == Step(t, op).1
  {
    if op.uid in s.db.users {
      var s', t' := WithRoles(s, op.uid, op.roleIds), WithRoles(t, op.uid, op.roleIds);
      AlikeAttempt(s', t', op.uid, op.fate);
      AlikeSids(s', t', [op.uid]);
    }
    hide AlikeStores;
    hide Attempt;
    hide SidsOf;
  }

  lemma AlikeAssignPermissions(s: State, t: State, op: Op)
    requires Alike(s, t) && op.AssignPermissions? && Enabled(s, op)
    ensures Alike(Step(s, op).0, Step(t, op).0) && Step(s, op).1 == Step(t, op).1
  {
    var codes := Permissions.CodesFor(s.db.perms, op.permissionIds);
    if op.roleId in s.db.roles && codes.Some? {
      var db := s.db.(roles := s.db.roles[op.roleId := codes.value]);
      var s', t' := s.(db := db), t.(db := db);
      AlikeAttemptAll(s', t', op.order, op.fates);
      AlikeSids(s', t', op.order);
      hide AlikeStores;
      hide AttemptAll;
      hide SidsOf;
    }
  }

  lemma AlikeRefresh(s: State, t: State, op: Op)
    requires Alike(s, t) && op.RefreshToken?
    ensures Enabled(t, op) && Alike(Step(s, op).0, Step(t, op).0) && Step(s, op).1 == Step(t, op).1
  {
    var p := Jwt.GetPayload(op.token, Jwt.Refresh, s.store.now);
    if p.Ok? {
      AlikeReads(s.store, t.store, "", p.value.sid.value);
    }
    hide PermissionCodes;
  }

  // ----- The service without copies -----

  function DbCodes(db: Db, uid: string): seq<string> {
    if uid in db.users then PermissionCodes(db, uid) else []
  }

  /** canDo, asking the database for the codes. */
  function DbCanDo(s: State, sid: string, code: string): Answer {
    match Get(s.store, sid)
    case None => Failure(SessionInvalid)
    case Some(Garbled) => Failure(Unparseable)
    case Some(Json(session)) =>
      if session.active then Allowed(code in DbCodes(s.db, session.userId)) else Failure(SessionInvalid)
  }

  function DbSessions(s: State, uid: string): map<string, Session> {
    map sid | sid in Members(s.store, uid) && Readable(s.store, sid) ::
      SessionOf(s.store, sid).(permissions := DbCodes(s.db, SessionOf(s.store, sid).userId))
  }

  /** One operation of the service that keeps no copies: what it stores is bare again, and where the
      real service answers from a copy it asks the database. */
  ghost function PlainStep(s: State, op: Op): (State, Answer)
    requires Enabled(s, op)
  {
    (Bare(Step(s, op).0),
     match op
     case CanDo(sid, code) => DbCanDo(s, sid, code)
     case FindUserSessions(uid, _, _, _) => if Step(s, op).1.Listed? then Listed(DbSessions(s, uid)) else Step(s, op).1
     case _ => Step(s, op).1)
  }

  /** A sid whose login returned and that has missed no propagation. */
  predicate UpToDate(s: State, sid: string) {
    sid in s.returned && sid !in s.stale
  }

  /** The answers are the same, except that copies of sessions that are not up to date may differ. */
  predicate Agree(s: State, op: Op, given: Answer, plain: Answer) {
    match op
    case CanDo(sid, _) => UpToDate(s, sid) ==> given == plain
    case FindUserSessions(_, _, _, _) =>
      if !given.Listed? then given == plain
      else
        && plain.Listed? && given.found.Keys == plain.found.Keys
        && forall sid | sid in given.found ::
             given.found[sid] == if UpToDate(s, sid) then plain.found[sid]
                                 else plain.found[sid].(permissions := given.found[sid].permissions)
    case _ => given == plain
  }

  /** The service with copies refines the one without. */
  lemma PlainStepAgrees(s: State, op: Op)
    requires Inv(s) && Enabled(s, op)
    ensures Enabled(Bare(s), op)
    ensures var (t, a) := Step(s, op); var (u, b) := PlainStep(Bare(s), op); u == Bare(t) && Agree(s, op, a, b)
  {
    BareAlike(s);
    AlikeStep(s, Bare(s), op);
    AlikeBare(Step(s, op).0, Step(Bare(s), op).0);
    if op.CanDo? {
      CanDoAgrees(s, op.sid, op.code);
    } else if op.FindUserSessions? {
      AlikeFind(s, Bare(s), op);
      if Step(s, op).1.Listed? {
        SessionsAgree(s, op);
      }
    }
    hide Step;
    hide Bare;
    hide Inv;
  }

  lemma CanDoAgrees(s: State, sid: string, code: string)
    requires Inv(s)
    ensures Agree(s, CanDo(sid, code), Step(s, CanDo(sid, code)).1, DbCanDo(Bare(s), sid, code))
  {
    BareAlike(s);
    AlikeReads(s.store, Bare(s).store, "", sid);
    assert Readable(s.store, sid) ==> Live(s.store, sid);
    hide PermissionCodes;
  }

  lemma SessionsAgree(s: State, op: Op)
    requires Inv(s) && op.FindUserSessions? && Enabled(s, op) && Step(s, op).1.Listed?
    ensures Agree(s, op, Step(s, op).1, Listed(DbSessions(Bare(s), op.uid)))
  {
    var uid := op.uid;
    BareAlike(s);
    hide PermissionCodes;
    hide Drop;
    hide IndexWf;
    hide Indexed;
    forall sid
      ensures Members(s.store, uid) == Members(Bare(s).store, uid)
      ensures Readable(s.store, sid) <==> Readable(Bare(s).store, sid)
    {
      AlikeReads(s.store, Bare(s).store, uid, sid);
    }
    var given, plain := Step(s, op).1.found, DbSessions(Bare(s), uid);
    forall sid | sid in given
      ensures given[sid] == if UpToDate(s, sid) then plain[sid] else plain[sid].(permissions := given[sid].permissions)
    {
      AlikeReads(s.store, Bare(s).store, uid, sid);
      assert Live(s.store, sid);
    }
  }
}
