/** What holds in every run of the session operations: sessions carry the current permissions of their
    users, end at their login time plus the refresh lifetime, stay deactivated, and are listed. */
module SessionsCoherence {
  import opened Common
  import opened Sessions
  import Jwt
  import Permissions

  predicate Lists(st: Store, uid: string, sid: string) {
    uid in st.index && sid in st.index[uid].sids
  }

  predicate Live(st: Store, sid: string) {
    sid in st.sessions && st.now < st.sessions[sid].expiresAt
  }

  function SessionOf(st: Store, sid: string): Session
    requires sid in st.sessions && st.sessions[sid].value.Json?
  {
    st.sessions[sid].value.session
  }

  /** Every session is readable, belongs to a known user, and expires a refresh lifetime after its login. */
  predicate SessionsWf(s: State) {
    forall sid | sid in s.store.sessions ::
      && s.store.sessions[sid].value.Json?
      && SessionOf(s.store, sid).userId in s.db.users
      && sid in s.loginAt && s.loginAt[sid] <= s.store.now
      && s.store.sessions[sid].expiresAt == s.loginAt[sid] + s.cfg.refreshMs
  }

  /** An index lists sids of its own user only, and does not expire before a session it lists whose
      login returned. */
  ghost predicate IndexWf(s: State) {
    forall uid, sid | Lists(s.store, uid, sid) ::
      && sid in s.loginAt
      && (sid in s.store.sessions && s.store.sessions[sid].value.Json? ==> SessionOf(s.store, sid).userId == uid)
      && (sid in s.store.sessions && sid in s.returned && s.store.index[uid].expiresAt.Some? ==>
            s.store.sessions[sid].expiresAt <= s.store.index[uid].expiresAt.value)
  }

  /** Every live session whose login returned is in its user's index. */
  predicate Indexed(s: State)
    requires SessionsWf(s)
  {
    forall sid | sid in s.returned && Live(s.store, sid) :: Lists(s.store, SessionOf(s.store, sid).userId, sid)
  }

  /** What was deactivated is inactive. */
  predicate DeactivatedStay(s: State)
    requires SessionsWf(s)
  {
    forall sid | sid in s.deactivated && sid in s.store.sessions :: !SessionOf(s.store, sid).active
  }

  ghost predicate Wf(s: State) {
    && SessionsWf(s) && IndexWf(s) && Indexed(s) && DeactivatedStay(s)
    && s.returned <= s.loginAt.Keys && s.deactivated <= s.loginAt.Keys
  }

  /** Every live session whose login returned and that has missed no propagation carries exactly its
      user's permission codes, users in `exempt` aside. */
  predicate Carries(s: State, exempt: set<string>)
    requires SessionsWf(s)
  {
    forall sid | sid in s.returned && sid !in s.stale && Live(s.store, sid) ::
      var session := SessionOf(s.store, sid);
      session.userId !in exempt ==> session.permissions == PermissionCodes(s.db, session.userId)
  }

  ghost predicate Inv(s: State) {
    Wf(s) && Carries(s, {})
  }

  // ----- Index completeness -----

  /** The index never expires before a session it lists, so a live session is found through it. */
  lemma LiveIsMember(s: State, sid: string)
    requires Wf(s) && sid in s.returned && Live(s.store, sid)
    ensures sid in Members(s.store, SessionOf(s.store, sid).userId)
  {
    assert Lists(s.store, SessionOf(s.store, sid).userId, sid);
  }

  /** Cleaning an index, or beginning to, removes no live session from it, and touches nothing else. */
  lemma DropKeepsLive(st: Store, uid: string, sids: set<string>)
    requires sids <= Gone(st, uid)
    ensures var t := Drop(st, uid, sids);
            && t.sessions == st.sessions && t.now == st.now
            && (forall sid | sid in Members(st, uid) && Readable(st, sid) :: sid in Members(t, uid))
            && (forall u, sid | Lists(t, u, sid) :: Lists(st, u, sid))
            && (forall u | u != uid :: u in t.index <==> u in st.index)
            && (forall u | u != uid && u in st.index :: t.index[u] == st.index[u])
            && (uid in t.index ==> uid in st.index && t.index[uid].expiresAt == st.index[uid].expiresAt)
  {}

  lemma PruneKeepsLive(st: Store, uid: string)
    ensures var t := Prune(st, uid);
            && t.sessions == st.sessions && t.now == st.now
            && (forall sid | sid in Members(st, uid) && Readable(st, sid) :: sid in Members(t, uid))
            && (forall u, sid | Lists(t, u, sid) :: Lists(st, u, sid))
            && (forall u | u != uid :: u in t.index <==> u in st.index)
            && (forall u | u != uid && u in st.index :: t.index[u] == st.index[u])
            && (uid in t.index ==> uid in st.index && t.index[uid].expiresAt == st.index[uid].expiresAt)
  {
    DropKeepsLive(st, uid, Gone(st, uid));
    hide Drop;
  }

  // ----- Propagation -----

  /** Propagation changes the permissions of the user's readable listed sessions, and nothing else of
      any session: not its expiry, not whether it is active. */
  lemma PropagateOnlyPermissions(st: Store, uid: string, codes: seq<string>)
    ensures var t := Propagate(st, uid, codes);
            && t.now == st.now && t.index == Prune(st, uid).index && t.sessions.Keys == st.sessions.Keys
            && forall sid | sid in st.sessions ::
                 if sid in Members(st, uid) && Readable(st, sid)
                 then t.sessions[sid].value.Json?
                      && SessionOf(t, sid) == SessionOf(st, sid).(permissions := codes)
                      && t.sessions[sid].expiresAt == st.sessions[sid].expiresAt
                 else t.sessions[sid] == st.sessions[sid]
  {}

  lemma WfPropagate(s: State, uid: string, codes: seq<string>)
    requires Wf(s)
    ensures Wf(s.(store := Propagate(s.store, uid, codes)))
  {
    var t := s.(store := Propagate(s.store, uid, codes));
    PropagateOnlyPermissions(s.store, uid, codes);
    PruneKeepsLive(s.store, uid);
    hide Propagate;
    hide Prune;
    forall sid | sid in t.store.sessions
      ensures t.store.sessions[sid].value.Json? && t.store.sessions[sid].expiresAt == s.store.sessions[sid].expiresAt
      ensures SessionOf(t.store, sid).userId == SessionOf(s.store, sid).userId
      ensures SessionOf(t.store, sid).active == SessionOf(s.store, sid).active
    {}
    forall sid | sid in t.returned && Live(t.store, sid) ensures Lists(t.store, SessionOf(t.store, sid).userId, sid) {
      LiveIsMember(s, sid);
      var u := SessionOf(s.store, sid).userId;
      if u == uid {
        assert sid in Members(t.store, uid);
      } else {
        assert Lists(s.store, u, sid);
      }
    }
    forall u, sid | Lists(t.store, u, sid) ensures Lists(s.store, u, sid) {}
  }

  lemma CarriesPropagate(s: State, uid: string, exempt: set<string>)
    requires Wf(s) && Carries(s, exempt) && uid in s.db.users
    ensures var t := s.(store := Propagate(s.store, uid, PermissionCodes(s.db, uid)),
                        stale := s.stale - SidsOf(s.store, [uid]));
            Wf(t) && Carries(t, exempt - {uid})
  {
    var codes := PermissionCodes(s.db, uid);
    var t := s.(store := Propagate(s.store, uid, codes), stale := s.stale - SidsOf(s.store, [uid]));
    WfPropagate(s, uid, codes);
    PropagateOnlyPermissions(s.store, uid, codes);
    hide Propagate;
    hide Prune;
    hide PermissionCodes;
    forall sid | sid in t.returned && sid !in t.stale && Live(t.store, sid)
      ensures var u := SessionOf(t.store, sid).userId;
              u !in exempt - {uid} ==> SessionOf(t.store, sid).permissions == PermissionCodes(t.db, u)
    {
      LiveIsMember(s, sid);
      var u := SessionOf(s.store, sid).userId;
      if sid in Members(s.store, uid) {
        assert Lists(s.store, uid, sid);
      }
      assert sid in SidsOf(s.store, [uid]) ==> u == uid;
    }
  }

  lemma CarriesMiss(s: State, uids: seq<string>, exempt: set<string>)
    requires Wf(s) && Carries(s, exempt)
    ensures var t := Miss(s, uids); Wf(t) && Carries(t, exempt - Elements(uids))
  {
    hide PermissionCodes;
  }

  /** Carried out or not, one propagation leaves the user's sessions current or known to be stale. */
  lemma CarriesAttempt(s: State, uid: string, fate: Fate, exempt: set<string>)
    requires Wf(s) && Carries(s, exempt) && uid in s.db.users
    ensures var t := Attempt(s, uid, fate); Wf(t) && Carries(t, exempt - {uid})
  {
    if CarriedOut(s.store, uid, fate) {
      CarriesPropagate(s, uid, exempt);
    } else {
      CarriesMiss(s, [uid], exempt);
      assert Elements([uid]) == {uid};
    }
  }

  /** One user after the other, wherever the loop stops. */
  lemma {:induction false} CarriesAttemptAll(s: State, order: seq<string>, fates: seq<Fate>, exempt: set<string>)
    requires Wf(s) && Carries(s, exempt) && |fates| == |order| && forall uid | uid in order :: uid in s.db.users
    requires exempt <= Elements(order)
    ensures var t := AttemptAll(s, order, fates); Wf(t) && Carries(t, {})
    decreases |order|
  {
    if order == [] {
      assert exempt == {};
    } else {
      var uid := order[0];
      CarriesAttempt(s, uid, fates[0], exempt);
      var t := Attempt(s, uid, fates[0]);
      hide Attempt;
      hide Wf;
      hide Carries;
      assert exempt - {uid} <= Elements(order[1..]);
      if Throws(s.store, uid, fates[0]) {
        CarriesMiss(t, order[1..], exempt - {uid});
        assert exempt - {uid} - Elements(order[1..]) == {};
      } else {
        assert t.db == s.db by { AttemptFrame(s, uid, fates[0]); }
        CarriesAttemptAll(t, order[1..], fates[1..], exempt - {uid});
      }
    }
  }

  /** Propagation concerns neither the database nor the clock nor which sessions there are. */
  predicate SameSessions(s: State, t: State) {
    t == s.(store := t.store, stale := t.stale) && t.store.now == s.store.now
    && t.store.sessions.Keys == s.store.sessions.Keys
  }

  lemma AttemptFrame(s: State, uid: string, fate: Fate)
    requires uid in s.db.users
    ensures SameSessions(s, Attempt(s, uid, fate))
  {}

  lemma {:induction false} AttemptAllFrame(s: State, order: seq<string>, fates: seq<Fate>)
    requires |fates| == |order| && forall uid | uid in order :: uid in s.db.users
    ensures SameSessions(s, AttemptAll(s, order, fates))
    decreases |order|
  {
    if order != [] {
      AttemptFrame(s, order[0], fates[0]);
      var t := Attempt(s, order[0], fates[0]);
      if !Throws(s.store, order[0], fates[0]) {
        AttemptAllFrame(t, order[1..], fates[1..]);
      }
    }
  }

  /** Replacing the roles of a user, or the codes of a role, exempts only whom it concerns. */
  lemma CodesFrame(roles: map<string, seq<string>>, roleId: string, codes: seq<string>, ids: seq<string>)
    requires roleId !in ids
    ensures CodesOfRoles(roles[roleId := codes], ids) == CodesOfRoles(roles, ids)
  {
    if ids != [] {
      CodesFrame(roles, roleId, codes, ids[1..]);
    }
  }

  // ----- Every operation -----

  /** Changing the database but not the sessions keeps their structure. */
  lemma WfDb(s: State, db: Db)
    requires Wf(s) && s.db.users.Keys <= db.users.Keys
    ensures Wf(s.(db := db))
  {}

  lemma ExemptUser(s: State, uid: string, roleIds: seq<string>)
    requires Inv(s) && uid in s.db.users
    ensures var t := WithRoles(s, uid, roleIds); Wf(t) && Carries(t, {uid})
  {
    WfDb(s, WithRoles(s, uid, roleIds).db);
  }

  lemma ExemptRole(s: State, roleId: string, codes: seq<string>, order: seq<string>)
    requires Inv(s) && UsersWithRole(s.db, roleId, order)
    ensures var t := s.(db := s.db.(roles := s.db.roles[roleId := codes])); Wf(t) && Carries(t, Elements(order))
  {
    var db := s.db.(roles := s.db.roles[roleId := codes]);
    WfDb(s, db);
    forall uid | uid in s.db.users && uid !in Elements(order)
      ensures PermissionCodes(db, uid) == PermissionCodes(s.db, uid)
    {
      CodesFrame(s.db.roles, roleId, codes, s.db.users[uid].roles);
    }
  }

  lemma InvAssignRole(s: State, op: Op)
    requires Inv(s) && op.AssignRole?
    ensures Inv(Step(s, op).0)
  {
    if op.uid in s.db.users {
      var t := WithRoles(s, op.uid, op.roleIds);
      ExemptUser(s, op.uid, op.roleIds);
      CarriesMiss(t, [op.uid], {op.uid});
      CarriesAttempt(t, op.uid, op.fate, {op.uid});
      assert {op.uid} - {op.uid} == {} && {op.uid} - Elements([op.uid]) == {};
      hide WithRoles;
      hide Attempt;
      hide Miss;
    }
    hide Wf;
    hide Carries;
  }

  lemma InvAssignPermissions(s: State, op: Op)
    requires Inv(s) && op.AssignPermissions? && Enabled(s, op)
    ensures Inv(Step(s, op).0)
  {
    var codes := Permissions.CodesFor(s.db.perms, op.permissionIds);
    if op.roleId in s.db.roles && codes.Some? {
      var t := s.(db := s.db.(roles := s.db.roles[op.roleId := codes.value]));
      ExemptRole(s, op.roleId, codes.value, op.order);
      CarriesMiss(t, op.order, Elements(op.order));
      CarriesAttemptAll(t, op.order, op.fates, Elements(op.order));
      assert Elements(op.order) - Elements(op.order) == {};
      hide AttemptAll;
      hide Miss;
    }
    hide Wf;
    hide Carries;
  }

  /** What the Redis commands of a login do, however many of them are carried out. */
  lemma LogInEffect(s: State, op: Op, uid: string)
    requires op.LogIn? && uid in s.db.users && op.commands <= 3
    ensures var st, t := s.store, LogInStore(s, uid, op);
            && t.now == st.now
            && t.sessions == (if op.commands == 0 then st.sessions
                              else
                                var session := NewSession(s, uid, op.ip, op.userAgent);
                                st.sessions[op.sid := Entry(Json(session), st.now + s.cfg.refreshMs)])
            && (forall u, x | Lists(t, u, x) :: Lists(st, u, x) || (u == uid && x == op.sid && op.commands >= 2))
            && (forall u, x | Lists(st, u, x) && IndexLive(st, u) :: Lists(t, u, x))
            && (forall u | u in t.index && (u != uid || op.commands < 2) :: u in st.index && t.index[u] == st.index[u])
            && (op.commands == 3 ==> Lists(t, uid, op.sid))
            && (op.commands >= 2 ==>
                  && uid in t.index
                  && (|| t.index[uid].expiresAt.None?
                      || t.index[uid].expiresAt == Some(st.now + s.cfg.refreshMs)
                      || (op.commands == 2 && uid in st.index && t.index[uid].expiresAt == st.index[uid].expiresAt)))
  {}

  function AfterLogIn(s: State, op: Op, uid: string): State
    requires op.LogIn? && uid in s.db.users
  {
    var t := s.(store := LogInStore(s, uid, op), loginAt := s.loginAt[op.sid := s.store.now]);
    if op.commands < 3 || !op.replied then t else t.(returned := t.returned + {op.sid})
  }

  lemma LogInSessions(s: State, op: Op, uid: string)
    requires Inv(s) && op.LogIn? && Enabled(s, op) && uid in s.db.users
    ensures var r := AfterLogIn(s, op, uid); SessionsWf(r) && DeactivatedStay(r) && Carries(r, {})
  {
    LogInEffect(s, op, uid);
    assert NewSession(s, uid, op.ip, op.userAgent).permissions == PermissionCodes(s.db, uid);
    hide LogInStore;
    hide PermissionCodes;
  }

  lemma LogInIndex(s: State, op: Op, uid: string)
    requires Inv(s) && op.LogIn? && Enabled(s, op) && uid in s.db.users
    ensures IndexWf(AfterLogIn(s, op, uid))
  {
    LogInEffect(s, op, uid);
    assert NewSession(s, uid, op.ip, op.userAgent).userId == uid;
    hide LogInStore;
    hide NewSession;
    hide PermissionCodes;
    hide IndexLive;
    var r := AfterLogIn(s, op, uid);
    forall u, x | Lists(r.store, u, x)
      ensures x in r.loginAt
      ensures x in r.store.sessions && r.store.sessions[x].value.Json? ==> SessionOf(r.store, x).userId == u
      ensures x in r.store.sessions && x in r.returned && r.store.index[u].expiresAt.Some? ==>
        r.store.sessions[x].expiresAt <= r.store.index[u].expiresAt.value
    {
      if x != op.sid {
        assert Lists(s.store, u, x);
      } else {
        assert !Lists(s.store, u, x);
      }
    }
  }

  lemma LogInIndexed(s: State, op: Op, uid: string)
    requires Inv(s) && op.LogIn? && Enabled(s, op) && uid in s.db.users
    requires SessionsWf(AfterLogIn(s, op, uid))
    ensures Indexed(AfterLogIn(s, op, uid))
  {
    LogInEffect(s, op, uid);
    assert NewSession(s, uid, op.ip, op.userAgent).userId == uid;
    hide LogInStore;
    hide NewSession;
    hide PermissionCodes;
    hide IndexLive;
    var r := AfterLogIn(s, op, uid);
    forall x | x in r.returned && Live(r.store, x) ensures Lists(r.store, SessionOf(r.store, x).userId, x) {
      if x != op.sid {
        LiveIsMember(s, x);
        MemberOfLive(s.store, SessionOf(s.store, x).userId, x);
      }
    }
  }

  lemma InvLogIn(s: State, op: Op, uid: string)
    requires Inv(s) && op.LogIn? && Enabled(s, op) && uid in s.db.users
    ensures Inv(AfterLogIn(s, op, uid))
  {
    hide LogInStore;
    hide IndexWf;
    hide SessionsWf;
    hide Indexed;
    hide Carries;
    hide DeactivatedStay;
    LogInSessions(s, op, uid);
    LogInIndex(s, op, uid);
    LogInIndexed(s, op, uid);
  }

  lemma MemberOfLive(st: Store, uid: string, sid: string)
    requires sid in Members(st, uid)
    ensures IndexLive(st, uid) && Lists(st, uid, sid)
  {}

  lemma InvLogOut(s: State, uid: string, sid: string, commands: nat)
    requires Inv(s)
    ensures Inv(s.(store := LogOutStore(s.store, uid, sid, commands)))
  {
    var t := s.(store := LogOutStore(s.store, uid, sid, commands));
    assert forall x | x in t.store.sessions :: x in s.store.sessions && t.store.sessions[x] == s.store.sessions[x];
    forall u, x | Lists(t.store, u, x) ensures Lists(s.store, u, x) {}
    forall u, x | Lists(s.store, u, x) && x in t.store.sessions ensures Lists(t.store, u, x) {}
  }

  /** Rewriting one session in place, keeping whose it is. */
  lemma InvRewrite(s: State, sid: string, session: Session, stale: set<string>)
    requires Inv(s) && Live(s.store, sid) && s.stale - {sid} <= stale
    requires session.userId == SessionOf(s.store, sid).userId
    requires session.active == SessionOf(s.store, sid).active || !session.active
    requires sid in s.returned && sid !in stale ==> session.permissions == PermissionCodes(s.db, session.userId)
    ensures Inv(s.(store := SetKeepTtl(s.store, sid, session), stale := stale))
    ensures !session.active ==>
      Inv(s.(store := SetKeepTtl(s.store, sid, session), stale := stale, deactivated := s.deactivated + {sid}))
  {
    hide PermissionCodes;
    var t := s.(store := SetKeepTtl(s.store, sid, session), stale := stale);
    RewriteWf(s, sid, session);
    hide IndexWf;
    hide Indexed;
  }

  lemma RewriteWf(s: State, sid: string, session: Session)
    requires Wf(s) && Live(s.store, sid) && session.userId == SessionOf(s.store, sid).userId
    ensures var t := s.(store := SetKeepTtl(s.store, sid, session)); SessionsWf(t) && IndexWf(t) && Indexed(t)
  {
    var t := s.(store := SetKeepTtl(s.store, sid, session));
    assert t.store.index == s.store.index;
    assert forall x | x in s.store.sessions && x != sid :: t.store.sessions[x] == s.store.sessions[x];
    forall u, x | Lists(t.store, u, x) ensures Lists(s.store, u, x) {}
  }

  lemma InvDrop(s: State, uid: string, sids: set<string>)
    requires Inv(s) && sids <= Gone(s.store, uid)
    ensures Inv(s.(store := Drop(s.store, uid, sids)))
  {
    hide PermissionCodes;
    var t := s.(store := Drop(s.store, uid, sids));
    DropKeepsLive(s.store, uid, sids);
    hide Drop;
    hide Gone;
    forall u, x | Lists(t.store, u, x) ensures Lists(s.store, u, x) {}
    forall x | x in t.returned && Live(t.store, x) ensures Lists(t.store, SessionOf(t.store, x).userId, x) {
      LiveIsMember(s, x);
      var u := SessionOf(s.store, x).userId;
      if u != uid { assert Lists(s.store, u, x); }
    }
  }

  lemma InvDb(s: State, db: Db)
    requires Inv(s) && s.db.users.Keys <= db.users.Keys && db.roles == s.db.roles
    requires forall uid | uid in s.db.users :: db.users[uid].roles == s.db.users[uid].roles
    ensures Inv(s.(db := db))
  {
    WfDb(s, db);
  }

  lemma InvStep(s: State, op: Op)
    requires Inv(s) && Enabled(s, op)
    ensures Inv(Step(s, op).0)
  {
    hide Inv;
    hide Wf;
    match op
    case LogIn(email, _, _, _, _, _, _) =>
      if HasEmail(s.db, email) { InvLogIn(s, op, ByEmail(s.db, email)); }
    case LogOut(uid, sid, commands, _) => InvLogOut(s, uid, sid, commands);
    case RefreshToken(_, _) => InvRefresh(s, op);
    case CanDo(_, _) =>
    case DeactivateSession(_, _) => InvDeactivate(s, op);
    case FindUserSessions(uid, _, removed, _) => InvDrop(s, uid, removed);
    case AssignRole(_, _, _, _) => InvAssignRole(s, op);
    case AssignPermissions(_, _, _, _, _, _) => InvAssignPermissions(s, op);
    case Tick(ms) => InvTick(s, ms);
    case _ => InvDb(s, Step(s, op).0.db);
  }

  lemma InvRefresh(s: State, op: Op)
    requires Inv(s) && op.RefreshToken?
    ensures Inv(Step(s, op).0)
  {
    var p := Jwt.GetPayload(op.token, Jwt.Refresh, s.store.now);
    if p.Ok? && Readable(s.store, p.value.sid.value) {
      var sid := p.value.sid.value;
      var session := SessionOf(s.store, sid);
      if session.userId in s.db.users {
        InvRewrite(s, sid, session.(permissions := PermissionCodes(s.db, session.userId), lastRefreshAt := s.store.now),
                   s.stale - {sid});
      }
    }
  }

  lemma InvDeactivate(s: State, op: Op)
    requires Inv(s) && op.DeactivateSession?
    ensures Inv(Step(s, op).0)
  {
    if Readable(s.store, op.sid) {
      InvRewrite(s, op.sid, SessionOf(s.store, op.sid).(active := false), s.stale);
      assert s.(stale := s.stale) == s;
    }
  }

  lemma InvTick(s: State, ms: nat)
    requires Inv(s)
    ensures Inv(s.(store := s.store.(now := s.store.now + ms)))
  {
    var t := s.(store := s.store.(now := s.store.now + ms));
    forall u, x | Lists(t.store, u, x) ensures Lists(s.store, u, x) {}
    assert forall x | Live(t.store, x) :: Live(s.store, x);
  }

  /** The state the service starts in: no sessions yet. */
  predicate Initial(s: State) {
    s.store.sessions == map[] && s.store.index == map[] && s.returned == {} && s.loginAt == map[]
      && s.deactivated == {} && s.stale == {}
  }

  lemma {:induction false} InvRun(s: State, ops: seq<Op>)
    requires Inv(s) && CanRun(s, ops)
    ensures Inv(Run(s, ops))
    decreases |ops|
  {
    if ops != [] {
      InvStep(s, ops[0]);
      hide Step;
      hide Enabled;
      InvRun(Step(s, ops[0]).0, ops[1..]);
    }
  }

  /** No operation makes an e-mail ambiguous. */
  lemma UniqueEmailsStep(s: State, op: Op)
    requires UniqueEmails(s.db) && Enabled(s, op)
    ensures UniqueEmails(Step(s, op).0.db)
  {
    if op.AssignRole? || op.AssignPermissions? {
      UniqueEmailsAssign(s, op);
    } else if op.Register? || op.FirstActivation? || op.ActivateUser? || op.DeactivateUser? {
      UniqueEmailsUsers(s, op);
    } else {
      assert Step(s, op).0.db == s.db;
    }
    hide Step;
  }

  lemma UniqueEmailsUsers(s: State, op: Op)
    requires UniqueEmails(s.db) && Enabled(s, op)
    requires op.Register? || op.FirstActivation? || op.ActivateUser? || op.DeactivateUser?
    ensures UniqueEmails(Step(s, op).0.db)
  {}

  lemma UniqueEmailsAssign(s: State, op: Op)
    requires UniqueEmails(s.db) && Enabled(s, op) && (op.AssignRole? || op.AssignPermissions?)
    ensures UniqueEmails(Step(s, op).0.db)
  {
    if op.AssignRole? {
      if op.uid in s.db.users {
        AttemptFrame(WithRoles(s, op.uid, op.roleIds), op.uid, op.fate);
      }
    } else {
      var codes := Permissions.CodesFor(s.db.perms, op.permissionIds);
      if codes.Some? {
        AttemptAllFrame(s.(db := s.db.(roles := s.db.roles[op.roleId := codes.value])), op.order, op.fates);
      }
    }
    hide Attempt;
    hide AttemptAll;
    hide SidsOf;
  }

  // ----- Which sessions are stale -----

  /** The loop over a role's users gets to the i-th, and Redis carries out the propagation to that user. */
  predicate ReachedBy(st: Store, order: seq<string>, fates: seq<Fate>, i: nat)
    requires |fates| == |order| && i < |order|
  {
    (forall j | 0 <= j < i :: !Throws(st, order[j], fates[j])) && CarriedOut(st, order[i], fates[i])
  }

  /** Propagation to one user is nothing to the indexes of the others. */
  lemma AttemptElsewhere(s: State, uid: string, fate: Fate, u: string)
    requires uid in s.db.users && u != uid
    ensures Members(Attempt(s, uid, fate).store, u) == Members(s.store, u)
  {
    PruneKeepsLive(s.store, uid);
    hide Prune;
  }

  lemma AttemptStaleIff(s: State, uid: string, fate: Fate, sid: string)
    requires uid in s.db.users && sid in s.store.sessions && s.store.sessions[sid].value.Json?
    ensures var t := Attempt(s, uid, fate); var u := SessionOf(s.store, sid).userId;
            && sid in t.store.sessions && t.store.sessions[sid].value.Json? && SessionOf(t.store, sid).userId == u
            && (sid in t.stale <==> if u == uid then !CarriedOut(s.store, uid, fate) else sid in s.stale)
  {
    PropagateOnlyPermissions(s.store, uid, PermissionCodes(s.db, uid));
    hide Propagate;
  }

  /** Exactly whose sessions a role's propagation leaves stale, in terms of the store it starts from. */
  lemma {:induction false} AttemptAllStaleIff(s: State, order: seq<string>, fates: seq<Fate>, sid: string)
    requires |fates| == |order| && forall uid | uid in order :: uid in s.db.users
    requires forall i, j | 0 <= i < j < |order| :: order[i] != order[j]
    requires sid in s.store.sessions && s.store.sessions[sid].value.Json?
    ensures var t := AttemptAll(s, order, fates); var u := SessionOf(s.store, sid).userId;
            && (u !in order ==> (sid in t.stale <==> sid in s.stale))
            && (forall i | 0 <= i < |order| && order[i] == u ::
                  sid in t.stale <==> !ReachedBy(s.store, order, fates, i))
    decreases |order|
  {
    if order != [] {
      var uid, rest := order[0], order[1..];
      var t := Attempt(s, uid, fates[0]);
      var u := SessionOf(s.store, sid).userId;
      AttemptStaleIff(s, uid, fates[0], sid);
      AttemptFrame(s, uid, fates[0]);
      hide Attempt;
      if Throws(s.store, uid, fates[0]) {
        forall i | 1 <= i < |order| ensures !ReachedBy(s.store, order, fates, i) {}
        assert forall i | 1 <= i < |order| :: order[i] == rest[i - 1];
      } else {
        AttemptAllStaleIff(t, rest, fates[1..], sid);
        forall v | v in rest ensures Members(t.store, v) == Members(s.store, v) {
          AttemptElsewhere(s, uid, fates[0], v);
        }
        forall i | 1 <= i < |order| && order[i] == u
          ensures sid in AttemptAll(t, rest, fates[1..]).stale <==> !ReachedBy(s.store, order, fates, i)
        {
          assert rest[i - 1] == u;
          ReachedRest(s.store, t.store, order, fates, i);
        }
      }
    }
  }

  lemma ReachedRest(st: Store, after: Store, order: seq<string>, fates: seq<Fate>, i: nat)
    requires |fates| == |order| && 1 <= i < |order| && !Throws(st, order[0], fates[0])
    requires forall v | v in order[1..] :: Members(after, v) == Members(st, v)
    ensures ReachedBy(after, order[1..], fates[1..], i - 1) <==> ReachedBy(st, order, fates, i)
  {
    hide Members;
    assert forall j | 1 <= j < |order| :: order[j] == order[1..][j - 1] && fates[j] == fates[1..][j - 1];
    assert forall j | 1 <= j < |order| :: order[j] in order[1..];
    assert forall j | 1 <= j < |order| :: Throws(after, order[j], fates[j]) == Throws(st, order[j], fates[j]);
    if ReachedBy(after, order[1..], fates[1..], i - 1) {
      forall j | 0 <= j < i ensures !Throws(st, order[j], fates[j]) {
        if j > 0 { assert !Throws(after, order[1..][j - 1], fates[1..][j - 1]); }
      }
    }
    if ReachedBy(st, order, fates, i) {
      forall j | 0 <= j < i - 1 ensures !Throws(after, order[1..][j], fates[1..][j]) {
        assert !Throws(st, order[j + 1], fates[j + 1]);
      }
    }
  }

  /** The operation stores an assignment that concerns the user. */
  predicate Assigned(s: State, op: Op, u: string) {
    match op
    case AssignRole(uid, roleIds, save, _) =>
      u == uid && uid in s.db.users && (forall r | r in roleIds :: r in s.db.roles) && save.Applied()
    case AssignPermissions(roleId, permissionIds, save, _, order, _) =>
      u in order && roleId in s.db.roles && Permissions.CodesFor(s.db.perms, permissionIds).Some? && save.Applied()
    case _ => false
  }

  /** And its propagation gets to the user and is carried out. */
  predicate Propagated(s: State, op: Op, u: string)
    requires Enabled(s, op)
  {
    match op
    case AssignRole(_, _, save, fate) => save.Done? && CarriedOut(s.store, u, fate)
    case AssignPermissions(_, _, save, query, order, fates) =>
      save.Done? && query && exists i | 0 <= i < |order| :: order[i] == u && ReachedBy(s.store, order, fates, i)
    case _ => false
  }

  /** A refresh gets as far as writing the session, and the write is carried out. */
  predicate Refreshes(s: State, op: Op, sid: string) {
    && op.RefreshToken? && op.token.sid == Some(sid) && Jwt.GetPayload(op.token, Jwt.Refresh, s.store.now).Ok?
    && op.fate.read && op.fate.exec.Applied() && Readable(s.store, sid)
    && SessionOf(s.store, sid).active && SessionOf(s.store, sid).userId in s.db.users
  }

  /** Exactly when a session is stale after an operation: its user's codes were assigned without reaching
      it, or it was stale and neither this assignment nor a refresh of its own caught up. */
  lemma StaleStepIff(s: State, op: Op, sid: string)
    requires Inv(s) && Enabled(s, op) && sid in s.store.sessions
    ensures var t := Step(s, op).0; var u := SessionOf(s.store, sid).userId;
            sid in t.stale <==>
              if Assigned(s, op, u) then !Propagated(s, op, u)
              else sid in s.stale && !Refreshes(s, op, sid)
  {
    if op.AssignRole? {
      StaleAssignRole(s, op, sid);
    } else if op.AssignPermissions? {
      StaleAssignPermissions(s, op, sid);
    } else {
      hide Inv;
      hide LogInStore;
      hide Propagate;
      hide PermissionCodes;
    }
  }

  lemma StaleAssignRole(s: State, op: Op, sid: string)
    requires Inv(s) && op.AssignRole? && sid in s.store.sessions
    ensures var u := SessionOf(s.store, sid).userId;
            sid in Step(s, op).0.stale <==> if Assigned(s, op, u) then !Propagated(s, op, u) else sid in s.stale
  {
    if op.uid in s.db.users {
      AttemptStaleIff(WithRoles(s, op.uid, op.roleIds), op.uid, op.fate, sid);
      hide Attempt;
    }
    hide CarriedOut;
  }

  lemma StaleAssignPermissions(s: State, op: Op, sid: string)
    requires Inv(s) && op.AssignPermissions? && Enabled(s, op) && sid in s.store.sessions
    ensures var u := SessionOf(s.store, sid).userId;
            sid in Step(s, op).0.stale <==> if Assigned(s, op, u) then !Propagated(s, op, u) else sid in s.stale
  {
    var codes := Permissions.CodesFor(s.db.perms, op.permissionIds);
    if codes.Some? {
      AttemptAllStaleIff(s.(db := s.db.(roles := s.db.roles[op.roleId := codes.value])), op.order, op.fates, sid);
    }
    hide AttemptAll;
    hide ReachedBy;
    hide Permissions.CodesFor;
  }

  // ----- Which codes a session carries -----

  /** The session is there afterwards, the same but for the codes it carries. */
  predicate NowCarries(s: State, t: State, sid: string, codes: seq<string>)
    requires sid in s.store.sessions && s.store.sessions[sid].value.Json?
  {
    && sid in t.store.sessions && t.store.sessions[sid].value.Json?
    && t.store.sessions[sid].expiresAt == s.store.sessions[sid].expiresAt
    && SessionOf(t.store, sid) == SessionOf(s.store, sid).(permissions := codes)
  }

  /** Propagation to a user rewrites that user's live session if it is carried out, and no other. */
  lemma AttemptCopies(s: State, uid: string, fate: Fate, sid: string)
    requires Wf(s) && uid in s.db.users && sid in s.returned && Live(s.store, sid)
    ensures var session := SessionOf(s.store, sid);
            NowCarries(s, Attempt(s, uid, fate), sid,
                       if session.userId == uid && CarriedOut(s.store, uid, fate) then PermissionCodes(s.db, uid)
                       else session.permissions)
  {
    LiveIsMember(s, sid);
    if sid in Members(s.store, uid) {
      assert Lists(s.store, uid, sid);
    }
    PropagateOnlyPermissions(s.store, uid, PermissionCodes(s.db, uid));
    hide Propagate;
    hide PermissionCodes;
    hide IndexLive;
  }

  lemma WfAttempt(s: State, uid: string, fate: Fate)
    requires Wf(s) && uid in s.db.users
    ensures Wf(Attempt(s, uid, fate))
  {
    assert Carries(s, s.db.users.Keys);
    CarriesAttempt(s, uid, fate, s.db.users.Keys);
  }

  /** Exactly which live sessions the loop over a role's users rewrites. */
  lemma {:induction false} AttemptAllCopies(s: State, order: seq<string>, fates: seq<Fate>, sid: string)
    requires Wf(s) && |fates| == |order| && forall uid | uid in order :: uid in s.db.users
    requires forall i, j | 0 <= i < j < |order| :: order[i] != order[j]
    requires sid in s.returned && Live(s.store, sid)
    ensures var session := SessionOf(s.store, sid);
            NowCarries(s, AttemptAll(s, order, fates), sid,
                       if exists i | 0 <= i < |order| ::
                            order[i] == session.userId && ReachedBy(s.store, order, fates, i)
                       then PermissionCodes(s.db, session.userId) else session.permissions)
    decreases |order|
  {
    if order != [] {
      var uid, rest, fate := order[0], order[1..], fates[0];
      var t := Attempt(s, uid, fate);
      AttemptCopies(s, uid, fate, sid);
      AttemptFrame(s, uid, fate);
      WfAttempt(s, uid, fate);
      hide Attempt;
      hide Wf;
      hide PermissionCodes;
      ReachedSplit(s, order, fates, SessionOf(s.store, sid).userId);
      if !Throws(s.store, uid, fate) {
        AttemptAllCopies(t, rest, fates[1..], sid);
      }
    }
  }

  /** The loop reaches a user first, or, having gone on, later. */
  lemma ReachedSplit(s: State, order: seq<string>, fates: seq<Fate>, u: string)
    requires |fates| == |order| && order != [] && forall uid | uid in order :: uid in s.db.users
    requires forall i, j | 0 <= i < j < |order| :: order[i] != order[j]
    ensures var t := Attempt(s, order[0], fates[0]).store;
            (exists i | 0 <= i < |order| :: order[i] == u && ReachedBy(s.store, order, fates, i)) <==>
            || (order[0] == u && CarriedOut(s.store, u, fates[0]))
            || (&& !Throws(s.store, order[0], fates[0])
                && exists i | 0 <= i < |order[1..]| :: order[1..][i] == u && ReachedBy(t, order[1..], fates[1..], i))
  {
    var t := Attempt(s, order[0], fates[0]).store;
    forall v | v in order[1..] ensures Members(t, v) == Members(s.store, v) {
      AttemptElsewhere(s, order[0], fates[0], v);
    }
    assert ReachedBy(s.store, order, fates, 0) <==> CarriedOut(s.store, order[0], fates[0]);
    hide Attempt;
    hide CarriedOut;
    forall i | 1 <= i < |order|
      ensures ReachedBy(s.store, order, fates, i) <==>
              !Throws(s.store, order[0], fates[0]) && ReachedBy(t, order[1..], fates[1..], i - 1)
    {
      if !Throws(s.store, order[0], fates[0]) {
        ReachedRest(s.store, t, order, fates, i);
      }
    }
    hide ReachedBy;
    if i :| 0 <= i < |order[1..]| && order[1..][i] == u && ReachedBy(t, order[1..], fates[1..], i) {
      assert order[i + 1] == u;
    }
    if i :| 0 <= i < |order| && order[i] == u && ReachedBy(s.store, order, fates, i) {
      if i > 0 { assert order[1..][i - 1] == u; }
    }
  }

  /** The operation brings the codes of a stored session up to date: by propagation, or by a refresh. */
  predicate Renews(s: State, op: Op, sid: string)
    requires Enabled(s, op) && sid in s.store.sessions && s.store.sessions[sid].value.Json?
  {
    var u := SessionOf(s.store, sid).userId;
    (Assigned(s, op, u) && Propagated(s, op, u)) || Refreshes(s, op, sid)
  }

  /** Exactly what an operation does to the codes that a live session carries: a login writes the user's
      codes, a renewal the codes that then hold, and everything else leaves them as they were. */
  lemma CopiesStep(s: State, op: Op, sid: string)
    requires Inv(s) && Enabled(s, op)
    requires var t := Step(s, op).0; sid in t.returned && Live(t.store, sid)
    ensures Inv(Step(s, op).0)
    ensures var t := Step(s, op).0; var session := SessionOf(t.store, sid);
            if sid !in s.store.sessions then session.permissions == OwnCodes(t, sid)
            else
              && sid in s.returned && Live(s.store, sid) && session.userId == SessionOf(s.store, sid).userId
              && session.permissions == if Renews(s, op, sid) then OwnCodes(t, sid)
                                        else SessionOf(s.store, sid).permissions
  {
    InvStep(s, op);
    if sid !in s.store.sessions {
      CopiesNew(s, op, sid);
    } else {
      LiveBefore(s, op, sid);
      if op.AssignRole? {
        CopiesAssignRole(s, op, sid);
      } else if op.AssignPermissions? {
        CopiesAssignPermissions(s, op, sid);
      } else if op.RefreshToken? {
        CopiesRefresh(s, op, sid);
      } else {
        CopiesOther(s, op, sid);
      }
    }
    hide Step;
    hide Renews;
    hide OwnCodes;
  }

  /** The current codes of a stored session's user. */
  function OwnCodes(s: State, sid: string): seq<string> {
    if sid in s.store.sessions && s.store.sessions[sid].value.Json? && SessionOf(s.store, sid).userId in s.db.users
    then PermissionCodes(s.db, SessionOf(s.store, sid).userId) else []
  }

  lemma ReturnedStep(s: State, op: Op)
    requires Enabled(s, op)
    ensures var t := Step(s, op).0; t.returned == s.returned || (op.LogIn? && t.returned == s.returned + {op.sid})
  {
    if op.AssignPermissions? {
      var codes := Permissions.CodesFor(s.db.perms, op.permissionIds);
      if codes.Some? {
        AttemptAllFrame(s.(db := s.db.(roles := s.db.roles[op.roleId := codes.value])), op.order, op.fates);
      }
    }
  }

  /** A session that is live after an operation and was there before it was live before it. */
  lemma LiveBefore(s: State, op: Op, sid: string)
    requires Inv(s) && Enabled(s, op) && sid in s.store.sessions
    requires var t := Step(s, op).0; Inv(t) && sid in t.returned && Live(t.store, sid)
    ensures sid in s.returned && Live(s.store, sid)
  {
    HistoryStep(s, op);
    ReturnedStep(s, op);
    hide Step;
  }

  lemma CopiesNew(s: State, op: Op, sid: string)
    requires Inv(s) && Enabled(s, op) && sid !in s.store.sessions
    requires var t := Step(s, op).0; Inv(t) && sid in t.returned && Live(t.store, sid)
    ensures SessionOf(Step(s, op).0.store, sid).permissions == OwnCodes(Step(s, op).0, sid)
  {
    KeysStep(s, op);
    assert op.LogIn? && op.sid == sid by { hide Step; }
    NewCarries(s, op);
    hide Inv;
    hide Step;
  }

  lemma NewCarries(s: State, op: Op)
    requires op.LogIn? && Enabled(s, op) && op.sid !in s.store.sessions && op.sid in Step(s, op).0.store.sessions
    ensures var t := Step(s, op).0;
            t.store.sessions[op.sid].value.Json? && SessionOf(t.store, op.sid).permissions == OwnCodes(t, op.sid)
  {
    if HasEmail(s.db, op.email) {
      LogInEffect(s, op, ByEmail(s.db, op.email));
    }
    hide LogInStore;
    hide PermissionCodes;
  }

  lemma CopiesAssignRole(s: State, op: Op, sid: string)
    requires Inv(s) && op.AssignRole? && sid in s.returned && Live(s.store, sid)
    ensures NowCarries(s, Step(s, op).0, sid,
                       if Renews(s, op, sid) then OwnCodes(Step(s, op).0, sid) else SessionOf(s.store, sid).permissions)
  {
    if op.uid in s.db.users {
      var t := WithRoles(s, op.uid, op.roleIds);
      WfDb(s, t.db);
      AttemptFrame(t, op.uid, op.fate);
      AttemptCopies(t, op.uid, op.fate, sid);
      hide Attempt;
      hide IndexWf;
      hide Indexed;
    }
    hide PermissionCodes;
    hide CarriedOut;
  }

  lemma CopiesAssignPermissions(s: State, op: Op, sid: string)
    requires Inv(s) && op.AssignPermissions? && Enabled(s, op) && sid in s.returned && Live(s.store, sid)
    ensures NowCarries(s, Step(s, op).0, sid,
                       if Renews(s, op, sid) then OwnCodes(Step(s, op).0, sid) else SessionOf(s.store, sid).permissions)
  {
    var codes := Permissions.CodesFor(s.db.perms, op.permissionIds);
    if op.roleId in s.db.roles && codes.Some? {
      var t := s.(db := s.db.(roles := s.db.roles[op.roleId := codes.value]));
      WfDb(s, t.db);
      AttemptAllFrame(t, op.order, op.fates);
      AttemptAllCopies(t, op.order, op.fates, sid);
      hide AttemptAll;
    }
    AssignPermissionsStep(s, op);
    hide Step;
    hide Wf;
    hide Enabled;
    hide PermissionCodes;
    hide ReachedBy;
    hide Permissions.CodesFor;
  }

  lemma AssignPermissionsStep(s: State, op: Op)
    requires op.AssignPermissions? && Enabled(s, op)
    ensures var codes := Permissions.CodesFor(s.db.perms, op.permissionIds);
            Step(s, op).0 ==
              if op.roleId !in s.db.roles || codes.None? || op.save.Failed? then s
              else
                var t := s.(db := s.db.(roles := s.db.roles[op.roleId := codes.value]));
                if op.save.Done? && op.query then AttemptAll(t, op.order, op.fates) else Miss(t, op.order)
  {
    hide AttemptAll;
    hide Miss;
  }

  lemma CopiesRefresh(s: State, op: Op, sid: string)
    requires Inv(s) && op.RefreshToken? && sid in s.store.sessions && Live(s.store, sid)
    ensures var t := Step(s, op).0;
            && sid in t.store.sessions && t.store.sessions[sid].value.Json?
            && SessionOf(t.store, sid).userId == SessionOf(s.store, sid).userId
            && SessionOf(t.store, sid).permissions ==
               if Renews(s, op, sid) then OwnCodes(t, sid) else SessionOf(s.store, sid).permissions
  {
    hide PermissionCodes;
    hide IndexWf;
    hide Indexed;
  }

  lemma CopiesOther(s: State, op: Op, sid: string)
    requires Inv(s) && Enabled(s, op) && sid in s.store.sessions && sid in Step(s, op).0.store.sessions
    requires !op.AssignRole? && !op.AssignPermissions? && !op.RefreshToken?
    ensures var t := Step(s, op).0;
            && t.store.sessions[sid].value.Json?
            && SessionOf(t.store, sid).userId == SessionOf(s.store, sid).userId
            && SessionOf(t.store, sid).permissions == SessionOf(s.store, sid).permissions && !Renews(s, op, sid)
  {
    if op.LogIn? {
      OthersLogIn(s, op, sid);
    } else {
      SessionsUntouched(s, op);
    }
    hide Step;
    hide IndexWf;
    hide Indexed;
    hide Carries;
  }

  lemma OthersLogIn(s: State, op: Op, sid: string)
    requires op.LogIn? && Enabled(s, op) && sid in s.loginAt && sid in s.store.sessions
    ensures var t := Step(s, op).0.store.sessions; sid in t && t[sid] == s.store.sessions[sid]
  {
    if HasEmail(s.db, op.email) {
      LogInEffect(s, op, ByEmail(s.db, op.email));
    }
    hide LogInStore;
  }

  /** Operations that store no session, and the one that only switches a session off. */
  lemma SessionsUntouched(s: State, op: Op)
    requires Enabled(s, op) && !op.AssignRole? && !op.AssignPermissions? && !op.RefreshToken? && !op.LogIn?
    ensures var t := Step(s, op).0.store.sessions;
            forall sid | sid in t ::
              && sid in s.store.sessions
              && (t[sid] == s.store.sessions[sid] ||
                  (s.store.sessions[sid].value.Json? &&
                   t[sid] == s.store.sessions[sid].(value := Json(SessionOf(s.store, sid).(active := false)))))
  {}

  /** Exactly when a live session carries its user's current codes after an operation: the operation renews
      it, or the codes it carried are the ones that hold now. For a session that was current that means:
      it is renewed, or the user's codes have not changed. */
  lemma CurrentStepIff(s: State, op: Op, sid: string)
    requires Inv(s) && Enabled(s, op) && sid in s.returned && Live(s.store, sid) && Live(Step(s, op).0.store, sid)
    ensures var t := Step(s, op).0; var u := SessionOf(s.store, sid).userId;
            && u in s.db.users && u in t.db.users && t.store.sessions[sid].value.Json?
            && SessionOf(t.store, sid).userId == u
            && var current := SessionOf(t.store, sid).permissions == PermissionCodes(t.db, u);
            && (current <==> Renews(s, op, sid) || SessionOf(s.store, sid).permissions == PermissionCodes(t.db, u))
            && (sid !in s.stale ==>
                  (current <==> Renews(s, op, sid) || PermissionCodes(t.db, u) == PermissionCodes(s.db, u)))
  {
    HistoryStep(s, op);
    CopiesStep(s, op, sid);
    InvStep(s, op);
    hide Step;
    hide Renews;
    hide PermissionCodes;
  }

  /** The codes a session was last given in a run, by login, propagation or refresh, read from the database
      of that moment; c are those it had at the start. */
  ghost function LastGiven(c: seq<string>, s: State, ops: seq<Op>, sid: string): seq<string>
    requires Inv(s) && CanRun(s, ops)
    decreases |ops|
  {
    if ops == [] then c
    else
      InvStep(s, ops[0]);
      var t := Step(s, ops[0]).0;
      var given := sid !in s.store.sessions || Renews(s, ops[0], sid);
      LastGiven(if given then OwnCodes(t, sid) else c, t, ops[1..], sid)
  }

  /** Over every run: what a live session carries are the codes it was last given. */
  lemma {:induction false} CarriesLastGiven(c: seq<string>, s: State, ops: seq<Op>, sid: string)
    requires Inv(s) && CanRun(s, ops)
    requires sid in s.returned && Live(s.store, sid) ==> SessionOf(s.store, sid).permissions == c
    ensures var t := Run(s, ops);
            sid in t.returned && Live(t.store, sid) ==>
              t.store.sessions[sid].value.Json? && SessionOf(t.store, sid).permissions == LastGiven(c, s, ops, sid)
    decreases |ops|
  {
    if ops != [] {
      InvStep(s, ops[0]);
      var t := Step(s, ops[0]).0;
      var given := sid !in s.store.sessions || Renews(s, ops[0], sid);
      if sid in t.returned && Live(t.store, sid) {
        CopiesStep(s, ops[0], sid);
      }
      hide Step;
      hide Enabled;
      hide OwnCodes;
      CarriesLastGiven(if given then OwnCodes(t, sid) else c, t, ops[1..], sid);
    }
  }

  lemma InitialInv(s: State)
    requires Initial(s)
    ensures Inv(s)
  {}

  /** Over every run: each live session whose login returned is found through its user's index, carries
      the codes it was last given, and so is current exactly when these still hold. They do unless an
      assignment has missed it since. */
  lemma PropagationAlways(s0: State, ops: seq<Op>)
    requires Initial(s0) && CanRun(s0, ops)
    ensures Inv(s0)
    ensures var s := Run(s0, ops);
            forall sid | sid in s.returned && Live(s.store, sid) ::
              && s.store.sessions[sid].value.Json?
              && var session := SessionOf(s.store, sid);
              && session.userId in s.db.users && sid in Members(s.store, session.userId)
              && session.permissions == LastGiven([], s0, ops, sid)
              && (sid !in s.stale ==> session.permissions == PermissionCodes(s.db, session.userId))
  {
    InitialInv(s0);
    forall sid ensures var s := Run(s0, ops); sid in s.returned && Live(s.store, sid) ==>
      s.store.sessions[sid].value.Json? && SessionOf(s.store, sid).permissions == LastGiven([], s0, ops, sid)
    {
      CarriesLastGiven([], s0, ops, sid);
    }
    InvRun(s0, ops);
    var s := Run(s0, ops);
    forall sid | sid in s.returned && Live(s.store, sid)
      ensures sid in Members(s.store, SessionOf(s.store, sid).userId)
    {
      LiveIsMember(s, sid);
    }
  }

  // ----- Logins cut short -----

  /** The user's index will not expire before the session. */
  predicate Outlives(st: Store, uid: string, sid: string) {
    && Lists(st, uid, sid) && sid in st.sessions
    && (st.index[uid].expiresAt.Some? ==> st.sessions[sid].expiresAt <= st.index[uid].expiresAt.value)
  }

  /** Exactly when a login that stores a session leaves it listed until it ends: the login completes, or
      it got as far as the index and the index it found has time enough or no expiry at all. */
  lemma LogInOutlivesIff(s: State, op: Op, uid: string)
    requires Inv(s) && op.LogIn? && Enabled(s, op) && uid in s.db.users && op.commands > 0
    ensures Outlives(LogInStore(s, uid, op), uid, op.sid) <==>
      || op.commands == 3
      || (op.commands == 2 &&
          (|| !IndexLive(s.store, uid) || s.store.index[uid].expiresAt.None?
           || s.store.now + s.cfg.refreshMs <= s.store.index[uid].expiresAt.value))
  {
    if op.commands == 1 {
      assert !Lists(s.store, uid, op.sid);
    }
  }

  /** A login cut off before it renews an index that runs out earlier than the new session. */
  lemma CutOff(s: State, op: Op, uid: string, e: nat)
    requires op.LogIn? && op.commands == 2 && Enabled(s, op) && uid in s.db.users
    requires IndexLive(s.store, uid) && s.store.index[uid].expiresAt == Some(e) && e < s.store.now + s.cfg.refreshMs
    ensures var st := LogInStore(s, uid, op); Live(st, op.sid) && Lists(st, uid, op.sid) && !Outlives(st, uid, op.sid)
  {}

  /** What a completed login leaves, as far as the next one is concerned. */
  lemma FirstLogIn(s: State, op: Op, uid: string)
    requires Initial(s) && op.LogIn? && op.commands == 3 && op.replied && op.passwordOk && Enabled(s, op)
    requires HasEmail(s.db, op.email) && ByEmail(s.db, op.email) == uid && s.db.users[uid].status == ACTIVE
    ensures var t := Step(s, op).0;
            && t == s.(store := t.store, loginAt := map[op.sid := s.store.now], returned := {op.sid})
            && t.store.now == s.store.now && uid in t.store.index
            && t.store.index[uid].expiresAt == Some(s.store.now + s.cfg.refreshMs)
            && var session := NewSession(s, uid, op.ip, op.userAgent);
            t.store.sessions == map[op.sid := Entry(Json(session), s.store.now + s.cfg.refreshMs)]
  {
    hide NewSession;
  }

  lemma NextLogIn(s: State, op: Op, uid: string)
    requires op.LogIn? && op.passwordOk && Enabled(s, op)
    requires HasEmail(s.db, op.email) && ByEmail(s.db, op.email) == uid && s.db.users[uid].status == ACTIVE
    ensures Step(s, op).0.store == LogInStore(s, uid, op)
  {
    hide LogInStore;
  }

  lemma TickStep(s: State, ms: nat)
    ensures Enabled(s, Tick(ms)) && Step(s, Tick(ms)).0 == s.(store := s.store.(now := s.store.now + ms))
  {}

  lemma AssignRoleUnheard(s: State, uid: string, roleIds: seq<string>)
    requires uid in s.db.users && forall r | r in roleIds :: r in s.db.roles
    ensures var op := AssignRole(uid, roleIds, Done, Fate(false, Failed));
            Enabled(s, op) && Step(s, op) == (Miss(WithRoles(s, uid, roleIds), [uid]), Completed)
  {}

  /** A run that shows it: a second login, a moment after the first. */
  lemma CutOffLogin() returns (s0: State, ops: seq<Op>)
    ensures Initial(s0) && CanRun(s0, ops) && "u" in s0.db.users
    ensures var st := Run(s0, ops).store; Live(st, "b") && Lists(st, "u", "b") && !Outlives(st, "u", "b")
  {
    var db := Db(map[], map[], map["u" := User("e", "p", ACTIVE, [])]);
    s0 := State(db, Store(0, map[], map[]), Jwt.Config(1000, 1000, 1.0), {}, map[], {}, {});
    var first, tick, second := LogIn("e", true, "a", "", "", 3, true), Tick(1), LogIn("e", true, "b", "", "", 2, true);
    ops := [first, tick, second];
    assert db.users["u"].email == "e" && HasEmail(db, "e") && ByEmail(db, "e") == "u";
    hide LogInStore;
    hide Step;
    hide Run;
    hide CanRun;
    FirstLogIn(s0, first, "u");
    var s1 := Step(s0, first).0;
    TickStep(s1, 1);
    var s2 := Step(s1, tick).0;
    CutOff(s2, second, "u", 1000);
    NextLogIn(s2, second, "u");
    ThreeSteps(s0, first, tick, second);
  }

  lemma ThreeSteps(s: State, a: Op, b: Op, c: Op)
    requires Enabled(s, a) && Enabled(Step(s, a).0, b) && Enabled(Step(Step(s, a).0, b).0, c)
    ensures CanRun(s, [a, b, c]) && Run(s, [a, b, c]) == Step(Step(Step(s, a).0, b).0, c).0
  {
    hide Step;
    hide Enabled;
    assert [a, b, c][1..] == [b, c] && [b, c][1..] == [c];
    var t := Step(Step(s, a).0, b).0;
    assert CanRun(t, [c]) && Run(t, [c]) == Step(t, c).0;
    assert Run(Step(s, a).0, [b, c]) == Run(t, [c]);
  }

  // ----- Propagations cut short -----

  /** A run that shows a stale session: a user logs in, then loses every role while Redis does not answer.
      The assignment is reported as completed. */
  lemma StalePropagation() returns (s0: State, ops: seq<Op>)
    ensures Initial(s0) && CanRun(s0, ops) && |Answers(s0, ops)| == 2 && Answers(s0, ops)[1] == Completed
    ensures var s := Run(s0, ops);
            && "a" in s.returned && Live(s.store, "a") && "u" in s.db.users
            && s.store.sessions["a"].value.Json? && SessionOf(s.store, "a").userId == "u"
            && PermissionCodes(s.db, "u") == [] && SessionOf(s.store, "a").permissions == ["c"] && s.stale == {"a"}
  {
    var db := Db(map[], map["r" := ["c"]], map["u" := User("e", "p", ACTIVE, ["r"])]);
    s0 := State(db, Store(0, map[], map[]), Jwt.Config(1000, 1000, 1.0), {}, map[], {}, {});
    var login, strip := LogIn("e", true, "a", "", "", 3, true), AssignRole("u", [], Done, Fate(false, Failed));
    ops := [login, strip];
    assert db.users["u"].email == "e" && HasEmail(db, "e") && ByEmail(db, "e") == "u";
    assert PermissionCodes(db, "u") == ["c"] by { assert ["r"][1..] == []; assert CodesOfRoles(db.roles, []) == []; }
    hide LogInStore;
    hide Step;
    hide Run;
    hide CanRun;
    hide Answers;
    FirstLogIn(s0, login, "u");
    var s1 := Step(s0, login).0;
    AssignRoleUnheard(s1, "u", []);
    assert SidsOf(s1.store, ["u"]) == {"a"};
    TwoSteps(s0, login, strip);
  }

  lemma TwoSteps(s: State, a: Op, b: Op)
    requires Enabled(s, a) && Enabled(Step(s, a).0, b)
    ensures CanRun(s, [a, b]) && Run(s, [a, b]) == Step(Step(s, a).0, b).0
    ensures |Answers(s, [a, b])| == 2 && Answers(s, [a, b])[1] == Step(Step(s, a).0, b).1
  {
    hide Step;
    hide Enabled;
    assert [a, b][1..] == [b];
    var t := Step(s, a).0;
    assert CanRun(t, [b]) && Run(t, [b]) == Step(t, b).0 && Answers(t, [b]) == [Step(t, b).1];
  }

  // ----- Lifetime and deactivation -----

  /** The requests that go through with a session id. */
  predicate Uses(s: State, op: Op, answer: Answer, sid: string) {
    || (op.CanDo? && op.sid == sid && answer.Allowed?)
    || (op.RefreshToken? && op.token.sid == Some(sid) && answer.Tokens?)
  }

  /** What a run has recorded about a sid is never unrecorded. */
  lemma HistoryStep(s: State, op: Op)
    requires Enabled(s, op)
    ensures var t := Step(s, op).0;
            && t.cfg == s.cfg && s.store.now <= t.store.now
            && s.deactivated <= t.deactivated && s.returned <= t.returned
            && (forall sid | sid in s.loginAt :: sid in t.loginAt && t.loginAt[sid] == s.loginAt[sid])
  {
    if op.AssignPermissions? {
      var codes := Permissions.CodesFor(s.db.perms, op.permissionIds);
      if codes.Some? {
        AttemptAllFrame(s.(db := s.db.(roles := s.db.roles[op.roleId := codes.value])), op.order, op.fates);
      }
    }
  }

  /** A session that lets a request through is live, active, and within its lifetime. */
  lemma UseIsWithinLifetime(s: State, op: Op, sid: string)
    requires Inv(s) && Enabled(s, op) && Uses(s, op, Step(s, op).1, sid)
    ensures !Ended(s, sid) && sid in s.loginAt
  {
    assert Live(s.store, sid);
  }

  /** A session past its login time plus the refresh lifetime, deactivated, or removed. */
  predicate Ended(s: State, sid: string) {
    sid in s.loginAt &&
    (s.loginAt[sid] + s.cfg.refreshMs <= s.store.now || sid in s.deactivated || sid !in s.store.sessions)
  }

  /** Which sessions there are changes at a login, at a logout, and at no other operation. */
  lemma KeysStep(s: State, op: Op)
    requires Enabled(s, op)
    ensures var keys, after := s.store.sessions.Keys, Step(s, op).0.store.sessions.Keys;
            if op.LogOut? then after == (if op.commands > 0 then keys - {op.sid} else keys)
            else keys <= after && (if op.LogIn? then after <= keys + {op.sid} else after == keys)
  {
    if op.AssignPermissions? {
      var codes := Permissions.CodesFor(s.db.perms, op.permissionIds);
      if codes.Some? {
        AttemptAllFrame(s.(db := s.db.(roles := s.db.roles[op.roleId := codes.value])), op.order, op.fates);
      }
    }
  }

  /** Time passes at a tick, and only a deactivation that finds its session adds to the deactivated. */
  lemma DeactivatedStep(s: State, op: Op)
    requires Enabled(s, op)
    ensures var t := Step(s, op).0;
            && (!op.Tick? ==> t.store.now == s.store.now)
            && t.deactivated == (if op.DeactivateSession? && op.fate.read && op.fate.exec.Applied()
                                    && Readable(s.store, op.sid)
                                 then s.deactivated + {op.sid} else s.deactivated)
  {
    if op.AssignPermissions? {
      var codes := Permissions.CodesFor(s.db.perms, op.permissionIds);
      if codes.Some? {
        AttemptAllFrame(s.(db := s.db.(roles := s.db.roles[op.roleId := codes.value])), op.order, op.fates);
      }
    }
  }

  /** Nothing brings an ended session back. */
  lemma EndedStays(s: State, op: Op, sid: string)
    requires Enabled(s, op) && Ended(s, sid)
    ensures Ended(Step(s, op).0, sid)
  {
    HistoryStep(s, op);
    KeysStep(s, op);
    hide Step;
  }

  /** Logging out ends a session once the first of its two commands is carried out, and so does a
      deactivation that found the session and whose write is carried out, reply or no reply. */
  lemma EndingIff(s: State, op: Op, sid: string)
    requires Inv(s) && Enabled(s, op) && sid in s.store.sessions && !Ended(s, sid) && !op.Tick?
    ensures Ended(Step(s, op).0, sid) <==>
      || (op.LogOut? && op.sid == sid && op.commands > 0)
      || (op.DeactivateSession? && op.sid == sid && op.fate.read && op.fate.exec.Applied())
  {
    assert Readable(s.store, sid);
    HistoryStep(s, op);
    KeysStep(s, op);
    DeactivatedStep(s, op);
    hide Step;
  }

  /** No refresh, rotation or permission rewrite extends a session: nothing goes through with a sid at or
      after its login time plus the refresh lifetime, nor ever again once it has been deactivated or
      logged out. */
  lemma {:induction false} AbsoluteLifetime(s: State, ops: seq<Op>, sid: string, k: nat)
    requires Inv(s) && CanRun(s, ops) && k < |ops| && Ended(s, sid)
    ensures |Answers(s, ops)| == |ops|
    ensures !Uses(s, ops[k], Answers(s, ops)[k], sid)
    decreases |ops|
  {
    EndedStays(s, ops[0], sid);
    InvStep(s, ops[0]);
    AnswersLength(s, ops);
    if Uses(s, ops[0], Step(s, ops[0]).1, sid) {
      UseIsWithinLifetime(s, ops[0], sid);
    }
    hide Step;
    hide Enabled;
    hide Ended;
    if k > 0 {
      AbsoluteLifetime(Step(s, ops[0]).0, ops[1..], sid, k - 1);
    }
  }

  lemma {:induction false} AnswersLength(s: State, ops: seq<Op>)
    requires CanRun(s, ops)
    ensures |Answers(s, ops)| == |ops|
    decreases |ops|
  {
    hide Step;
    hide Enabled;
    if ops != [] {
      AnswersLength(Step(s, ops[0]).0, ops[1..]);
    }
  }
}
