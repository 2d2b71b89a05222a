/** The sessions, roles and users services command by command. Each method is a step of the model, keeps
    what the model's runs keep, and says what its caller may rely on. */
module SessionsService {
  import opened Common
  import opened Sessions
  import opened SessionsCoherence
  import SessionsEffects
  import Jwt
  import Permissions

  // ----- Loops over an index -----

  /** The members of a Redis set in whatever order SMEMBERS returns them. */
  predicate IsListing(sids: seq<string>, members: set<string>) {
    Elements(sids) == members && forall i, j | 0 <= i < j < |sids| :: sids[i] != sids[j]
  }

  lemma {:induction false} ListingExists(members: set<string>) returns (sids: seq<string>)
    ensures IsListing(sids, members)
    decreases |members|
  {
    if members == {} {
      sids := [];
    } else {
      var x :| x in members;
      var rest := ListingExists(members - {x});
      sids := [x] + rest;
      assert Elements(sids) == {x} + Elements(rest);
      assert forall y | y in rest :: y in Elements(rest);
    }
  }

  /** The user's index holding the given sids; a Redis set without members does not exist. */
  function WithMembers(st: Store, uid: string, sids: set<string>): Store
    requires uid in st.index
  {
    st.(index := if sids == {} then st.index - {uid} else st.index[uid := st.index[uid].(sids := sids)])
  }

  lemma RemoveMember(st: Store, uid: string, sids: set<string>, sid: string)
    requires IndexLive(st, uid)
    ensures SRem(WithMembers(st, uid, sids), uid, sid) == WithMembers(st, uid, sids - {sid})
  {
    if sids == {} {
      assert sids - {sid} == {};
    }
  }

  /** The sids among the given ones that are gone or unreadable. */
  function Stale(st: Store, sids: seq<string>): set<string> {
    set sid | sid in sids && !Readable(st, sid)
  }

  lemma StaleMore(st: Store, sids: seq<string>, i: nat)
    requires i < |sids|
    ensures Stale(st, sids[..i + 1]) == Stale(st, sids[..i]) + (if Readable(st, sids[i]) then {} else {sids[i]})
  {
    assert sids[..i + 1] == sids[..i] + [sids[i]];
  }

  /** Removing the stale ones among the first few listed sids is a drop, and of all of them a pruning. */
  lemma StaleDropped(st: Store, uid: string, sids: seq<string>, i: nat)
    requires Members(st, uid) != {} && IsListing(sids, Members(st, uid)) && i <= |sids|
    ensures var stale := Stale(st, sids[..i]);
            && stale <= Gone(st, uid) && WithMembers(st, uid, Members(st, uid) - stale) == Drop(st, uid, stale)
    ensures i < |sids| && !Readable(st, sids[i]) ==> Stale(st, sids[..i]) != Gone(st, uid)
    ensures i == |sids| ==> Stale(st, sids[..i]) == Gone(st, uid)
  {
    hide Readable;
    assert forall sid | sid in sids[..i] :: sid in Elements(sids);
    if i < |sids| {
      assert sids[i] in Elements(sids) && sids[i] !in sids[..i];
      assert sids[i] !in Stale(st, sids[..i]) && (!Readable(st, sids[i]) ==> sids[i] in Gone(st, uid));
    } else {
      assert sids[..i] == sids;
      assert forall sid | sid in Members(st, uid) :: sid in Elements(sids);
    }
  }

  lemma AllStaleIsPrune(st: Store, uid: string, sids: seq<string>)
    requires Members(st, uid) != {} && IsListing(sids, Members(st, uid))
    ensures WithMembers(st, uid, Members(st, uid) - Stale(st, sids)) == Prune(st, uid)
  {
    StaleDropped(st, uid, sids, |sids|);
    assert sids[..|sids|] == sids;
  }

  lemma NothingStale(st: Store, uid: string)
    requires IndexLive(st, uid) && Members(st, uid) != {}
    ensures Stale(st, []) == {} && WithMembers(st, uid, Members(st, uid) - Stale(st, [])) == st
    ensures ReadableSessions(st, []) == []
  {
    assert Members(st, uid) - Stale(st, []) == Members(st, uid);
    assert st.index[uid := st.index[uid]] == st.index;
  }

  lemma DropNothing(st: Store, uid: string)
    requires Members(st, uid) == {}
    ensures Gone(st, uid) == {} && Drop(st, uid, {}) == st
    ensures ReadableSessions(st, []) == []
  {}

  /** The sessions that can be read among the listed sids, in their order. */
  function ReadableSessions(st: Store, sids: seq<string>): seq<(string, Session)> {
    if sids == [] then []
    else
      var last := sids[|sids| - 1];
      ReadableSessions(st, sids[..|sids| - 1])
        + if Readable(st, last) then [(last, st.sessions[last].value.session)] else []
  }

  lemma ReadableMore(st: Store, sids: seq<string>, i: nat)
    requires i < |sids|
    ensures ReadableSessions(st, sids[..i + 1]) == ReadableSessions(st, sids[..i])
              + if Readable(st, sids[i]) then [(sids[i], st.sessions[sids[i]].value.session)] else []
  {
    assert sids[..i + 1][..i] == sids[..i];
  }

  /** A list of the pairs of a map, each once. */
  predicate ListsExactly<K, V(==)>(pairs: seq<(K, V)>, m: map<K, V>) {
    && (forall p | p in pairs :: p.0 in m && m[p.0] == p.1)
    && (forall k | k in m :: (k, m[k]) in pairs)
    && |pairs| == |m|
  }

  lemma ListsNothing<K, V>()
    ensures ListsExactly<K, V>([], map[])
  {}

  lemma ListsOneMore<K, V>(pairs: seq<(K, V)>, m: map<K, V>, k: K, v: V)
    requires ListsExactly(pairs, m) && k !in m
    ensures ListsExactly(pairs + [(k, v)], m[k := v])
  {
    var more, after := pairs + [(k, v)], m[k := v];
    assert more[|pairs|] == (k, v);
    forall x | x in after ensures (x, after[x]) in more {
      if x != k { assert (x, m[x]) in pairs; }
    }
    assert after.Keys == m.Keys + {k} && |after| == |after.Keys| && |m| == |m.Keys|;
  }

  function ReadableMap(st: Store, sids: set<string>): map<string, Session> {
    map sid | sid in sids && Readable(st, sid) :: st.sessions[sid].value.session
  }

  lemma ReadableMapMore(st: Store, sids: set<string>, sid: string)
    ensures ReadableMap(st, sids + {sid})
         == if Readable(st, sid) then ReadableMap(st, sids)[sid := st.sessions[sid].value.session]
            else ReadableMap(st, sids)
  {}

  lemma ReadableMapIn(st: Store, sids: set<string>)
    ensures ReadableMap(st, sids).Keys <= sids
  {}

  /** Listing loses no readable session, repeats none and invents none. */
  lemma {:induction false} ReadableSessionsExactly(st: Store, sids: seq<string>)
    requires forall i, j | 0 <= i < j < |sids| :: sids[i] != sids[j]
    ensures ListsExactly(ReadableSessions(st, sids), ReadableMap(st, Elements(sids)))
  {
    hide ListsExactly;
    if sids == [] {
      ListsNothing<string, Session>();
      assert ReadableMap(st, Elements(sids)) == map[];
    } else {
      var rest, last := sids[..|sids| - 1], sids[|sids| - 1];
      ReadableSessionsExactly(st, rest);
      hide ReadableMap;
      assert sids == rest + [last];
      assert Elements(sids) == Elements(rest) + {last} && last !in Elements(rest);
      ReadableMapMore(st, Elements(rest), last);
      assert last !in ReadableMap(st, Elements(rest)) by { ReadableMapIn(st, Elements(rest)); }
      var before := ReadableMap(st, Elements(rest));
      if Readable(st, last) {
        ListsOneMore(ReadableSessions(st, rest), before, last, st.sessions[last].value.session);
      } else {
        assert ReadableSessions(st, sids) == ReadableSessions(st, rest);
      }
    }
  }

  /** The commands `refreshSessionPermissions` queues in its MULTI. */
  datatype Command = Rewrite(sid: string, session: Session) | Remove(uid: string, sid: string)

  function ApplyCommand(st: Store, cmd: Command): Store {
    match cmd
    case Rewrite(sid, session) => if sid in st.sessions then SetKeepTtl(st, sid, session) else st
    case Remove(uid, sid) => SRem(st, uid, sid)
  }

  function Exec(st: Store, queue: seq<Command>): Store {
    if queue == [] then st else ApplyCommand(Exec(st, queue[..|queue| - 1]), queue[|queue| - 1])
  }

  lemma ExecMore(st: Store, queue: seq<Command>, cmd: Command)
    ensures Exec(st, queue + [cmd]) == ApplyCommand(Exec(st, queue), cmd)
  {
    assert (queue + [cmd])[..|queue|] == queue;
  }

  lemma ExecNothing(st: Store)
    ensures Exec(st, []) == st
  {}

  /** The store with the sessions of the first few listed sids rewritten. */
  function Rewritten(st: Store, sids: seq<string>, codes: seq<string>): map<string, Entry> {
    map sid | sid in st.sessions ::
      if sid in sids && Readable(st, sid) then WithPermissions(st.sessions[sid], codes) else st.sessions[sid]
  }

  /** The store when the first few listed sids have been dealt with. */
  function PartWay(st: Store, uid: string, sids: seq<string>, codes: seq<string>): Store
    requires uid in st.index
  {
    WithMembers(st, uid, st.index[uid].sids - Stale(st, sids)).(sessions := Rewritten(st, sids, codes))
  }

  lemma PartWayStart(st: Store, uid: string, codes: seq<string>)
    requires uid in st.index && st.index[uid].sids != {}
    ensures PartWay(st, uid, [], codes) == st
  {
    assert Rewritten(st, [], codes) == st.sessions;
    assert st.index[uid].sids - Stale(st, []) == st.index[uid].sids;
    assert st.index[uid := st.index[uid]] == st.index;
  }

  lemma PartWayKeep(st: Store, uid: string, sids: seq<string>, i: nat, codes: seq<string>)
    requires IndexLive(st, uid) && i < |sids| && Readable(st, sids[i])
    ensures var session := st.sessions[sids[i]].value.session.(permissions := codes);
            ApplyCommand(PartWay(st, uid, sids[..i], codes), Rewrite(sids[i], session)) ==
              PartWay(st, uid, sids[..i + 1], codes)
  {
    StaleMore(st, sids, i);
    assert sids[..i + 1] == sids[..i] + [sids[i]];
    var session := st.sessions[sids[i]].value.session.(permissions := codes);
    assert Rewritten(st, sids[..i], codes)[sids[i] := WithPermissions(st.sessions[sids[i]], codes)]
        == Rewritten(st, sids[..i + 1], codes);
    assert st.index[uid].sids - Stale(st, sids[..i]) == st.index[uid].sids - Stale(st, sids[..i + 1]);
  }

  lemma PartWayDrop(st: Store, uid: string, sids: seq<string>, i: nat, codes: seq<string>)
    requires IndexLive(st, uid) && i < |sids| && !Readable(st, sids[i])
    ensures ApplyCommand(PartWay(st, uid, sids[..i], codes), Remove(uid, sids[i])) ==
      PartWay(st, uid, sids[..i + 1], codes)
  {
    StaleMore(st, sids, i);
    assert sids[..i + 1] == sids[..i] + [sids[i]];
    assert Rewritten(st, sids[..i], codes) == Rewritten(st, sids[..i + 1], codes);
    RemoveMember(st, uid, st.index[uid].sids - Stale(st, sids[..i]), sids[i]);
    assert st.index[uid].sids - Stale(st, sids[..i]) - {sids[i]} == st.index[uid].sids - Stale(st, sids[..i + 1]);
  }

  lemma PartWayEnd(st: Store, uid: string, sids: seq<string>, codes: seq<string>)
    requires Members(st, uid) != {} && IsListing(sids, Members(st, uid))
    ensures PartWay(st, uid, sids, codes) == Propagate(st, uid, codes)
  {
    AllStaleIsPrune(st, uid, sids);
    assert forall sid :: sid in sids <==> sid in Elements(sids);
    assert Rewritten(st, sids, codes) == Propagate(st, uid, codes).sessions;
  }

  // ----- Services -----

  /** The database and the Redis store that the services share, and the model state they are in. */
  class Backend {
    const cfg: Jwt.Config
    var db: Db
    var store: Store
    ghost var s: State

    ghost predicate Shows(s: State)
      reads this
    {
      s.db == db && s.store == store && s.cfg == cfg
    }

    ghost predicate Valid()
      reads this
    {
      Shows(s) && Inv(s) && UniqueEmails(db)
    }

    constructor (db: Db, cfg: Jwt.Config, now: nat)
      requires UniqueEmails(db)
      ensures Valid() && Initial(s)
      ensures this.db == db && this.cfg == cfg && store == Store(now, map[], map[])
    {
      this.db, this.cfg := db, cfg;
      store := Store(now, map[], map[]);
      s := State(db, Store(now, map[], map[]), cfg, {}, map[], {}, {});
    }
  }

  /** What every operation leaves intact. */
  lemma Kept(s: State, op: Op)
    requires Inv(s) && UniqueEmails(s.db) && Enabled(s, op)
    ensures var t := Step(s, op).0; Inv(t) && UniqueEmails(t.db) && t.cfg == s.cfg
  {
    InvStep(s, op);
    UniqueEmailsStep(s, op);
    HistoryStep(s, op);
  }

  /** A live session whose login returned carries exactly its user's current codes. */
  ghost predicate Current(s: State, sid: string) {
    sid in s.returned && Live(s.store, sid) && s.store.sessions[sid].value.Json? &&
    var session := SessionOf(s.store, sid);
    session.userId in s.db.users && session.permissions == PermissionCodes(s.db, session.userId)
  }

  lemma CurrentUnlessStale(s: State, sid: string)
    requires Inv(s) && sid in s.returned && Live(s.store, sid) && sid !in s.stale
    ensures Current(s, sid)
  {}

  ghost predicate UserCurrent(s: State, uid: string) {
    forall sid | sid in s.returned && Live(s.store, sid) && s.store.sessions[sid].value.Json?
                 && SessionOf(s.store, sid).userId == uid :: Current(s, sid)
  }

  lemma UserCurrentAfter(s: State, op: Op, uid: string)
    requires Inv(s) && Enabled(s, op) && (op.AssignRole? || op.AssignPermissions?)
    requires Assigned(s, op, uid) && Propagated(s, op, uid)
    ensures UserCurrent(Step(s, op).0, uid)
  {
    var t := Step(s, op).0;
    InvStep(s, op);
    KeysStep(s, op);
    forall sid | sid in t.returned && Live(t.store, sid) && SessionOf(t.store, sid).userId == uid
      ensures Current(t, sid)
    {
      SameOwner(s, op, sid);
      StaleStepIff(s, op, sid);
      hide Step;
      CurrentUnlessStale(t, sid);
    }
  }

  lemma SameOwner(s: State, op: Op, sid: string)
    requires Inv(s) && Enabled(s, op) && (op.AssignRole? || op.AssignPermissions?) && sid in s.store.sessions
    ensures var t := Step(s, op).0.store;
            sid in t.sessions && t.sessions[sid].value.Json?
              && SessionOf(t, sid).userId == SessionOf(s.store, sid).userId
  {
    if op.AssignRole? {
      if op.uid in s.db.users {
        AttemptStaleIff(WithRoles(s, op.uid, op.roleIds), op.uid, op.fate, sid);
        hide Attempt;
      }
    } else {
      var codes := Permissions.CodesFor(s.db.perms, op.permissionIds);
      if codes.Some? {
        OwnersKept(s.(db := s.db.(roles := s.db.roles[op.roleId := codes.value])), op.order, op.fates, sid);
        hide AttemptAll;
      }
    }
    hide Inv;
  }

  lemma {:induction false} OwnersKept(s: State, order: seq<string>, fates: seq<Fate>, sid: string)
    requires |fates| == |order| && forall uid | uid in order :: uid in s.db.users
    requires sid in s.store.sessions && s.store.sessions[sid].value.Json?
    ensures var t := AttemptAll(s, order, fates).store;
            sid in t.sessions && t.sessions[sid].value.Json?
              && SessionOf(t, sid).userId == SessionOf(s.store, sid).userId
    decreases |order|
  {
    if order != [] {
      AttemptStaleIff(s, order[0], fates[0], sid);
      AttemptFrame(s, order[0], fates[0]);
      var t := Attempt(s, order[0], fates[0]);
      hide Attempt;
      if !Throws(s.store, order[0], fates[0]) {
        OwnersKept(t, order[1..], fates[1..], sid);
      }
    }
  }

  /** A sid that cannot be read is a new one of those met so far, and one of those that there are. */
  lemma StaleSize(st: Store, uid: string, sids: seq<string>, i: nat)
    requires IsListing(sids, Members(st, uid)) && i < |sids|
    ensures !Readable(st, sids[i]) ==>
      |Stale(st, sids[..i + 1])| == |Stale(st, sids[..i])| + 1 && |Stale(st, sids[..i])| < |Gone(st, uid)|
  {
    StaleMore(st, sids, i);
    if !Readable(st, sids[i]) {
      assert sids[i] !in Stale(st, sids[..i]);
      assert Stale(st, sids[..i]) + {sids[i]} <= Gone(st, uid);
      Smaller(Stale(st, sids[..i]) + {sids[i]}, Gone(st, uid));
    }
  }

  lemma {:induction false} Smaller<T>(a: set<T>, b: set<T>)
    requires a <= b
    ensures |a| <= |b|
  {
    assert b == a + (b - a);
  }

  /** The listing as an operation of the model, where a removal that fails stops it. */
  lemma StopsAt(s: State, uid: string, sids: seq<string>, i: nat, lost: bool) returns (op: Op)
    requires Inv(s) && UniqueEmails(s.db) && Members(s.store, uid) != {} && IsListing(sids, Members(s.store, uid))
    requires i < |sids| && !Readable(s.store, sids[i])
    ensures var removed := Stale(s.store, sids[..if lost then i + 1 else i]);
            && op == FindUserSessions(uid, true, removed, !lost) && Enabled(s, op)
            && Step(s, op) ==
               (s.(store := WithMembers(s.store, uid, Members(s.store, uid) - removed)), Failure(RedisFailed))
    ensures Inv(Step(s, op).0) && UniqueEmails(Step(s, op).0.db)
    ensures forall sid | sid in Members(s.store, uid) && Readable(s.store, sid) ::
      sid in Members(Step(s, op).0.store, uid)
  {
    var removed := Stale(s.store, sids[..if lost then i + 1 else i]);
    op := FindUserSessions(uid, true, removed, !lost);
    StaleDropped(s.store, uid, sids, if lost then i + 1 else i);
    StaleMore(s.store, sids, i);
    Kept(s, op);
    DropKeepsLive(s.store, uid, removed);
    hide Inv;
    hide Drop;
    hide Gone;
    hide WithMembers;
  }

  /** And where none fails. */
  lemma Finishes(s: State, uid: string, sids: seq<string>) returns (op: Op)
    requires Inv(s) && UniqueEmails(s.db) && Members(s.store, uid) != {} && IsListing(sids, Members(s.store, uid))
    ensures op == FindUserSessions(uid, true, Gone(s.store, uid), true) && Enabled(s, op)
    ensures Step(s, op) == (s.(store := WithMembers(s.store, uid, Members(s.store, uid) - Stale(s.store, sids))),
                            Listed(ReadableMap(s.store, Members(s.store, uid))))
    ensures Inv(Step(s, op).0) && UniqueEmails(Step(s, op).0.db)
    ensures forall sid | sid in Members(s.store, uid) && Readable(s.store, sid) ::
      sid in Members(Step(s, op).0.store, uid)
  {
    op := FindUserSessions(uid, true, Gone(s.store, uid), true);
    StaleDropped(s.store, uid, sids, |sids|);
    assert sids[..|sids|] == sids;
    Kept(s, op);
    DropKeepsLive(s.store, uid, Gone(s.store, uid));
    hide Inv;
    hide Drop;
    hide Gone;
    hide WithMembers;
  }

  class SessionsService {
    const b: Backend

    constructor (b: Backend)
      ensures this.b == b
    {
      this.b := b;
    }

    method SMembers(uid: string) returns (sids: seq<string>)
      ensures IsListing(sids, Members(b.store, uid))
    {
      ghost var listing := ListingExists(Members(b.store, uid));
      sids :| IsListing(sids, Members(b.store, uid));
    }

    method MGet(sids: seq<string>) returns (raws: seq<Option<Stored>>)
      ensures |raws| == |sids| && forall i | 0 <= i < |sids| :: raws[i] == Get(b.store, sids[i])
    {
      raws := seq(|sids|, i requires 0 <= i < |sids| reads b => Get(b.store, sids[i]));
    }

    /** `failAt` is the removal that fails, if any, and `lost` says that only its reply is lost. Without a failure
        every unreadable sid is removed, one by one; those before the failure are. Whatever fails, no live
        session leaves the index. */
    method FindUserSessions(uid: string, read: bool, failAt: Option<nat>, lost: bool)
      returns (r: Result<seq<(string, Session)>, Sessions.Error>, ghost op: Op)
      requires b.Valid()
      modifies b`store, b`s
      ensures b.Valid() && op.FindUserSessions? && op.uid == uid && op.read == read && Enabled(old(b.s), op)
      ensures var (t, a) := Step(old(b.s), op);
              && b.s == t
              && match r
                 case Ok(sessions) => a.Listed? && ListsExactly(sessions, a.found)
                 case Err(e) => a == Failure(e)
      ensures r.Ok? <==> read && (failAt.None? || failAt.value >= |Gone(old(b.store), uid)|)
      ensures read && r.Err? ==> |op.removed| == if lost then failAt.value + 1 else failAt.value
      ensures forall sid | sid in Members(old(b.store), uid) && Readable(old(b.store), sid) ::
        sid in Members(b.store, uid)
    {
      hide Drop;
      hide Gone;
      hide SRem;
      hide WithMembers;
      hide Stale;
      hide ReadableSessions;
      hide ListsExactly;
      hide Inv;
      hide UniqueEmails;
      ghost var s, st, members := b.s, b.store, Members(b.store, uid);
      op := Op.FindUserSessions(uid, read, {}, true);
      if !read {
        r := Err(RedisFailed);
        return;
      }
      var sids := SMembers(uid);
      var sessions: seq<(string, Session)> := [];
      ReadableSessionsExactly(st, sids);
      if |sids| == 0 {
        DropNothing(st, uid);
        r := Ok(sessions);
        return;
      }
      assert sids[0] in Elements(sids);
      var raws := MGet(sids);
      NothingStale(st, uid);
      assert sids[..0] == [];
      var removals := 0;
      for i := 0 to |sids|
        invariant b.store == WithMembers(st, uid, members - Stale(st, sids[..i])) && b.s == s
        invariant sessions == ReadableSessions(st, sids[..i])
        invariant |Stale(st, sids[..i])| == removals && (failAt.Some? ==> removals <= failAt.value)
      {
        StaleMore(st, sids, i);
        StaleSize(st, uid, sids, i);
        ReadableMore(st, sids, i);
        if raws[i].Some? && raws[i].value.Json? {
          sessions := sessions + [(sids[i], raws[i].value.session)];
          assert members - Stale(st, sids[..i]) == members - Stale(st, sids[..i + 1]);
        } else {
          if failAt == Some(removals) && !lost {
            op := StopsAt(s, uid, sids, i, false);
            b.s := Step(s, op).0;
            r := Err(RedisFailed);
            return;
          }
          RemoveMember(st, uid, members - Stale(st, sids[..i]), sids[i]);
          b.store := SRem(b.store, uid, sids[i]);
          assert members - Stale(st, sids[..i]) - {sids[i]} == members - Stale(st, sids[..i + 1]);
          if failAt == Some(removals) {
            op := StopsAt(s, uid, sids, i, true);
            b.s := Step(s, op).0;
            r := Err(RedisFailed);
            return;
          }
          removals := removals + 1;
        }
      }
      assert sids[..|sids|] == sids;
      StaleDropped(st, uid, sids, |sids|);
      op := Finishes(s, uid, sids);
      b.s := Step(s, op).0;
      r := Ok(sessions);
      return;
    }

    /** A session that was found is over for good once the write is carried out. */
    method DeactivateSession(sid: string, fate: Fate) returns (answer: Answer)
      requires b.Valid()
      modifies b`store, b`s
      ensures b.Valid() && (b.s, answer) == Step(old(b.s), Op.DeactivateSession(sid, fate))
      ensures answer == Deactivated(true) ==> Live(old(b.store), sid)
      ensures fate.read && fate.exec.Applied() && Live(old(b.store), sid) ==> Ended(b.s, sid)
      ensures SessionsEffects.Deactivates(old(b.s), b.s, answer, sid, fate)
    {
      SessionsEffects.DeactivateEffect(b.s, sid, fate);
      hide SessionsEffects.Deactivates;
      ghost var op := Op.DeactivateSession(sid, fate);
      Kept(b.s, op);
      ghost var next := Step(b.s, op).0;
      assert Live(b.store, sid) ==> Readable(b.store, sid) && sid in b.s.loginAt;
      hide Inv;
      if !fate.read {
        return Failure(RedisFailed);
      }
      var raw := Get(b.store, sid);
      match raw {
        case None => return Deactivated(false);
        case Some(Garbled) => return Failure(Unparseable);
        case Some(Json(session)) =>
          if fate.exec.Applied() {
            b.store := SetKeepTtl(b.store, sid, session.(active := false));
            b.s := next;
          }
          return if fate.exec.Raised() then Failure(RedisFailed) else Deactivated(true);
      }
    }

    /** `ok` is false when one of the reads or the MULTI fails. */
    method RefreshSessionPermissions(uid: string, permissions: seq<string>, fate: Fate) returns (ok: bool)
      modifies b`store
      ensures b.store == if CarriedOut(old(b.store), uid, fate) then Propagate(old(b.store), uid, permissions)
        else old(b.store)
      ensures ok <==> !Throws(old(b.store), uid, fate)
    {
      hide Propagate;
      hide Prune;
      hide PartWay;
      hide Exec;
      hide ApplyCommand;
      ghost var st := b.store;
      if !fate.read {
        return false;
      }
      var sids := SMembers(uid);
      if |sids| == 0 {
        NothingToPropagate(st, uid, permissions);
        return true;
      }
      assert sids[0] in Elements(sids);
      var raws := MGet(sids);
      var multi: seq<Command> := [];
      ExecNothing(st);
      PartWayStart(st, uid, permissions);
      assert sids[..0] == [];
      for i := 0 to |sids|
        invariant b.store == st
        invariant Exec(st, multi) == PartWay(st, uid, sids[..i], permissions)
      {
        var sid := sids[i];
        if raws[i].Some? && raws[i].value.Json? {
          var updated := raws[i].value.session.(permissions := permissions);
          PartWayKeep(st, uid, sids, i, permissions);
          ExecMore(st, multi, Rewrite(sid, updated));
          multi := multi + [Rewrite(sid, updated)];
        } else {
          PartWayDrop(st, uid, sids, i, permissions);
          ExecMore(st, multi, Remove(uid, sid));
          multi := multi + [Remove(uid, sid)];
        }
      }
      assert sids[..|sids|] == sids;
      PartWayEnd(st, uid, sids, permissions);
      if fate.exec.Applied() {
        b.store := Exec(b.store, multi);
      }
      return !fate.exec.Raised();
    }

    /** The first user for whom propagation throws ends the loop. */
    method RefreshSessionPermissionsByRole(users: seq<string>, fates: seq<Fate>, ghost s: State) returns (ok: bool)
      requires b.Shows(s) && |fates| == |users| && forall uid | uid in users :: uid in b.db.users
      requires forall i, j | 0 <= i < j < |users| :: users[i] != users[j]
      modifies b`store
      ensures b.store == AttemptAll(s, users, fates).store
      ensures ok <==> forall i | 0 <= i < |users| :: !Throws(old(b.store), users[i], fates[i])
    {
      hide Propagate;
      hide PermissionCodes;
      hide CarriedOut;
      hide Members;
      ghost var u := s;
      assert users[0..] == users && fates[0..] == fates;
      for i := 0 to |users|
        invariant u.db == b.db && u.store == b.store
        invariant AttemptAll(u, users[i..], fates[i..]).store == AttemptAll(s, users, fates).store
        invariant forall j | i <= j < |users| :: Members(b.store, users[j]) == Members(s.store, users[j])
        invariant forall j | 0 <= j < i :: !Throws(s.store, users[j], fates[j])
      {
        assert users[i] in users && users[i..][1..] == users[i + 1..] && fates[i..][1..] == fates[i + 1..];
        forall j | i < j < |users|
          ensures Members(Attempt(u, users[i], fates[i]).store, users[j]) == Members(u.store, users[j])
        {
          AttemptElsewhere(u, users[i], fates[i], users[j]);
        }
        assert Throws(b.store, users[i], fates[i]) == Throws(s.store, users[i], fates[i]);
        u := Attempt(u, users[i], fates[i]);
        var done := RefreshSessionPermissions(users[i], PermissionCodes(b.db, users[i]), fates[i]);
        if !done {
          return false;
        }
      }
      return true;
    }
  }

  lemma NothingToPropagate(st: Store, uid: string, codes: seq<string>)
    requires Members(st, uid) == {}
    ensures Propagate(st, uid, codes) == st
  {
    assert Propagate(st, uid, codes).sessions == st.sessions;
  }

  class RolesService {
    const b: Backend
    const sessionService: SessionsService

    constructor (b: Backend, sessionService: SessionsService)
      requires sessionService.b == b
      ensures this.b == b && this.sessionService == sessionService
    {
      this.b, this.sessionService := b, sessionService;
    }

    /** `order` is the answer of the query for the users with the role. A completed assignment makes the
        sessions of each user it gets to current; it does not say whether it got to all of them. */
    method AssignPermissions(roleId: string, permissionIds: seq<string>, save: Outcome, query: bool, order: seq<string>,
                             fates: seq<Fate>) returns (answer: Answer)
      requires sessionService.b == b && b.Valid()
      requires Enabled(b.s, Op.AssignPermissions(roleId, permissionIds, save, query, order, fates))
      modifies b
      ensures b.Valid() && (b.s, answer) ==
        Step(old(b.s), Op.AssignPermissions(roleId, permissionIds, save, query, order, fates))
      ensures answer == Completed && query ==>
        forall i | 0 <= i < |order| && ReachedBy(old(b.store), order, fates, i) :: UserCurrent(b.s, order[i])
      ensures SessionsEffects.AssignsPermissions(old(b.s), b.s, answer, roleId, permissionIds, save, query)
    {
      SessionsEffects.AssignPermissionsEffect(b.s, roleId, permissionIds, save, query, order, fates);
      hide SessionsEffects.AssignsPermissions;
      ghost var op := Op.AssignPermissions(roleId, permissionIds, save, query, order, fates);
      ghost var s := b.s;
      ghost var (t, a) := Step(s, op);
      Kept(s, op);
      assert t.db == b.db || (roleId in b.db.roles && save.Applied()) by { hide Inv; }
      RoleUsersCurrent(s, op);
      hide Inv;
      hide UniqueEmails;
      hide AttemptAll;
      hide ReachedBy;
      hide UserCurrent;
      b.s := t;
      if roleId !in b.db.roles {
        return Failure(RoleNotFound);
      }
      var codes := Permissions.CodesFor(b.db.perms, permissionIds);
      if codes.None? {
        return Failure(PermissionNotFound);
      }
      ghost var saved := s.(db := s.db.(roles := s.db.roles[roleId := codes.value]));
      AttemptAllFrame(saved, order, fates);
      if save.Applied() {
        b.db := b.db.(roles := b.db.roles[roleId := codes.value]);
      }
      if save.Raised() {
        return Failure(DbDown);
      }
      if query {
        var _ := sessionService.RefreshSessionPermissionsByRole(order, fates, saved);
      }
      return Completed;
    }
  }

  lemma RoleUsersCurrent(s: State, op: Op)
    requires Inv(s) && op.AssignPermissions? && Enabled(s, op)
    ensures var (t, a) := Step(s, op);
            a == Completed && op.query ==>
              forall i | 0 <= i < |op.order| && ReachedBy(s.store, op.order, op.fates, i) :: UserCurrent(t, op.order[i])
  {
    var (t, a) := Step(s, op);
    if a == Completed && op.query {
      hide ReachedBy;
      forall i | 0 <= i < |op.order| && ReachedBy(s.store, op.order, op.fates, i) ensures UserCurrent(t, op.order[i]) {
        assert Assigned(s, op, op.order[i]) && Propagated(s, op, op.order[i]);
        UserCurrentAfter(s, op, op.order[i]);
      }
    }
  }

  class UsersService {
    const b: Backend
    const sessionService: SessionsService

    constructor (b: Backend, sessionService: SessionsService)
      requires sessionService.b == b
      ensures this.b == b && this.sessionService == sessionService
    {
      this.b, this.sessionService := b, sessionService;
    }

    method FindByEmail(email: string) returns (uid: Option<string>)
      requires UniqueEmails(b.db)
      ensures uid == if HasEmail(b.db, email) then Some(ByEmail(b.db, email)) else None
    {
      if HasEmail(b.db, email) {
        var u :| u in b.db.users && b.db.users[u].email == email;
        return Some(u);
      }
      return None;
    }

    /** Tokens are for a session that is live, listed, active and carries the user's current codes. */
    method LogIn(email: string, passwordOk: bool, sid: string, ip: string, userAgent: string, commands: nat,
                 replied: bool)
      returns (answer: Answer)
      requires b.Valid() && Enabled(b.s, Op.LogIn(email, passwordOk, sid, ip, userAgent, commands, replied))
      modifies b`store, b`s
      ensures b.Valid() && (b.s, answer) ==
        Step(old(b.s), Op.LogIn(email, passwordOk, sid, ip, userAgent, commands, replied))
      ensures answer.Tokens? && b.cfg.refreshMs > 0 ==>
        && Current(b.s, sid) && SessionOf(b.store, sid).active && SessionOf(b.store, sid).email == email
        && sid in Members(b.store, SessionOf(b.store, sid).userId)
      ensures answer.Tokens? <==>
        && passwordOk && commands == 3 && replied
        && exists uid | uid in b.db.users :: b.db.users[uid].email == email && b.db.users[uid].status == ACTIVE
      ensures !passwordOk ==> answer == Failure(WrongCredentials) && b.store == old(b.store) && b.s == old(b.s)
      ensures SessionsEffects.LogsIn(old(b.s), b.s, answer, email, passwordOk, sid, ip, userAgent, commands, replied)
    {
      SessionsEffects.LogInIff(b.s, email, passwordOk, sid, ip, userAgent, commands, replied);
      SessionsEffects.LogInEffect(b.s, email, passwordOk, sid, ip, userAgent, commands, replied);
      hide SessionsEffects.LogsIn;
      ghost var op := Op.LogIn(email, passwordOk, sid, ip, userAgent, commands, replied);
      Kept(b.s, op);
      LogInCurrent(b.s, op);
      hide Inv;
      hide Current;
      ghost var next := Step(b.s, op).0;
      var uid := FindByEmail(email);
      if uid.None? || !passwordOk {
        return Failure(WrongCredentials);
      }
      var user := b.db.users[uid.value];
      if user.status == PENDING {
        return Failure(NotInitialized);
      }
      if user.status == INACTIVE {
        return Failure(UserInactive);
      }
      b.s := next;
      var access := Jwt.GenerateToken(b.cfg, user.email, Some(sid), Jwt.Auth, b.store.now);
      var refresh := Jwt.GenerateToken(b.cfg, user.email, Some(sid), Jwt.Refresh, b.store.now);
      var codes := PermissionCodes(b.db, uid.value);
      var session := Session(uid.value, user.personId, user.email, codes, true, ip, userAgent,
                             b.store.now, b.store.now);
      if commands == 0 {
        return Failure(TokensIssue);
      }
      b.store := SetPx(b.store, sid, session, b.cfg.refreshMs);
      if commands == 1 {
        return Failure(TokensIssue);
      }
      b.store := SAdd(b.store, uid.value, sid);
      if commands == 2 {
        return Failure(TokensIssue);
      }
      b.store := PExpire(b.store, uid.value, b.cfg.refreshMs);
      return if replied then Tokens(access, refresh) else Failure(TokensIssue);
    }

    /** Once its first command is carried out the session is over for good. */
    method LogOut(uid: string, sid: string, commands: nat, replied: bool) returns (answer: Answer)
      requires b.Valid() && Enabled(b.s, Op.LogOut(uid, sid, commands, replied))
      modifies b`store, b`s
      ensures b.Valid() && (b.s, answer) == Step(old(b.s), Op.LogOut(uid, sid, commands, replied))
      ensures commands > 0 && sid in b.s.loginAt ==> Ended(b.s, sid)
      ensures SessionsEffects.LogsOut(old(b.s), b.s, answer, uid, sid, commands, replied)
    {
      SessionsEffects.LogOutEffect(b.s, uid, sid, commands, replied);
      hide SessionsEffects.LogsOut;
      ghost var op := Op.LogOut(uid, sid, commands, replied);
      Kept(b.s, op);
      hide Inv;
      b.s := Step(b.s, op).0;
      if commands == 0 {
        return Failure(RedisFailed);
      }
      b.store := Del(b.store, sid);
      if commands == 1 {
        return Failure(RedisFailed);
      }
      b.store := SRem(b.store, uid, sid);
      return if replied then Completed else Failure(RedisFailed);
    }

    /** A refresh goes through only for a session that has not ended, and makes it current. */
    method RefreshToken(token: Jwt.Token, fate: Fate) returns (answer: Answer)
      requires b.Valid()
      modifies b`store, b`s
      ensures b.Valid() && (b.s, answer) == Step(old(b.s), Op.RefreshToken(token, fate))
      ensures answer.Tokens? ==>
        && token.sid.Some? && !Ended(old(b.s), token.sid.value) && !Ended(b.s, token.sid.value)
        && (token.sid.value in b.s.returned ==> Current(b.s, token.sid.value))
      ensures SessionsEffects.Refreshes(old(b.s), b.s, answer, token, fate)
    {
      SessionsEffects.RefreshEffect(b.s, token, fate);
      hide SessionsEffects.Refreshes;
      ghost var op := Op.RefreshToken(token, fate);
      Kept(b.s, op);
      RefreshCurrent(b.s, op);
      hide Inv;
      hide Current;
      hide Ended;
      ghost var next := Step(b.s, op).0;
      var payload := Jwt.GetPayload(token, Jwt.Refresh, b.store.now);
      if payload.Err? {
        return Failure(JwtError(payload.error));
      }
      var sid := payload.value.sid.value;
      if !fate.read {
        return Failure(RedisFailed);
      }
      var raw := Get(b.store, sid);
      match raw {
        case None => return Failure(SessionInvalid);
        case Some(Garbled) => return Failure(Unparseable);
        case Some(Json(session)) =>
          if !session.active {
            return Failure(SessionInvalid);
          }
          if session.userId !in b.db.users {
            return Failure(UserNotFound);
          }
          var renewed := session.(permissions := PermissionCodes(b.db, session.userId), lastRefreshAt := b.store.now);
          if fate.exec.Applied() {
            b.store := SetKeepTtl(b.store, sid, renewed);
            b.s := next;
          }
          if fate.exec.Raised() {
            return Failure(RedisFailed);
          }
          var tokens := Jwt.RefreshToken(b.cfg, token, b.store.now);
          return match tokens case Err(e) => Failure(JwtError(e)) case Ok((access, refresh)) => Tokens(access, refresh);
      }
    }

    /** The answer is about the user's current codes, unless the session has missed a propagation. */
    method CanDo(sid: string, code: string) returns (answer: Answer)
      requires b.Valid()
      ensures (b.s, answer) == Step(b.s, Op.CanDo(sid, code))
      ensures answer.Allowed? ==> !Ended(b.s, sid)
      ensures answer.Allowed? && sid in b.s.returned && sid !in b.s.stale ==>
        Current(b.s, sid) && (answer.yes <==> code in PermissionCodes(b.db, SessionOf(b.store, sid).userId))
      ensures SessionsEffects.Answers(b.s, b.s, answer, sid, code)
    {
      SessionsEffects.CanDoEffect(b.s, sid, code);
      hide SessionsEffects.Answers;
      var raw := Get(b.store, sid);
      match raw {
        case None => answer := Failure(SessionInvalid);
        case Some(Garbled) => answer := Failure(Unparseable);
        case Some(Json(session)) =>
          answer := if session.active then Allowed(code in session.permissions) else Failure(SessionInvalid);
      }
      assert answer.Allowed? ==> Live(b.store, sid);
      hide PermissionCodes;
    }

    /** A completed assignment whose propagation is carried out makes the user's sessions current. */
    method AssignRole(uid: string, roleIds: seq<string>, save: Outcome, fate: Fate) returns (answer: Answer)
      requires sessionService.b == b && b.Valid()
      modifies b
      ensures b.Valid() && (b.s, answer) == Step(old(b.s), Op.AssignRole(uid, roleIds, save, fate))
      ensures answer == Completed && CarriedOut(old(b.store), uid, fate) ==> UserCurrent(b.s, uid)
      ensures SessionsEffects.AssignsRoles(old(b.s), b.s, answer, uid, roleIds, save)
    {
      SessionsEffects.AssignRoleEffect(b.s, uid, roleIds, save, fate);
      hide SessionsEffects.AssignsRoles;
      ghost var op := Op.AssignRole(uid, roleIds, save, fate);
      ghost var s := b.s;
      Kept(s, op);
      if Assigned(s, op, uid) && Propagated(s, op, uid) {
        UserCurrentAfter(s, op, uid);
      }
      hide Inv;
      hide UniqueEmails;
      hide UserCurrent;
      hide Propagate;
      hide PermissionCodes;
      b.s := Step(s, op).0;
      if uid !in b.db.users {
        return Failure(UserNotFound);
      }
      if exists r | r in roleIds :: r !in b.db.roles {
        return Failure(RoleNotFound);
      }
      if save.Applied() {
        b.db := b.db.(users := b.db.users[uid := b.db.users[uid].(roles := roleIds)]);
      }
      if save.Raised() {
        return Failure(DbDown);
      }
      var _ := sessionService.RefreshSessionPermissions(uid, PermissionCodes(b.db, uid), fate);
      return Completed;
    }

    /** One transaction: when the registration mail cannot be sent, the saved user is rolled back. */
    method Register(uid: string, email: string, personId: string, roleIds: seq<string>, mailed: bool)
      returns (answer: Answer)
      requires b.Valid() && Enabled(b.s, Op.Register(uid, email, personId, roleIds, mailed))
      modifies b`db, b`s
      ensures b.Valid() && (b.s, answer) == Step(old(b.s), Op.Register(uid, email, personId, roleIds, mailed))
      ensures answer == Completed || b.db == old(b.db)
      ensures SessionsEffects.Registers(old(b.s), b.s, answer, uid, email, personId, roleIds, mailed)
    {
      SessionsEffects.RegisterEffect(b.s, uid, email, personId, roleIds, mailed);
      hide SessionsEffects.Registers;
      ghost var op := Op.Register(uid, email, personId, roleIds, mailed);
      Kept(b.s, op);
      hide Inv;
      hide UniqueEmails;
      ghost var next := Step(b.s, op).0;
      if exists r | r in roleIds :: r !in b.db.roles {
        return Failure(NotRegistered);
      }
      if exists u | u in b.db.users :: b.db.users[u].email == email || b.db.users[u].personId == personId {
        return Failure(NotRegistered);
      }
      var before := b.db;
      b.db := b.db.(users := b.db.users[uid := User(email, personId, PENDING, roleIds)]);
      if !mailed {
        b.db := before;
        return Failure(NotRegistered);
      }
      b.s := next;
      return Completed;
    }

    method SaveStatus(uid: string, status: UserStatus)
      requires uid in b.db.users
      modifies b`db
      ensures b.db == old(b.db).(users := old(b.db).users[uid := old(b.db).users[uid].(status := status)])
    {
      b.db := b.db.(users := b.db.users[uid := b.db.users[uid].(status := status)]);
    }

    method FirstActivation(email: string, passwordOk: bool) returns (answer: Answer)
      requires b.Valid()
      modifies b`db, b`s
      ensures b.Valid() && (b.s, answer) == Step(old(b.s), Op.FirstActivation(email, passwordOk))
      ensures SessionsEffects.FirstActivates(old(b.s), b.s, answer, email, passwordOk)
    {
      SessionsEffects.FirstActivationEffect(b.s, email, passwordOk);
      hide SessionsEffects.FirstActivates;
      ghost var op := Op.FirstActivation(email, passwordOk);
      Kept(b.s, op);
      hide Inv;
      ghost var next := Step(b.s, op).0;
      var uid := FindByEmail(email);
      hide UniqueEmails;
      if uid.None? {
        return Failure(UserNotFound);
      }
      if b.db.users[uid.value].status != PENDING {
        return Failure(WrongStatus);
      }
      if !passwordOk {
        return Failure(WrongCredentials);
      }
      SaveStatus(uid.value, ACTIVE);
      b.s := next;
      return Completed;
    }

    method Activate(uid: string) returns (answer: Answer)
      requires b.Valid()
      modifies b`db, b`s
      ensures b.Valid() && (b.s, answer) == Step(old(b.s), ActivateUser(uid))
      ensures SessionsEffects.Switches(old(b.s), b.s, answer, uid, INACTIVE, ACTIVE)
    {
      SessionsEffects.ActivateEffect(b.s, uid);
      hide SessionsEffects.Switches;
      Kept(b.s, ActivateUser(uid));
      hide Inv;
      hide UniqueEmails;
      ghost var next := Step(b.s, ActivateUser(uid)).0;
      if uid !in b.db.users {
        return Failure(UserNotFound);
      }
      if b.db.users[uid].status != INACTIVE {
        return Failure(WrongStatus);
      }
      SaveStatus(uid, ACTIVE);
      b.s := next;
      return Completed;
    }

    /** The user's sessions are left as they are. */
    method Deactivate(uid: string) returns (answer: Answer)
      requires b.Valid()
      modifies b`db, b`s
      ensures b.Valid() && (b.s, answer) == Step(old(b.s), DeactivateUser(uid))
      ensures SessionsEffects.Switches(old(b.s), b.s, answer, uid, ACTIVE, INACTIVE)
    {
      SessionsEffects.DeactivateUserEffect(b.s, uid);
      hide SessionsEffects.Switches;
      Kept(b.s, DeactivateUser(uid));
      hide Inv;
      hide UniqueEmails;
      ghost var next := Step(b.s, DeactivateUser(uid)).0;
      if uid !in b.db.users {
        return Failure(UserNotFound);
      }
      if b.db.users[uid].status != ACTIVE {
        return Failure(WrongStatus);
      }
      SaveStatus(uid, INACTIVE);
      b.s := next;
      return Completed;
    }
  }

  lemma LogInCurrent(s: State, op: Op)
    requires Inv(s) && op.LogIn? && Enabled(s, op)
    ensures var t := Step(s, op).0; Step(s, op).1.Tokens? && s.cfg.refreshMs > 0 ==>
      && Current(t, op.sid) && SessionOf(t.store, op.sid).active && SessionOf(t.store, op.sid).email == op.email
      && op.sid in Members(t.store, SessionOf(t.store, op.sid).userId)
  {
    if Step(s, op).1.Tokens? && s.cfg.refreshMs > 0 {
      LogInEffect(s, op, ByEmail(s.db, op.email));
      InvStep(s, op);
      hide LogInStore;
      LiveIsMember(Step(s, op).0, op.sid);
    }
  }

  lemma RefreshCurrent(s: State, op: Op)
    requires Inv(s) && op.RefreshToken?
    ensures var (t, a) := Step(s, op); a.Tokens? ==>
            && op.token.sid.Some? && !Ended(s, op.token.sid.value) && !Ended(t, op.token.sid.value)
            && (op.token.sid.value in t.returned ==> Current(t, op.token.sid.value))
  {
    if Step(s, op).1.Tokens? {
      UseIsWithinLifetime(s, op, op.token.sid.value);
    }
  }
}
