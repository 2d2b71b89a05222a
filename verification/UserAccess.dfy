/** The guard of user requests over both caches at once: sessions and endpoint rules. Joint runs of every
    session, role and rule operation and of guarded requests, and what they guarantee. */
module UserAccess {
  import opened Common
  import opened Guards
  import Jwt
  import Sessions
  import SessionsCoherence
  import SessionsEffects
  import SessionCopies
  import EndpointRules
  import EndpointRulesCoherence
  import EndpointRulesFaults
  import Permissions

  // ----- One request -----

  /** The access-token cookie: its text, and what it decodes to. */
  datatype Cookie = Cookie(raw: string, token: Jwt.Token)

  datatype Request = Request(cookie: Option<Cookie>, ip: string)

  datatype AuthUser = AuthUser(id: string, email: string, personId: string, sessionId: string)

  function Split(s: string, separator: char): (parts: seq<string>)
    ensures parts != []
  {
    if s == "" then [""]
    else
      var rest := Split(s[1..], separator);
      if s[0] == separator then [""] + rest else [[s[0]] + rest[0]] + rest[1..]
  }

  /** Both addresses are four dotted parts, and the first three agree. */
  predicate SameSubnet(ip1: string, ip2: string) {
    var a, b := Split(ip1, '.'), Split(ip2, '.');
    |a| == 4 && |b| == 4 && a[0] == b[0] && a[1] == b[1] && a[2] == b[2]
  }

  function Join(parts: seq<string>, separator: char): string
    requires parts != []
  {
    if |parts| == 1 then parts[0] else parts[0] + [separator] + Join(parts[1..], separator)
  }

  /** Splitting and joining undo each other, and no part has a separator in it. */
  lemma {:induction false} SplitJoin(s: string, separator: char)
    ensures Join(Split(s, separator), separator) == s
    ensures forall part | part in Split(s, separator) :: separator !in part
  {
    if s != "" {
      SplitJoin(s[1..], separator);
      JoinMore(s[0], Split(s[1..], separator), separator);
      assert s == [s[0]] + s[1..];
      hide Join;
    }
  }

  lemma JoinMore(c: char, rest: seq<string>, separator: char)
    requires rest != []
    ensures Join([""] + rest, separator) == [separator] + Join(rest, separator)
    ensures Join([[c] + rest[0]] + rest[1..], separator) == [c] + Join(rest, separator)
  {
    assert ([""] + rest)[1..] == rest;
    var first := [c] + rest[0];
    assert ([first] + rest[1..])[1..] == rest[1..];
    if |rest| > 1 {
      var tail := Join(rest[1..], separator);
      assert first + [separator] + tail == [c] + (rest[0] + [separator] + tail);
    }
  }

  lemma {:induction false} JoinSplit(parts: seq<string>, separator: char)
    requires parts != [] && forall part | part in parts :: separator !in part
    ensures Split(Join(parts, separator), separator) == parts
    decreases |parts|
  {
    if |parts| == 1 {
      SplitWhole(parts[0], separator);
    } else {
      JoinSplit(parts[1..], separator);
      SplitFirst(parts[0], Join(parts[1..], separator), separator);
      assert parts[0] + [separator] + Join(parts[1..], separator)
          == parts[0] + ([separator] + Join(parts[1..], separator));
    }
  }

  lemma {:induction false} SplitWhole(s: string, separator: char)
    requires separator !in s
    ensures Split(s, separator) == [s]
  {
    if s != "" {
      SplitWhole(s[1..], separator);
      assert s == [s[0]] + s[1..];
    }
  }

  lemma {:induction false} SplitFirst(first: string, rest: string, separator: char)
    requires separator !in first
    ensures Split(first + ([separator] + rest), separator) == [first] + Split(rest, separator)
  {
    var s := first + ([separator] + rest);
    if first == "" {
      assert s[1..] == rest;
    } else {
      assert s[1..] == first[1..] + ([separator] + rest);
      SplitFirst(first[1..], rest, separator);
      assert first == [first[0]] + first[1..];
    }
  }

  /** The dotted quad of four parts. */
  function Quad(a: string, b: string, c: string, d: string): string {
    a + "." + b + "." + c + "." + d
  }

  /** Exactly which addresses share a subnet: two dotted quads that differ in the last part at most. */
  lemma SameSubnetIff(ip1: string, ip2: string)
    ensures SameSubnet(ip1, ip2) <==>
      exists a, b, c, d, e ::
        && '.' !in a && '.' !in b && '.' !in c && '.' !in d && '.' !in e
        && ip1 == Quad(a, b, c, d) && ip2 == Quad(a, b, c, e)
  {
    if SameSubnet(ip1, ip2) {
      SplitJoin(ip1, '.');
      SplitJoin(ip2, '.');
      var x, y := Split(ip1, '.'), Split(ip2, '.');
      JoinQuad(x[0], x[1], x[2], x[3]);
      JoinQuad(x[0], x[1], x[2], y[3]);
      assert x == [x[0], x[1], x[2], x[3]] && y == [x[0], x[1], x[2], y[3]];
    }
    forall a, b, c, d, e |
      && '.' !in a && '.' !in b && '.' !in c && '.' !in d && '.' !in e
      && ip1 == Quad(a, b, c, d) && ip2 == Quad(a, b, c, e)
      ensures SameSubnet(ip1, ip2)
    {
      JoinQuad(a, b, c, d);
      JoinQuad(a, b, c, e);
      JoinSplit([a, b, c, d], '.');
      JoinSplit([a, b, c, e], '.');
    }
  }

  lemma JoinQuad(a: string, b: string, c: string, d: string)
    ensures Join([a, b, c, d], '.') == Quad(a, b, c, d)
  {
    assert [a, b, c, d][1..] == [b, c, d] && [b, c, d][1..] == [c, d] && [c, d][1..] == [d];
    assert Join([c, d], '.') == c + "." + d;
    assert Join([b, c, d], '.') == b + "." + (c + "." + d);
  }

  function SidOf(cookie: Cookie, payload: Jwt.Payload): string {
    if payload.sid.Some? then payload.sid.value else cookie.raw
  }

  /** Who makes the request, by cookie, token and session alone. */
  function Authenticate(st: Sessions.Store, req: Request): Result<(Sessions.Session, AuthUser), Error> {
    if req.cookie.None? || req.cookie.value.raw == "" then Err(CookieMissing)
    else
      match Jwt.GetPayload(req.cookie.value.token, Jwt.Auth, st.now)
      case Err(e) => Err(TokenRefused(e))
      case Ok(payload) =>
        var sid := SidOf(req.cookie.value, payload);
        match Sessions.Get(st, sid)
        case None => Err(SessionInvalid)
        case Some(Garbled) => Err(Unparseable)
        case Some(Json(session)) =>
          if !session.active then Err(SessionExpired)
          else if session.email != payload.email then Err(TokenMismatch)
          else if !SameSubnet(session.ip, req.ip) then Err(IpMismatch)
          else Ok((session, AuthUser(session.userId, session.email, session.personId, sid)))
  }

  /** A request with a live, matching session: the cookie holds a valid access token, and the token's sid,
      or without one the token itself, names a live, active session of the same e-mail and subnet. */
  predicate Matching(st: Sessions.Store, req: Request) {
    && req.cookie.Some? && req.cookie.value.raw != ""
    && var token := req.cookie.value.token;
    && token.signed && token.kind == Jwt.Auth && token.email != ""
    && token.exp.Some? && st.now / 1000 < token.exp.value
    && var sid := if token.sid.Some? then token.sid.value else req.cookie.value.raw;
    && SessionsCoherence.Live(st, sid) && st.sessions[sid].value.Json?
    && var session := st.sessions[sid].value.session;
    session.active && session.email == token.email && SameSubnet(session.ip, req.ip)
  }

  /** Exactly these requests are authenticated. */
  lemma AuthenticateIff(st: Sessions.Store, req: Request)
    ensures Authenticate(st, req).Ok? <==> Matching(st, req)
    ensures Authenticate(st, req).Ok? ==>
      var (session, user) := Authenticate(st, req).value;
      && Sessions.Get(st, user.sessionId) == Some(Sessions.Json(session))
      && user.id == session.userId && user.email == session.email && user.personId == session.personId
  {}

  /** Why any other request is refused, in the order of the checks. */
  lemma AuthenticateErrors(st: Sessions.Store, req: Request)
    ensures Authenticate(st, req).Err? ==>
      var e := Authenticate(st, req).error;
      if req.cookie == None || req.cookie.value.raw == "" then e == CookieMissing
      else
        var token := req.cookie.value.token;
        if !token.signed || token.kind != Jwt.Auth then e == TokenRefused(Jwt.VerificationFailed)
        else if token.exp.Some? && token.exp.value <= st.now / 1000 then e == TokenRefused(Jwt.TokenExpired)
        else if token.email == "" || token.exp.None? || token.exp.value == 0 then e == TokenRefused(Jwt.InvalidPayload)
        else
          var sid := if token.sid.Some? then token.sid.value else req.cookie.value.raw;
          if sid !in st.sessions || st.sessions[sid].expiresAt <= st.now then e == SessionInvalid
          else match st.sessions[sid].value
               case Garbled => e == Unparseable
               case Json(session) =>
                 if !session.active then e == SessionExpired
                 else if session.email != token.email then e == TokenMismatch
                 else e == IpMismatch
  {
    hide SameSubnet;
  }

  /** The sid whose session an authenticated request uses. */
  function UsedSid(st: Sessions.Store, req: Request): string
    requires Authenticate(st, req).Ok?
  {
    Authenticate(st, req).value.1.sessionId
  }

  /** canActivate: the rule state it leaves, its verdict, and the user it sets. A user is set as soon as
      the request is authenticated, even if the endpoint is then refused. */
  ghost function CanActivate(st: Sessions.Store, rules: EndpointRules.State, req: Request, key: Option<string>,
                             f: EndpointRules.Faults): (EndpointRules.State, Verdict, Option<AuthUser>)
  {
    match Authenticate(st, req)
    case Err(e) => (rules, Refused(e), None)
    case Ok((session, user)) =>
      var (next, v) := CheckEndpoint(rules, key, session.permissions, f);
      (next, v, Some(user))
  }

  /** What the guard does for a request, whatever the rule lookup meets: one without a live, matching session is
      refused and sets no user; any other sets its user and is judged by the codes the session carries. */
  lemma CanActivateEffect(st: Sessions.Store, rules: EndpointRules.State, req: Request, key: Option<string>,
                          f: EndpointRules.Faults)
    requires EndpointRules.UniqueKeys(rules.rules)
    ensures var (t, v, user) := CanActivate(st, rules, req, key, f);
            && t.rules == rules.rules
            && if !Matching(st, req) then t == rules && v.Refused? && user == None
               else
                 var token := req.cookie.value.token;
                 var sid := if token.sid.Some? then token.sid.value else req.cookie.value.raw;
                 var session := st.sessions[sid].value.session;
                 && user == Some(AuthUser(session.userId, session.email, session.personId, sid))
                 && JudgesFrom(rules, key, session.permissions, f, v)
                 && t == (if key == None || key == Some("") then rules
                          else EndpointRules.Step(rules, EndpointRules.Lookup(key.value), f, EndpointRules.NO_FAULTS).0)
  {
    AuthenticateIff(st, req);
    if Authenticate(st, req).Ok? {
      CheckEndpointEffect(rules, key, Authenticate(st, req).value.0.permissions, f);
    }
    hide CheckEndpoint;
    hide JudgesFrom;
    hide SameSubnet;
    hide EndpointRules.UniqueKeys;
  }

  /** The decision read straight from the database: the user's current role-derived codes against the
      current rule. Whether the session is there and active it must still ask Redis. */
  ghost function DbVerdict(s: Sessions.State, rules: EndpointRules.Table, req: Request, key: Option<string>): Verdict {
    match Authenticate(s.store, req)
    case Err(e) => Refused(e)
    case Ok((session, user)) => DbCheckEndpoint(rules, key, SessionCopies.DbCodes(s.db, session.userId))
  }

  // ----- Joint runs -----

  /** `handedOut` is history: the tokens that logins and refreshes have returned. */
  datatype System = System(ses: Sessions.State, rules: EndpointRules.State, handedOut: set<Jwt.Token>)

  datatype Op =
    | OnSessions(ses: Sessions.Op)
    | OnRules(rule: EndpointRules.Op, f: EndpointRules.Faults, g: EndpointRules.Faults)
    | Guarded(req: Request, key: Option<string>, lookup: EndpointRules.Faults)

  datatype Answer = Sessional(a: Sessions.Answer) | Ruled(r: EndpointRules.Answer) | Judged(v: Verdict)

  /** Nobody can sign tokens but the service. */
  predicate Unforged(s: System, token: Jwt.Token) {
    token.signed ==> token in s.handedOut
  }

  predicate Enabled(s: System, op: Op) {
    match op
    case OnSessions(o) => Sessions.Enabled(s.ses, o) && (o.RefreshToken? ==> Unforged(s, o.token))
    case OnRules(_, _, _) => true
    case Guarded(req, _, _) => req.cookie.Some? ==> Unforged(s, req.cookie.value.token)
  }

  /** Runs consist of any calls and requests, except that an access or a refresh token with the service's signature
      is one that it has handed out. */
  lemma RunsCover(s: System, op: Op)
    ensures Enabled(s, op) <==>
      match op
      case OnSessions(RefreshToken(token, _)) => token.signed ==> token in s.handedOut
      case OnSessions(o) => Sessions.Enabled(s.ses, o)
      case OnRules(_, _, _) => true
      case Guarded(req, _, _) =>
        req.cookie.Some? && req.cookie.value.token.signed ==> req.cookie.value.token in s.handedOut
  {}

  /** A rule operation or a rule lookup that meets no fault. */
  predicate RulesUndisturbed(op: Op) {
    match op
    case OnSessions(_) => true
    case OnRules(o, f, g) =>
      EndpointRulesCoherence.Validated(o) && f == EndpointRules.NO_FAULTS && g == EndpointRules.NO_FAULTS
    case Guarded(_, _, f) => f == EndpointRules.NO_FAULTS
  }

  function TokensIn(a: Sessions.Answer): set<Jwt.Token> {
    if a.Tokens? then {a.access, a.refresh} else {}
  }

  ghost function Step(s: System, op: Op): (System, Answer)
    requires Enabled(s, op)
  {
    match op
    case OnSessions(o) =>
      var (t, a) := Sessions.Step(s.ses, o);
      (s.(ses := t, handedOut := s.handedOut + TokensIn(a)), Sessional(a))
    case OnRules(o, f, g) =>
      var (t, a) := EndpointRules.Step(s.rules, o, f, g);
      (s.(rules := t), Ruled(a))
    case Guarded(req, key, f) =>
      var (t, v, _) := CanActivate(s.ses.store, s.rules, req, key, f);
      (s.(rules := t), Judged(v))
  }

  ghost predicate CanRun(s: System, ops: seq<Op>)
    decreases |ops|
  {
    ops == [] || (Enabled(s, ops[0]) && CanRun(Step(s, ops[0]).0, ops[1..]))
  }

  ghost function Run(s: System, ops: seq<Op>): System
    requires CanRun(s, ops)
    decreases |ops|
  {
    if ops == [] then s else Run(Step(s, ops[0]).0, ops[1..])
  }

  // ----- What every run keeps -----

  /** The token is for a sid whose login returned. */
  predicate Issued(s: Sessions.State, token: Jwt.Token) {
    token.sid.Some? && token.sid.value in s.returned
  }

  ghost predicate Inv(s: System) {
    && SessionsCoherence.Inv(s.ses) && EndpointRules.UniqueKeys(s.rules.rules)
    && forall token | token in s.handedOut :: Issued(s.ses, token)
  }

  /** The state both caches start in. */
  ghost predicate Initial(s: System) {
    && SessionsCoherence.Initial(s.ses) && s.handedOut == {}
    && EndpointRules.UniqueKeys(s.rules.rules) && s.rules.cache.entries == map[] && s.rules.cache.tracked == {}
  }

  lemma InitialInv(s: System)
    requires Initial(s)
    ensures Inv(s) && EndpointRulesCoherence.Coherent(s.rules)
  {}

  /** Tokens a session operation hands out are issued, if the refresh token it was given was. */
  lemma TokensAreIssued(s: Sessions.State, op: Sessions.Op)
    requires Sessions.Enabled(s, op)
    requires op.RefreshToken? && op.token.signed ==> Issued(s, op.token)
    ensures var (t, a) := Sessions.Step(s, op); forall token | token in TokensIn(a) :: Issued(t, token)
  {
    var a := Sessions.Step(s, op).1;
    if op.LogIn? || op.RefreshToken? {
      assert a.Tokens? ==> Issued(Sessions.Step(s, op).0, a.access) && Issued(Sessions.Step(s, op).0, a.refresh);
    } else {
      assert !a.Tokens?;
    }
  }

  /** So every token handed out in a run stays issued. */
  lemma HandedOutStep(s: System, op: Sessions.Op)
    requires Inv(s) && Enabled(s, OnSessions(op))
    ensures var t := Step(s, OnSessions(op)).0; forall token | token in t.handedOut :: Issued(t.ses, token)
  {
    TokensAreIssued(s.ses, op);
    SessionsCoherence.HistoryStep(s.ses, op);
    hide Sessions.Step;
    hide SessionsCoherence.Inv;
  }

  lemma InvStep(s: System, op: Op)
    requires Inv(s) && Enabled(s, op)
    ensures Inv(Step(s, op).0)
  {
    hide SessionsCoherence.Inv;
    hide Sessions.Step;
    hide EndpointRules.Step;
    hide EndpointRules.UniqueKeys;
    hide CanActivate;
    hide Issued;
    match op
    case OnSessions(o) =>
      SessionsCoherence.InvStep(s.ses, o);
      HandedOutStep(s, o);
    case OnRules(o, f, g) => EndpointRulesCoherence.UniqueKept(s.rules, o, f, g);
    case Guarded(req, key, f) => GuardedRules(s, req, key, f);
  }

  /** What a guarded request does to the rules is a lookup, or nothing. */
  lemma GuardedRules(s: System, req: Request, key: Option<string>, f: EndpointRules.Faults)
    requires Enabled(s, Guarded(req, key, f))
    ensures Step(s, Guarded(req, key, f)).0 ==
      if Authenticate(s.ses.store, req).Ok? && Keyed(key)
      then s.(rules := EndpointRules.Step(s.rules, EndpointRules.Lookup(key.value), f, EndpointRules.NO_FAULTS).0)
      else s
    ensures Step(s, Guarded(req, key, f)).0.rules.rules == s.rules.rules
  {
    hide EndpointRules.Mutate;
    hide Authenticate;
  }

  // ----- The cached decision is the database's decision -----

  /** The request does not use a session that has missed a propagation. */
  predicate Fresh(s: Sessions.State, req: Request) {
    Authenticate(s.store, req).Ok? ==> UsedSid(s.store, req) !in s.stale
  }

  /** An authenticated request uses a live session whose login returned; unless it has missed a
      propagation, the session carries its user's current codes. */
  lemma AuthenticatedIsCurrent(s: System, req: Request)
    requires Inv(s) && Authenticate(s.ses.store, req).Ok? && Unforged(s, req.cookie.value.token)
    ensures var session := Authenticate(s.ses.store, req).value.0; var db := s.ses.db;
            && UsedSid(s.ses.store, req) in s.ses.returned && session.userId in db.users
            && (Fresh(s.ses, req) ==> session.permissions == Sessions.PermissionCodes(db, session.userId))
  {
    var sid := UsedSid(s.ses.store, req);
    assert Issued(s.ses, req.cookie.value.token);
    assert SessionsCoherence.Live(s.ses.store, sid) && sid in s.ses.returned;
    assert SessionsCoherence.SessionOf(s.ses.store, sid) == Authenticate(s.ses.store, req).value.0;
  }

  /** The guard decides as the database would, whatever copies the session carries. */
  lemma GuardIsDbVerdict(s: System, req: Request, key: Option<string>)
    requires Inv(s) && EndpointRulesCoherence.Coherent(s.rules)
      && Enabled(s, Guarded(req, key, EndpointRules.NO_FAULTS))
    ensures var (t, v, _) := CanActivate(s.ses.store, s.rules, req, key, EndpointRules.NO_FAULTS);
            && EndpointRulesCoherence.Coherent(t) && t.rules == s.rules.rules && t.perms == s.rules.perms
            && (Fresh(s.ses, req) ==> v == DbVerdict(s.ses, s.rules.rules, req, key))
            && (Authenticate(s.ses.store, req).Ok? ==>
                  v == DbCheckEndpoint(s.rules.rules, key, Authenticate(s.ses.store, req).value.0.permissions))
  {
    hide EndpointRulesCoherence.Coherent;
    hide SessionsCoherence.Inv;
    hide Sessions.PermissionCodes;
    if Authenticate(s.ses.store, req).Ok? {
      var session := Authenticate(s.ses.store, req).value.0;
      AuthenticatedIsCurrent(s, req);
      hide Authenticate;
      hide DbCheckEndpoint;
      hide CheckEndpoint;
      CheckEndpointRefines(s.rules, key, session.permissions);
    }
  }

  /** Whatever has happened to the rule cache and whatever fails now: with no wrong entry under the key the
      verdict is the database's, or that the rule could not be read. */
  lemma GuardUnderRuleFaults(s: System, req: Request, key: Option<string>, f: EndpointRules.Faults)
    requires Inv(s) && Enabled(s, Guarded(req, key, f)) && Fresh(s.ses, req)
    requires Keyed(key) ==> !EndpointRulesFaults.Wrong(s.rules, key.value)
    ensures var v := CanActivate(s.ses.store, s.rules, req, key, f).1;
            v == DbVerdict(s.ses, s.rules.rules, req, key) || v == Refused(RuleRefused(EndpointRules.DbDown))
  {
    if Authenticate(s.ses.store, req).Ok? {
      AuthenticatedIsCurrent(s, req);
      if Keyed(key) {
        EndpointRulesFaults.LookupRight(s.rules, key.value, f);
      }
    }
    hide SessionsCoherence.Inv;
    hide EndpointRules.Step;
    hide EndpointRules.DbLookup;
    hide EndpointRulesFaults.Wrong;
  }

  // ----- Runs in which rule operations fail -----

  /** What an operation does to the rules, as a call of the rule service. */
  function RuleCall(s: System, op: Op): seq<EndpointRulesCoherence.Call> {
    match op
    case OnSessions(_) => []
    case OnRules(o, f, g) => [EndpointRulesCoherence.Call(o, f, g)]
    case Guarded(req, key, f) =>
      if Authenticate(s.ses.store, req).Ok? && Keyed(key)
      then [EndpointRulesCoherence.Call(EndpointRules.Lookup(key.value), f, EndpointRules.NO_FAULTS)] else []
  }

  ghost function RuleCalls(s: System, ops: seq<Op>): seq<EndpointRulesCoherence.Call>
    requires CanRun(s, ops)
    decreases |ops|
  {
    if ops == [] then [] else RuleCall(s, ops[0]) + RuleCalls(Step(s, ops[0]).0, ops[1..])
  }

  /** A joint run keeps the invariant, and is to the rules a run of the rule service. */
  lemma {:induction false} RulesOfRun(s: System, ops: seq<Op>)
    requires Inv(s) && CanRun(s, ops)
    ensures Inv(Run(s, ops))
    ensures Run(s, ops).rules == EndpointRulesCoherence.RunCalls(s.rules, RuleCalls(s, ops))
    decreases |ops|
  {
    if ops != [] {
      InvStep(s, ops[0]);
      var t, call := Step(s, ops[0]).0, RuleCall(s, ops[0]);
      RuleCallStep(s, ops[0]);
      hide Inv;
      hide Step;
      hide RuleCall;
      RulesOfRun(t, ops[1..]);
      CallsAfter(s.rules, call, RuleCalls(t, ops[1..]));
    }
  }

  lemma RuleCallStep(s: System, op: Op)
    requires Enabled(s, op)
    ensures |RuleCall(s, op)| <= 1
    ensures Step(s, op).0.rules == EndpointRulesCoherence.RunCalls(s.rules, RuleCall(s, op))
  {
    if op.Guarded? {
      GuardedRules(s, op.req, op.key, op.lookup);
    }
    if RuleCall(s, op) != [] {
      var c := RuleCall(s, op)[0];
      assert RuleCall(s, op) == [c] && [c][1..] == [];
      assert EndpointRulesCoherence.RunCalls(s.rules, [c]) == EndpointRules.Step(s.rules, c.op, c.f, c.g).0;
    }
    hide EndpointRules.Step;
    hide CanActivate;
    hide Sessions.Step;
  }

  lemma CallsAfter(rules: EndpointRules.State, first: seq<EndpointRulesCoherence.Call>,
                   rest: seq<EndpointRulesCoherence.Call>)
    requires |first| <= 1
    ensures EndpointRulesCoherence.RunCalls(rules, first + rest) ==
            EndpointRulesCoherence.RunCalls(EndpointRulesCoherence.RunCalls(rules, first), rest)
  {
    hide EndpointRules.Step;
    if first == [] {
      assert first + rest == rest;
    } else {
      assert (first + rest)[1..] == rest && first[1..] == [];
    }
  }

  /** Over every joint run under any faults: a request whose session has missed no propagation is judged as
      the database would judge it, or refused because the rule cannot be read, unless some call of the run
      changed what the table says of the endpoint's key, and neither it nor any later call brought the
      cached entry in line. */
  lemma VerdictUnlessLeft(s: System, ops: seq<Op>, req: Request, key: Option<string>, f: EndpointRules.Faults)
    requires Inv(s) && CanRun(s, ops) && EndpointRulesFaults.AllRight(s.rules)
    requires Enabled(Run(s, ops), Guarded(req, key, f)) && Fresh(Run(s, ops).ses, req)
    ensures var t, calls := Run(s, ops), RuleCalls(s, ops);
            var v := Step(t, Guarded(req, key, f)).1.v;
            || v == DbVerdict(t.ses, t.rules.rules, req, key)
            || v == Refused(RuleRefused(EndpointRules.DbDown))
            || (Keyed(key) && exists i | 0 <= i < |calls| :: EndpointRulesFaults.LeftAt(s.rules, calls, key.value, i))
  {
    var t, calls := Run(s, ops), RuleCalls(s, ops);
    RulesOfRun(s, ops);
    if Keyed(key) && EndpointRulesFaults.Wrong(t.rules, key.value) {
      EndpointRulesFaults.WrongOnlyIfLeft(s.rules, calls, key.value);
      assert !EndpointRulesFaults.Wrong(s.rules, key.value);
    } else {
      GuardUnderRuleFaults(t, req, key, f);
    }
    hide DbVerdict;
    hide EndpointRulesFaults.LeftAt;
    hide CanActivate;
    hide Inv;
  }

  // ----- The system without caches -----

  /** A verdict from the database needs no copies. */
  lemma DbVerdictBare(s: Sessions.State, rules: EndpointRules.Table, req: Request, key: Option<string>)
    ensures DbVerdict(SessionCopies.Bare(s), rules, req, key) == DbVerdict(s, rules, req, key)
  {
    SessionCopies.BareAlike(s);
    if req.cookie.Some? {
      var payload := Jwt.GetPayload(req.cookie.value.token, Jwt.Auth, s.store.now);
      if payload.Ok? {
        SessionCopies.AlikeReads(s.store, SessionCopies.Bare(s).store, "", SidOf(req.cookie.value, payload.value));
      }
    }
    hide SameSubnet;
    hide DbCheckEndpoint;
    hide SessionCopies.DbCodes;
  }

  /** The system without caches: sessions carry no copies of codes, rules are not cached, and everything
      that depends on either is read from the database. */
  ghost function PlainStep(ses: Sessions.State, perms: map<string, string>, rules: EndpointRules.Table, op: Op)
    : (Sessions.State, EndpointRules.Table, Answer)
    requires op.OnSessions? ==> Sessions.Enabled(ses, op.ses)
  {
    match op
    case OnSessions(o) =>
      var (t, a) := SessionCopies.PlainStep(ses, o);
      (t, rules, Sessional(a))
    case OnRules(o, _, _) =>
      var (t, a) := EndpointRulesCoherence.PlainStep(perms, rules, o);
      (ses, t, Ruled(a))
    case Guarded(req, key, _) => (ses, rules, Judged(DbVerdict(ses, rules, req, key)))
  }

  /** The answers are the same wherever no session is concerned that has missed a propagation. */
  predicate Agree(s: Sessions.State, op: Op, given: Answer, plain: Answer) {
    match op
    case OnSessions(o) => given.Sessional? && plain.Sessional? && SessionCopies.Agree(s, o, given.a, plain.a)
    case OnRules(_, _, _) => given == plain
    case Guarded(req, _, _) => Fresh(s, req) ==> given == plain
  }

  lemma PlainStepAgrees(s: System, op: Op)
    requires Inv(s) && EndpointRulesCoherence.Coherent(s.rules) && Enabled(s, op) && RulesUndisturbed(op)
    ensures op.OnSessions? ==> Sessions.Enabled(SessionCopies.Bare(s.ses), op.ses)
    ensures var (t, a) := Step(s, op);
            var (ses, rules, plain) := PlainStep(SessionCopies.Bare(s.ses), s.rules.perms, s.rules.rules, op);
            && EndpointRulesCoherence.Coherent(t.rules) && t.rules.perms == s.rules.perms
            && ses == SessionCopies.Bare(t.ses) && rules == t.rules.rules && Agree(s.ses, op, a, plain)
  {
    hide SessionsCoherence.Inv;
    hide EndpointRulesCoherence.Coherent;
    hide Sessions.Step;
    hide EndpointRules.Step;
    hide EndpointRulesCoherence.PlainStep;
    hide SessionCopies.PlainStep;
    hide SessionCopies.Agree;
    hide SessionCopies.Bare;
    hide CanActivate;
    hide DbVerdict;
    hide Fresh;
    hide Issued;
    match op
    case OnSessions(o) => SessionCopies.PlainStepAgrees(s.ses, o);
    case OnRules(o, _, _) => EndpointRulesCoherence.CoherentStep(s.rules, o);
    case Guarded(req, key, _) =>
      GuardIsDbVerdict(s, req, key);
      DbVerdictBare(s.ses, s.rules.rules, req, key);
  }

  /** The run beside the run of the system without caches. */
  ghost predicate AnswersAgree(s: System, ses: Sessions.State, rules: EndpointRules.Table, ops: seq<Op>)
    requires CanRun(s, ops)
    decreases |ops|
  {
    ops == [] ||
    (&& (ops[0].OnSessions? ==> Sessions.Enabled(ses, ops[0].ses))
     && var (t, r, plain) := PlainStep(ses, s.rules.perms, rules, ops[0]);
     && Agree(s.ses, ops[0], Step(s, ops[0]).1, plain)
     && AnswersAgree(Step(s, ops[0]).0, t, r, ops[1..]))
  }

  /** Every joint run in which no rule operation meets a fault, its session operations under any faults,
      answers every operation and judges every request as the system does that keeps no copies of codes,
      caches no rules and asks the database. */
  lemma {:induction false} GuardRefinement(s: System, ops: seq<Op>)
    requires Inv(s) && EndpointRulesCoherence.Coherent(s.rules)
    requires CanRun(s, ops) && forall op | op in ops :: RulesUndisturbed(op)
    ensures Inv(Run(s, ops)) && EndpointRulesCoherence.Coherent(Run(s, ops).rules)
    ensures AnswersAgree(s, SessionCopies.Bare(s.ses), s.rules.rules, ops)
    decreases |ops|
  {
    if ops != [] {
      assert ops[0] in ops;
      InvStep(s, ops[0]);
      PlainStepAgrees(s, ops[0]);
      hide Inv;
      hide EndpointRulesCoherence.Coherent;
      hide Step;
      hide PlainStep;
      hide Agree;
      GuardRefinement(Step(s, ops[0]).0, ops[1..]);
    }
  }

  /** Its propagations meet no fault. */
  predicate Reliable(op: Op) {
    op.OnSessions? ==>
      match op.ses
      case AssignRole(_, _, save, fate) => !save.Lost? && fate == Sessions.Fate(true, Done)
      case AssignPermissions(_, _, save, query, _, fates) =>
        !save.Lost? && query && forall fate | fate in fates :: fate == Sessions.Fate(true, Done)
      case _ => true
  }

  /** While propagations meet no fault, no session misses one: then the agreement is without exceptions. */
  lemma {:induction false} NothingStale(s: System, ops: seq<Op>)
    requires CanRun(s, ops) && s.ses.stale == {} && forall op | op in ops :: Reliable(op)
    ensures Run(s, ops).ses.stale == {}
    decreases |ops|
  {
    if ops != [] {
      NothingStaleStep(s, ops[0]);
      hide Step;
      NothingStale(Step(s, ops[0]).0, ops[1..]);
    }
  }

  lemma NothingStaleStep(s: System, op: Op)
    requires Enabled(s, op) && s.ses.stale == {} && Reliable(op)
    ensures Step(s, op).0.ses.stale == {}
  {
    hide CanActivate;
    if op.OnSessions? && op.ses.AssignPermissions? {
      var codes := Permissions.CodesFor(s.ses.db.perms, op.ses.permissionIds);
      if codes.Some? {
        var db := s.ses.db.(roles := s.ses.db.roles[op.ses.roleId := codes.value]);
        NothingStaleAll(s.ses.(db := db), op.ses.order, op.ses.fates);
      }
    }
  }

  lemma {:induction false} NothingStaleAll(s: Sessions.State, order: seq<string>, fates: seq<Sessions.Fate>)
    requires |fates| == |order| && forall uid | uid in order :: uid in s.db.users
    requires s.stale == {} && forall fate | fate in fates :: fate == Sessions.Fate(true, Done)
    ensures Sessions.AttemptAll(s, order, fates).stale == {}
    decreases |order|
  {
    if order != [] {
      assert fates[0] in fates;
      assert forall fate | fate in fates[1..] :: fate in fates;
      assert Sessions.Attempt(s, order[0], fates[0]).stale == {};
      assert forall uid | uid in order[1..] :: uid in order;
      NothingStaleAll(Sessions.Attempt(s, order[0], fates[0]), order[1..], fates[1..]);
    }
  }

  /** In every reachable state, a request with a live, matching session is let through exactly when the route
      has no endpoint key, or an empty one, or the key's rule is there and enabled and asks for nothing or
      for a code that one of the user's roles now gives. The one exception is a session that has missed a
      propagation. Without a key the rules and their cache stay as they are. */
  lemma AllowedIff(s0: System, ops: seq<Op>, req: Request, key: Option<string>)
    requires Initial(s0) && CanRun(s0, ops) && forall op | op in ops :: RulesUndisturbed(op)
    requires Enabled(Run(s0, ops), Guarded(req, key, EndpointRules.NO_FAULTS)) && Matching(Run(s0, ops).ses.store, req)
    ensures var s := Run(s0, ops);
            && Authenticate(s.ses.store, req).Ok?
            && var uid := Authenticate(s.ses.store, req).value.0.userId;
            var rules := s.rules.rules;
            var db := s.ses.db;
            var (t, a) := Step(s, Guarded(req, key, EndpointRules.NO_FAULTS));
            && uid in db.users && a.Judged?
            && (key == None || key == Some("") ==> t == s && a.v == Allowed)
            && (Fresh(s.ses, req) ==>
                  && Judges(rules, key, Sessions.PermissionCodes(db, uid), a.v)
                  && (a.v == Allowed <==>
                        key == None || key == Some("") ||
                        exists id | id in rules && rules[id].key == key.value ::
                          rules[id].enabled && (rules[id].codes == [] || GivesOneOf(db, uid, rules[id].codes))))
  {
    var s := Run(s0, ops);
    assert Inv(s) && EndpointRulesCoherence.Coherent(s.rules) by {
      InitialInv(s0);
      GuardRefinement(s0, ops);
    }
    AuthenticateIff(s.ses.store, req);
    hide Matching;
    hide Authenticate;
    GuardIsDbVerdict(s, req, key);
    AuthenticatedIsCurrent(s, req);
    var (session, user) := Authenticate(s.ses.store, req).value;
    var held := Sessions.PermissionCodes(s.ses.db, session.userId);
    DbCheckEndpointIff(s.rules.rules, key, held);
    JudgesIff(s.rules.rules, key, held, DbCheckEndpoint(s.rules.rules, key, held));
    forall codes: seq<string>
      ensures GivesOneOf(s.ses.db, session.userId, codes) <==> exists c | c in codes :: c in held
    {
      GivesIff(s.ses.db, session.userId, codes);
    }
    if key == None || key == Some("") {
      CheckEndpointEffect(s.rules, key, session.permissions, EndpointRules.NO_FAULTS);
      assert s.(rules := s.rules) == s;
    }
    hide Sessions.PermissionCodes;
    hide DbCheckEndpoint;
    hide CheckEndpoint;
    hide Judges;
    hide GivesOneOf;
  }

  /** One of the user's roles gives one of the codes. */
  predicate GivesOneOf(db: Sessions.Db, uid: string, codes: seq<string>)
    requires uid in db.users
  {
    exists code, role | code in codes && role in db.users[uid].roles && role in db.roles :: code in db.roles[role]
  }

  lemma GivesIff(db: Sessions.Db, uid: string, codes: seq<string>)
    requires uid in db.users
    ensures GivesOneOf(db, uid, codes) <==> exists c | c in codes :: c in Sessions.PermissionCodes(db, uid)
  {
    forall c ensures c in Sessions.PermissionCodes(db, uid) <==>
                     exists role | role in db.users[uid].roles && role in db.roles :: c in db.roles[role]
    {
      SessionsEffects.HoldsIff(db, uid, c);
    }
    hide Sessions.PermissionCodes;
  }

  // ----- Lifetime -----

  /** A request that gets through with a sid, whether a session operation or a guarded one. */
  ghost predicate Uses(s: System, op: Op, sid: string)
    requires Enabled(s, op)
  {
    match op
    case OnSessions(o) => SessionsCoherence.Uses(s.ses, o, Sessions.Step(s.ses, o).1, sid)
    case OnRules(_, _, _) => false
    case Guarded(req, _, _) => Authenticate(s.ses.store, req).Ok? && UsedSid(s.ses.store, req) == sid
  }

  lemma UseIsWithinLifetime(s: System, op: Op, sid: string)
    requires Inv(s) && Enabled(s, op) && Uses(s, op, sid)
    ensures !SessionsCoherence.Ended(s.ses, sid)
  {
    match op
    case OnSessions(o) => SessionsCoherence.UseIsWithinLifetime(s.ses, o, sid);
    case Guarded(_, _, _) => assert SessionsCoherence.Live(s.ses.store, sid);
  }

  /** Past its login time plus the refresh lifetime, or once deactivated or logged out, a session lets
      nothing through ever again, whatever happens in between to sessions, roles or rules. */
  lemma {:induction false} GuardLifetime(s: System, ops: seq<Op>, op: Op, sid: string)
    requires Inv(s) && CanRun(s, ops) && Enabled(Run(s, ops), op)
    requires SessionsCoherence.Ended(s.ses, sid)
    ensures !Uses(Run(s, ops), op, sid)
    decreases |ops|
  {
    hide SessionsCoherence.Ended;
    if ops == [] {
      if Uses(s, op, sid) {
        UseIsWithinLifetime(s, op, sid);
      }
    } else {
      InvStep(s, ops[0]);
      if ops[0].OnSessions? {
        SessionsCoherence.EndedStays(s.ses, ops[0].ses, sid);
      }
      hide Inv;
      GuardLifetime(Step(s, ops[0]).0, ops[1..], op, sid);
    }
  }

  // ----- What the guard does not look at -----

  /** Deactivating a user changes no verdict: the user's sessions go on as they were until they end. */
  lemma DeactivatedUserStillJudged(s: System, uid: string, op: Op)
    requires op.Guarded? && Enabled(s, op)
    ensures var t := Step(s, OnSessions(Sessions.DeactivateUser(uid))).0;
            Enabled(t, op) && Step(t, op).1 == Step(s, op).1
  {}
}
