/** The guard as the code runs it: on a request object whose user it sets, with a rule service it looks up
    once and keeps. */
module AuthGuardService {
  import opened Common
  import opened Guards
  import opened UserAccess
  import Jwt
  import Sessions
  import SessionsService
  import EndpointRules
  import EndpointRulesCoherence
  import opened EndpointRulesService

  class HttpRequest {
    const cookie: Option<Cookie>
    const ip: string
    var user: Option<AuthUser>

    constructor (cookie: Option<Cookie>, ip: string)
      ensures this.cookie == cookie && this.ip == ip && user == None
    {
      this.cookie, this.ip := cookie, ip;
      user := None;
    }
  }

  /** The request-scoped store that audit columns are filled from. */
  class RequestContextService {
    var user: Option<AuthUser>

    constructor ()
      ensures user == None
    {
      user := None;
    }
  }

  class AuthGuard {
    const backend: SessionsService.Backend
    const context: RequestContextService
    const registered: EndpointPermissionRulesService
    var service: EndpointPermissionRulesService?

    constructor (backend: SessionsService.Backend, context: RequestContextService,
                 registered: EndpointPermissionRulesService)
      ensures this.backend == backend && this.context == context && this.registered == registered
      ensures service == null
    {
      this.backend, this.context, this.registered := backend, context, registered;
      service := null;
    }

    ghost predicate Valid()
      reads this, registered
    {
      registered.Valid() && (service == null || service == registered)
    }

    /** Both caches are in a state that runs without rule faults reach, the token is none but the service's
        own, and the session has missed no propagation. */
    ghost predicate Trusted(req: Request, f: EndpointRules.Faults, rules: EndpointRules.State)
      reads backend
    {
      && backend.Valid() && EndpointRulesCoherence.Coherent(rules) && f == EndpointRules.NO_FAULTS
      && (req.cookie.Some? ==> Issued(backend.s, req.cookie.value.token)) && Fresh(backend.s, req)
    }

    lemma VerdictFromDb(req: Request, key: Option<string>, f: EndpointRules.Faults)
      requires Valid()
      ensures var (t, v, _) := UserAccess.CanActivate(backend.store, registered.View(), req, key, f);
              && (EndpointRulesCoherence.Coherent(registered.View()) && f == EndpointRules.NO_FAULTS ==>
                    EndpointRulesCoherence.Coherent(t) && t.rules == registered.rules)
              && (Trusted(req, f, registered.View()) ==> v == DbVerdict(backend.s, registered.rules, req, key))
    {
      hide EndpointRulesCoherence.Coherent;
      hide DbVerdict;
      hide Authenticate;
      hide CheckEndpoint;
      if EndpointRulesCoherence.Coherent(registered.View()) && f == EndpointRules.NO_FAULTS {
        var r := Authenticate(backend.store, req);
        var held := if r.Ok? then r.value.0.permissions else [];
        CheckEndpointRefines(registered.View(), key, held);
      }
      if Trusted(req, f, registered.View()) {
        var tokens := if req.cookie.Some? then {req.cookie.value.token} else {};
        GuardIsDbVerdict(System(backend.s, registered.View(), tokens), req, key);
      }
    }

    /** In a trusted state the verdict is that of the rule table on the codes the user's roles now give. */
    lemma JudgedByDb(req: Request, key: Option<string>, f: EndpointRules.Faults)
      requires Valid()
      ensures Trusted(req, f, registered.View()) && Matching(backend.store, req) ==>
        var (t, v, user) := UserAccess.CanActivate(backend.store, registered.View(), req, key, f);
        && user.Some? && user.value.id in backend.db.users
        && Judges(registered.rules, key, Sessions.PermissionCodes(backend.db, user.value.id), v)
    {
      if Trusted(req, f, registered.View()) && Matching(backend.store, req) {
        VerdictFromDb(req, key, f);
        AuthenticateIff(backend.store, req);
        AuthenticatedIsCurrent(System(backend.s, registered.View(), {req.cookie.value.token}), req);
        var session := Authenticate(backend.store, req).value.0;
        DbCheckEndpointIff(registered.rules, key, Sessions.PermissionCodes(backend.db, session.userId));
      }
      hide Matching;
      hide Judges;
      hide CheckEndpoint;
      hide DbCheckEndpoint;
      hide Sessions.PermissionCodes;
    }

    method Resolve() returns (s: EndpointPermissionRulesService)
      requires Valid()
      modifies this`service
      ensures Valid() && s == registered
    {
      if service == null {
        service := registered;
      }
      return service;
    }

    /** A request refused before it is authenticated leaves the users set earlier alone. */
    method CanActivate(request: HttpRequest, endpointKey: Option<string>, f: EndpointRules.Faults) returns (v: Verdict)
      requires Valid()
      modifies request`user, context`user, registered`cache, this`service
      ensures Valid()
      ensures var (rules, verdict, user) := UserAccess.CanActivate(backend.store, old(registered.View()),
                                              Request(request.cookie, request.ip), endpointKey, f);
              && registered.View() == rules && v == verdict
              && request.user == (if user.Some? then user else old(request.user))
              && context.user == (if user.Some? then user else old(context.user))
      ensures !Matching(backend.store, Request(request.cookie, request.ip)) ==>
        && v.Refused? && request.user == old(request.user) && context.user == old(context.user)
        && registered.View() == old(registered.View())
      ensures Matching(backend.store, Request(request.cookie, request.ip)) ==>
        && request.user.Some? && context.user == request.user
        && var sid := request.user.value.sessionId;
        && sid in backend.store.sessions && backend.store.sessions[sid].value.Json?
        && var session := backend.store.sessions[sid].value.session;
        && request.user.value == AuthUser(session.userId, session.email, session.personId, sid)
        && JudgesFrom(old(registered.View()), endpointKey, session.permissions, f, v)
        && (endpointKey == None || endpointKey == Some("") ==> registered.View() == old(registered.View()))
      ensures EndpointRulesCoherence.Coherent(old(registered.View())) && f == EndpointRules.NO_FAULTS ==>
        EndpointRulesCoherence.Coherent(registered.View())
      ensures Trusted(Request(request.cookie, request.ip), f, old(registered.View())) ==>
        v == DbVerdict(backend.s, old(registered.rules), Request(request.cookie, request.ip), endpointKey)
      ensures Trusted(Request(request.cookie, request.ip), f, old(registered.View())) &&
              Matching(backend.store, Request(request.cookie, request.ip)) ==>
        && request.user.Some? && request.user.value.id in backend.db.users
        && Judges(old(registered.rules), endpointKey, Sessions.PermissionCodes(backend.db, request.user.value.id), v)
    {
      CanActivateEffect(backend.store, registered.View(), Request(request.cookie, request.ip), endpointKey, f);
      JudgedByDb(Request(request.cookie, request.ip), endpointKey, f);
      hide Matching;
      hide JudgesFrom;
      hide Judges;
      hide Sessions.PermissionCodes;
      VerdictFromDb(Request(request.cookie, request.ip), endpointKey, f);
      hide Trusted;
      hide DbVerdict;
      hide EndpointRulesCoherence.Coherent;
      hide EndpointRules.Step;
      hide EndpointRules.UniqueKeys;
      hide CheckEndpoint;
      hide Authenticate;
      var authenticated := AuthenticateRequest(request);
      if authenticated.Err? {
        return Refused(authenticated.error);
      }
      var (session, authUser) := authenticated.value;
      request.user := Some(authUser);
      context.user := Some(authUser);
      v := CheckDynamicPermissions(endpointKey, session.permissions, f);
    }

    /** The part of canActivate up to the user: cookie, token, session. */
    method AuthenticateRequest(request: HttpRequest) returns (r: Result<(Sessions.Session, AuthUser), Error>)
      ensures r == Authenticate(backend.store, Request(request.cookie, request.ip))
    {
      hide SameSubnet;
      hide Jwt.GetPayload;
      if request.cookie.None? || request.cookie.value.raw == "" {
        return Err(CookieMissing);
      }
      var cookie := request.cookie.value;
      var payload := Jwt.GetPayload(cookie.token, Jwt.Auth, backend.store.now);
      if payload.Err? {
        return Err(TokenRefused(payload.error));
      }
      var sid := if payload.value.sid.Some? then payload.value.sid.value else cookie.raw;
      var raw := Sessions.Get(backend.store, sid);
      if raw.None? {
        return Err(SessionInvalid);
      }
      if raw.value.Garbled? {
        return Err(Unparseable);
      }
      var session := raw.value.session;
      if !session.active {
        return Err(SessionExpired);
      }
      if session.email != payload.value.email {
        return Err(TokenMismatch);
      }
      if !SameSubnet(session.ip, request.ip) {
        return Err(IpMismatch);
      }
      return Ok((session, AuthUser(session.userId, session.email, session.personId, sid)));
    }

    /** The part of canActivate that follows the session: the endpoint's rule, if it has one. */
    method CheckDynamicPermissions(endpointKey: Option<string>, permissions: seq<string>, f: EndpointRules.Faults)
      returns (v: Verdict)
      requires Valid()
      modifies registered`cache, this`service
      ensures Valid() && (registered.View(), v) == CheckEndpoint(old(registered.View()), endpointKey, permissions, f)
    {
      hide EndpointRules.Step;
      hide EndpointRules.UniqueKeys;
      if Keyed(endpointKey) {
        var rulesService := Resolve();
        var dynamicPermissions := rulesService.GetPermissionsForEndpoint(endpointKey.value, f);
        match dynamicPermissions {
          case Failure(e) => return Refused(RuleRefused(e));
          case Done => return Allowed;
          case Codes(codes) =>
            if |codes| == 0 {
              return Allowed;
            }
            if exists code | code in codes :: code in permissions {
              return Allowed;
            }
            return Refused(InsufficientPermissions);
        }
      }
      return Allowed;
    }
  }
}
