/** The API-key guard as the code runs it, with the two services it looks up. */
module ApiKeyGuardService {
  import opened Common
  import opened Guards
  import KeyAccess
  import ApiKeys
  import EndpointRules
  import opened ApiKeysService
  import opened EndpointRulesService

  class ApiKeyGuard {
    const apiKeys: ApiKeysService
    const registered: EndpointPermissionRulesService
    const Hmac: string -> string
    var service: EndpointPermissionRulesService?

    constructor (apiKeys: ApiKeysService, registered: EndpointPermissionRulesService, Hmac: string -> string)
      ensures this.apiKeys == apiKeys && this.registered == registered && this.Hmac == Hmac && service == null
    {
      this.apiKeys, this.registered, this.Hmac := apiKeys, registered, Hmac;
      service := null;
    }

    ghost predicate Valid()
      reads this, registered, apiKeys
    {
      apiKeys.Valid() && registered.Valid() && (service == null || service == registered)
    }

    ghost function View(): KeyAccess.System
      reads this, registered, apiKeys
    {
      KeyAccess.System(apiKeys.View(), registered.View(), Hmac)
    }

    /** What is known of the verdict. */
    lemma Judged(h: KeyAccess.Header, endpointKey: Option<string>, f: KeyAccess.Faults)
      requires Valid()
      ensures var (t, v) := KeyAccess.CanActivate(View(), h, endpointKey, f);
              && (KeyAccess.Inv(View()) && f == KeyAccess.NO_FAULTS ==>
                    KeyAccess.Inv(t) && v == KeyAccess.DbVerdict(View(), h, endpointKey))
              && (KeyAccess.IsRevoked(View(), h) ==> v == Refused(ApiKeyRefused))
              && (endpointKey == None || endpointKey == Some("") ==> t.rules == View().rules)
              && match KeyAccess.ExtractApiKey(h)
                 case Err(e) => v == Refused(e)
                 case Ok(raw) => KeyAccess.JudgesKey(View(), t, raw, endpointKey, f, v)
    {
      KeyAccess.CanActivateEffect(View(), h, endpointKey, f);
      if KeyAccess.Inv(View()) {
        KeyAccess.GuardIsDbVerdict(View(), h, endpointKey);
      }
      if KeyAccess.IsRevoked(View(), h) {
        KeyAccess.RevokedNow(View(), h, endpointKey, f);
      }
      hide KeyAccess.JudgesKey;
      hide KeyAccess.CanActivate;
      hide KeyAccess.Inv;
      hide KeyAccess.DbVerdict;
      hide KeyAccess.IsRevoked;
      hide EndpointRules.UniqueKeys;
    }

    method CanActivate(h: KeyAccess.Header, endpointKey: Option<string>, f: KeyAccess.Faults) returns (v: Verdict)
      requires Valid()
      modifies apiKeys`cache, registered`cache, this`service
      ensures Valid() && (View(), v) == KeyAccess.CanActivate(old(View()), h, endpointKey, f)
      ensures KeyAccess.Inv(old(View())) && f == KeyAccess.NO_FAULTS ==>
        KeyAccess.Inv(View()) && v == KeyAccess.DbVerdict(old(View()), h, endpointKey)
      ensures KeyAccess.IsRevoked(old(View()), h) ==> v == Refused(ApiKeyRefused)
      ensures match KeyAccess.ExtractApiKey(h)
              case Err(e) => v == Refused(e)
              case Ok(raw) => KeyAccess.JudgesKey(old(View()), View(), raw, endpointKey, f, v)
      ensures endpointKey == None || endpointKey == Some("") ==> registered.View() == old(registered.View())
    {
      Judged(h, endpointKey, f);
      hide KeyAccess.JudgesKey;
      hide KeyAccess.Inv;
      hide KeyAccess.DbVerdict;
      hide KeyAccess.IsRevoked;
      hide ApiKeys.Step;
      hide EndpointRules.Step;
      hide EndpointRules.UniqueKeys;
      hide ApiKeys.UniqueFingerprints;
      hide CheckEndpoint;
      hide KeyAccess.ExtractApiKey;
      var raw := KeyAccess.ExtractApiKey(h);
      if raw.Err? {
        return Refused(raw.error);
      }
      var found := apiKeys.FindActiveByPlainKey(Hmac(raw.value), f.key);
      if !found.Codes? {
        return Refused(ApiKeyRefused);
      }
      v := CheckDynamicPermissions(endpointKey, found.codes, f.rule);
    }

    /** The part of canActivate that follows the key: the endpoint's rule, if it has one. */
    method CheckDynamicPermissions(endpointKey: Option<string>, permissions: seq<string>, f: EndpointRules.Faults)
      returns (v: Verdict)
      requires Valid()
      modifies registered`cache, this`service
      ensures Valid() && (registered.View(), v) == CheckEndpoint(old(registered.View()), endpointKey, permissions, f)
    {
      hide EndpointRules.Step;
      hide EndpointRules.UniqueKeys;
      hide ApiKeys.UniqueFingerprints;
      if Keyed(endpointKey) {
        if service == null {
          service := registered;
        }
        var dynamicPermissions := service.GetPermissionsForEndpoint(endpointKey.value, f);
        match dynamicPermissions {
          case Failure(e) => return Refused(RuleRefused(e));
          case Done => return Allowed;
          case Codes(codes) =>
            if |codes| == 0 {
              return Allowed;
            }
            if exists code | code in codes :: code in permissions {
              return Allowed;
            }
            return Refused(InsufficientPermissions);
        }
      }
      return Allowed;
    }
  }
}
