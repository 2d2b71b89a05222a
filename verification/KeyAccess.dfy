/** The guard of machine requests over both of its caches: API keys and endpoint rules. */
module KeyAccess {
  import opened Common
  import opened Guards
  import ApiKeys
  import ApiKeysRevocation
  import ApiKeysEffects
  import EndpointRules
  import EndpointRulesCoherence

  /** The x-api-key header: absent, repeated, or one value. */
  datatype Header = Absent | Repeated | Single(value: string)

  /** What String.prototype.trim removes: the white space and line terminators of ECMAScript. */
  predicate Blank(c: char) {
    || '\U{9}' <= c <= '\U{D}' || c == ' ' || c == '\U{A0}' || c == '\U{FEFF}'
    || c == '\U{1680}' || '\U{2000}' <= c <= '\U{200A}' || c == '\U{202F}' || c == '\U{205F}' || c == '\U{3000}'
    || c == '\U{2028}' || c == '\U{2029}'
  }

  /** By their code points. */
  lemma BlankIff(c: char)
    ensures Blank(c) <==>
      c as int in {9, 10, 11, 12, 13, 32, 160, 5760, 8192, 8193, 8194, 8195, 8196, 8197, 8198, 8199, 8200, 8201, 8202,
                   8232, 8233, 8239, 8287, 12288, 65279}
  {}

  function TrimStart(s: string): (t: string)
    ensures t == "" || !Blank(t[0])
    ensures |t| <= |s| && s[|s| - |t|..] == t && forall i | 0 <= i < |s| - |t| :: Blank(s[i])
  {
    if s != "" && Blank(s[0]) then TrimStart(s[1..]) else s
  }

  function TrimEnd(s: string): (t: string)
    ensures t == "" || !Blank(t[|t| - 1])
    ensures t <= s && forall i | |t| <= i < |s| :: Blank(s[i])
  {
    if s != "" && Blank(s[|s| - 1]) then TrimEnd(s[..|s| - 1]) else s
  }

  function ExtractApiKey(h: Header): Result<string, Error> {
    match h
    case Repeated => Err(ApiKeyHeaderNotSingle)
    case Absent => Err(ApiKeyHeaderMissing)
    case Single(value) => if TrimEnd(TrimStart(value)) == "" then Err(ApiKeyHeaderMissing)
      else Ok(TrimEnd(TrimStart(value)))
  }

  /** A single header with anything but blanks is accepted, without the blanks around it. */
  lemma ExtractApiKeyIff(h: Header)
    ensures ExtractApiKey(h).Ok? <==> h.Single? && exists i | 0 <= i < |h.value| :: !Blank(h.value[i])
    ensures ExtractApiKey(h).Err? ==>
      ExtractApiKey(h).error == if h.Repeated? then ApiKeyHeaderNotSingle else ApiKeyHeaderMissing
    ensures ExtractApiKey(h).Ok? ==>
      var key := ExtractApiKey(h).value;
      && key != "" && !Blank(key[0]) && !Blank(key[|key| - 1])
      && exists i, j | 0 <= i <= j <= |h.value| :: h.value[i..j] == key
           && forall k | 0 <= k < i || j <= k < |h.value| :: Blank(h.value[k])
  {
    hide Blank;
    hide TrimStart;
    hide TrimEnd;
    if h.Single? {
      var i, j := TrimmedPart(h.value);
      if i < j {
        assert h.value[i..j][0] == h.value[i] && h.value[i..j][j - i - 1] == h.value[j - 1];
      }
    }
  }

  /** Where the trimmed text is in the text. */
  lemma TrimmedPart(s: string) returns (i: nat, j: nat)
    ensures i <= j <= |s| && s[i..j] == TrimEnd(TrimStart(s))
    ensures forall k | 0 <= k < i || j <= k < |s| :: Blank(s[k])
    ensures i < j ==> !Blank(s[i]) && !Blank(s[j - 1])
  {
    hide Blank;
    hide TrimStart;
    hide TrimEnd;
    var t := TrimStart(s);
    var key := TrimEnd(t);
    i := |s| - |t|;
    j := i + |key|;
    assert s[i..] == t && t[..|key|] == key;
    assert s[i..j] == key;
    forall k | j <= k < |s| ensures Blank(s[k]) {
      assert s[k] == t[k - i];
    }
    if key != "" {
      assert s[i] == t[0] && s[j - 1] == key[|key| - 1];
    }
  }

  /** `Hmac` is the keyed hash that turns a raw key into its fingerprint. */
  datatype System = System(keys: ApiKeys.State, rules: EndpointRules.State, Hmac: string -> string)

  /** How the key lookup and the rule lookup of one request fare. */
  datatype Faults = Faults(key: ApiKeys.Faults, rule: EndpointRules.Faults)

  const NO_FAULTS := Faults(ApiKeys.NO_FAULTS, EndpointRules.NO_FAULTS)

  ghost function CanActivate(s: System, h: Header, key: Option<string>, f: Faults): (System, Verdict) {
    match ExtractApiKey(h)
    case Err(e) => (s, Refused(e))
    case Ok(raw) =>
      var (keys, answer) := ApiKeys.Step(s.keys, ApiKeys.Find(s.Hmac(raw)), f.key);
      if !answer.Codes? then (s.(keys := keys), Refused(ApiKeyRefused))
      else
        var (rules, v) := CheckEndpoint(s.rules, key, answer.codes, f.rule);
        (s.(keys := keys, rules := rules), v)
  }

  /** The decision read straight from the two tables. */
  ghost function DbVerdict(s: System, h: Header, key: Option<string>): Verdict {
    match ExtractApiKey(h)
    case Err(e) => Refused(e)
    case Ok(raw) =>
      var answer := ApiKeys.DbFind(s.keys.keys, s.Hmac(raw));
      if !answer.Codes? then Refused(ApiKeyRefused) else DbCheckEndpoint(s.rules.rules, key, answer.codes)
  }

  /** What a guarded request does with the key of its header: it is refused unless Redis has codes for the
      key's fingerprint, or the table has an active key with it; those codes it is judged by. */
  ghost predicate JudgesKey(s: System, t: System, raw: string, key: Option<string>, f: Faults, v: Verdict) {
    var fp := s.Hmac(raw);
    if f.key.get && fp in s.keys.cache.entries then JudgesFrom(s.rules, key, s.keys.cache.entries[fp].codes, f.rule, v)
    else if !f.key.read || forall id | id in s.keys.keys && s.keys.keys[id].fingerprint == fp :: !s.keys.keys[id].active
    then v == Refused(ApiKeyRefused) && t == s
    else
      exists id | id in s.keys.keys && s.keys.keys[id].fingerprint == fp && s.keys.keys[id].active ::
        JudgesFrom(s.rules, key, s.keys.keys[id].codes, f.rule, v)
  }

  lemma CanActivateEffect(s: System, h: Header, key: Option<string>, f: Faults)
    requires EndpointRules.UniqueKeys(s.rules.rules)
    ensures var (t, v) := CanActivate(s, h, key, f);
            && t.keys.keys == s.keys.keys && t.rules.rules == s.rules.rules && t.Hmac == s.Hmac
            && (key == None || key == Some("") ==> t.rules == s.rules)
            && match ExtractApiKey(h)
               case Err(e) => t == s && v == Refused(e)
               case Ok(raw) =>
                 && JudgesKey(s, t, raw, key, f, v)
                 && t.keys == ApiKeys.Step(s.keys, ApiKeys.Find(s.Hmac(raw)), f.key).0
                 && (v != Refused(ApiKeyRefused) && key.Some? && key.value != "" ==>
                       t.rules == EndpointRules.Step(s.rules, EndpointRules.Lookup(key.value), f.rule,
                                                     EndpointRules.NO_FAULTS).0)
  {
    if ExtractApiKey(h).Ok? {
      RequestEffect(s, ExtractApiKey(h).value, key, f);
    }
    hide ApiKeys.Step;
    hide EndpointRules.Step;
    hide CheckEndpoint;
    hide JudgesKey;
    hide ExtractApiKey;
    hide EndpointRules.UniqueKeys;
  }

  /** The same for a request whose header holds this key. */
  lemma RequestEffect(s: System, raw: string, key: Option<string>, f: Faults)
    requires EndpointRules.UniqueKeys(s.rules.rules)
    ensures var (keys, answer) := ApiKeys.Step(s.keys, ApiKeys.Find(s.Hmac(raw)), f.key);
            && keys.keys == s.keys.keys
            && if !answer.Codes? then JudgesKey(s, s.(keys := keys), raw, key, f, Refused(ApiKeyRefused))
               else
                 var (rules, v) := CheckEndpoint(s.rules, key, answer.codes, f.rule);
                 && v != Refused(ApiKeyRefused) && rules.rules == s.rules.rules
                 && JudgesKey(s, s.(keys := keys, rules := rules), raw, key, f, v)
                 && rules == (if key == None || key == Some("") then s.rules
                              else EndpointRules.Step(s.rules, EndpointRules.Lookup(key.value), f.rule,
                                                      EndpointRules.NO_FAULTS).0)
  {
    var fp := s.Hmac(raw);
    ApiKeysEffects.FindEffect(s.keys, fp, f.key);
    var answer := ApiKeys.Step(s.keys, ApiKeys.Find(fp), f.key).1;
    if answer.Codes? {
      CheckEndpointEffect(s.rules, key, answer.codes, f.rule);
      NotAboutKeys(s.rules, key, answer.codes, f.rule);
    }
    hide ApiKeys.Step;
    hide EndpointRules.Step;
    hide CheckEndpoint;
    hide JudgesFrom;
    hide EndpointRules.UniqueKeys;
  }

  lemma NotAboutKeys(rules: EndpointRules.State, key: Option<string>, held: seq<string>, f: EndpointRules.Faults)
    ensures CheckEndpoint(rules, key, held, f).1 != Refused(ApiKeyRefused)
  {}

  datatype Op =
    | OnKeys(op: ApiKeys.Op)
    | OnRules(rule: EndpointRules.Op)
    | Guarded(h: Header, key: Option<string>)

  predicate Enabled(s: System, op: Op) {
    match op
    case OnKeys(o) => ApiKeysRevocation.OnActiveKey(s.keys, o)
    case OnRules(o) => EndpointRulesCoherence.Validated(o)
    case Guarded(_, _) => true
  }

  /** Runs consist of any calls, except that permissions are changed on active keys and no rule is renamed to an
      empty key. */
  lemma RunsCover(s: System, op: Op)
    ensures Enabled(s, op) <==>
      match op
      case OnKeys(ChangePermissions(id, _)) => id in s.keys.keys ==> s.keys.keys[id].active
      case OnRules(Update(_, newKey, _)) => newKey != Some("")
      case _ => true
  {}

  /** One call: g is what the second routine of a rule operation meets. */
  datatype Call = Call(op: Op, f: Faults, g: EndpointRules.Faults)

  ghost function Step(s: System, c: Call): System {
    match c.op
    case OnKeys(o) => s.(keys := ApiKeys.Step(s.keys, o, c.f.key).0)
    case OnRules(o) => s.(rules := EndpointRules.Step(s.rules, o, c.f.rule, c.g).0)
    case Guarded(h, key) => CanActivate(s, h, key, c.f).0
  }

  ghost predicate CanRun(s: System, calls: seq<Call>)
    decreases |calls|
  {
    calls == [] || (Enabled(s, calls[0].op) && CanRun(Step(s, calls[0]), calls[1..]))
  }

  ghost function Run(s: System, calls: seq<Call>): System
    decreases |calls|
  {
    if calls == [] then s else Run(Step(s, calls[0]), calls[1..])
  }

  predicate Undisturbed(c: Call) {
    c.f == NO_FAULTS && c.g == EndpointRules.NO_FAULTS
  }

  ghost predicate Inv(s: System) {
    ApiKeysRevocation.Coherent(s.keys) && EndpointRulesCoherence.Coherent(s.rules)
  }

  lemma GuardIsDbVerdict(s: System, h: Header, key: Option<string>)
    requires Inv(s)
    ensures var (t, v) := CanActivate(s, h, key, NO_FAULTS); Inv(t) && v == DbVerdict(s, h, key)
  {
    hide EndpointRulesCoherence.Coherent;
    hide ApiKeysRevocation.Coherent;
    if ExtractApiKey(h).Ok? {
      var find := ApiKeys.Find(s.Hmac(ExtractApiKey(h).value));
      ApiKeysRevocation.CoherentStep(s.keys, find);
      hide ApiKeys.Step;
      hide CheckEndpoint;
      var answer := ApiKeys.DbFind(s.keys.keys, find.fingerprint);
      if answer.Codes? {
        CheckEndpointRefines(s.rules, key, answer.codes);
      }
    }
  }

  lemma InvStep(s: System, c: Call)
    requires Inv(s) && Enabled(s, c.op) && Undisturbed(c)
    ensures Inv(Step(s, c))
  {
    hide EndpointRulesCoherence.Coherent;
    hide ApiKeysRevocation.Coherent;
    hide ApiKeys.Step;
    hide EndpointRules.Step;
    hide CanActivate;
    match c.op
    case OnKeys(o) => ApiKeysRevocation.CoherentStep(s.keys, o);
    case OnRules(o) => EndpointRulesCoherence.CoherentStep(s.rules, o);
    case Guarded(h, key) => GuardIsDbVerdict(s, h, key);
  }

  /** After every fault-free run of key and rule operations and guarded requests, the guard judges a
      request as the tables alone would. */
  lemma {:induction false} GuardRefinement(s: System, calls: seq<Call>, h: Header, key: Option<string>)
    requires Inv(s) && CanRun(s, calls) && forall c | c in calls :: Undisturbed(c)
    ensures CanActivate(Run(s, calls), h, key, NO_FAULTS).1 == DbVerdict(Run(s, calls), h, key)
    decreases |calls|
  {
    hide Inv;
    hide Step;
    hide CanActivate;
    hide DbVerdict;
    if calls == [] {
      GuardIsDbVerdict(s, h, key);
    } else {
      InvStep(s, calls[0]);
      GuardRefinement(Step(s, calls[0]), calls[1..], h, key);
    }
  }

  /** So after such a run a request with a single header that is not blank is let through exactly when an active
      key has the fingerprint of what the header holds, and the route has no endpoint key, or an empty one, or
      that key's rule is enabled and asks for nothing or for one of the codes of the API key. */
  lemma {:induction false} AllowedIff(s: System, calls: seq<Call>, h: Header, key: Option<string>)
    requires Inv(s) && CanRun(s, calls) && forall c | c in calls :: Undisturbed(c)
    requires ExtractApiKey(h).Ok?
    ensures var t := Run(s, calls);
            var fp, keys, rules := t.Hmac(ExtractApiKey(h).value), t.keys.keys, t.rules.rules;
            CanActivate(t, h, key, NO_FAULTS).1 == Allowed <==>
              exists k | k in keys ::
                && keys[k].fingerprint == fp && keys[k].active
                && (key == None || key == Some("") ||
                    exists id | id in rules && rules[id].key == key.value ::
                      && rules[id].enabled
                      && (rules[id].codes == [] || exists code | code in rules[id].codes :: code in keys[k].codes))
    decreases |calls|
  {
    if calls == [] {
      AllowedNow(s, h, key);
    } else {
      InvStep(s, calls[0]);
      hide Inv;
      hide Step;
      hide CanActivate;
      hide ExtractApiKey;
      AllowedIff(Step(s, calls[0]), calls[1..], h, key);
    }
  }

  lemma AllowedNow(s: System, h: Header, key: Option<string>)
    requires Inv(s) && ExtractApiKey(h).Ok?
    ensures var fp, keys, rules := s.Hmac(ExtractApiKey(h).value), s.keys.keys, s.rules.rules;
            CanActivate(s, h, key, NO_FAULTS).1 == Allowed <==>
              exists k | k in keys ::
                && keys[k].fingerprint == fp && keys[k].active
                && (key == None || key == Some("") ||
                    exists id | id in rules && rules[id].key == key.value ::
                      && rules[id].enabled
                      && (rules[id].codes == [] || exists code | code in rules[id].codes :: code in keys[k].codes))
  {
    var fp, keys, rules := s.Hmac(ExtractApiKey(h).value), s.keys.keys, s.rules.rules;
    GuardIsDbVerdict(s, h, key);
    if k :| k in keys && keys[k].fingerprint == fp && keys[k].active {
      ApiKeysEffects.FindByRow(keys, k);
      DbCheckEndpointIff(rules, key, keys[k].codes);
      JudgesIff(rules, key, keys[k].codes, DbCheckEndpoint(rules, key, keys[k].codes));
      forall j | j in keys && keys[j].fingerprint == fp && keys[j].active ensures j == k {}
    } else {
      ApiKeysEffects.FindNothing(keys, fp);
    }
    hide CanActivate;
    hide ApiKeys.DbFind;
    hide DbCheckEndpoint;
    hide Judges;
    hide ExtractApiKey;
  }

  // ----- Revocation -----

  /** The header's key is inactive in the table and not cached. */
  ghost predicate IsRevoked(s: System, h: Header) {
    ExtractApiKey(h).Ok? && exists id :: ApiKeysRevocation.Revoked(s.keys, id, s.Hmac(ExtractApiKey(h).value))
  }

  lemma RevokedNow(s: System, h: Header, key: Option<string>, f: Faults)
    requires IsRevoked(s, h)
    ensures CanActivate(s, h, key, f).1 == Refused(ApiKeyRefused)
  {
    var fp := s.Hmac(ExtractApiKey(h).value);
    var id :| ApiKeysRevocation.Revoked(s.keys, id, fp);
    ApiKeysRevocation.RevokedStep(s.keys, ApiKeys.Find(fp), f.key, id, fp);
    hide ApiKeys.Step;
    hide ApiKeysRevocation.Revoked;
  }

  lemma RevokedCall(s: System, c: Call, id: string, fp: string)
    requires ApiKeysRevocation.Revoked(s.keys, id, fp) && Enabled(s, c.op) && c.op != OnKeys(ApiKeys.Activate(id))
    ensures ApiKeysRevocation.Revoked(Step(s, c).keys, id, fp) && Step(s, c).Hmac == s.Hmac
  {
    hide ApiKeysRevocation.Revoked;
    hide ApiKeys.Step;
    hide EndpointRules.Step;
    hide CheckEndpoint;
    match c.op
    case OnKeys(o) => ApiKeysRevocation.RevokedStep(s.keys, o, c.f.key, id, fp);
    case OnRules(_) =>
    case Guarded(h, _) =>
      if ExtractApiKey(h).Ok? {
        ApiKeysRevocation.RevokedStep(s.keys, ApiKeys.Find(s.Hmac(ExtractApiKey(h).value)), c.f.key, id, fp);
      }
  }

  /** After every run of key and rule operations and guarded requests, whatever fails in it, a key that
      was revoked and has not been activated since is refused at every endpoint, whatever fails then. */
  lemma {:induction false} RevokedKeyRefused(s: System, calls: seq<Call>, id: string, h: Header, key: Option<string>,
                                             f: Faults)
    requires ExtractApiKey(h).Ok? && ApiKeysRevocation.Revoked(s.keys, id, s.Hmac(ExtractApiKey(h).value))
    requires CanRun(s, calls) && forall c | c in calls :: c.op != OnKeys(ApiKeys.Activate(id))
    ensures CanActivate(Run(s, calls), h, key, f).1 == Refused(ApiKeyRefused)
    decreases |calls|
  {
    var fp := s.Hmac(ExtractApiKey(h).value);
    hide ApiKeysRevocation.Revoked;
    hide ApiKeys.Step;
    if calls == [] {
      RevokedNow(s, h, key, f);
    } else {
      RevokedCall(s, calls[0], id, fp);
      hide Step;
      RevokedKeyRefused(Step(s, calls[0]), calls[1..], id, h, key, f);
    }
  }
}
