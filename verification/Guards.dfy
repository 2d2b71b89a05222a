/** What the two guards share: the endpoint decision made from the rule cache, for codes that the caller
    is known to hold. */
module Guards {
  import opened Common
  import EndpointRules
  import EndpointRulesCoherence
  import Jwt
  import Permissions

  datatype Error =
    | CookieMissing | TokenRefused(jwt: Jwt.Error) | Unparseable
    | SessionInvalid | SessionExpired | TokenMismatch | IpMismatch
    | ApiKeyHeaderNotSingle | ApiKeyHeaderMissing | ApiKeyRefused
    | RuleRefused(rule: EndpointRules.Error) | InsufficientPermissions

  datatype Verdict = Allowed | Refused(error: Error)

  /** The verdict once the endpoint's rule has been looked up. */
  function Decide(answer: EndpointRules.Answer, held: seq<string>): Verdict {
    match answer
    case Codes(codes) => if Permissions.Satisfies(codes, held) then Allowed else Refused(InsufficientPermissions)
    case Failure(e) => Refused(RuleRefused(e))
    case Done => Allowed
  }

  /** A route without an endpoint key, or with an empty one, has no rule to satisfy. */
  predicate Keyed(key: Option<string>) {
    key.Some? && key.value != ""
  }

  /** The endpoint part of a request: the rule cache may be filled on the way. */
  ghost function CheckEndpoint(rules: EndpointRules.State, key: Option<string>, held: seq<string>,
                               f: EndpointRules.Faults)
    : (EndpointRules.State, Verdict)
  {
    if !Keyed(key) then (rules, Allowed)
    else
      var (next, answer) := EndpointRules.Step(rules, EndpointRules.Lookup(key.value), f, EndpointRules.NO_FAULTS);
      (next, Decide(answer, held))
  }

  /** The same decision read straight from the rule table. */
  ghost function DbCheckEndpoint(rules: EndpointRules.Table, key: Option<string>, held: seq<string>): Verdict {
    if !Keyed(key) then Allowed else Decide(EndpointRules.DbLookup(rules, key.value), held)
  }

  /** With a coherent cache the two are the same, and the check leaves it coherent. */
  lemma CheckEndpointRefines(rules: EndpointRules.State, key: Option<string>, held: seq<string>)
    requires EndpointRulesCoherence.Coherent(rules)
    ensures var (next, v) := CheckEndpoint(rules, key, held, EndpointRules.NO_FAULTS);
            && EndpointRulesCoherence.Coherent(next)
            && next.rules == rules.rules && next.perms == rules.perms
            && v == DbCheckEndpoint(rules.rules, key, held)
  {
    if Keyed(key) {
      EndpointRulesCoherence.CoherentStep(rules, EndpointRules.Lookup(key.value));
    }
  }

  /** What the rule table demands of whoever holds these codes: nothing where the route has no endpoint key
      or an empty one; otherwise a rule with that key which is enabled and asks for nothing or for one of
      the codes. The four refusals are told apart by their errors. */
  predicate Judges(rules: EndpointRules.Table, key: Option<string>, held: seq<string>, v: Verdict) {
    if key == None || key == Some("") then v == Allowed
    else if forall id | id in rules :: rules[id].key != key.value then v == Refused(RuleRefused(EndpointRules.NotFound))
    else
      exists id | id in rules && rules[id].key == key.value ::
        if !rules[id].enabled then v == Refused(RuleRefused(EndpointRules.RuleDisabled))
        else if rules[id].codes == [] || exists code | code in rules[id].codes :: code in held then v == Allowed
        else v == Refused(InsufficientPermissions)
  }

  /** The decision from the database is that one, for every key. */
  lemma DbCheckEndpointIff(rules: EndpointRules.Table, key: Option<string>, held: seq<string>)
    requires EndpointRules.UniqueKeys(rules)
    ensures Judges(rules, key, held, DbCheckEndpoint(rules, key, held))
  {
    if key.Some? && key.value != "" {
      if EndpointRules.HasKey(rules, key.value) {
        EndpointRules.LookupById(rules, EndpointRules.IdOf(rules, key.value));
      } else {
        EndpointRulesCoherence.NoSuchKey(rules, key.value);
      }
      hide EndpointRules.DbLookup;
    }
  }

  /** With unique key names there is one such verdict, and whom it lets through is plain. */
  lemma JudgesIff(rules: EndpointRules.Table, key: Option<string>, held: seq<string>, v: Verdict)
    requires EndpointRules.UniqueKeys(rules) && Judges(rules, key, held, v)
    ensures v == DbCheckEndpoint(rules, key, held)
    ensures v == Allowed <==>
      key == None || key == Some("") ||
      exists id | id in rules && rules[id].key == key.value ::
        rules[id].enabled && (rules[id].codes == [] || exists code | code in rules[id].codes :: code in held)
  {
    DbCheckEndpointIff(rules, key, held);
    hide DbCheckEndpoint;
  }

  /** The verdict whatever fails in the lookup: nothing is asked without a key; otherwise it is the verdict on
      the codes that Redis has for the key, or the rule table's, or that the rule cannot be read. */
  predicate JudgesFrom(rules: EndpointRules.State, key: Option<string>, held: seq<string>, f: EndpointRules.Faults,
                       v: Verdict)
  {
    if key == None || key == Some("") then v == Allowed
    else if f.get && key.value in rules.cache.entries
    then
      var codes := rules.cache.entries[key.value];
      v == if codes == [] || exists code | code in codes :: code in held then Allowed
           else Refused(InsufficientPermissions)
    else if !f.read then v == Refused(RuleRefused(EndpointRules.DbDown))
    else Judges(rules.rules, key, held, v)
  }

  lemma CheckEndpointEffect(rules: EndpointRules.State, key: Option<string>, held: seq<string>, f: EndpointRules.Faults)
    requires EndpointRules.UniqueKeys(rules.rules)
    ensures var (t, v) := CheckEndpoint(rules, key, held, f);
            && JudgesFrom(rules, key, held, f, v)
            && t.rules == rules.rules && t.perms == rules.perms
            && t == (if key == None || key == Some("") then rules
                     else EndpointRules.Step(rules, EndpointRules.Lookup(key.value), f, EndpointRules.NO_FAULTS).0)
  {
    DbCheckEndpointIff(rules.rules, key, held);
    hide EndpointRules.Mutate;
    hide EndpointRules.DbLookup;
    hide EndpointRules.UniqueKeys;
    hide Judges;
  }
}
