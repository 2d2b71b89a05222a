/** Endpoint permission rules: the table, the Redis cache in front of it, and every operation of the
    service with whatever Redis and Postgres may do to it. */
module EndpointRules {
  import opened Common
  import opened TrackedCache
  import Permissions

  datatype Rule = Rule(key: string, enabled: bool, codes: seq<string>)

  type Table = map<string, Rule>

  /** `perms` is the permission table, id to code; it stays as it is. */
  datatype State = State(perms: map<string, string>, rules: Table, cache: Cache<string, seq<string>>)

  datatype Error = NotFound | RuleDisabled | AlreadyEnabled | AlreadyDisabled | PermissionNotFound
                 | SaveRejected | DbDown

  datatype Answer = Codes(codes: seq<string>) | Done | Failure(error: Error)

  // ----- The table -----

  /** The unique constraint on endpoint_key_name. */
  ghost predicate UniqueKeys(rules: Table) {
    forall i, j | i in rules && j in rules && rules[i].key == rules[j].key :: i == j
  }

  ghost predicate HasKey(rules: Table, key: string) {
    exists id :: id in rules && rules[id].key == key
  }

  ghost function IdOf(rules: Table, key: string): (id: string)
    requires HasKey(rules, key)
    ensures id in rules && rules[id].key == key
  {
    var id :| id in rules && rules[id].key == key;
    id
  }

  /** What the endpoint key means according to the database alone. */
  ghost function DbLookup(rules: Table, key: string): Answer {
    if !HasKey(rules, key) then Failure(NotFound)
    else
      var rule := rules[IdOf(rules, key)];
      if rule.enabled then Codes(rule.codes) else Failure(RuleDisabled)
  }

  /** With unique keys the lookup does not depend on how the row is found. */
  lemma LookupById(rules: Table, id: string)
    requires UniqueKeys(rules) && id in rules
    ensures DbLookup(rules, rules[id].key) ==
      (if rules[id].enabled then Codes(rules[id].codes) else Failure(RuleDisabled))
  {
    assert HasKey(rules, rules[id].key);
    assert IdOf(rules, rules[id].key) == id;
  }

  function KeysOf(rules: Table): set<string> {
    set id | id in rules :: rules[id].key
  }

  ghost function EnabledKeys(rules: Table): set<string> {
    set k | k in KeysOf(rules) && DbLookup(rules, k).Codes?
  }

  // ----- Operations on the table -----

  datatype Op =
    | Create(id: string, key: string)
    | Update(id: string, newKey: Option<string>, newEnabled: Option<bool>)
    | Delete(id: string)
    | Assign(id: string, permissionIds: seq<string>)
    | Enable(id: string)
    | Disable(id: string)
    | Lookup(key: string)
    | WarmUp
    | Reconcile
    | RedisRestart

  predicate Mutates(op: Op) {
    op.Create? || op.Update? || op.Delete? || op.Assign? || op.Enable? || op.Disable?
  }

  function Renamed(rule: Rule, op: Op): Rule
    requires op.Update?
  {
    rule.(key := if op.newKey.Some? then op.newKey.value else rule.key,
          enabled := if op.newEnabled.Some? then op.newEnabled.value else rule.enabled)
  }

  ghost predicate KeyTakenByOther(rules: Table, id: string, key: string) {
    exists j :: j in rules && j != id && rules[j].key == key
  }

  /** The table a mutation asks Postgres to store, or why it is refused. */
  ghost function Mutate(perms: map<string, string>, rules: Table, op: Op): Result<Table, Error>
    requires Mutates(op)
  {
    match op
    case Create(id, key) =>
      if id in rules || HasKey(rules, key) then Err(SaveRejected) else Ok(rules[id := Rule(key, true, [])])
    case Update(id, _, _) =>
      if id !in rules then Err(NotFound)
      else
        var rule := Renamed(rules[id], op);
        if KeyTakenByOther(rules, id, rule.key) then Err(SaveRejected) else Ok(rules[id := rule])
    case Delete(id) =>
      if id !in rules then Err(NotFound) else Ok(rules - {id})
    case Assign(id, permissionIds) =>
      if id !in rules then Err(NotFound)
      else
        var codes := Permissions.CodesFor(perms, permissionIds);
        if codes.None? then Err(PermissionNotFound) else Ok(rules[id := rules[id].(codes := codes.value)])
    case Enable(id) =>
      if id !in rules then Err(NotFound)
      else if rules[id].enabled then Err(AlreadyEnabled) else Ok(rules[id := rules[id].(enabled := true)])
    case Disable(id) =>
      if id !in rules then Err(NotFound)
      else if !rules[id].enabled then Err(AlreadyDisabled) else Ok(rules[id := rules[id].(enabled := false)])
  }

  lemma MutateKeepsUnique(perms: map<string, string>, rules: Table, op: Op)
    requires UniqueKeys(rules) && Mutates(op) && Mutate(perms, rules, op).Ok?
    ensures UniqueKeys(Mutate(perms, rules, op).value)
  {
    var after := Mutate(perms, rules, op).value;
    forall i, j | i in after && j in after && after[i].key == after[j].key ensures i == j {
      if i in rules { assert HasKey(rules, rules[i].key); }
      if j in rules { assert HasKey(rules, rules[j].key); }
    }
  }

  // ----- Operations on the cache -----

  /** How Postgres and Redis answer the commands of one routine. A read that fails throws. */
  datatype Faults = Faults(save: Outcome, read: bool, get: bool, put: Outcome, track: Outcome,
                           del: Outcome, untrack: Outcome, members: bool, exec: Outcome)

  const NO_FAULTS := Faults(Outcome.Done, true, true, Outcome.Done, Outcome.Done,
                            Outcome.Done, Outcome.Done, true, Outcome.Done)

  /** The fault the two-command write is exposed to: the value is written, its key not tracked. */
  predicate Gap(f: Faults) {
    f.put.Applied() && (f.put.Raised() || !f.track.Applied())
  }

  function Invalidate(c: Cache<string, seq<string>>, key: string, f: Faults): Cache<string, seq<string>> {
    Drop(c, key, f.del, f.untrack)
  }

  /** loadRuleToRedis: re-read the rule, then write or invalidate its entry. */
  ghost function Load(rules: Table, c: Cache<string, seq<string>>, key: string, f: Faults): Cache<string, seq<string>> {
    if !f.read then c
    else
      match DbLookup(rules, key)
      case Codes(codes) => Put(c, key, codes, f.put, f.track)
      case _ => Invalidate(c, key, f)
  }

  ghost function WarmedUp(rules: Table, c: Cache<string, seq<string>>): Cache<string, seq<string>> {
    Cache(map k | k in c.entries.Keys + EnabledKeys(rules) ::
            if k in EnabledKeys(rules) then DbLookup(rules, k).codes else c.entries[k],
          c.tracked + EnabledKeys(rules))
  }

  ghost function WarmUpCache(rules: Table, c: Cache<string, seq<string>>, f: Faults): Cache<string, seq<string>> {
    if f.read && f.exec.Applied() then WarmedUp(rules, c) else c
  }

  /** Everything tracked is deleted, and the tracking set with it. */
  function DeleteStaleKeys(c: Cache<string, seq<string>>, f: Faults): Cache<string, seq<string>> {
    if f.members && f.exec.Applied() then Cache(c.entries - c.tracked, {}) else c
  }

  /** Maintenance after a successful save; f and g are the faults of its first and second routine. */
  ghost function Maintain(before: Table, after: Table, c: Cache<string, seq<string>>, op: Op, f: Faults, g: Faults)
    : Cache<string, seq<string>>
    requires Mutates(op)
    requires op.Create? ==> op.id in after
    requires !op.Create? ==> op.id in before
    requires !op.Delete? ==> op.id in after
  {
    match op
    case Delete(id) => Invalidate(c, before[id].key, f)
    case Disable(id) => Invalidate(c, before[id].key, f)
    case Update(id, newKey, _) =>
      // `dto.endpoint_key_name && ...`: an empty key name counts as absent
      if newKey.Some? && newKey.value != "" && newKey.value != before[id].key
      then Load(after, Invalidate(c, before[id].key, f), newKey.value, g)
      else Load(after, c, after[id].key, f)
    case _ => Load(after, c, after[op.id].key, f)
  }

  /** One call of the service: the state it leaves and what its caller gets. */
  ghost function Step(s: State, op: Op, f: Faults, g: Faults): (State, Answer) {
    match op
    case Lookup(key) =>
      if f.get && key in s.cache.entries then (s, Codes(s.cache.entries[key]))
      else if !f.read then (s, Failure(DbDown))
      else
        var answer := DbLookup(s.rules, key);
        if answer.Codes? then (s.(cache := Put(s.cache, key, answer.codes, f.put, f.track)), answer) else (s, answer)
    case WarmUp => (s.(cache := WarmUpCache(s.rules, s.cache, f)), Answer.Done)
    case Reconcile => (s.(cache := WarmUpCache(s.rules, DeleteStaleKeys(s.cache, f), g)), Answer.Done)
    case RedisRestart => (s.(cache := Cache(map[], {})), Answer.Done)
    case _ =>
      match Mutate(s.perms, s.rules, op)
      case Err(e) => (s, Failure(e))
      case Ok(after) =>
        if f.save.Raised() then (if f.save.Applied() then s.(rules := after) else s, Failure(DbDown))
        else (s.(rules := after, cache := Maintain(s.rules, after, s.cache, op, f, g)), Answer.Done)
  }
}
