/** What each operation on endpoint rules means to its caller, row by row: when it is refused and why, what
    a save leaves in the table, and what the table says of the key from then on. */
module EndpointRulesEffects {
  import opened Common
  import opened TrackedCache
  import opened EndpointRules
  import opened EndpointRulesCoherence
  import Permissions

  predicate Refused(s: State, t: State, a: Answer, e: Error) {
    t == s && a == Failure(e)
  }

  /** Postgres stores these rules, or it does not, or it does and its reply is lost; in the last two cases
      the caller sees an error and the cache is left alone. */
  predicate Saves(s: State, t: State, a: Answer, save: Outcome, rules: Table) {
    match save
    case Done => t.rules == rules && t.perms == s.perms && a == Answer.Done
    case Failed => t == s && a == Failure(DbDown)
    case Lost => t == s.(rules := rules) && a == Failure(DbDown)
  }

  /** A new rule is enabled and asks for nothing; its key name must be new. */
  predicate Creates(s: State, t: State, a: Answer, id: string, key: string, save: Outcome) {
    if id in s.rules || exists j | j in s.rules :: s.rules[j].key == key then Refused(s, t, a, SaveRejected)
    else Saves(s, t, a, save, s.rules[id := Rule(key, true, [])])
  }

  /** An update sets the key name and the flag that are given and keeps the codes; the name must not be that
      of another rule. */
  predicate Updates(s: State, t: State, a: Answer, id: string, newKey: Option<string>, newEnabled: Option<bool>,
                    save: Outcome)
  {
    if id !in s.rules then Refused(s, t, a, NotFound)
    else
      var rule := s.rules[id];
      var key := match newKey case Some(k) => k case None => rule.key;
      var enabled := match newEnabled case Some(e) => e case None => rule.enabled;
      if exists j | j in s.rules :: j != id && s.rules[j].key == key then Refused(s, t, a, SaveRejected)
      else Saves(s, t, a, save, s.rules[id := Rule(key, enabled, rule.codes)])
  }

  predicate Deletes(s: State, t: State, a: Answer, id: string, save: Outcome) {
    if id !in s.rules then Refused(s, t, a, NotFound) else Saves(s, t, a, save, s.rules - {id})
  }

  /** An assignment sets the codes to those of the given permissions, in their order, and nothing else. */
  predicate Assigns(s: State, t: State, a: Answer, id: string, permissionIds: seq<string>, save: Outcome) {
    if id !in s.rules then Refused(s, t, a, NotFound)
    else if exists p | p in permissionIds :: p !in s.perms then Refused(s, t, a, PermissionNotFound)
    else
      var codes := seq(|permissionIds|, i requires 0 <= i < |permissionIds| => s.perms[permissionIds[i]]);
      Saves(s, t, a, save, s.rules[id := Rule(s.rules[id].key, s.rules[id].enabled, codes)])
  }

  predicate Enables(s: State, t: State, a: Answer, id: string, save: Outcome) {
    if id !in s.rules then Refused(s, t, a, NotFound)
    else if s.rules[id].enabled then Refused(s, t, a, AlreadyEnabled)
    else Saves(s, t, a, save, s.rules[id := Rule(s.rules[id].key, true, s.rules[id].codes)])
  }

  predicate Disables(s: State, t: State, a: Answer, id: string, save: Outcome) {
    if id !in s.rules then Refused(s, t, a, NotFound)
    else if !s.rules[id].enabled then Refused(s, t, a, AlreadyDisabled)
    else Saves(s, t, a, save, s.rules[id := Rule(s.rules[id].key, false, s.rules[id].codes)])
  }

  // ----- Every operation has its effect -----

  lemma CreateEffect(s: State, id: string, key: string, f: Faults, g: Faults)
    ensures var (t, a) := Step(s, Create(id, key), f, g); Creates(s, t, a, id, key, f.save)
  {
    assert HasKey(s.rules, key) <==> exists j | j in s.rules :: s.rules[j].key == key;
    hide Maintain;
    hide HasKey;
  }

  lemma UpdateEffect(s: State, id: string, newKey: Option<string>, newEnabled: Option<bool>, f: Faults, g: Faults)
    ensures var (t, a) := Step(s, Update(id, newKey, newEnabled), f, g);
            Updates(s, t, a, id, newKey, newEnabled, f.save)
  {
    hide Maintain;
  }

  lemma DeleteEffect(s: State, id: string, f: Faults, g: Faults)
    ensures var (t, a) := Step(s, Delete(id), f, g); Deletes(s, t, a, id, f.save)
  {
    hide Maintain;
  }

  lemma AssignEffect(s: State, id: string, permissionIds: seq<string>, f: Faults, g: Faults)
    ensures var (t, a) := Step(s, Assign(id, permissionIds), f, g); Assigns(s, t, a, id, permissionIds, f.save)
  {
    var codes := Permissions.CodesFor(s.perms, permissionIds);
    if codes.Some? {
      assert forall p | p in permissionIds :: p in s.perms;
      assert codes.value == seq(|permissionIds|, i requires 0 <= i < |permissionIds| => s.perms[permissionIds[i]]);
    }
    hide Maintain;
    hide Permissions.CodesFor;
  }

  lemma EnableEffect(s: State, id: string, f: Faults, g: Faults)
    ensures var (t, a) := Step(s, Enable(id), f, g); Enables(s, t, a, id, f.save)
  {
    hide Maintain;
  }

  lemma DisableEffect(s: State, id: string, f: Faults, g: Faults)
    ensures var (t, a) := Step(s, Disable(id), f, g); Disables(s, t, a, id, f.save)
  {
    hide Maintain;
  }

  // ----- What the table says from then on -----

  /** The answer a lookup gets once the operation has succeeded: for the key the rule now has, and for the
      one it had. */
  lemma LookupAfter(s: State, op: Op, f: Faults, g: Faults)
    requires UniqueKeys(s.rules) && Mutates(op) && Step(s, op, f, g).1 == Answer.Done
    ensures var rules := Step(s, op, f, g).0.rules;
            match op
            case Create(_, key) => DbLookup(rules, key) == Codes([])
            case Enable(id) => id in s.rules && DbLookup(rules, s.rules[id].key) == Codes(s.rules[id].codes)
            case Disable(id) => id in s.rules && DbLookup(rules, s.rules[id].key) == Failure(RuleDisabled)
            case Delete(id) => id in s.rules && DbLookup(rules, s.rules[id].key) == Failure(NotFound)
            case Assign(id, permissionIds) =>
              && id in s.rules && (forall p | p in permissionIds :: p in s.perms)
              && (if s.rules[id].enabled
                  then
                    var a := DbLookup(rules, s.rules[id].key);
                    a.Codes? && |a.codes| == |permissionIds|
                    && forall i | 0 <= i < |permissionIds| :: a.codes[i] == s.perms[permissionIds[i]]
                  else DbLookup(rules, s.rules[id].key) == Failure(RuleDisabled))
            case Update(id, newKey, newEnabled) =>
              && id in s.rules
              && (newKey.Some? && newKey.value != s.rules[id].key ==>
                    DbLookup(rules, s.rules[id].key) == Failure(NotFound))
              && DbLookup(rules, if newKey.Some? then newKey.value else s.rules[id].key) ==
                 (if (if newEnabled.Some? then newEnabled.value else s.rules[id].enabled) then Codes(s.rules[id].codes)
                  else Failure(RuleDisabled))
            case _ => true
  {
    var rules := Step(s, op, f, g).0.rules;
    assert Mutate(s.perms, s.rules, op) == Ok(rules) by { hide Maintain; }
    hide Step;
    MutateKeepsUnique(s.perms, s.rules, op);
    OnlyOneRow(s.perms, s.rules, op);
    if op.id in rules {
      LookupById(rules, op.id);
    }
    if op.id in s.rules && (op.Delete? || rules[op.id].key != s.rules[op.id].key) {
      assert !HasKey(rules, s.rules[op.id].key);
      NoSuchKey(rules, s.rules[op.id].key);
    }
    hide DbLookup;
    hide UniqueKeys;
  }

  /** What a lookup answers, whatever can be read: the cached codes if Redis has them, otherwise what the row
      with the key says, and an error only if Postgres cannot be read either. */
  lemma LookupEffect(s: State, key: string, f: Faults, g: Faults)
    requires UniqueKeys(s.rules)
    ensures var (t, a) := Step(s, Lookup(key), f, g);
            && t.rules == s.rules && t.perms == s.perms
            && if f.get && key in s.cache.entries then t == s && a == Codes(s.cache.entries[key])
               else if !f.read then t == s && a == Failure(DbDown)
               else if forall id | id in s.rules :: s.rules[id].key != key then t == s && a == Failure(NotFound)
               else
                 exists id | id in s.rules && s.rules[id].key == key ::
                   if s.rules[id].enabled then a == Codes(s.rules[id].codes) else t == s && a == Failure(RuleDisabled)
  {
    if HasKey(s.rules, key) {
      var id := IdOf(s.rules, key);
      LookupById(s.rules, id);
    } else {
      NoSuchKey(s.rules, key);
    }
    hide Mutate;
  }

  // ----- What is in Redis from then on -----

  /** An entry is written and then tracked; what goes wrong with the first command skips the second. */
  predicate Writes(c: Cache<string, seq<string>>, t: Cache<string, seq<string>>, key: string, codes: seq<string>,
                   put: Outcome, track: Outcome)
  {
    && t.entries == (if put.Failed? then c.entries else c.entries[key := codes])
    && t.tracked == if put.Done? && !track.Failed? then c.tracked + {key} else c.tracked
  }

  /** An entry is deleted and then no longer tracked, likewise. */
  predicate Drops(c: Cache<string, seq<string>>, t: Cache<string, seq<string>>, key: string, del: Outcome,
                  untrack: Outcome)
  {
    && t.entries == (if del.Failed? then c.entries else c.entries - {key})
    && t.tracked == if del.Done? && !untrack.Failed? then c.tracked - {key} else c.tracked
  }

  /** The entry of a rule is brought in line with the rule. */
  predicate Follows(c: Cache<string, seq<string>>, t: Cache<string, seq<string>>, rule: Rule, f: Faults) {
    if !f.read then t == c
    else if rule.enabled then Writes(c, t, rule.key, rule.codes, f.put, f.track)
    else Drops(c, t, rule.key, f.del, f.untrack)
  }

  /** The entries of all enabled rules are written and tracked, all at once or not at all. */
  predicate Warms(rules: Table, c: Cache<string, seq<string>>, t: Cache<string, seq<string>>, f: Faults) {
    if !f.read || f.exec.Failed? then t == c
    else
      var keys := set id | id in rules && rules[id].enabled :: rules[id].key;
      && t.tracked == c.tracked + keys && t.entries.Keys == c.entries.Keys + keys
      && (forall id | id in rules && rules[id].enabled :: t.entries[rules[id].key] == rules[id].codes)
      && forall k | k in c.entries && k !in keys :: t.entries[k] == c.entries[k]
  }

  /** What every operation does to the cache, whatever fails: one that is not confirmed to be saved nothing; a
      deletion and a disabling drop the entry; any other mutation brings the entry in line, after a renaming
      under the new name and only once the old one is dropped; a lookup writes what it had to read. */
  lemma CacheAfter(s: State, op: Op, f: Faults, g: Faults)
    requires UniqueKeys(s.rules)
    ensures var (t, a) := Step(s, op, f, g);
            match op
            case Lookup(key) =>
              if key !in s.cache.entries || !f.get
              then (a.Codes? ==> Writes(s.cache, t.cache, key, a.codes, f.put, f.track))
                   && (!a.Codes? ==> t.cache == s.cache)
              else t.cache == s.cache
            case WarmUp => Warms(s.rules, s.cache, t.cache, f)
            case Reconcile =>
              var cleared := Cache(s.cache.entries - s.cache.tracked, {});
              var kept := if f.members && !f.exec.Failed? then cleared else s.cache;
              Warms(s.rules, kept, t.cache, g)
            case RedisRestart => t.cache.entries == map[] && t.cache.tracked == {}
            case _ => a != Answer.Done ==> t.cache == s.cache
    ensures var (t, a) := Step(s, op, f, g);
            a == Answer.Done ==>
              match op
              case Disable(id) => id in s.rules && Drops(s.cache, t.cache, s.rules[id].key, f.del, f.untrack)
              case Delete(id) => id in s.rules && Drops(s.cache, t.cache, s.rules[id].key, f.del, f.untrack)
              case Update(id, newKey, _) =>
                && id in s.rules && id in t.rules
                && (if newKey.Some? && newKey.value != "" && newKey.value != s.rules[id].key
                    then exists c :: Drops(s.cache, c, s.rules[id].key, f.del, f.untrack)
                                     && Follows(c, t.cache, t.rules[id], g)
                    else Follows(s.cache, t.cache, t.rules[id], f))
              case Create(id, _) => id in t.rules && Follows(s.cache, t.cache, t.rules[id], f)
              case Assign(id, _) => id in t.rules && Follows(s.cache, t.cache, t.rules[id], f)
              case Enable(id) => id in t.rules && Follows(s.cache, t.cache, t.rules[id], f)
              case _ => true
  {
    if Mutates(op) {
      if Step(s, op, f, g).1 == Answer.Done {
        MaintainEffect(s, op, f, g);
      }
    } else if op.WarmUp? {
      WarmUpEffect(s.rules, s.cache, f);
    } else if op.Reconcile? {
      WarmUpEffect(s.rules, DeleteStaleKeys(s.cache, f), g);
    }
    hide Mutate;
    hide Warms;
    hide Follows;
    hide Maintain;
    hide WarmUpCache;
  }

  lemma WarmUpEffect(rules: Table, c: Cache<string, seq<string>>, f: Faults)
    requires UniqueKeys(rules)
    ensures Warms(rules, c, WarmUpCache(rules, c, f), f)
  {
    var keys := set id | id in rules && rules[id].enabled :: rules[id].key;
    forall id | id in rules
      ensures rules[id].enabled <==> DbLookup(rules, rules[id].key).Codes?
      ensures rules[id].enabled ==> DbLookup(rules, rules[id].key) == Codes(rules[id].codes)
    {
      LookupById(rules, id);
    }
    hide DbLookup;
    assert EnabledKeys(rules) == keys;
  }

  lemma MaintainEffect(s: State, op: Op, f: Faults, g: Faults)
    requires UniqueKeys(s.rules) && Mutates(op) && Step(s, op, f, g).1 == Answer.Done
    ensures var t := Step(s, op, f, g).0;
            match op
            case Disable(id) => Drops(s.cache, t.cache, s.rules[id].key, f.del, f.untrack)
            case Delete(id) => Drops(s.cache, t.cache, s.rules[id].key, f.del, f.untrack)
            case Update(id, newKey, _) =>
              (if newKey.Some? && newKey.value != "" && newKey.value != s.rules[id].key
               then
                 var c := Invalidate(s.cache, s.rules[id].key, f);
                 Drops(s.cache, c, s.rules[id].key, f.del, f.untrack) && Follows(c, t.cache, t.rules[id], g)
               else Follows(s.cache, t.cache, t.rules[id], f))
            case _ => Follows(s.cache, t.cache, t.rules[op.id], f)
  {
    var rules := Step(s, op, f, g).0.rules;
    assert Mutate(s.perms, s.rules, op) == Ok(rules) && f.save.Done?
           && Step(s, op, f, g).0.cache == Maintain(s.rules, rules, s.cache, op, f, g) by {
      hide Maintain;
    }
    hide Step;
    MutateKeepsUnique(s.perms, s.rules, op);
    if op.id in rules {
      forall c, h ensures Follows(c, Load(rules, c, rules[op.id].key, h), rules[op.id], h) {
        LoadFollows(rules, c, op.id, h);
      }
    }
    hide Load;
    hide Follows;
    hide UniqueKeys;
  }

  lemma LoadFollows(rules: Table, c: Cache<string, seq<string>>, id: string, f: Faults)
    requires UniqueKeys(rules) && id in rules
    ensures Follows(c, Load(rules, c, rules[id].key, f), rules[id], f)
  {
    LookupById(rules, id);
    hide DbLookup;
  }
}
