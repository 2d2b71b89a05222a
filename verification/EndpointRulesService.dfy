/** The endpoint-rule service and its reconciliation job, command by command. Each method is a step of
    the model and says when it leaves the cache right. */
module EndpointRulesService {
  import opened Common
  import opened TrackedCache
  import Permissions
  import opened EndpointRules
  import EndpointRulesCoherence
  import EndpointRulesFaults
  import EndpointRulesEffects

  /** The enabled rules in whatever order the database returns them. */
  predicate IsEnabledListing(rules: Table, found: seq<Rule>) {
    && (forall r | r in found :: r.enabled && exists id | id in rules :: rules[id] == r)
    && (forall id | id in rules && rules[id].enabled :: rules[id] in found)
  }

  lemma {:induction false} EnabledListingExists(rules: Table) returns (found: seq<Rule>)
    ensures IsEnabledListing(rules, found)
    decreases |rules|
  {
    if rules == map[] {
      found := [];
    } else {
      var id :| id in rules;
      var rest := rules - {id};
      assert rules.Keys == rest.Keys + {id};
      found := EnabledListingExists(rest);
      if rules[id].enabled {
        found := [rules[id]] + found;
      }
    }
  }

  /** The entries that a listing of rules is written as. */
  function EntriesFor(found: seq<Rule>): map<string, seq<string>> {
    if found == [] then map[]
    else EntriesFor(found[..|found| - 1])[found[|found| - 1].key := found[|found| - 1].codes]
  }

  lemma {:induction false} EntriesForSpec(rules: Table, found: seq<Rule>)
    requires forall r | r in found :: DbLookup(rules, r.key) == Codes(r.codes)
    ensures forall k :: k in EntriesFor(found) <==> exists r | r in found :: r.key == k
    ensures forall k | k in EntriesFor(found) :: DbLookup(rules, k) == Codes(EntriesFor(found)[k])
  {
    hide DbLookup;
    if found != [] {
      var n := |found| - 1;
      assert found[n] in found && found == found[..n] + [found[n]];
      EntriesForSpec(rules, found[..n]);
    }
  }

  lemma ListingComplete(rules: Table, found: seq<Rule>)
    requires UniqueKeys(rules) && IsEnabledListing(rules, found)
    ensures EntriesFor(found).Keys == EnabledKeys(rules)
    ensures forall k | k in EntriesFor(found) :: DbLookup(rules, k) == Codes(EntriesFor(found)[k])
  {
    forall r | r in found ensures r.key in EnabledKeys(rules) && DbLookup(rules, r.key) == Codes(r.codes) {
      var id :| id in rules && rules[id] == r;
      LookupById(rules, id);
      assert rules[id].key in KeysOf(rules);
    }
    EntriesForSpec(rules, found);
    forall k ensures k in EnabledKeys(rules) <==> k in EntriesFor(found) {
      if k in EnabledKeys(rules) {
        assert rules[IdOf(rules, k)] in found;
      }
    }
  }

  /** Writing and tracking every listed rule is what warming up means. */
  lemma ListingWarms(rules: Table, found: seq<Rule>, c: Cache<string, seq<string>>)
    requires UniqueKeys(rules) && IsEnabledListing(rules, found)
    ensures WarmedUp(rules, c) == Cache(c.entries + EntriesFor(found), c.tracked + EntriesFor(found).Keys)
  {
    ListingComplete(rules, found);
    hide DbLookup;
    hide EnabledKeys;
    hide EntriesFor;
    hide UniqueKeys;
    hide IsEnabledListing;
    var m := EntriesFor(found);
    var w := WarmedUp(rules, c);
    Overlay(c.entries, m, w.entries);
  }

  lemma EntriesMore(found: seq<Rule>, i: nat)
    requires i < |found|
    ensures EntriesFor(found[..i + 1]) == EntriesFor(found[..i])[found[i].key := found[i].codes]
  {
    assert found[..i + 1][..i] == found[..i];
  }

  lemma ListingNothing()
    ensures EntriesFor([]) == map[]
  {}

  /** Two more commands in the MULTI write and track one more rule. */
  lemma QueueMore(c: Cache<string, seq<string>>, multi: seq<Command<string, seq<string>>>, found: seq<Rule>, i: nat)
    requires i < |found|
    requires var entries := EntriesFor(found[..i]);
             Exec(c, multi) == Cache(c.entries + entries, c.tracked + entries.Keys)
    ensures var entries := EntriesFor(found[..i + 1]); var r := found[i];
            Exec(c, multi + [SetEntry(r.key, r.codes)] + [Track(r.key)]) ==
              Cache(c.entries + entries, c.tracked + entries.Keys)
  {
    hide Exec;
    var r, entries := found[i], EntriesFor(found[..i]);
    ExecPutMore(c, multi, r.key, r.codes);
    assert EntriesFor(found[..i + 1]) == entries[r.key := r.codes] by { EntriesMore(found, i); }
    hide EntriesFor;
    WrittenAfter(c.entries, c.tracked, entries, r.key, r.codes);
  }

  class EndpointPermissionRulesService {
    const perms: map<string, string>
    var rules: Table
    var cache: Cache<string, seq<string>>

    constructor (perms: map<string, string>, rules: Table)
      ensures this.perms == perms && this.rules == rules && cache == Cache(map[], {})
    {
      this.perms, this.rules := perms, rules;
      cache := Cache(map[], {});
    }

    ghost function View(): State
      reads this
    {
      State(perms, rules, cache)
    }

    ghost predicate Valid()
      reads this
    {
      UniqueKeys(rules)
    }

    method FindByEndpointKey(key: string) returns (rule: Option<Rule>)
      requires Valid()
      ensures rule == if HasKey(rules, key) then Some(rules[IdOf(rules, key)]) else None
    {
      if exists id | id in rules :: rules[id].key == key {
        var id :| id in rules && rules[id].key == key;
        assert HasKey(rules, key) && IdOf(rules, key) == id;
        return Some(rules[id]);
      }
      return None;
    }

    method WarmUpCache(f: Faults)
      requires Valid()
      modifies this`cache
      ensures cache == EndpointRules.WarmUpCache(rules, old(cache), f)
    {
      hide UniqueKeys;
      hide IsEnabledListing;
      hide WarmedUp;
      hide Exec;
      hide EntriesFor;
      ListingNothing();
      if !f.read {
        return;
      }
      ghost var listing := EnabledListingExists(rules);
      var found: seq<Rule> :| IsEnabledListing(rules, found);
      ListingWarms(rules, found, cache);
      if |found| == 0 {
        return;
      }
      var multi := QueueAll(found);
      if f.exec.Applied() {
        cache := Exec(cache, multi);
      }
    }

    /** The MULTI of a warm-up, rule by rule. */
    method QueueAll(found: seq<Rule>) returns (multi: seq<Command<string, seq<string>>>)
      ensures var entries := EntriesFor(found);
              Exec(cache, multi) == Cache(cache.entries + entries, cache.tracked + entries.Keys)
    {
      hide EntriesFor;
      hide Exec;
      ListingNothing();
      multi := [];
      ExecNothing(cache);
      for i := 0 to |found|
        invariant var entries := EntriesFor(found[..i]);
                  Exec(cache, multi) == Cache(cache.entries + entries, cache.tracked + entries.Keys)
      {
        QueueMore(cache, multi, found, i);
        multi := multi + [SetEntry(found[i].key, found[i].codes)];
        multi := multi + [Track(found[i].key)];
      }
      assert found[..|found|] == found;
    }

    method LoadRuleToRedis(key: string, f: Faults)
      requires Valid()
      modifies this`cache
      ensures cache == Load(rules, old(cache), key, f)
    {
      if !f.read {
        return;
      }
      var rule := FindByEndpointKey(key);
      if rule.Some? && rule.value.enabled {
        cache := Send(cache, SetEntry(key, rule.value.codes), f.put);
        if f.put.Raised() {
          return;
        }
        cache := Send(cache, Track(key), f.track);
      } else {
        InvalidateRuleCache(key, f);
      }
    }

    method InvalidateRuleCache(key: string, f: Faults)
      modifies this`cache
      ensures cache == Invalidate(old(cache), key, f)
    {
      cache := Send(cache, DelEntry(key), f.del);
      if f.del.Raised() {
        return;
      }
      cache := Send(cache, Untrack(key), f.untrack);
    }

    method GetPermissionsForEndpoint(key: string, f: Faults) returns (answer: Answer)
      requires Valid()
      modifies this`cache
      ensures (View(), answer) == Step(old(View()), Lookup(key), f, NO_FAULTS)
      ensures EndpointRulesCoherence.Coherent(old(View())) && f == NO_FAULTS ==>
        EndpointRulesCoherence.Coherent(View()) && answer == DbLookup(rules, key)
      ensures EndpointRulesFaults.AllRight(old(View())) ==>
        EndpointRulesFaults.AllRight(View()) && (answer == DbLookup(rules, key) || answer == Failure(DbDown))
      ensures f.get && key in old(cache).entries ==> answer == Codes(old(cache).entries[key])
      ensures !(f.get && key in old(cache).entries) && !f.read ==> answer == Failure(DbDown)
      ensures !(f.get && key in old(cache).entries) && f.read ==>
        if forall id | id in rules :: rules[id].key != key then answer == Failure(NotFound)
        else exists id | id in rules && rules[id].key == key ::
          answer == if rules[id].enabled then Codes(rules[id].codes) else Failure(RuleDisabled)
    {
      EndpointRulesEffects.LookupEffect(View(), key, f, NO_FAULTS);
      EndpointRulesFaults.LookupKeeps(View(), key, f);
      hide EndpointRulesCoherence.Coherent;
      hide EndpointRulesFaults.AllRight;
      if f.get && key in cache.entries {
        return Codes(cache.entries[key]);
      }
      if !f.read {
        return Failure(DbDown);
      }
      var rule := FindByEndpointKey(key);
      if rule.None? {
        return Failure(NotFound);
      }
      if !rule.value.enabled {
        return Failure(RuleDisabled);
      }
      cache := Send(cache, SetEntry(key, rule.value.codes), f.put);
      if !f.put.Raised() {
        cache := Send(cache, Track(key), f.track);
      }
      return Codes(rule.value.codes);
    }

    /** The INSERT, UPDATE or DELETE of one row, under the unique constraint. */
    method Save(after: Table, o: Outcome) returns (ok: bool)
      modifies this`rules
      ensures ok == !o.Raised() && rules == if o.Applied() then after else old(rules)
    {
      if o.Applied() {
        rules := after;
      }
      return !o.Raised();
    }

    method Create(id: string, key: string, f: Faults) returns (answer: Answer)
      requires Valid()
      modifies this
      ensures Valid() && (View(), answer) == Step(old(View()), Op.Create(id, key), f, NO_FAULTS)
      ensures EndpointRulesCoherence.Coherent(old(View())) && f == NO_FAULTS ==> EndpointRulesCoherence.Coherent(View())
      ensures EndpointRulesFaults.AllRight(old(View())) ==> EndpointRulesFaults.AllRight(View())
      ensures EndpointRulesEffects.Creates(old(View()), View(), answer, id, key, f.save)
    {
      EndpointRulesEffects.CreateEffect(View(), id, key, f, NO_FAULTS);
      hide EndpointRulesEffects.Creates;
      EndpointRulesFaults.MutationKeeps(View(), Op.Create(id, key), f, NO_FAULTS);
      hide EndpointRulesCoherence.Coherent;
      hide EndpointRulesFaults.AllRight;
      hide EndpointRulesFaults.Harmless;
      var taken := FindByEndpointKey(key);
      if id in rules || taken.Some? {
        return Failure(SaveRejected);
      }
      var ok := Save(rules[id := Rule(key, true, [])], f.save);
      if !ok {
        return Failure(DbDown);
      }
      LoadRuleToRedis(key, f);
      return Answer.Done;
    }

    method Update(id: string, newKey: Option<string>, newEnabled: Option<bool>, f: Faults, g: Faults)
      returns (answer: Answer)
      requires Valid()
      modifies this
      ensures Valid() && (View(), answer) == Step(old(View()), Op.Update(id, newKey, newEnabled), f, g)
      ensures EndpointRulesCoherence.Coherent(old(View())) && f == NO_FAULTS && g == NO_FAULTS && newKey != Some("") ==>
        EndpointRulesCoherence.Coherent(View())
      ensures EndpointRulesFaults.AllRight(old(View())) ==>
        (EndpointRulesFaults.AllRight(View()) <==>
          EndpointRulesFaults.Harmless(old(View()), Op.Update(id, newKey, newEnabled), f))
      ensures EndpointRulesEffects.Updates(old(View()), View(), answer, id, newKey, newEnabled, f.save)
    {
      EndpointRulesEffects.UpdateEffect(View(), id, newKey, newEnabled, f, g);
      hide EndpointRulesEffects.Updates;
      EndpointRulesFaults.MutationKeeps(View(), Op.Update(id, newKey, newEnabled), f, g);
      hide EndpointRulesCoherence.Coherent;
      hide EndpointRulesFaults.AllRight;
      hide EndpointRulesFaults.Harmless;
      if id !in rules {
        return Failure(NotFound);
      }
      var oldKeyName := rules[id].key;
      var merged := Renamed(rules[id], Op.Update(id, newKey, newEnabled));
      if exists j | j in rules :: j != id && rules[j].key == merged.key {
        return Failure(SaveRejected);
      }
      var ok := Save(rules[id := merged], f.save);
      if !ok {
        return Failure(DbDown);
      }
      if newKey.Some? && newKey.value != "" && newKey.value != oldKeyName {
        InvalidateRuleCache(oldKeyName, f);
        LoadRuleToRedis(newKey.value, g);
      } else {
        LoadRuleToRedis(merged.key, f);
      }
      return Answer.Done;
    }

    method Delete(id: string, f: Faults) returns (answer: Answer)
      requires Valid()
      modifies this
      ensures Valid() && (View(), answer) == Step(old(View()), Op.Delete(id), f, NO_FAULTS)
      ensures EndpointRulesCoherence.Coherent(old(View())) && f == NO_FAULTS ==> EndpointRulesCoherence.Coherent(View())
      ensures EndpointRulesFaults.AllRight(old(View())) ==>
        (EndpointRulesFaults.AllRight(View()) <==> EndpointRulesFaults.Harmless(old(View()), Op.Delete(id), f))
      ensures EndpointRulesEffects.Deletes(old(View()), View(), answer, id, f.save)
    {
      EndpointRulesEffects.DeleteEffect(View(), id, f, NO_FAULTS);
      hide EndpointRulesEffects.Deletes;
      EndpointRulesFaults.MutationKeeps(View(), Op.Delete(id), f, NO_FAULTS);
      hide EndpointRulesCoherence.Coherent;
      hide EndpointRulesFaults.AllRight;
      hide EndpointRulesFaults.Harmless;
      if id !in rules {
        return Failure(NotFound);
      }
      var key := rules[id].key;
      var ok := Save(rules - {id}, f.save);
      if !ok {
        return Failure(DbDown);
      }
      InvalidateRuleCache(key, f);
      return Answer.Done;
    }

    method AssignPermissions(id: string, permissionIds: seq<string>, f: Faults) returns (answer: Answer)
      requires Valid()
      modifies this
      ensures Valid() && (View(), answer) == Step(old(View()), Assign(id, permissionIds), f, NO_FAULTS)
      ensures EndpointRulesCoherence.Coherent(old(View())) && f == NO_FAULTS ==> EndpointRulesCoherence.Coherent(View())
      ensures EndpointRulesFaults.AllRight(old(View())) ==>
        (EndpointRulesFaults.AllRight(View()) <==>
          EndpointRulesFaults.Harmless(old(View()), Assign(id, permissionIds), f))
      ensures EndpointRulesEffects.Assigns(old(View()), View(), answer, id, permissionIds, f.save)
    {
      EndpointRulesEffects.AssignEffect(View(), id, permissionIds, f, NO_FAULTS);
      hide EndpointRulesEffects.Assigns;
      EndpointRulesFaults.MutationKeeps(View(), Assign(id, permissionIds), f, NO_FAULTS);
      hide EndpointRulesCoherence.Coherent;
      hide EndpointRulesFaults.AllRight;
      hide EndpointRulesFaults.Harmless;
      if id !in rules {
        return Failure(NotFound);
      }
      var codes := Permissions.CodesFor(perms, permissionIds);
      if codes.None? {
        return Failure(PermissionNotFound);
      }
      var ok := Save(rules[id := rules[id].(codes := codes.value)], f.save);
      if !ok {
        return Failure(DbDown);
      }
      LoadRuleToRedis(rules[id].key, f);
      return Answer.Done;
    }

    method EnableRule(id: string, f: Faults) returns (answer: Answer)
      requires Valid()
      modifies this
      ensures Valid() && (View(), answer) == Step(old(View()), Enable(id), f, NO_FAULTS)
      ensures EndpointRulesCoherence.Coherent(old(View())) && f == NO_FAULTS ==> EndpointRulesCoherence.Coherent(View())
      ensures EndpointRulesFaults.AllRight(old(View())) ==>
        (EndpointRulesFaults.AllRight(View()) <==> EndpointRulesFaults.Harmless(old(View()), Enable(id), f))
      ensures EndpointRulesEffects.Enables(old(View()), View(), answer, id, f.save)
    {
      EndpointRulesEffects.EnableEffect(View(), id, f, NO_FAULTS);
      hide EndpointRulesEffects.Enables;
      EndpointRulesFaults.MutationKeeps(View(), Enable(id), f, NO_FAULTS);
      hide EndpointRulesCoherence.Coherent;
      hide EndpointRulesFaults.AllRight;
      hide EndpointRulesFaults.Harmless;
      if id !in rules {
        return Failure(NotFound);
      }
      if rules[id].enabled {
        return Failure(AlreadyEnabled);
      }
      var ok := Save(rules[id := rules[id].(enabled := true)], f.save);
      if !ok {
        return Failure(DbDown);
      }
      LoadRuleToRedis(rules[id].key, f);
      return Answer.Done;
    }

    method DisableRule(id: string, f: Faults) returns (answer: Answer)
      requires Valid()
      modifies this
      ensures Valid() && (View(), answer) == Step(old(View()), Disable(id), f, NO_FAULTS)
      ensures EndpointRulesCoherence.Coherent(old(View())) && f == NO_FAULTS ==> EndpointRulesCoherence.Coherent(View())
      ensures EndpointRulesFaults.AllRight(old(View())) ==>
        (EndpointRulesFaults.AllRight(View()) <==> EndpointRulesFaults.Harmless(old(View()), Disable(id), f))
      ensures EndpointRulesEffects.Disables(old(View()), View(), answer, id, f.save)
    {
      EndpointRulesEffects.DisableEffect(View(), id, f, NO_FAULTS);
      hide EndpointRulesEffects.Disables;
      EndpointRulesFaults.MutationKeeps(View(), Disable(id), f, NO_FAULTS);
      hide EndpointRulesCoherence.Coherent;
      hide EndpointRulesFaults.AllRight;
      hide EndpointRulesFaults.Harmless;
      if id !in rules {
        return Failure(NotFound);
      }
      if !rules[id].enabled {
        return Failure(AlreadyDisabled);
      }
      var ok := Save(rules[id := rules[id].(enabled := false)], f.save);
      if !ok {
        return Failure(DbDown);
      }
      InvalidateRuleCache(rules[id].key, f);
      return Answer.Done;
    }
  }

  /** The hourly job: delete what is tracked, then warm up again. */
  class EprCacheReconciliationService {
    const service: EndpointPermissionRulesService

    constructor (service: EndpointPermissionRulesService)
      ensures this.service == service
    {
      this.service := service;
    }

    method HandleCacheReconciliation(f: Faults, g: Faults)
      requires service.Valid()
      modifies service`cache
      ensures (service.View(), Answer.Done) == Step(old(service.View()), Reconcile, f, g)
      ensures f == NO_FAULTS && g == NO_FAULTS ==>
        && service.cache.tracked == EnabledKeys(service.rules)
        && (forall k | k in service.cache.tracked ::
              k in service.cache.entries && DbLookup(service.rules, k) == Codes(service.cache.entries[k]))
        && (EndpointRulesCoherence.Coherent(service.View()) <==>
             old(service.cache).Untracked() <= EnabledKeys(service.rules))
    {
      EndpointRulesCoherence.ReconcileRepairs(service.View());
      EndpointRulesCoherence.ReconcileRestoresIff(service.View());
      hide EndpointRulesCoherence.Coherent;
      hide DbLookup;
      hide EnabledKeys;
      DeleteStaleKeys(f);
      service.WarmUpCache(g);
    }

    method DeleteStaleKeys(f: Faults)
      modifies service`cache
      ensures service.cache == EndpointRules.DeleteStaleKeys(old(service.cache), f)
    {
      if !f.members {
        return;
      }
      var keysToDelete := service.cache.tracked;
      if keysToDelete == {} {
        return;
      }
      var multi: seq<Command<string, seq<string>>> := [];
      var left := keysToDelete;
      while left != {}
        invariant service.cache == old(service.cache) && left <= keysToDelete
        invariant Exec(service.cache, multi)
               == Cache(service.cache.entries - (keysToDelete - left), service.cache.tracked)
        decreases |left|
      {
        var key :| key in left;
        ExecMore(service.cache, multi, DelEntry(key));
        multi := multi + [DelEntry(key)];
        left := left - {key};
      }
      ExecMore(service.cache, multi, DropTracking);
      multi := multi + [DropTracking];
      if f.exec.Applied() {
        service.cache := Exec(service.cache, multi);
      }
    }
  }
}
