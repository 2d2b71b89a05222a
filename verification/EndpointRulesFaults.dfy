/** How the endpoint-rule cache goes stale: exactly when an operation leaves a wrong entry behind, and
    under which keys a run can have left one. */
module EndpointRulesFaults {
  import opened Common
  import opened TrackedCache
  import opened EndpointRules
  import opened EndpointRulesCoherence
  import Permissions

  /** The entry under the key is not what the table says. */
  ghost predicate Wrong(s: State, k: string) {
    k in s.cache.entries && DbLookup(s.rules, k) != Codes(s.cache.entries[k])
  }

  /** No entry is wrong; tracking aside. */
  ghost predicate AllRight(s: State) {
    UniqueKeys(s.rules) && forall k :: !Wrong(s, k)
  }

  // ----- One mutation -----

  /** The mutation makes the entry under its rule's present key name wrong. */
  predicate Outdates(s: State, op: Op)
    requires Mutates(op) && (!op.Create? ==> op.id in s.rules)
  {
    !op.Create? && s.rules[op.id].key in s.cache.entries &&
    match op
    case Delete(_) => true
    case Disable(_) => true
    case Assign(_, permissionIds) => Permissions.CodesFor(s.perms, permissionIds) != Some(s.rules[op.id].codes)
    case Update(_, _, _) => Renamed(s.rules[op.id], op) != s.rules[op.id]
    case _ => false
  }

  /** The command that would put this right is sent and carried out: the save is confirmed, and then the
      old key is deleted, or the rule is read again and its entry written or deleted. */
  predicate Repairs(s: State, op: Op, f: Faults)
    requires Mutates(op) && (!op.Create? ==> op.id in s.rules)
  {
    f.save.Done? &&
    match op
    case Delete(_) => f.del.Applied()
    case Disable(_) => f.del.Applied()
    case Assign(_, _) => f.read && f.put.Applied()
    case Update(_, newKey, _) =>
      if newKey.Some? && newKey.value != s.rules[op.id].key then newKey.value != "" && f.del.Applied()
      else f.read && f.del.Applied()
    case _ => true
  }

  /** Exactly when a mutation that is not refused leaves every entry right, whatever Postgres and Redis do:
      it was not saved, or it outdates no entry, or what repairs that entry is carried out. */
  lemma MutationRightIff(s: State, op: Op, f: Faults, g: Faults)
    requires AllRight(s) && Mutates(op) && Mutate(s.perms, s.rules, op).Ok?
    ensures op.Create? || op.id in s.rules
    ensures AllRight(Step(s, op, f, g).0) <==> f.save.Failed? || !Outdates(s, op) || Repairs(s, op, f)
  {
    OnlyOneRow(s.perms, s.rules, op);
    var after := Mutate(s.perms, s.rules, op).value;
    var t := Step(s, op, f, g).0;
    MutateKeepsUnique(s.perms, s.rules, op);
    if f.save.Applied() {
      forall k | k !in TouchedKeys(s.rules, after, op.id) ensures !Wrong(t, k) {
        UntouchedStays(s, op, f, g, k);
      }
      if op.id in after {
        NewKeyRight(s, op, f, g);
      }
      if op.id in s.rules {
        OldKeyRightIff(s, op, f, g);
      }
    }
    hide Step;
    hide Mutate;
    hide Wrong;
    hide Outdates;
    hide Repairs;
  }

  /** The mutation is refused, or it leaves every entry right that was. */
  ghost predicate Harmless(s: State, op: Op, f: Faults)
    requires Mutates(op)
  {
    Mutate(s.perms, s.rules, op).Ok? ==>
      f.save.Failed? || op.Create? || !Outdates(s, op) || Repairs(s, op, f)
  }

  /** What the methods of the service rely on, and pass on to their callers. */
  lemma MutationKeeps(s: State, op: Op, f: Faults, g: Faults)
    requires UniqueKeys(s.rules) && Mutates(op)
    ensures UniqueKeys(Step(s, op, f, g).0.rules)
    ensures Coherent(s) && Validated(op) && f == NO_FAULTS && g == NO_FAULTS ==> Coherent(Step(s, op, f, g).0)
    ensures AllRight(s) ==> (AllRight(Step(s, op, f, g).0) <==> Harmless(s, op, f))
  {
    UniqueKept(s, op, f, g);
    if Coherent(s) && Validated(op) && f == NO_FAULTS && g == NO_FAULTS {
      CoherentStep(s, op);
    }
    if Mutate(s.perms, s.rules, op).Ok? {
      if AllRight(s) { MutationRightIff(s, op, f, g); }
    } else {
      assert Step(s, op, f, g).0 == s;
    }
    hide Step;
    hide Coherent;
    hide AllRight;
  }

  /** Reading through the cache answers what the table says, or that neither store could be read, and
      leaves every entry right. */
  lemma LookupKeeps(s: State, key: string, f: Faults)
    requires UniqueKeys(s.rules)
    ensures var (t, a) := Step(s, Lookup(key), f, NO_FAULTS);
            && (AllRight(s) ==> AllRight(t) && (a == DbLookup(s.rules, key) || a == Failure(DbDown)))
            && (Coherent(s) && f == NO_FAULTS ==> Coherent(t) && a == DbLookup(s.rules, key))
  {
    hide Mutate;
    hide DbLookup;
    hide UniqueKeys;
    assert AllRight(s) ==> !Wrong(s, key);
    var t := Step(s, Lookup(key), f, NO_FAULTS).0;
    forall k | AllRight(s) ensures !Wrong(t, k) {
      assert !Wrong(s, k);
    }
  }

  /** The same for one key, whatever lies under the others. */
  lemma LookupRight(s: State, key: string, f: Faults)
    requires UniqueKeys(s.rules) && !Wrong(s, key)
    ensures var a := Step(s, Lookup(key), f, NO_FAULTS).1; a == DbLookup(s.rules, key) || a == Failure(DbDown)
  {
    hide Mutate;
    hide DbLookup;
    hide UniqueKeys;
  }

  /** A key that is neither the old nor the new name of the rule. */
  lemma UntouchedStays(s: State, op: Op, f: Faults, g: Faults, k: string)
    requires UniqueKeys(s.rules) && Mutates(op) && Mutate(s.perms, s.rules, op).Ok?
    requires k !in TouchedKeys(s.rules, Mutate(s.perms, s.rules, op).value, op.id)
    ensures Wrong(Step(s, op, f, g).0, k) <==> Wrong(s, k)
  {
    OnlyOneRow(s.perms, s.rules, op);
    var after := Mutate(s.perms, s.rules, op).value;
    var t := Step(s, op, f, g).0;
    MutationFrame(s.perms, s.rules, op, k);
    assert && (k in t.cache.entries <==> k in s.cache.entries)
           && (k in s.cache.entries ==> t.cache.entries[k] == s.cache.entries[k])
    by {
      hide DbLookup;
      MaintainElsewhere(s.rules, after, s.cache, op, f, g, k);
    }
    assert t.rules == s.rules || t.rules == after by { hide Maintain; hide DbLookup; }
    hide Step;
    hide Mutate;
    hide DbLookup;
  }

  lemma MaintainElsewhere(before: Table, after: Table, c: Cache<string, seq<string>>, op: Op, f: Faults, g: Faults,
                          k: string)
    requires Mutates(op) && (op.Create? ==> op.id in after) && (!op.Create? ==> op.id in before)
    requires !op.Delete? ==> op.id in after
    requires op.Update? && op.newKey.Some? ==> after[op.id].key == op.newKey.value
    requires k !in TouchedKeys(before, after, op.id)
    ensures var d := Maintain(before, after, c, op, f, g);
            (k in d.entries <==> k in c.entries) && (k in c.entries ==> d.entries[k] == c.entries[k])
  {
    hide DbLookup;
  }

  /** The new name of a rule held no entry, or is the old name too. */
  lemma NewKeyRight(s: State, op: Op, f: Faults, g: Faults)
    requires AllRight(s) && Mutates(op) && Mutate(s.perms, s.rules, op).Ok? && f.save.Applied()
    requires var after := Mutate(s.perms, s.rules, op).value; op.id in after
    ensures var key := Mutate(s.perms, s.rules, op).value[op.id].key;
            (op.id !in s.rules || key != s.rules[op.id].key) ==> !Wrong(Step(s, op, f, g).0, key)
  {
    var after := Mutate(s.perms, s.rules, op).value;
    var key := after[op.id].key;
    MutateKeepsUnique(s.perms, s.rules, op);
    LookupById(after, op.id);
    if op.id !in s.rules || key != s.rules[op.id].key {
      assert !HasKey(s.rules, key);
      assert !Wrong(s, key);
      assert key !in s.cache.entries by { NoSuchKey(s.rules, key); }
    }
  }

  /** The old name of a rule, by what the table says of it afterwards. */
  lemma OldKeyRightIff(s: State, op: Op, f: Faults, g: Faults)
    requires AllRight(s) && Mutates(op) && Mutate(s.perms, s.rules, op).Ok? && f.save.Applied()
    requires op.id in s.rules && !op.Create?
    ensures !Wrong(Step(s, op, f, g).0, s.rules[op.id].key) <==> !Outdates(s, op) || Repairs(s, op, f)
  {
    var after := Mutate(s.perms, s.rules, op).value;
    var key := s.rules[op.id].key;
    LookupAfter(s, op);
    assert !Wrong(s, key);
    hide AllRight;
    if op.Update? {
      OldKeyUpdate(s, op, f, g);
    } else {
      hide DbLookup;
    }
  }

  /** What the table says of the old name before and after. */
  lemma LookupAfter(s: State, op: Op)
    requires UniqueKeys(s.rules) && Mutates(op) && Mutate(s.perms, s.rules, op).Ok? && op.id in s.rules && !op.Create?
    ensures var after := Mutate(s.perms, s.rules, op).value; var rule := s.rules[op.id];
            && DbLookup(s.rules, rule.key) == (if rule.enabled then Codes(rule.codes) else Failure(RuleDisabled))
            && DbLookup(after, rule.key) == (if op.id !in after || after[op.id].key != rule.key then Failure(NotFound)
                                             else if after[op.id].enabled then Codes(after[op.id].codes)
                                             else Failure(RuleDisabled))
  {
    var after := Mutate(s.perms, s.rules, op).value;
    var key := s.rules[op.id].key;
    MutateKeepsUnique(s.perms, s.rules, op);
    LookupById(s.rules, op.id);
    OnlyOneRow(s.perms, s.rules, op);
    hide Mutate;
    if op.id in after && after[op.id].key == key {
      LookupById(after, op.id);
    } else {
      assert !HasKey(after, key);
      NoSuchKey(after, key);
    }
  }

  lemma OldKeyUpdate(s: State, op: Op, f: Faults, g: Faults)
    requires UniqueKeys(s.rules) && op.Update? && Mutate(s.perms, s.rules, op).Ok? && f.save.Applied()
    requires !Wrong(s, s.rules[op.id].key)
    ensures !Wrong(Step(s, op, f, g).0, s.rules[op.id].key) <==> !Outdates(s, op) || Repairs(s, op, f)
  {
    var after := s.rules[op.id := Renamed(s.rules[op.id], op)];
    assert Mutate(s.perms, s.rules, op) == Ok(after);
    LookupAfter(s, op);
    assert f.save.Done? ==>
      Step(s, op, f, g).0 == s.(rules := after, cache := Maintain(s.rules, after, s.cache, op, f, g));
    assert f.save.Lost? ==> Step(s, op, f, g).0 == s.(rules := after);
    hide DbLookup;
    hide UniqueKeys;
    hide Mutate;
    hide Step;
    if f.save.Done? {
      UpdateEntry(s.rules, after, s.cache, op, f, g);
    }
    hide Maintain;
  }

  /** What the maintenance of an update leaves under the old name: nothing if its deletion is sent and
      carried out, the codes of the rule if their writing is, and otherwise what was there. */
  lemma UpdateEntry(before: Table, after: Table, c: Cache<string, seq<string>>, op: Op, f: Faults, g: Faults)
    requires op.Update? && op.id in before && op.id in after && after[op.id] == Renamed(before[op.id], op)
    ensures var key, d := before[op.id].key, Maintain(before, after, c, op, f, g);
            var renamed := op.newKey.Some? && op.newKey.value != "" && op.newKey.value != key;
            var loaded := !renamed && after[op.id].key == key && f.read;
            if (renamed || (loaded && !DbLookup(after, key).Codes?)) && f.del.Applied() then key !in d.entries
            else if loaded && DbLookup(after, key).Codes? && f.put.Applied()
            then key in d.entries && d.entries[key] == DbLookup(after, key).codes
            else (key in d.entries <==> key in c.entries) && (key in c.entries ==> d.entries[key] == c.entries[key])
  {
    hide DbLookup;
  }

  // ----- A run that shows it -----

  /** Disabling a cached rule while Redis refuses the delete is answered with success, and the endpoint
      goes on being served from the cache, faults or no faults. */
  lemma StaleDisable(s: State, id: string, f: Faults, g: Faults)
    requires Coherent(s) && id in s.rules && s.rules[id].enabled && s.rules[id].key in s.cache.entries
    requires f.save.Done? && f.del.Failed?
    ensures var (t, a) := Step(s, Disable(id), f, g); var key := s.rules[id].key;
            && a == Answer.Done && DbLookup(t.rules, key) == Failure(RuleDisabled) && Wrong(t, key)
            && Step(t, Lookup(key), NO_FAULTS, NO_FAULTS) == (t, Codes(s.rules[id].codes))
  {
    var after := s.rules[id := s.rules[id].(enabled := false)];
    assert Mutate(s.perms, s.rules, Disable(id)) == Ok(after);
    MutateKeepsUnique(s.perms, s.rules, Disable(id));
    LookupById(after, id);
    LookupById(s.rules, id);
    assert DbLookup(s.rules, s.rules[id].key) == Codes(s.cache.entries[s.rules[id].key]);
  }

  // ----- Runs -----

  /** Loading a key ends with its entry written or deleted. */
  ghost predicate Loads(rules: Table, key: string, f: Faults) {
    f.read && if DbLookup(rules, key).Codes? then f.put.Applied() else f.del.Applied()
  }

  /** The keys whose entries the operation brings in line with the table. */
  ghost function Maintained(s: State, op: Op, f: Faults, g: Faults): set<string> {
    match op
    case Lookup(key) =>
      if !(f.get && key in s.cache.entries) && f.read && DbLookup(s.rules, key).Codes? && f.put.Applied()
      then {key} else {}
    case WarmUp => if f.read && f.exec.Applied() then EnabledKeys(s.rules) else {}
    case Reconcile =>
      (if f.members && f.exec.Applied() then s.cache.tracked else {})
        + if g.read && g.exec.Applied() then EnabledKeys(s.rules) else {}
    case RedisRestart => s.cache.entries.Keys
    case _ =>
      match Mutate(s.perms, s.rules, op)
      case Err(_) => {}
      case Ok(after) => if f.save.Raised() then {} else MaintainedBy(s.rules, after, op, f, g)
  }

  ghost function MaintainedBy(before: Table, after: Table, op: Op, f: Faults, g: Faults): set<string>
    requires Mutates(op) && (op.Create? ==> op.id in after) && (!op.Create? ==> op.id in before)
    requires !op.Delete? ==> op.id in after
  {
    match op
    case Delete(id) => if f.del.Applied() then {before[id].key} else {}
    case Disable(id) => if f.del.Applied() then {before[id].key} else {}
    case Update(id, newKey, _) =>
      if newKey.Some? && newKey.value != "" && newKey.value != before[id].key
      then
        (if f.del.Applied() then {before[id].key} else {})
          + if Loads(after, newKey.value, g) then {newKey.value} else {}
      else if Loads(after, after[id].key, f) then {after[id].key} else {}
    case _ => if Loads(after, after[op.id].key, f) then {after[op.id].key} else {}
  }

  /** The keys about which the operation may have changed what the table says. */
  ghost function Touched(s: State, op: Op, f: Faults): set<string> {
    if Mutates(op) && Mutate(s.perms, s.rules, op).Ok? && f.save.Applied()
    then TouchedKeys(s.rules, Mutate(s.perms, s.rules, op).value, op.id) else {}
  }

  /** After an operation an entry is right if the operation brought it in line; otherwise it is wrong at
      most if it was, or if the operation touched its key. */
  lemma WrongStep(s: State, op: Op, f: Faults, g: Faults, k: string)
    requires UniqueKeys(s.rules) && Wrong(Step(s, op, f, g).0, k)
    ensures k !in Maintained(s, op, f, g) && (Wrong(s, k) || k in Touched(s, op, f))
  {
    if Mutates(op) {
      if Mutate(s.perms, s.rules, op).Ok? {
        WrongMutation(s, op, f, g, k);
      }
    } else {
      hide Mutate;
      hide DbLookup;
    }
  }

  lemma WrongMutation(s: State, op: Op, f: Faults, g: Faults, k: string)
    requires UniqueKeys(s.rules) && Mutates(op) && Mutate(s.perms, s.rules, op).Ok?
    requires Wrong(Step(s, op, f, g).0, k)
    ensures k !in Maintained(s, op, f, g) && (Wrong(s, k) || k in Touched(s, op, f))
  {
    var after := Mutate(s.perms, s.rules, op).value;
    OnlyOneRow(s.perms, s.rules, op);
    MutateKeepsUnique(s.perms, s.rules, op);
    if k !in TouchedKeys(s.rules, after, op.id) {
      UntouchedStays(s, op, f, g, k);
    }
    if f.save.Done? {
      assert op.Update? && op.newKey.Some? ==> after[op.id].key == op.newKey.value;
      if op.Disable? { LookupById(after, op.id); }
      if op.Delete? || (op.Update? && after[op.id].key != s.rules[op.id].key) {
        assert !HasKey(after, s.rules[op.id].key);
        NoSuchKey(after, s.rules[op.id].key);
      }
      assert Step(s, op, f, g).0 == s.(rules := after, cache := Maintain(s.rules, after, s.cache, op, f, g));
      hide Mutate;
      hide Step;
      MaintainedRight(s.rules, after, s.cache, op, f, g, k);
    }
    hide DbLookup;
    hide UniqueKeys;
  }

  lemma MaintainedRight(before: Table, after: Table, c: Cache<string, seq<string>>, op: Op, f: Faults, g: Faults,
                        k: string)
    requires Mutates(op) && (op.Create? ==> op.id in after) && (!op.Create? ==> op.id in before)
    requires !op.Delete? ==> op.id in after
    requires op.Update? && op.newKey.Some? ==> after[op.id].key == op.newKey.value
    ensures var d := Maintain(before, after, c, op, f, g);
            k in MaintainedBy(before, after, op, f, g) && k in d.entries ==> DbLookup(after, k) == Codes(d.entries[k])
  {
    hide DbLookup;
  }

  /** The state before the i-th call. */
  ghost function Before(s: State, calls: seq<Call>, i: nat): State
    requires i <= |calls|
  {
    RunCalls(s, calls[..i])
  }

  lemma {:induction false} RunMore(s: State, calls: seq<Call>, c: Call)
    ensures RunCalls(s, calls + [c]) == Step(RunCalls(s, calls), c.op, c.f, c.g).0
    decreases |calls|
  {
    hide Step;
    if calls == [] {
      assert ([] + [c])[1..] == [];
    } else {
      assert (calls + [c])[1..] == calls[1..] + [c];
      RunMore(Step(s, calls[0].op, calls[0].f, calls[0].g).0, calls[1..], c);
    }
  }

  /** The i-th call touches the key, and neither it nor any later call brings its entry in line. */
  ghost predicate LeftAt(s: State, calls: seq<Call>, k: string, i: nat)
    requires i < |calls|
  {
    && k in Touched(Before(s, calls, i), calls[i].op, calls[i].f)
    && forall j | i <= j < |calls| :: k !in Maintained(Before(s, calls, j), calls[j].op, calls[j].f, calls[j].g)
  }

  /** Over every run under any faults, an entry is wrong only if some call changed what the table says of
      its key without bringing the entry in line, and no later call did; or if it was wrong to begin with
      and no call brought it in line. */
  lemma {:induction false} WrongOnlyIfLeft(s: State, calls: seq<Call>, k: string)
    requires UniqueKeys(s.rules) && Wrong(RunCalls(s, calls), k)
    ensures UniqueKeys(RunCalls(s, calls).rules)
    ensures || (Wrong(s, k) && forall j | 0 <= j < |calls| ::
                  k !in Maintained(Before(s, calls, j), calls[j].op, calls[j].f, calls[j].g))
            || exists i | 0 <= i < |calls| :: LeftAt(s, calls, k, i)
    decreases |calls|
  {
    hide Step;
    hide Wrong;
    hide Maintained;
    hide Touched;
    if calls != [] {
      var n := |calls| - 1;
      var prefix, c := calls[..n], calls[n];
      assert calls == prefix + [c];
      RunMore(s, prefix, c);
      var last := RunCalls(s, prefix);
      UniqueRun(s, prefix);
      UniqueKept(last, c.op, c.f, c.g);
      WrongStep(last, c.op, c.f, c.g, k);
      assert forall j | 0 <= j <= n :: calls[..j] == prefix[..j];
      if k in Touched(last, c.op, c.f) {
        assert LeftAt(s, calls, k, n);
      } else {
        WrongOnlyIfLeft(s, prefix, k);
        if i :| 0 <= i < n && LeftAt(s, prefix, k, i) {
          assert LeftAt(s, calls, k, i);
        }
      }
    }
  }

  lemma {:induction false} UniqueRun(s: State, calls: seq<Call>)
    requires UniqueKeys(s.rules)
    ensures UniqueKeys(RunCalls(s, calls).rules)
    decreases |calls|
  {
    if calls != [] {
      UniqueKept(s, calls[0].op, calls[0].f, calls[0].g);
      hide Step;
      UniqueRun(Step(s, calls[0].op, calls[0].f, calls[0].g).0, calls[1..]);
    }
  }
}
