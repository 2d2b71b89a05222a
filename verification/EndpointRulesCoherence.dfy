/** What the endpoint-rule cache guarantees: without faults it cannot be told from the table, and
    reconciliation repairs all of it except untracked entries. */
module EndpointRulesCoherence {
  import opened Common
  import opened TrackedCache
  import opened EndpointRules

  /** Every cached entry is what the table says, and the tracking set names exactly the cached keys. */
  ghost predicate Coherent(s: State) {
    && UniqueKeys(s.rules)
    && s.cache.tracked == s.cache.entries.Keys
    && forall k | k in s.cache.entries :: DbLookup(s.rules, k) == Codes(s.cache.entries[k])
  }

  /** The request validation that reaches this service: a new key name is never empty. */
  predicate Validated(op: Op) {
    op.Update? && op.newKey.Some? ==> op.newKey.value != ""
  }

  // ----- The service without a cache -----

  /** The same service answering every lookup from the table. */
  ghost function PlainStep(perms: map<string, string>, rules: Table, op: Op): (Table, Answer) {
    match op
    case Lookup(key) => (rules, DbLookup(rules, key))
    case WarmUp => (rules, Answer.Done)
    case Reconcile => (rules, Answer.Done)
    case RedisRestart => (rules, Answer.Done)
    case _ =>
      match Mutate(perms, rules, op)
      case Err(e) => (rules, Failure(e))
      case Ok(after) => (after, Answer.Done)
  }

  ghost function PlainAnswers(perms: map<string, string>, rules: Table, ops: seq<Op>): seq<Answer>
    decreases |ops|
  {
    if ops == [] then []
    else [PlainStep(perms, rules, ops[0]).1] + PlainAnswers(perms, PlainStep(perms, rules, ops[0]).0, ops[1..])
  }

  ghost function Answers(s: State, ops: seq<Op>): seq<Answer>
    decreases |ops|
  {
    if ops == [] then []
    else
      var r := Step(s, ops[0], NO_FAULTS, NO_FAULTS);
      [r.1] + Answers(r.0, ops[1..])
  }

  ghost function After(s: State, ops: seq<Op>): State
    decreases |ops|
  {
    if ops == [] then s else After(Step(s, ops[0], NO_FAULTS, NO_FAULTS).0, ops[1..])
  }

  // ----- One mutation -----

  /** A mutation changes what the table says about the old and the new key of its rule, and about no
      other key. */
  lemma MutationFrame(perms: map<string, string>, rules: Table, op: Op, k: string)
    requires UniqueKeys(rules) && Mutates(op) && Mutate(perms, rules, op).Ok?
    requires var after := Mutate(perms, rules, op).value;
             (op.id in rules ==> rules[op.id].key != k) && (op.id in after ==> after[op.id].key != k)
    ensures DbLookup(Mutate(perms, rules, op).value, k) == DbLookup(rules, k)
  {
    var after := Mutate(perms, rules, op).value;
    MutateKeepsUnique(perms, rules, op);
    hide Mutate;
    assert forall id | id != op.id :: (id in rules <==> id in after) && (id in rules ==> rules[id] == after[id]) by {
      OnlyOneRow(perms, rules, op);
    }
    if HasKey(rules, k) {
      var id := IdOf(rules, k);
      LookupById(rules, id);
      LookupById(after, id);
    } else {
      assert !HasKey(after, k);
    }
  }

  lemma OnlyOneRow(perms: map<string, string>, rules: Table, op: Op)
    requires Mutates(op) && Mutate(perms, rules, op).Ok?
    ensures var after := Mutate(perms, rules, op).value;
            forall id | id != op.id :: (id in rules <==> id in after) && (id in rules ==> rules[id] == after[id])
    ensures op.Create? || op.id in rules
    ensures op.id in Mutate(perms, rules, op).value <==> !op.Delete?
  {}

  /** The key names a mutation's rule had before and has after. */
  ghost function TouchedKeys(before: Table, after: Table, id: string): set<string> {
    (if id in before then {before[id].key} else {}) + (if id in after then {after[id].key} else {})
  }

  /** Fault-free maintenance re-reads or drops every touched key and leaves the other entries alone. */
  lemma MaintainExact(s: State, op: Op)
    requires UniqueKeys(s.rules) && Mutates(op) && Validated(op) && Mutate(s.perms, s.rules, op).Ok?
    requires s.cache.tracked == s.cache.entries.Keys
    ensures var after := Mutate(s.perms, s.rules, op).value;
            var c := Step(s, op, NO_FAULTS, NO_FAULTS).0.cache;
            var touched := TouchedKeys(s.rules, after, op.id);
            && c.tracked == c.entries.Keys
            && (forall k | k !in touched :: (k in c.entries <==> k in s.cache.entries)
                                         && (k in c.entries ==> c.entries[k] == s.cache.entries[k]))
            && (forall k | k in touched && k in c.entries :: DbLookup(after, k) == Codes(c.entries[k]))
  {
    var after := Mutate(s.perms, s.rules, op).value;
    MutateKeepsUnique(s.perms, s.rules, op);
    OnlyOneRow(s.perms, s.rules, op);
    if op.id in after {
      LookupById(after, op.id);
    }
  }

  lemma CoherentMutation(s: State, op: Op)
    requires Coherent(s) && Mutates(op) && Validated(op) && Mutate(s.perms, s.rules, op).Ok?
    ensures Coherent(Step(s, op, NO_FAULTS, NO_FAULTS).0)
  {
    var after := Mutate(s.perms, s.rules, op).value;
    MutateKeepsUnique(s.perms, s.rules, op);
    MaintainExact(s, op);
    var t := Step(s, op, NO_FAULTS, NO_FAULTS).0;
    assert t.rules == after;
    forall k | k in t.cache.entries ensures DbLookup(after, k) == Codes(t.cache.entries[k]) {
      if k !in TouchedKeys(s.rules, after, op.id) {
        MutationFrame(s.perms, s.rules, op, k);
      }
    }
  }

  // ----- Reading through the cache -----

  lemma CoherentStep(s: State, op: Op)
    requires Coherent(s) && Validated(op)
    ensures var r := Step(s, op, NO_FAULTS, NO_FAULTS);
            Coherent(r.0) && r.0.perms == s.perms && (r.0.rules, r.1) == PlainStep(s.perms, s.rules, op)
  {
    if Mutates(op) {
      if Mutate(s.perms, s.rules, op).Ok? {
        CoherentMutation(s, op);
      }
    } else {
      CoherentRead(s, op);
    }
    hide Coherent;
    hide DbLookup;
    hide Maintain;
  }

  /** Reading and cache maintenance change no row. */
  lemma CoherentRead(s: State, op: Op)
    requires Coherent(s) && !Mutates(op)
    ensures var r := Step(s, op, NO_FAULTS, NO_FAULTS);
            Coherent(r.0) && r.0.perms == s.perms && (r.0.rules, r.1) == PlainStep(s.perms, s.rules, op)
  {
    hide Mutate;
    hide DbLookup;
    hide UniqueKeys;
  }

  /** Every fault-free sequence of operations answers exactly as the service without a cache does: an
      empty list is told from a missing or a disabled rule, and after every operation the cached keys
      are the tracked ones and each is right. */
  lemma {:induction false} ReadThroughRefinement(s: State, ops: seq<Op>)
    requires Coherent(s) && forall op | op in ops :: Validated(op)
    ensures Answers(s, ops) == PlainAnswers(s.perms, s.rules, ops)
    ensures Coherent(After(s, ops))
    decreases |ops|
  {
    if ops != [] {
      CoherentStep(s, ops[0]);
      ReadThroughRefinement(Step(s, ops[0], NO_FAULTS, NO_FAULTS).0, ops[1..]);
    }
  }

  /** Exactly when a key-name update keeps the cache right. An empty new name, which request
      validation rejects, would leave the entry of the old name behind. */
  lemma UpdateCoherentIff(s: State, op: Op)
    requires Coherent(s) && op.Update? && Mutate(s.perms, s.rules, op).Ok?
    ensures Coherent(Step(s, op, NO_FAULTS, NO_FAULTS).0) <==>
            !(op.newKey == Some("") && s.rules[op.id].key != "" && s.rules[op.id].key in s.cache.entries)
  {
    if Validated(op) {
      CoherentMutation(s, op);
    } else {
      var after := Mutate(s.perms, s.rules, op).value;
      MutateKeepsUnique(s.perms, s.rules, op);
      var t := Step(s, op, NO_FAULTS, NO_FAULTS).0;
      assert t == s.(rules := after, cache := Load(after, s.cache, "", NO_FAULTS));
      OnlyOneRow(s.perms, s.rules, op);
      assert after[op.id].key == "";
      forall k | k != "" && k != s.rules[op.id].key ensures DbLookup(after, k) == DbLookup(s.rules, k) {
        MutationFrame(s.perms, s.rules, op, k);
      }
      hide Mutate;
      hide Step;
      EmptyName(s, op.id, after);
    }
  }

  lemma EmptyName(s: State, id: string, after: Table)
    requires Coherent(s) && UniqueKeys(after) && id in s.rules && id in after && after[id].key == ""
    requires forall j | j != id && j in after :: j in s.rules && s.rules[j] == after[j]
    requires forall k | k != "" && k != s.rules[id].key :: DbLookup(after, k) == DbLookup(s.rules, k)
    ensures Coherent(s.(rules := after, cache := Load(after, s.cache, "", NO_FAULTS))) <==>
            !(s.rules[id].key != "" && s.rules[id].key in s.cache.entries)
  {
    var t := s.(rules := after, cache := Load(after, s.cache, "", NO_FAULTS));
    var stale := s.rules[id].key;
    LookupById(after, id);
    assert stale != "" ==> !HasKey(after, stale);
    hide DbLookup;
    if stale != "" && stale in s.cache.entries {
      assert stale in t.cache.entries && DbLookup(after, stale) == Failure(NotFound) by { NoSuchKey(after, stale); }
    }
  }

  lemma NoSuchKey(rules: Table, k: string)
    requires !HasKey(rules, k)
    ensures DbLookup(rules, k) == Failure(NotFound)
  {}

  // ----- Repair -----

  /** One undisturbed reconciliation from any Redis contents whatever. */
  lemma ReconcileRepairs(s: State)
    ensures var before := s.cache; var c := Step(s, Reconcile, NO_FAULTS, NO_FAULTS).0.cache;
            && c.tracked == EnabledKeys(s.rules)
            && (forall k | k in c.tracked :: k in c.entries && DbLookup(s.rules, k) == Codes(c.entries[k]))
            && (forall k | k in c.entries && k !in c.tracked :: k in before.Untracked()
                 && c.entries[k] == before.entries[k])
            && (forall k | k in before.Untracked() :: k in c.entries)
  {
    hide Mutate;
  }

  /** Exactly when reconciliation restores coherence: no untracked entry is left under a key without
      an enabled rule. */
  lemma ReconcileRestoresIff(s: State)
    requires UniqueKeys(s.rules)
    ensures Coherent(Step(s, Reconcile, NO_FAULTS, NO_FAULTS).0) <==> s.cache.Untracked() <= EnabledKeys(s.rules)
  {
    ReconcileRepairs(s);
    var t := Step(s, Reconcile, NO_FAULTS, NO_FAULTS).0;
    assert t.rules == s.rules by { hide Mutate; }
    hide Step;
    if s.cache.Untracked() <= EnabledKeys(s.rules) {
      assert t.cache.tracked == t.cache.entries.Keys;
    } else {
      var k :| k in s.cache.Untracked() && k !in EnabledKeys(s.rules);
      assert k in t.cache.entries && k !in t.cache.tracked;
    }
  }

  // ----- Where untracked entries come from -----

  /** The keys an operation may write to Redis one command at a time. */
  ghost function WrittenKeys(s: State, op: Op): set<string> {
    if op.Lookup? then {op.key}
    else if Mutates(op) && Mutate(s.perms, s.rules, op).Ok?
    then TouchedKeys(s.rules, Mutate(s.perms, s.rules, op).value, op.id)
    else {}
  }

  /** Writing a new entry leaves it untracked exactly when the SET is carried out and the SADD that should follow
      is not, or is never sent because the reply to the SET is lost. */
  lemma GapIff(c: Cache<string, seq<string>>, key: string, codes: seq<string>, f: Faults)
    requires key !in c.entries && key !in c.tracked
    ensures Gap(f) <==> key in Put(c, key, codes, f.put, f.track).Untracked()
    ensures Gap(f) <==> f.put.Lost? || (f.put.Done? && f.track.Failed?)
  {}

  lemma LoadUntracked(rules: Table, c: Cache<string, seq<string>>, key: string, f: Faults)
    ensures Load(rules, c, key, f).Untracked() <= c.Untracked() + (if Gap(f) then {key} else {})
  {}

  lemma InvalidateUntracked(c: Cache<string, seq<string>>, key: string, f: Faults)
    ensures Invalidate(c, key, f).Untracked() <= c.Untracked()
  {}

  lemma MaintainUntracked(before: Table, after: Table, c: Cache<string, seq<string>>, op: Op, f: Faults, g: Faults)
    requires Mutates(op) && (op.Create? ==> op.id in after) && (!op.Create? ==> op.id in before)
    requires !op.Delete? ==> op.id in after
    requires op.Update? && op.newKey.Some? ==> after[op.id].key == op.newKey.value
    ensures Maintain(before, after, c, op, f, g).Untracked()
         <= c.Untracked() + (if Gap(f) || Gap(g) then TouchedKeys(before, after, op.id) else {})
  {
    hide Load;
    hide Invalidate;
    if op.Delete? || op.Disable? {
      InvalidateUntracked(c, before[op.id].key, f);
    } else {
      LoadUntracked(after, c, after[op.id].key, f);
      if op.Update? && op.newKey.Some? {
        var dropped := Invalidate(c, before[op.id].key, f);
        InvalidateUntracked(c, before[op.id].key, f);
        LoadUntracked(after, dropped, op.newKey.value, g);
      }
    }
  }

  /** An entry becomes untracked only through a fault between its write and its tracking. */
  lemma UntrackedOnlyByGap(s: State, op: Op, f: Faults, g: Faults)
    ensures Step(s, op, f, g).0.cache.Untracked()
         <= s.cache.Untracked() + (if Gap(f) || Gap(g) then WrittenKeys(s, op) else {})
  {
    if Mutates(op) {
      if Mutate(s.perms, s.rules, op).Ok? {
        var after := Mutate(s.perms, s.rules, op).value;
        OnlyOneRow(s.perms, s.rules, op);
        assert op.Update? && op.newKey.Some? ==> after[op.id].key == op.newKey.value;
        hide Mutate;
        hide Maintain;
        MaintainUntracked(s.rules, after, s.cache, op, f, g);
      }
    } else {
      hide Mutate;
    }
  }

  /** One call with the faults it meets. */
  datatype Call = Call(op: Op, f: Faults, g: Faults)

  ghost function RunCalls(s: State, calls: seq<Call>): State
    decreases |calls|
  {
    if calls == [] then s else RunCalls(Step(s, calls[0].op, calls[0].f, calls[0].g).0, calls[1..])
  }

  lemma UniqueKept(s: State, op: Op, f: Faults, g: Faults)
    requires UniqueKeys(s.rules)
    ensures UniqueKeys(Step(s, op, f, g).0.rules)
  {
    if Mutates(op) && Mutate(s.perms, s.rules, op).Ok? {
      MutateKeepsUnique(s.perms, s.rules, op);
    }
  }

  /** Whatever else goes wrong in a run, if no call is interrupted between a write and its tracking then
      one undisturbed reconciliation makes the cache right again. */
  lemma {:induction false} RunThenReconcile(s: State, calls: seq<Call>)
    requires UniqueKeys(s.rules) && s.cache.Untracked() == {}
    requires forall c | c in calls :: !Gap(c.f) && !Gap(c.g)
    ensures Coherent(Step(RunCalls(s, calls), Reconcile, NO_FAULTS, NO_FAULTS).0)
    decreases |calls|
  {
    if calls == [] {
      ReconcileRestoresIff(s);
    } else {
      var c := calls[0];
      UntrackedOnlyByGap(s, c.op, c.f, c.g);
      UniqueKept(s, c.op, c.f, c.g);
      hide Step;
      RunThenReconcile(Step(s, c.op, c.f, c.g).0, calls[1..]);
    }
  }
}
