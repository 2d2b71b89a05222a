/** What the API-key cache guarantees under any Redis and Postgres faults: it tracks exactly what it
    holds, it never holds an inactive key, and so a deactivated key stays refused. */
module ApiKeysRevocation {
  import opened Common
  import opened TrackedCache
  import opened ApiKeys

  /** Tracking and unique fingerprints; kept by every operation under every fault. */
  ghost predicate Tracked(s: State) {
    UniqueFingerprints(s.keys) && s.cache.tracked == s.cache.entries.Keys
  }

  /** Nothing inactive is cached. */
  ghost predicate Safe(s: State) {
    Tracked(s) && forall fp | fp in s.cache.entries :: IsActive(s.keys, fp)
  }

  /** Every cached entry is what the table says. */
  ghost predicate Coherent(s: State) {
    Safe(s) && forall fp | fp in s.cache.entries :: s.cache.entries[fp] == CacheOf(ActiveKey(s.keys, fp))
  }

  /** The proviso on `changePermissions`, which reloads the entry without looking at `active`. */
  predicate OnActiveKey(s: State, op: Op) {
    op.ChangePermissions? && op.id in s.keys ==> s.keys[op.id].active
  }

  // ----- The table -----

  /** Replacing one row by another with its fingerprint changes nothing for other fingerprints. */
  lemma RowFrame(keys: Table, id: string, key: ApiKey, fp: string)
    requires UniqueFingerprints(keys)
    requires if id in keys then key.fingerprint == keys[id].fingerprint else key.fingerprint !in Fingerprints(keys)
    requires fp != key.fingerprint
    ensures UniqueFingerprints(keys[id := key])
    ensures IsActive(keys[id := key], fp) <==> IsActive(keys, fp)
    ensures IsActive(keys, fp) ==> ActiveKey(keys[id := key], fp) == ActiveKey(keys, fp)
  {
    var after := keys[id := key];
    RowUnique(keys, id, key);
    forall j | ActiveAs(keys, fp, j) ensures ActiveAs(after, fp, j) {}
    forall j | ActiveAs(after, fp, j) ensures ActiveAs(keys, fp, j) {}
    if IsActive(keys, fp) {
      var j :| ActiveAs(keys, fp, j);
      ActiveById(keys, j);
      ActiveById(after, j);
    }
  }

  lemma RowUnique(keys: Table, id: string, key: ApiKey)
    requires UniqueFingerprints(keys)
    requires if id in keys then key.fingerprint == keys[id].fingerprint else key.fingerprint !in Fingerprints(keys)
    ensures UniqueFingerprints(keys[id := key])
  {
    var after := keys[id := key];
    forall i, j | i in after && j in after && after[i].fingerprint == after[j].fingerprint ensures i == j {
      assert i in keys ==> keys[i].fingerprint in Fingerprints(keys);
      assert j in keys ==> keys[j].fingerprint in Fingerprints(keys);
    }
  }

  /** The table an operation leaves: the old one, or the old one with one row replaced. */
  lemma StepTable(s: State, op: Op, f: Faults)
    requires Tracked(s)
    ensures var keys := Step(s, op, f).0.keys;
            keys == s.keys ||
            exists id, key ::
              && keys == s.keys[id := key]
              && (if id in s.keys then key.fingerprint == s.keys[id].fingerprint
                  else key.fingerprint !in Fingerprints(s.keys))
  {
    var t := Step(s, op, f).0;
    if OnOneKey(op) {
      OneKeyEffect(s, op, f);
      if t.keys != s.keys {
        assert t.keys == s.keys[op.id := t.keys[op.id]];
      }
      hide Step;
    } else {
      hide IsActive;
      hide ActiveFingerprints;
    }
  }

  lemma CacheTracked(s: State, op: Op, f: Faults)
    requires s.cache.tracked == s.cache.entries.Keys
    ensures Step(s, op, f).0.cache.tracked == Step(s, op, f).0.cache.entries.Keys
  {
    hide IsActive;
    hide ActiveFingerprints;
    hide Permissions.CodesFor;
    hide CacheOf;
  }

  /** Agreement in every state: whatever fails, the tracking set names exactly the cached keys. */
  lemma TrackedStep(s: State, op: Op, f: Faults)
    requires Tracked(s)
    ensures Tracked(Step(s, op, f).0)
  {
    StepTable(s, op, f);
    CacheTracked(s, op, f);
    var t := Step(s, op, f).0;
    hide Step;
    if t.keys != s.keys {
      var id, key :| t.keys == s.keys[id := key] &&
        (if id in s.keys then key.fingerprint == s.keys[id].fingerprint else key.fingerprint !in Fingerprints(s.keys));
      RowUnique(s.keys, id, key);
    }
  }

  // ----- One operation -----

  lemma SafeRow(s: State, t: State, id: string, key: ApiKey)
    requires Safe(s) && Tracked(t) && t.keys == s.keys[id := key]
    requires if id in s.keys then key.fingerprint == s.keys[id].fingerprint
      else key.fingerprint !in Fingerprints(s.keys)
    requires forall fp | fp in t.cache.entries && fp != key.fingerprint :: fp in s.cache.entries
    requires key.fingerprint in t.cache.entries ==> key.active
    ensures Safe(t)
  {
    forall fp | fp in t.cache.entries ensures IsActive(t.keys, fp) {
      if fp == key.fingerprint {
        ActiveById(t.keys, id);
      } else {
        RowFrame(s.keys, id, key, fp);
      }
    }
  }

  predicate OnOneKey(op: Op) {
    op.Create? || op.Deactivate? || op.Activate? || op.ChangePermissions?
  }

  /** An operation on one key replaces its row and touches its cache entry, nothing else. */
  lemma OneKeyEffect(s: State, op: Op, f: Faults)
    requires OnOneKey(op)
    ensures var t := Step(s, op, f).0;
            && (op.id !in t.keys ==> t == s)
            && (op.id in t.keys ==>
                  var key := t.keys[op.id];
                  && t.keys == s.keys[op.id := key]
                  && (if op.id in s.keys then key.fingerprint == s.keys[op.id].fingerprint
                      else key.fingerprint !in Fingerprints(s.keys))
                  && (forall fp | fp != key.fingerprint ::
                        (fp in t.cache.entries <==> fp in s.cache.entries) &&
                        (fp in t.cache.entries ==> t.cache.entries[fp] == s.cache.entries[fp])))
  {}

  /** What an operation on one key leaves cached for it: the old entry with the row still active, or the
      new row's entry. */
  lemma OneKeyEntry(s: State, op: Op, f: Faults)
    requires Safe(s) && OnActiveKey(s, op) && OnOneKey(op)
    requires op.id in Step(s, op, f).0.keys
    ensures var t := Step(s, op, f).0; var key := t.keys[op.id];
            && (key.fingerprint in t.cache.entries ==> key.active)
            && (f == NO_FAULTS && key.fingerprint in t.cache.entries ==>
                  t.cache.entries[key.fingerprint] == CacheOf(key) ||
                  (t.keys == s.keys && key.fingerprint in s.cache.entries
                   && t.cache.entries[key.fingerprint] == s.cache.entries[key.fingerprint]))
  {
    if op.id in s.keys {
      ActiveById(s.keys, op.id);
    } else {
      NotActive(s.keys, Step(s, op, f).0.keys[op.id].fingerprint);
    }
  }

  lemma SafeStep(s: State, op: Op, f: Faults)
    requires Safe(s) && OnActiveKey(s, op)
    ensures Safe(Step(s, op, f).0)
  {
    var t := Step(s, op, f).0;
    TrackedStep(s, op, f);
    if OnOneKey(op) {
      OneKeyEffect(s, op, f);
      if op.id in t.keys {
        OneKeyEntry(s, op, f);
        hide Step;
        SafeRow(s, t, op.id, t.keys[op.id]);
      }
    }
  }

  lemma NotActive(keys: Table, fp: string)
    requires fp !in Fingerprints(keys)
    ensures !IsActive(keys, fp)
  {}

  lemma CoherentRow(s: State, t: State, id: string, key: ApiKey)
    requires Coherent(s) && Safe(t) && t.keys == s.keys[id := key]
    requires if id in s.keys then key.fingerprint == s.keys[id].fingerprint
      else key.fingerprint !in Fingerprints(s.keys)
    requires forall fp | fp in t.cache.entries && fp != key.fingerprint ::
      fp in s.cache.entries && t.cache.entries[fp] == s.cache.entries[fp]
    requires key.fingerprint in t.cache.entries ==>
      t.cache.entries[key.fingerprint] == CacheOf(key) ||
      (t.keys == s.keys && key.fingerprint in s.cache.entries
       && t.cache.entries[key.fingerprint] == s.cache.entries[key.fingerprint])
    ensures Coherent(t)
  {
    forall fp | fp in t.cache.entries ensures t.cache.entries[fp] == CacheOf(ActiveKey(t.keys, fp)) {
      if fp == key.fingerprint {
        ActiveById(t.keys, id);
      } else {
        RowFrame(s.keys, id, key, fp);
      }
    }
  }

  lemma CoherentStep(s: State, op: Op)
    requires Coherent(s) && OnActiveKey(s, op)
    ensures Coherent(Step(s, op, NO_FAULTS).0)
    ensures op.Find? ==> Step(s, op, NO_FAULTS).1 == DbFind(s.keys, op.fingerprint)
  {
    var t := Step(s, op, NO_FAULTS).0;
    SafeStep(s, op, NO_FAULTS);
    if OnOneKey(op) {
      OneKeyEffect(s, op, NO_FAULTS);
      if op.id in t.keys {
        OneKeyEntry(s, op, NO_FAULTS);
        hide Step;
        CoherentRow(s, t, op.id, t.keys[op.id]);
      }
    }
  }

  // ----- Runs -----

  datatype Call = Call(op: Op, f: Faults)

  ghost predicate Proviso(s: State, calls: seq<Call>)
    decreases |calls|
  {
    calls == [] || (OnActiveKey(s, calls[0].op) && Proviso(Step(s, calls[0].op, calls[0].f).0, calls[1..]))
  }

  ghost function Run(s: State, calls: seq<Call>): State
    decreases |calls|
  {
    if calls == [] then s else Run(Step(s, calls[0].op, calls[0].f).0, calls[1..])
  }

  ghost function Answers(s: State, calls: seq<Call>): seq<Answer>
    decreases |calls|
  {
    if calls == [] then []
    else
      var r := Step(s, calls[0].op, calls[0].f);
      [r.1] + Answers(r.0, calls[1..])
  }

  /** Agreement over every run, with no proviso and whatever fails. */
  lemma {:induction false} TrackedRun(s: State, calls: seq<Call>)
    requires Tracked(s)
    ensures Tracked(Run(s, calls))
    decreases |calls|
  {
    if calls != [] {
      TrackedStep(s, calls[0].op, calls[0].f);
      hide Step;
      TrackedRun(Step(s, calls[0].op, calls[0].f).0, calls[1..]);
    }
  }

  /** No run caches an inactive key, whatever fails. */
  lemma {:induction false} SafeRun(s: State, calls: seq<Call>)
    requires Safe(s) && Proviso(s, calls)
    ensures Safe(Run(s, calls))
    decreases |calls|
  {
    if calls != [] {
      SafeStep(s, calls[0].op, calls[0].f);
      hide Step;
      SafeRun(Step(s, calls[0].op, calls[0].f).0, calls[1..]);
    }
  }

  /** The same service without a cache. */
  ghost function PlainAnswer(s: State, op: Op): Answer {
    if op.Find? then DbFind(s.keys, op.fingerprint) else Step(s.(cache := Cache(map[], {})), op, NO_FAULTS).1
  }

  ghost function PlainAnswers(s: State, calls: seq<Call>): seq<Answer>
    decreases |calls|
  {
    if calls == [] then []
    else
      var next := Step(s.(cache := Cache(map[], {})), calls[0].op, NO_FAULTS).0;
      [PlainAnswer(s, calls[0].op)] + PlainAnswers(next, calls[1..])
  }

  /** What the table holds and what is answered do not depend on the cache, lookups apart. */
  lemma CacheIrrelevant(s: State, t: State, op: Op)
    requires s.perms == t.perms && s.keys == t.keys
    ensures var a, b := Step(s, op, NO_FAULTS), Step(t, op, NO_FAULTS);
            a.0.perms == b.0.perms && a.0.keys == b.0.keys && (!op.Find? ==> a.1 == b.1)
    ensures PlainAnswer(s, op) == PlainAnswer(t, op)
  {}

  /** Fault-free runs answer exactly as the service without a cache does. */
  lemma {:induction false} FaultFreeRefinement(s: State, t: State, calls: seq<Call>)
    requires Coherent(s) && s.perms == t.perms && s.keys == t.keys
    requires Proviso(s, calls) && forall c | c in calls :: c.f == NO_FAULTS
    ensures Answers(s, calls) == PlainAnswers(t, calls)
    decreases |calls|
  {
    if calls != [] {
      var op := calls[0].op;
      assert calls[0] in calls;
      CoherentStep(s, op);
      var cleared := t.(cache := Cache(map[], {}));
      CacheIrrelevant(s, cleared, op);
      CacheIrrelevant(s, t, op);
      assert Step(s, op, NO_FAULTS).1 == PlainAnswer(t, op);
      hide Step;
      FaultFreeRefinement(Step(s, op, NO_FAULTS).0, Step(cleared, op, NO_FAULTS).0, calls[1..]);
    }
  }

  // ----- Revocation -----

  ghost predicate Revoked(s: State, id: string, fp: string) {
    Safe(s) && id in s.keys && s.keys[id].fingerprint == fp && !s.keys[id].active
  }

  lemma RevokedStep(s: State, op: Op, f: Faults, id: string, fp: string)
    requires Revoked(s, id, fp) && OnActiveKey(s, op) && op != Activate(id)
    ensures Revoked(Step(s, op, f).0, id, fp)
    ensures op == Find(fp) ==> Step(s, op, f).1.Failure?
  {
    SafeStep(s, op, f);
    ActiveById(s.keys, id);
    RevokedRow(s, op, f, id);
    if op == Find(fp) {
      assert fp !in s.cache.entries;
    } else {
      hide Step;
    }
    hide UniqueFingerprints;
  }

  lemma RevokedRow(s: State, op: Op, f: Faults, id: string)
    requires id in s.keys && !s.keys[id].active && OnActiveKey(s, op) && op != Activate(id)
    ensures var t := Step(s, op, f).0; id in t.keys && t.keys[id] == s.keys[id]
  {
    if OnOneKey(op) && op.id != id {
      OneKeyEffect(s, op, f);
      hide Step;
    } else {
      hide IsActive;
      hide WarmedUp;
      hide StaleDropped;
      hide Loaded;
    }
  }

  /** A deactivation that reported success. */
  lemma DeactivationRevokes(s: State, id: string, f: Faults)
    requires Safe(s) && Step(s, Deactivate(id), f).1 == Answer.Done
    ensures id in s.keys && Revoked(Step(s, Deactivate(id), f).0, id, s.keys[id].fingerprint)
  {
    SafeStep(s, Deactivate(id), f);
  }

  /** After a successful deactivation no lookup of the key succeeds until it is activated again, even
      if every other cache write of the run fails. */
  lemma {:induction false} RevocationHolds(s: State, calls: seq<Call>, id: string, fp: string)
    requires Revoked(s, id, fp) && Proviso(s, calls)
    requires forall c | c in calls :: c.op != Activate(id)
    ensures |Answers(s, calls)| == |calls|
    ensures forall i | 0 <= i < |calls| && calls[i].op == Find(fp) :: Answers(s, calls)[i].Failure?
    decreases |calls|
  {
    if calls != [] {
      RevokedStep(s, calls[0].op, calls[0].f, id, fp);
      assert calls[0] in calls;
      hide Step;
      RevocationHolds(Step(s, calls[0].op, calls[0].f).0, calls[1..], id, fp);
    }
  }

  // ----- Codes that go stale -----

  /** A change of permissions on an active key loses the entry's codes: it is saved, the codes it sets are not
      the cached ones, and the entry is not dropped. */
  predicate LosesCodes(s: State, op: Op, f: Faults) {
    && op.ChangePermissions? && op.id in s.keys && f.save.Applied()
    && s.keys[op.id].fingerprint in s.cache.entries
    && (var codes := Permissions.CodesFor(s.perms, op.permissionIds);
        codes.Some? && codes.value != s.keys[op.id].codes)
    && !(f.save.Done? && f.invalidate.Applied())
  }

  /** Exactly when an operation leaves every entry equal to its key, whatever fails, given that permissions
      are changed on active keys only. */
  lemma CoherentIff(s: State, op: Op, f: Faults)
    requires Coherent(s) && OnActiveKey(s, op)
    ensures Coherent(Step(s, op, f).0) <==> !LosesCodes(s, op, f)
  {
    var t := Step(s, op, f).0;
    SafeStep(s, op, f);
    if OnOneKey(op) {
      OneKeyEffect(s, op, f);
      if op.id in t.keys {
        EntryUnderFaults(s, op, f);
        ActiveById(t.keys, op.id);
        hide Step;
        var fp := t.keys[op.id].fingerprint;
        if fp in t.cache.entries ==> t.cache.entries[fp] == CacheOf(t.keys[op.id]) {
          CoherentRow(s, t, op.id, t.keys[op.id]);
        }
      }
    } else {
      CoherentElsewhere(s, op, f);
    }
  }

  /** Lookups and cache maintenance spoil no entry. */
  lemma CoherentElsewhere(s: State, op: Op, f: Faults)
    requires Coherent(s) && !OnOneKey(op) && Safe(Step(s, op, f).0)
    ensures Coherent(Step(s, op, f).0)
  {
    hide UniqueFingerprints;
    hide ActiveFingerprints;
    hide IsActive;
    hide Fingerprints;
  }

  /** What is cached for the key of an operation on one key. */
  lemma EntryUnderFaults(s: State, op: Op, f: Faults)
    requires Coherent(s) && OnActiveKey(s, op) && OnOneKey(op) && op.id in Step(s, op, f).0.keys
    ensures var t := Step(s, op, f).0; var key := t.keys[op.id];
            key.fingerprint in t.cache.entries ==>
              key.active && (t.cache.entries[key.fingerprint] == CacheOf(key) <==> !LosesCodes(s, op, f))
    ensures LosesCodes(s, op, f) ==> Step(s, op, f).0.keys[op.id].fingerprint in Step(s, op, f).0.cache.entries
  {
    if op.ChangePermissions? {
      EntryAfterChange(s, op, f);
    } else {
      EntryAfterOther(s, op, f);
    }
    hide Step;
    hide LosesCodes;
  }

  lemma EntryAfterChange(s: State, op: Op, f: Faults)
    requires Coherent(s) && OnActiveKey(s, op) && op.ChangePermissions? && op.id in Step(s, op, f).0.keys
    ensures var t := Step(s, op, f).0; var key := t.keys[op.id];
            key.fingerprint in t.cache.entries ==>
              key.active && (t.cache.entries[key.fingerprint] == CacheOf(key) <==> !LosesCodes(s, op, f))
    ensures LosesCodes(s, op, f) ==> Step(s, op, f).0.keys[op.id].fingerprint in Step(s, op, f).0.cache.entries
  {
    ActiveById(s.keys, op.id);
    hide UniqueFingerprints;
    hide IsActive;
    hide Fingerprints;
    hide Permissions.CodesFor;
  }

  lemma EntryAfterOther(s: State, op: Op, f: Faults)
    requires Coherent(s) && OnActiveKey(s, op) && OnOneKey(op) && !op.ChangePermissions?
      && op.id in Step(s, op, f).0.keys
    ensures var t := Step(s, op, f).0; var key := t.keys[op.id];
            key.fingerprint in t.cache.entries ==>
              key.active && (t.cache.entries[key.fingerprint] == CacheOf(key) <==> !LosesCodes(s, op, f))
    ensures LosesCodes(s, op, f) ==> Step(s, op, f).0.keys[op.id].fingerprint in Step(s, op, f).0.cache.entries
  {
    if op.id in s.keys {
      ActiveById(s.keys, op.id);
    } else {
      NotActive(s.keys, Step(s, op, f).0.keys[op.id].fingerprint);
    }
    hide UniqueFingerprints;
    hide IsActive;
    hide Fingerprints;
    hide Permissions.CodesFor;
  }

  /** Such a loss is reported, but lasts: lookups go on answering the old codes, and reconciliation does not
      look at them. */
  lemma LostCodesLast(s: State, id: string, permissionIds: seq<string>, f: Faults)
    requires Coherent(s) && id in s.keys && s.keys[id].active && LosesCodes(s, ChangePermissions(id, permissionIds), f)
    ensures var fp := s.keys[id].fingerprint;
            var (t, a) := Step(s, ChangePermissions(id, permissionIds), f);
            var u := Step(t, Reconcile, NO_FAULTS).0;
            && a.Failure? && DbFind(t.keys, fp) != Codes(s.keys[id].codes)
            && Step(t, Find(fp), NO_FAULTS).1 == Codes(s.keys[id].codes)
            && Step(u, Find(fp), NO_FAULTS).1 == Codes(s.keys[id].codes)
  {
    var op := ChangePermissions(id, permissionIds);
    var t := Step(s, op, f).0;
    SafeStep(s, op, f);
    ActiveById(s.keys, id);
    ActiveById(t.keys, id);
    ReconcileRepairs(t);
    hide UniqueFingerprints;
    hide IsActive;
    hide ActiveKey;
    hide Permissions.CodesFor;
  }

  /** Each call of the run leaves the entries as they should be. */
  ghost predicate KeepsCodes(s: State, calls: seq<Call>)
    decreases |calls|
  {
    calls == [] ||
    (!LosesCodes(s, calls[0].op, calls[0].f) && KeepsCodes(Step(s, calls[0].op, calls[0].f).0, calls[1..]))
  }

  /** A run under any faults that never loses codes keeps every entry equal to its key; a lookup then answers
      as the database would, or fails because it cannot be read. */
  lemma {:induction false} CoherentRun(s: State, calls: seq<Call>, fp: string, f: Faults)
    requires Coherent(s) && Proviso(s, calls) && KeepsCodes(s, calls)
    ensures Coherent(Run(s, calls))
    ensures var a := Step(Run(s, calls), Find(fp), f).1; a == DbFind(Run(s, calls).keys, fp) || a == Failure(DbDown)
    decreases |calls|
  {
    if calls == [] {
      hide IsActive;
    } else {
      CoherentIff(s, calls[0].op, calls[0].f);
      hide Step;
      hide LosesCodes;
      CoherentRun(Step(s, calls[0].op, calls[0].f).0, calls[1..], fp, f);
    }
  }

  // ----- What methods pass on -----

  /** What the methods of the service rely on, and pass on to their callers. */
  lemma StepKeeps(s: State, op: Op, f: Faults)
    requires UniqueFingerprints(s.keys)
    ensures UniqueFingerprints(Step(s, op, f).0.keys)
    ensures Safe(s) && OnActiveKey(s, op) ==> Safe(Step(s, op, f).0)
    ensures Coherent(s) && OnActiveKey(s, op) ==> (Coherent(Step(s, op, f).0) <==> !LosesCodes(s, op, f))
  {
    var tracked := s.(cache := Cache(map[], {}));
    TrackedStep(tracked, op, f);
    SameKeys(s, tracked, op, f);
    if Safe(s) && OnActiveKey(s, op) {
      SafeStep(s, op, f);
      if Coherent(s) {
        CoherentIff(s, op, f);
      }
    }
    hide Step;
    hide Safe;
    hide Coherent;
    hide LosesCodes;
  }

  /** What is stored does not depend on the cache. */
  lemma SameKeys(s: State, t: State, op: Op, f: Faults)
    requires s.perms == t.perms && s.keys == t.keys
    ensures Step(s, op, f).0.keys == Step(t, op, f).0.keys
  {}

  // ----- The proviso, and repair -----

  /** Exactly when a change of permissions leaves nothing inactive in the cache, whatever fails: unless it
      gets through to reloading an inactive key, with its save and its invalidation confirmed and the
      reload carried out. */
  lemma ChangePermissionsSafeIff(s: State, id: string, permissionIds: seq<string>, f: Faults)
    requires Safe(s)
    ensures Safe(Step(s, ChangePermissions(id, permissionIds), f).0) <==>
            !(&& id in s.keys && !s.keys[id].active && (forall p | p in permissionIds :: p in s.perms)
              && !f.save.Raised() && !f.invalidate.Raised() && f.load.Applied())
  {
    var op := ChangePermissions(id, permissionIds);
    if OnActiveKey(s, op) {
      SafeStep(s, op, f);
    } else {
      TrackedStep(s, op, f);
      InactiveKeyEntry(s, id, permissionIds, f);
      OneKeyEffect(s, op, f);
      var t := Step(s, op, f).0;
      ActiveById(t.keys, id);
      hide Step;
      if t.keys[id].fingerprint !in t.cache.entries {
        SafeRow(s, t, id, t.keys[id]);
      }
    }
  }

  /** Whether the change leaves the fingerprint of an inactive key in the cache. */
  lemma InactiveKeyEntry(s: State, id: string, permissionIds: seq<string>, f: Faults)
    requires Safe(s) && id in s.keys && !s.keys[id].active
    ensures var t := Step(s, ChangePermissions(id, permissionIds), f).0;
            && id in t.keys && !t.keys[id].active && t.keys[id].fingerprint == s.keys[id].fingerprint
            && (s.keys[id].fingerprint in t.cache.entries <==>
                  (forall p | p in permissionIds :: p in s.perms)
                  && !f.save.Raised() && !f.invalidate.Raised() && f.load.Applied())
  {
    ActiveById(s.keys, id);
    hide UniqueFingerprints;
    hide IsActive;
  }

  /** What follows: changing the permissions of an inactive key makes the service honour it again, while
      the table still says that it is inactive. */
  lemma ChangeRevives(s: State, id: string, permissionIds: seq<string>)
    requires Safe(s) && id in s.keys && !s.keys[id].active && forall p | p in permissionIds :: p in s.perms
    ensures var fp := s.keys[id].fingerprint;
            var (t, a) := Step(s, ChangePermissions(id, permissionIds), NO_FAULTS);
            && a == Answer.Done && id in t.keys && !t.keys[id].active && DbFind(t.keys, fp) == Failure(KeyNotFound)
            && Step(t, Find(fp), NO_FAULTS) == (t, Codes(t.keys[id].codes))
  {
    var t := Step(s, ChangePermissions(id, permissionIds), NO_FAULTS).0;
    InactiveKeyEntry(s, id, permissionIds, NO_FAULTS);
    TrackedStep(s, ChangePermissions(id, permissionIds), NO_FAULTS);
    ActiveById(t.keys, id);
  }

  /** One undisturbed reconciliation keeps exactly the entries that are active or were untracked, as
      they are; so from every reachable state only active keys stay cached. */
  lemma ReconcileRepairs(s: State)
    ensures var before := s.cache; var c := Step(s, Reconcile, NO_FAULTS).0.cache;
            && c.tracked == before.tracked * ActiveFingerprints(s.keys)
            && (forall fp :: fp in c.entries <==>
                  fp in before.entries && (IsActive(s.keys, fp) || fp !in before.tracked))
            && (forall fp | fp in c.entries :: c.entries[fp] == before.entries[fp])
            && (Tracked(s) ==> Safe(Step(s, Reconcile, NO_FAULTS).0))
  {
    forall fp | fp in s.cache.entries ensures fp in ActiveFingerprints(s.keys) <==> IsActive(s.keys, fp) {
      if IsActive(s.keys, fp) {
        var id :| ActiveAs(s.keys, fp, id);
        assert s.keys[id].fingerprint in Fingerprints(s.keys);
      }
    }
  }
}
