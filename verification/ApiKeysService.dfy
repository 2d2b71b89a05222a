/** The API-key service and its reconciliation job, command by command. Each method is a step of the model
    and says what it promises whatever Postgres and Redis do. */
module ApiKeysService {
  import opened Common
  import opened TrackedCache
  import opened ApiKeys
  import opened ApiKeysRevocation
  import ApiKeysEffects
  import Permissions

  type KeyCommand = Command<string, CachedKey>

  /** The active keys in whatever order the database returns them. */
  predicate IsActiveListing(keys: Table, found: seq<ApiKey>) {
    && (forall k | k in found :: k.active && exists id | id in keys :: keys[id] == k)
    && (forall id | id in keys && keys[id].active :: keys[id] in found)
  }

  lemma {:induction false} ActiveListingExists(keys: Table) returns (found: seq<ApiKey>)
    ensures IsActiveListing(keys, found)
    decreases |keys|
  {
    if keys == map[] {
      found := [];
    } else {
      var id :| id in keys;
      var rest := keys - {id};
      assert keys.Keys == rest.Keys + {id};
      found := ActiveListingExists(rest);
      if keys[id].active {
        found := [keys[id]] + found;
      }
    }
  }

  /** The entries that a listing of keys is written as. */
  function EntriesFor(found: seq<ApiKey>): map<string, CachedKey> {
    if found == [] then map[]
    else EntriesFor(found[..|found| - 1])[found[|found| - 1].fingerprint := CacheOf(found[|found| - 1])]
  }

  lemma {:induction false} EntriesForSpec(keys: Table, found: seq<ApiKey>)
    requires forall k | k in found :: IsActive(keys, k.fingerprint) && ActiveKey(keys, k.fingerprint) == k
    ensures forall fp :: fp in EntriesFor(found) <==> exists k | k in found :: k.fingerprint == fp
    ensures forall fp | fp in EntriesFor(found) ::
      IsActive(keys, fp) && EntriesFor(found)[fp] == CacheOf(ActiveKey(keys, fp))
  {
    hide IsActive;
    hide ActiveKey;
    if found != [] {
      var n := |found| - 1;
      assert found[n] in found && found == found[..n] + [found[n]];
      EntriesForSpec(keys, found[..n]);
    }
  }

  lemma ListingComplete(keys: Table, found: seq<ApiKey>)
    requires UniqueFingerprints(keys) && IsActiveListing(keys, found)
    ensures EntriesFor(found).Keys == ActiveFingerprints(keys)
    ensures forall fp | fp in EntriesFor(found) ::
      IsActive(keys, fp) && EntriesFor(found)[fp] == CacheOf(ActiveKey(keys, fp))
  {
    forall k | k in found ensures IsActive(keys, k.fingerprint) && ActiveKey(keys, k.fingerprint) == k {
      var id :| id in keys && keys[id] == k;
      ActiveById(keys, id);
    }
    EntriesForSpec(keys, found);
    forall fp ensures fp in ActiveFingerprints(keys) <==> fp in EntriesFor(found) {
      if IsActive(keys, fp) {
        var id :| ActiveAs(keys, fp, id);
        assert keys[id] in found && keys[id].fingerprint in Fingerprints(keys);
      }
    }
  }

  /** Writing and tracking every listed key is what warming up means. */
  lemma ListingWarms(keys: Table, found: seq<ApiKey>, c: Cache<string, CachedKey>)
    requires UniqueFingerprints(keys) && IsActiveListing(keys, found)
    ensures WarmedUp(keys, c) == Cache(c.entries + EntriesFor(found), c.tracked + EntriesFor(found).Keys)
    ensures found == [] ==> WarmedUp(keys, c) == c
  {
    ListingComplete(keys, found);
    hide ActiveKey;
    assert found == [] ==> EntriesFor(found) == map[];
    hide EntriesFor;
    hide UniqueFingerprints;
    hide IsActiveListing;
    hide IsActive;
    hide ActiveFingerprints;
    hide CacheOf;
    var m := EntriesFor(found);
    var w := WarmedUp(keys, c);
    Overlay(c.entries, m, w.entries);
    assert c.entries + map[] == c.entries;
  }

  lemma EntriesMore(found: seq<ApiKey>, i: nat)
    requires i < |found|
    ensures EntriesFor(found[..i + 1]) == EntriesFor(found[..i])[found[i].fingerprint := CacheOf(found[i])]
  {
    assert found[..i + 1][..i] == found[..i];
  }

  lemma ListingNothing()
    ensures EntriesFor([]) == map[]
  {}

  /** Two more commands in the MULTI write and track one more key. */
  lemma QueueMore(c: Cache<string, CachedKey>, multi: seq<KeyCommand>, found: seq<ApiKey>, i: nat)
    requires i < |found|
    requires var entries := EntriesFor(found[..i]);
             Exec(c, multi) == Cache(c.entries + entries, c.tracked + entries.Keys)
    ensures var entries := EntriesFor(found[..i + 1]); var k := found[i];
            Exec(c, multi + [SetEntry(k.fingerprint, CacheOf(k))] + [Track(k.fingerprint)])
              == Cache(c.entries + entries, c.tracked + entries.Keys)
  {
    hide Exec;
    var k, entries := found[i], EntriesFor(found[..i]);
    ExecPutMore(c, multi, k.fingerprint, CacheOf(k));
    assert EntriesFor(found[..i + 1]) == entries[k.fingerprint := CacheOf(k)] by { EntriesMore(found, i); }
    hide EntriesFor;
    WrittenAfter(c.entries, c.tracked, entries, k.fingerprint, CacheOf(k));
  }

  lemma WarmUpKeeps(s: State, f: Faults)
    requires UniqueFingerprints(s.keys)
    ensures var t := Step(s, WarmUp, f).0;
            && Step(s, WarmUp, f).1 == Answer.Done
               && t == s.(cache := if f.read && f.load.Applied() then WarmedUp(s.keys, s.cache) else s.cache)
            && (Safe(s) ==> Safe(t)) && (f == NO_FAULTS ==> ActiveFingerprints(s.keys) <= t.cache.entries.Keys)
  {
    StepKeeps(s, WarmUp, f);
    hide Safe;
    hide ActiveFingerprints;
  }

  lemma NothingStale(keys: Table, c: Cache<string, CachedKey>)
    requires c.tracked <= ActiveFingerprints(keys)
    ensures StaleDropped(keys, c) == c
  {
    hide ActiveFingerprints;
    assert c.tracked - ActiveFingerprints(keys) == {};
    assert c.entries - {} == c.entries;
  }

  class ApiKeysService {
    const perms: map<string, string>
    var keys: Table
    var cache: Cache<string, CachedKey>

    constructor (perms: map<string, string>, keys: Table)
      ensures this.perms == perms && this.keys == keys && cache == Cache(map[], {})
    {
      this.perms, this.keys := perms, keys;
      cache := Cache(map[], {});
    }

    ghost function View(): State
      reads this
    {
      State(perms, keys, cache)
    }

    ghost predicate Valid()
      reads this
    {
      UniqueFingerprints(keys)
    }

    method FindByFingerprint(fp: string) returns (key: Option<ApiKey>)
      requires Valid()
      ensures key == if IsActive(keys, fp) then Some(ActiveKey(keys, fp)) else None
    {
      if exists id | id in keys :: keys[id].fingerprint == fp && keys[id].active {
        var id :| id in keys && keys[id].fingerprint == fp && keys[id].active;
        ActiveById(keys, id);
        return Some(keys[id]);
      }
      assert forall id :: !ActiveAs(keys, fp, id);
      return None;
    }

    method Save(after: Table, o: Outcome) returns (ok: bool)
      modifies this`keys
      ensures ok == !o.Raised() && keys == if o.Applied() then after else old(keys)
    {
      if o.Applied() {
        keys := after;
      }
      return !o.Raised();
    }

    method LoadApiKeyToRedis(key: ApiKey, o: Outcome)
      modifies this`cache
      ensures cache == Loaded(old(cache), key, o)
    {
      var multi: seq<KeyCommand> := [SetEntry(key.fingerprint, CacheOf(key)), Track(key.fingerprint)];
      ExecPut(cache, key.fingerprint, CacheOf(key));
      if o.Applied() {
        cache := Exec(cache, multi);
      }
    }

    /** Unlike loading, a failed invalidation is reported to the caller. */
    method InvalidateApiKeyCache(fp: string, o: Outcome) returns (ok: bool)
      modifies this`cache
      ensures ok == !o.Raised() && cache == Invalidated(old(cache), fp, o)
    {
      var multi: seq<KeyCommand> := [DelEntry(fp), Untrack(fp)];
      ExecDrop(cache, fp);
      if o.Applied() {
        cache := Exec(cache, multi);
      }
      return !o.Raised();
    }

    method Create(id: string, fingerprint: string, client: string, permissionIds: seq<string>, f: Faults)
      returns (answer: Answer)
      requires Valid()
      modifies this`keys
      ensures (View(), answer) == Step(old(View()), Op.Create(id, fingerprint, client, permissionIds), f)
      ensures Valid() && (Safe(old(View())) ==> Safe(View()))
      ensures Coherent(old(View())) ==> Coherent(View())
      ensures ApiKeysEffects.Creates(old(View()), View(), answer, id, fingerprint, client, permissionIds, f.save)
    {
      ApiKeysEffects.CreateEffect(View(), id, fingerprint, client, permissionIds, f);
      hide ApiKeysEffects.Creates;
      StepKeeps(View(), Op.Create(id, fingerprint, client, permissionIds), f);
      hide Safe;
      hide Coherent;
      var codes := Permissions.CodesFor(perms, permissionIds);
      if codes.None? {
        return Failure(PermissionNotFound);
      }
      if id in keys || fingerprint in Fingerprints(keys) {
        return Failure(DbDown);
      }
      var ok := Save(keys[id := ApiKey(fingerprint, client, true, codes.value)], f.save);
      return if ok then Answer.Done else Failure(DbDown);
    }

    method Deactivate(id: string, f: Faults) returns (answer: Answer)
      requires Valid()
      modifies this
      ensures (View(), answer) == Step(old(View()), Op.Deactivate(id), f)
      ensures Valid() && (Safe(old(View())) ==> Safe(View()))
      ensures Coherent(old(View())) ==> Coherent(View())
      ensures Safe(old(View())) && answer == Answer.Done ==> Revoked(View(), id, keys[id].fingerprint)
      ensures ApiKeysEffects.Deactivates(old(View()), View(), answer, id, f.invalidate, f.save)
    {
      ApiKeysEffects.DeactivateEffect(View(), id, f);
      hide ApiKeysEffects.Deactivates;
      StepKeeps(View(), Op.Deactivate(id), f);
      if Safe(View()) && Step(View(), Op.Deactivate(id), f).1 == Answer.Done {
        DeactivationRevokes(View(), id, f);
      }
      hide Safe;
      hide Coherent;
      if id !in keys {
        return Failure(KeyNotFound);
      }
      if !keys[id].active {
        return Failure(AlreadyInactive);
      }
      var key := keys[id].(active := false);
      var dropped := InvalidateApiKeyCache(key.fingerprint, f.invalidate);
      if !dropped {
        return Failure(InvalidationFailed);
      }
      var ok := Save(keys[id := key], f.save);
      return if ok then Answer.Done else Failure(DbDown);
    }

    method Activate(id: string, f: Faults) returns (answer: Answer)
      requires Valid()
      modifies this
      ensures (View(), answer) == Step(old(View()), Op.Activate(id), f)
      ensures Valid() && (Safe(old(View())) ==> Safe(View()))
      ensures Coherent(old(View())) ==> Coherent(View())
      ensures answer == Answer.Done ==> id in keys && IsActive(keys, keys[id].fingerprint)
      ensures ApiKeysEffects.Activates(old(View()), View(), answer, id, f.save)
    {
      ApiKeysEffects.ActivateEffect(View(), id, f);
      hide ApiKeysEffects.Activates;
      StepKeeps(View(), Op.Activate(id), f);
      hide Safe;
      hide Coherent;
      if id !in keys {
        return Failure(KeyNotFound);
      }
      if keys[id].active {
        return Failure(AlreadyActive);
      }
      var key := keys[id].(active := true);
      var ok := Save(keys[id := key], f.save);
      if !ok {
        return Failure(DbDown);
      }
      assert ActiveAs(keys, key.fingerprint, id);
      LoadApiKeyToRedis(key, f.load);
      return Answer.Done;
    }

    method ChangePermissions(id: string, permissionIds: seq<string>, f: Faults) returns (answer: Answer)
      requires Valid()
      modifies this
      ensures (View(), answer) == Step(old(View()), Op.ChangePermissions(id, permissionIds), f)
      ensures Valid()
      ensures var op := Op.ChangePermissions(id, permissionIds);
              Coherent(old(View())) && OnActiveKey(old(View()), op) ==>
                (Coherent(View()) <==> !LosesCodes(old(View()), op, f))
      ensures Safe(old(View())) ==>
        (Safe(View()) <==>
           !(id in old(keys) && !old(keys)[id].active && answer == Answer.Done && f.load.Applied()))
      ensures ApiKeysEffects.Changes(old(View()), View(), answer, id, permissionIds, f.save, f.invalidate)
    {
      ApiKeysEffects.ChangeEffect(View(), id, permissionIds, f);
      hide ApiKeysEffects.Changes;
      StepKeeps(View(), Op.ChangePermissions(id, permissionIds), f);
      if Safe(View()) {
        ChangePermissionsSafeIff(View(), id, permissionIds, f);
      }
      hide Safe;
      hide LosesCodes;
      hide Coherent;
      if id !in keys {
        return Failure(KeyNotFound);
      }
      var codes := Permissions.CodesFor(perms, permissionIds);
      if codes.None? {
        return Failure(PermissionNotFound);
      }
      var key := keys[id].(codes := codes.value);
      var ok := Save(keys[id := key], f.save);
      if !ok {
        return Failure(DbDown);
      }
      var dropped := InvalidateApiKeyCache(key.fingerprint, f.invalidate);
      if !dropped {
        return Failure(InvalidationFailed);
      }
      LoadApiKeyToRedis(key, f.load);
      return Answer.Done;
    }

    method FindActiveByPlainKey(fp: string, f: Faults) returns (answer: Answer)
      requires Valid()
      modifies this`cache
      ensures (View(), answer) == Step(old(View()), Find(fp), f)
      ensures Valid() && (Safe(old(View())) ==> Safe(View()))
      ensures Coherent(old(View())) ==> Coherent(View())
      ensures Coherent(old(View())) && f == NO_FAULTS ==> answer == DbFind(keys, fp)
      ensures (exists id :: Revoked(old(View()), id, fp)) ==> answer.Failure?
      ensures f.get && fp in old(cache).entries ==> answer == Codes(old(cache).entries[fp].codes)
      ensures !(f.get && fp in old(cache).entries) && !f.read ==> answer == Failure(DbDown)
      ensures !(f.get && fp in old(cache).entries) && f.read ==>
        if forall id | id in keys && keys[id].fingerprint == fp :: !keys[id].active then answer == Failure(KeyNotFound)
        else exists id | id in keys && keys[id].fingerprint == fp && keys[id].active :: answer == Codes(keys[id].codes)
    {
      ApiKeysEffects.FindEffect(View(), fp, f);
      StepKeeps(View(), Find(fp), f);
      if Coherent(View()) && f == NO_FAULTS {
        CoherentStep(View(), Find(fp));
      }
      if id :| Revoked(View(), id, fp) {
        RevokedStep(View(), Find(fp), f, id, fp);
      }
      hide Safe;
      hide Coherent;
      hide Revoked;
      hide DbFind;
      if f.get && fp in cache.entries {
        return Codes(cache.entries[fp].codes);
      }
      if !f.read {
        return Failure(DbDown);
      }
      var key := FindByFingerprint(fp);
      if key.None? {
        return Failure(KeyNotFound);
      }
      LoadApiKeyToRedis(key.value, f.load);
      return Codes(key.value.codes);
    }

    method WarmUpCache(f: Faults)
      requires Valid()
      modifies this`cache
      ensures (View(), Answer.Done) == Step(old(View()), WarmUp, f)
      ensures Safe(old(View())) ==> Safe(View())
      ensures f == NO_FAULTS ==> ActiveFingerprints(keys) <= cache.entries.Keys
    {
      WarmUpKeeps(View(), f);
      hide Step;
      hide Safe;
      hide EntriesFor;
      hide ActiveFingerprints;
      hide UniqueFingerprints;
      hide IsActiveListing;
      hide WarmedUp;
      hide Exec;
      if !f.read {
        return;
      }
      ghost var listing := ActiveListingExists(keys);
      var found: seq<ApiKey> :| IsActiveListing(keys, found);
      ListingWarms(keys, found, cache);
      if |found| == 0 {
        return;
      }
      var multi := QueueAll(found);
      if f.load.Applied() {
        cache := Exec(cache, multi);
      }
    }

    /** The MULTI of a warm-up, key by key. */
    method QueueAll(found: seq<ApiKey>) returns (multi: seq<KeyCommand>)
      ensures var entries := EntriesFor(found);
              Exec(cache, multi) == Cache(cache.entries + entries, cache.tracked + entries.Keys)
    {
      hide EntriesFor;
      hide Exec;
      assert EntriesFor([]) == map[] by { ListingNothing(); }
      multi := [];
      ExecNothing(cache);
      for i := 0 to |found|
        invariant var entries := EntriesFor(found[..i]);
                  Exec(cache, multi) == Cache(cache.entries + entries, cache.tracked + entries.Keys)
      {
        QueueMore(cache, multi, found, i);
        multi := multi + [SetEntry(found[i].fingerprint, CacheOf(found[i]))];
        multi := multi + [Track(found[i].fingerprint)];
      }
      assert found[..|found|] == found;
    }
  }

  /** Two more commands in the MULTI drop one more fingerprint. */
  lemma DropMore(c: Cache<string, CachedKey>, multi: seq<KeyCommand>, dropped: set<string>, fp: string)
    requires Exec(c, multi) == Cache(c.entries - dropped, c.tracked - dropped)
    ensures Exec(c, multi + [DelEntry(fp)] + [Untrack(fp)])
         == Cache(c.entries - (dropped + {fp}), c.tracked - (dropped + {fp}))
  {
    hide Exec;
    ExecDropMore(c, multi, fp);
    DroppedAfter(c.entries, c.tracked, dropped, fp);
  }

  /** The hourly job: the tracked fingerprints minus the active ones, deleted in one MULTI. */
  class ApiKeysCacheReconciliationService {
    const service: ApiKeysService

    constructor (service: ApiKeysService)
      ensures this.service == service
    {
      this.service := service;
    }

    /** The one query of the job: which of these fingerprints are active. */
    method FindActiveFingerprintsIn(fingerprints: set<string>) returns (active: set<string>)
      ensures active == fingerprints * ActiveFingerprints(service.keys)
    {
      active := set id | id in service.keys && service.keys[id].active
                         && service.keys[id].fingerprint in fingerprints :: service.keys[id].fingerprint;
      forall fp | fp in fingerprints && fp in ActiveFingerprints(service.keys) ensures fp in active {
        var id :| ActiveAs(service.keys, fp, id);
      }
      forall fp | fp in active ensures fp in ActiveFingerprints(service.keys) {
        var id :| id in service.keys && service.keys[id].active && service.keys[id].fingerprint == fp;
        assert ActiveAs(service.keys, fp, id);
      }
    }

    method DeleteStaleKeys(f: Faults)
      modifies service`cache
      ensures (service.View(), Answer.Done) == Step(old(service.View()), Reconcile, f)
      ensures Tracked(old(service.View())) && f == NO_FAULTS ==> Safe(service.View())
      ensures Safe(old(service.View())) ==> Safe(service.View())
    {
      ReconcileRepairs(service.View());
      if Safe(service.View()) {
        SafeStep(service.View(), Reconcile, f);
      }
      hide Safe;
      hide Tracked;
      hide ActiveFingerprints;
      if !f.get {
        return;
      }
      var c := service.cache;
      if c.tracked == {} {
        NothingStale(service.keys, c);
        return;
      }
      if !f.read {
        return;
      }
      var active := FindActiveFingerprintsIn(c.tracked);
      var stale := c.tracked - active;
      if stale == {} {
        forall fp | fp in c.tracked ensures fp in active {
          assert fp !in stale;
        }
        NothingStale(service.keys, c);
        return;
      }
      assert stale == c.tracked - ActiveFingerprints(service.keys);
      assert c.tracked - stale == c.tracked * ActiveFingerprints(service.keys);
      DropAll(stale, f.invalidate);
    }

    /** The MULTI over the stale fingerprints. */
    method DropAll(stale: set<string>, o: Outcome)
      modifies service`cache
      ensures service.cache == if o.Applied()
        then Cache(old(service.cache).entries - stale, old(service.cache).tracked - stale) else old(service.cache)
    {
      var c := service.cache;
      var multi: seq<KeyCommand> := [];
      ExecNothing(c);
      var left := stale;
      while left != {}
        invariant service.cache == c && left <= stale
        invariant Exec(c, multi) == Cache(c.entries - (stale - left), c.tracked - (stale - left))
        decreases |left|
      {
        var fp :| fp in left;
        DropMore(c, multi, stale - left, fp);
        assert stale - left + {fp} == stale - (left - {fp});
        multi := multi + [DelEntry(fp)];
        multi := multi + [Untrack(fp)];
        left := left - {fp};
      }
      if o.Applied() {
        service.cache := Exec(c, multi);
      }
    }
  }
}
