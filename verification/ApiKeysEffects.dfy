/** What each operation on API keys means to its caller, row by row: when it is refused and why, what a save
    leaves in the table, and what a lookup of the fingerprint answers from then on. */
module ApiKeysEffects {
  import opened Common
  import opened TrackedCache
  import opened ApiKeys
  import opened ApiKeysRevocation
  import Permissions

  predicate Refused(s: State, t: State, a: Answer, e: Error) {
    t == s && a == Failure(e)
  }

  /** Postgres stores these keys, or it does not, or it does and its reply is lost. */
  predicate Saves(s: State, t: State, a: Answer, save: Outcome, keys: Table) {
    && t.perms == s.perms
    && match save
       case Done => t.keys == keys
       case Failed => t.keys == s.keys && a == Failure(DbDown)
       case Lost => t.keys == keys && a == Failure(DbDown)
  }

  function CodesOf(perms: map<string, string>, ids: seq<string>): seq<string>
    requires forall id | id in ids :: id in perms
  {
    seq(|ids|, i requires 0 <= i < |ids| => perms[ids[i]])
  }

  /** A new key is active and has the codes of the given permissions, in their order. Nothing is cached. */
  predicate Creates(s: State, t: State, a: Answer, id: string, fp: string, client: string, permissionIds: seq<string>,
                    save: Outcome)
  {
    if exists p | p in permissionIds :: p !in s.perms then Refused(s, t, a, PermissionNotFound)
    else if id in s.keys || exists j | j in s.keys :: s.keys[j].fingerprint == fp then Refused(s, t, a, DbDown)
    else
      && t.cache == s.cache && (save.Done? ==> a == Answer.Done)
      && Saves(s, t, a, save, s.keys[id := ApiKey(fp, client, true, CodesOf(s.perms, permissionIds))])
  }

  /** A deactivation first drops the entry; only when that is confirmed does it switch the key off, keeping
      its fingerprint, client and codes. */
  predicate Deactivates(s: State, t: State, a: Answer, id: string, invalidate: Outcome, save: Outcome) {
    if id !in s.keys then Refused(s, t, a, KeyNotFound)
    else if !s.keys[id].active then Refused(s, t, a, AlreadyInactive)
    else if !invalidate.Done? then t.keys == s.keys && t.perms == s.perms && a == Failure(InvalidationFailed)
    else
      var k := s.keys[id];
      && k.fingerprint !in t.cache.entries && (save.Done? ==> a == Answer.Done)
      && Saves(s, t, a, save, s.keys[id := ApiKey(k.fingerprint, k.client, false, k.codes)])
  }

  /** An activation switches the key on with the codes it had. */
  predicate Activates(s: State, t: State, a: Answer, id: string, save: Outcome) {
    if id !in s.keys then Refused(s, t, a, KeyNotFound)
    else if s.keys[id].active then Refused(s, t, a, AlreadyActive)
    else
      var k := s.keys[id];
      && (save.Done? ==> a == Answer.Done)
      && Saves(s, t, a, save, s.keys[id := ApiKey(k.fingerprint, k.client, true, k.codes)])
  }

  /** A change of permissions sets the codes and nothing else of the row. */
  predicate Changes(s: State, t: State, a: Answer, id: string, permissionIds: seq<string>, save: Outcome,
                    invalidate: Outcome)
  {
    if id !in s.keys then Refused(s, t, a, KeyNotFound)
    else if exists p | p in permissionIds :: p !in s.perms then Refused(s, t, a, PermissionNotFound)
    else
      var k := s.keys[id];
      && (save.Done? ==> a == if invalidate.Done? then Answer.Done else Failure(InvalidationFailed))
      && Saves(s, t, a, save, s.keys[id := ApiKey(k.fingerprint, k.client, k.active, CodesOf(s.perms, permissionIds))])
  }

  // ----- Every operation has its effect -----

  lemma SameCodes(perms: map<string, string>, ids: seq<string>)
    ensures Permissions.CodesFor(perms, ids) ==
      if forall id | id in ids :: id in perms then Some(CodesOf(perms, ids)) else None
  {
    var codes := Permissions.CodesFor(perms, ids);
    if codes.Some? {
      assert forall id | id in ids :: id in perms;
      assert codes.value == CodesOf(perms, ids);
    }
    hide Permissions.CodesFor;
  }

  lemma CreateEffect(s: State, id: string, fp: string, client: string, permissionIds: seq<string>, f: Faults)
    ensures var (t, a) := Step(s, Create(id, fp, client, permissionIds), f);
            Creates(s, t, a, id, fp, client, permissionIds, f.save)
  {
    SameCodes(s.perms, permissionIds);
    assert fp in Fingerprints(s.keys) <==> exists j | j in s.keys :: s.keys[j].fingerprint == fp;
    hide Fingerprints;
    hide Permissions.CodesFor;
    hide CodesOf;
  }

  lemma DeactivateEffect(s: State, id: string, f: Faults)
    ensures var (t, a) := Step(s, Deactivate(id), f); Deactivates(s, t, a, id, f.invalidate, f.save)
  {}

  lemma ActivateEffect(s: State, id: string, f: Faults)
    ensures var (t, a) := Step(s, Activate(id), f); Activates(s, t, a, id, f.save)
  {}

  lemma ChangeEffect(s: State, id: string, permissionIds: seq<string>, f: Faults)
    ensures var (t, a) := Step(s, ChangePermissions(id, permissionIds), f);
            Changes(s, t, a, id, permissionIds, f.save, f.invalidate)
  {
    SameCodes(s.perms, permissionIds);
    hide Permissions.CodesFor;
    hide CodesOf;
  }

  // ----- What lookups answer from then on -----

  /** A fingerprint is known to the table, with these codes: some active key has both. */
  lemma FindByRow(keys: Table, id: string)
    requires UniqueFingerprints(keys) && id in keys
    ensures DbFind(keys, keys[id].fingerprint) ==
      if keys[id].active then Codes(keys[id].codes) else Failure(KeyNotFound)
  {
    ActiveById(keys, id);
  }

  /** And to one that no active key has, the table answers that there is none. */
  lemma FindNothing(keys: Table, fp: string)
    requires forall id | id in keys && keys[id].fingerprint == fp :: !keys[id].active
    ensures DbFind(keys, fp) == Failure(KeyNotFound)
  {
    assert forall id :: !ActiveAs(keys, fp, id);
  }

  /** What the table answers for the key's fingerprint once the operation has succeeded, and that it answers
      for every other as before. */
  lemma FindAfter(s: State, op: Op, f: Faults, other: string)
    requires UniqueFingerprints(s.keys) && OnOneKey(op) && Step(s, op, f).1 == Answer.Done
    ensures var keys := Step(s, op, f).0.keys;
            match op
            case Create(id, fp, client, permissionIds) =>
              && (forall p | p in permissionIds :: p in s.perms)
              && id in keys && keys[id].client == client
              && DbFind(keys, fp) == Codes(CodesOf(s.perms, permissionIds))
            case Activate(id) => id in s.keys && DbFind(keys, s.keys[id].fingerprint) == Codes(s.keys[id].codes)
            case Deactivate(id) =>
              && id in s.keys && id in keys && DbFind(keys, s.keys[id].fingerprint) == Failure(KeyNotFound)
              && keys[id].codes == s.keys[id].codes && keys[id].client == s.keys[id].client
            case ChangePermissions(id, permissionIds) =>
              && id in s.keys && (forall p | p in permissionIds :: p in s.perms)
              && (s.keys[id].active ==> DbFind(keys, s.keys[id].fingerprint) == Codes(CodesOf(s.perms, permissionIds)))
            case _ => true
    ensures var keys := Step(s, op, f).0.keys;
            op.id in keys && (other != keys[op.id].fingerprint ==> DbFind(keys, other) == DbFind(s.keys, other))
  {
    var t := Step(s, op, f).0;
    match op {
      case Create(id, fp, client, permissionIds) => CreateEffect(s, id, fp, client, permissionIds, f);
      case Activate(id) => ActivateEffect(s, id, f);
      case Deactivate(id) => DeactivateEffect(s, id, f);
      case ChangePermissions(id, permissionIds) => ChangeEffect(s, id, permissionIds, f);
    }
    OneKeyEffect(s, op, f);
    hide Step;
    hide CodesOf;
    RowUnique(s.keys, op.id, t.keys[op.id]);
    FindByRow(t.keys, op.id);
    if other != t.keys[op.id].fingerprint {
      RowFrame(s.keys, op.id, t.keys[op.id], other);
    }
    hide DbFind;
    hide UniqueFingerprints;
  }

  /** What a lookup answers, whatever can be read: the cached codes if Redis has them, otherwise those of the
      active key with the fingerprint, and that it cannot tell only if Postgres cannot be read either. */
  lemma FindEffect(s: State, fp: string, f: Faults)
    ensures var (t, a) := Step(s, Find(fp), f);
            && t.keys == s.keys && t.perms == s.perms
            && if f.get && fp in s.cache.entries then t == s && a == Codes(s.cache.entries[fp].codes)
               else if !f.read then t == s && a == Failure(DbDown)
               else if forall id | id in s.keys && s.keys[id].fingerprint == fp :: !s.keys[id].active
               then t == s && a == Failure(KeyNotFound)
               else exists id | id in s.keys && s.keys[id].fingerprint == fp && s.keys[id].active ::
                      a == Codes(s.keys[id].codes)
  {
    if IsActive(s.keys, fp) {
      var id :| ActiveAs(s.keys, fp, id);
    }
    forall id | id in s.keys && s.keys[id].fingerprint == fp && s.keys[id].active ensures IsActive(s.keys, fp) {
      assert ActiveAs(s.keys, fp, id);
    }
  }

  // ----- What is in Redis from then on -----

  /** One MULTI writes the entry of a key and tracks it, or is not carried out. */
  predicate Caches(c: Cache<string, CachedKey>, t: Cache<string, CachedKey>, k: ApiKey, load: Outcome) {
    t == if load.Failed? then c
         else Cache(c.entries[k.fingerprint := CachedKey(k.client, k.codes)], c.tracked + {k.fingerprint})
  }

  /** One MULTI deletes the entry and its tracking, or is not carried out. */
  predicate Drops(c: Cache<string, CachedKey>, t: Cache<string, CachedKey>, fp: string, invalidate: Outcome) {
    t == if invalidate.Failed? then c else Cache(c.entries - {fp}, c.tracked - {fp})
  }

  /** What every operation does to the cache, whatever fails: a creation nothing; a deactivation drops the entry
      before it saves; an activation that is saved writes it; a saved change of permissions drops it, and only
      once that is confirmed writes the new one; a lookup writes the key that it had to read. */
  lemma CacheAfter(s: State, op: Op, f: Faults)
    requires UniqueFingerprints(s.keys)
    ensures var (t, a) := Step(s, op, f);
            match op
            case Create(_, _, _, _) => t.cache == s.cache
            case Deactivate(id) =>
              if id in s.keys && s.keys[id].active then Drops(s.cache, t.cache, s.keys[id].fingerprint, f.invalidate)
              else t.cache == s.cache
            case Activate(id) =>
              if a == Answer.Done then id in t.keys && Caches(s.cache, t.cache, t.keys[id], f.load)
              else t.cache == s.cache
            case ChangePermissions(id, _) =>
              if a == Answer.Done
              then id in t.keys && exists c :: Drops(s.cache, c, t.keys[id].fingerprint, f.invalidate)
                                               && Caches(c, t.cache, t.keys[id], f.load)
              else if a == Failure(InvalidationFailed)
              then id in t.keys && Drops(s.cache, t.cache, t.keys[id].fingerprint, f.invalidate)
              else t.cache == s.cache
            case Find(fp) =>
              if a.Codes? && !(f.get && fp in s.cache.entries)
              then exists id | id in s.keys && s.keys[id].fingerprint == fp && s.keys[id].active ::
                     Caches(s.cache, t.cache, s.keys[id], f.load)
              else t.cache == s.cache
            case _ => true
  {
    match op {
      case ChangePermissions(id, _) =>
        if id in s.keys {
          var fp := s.keys[id].fingerprint;
          assert Drops(s.cache, Invalidated(s.cache, fp, f.invalidate), fp, f.invalidate);
        }
      case Find(fp) =>
        if IsActive(s.keys, fp) {
          var id :| ActiveAs(s.keys, fp, id);
          ActiveById(s.keys, id);
          hide IsActive;
          hide ActiveKey;
        }
      case _ =>
    }
    hide Permissions.CodesFor;
    hide UniqueFingerprints;
  }

  /** A warm-up writes and tracks the entries of all active keys, all at once or not at all. */
  lemma WarmUpEffect(s: State, f: Faults)
    requires UniqueFingerprints(s.keys)
    ensures var t := Step(s, WarmUp, f).0;
            && t == s.(cache := t.cache)
            && if !f.read || f.load.Failed? then t == s
               else
                 var fps := set id | id in s.keys && s.keys[id].active :: s.keys[id].fingerprint;
                 && t.cache.tracked == s.cache.tracked + fps && t.cache.entries.Keys == s.cache.entries.Keys + fps
                 && (forall id | id in s.keys && s.keys[id].active ::
                       t.cache.entries[s.keys[id].fingerprint] == CachedKey(s.keys[id].client, s.keys[id].codes))
                 && forall fp | fp in s.cache.entries && fp !in fps :: t.cache.entries[fp] == s.cache.entries[fp]
  {
    AreActive(s.keys);
    hide IsActive;
    hide ActiveKey;
  }

  /** A reconciliation deletes the tracked entries of keys that are not active, all at once or not at all. */
  lemma ReconcileEffect(s: State, f: Faults)
    requires UniqueFingerprints(s.keys)
    ensures var t := Step(s, Reconcile, f).0;
            && t == s.(cache := t.cache)
            && if !f.get || !f.read || f.invalidate.Failed? then t == s
               else
                 var fps := set id | id in s.keys && s.keys[id].active :: s.keys[id].fingerprint;
                 var dead := set fp | fp in s.cache.tracked && fp !in fps;
                 t.cache == Cache(s.cache.entries - dead, s.cache.tracked - dead)
  {
    AreActive(s.keys);
    hide IsActive;
    var fps := set id | id in s.keys && s.keys[id].active :: s.keys[id].fingerprint;
    var dead := set fp | fp in s.cache.tracked && fp !in fps;
    assert s.cache.tracked - fps == dead && s.cache.tracked * fps == s.cache.tracked - dead;
  }

  lemma AreActive(keys: Table)
    requires UniqueFingerprints(keys)
    ensures ActiveFingerprints(keys) == set id | id in keys && keys[id].active :: keys[id].fingerprint
    ensures forall id | id in keys && keys[id].active ::
      IsActive(keys, keys[id].fingerprint) && ActiveKey(keys, keys[id].fingerprint) == keys[id]
  {
    forall id | id in keys
      ensures IsActive(keys, keys[id].fingerprint) <==> keys[id].active
      ensures keys[id].active ==> ActiveKey(keys, keys[id].fingerprint) == keys[id]
    {
      ActiveById(keys, id);
    }
    hide ActiveKey;
    hide IsActive;
  }
}
