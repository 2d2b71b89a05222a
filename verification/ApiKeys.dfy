/** API keys: the table, the Redis cache in front of it, and every operation of the service. Every
    cache write is one MULTI, and `deactivate` invalidates before it saves. A raw key is known here by
    its HMAC fingerprint. */
module ApiKeys {
  import opened Common
  import opened TrackedCache
  import Permissions

  datatype ApiKey = ApiKey(fingerprint: string, client: string, active: bool, codes: seq<string>)

  datatype CachedKey = CachedKey(client: string, codes: seq<string>)

  type Table = map<string, ApiKey>

  datatype State = State(perms: map<string, string>, keys: Table, cache: Cache<string, CachedKey>)

  datatype Error = KeyNotFound | AlreadyInactive | AlreadyActive | PermissionNotFound | InvalidationFailed | DbDown

  datatype Answer = Codes(codes: seq<string>) | Done | Failure(error: Error)

  datatype Op =
    | Create(id: string, fingerprint: string, client: string, permissionIds: seq<string>)
    | Deactivate(id: string)
    | Activate(id: string)
    | ChangePermissions(id: string, permissionIds: seq<string>)
    | Find(fingerprint: string)
    | WarmUp
    | Reconcile
    | RedisRestart

  /** How Postgres and Redis answer: a save, a read, a Redis read, and the MULTIs that invalidate and
      that load. */
  datatype Faults = Faults(save: Outcome, read: bool, get: bool, invalidate: Outcome, load: Outcome)

  const NO_FAULTS := Faults(Outcome.Done, true, true, Outcome.Done, Outcome.Done)

  /** The unique index on key_fingerprint. */
  ghost predicate UniqueFingerprints(keys: Table) {
    forall i, j | i in keys && j in keys && keys[i].fingerprint == keys[j].fingerprint :: i == j
  }

  ghost predicate ActiveAs(keys: Table, fp: string, id: string) {
    id in keys && keys[id].fingerprint == fp && keys[id].active
  }

  /** findByFingerprint: some active key has this fingerprint. */
  ghost predicate IsActive(keys: Table, fp: string) {
    exists id :: ActiveAs(keys, fp, id)
  }

  ghost function ActiveKey(keys: Table, fp: string): (k: ApiKey)
    requires IsActive(keys, fp)
    ensures k.active && k.fingerprint == fp
  {
    var id :| ActiveAs(keys, fp, id);
    keys[id]
  }

  lemma ActiveById(keys: Table, id: string)
    requires UniqueFingerprints(keys) && id in keys
    ensures IsActive(keys, keys[id].fingerprint) <==> keys[id].active
    ensures keys[id].active ==> ActiveKey(keys, keys[id].fingerprint) == keys[id]
  {
    if keys[id].active {
      assert ActiveAs(keys, keys[id].fingerprint, id);
    }
  }

  function Fingerprints(keys: Table): set<string> {
    set id | id in keys :: keys[id].fingerprint
  }

  ghost function ActiveFingerprints(keys: Table): set<string> {
    set fp | fp in Fingerprints(keys) && IsActive(keys, fp)
  }

  function CacheOf(k: ApiKey): CachedKey {
    CachedKey(k.client, k.codes)
  }

  /** What a key is allowed according to the database alone. */
  ghost function DbFind(keys: Table, fp: string): Answer {
    if IsActive(keys, fp) then Codes(ActiveKey(keys, fp).codes) else Failure(KeyNotFound)
  }

  /** The MULTI that writes an entry and tracks it. */
  function Loaded(c: Cache<string, CachedKey>, k: ApiKey, o: Outcome): Cache<string, CachedKey> {
    if o.Applied() then Cache(c.entries[k.fingerprint := CacheOf(k)], c.tracked + {k.fingerprint}) else c
  }

  /** The MULTI that deletes an entry and its tracking. */
  function Invalidated(c: Cache<string, CachedKey>, fp: string, o: Outcome): Cache<string, CachedKey> {
    if o.Applied() then Cache(c.entries - {fp}, c.tracked - {fp}) else c
  }

  ghost function WarmedUp(keys: Table, c: Cache<string, CachedKey>): Cache<string, CachedKey> {
    Cache(map fp | fp in c.entries.Keys + ActiveFingerprints(keys) ::
            if fp in ActiveFingerprints(keys) then CacheOf(ActiveKey(keys, fp)) else c.entries[fp],
          c.tracked + ActiveFingerprints(keys))
  }

  /** Tracked fingerprints that are not active are deleted, in one MULTI. */
  ghost function StaleDropped(keys: Table, c: Cache<string, CachedKey>): Cache<string, CachedKey> {
    Cache(c.entries - (c.tracked - ActiveFingerprints(keys)), c.tracked * ActiveFingerprints(keys))
  }

  ghost function Step(s: State, op: Op, f: Faults): (State, Answer) {
    match op
    case Create(id, fp, client, permissionIds) =>
      var codes := Permissions.CodesFor(s.perms, permissionIds);
      if codes.None? then (s, Failure(PermissionNotFound))
      else if id in s.keys || fp in Fingerprints(s.keys) then (s, Failure(DbDown))
      else
        var t := s.(keys := s.keys[id := ApiKey(fp, client, true, codes.value)]);
        (if f.save.Applied() then t else s, if f.save.Raised() then Failure(DbDown) else Answer.Done)
    case Deactivate(id) =>
      if id !in s.keys then (s, Failure(KeyNotFound))
      else if !s.keys[id].active then (s, Failure(AlreadyInactive))
      else
        var t := s.(cache := Invalidated(s.cache, s.keys[id].fingerprint, f.invalidate));
        if f.invalidate.Raised() then (t, Failure(InvalidationFailed))
        else
          var u := t.(keys := s.keys[id := s.keys[id].(active := false)]);
          (if f.save.Applied() then u else t, if f.save.Raised() then Failure(DbDown) else Answer.Done)
    case Activate(id) =>
      if id !in s.keys then (s, Failure(KeyNotFound))
      else if s.keys[id].active then (s, Failure(AlreadyActive))
      else
        var key := s.keys[id].(active := true);
        var t := s.(keys := s.keys[id := key]);
        if f.save.Raised() then (if f.save.Applied() then t else s, Failure(DbDown))
        else (t.(cache := Loaded(t.cache, key, f.load)), Answer.Done)
    case ChangePermissions(id, permissionIds) =>
      if id !in s.keys then (s, Failure(KeyNotFound))
      else
        var codes := Permissions.CodesFor(s.perms, permissionIds);
        if codes.None? then (s, Failure(PermissionNotFound))
        else
          var key := s.keys[id].(codes := codes.value);
          var t := s.(keys := s.keys[id := key]);
          if f.save.Raised() then (if f.save.Applied() then t else s, Failure(DbDown))
          else
            var dropped := Invalidated(s.cache, key.fingerprint, f.invalidate);
            if f.invalidate.Raised() then (t.(cache := dropped), Failure(InvalidationFailed))
            else (t.(cache := Loaded(dropped, key, f.load)), Answer.Done)
    case Find(fp) =>
      if f.get && fp in s.cache.entries then (s, Codes(s.cache.entries[fp].codes))
      else if !f.read then (s, Failure(DbDown))
      else if !IsActive(s.keys, fp) then (s, Failure(KeyNotFound))
      else (s.(cache := Loaded(s.cache, ActiveKey(s.keys, fp), f.load)), Codes(ActiveKey(s.keys, fp).codes))
    case WarmUp =>
      (if f.read && f.load.Applied() then s.(cache := WarmedUp(s.keys, s.cache)) else s, Answer.Done)
    case Reconcile =>
      (if f.get && f.read && f.invalidate.Applied() then s.(cache := StaleDropped(s.keys, s.cache)) else s, Answer.Done)
    case RedisRestart => (s.(cache := Cache(map[], {})), Answer.Done)
  }
}
