/** A family of Redis keys together with the Redis set that tracks which of them exist, and the
    commands the services send to the pair. */
module TrackedCache {
  import opened Common

  datatype Cache<K, V> = Cache(entries: map<K, V>, tracked: set<K>)
  {
    /** Cached keys missing from the tracking set, which reconciliation cannot see. */
    function Untracked(): set<K> { entries.Keys - tracked }
  }

  datatype Command<K, V> =
    | SetEntry(key: K, value: V)
    | DelEntry(key: K)
    | Track(key: K)
    | Untrack(key: K)
    | DropTracking

  function Apply<K, V>(c: Cache<K, V>, cmd: Command<K, V>): Cache<K, V> {
    match cmd
    case SetEntry(k, v) => c.(entries := c.entries[k := v])
    case DelEntry(k) => c.(entries := c.entries - {k})
    case Track(k) => c.(tracked := c.tracked + {k})
    case Untrack(k) => c.(tracked := c.tracked - {k})
    case DropTracking => c.(tracked := {})
  }

  /** A MULTI: the queued commands in order, all at once. */
  function Exec<K, V>(c: Cache<K, V>, queue: seq<Command<K, V>>): Cache<K, V> {
    if queue == [] then c else Apply(Exec(c, queue[..|queue| - 1]), queue[|queue| - 1])
  }

  lemma ExecNothing<K, V>(c: Cache<K, V>)
    ensures Exec(c, []) == c
  {}

  lemma ExecMore<K, V>(c: Cache<K, V>, queue: seq<Command<K, V>>, cmd: Command<K, V>)
    ensures Exec(c, queue + [cmd]) == Apply(Exec(c, queue), cmd)
  {
    assert (queue + [cmd])[..|queue|] == queue;
  }

  /** Two more queued commands that write a value and track its key. */
  lemma ExecPutMore<K, V>(c: Cache<K, V>, queue: seq<Command<K, V>>, k: K, v: V)
    ensures var d := Exec(c, queue);
            Exec(c, queue + [SetEntry(k, v)] + [Track(k)]) == Cache(d.entries[k := v], d.tracked + {k})
  {
    ExecMore(c, queue, SetEntry(k, v));
    ExecMore(c, queue + [SetEntry(k, v)], Track(k));
  }

  /** Two more queued commands that delete a value and stop tracking its key. */
  lemma ExecDropMore<K, V>(c: Cache<K, V>, queue: seq<Command<K, V>>, k: K)
    ensures var d := Exec(c, queue);
            Exec(c, queue + [DelEntry(k)] + [Untrack(k)]) == Cache(d.entries - {k}, d.tracked - {k})
  {
    ExecMore(c, queue, DelEntry(k));
    ExecMore(c, queue + [DelEntry(k)], Untrack(k));
  }

  lemma Overlay<K, V>(base: map<K, V>, over: map<K, V>, m: map<K, V>)
    requires m.Keys == base.Keys + over.Keys
    requires forall k | k in m :: m[k] == if k in over then over[k] else base[k]
    ensures m == base + over
  {}

  /** Writing one entry after others. */
  lemma WrittenAfter<K, V>(entries: map<K, V>, tracked: set<K>, written: map<K, V>, k: K, v: V)
    ensures (entries + written)[k := v] == entries + written[k := v]
    ensures tracked + written.Keys + {k} == tracked + written[k := v].Keys
  {}

  /** Deleting one key after others. */
  lemma DroppedAfter<K, V>(entries: map<K, V>, tracked: set<K>, dropped: set<K>, k: K)
    ensures entries - dropped - {k} == entries - (dropped + {k})
    ensures tracked - dropped - {k} == tracked - (dropped + {k})
  {}

  /** The MULTI that writes a value and tracks its key. */
  lemma ExecPut<K, V>(c: Cache<K, V>, k: K, v: V)
    ensures Exec(c, [SetEntry(k, v), Track(k)]) == Cache(c.entries[k := v], c.tracked + {k})
  {
    ExecMore(c, [SetEntry(k, v)], Track(k));
    ExecMore(c, [], SetEntry(k, v));
    assert [SetEntry(k, v)] + [Track(k)] == [SetEntry(k, v), Track(k)];
    assert [] + [SetEntry(k, v)] == [SetEntry(k, v)];
  }

  /** The MULTI that deletes a value and stops tracking its key. */
  lemma ExecDrop<K, V>(c: Cache<K, V>, k: K)
    ensures Exec(c, [DelEntry(k), Untrack(k)]) == Cache(c.entries - {k}, c.tracked - {k})
  {
    var del: Command<K, V>, untrack: Command<K, V> := DelEntry(k), Untrack(k);
    ExecMore(c, [del], untrack);
    ExecMore(c, [], del);
    assert [del] + [untrack] == [del, untrack];
    assert [] + [del] == [del];
  }

  /** One command whose outcome is known. */
  function Send<K, V>(c: Cache<K, V>, cmd: Command<K, V>, o: Outcome): Cache<K, V> {
    if o.Applied() then Apply(c, cmd) else c
  }

  /** Two commands in one try block: an error from the first skips the second. */
  function SendBoth<K, V>(c: Cache<K, V>, first: Command<K, V>, o1: Outcome, second: Command<K, V>,
                          o2: Outcome): Cache<K, V> {
    if o1.Raised() then Send(c, first, o1) else Send(Send(c, first, o1), second, o2)
  }

  /** Write a value and track its key, as two separate commands. */
  function Put<K, V>(c: Cache<K, V>, k: K, v: V, put: Outcome, sAdd: Outcome): Cache<K, V> {
    SendBoth(c, SetEntry(k, v), put, Track(k), sAdd)
  }

  /** Delete a value and stop tracking its key, as two separate commands. */
  function Drop<K, V>(c: Cache<K, V>, k: K, del: Outcome, sRem: Outcome): Cache<K, V> {
    SendBoth(c, DelEntry(k), del, Untrack(k), sRem)
  }
}
