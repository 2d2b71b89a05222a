/** How the backlog drains when nothing fails, and that it can always be drained: after any run
    whatever, one publisher working alone delivers every event ever committed. */
module OutboxDrain {
  import opened Common
  import opened OutboxProtocol

  // ----- One tick of one publisher, nothing failing -----

  function MarkSent(rows: Table, ids: seq<EventId>): Table {
    map id | id in rows :: if id in ids then rows[id].(status := SENT, claimedAt := None) else rows[id]
  }

  function PublishEvents(w: WorkerId, n: nat): (es: seq<Event>)
    ensures forall e | e in es :: !e.Insert?
  {
    if n == 0 then [] else [EmitOk(w), AckOk(w)] + PublishEvents(w, n - 1)
  }

  /** The steps of one undisturbed publisher: claim, then emit and acknowledge each event, then end. */
  function TickEvents(w: WorkerId, at: nat, n: nat): seq<Event> {
    [Claim(w, at, {})] + PublishEvents(w, n) + [Die(w)]
  }

  /** One event emitted and acknowledged. */
  lemma PublishOne(s: System, w: WorkerId, id: EventId)
    requires At(s, w, Ready) && Head(s, w) == id && id in s.rows
    ensures CanRun(s, [EmitOk(w), AckOk(w)])
    ensures Run(s, [EmitOk(w), AckOk(w)])
         == s.(rows := MarkSent(s.rows, [id]), log := s.log + [id],
               workers := s.workers[w := s.workers[w].(batch := s.workers[w].batch[1..])])
  {
    var s1 := Apply(s, EmitOk(w));
    RunOne(s, EmitOk(w));
    RunOne(s1, AckOk(w));
    assert Apply(s1, AckOk(w)).rows == MarkSent(s.rows, [id]);
    RunConcat(s, [EmitOk(w)], [AckOk(w)]);
    assert [EmitOk(w)] + [AckOk(w)] == [EmitOk(w), AckOk(w)];
  }

  lemma {:induction false} PublishBatch(s: System, w: WorkerId, batch: seq<EventId>)
    requires w in s.workers && s.workers[w].phase == Ready && s.workers[w].batch == batch
    requires forall id | id in batch :: id in s.rows
    ensures CanRun(s, PublishEvents(w, |batch|))
    ensures Run(s, PublishEvents(w, |batch|))
         == s.(rows := MarkSent(s.rows, batch), log := s.log + batch,
               workers := s.workers[w := s.workers[w].(batch := [])])
    decreases |batch|
  {
    hide Apply;
    if batch == [] {
      assert MarkSent(s.rows, batch) == s.rows;
      assert s.workers[w := s.workers[w].(batch := [])] == s.workers;
      assert s.log + batch == s.log;
    } else {
      var one, rest := [EmitOk(w), AckOk(w)], PublishEvents(w, |batch| - 1);
      PublishOne(s, w, batch[0]);
      var s2 := Run(s, one);
      PublishBatch(s2, w, batch[1..]);
      RunConcat(s, one, rest);
      assert MarkSent(s2.rows, batch[1..]) == MarkSent(s.rows, batch);
      assert s.log + [batch[0]] + batch[1..] == s.log + batch;
    }
  }

  function NextBatch(s: System): seq<EventId> {
    ClaimBatch(s.rows, s.now, {})
  }

  function CleanTick(s: System): System {
    s.(rows := MarkSent(s.rows, NextBatch(s)), log := s.log + NextBatch(s))
  }

  lemma CleanTickRuns(s: System, w: WorkerId)
    requires w !in s.workers
    ensures var es := TickEvents(w, s.now, |NextBatch(s)|); CanRun(s, es) && Run(s, es) == CleanTick(s)
  {
    hide ClaimBatch;
    hide Run;
    hide CanRun;
    hide PublishEvents;
    var batch := NextBatch(s);
    assert forall id | id in batch :: id in s.rows by { ClaimBatchFacts(s.rows, s.now, {}); }
    var claim, publish := Claim(w, s.now, {}), PublishEvents(w, |batch|);
    var s1 := Apply(s, claim);
    RunOne(s, claim);
    PublishBatch(s1, w, batch);
    var s2 := Run(s1, publish);
    assert Apply(s2, Die(w)) == CleanTick(s) by {
      assert MarkSent(s1.rows, batch) == MarkSent(s.rows, batch);
      assert s2.workers - {w} == s.workers;
    }
    RunOne(s2, Die(w));
    RunConcat(s, [claim], publish);
    RunConcat(s, [claim] + publish, [Die(w)]);
  }

  // ----- Several ticks -----

  /** A publisher alone, waiting waits[i] milliseconds before its i-th tick. */
  function Drain(s: System, waits: seq<nat>): (f: System)
    ensures f.committed == s.committed && |f.log| >= |s.log|
    decreases |waits|
  {
    if waits == [] then s else Drain(CleanTick(s.(now := s.now + waits[0])), waits[1..])
  }

  lemma WaitRuns(s: System, ms: nat)
    ensures CanRun(s, [Tick(ms)]) && Run(s, [Tick(ms)]) == s.(now := s.now + ms)
  {
    RunOne(s, Tick(ms));
  }

  lemma CleanTickWorkers(s: System)
    ensures CleanTick(s).workers == s.workers
  {}

  lemma {:induction false} DrainRuns(s: System, w: WorkerId, waits: seq<nat>) returns (es: seq<Event>)
    requires w !in s.workers
    ensures CanRun(s, es) && Run(s, es) == Drain(s, waits)
    ensures forall e | e in es :: !e.Insert?
    decreases |waits|
  {
    hide Apply;
    hide Enabled;
    hide CleanTick;
    hide PublishEvents;
    if waits == [] {
      es := [];
    } else {
      var tick, s1 := Tick(waits[0]), s.(now := s.now + waits[0]);
      WaitRuns(s, waits[0]);
      CleanTickRuns(s1, w);
      CleanTickWorkers(s1);
      var publish := TickEvents(w, s1.now, |NextBatch(s1)|);
      var rest := DrainRuns(CleanTick(s1), w, waits[1..]);
      RunConcat(s1, publish, rest);
      RunConcat(s, [tick], publish + rest);
      es := [tick] + (publish + rest);
    }
  }

  function Backlog(s: System): (ids: set<EventId>)
    ensures ids <= s.rows.Keys
  {
    ClaimableIds(s.rows, s.now)
  }

  /** No audit row is held by anyone: each is claimable or SENT. */
  predicate Quiet(s: System) {
    forall id | id in s.rows && s.rows[id].destination == AUDIT_QUEUE ::
      s.rows[id].status == SENT || Claimable(s.rows[id], s.now)
  }

  /** The order of a listing depends on the creation times of the listed rows only. */
  lemma {:induction false} ListingFrame(rows: Table, rows': Table, ids: set<EventId>)
    requires ids <= rows.Keys && ids <= rows'.Keys
    requires forall id | id in ids :: rows[id].createdAt == rows'[id].createdAt
    ensures Listing(rows, ids) == Listing(rows', ids)
    decreases |ids|
  {
    if ids != {} {
      var a, b := Oldest(rows, ids), Oldest(rows', ids);
      assert a == b;
      ListingFrame(rows, rows', ids - {a});
    }
  }

  lemma FirstAndRest(a: EventId, rest: seq<EventId>, k: nat)
    requires 0 < k <= |rest| + 1
    ensures ([a] + rest)[..k] == [a] + rest[..k - 1] && ([a] + rest)[k..] == rest[k - 1..]
  {}

  lemma WithoutFirst(ids: set<EventId>, a: EventId, more: seq<EventId>)
    ensures ids - Elements([a] + more) == (ids - {a}) - Elements(more)
  {}

  lemma {:induction false} ListingDrop(rows: Table, ids: set<EventId>, k: nat)
    requires ids <= rows.Keys && k <= |ids|
    ensures var listing := Listing(rows, ids); Listing(rows, ids - Elements(listing[..k])) == listing[k..]
    decreases k
  {
    hide Oldest;
    hide Listing;
    var listing := Listing(rows, ids);
    if k == 0 {
      assert ids - Elements(listing[..k]) == ids;
    } else {
      var a := Oldest(rows, ids);
      var rest := Listing(rows, ids - {a});
      ListingUnfold(rows, ids);
      ListingDrop(rows, ids - {a}, k - 1);
      FirstAndRest(a, rest, k);
      WithoutFirst(ids, a, rest[..k - 1]);
    }
  }

  /** Sending some rows takes exactly these out of the backlog. */
  lemma BacklogAfterSending(s: System, batch: seq<EventId>)
    requires forall id | id in batch :: id in Backlog(s)
    ensures ClaimableIds(MarkSent(s.rows, batch), s.now) == Backlog(s) - Elements(batch)
  {}

  lemma QuietAfterSending(s: System, batch: seq<EventId>)
    requires Quiet(s)
    ensures Quiet(s.(rows := MarkSent(s.rows, batch), log := s.log + batch))
  {}

  /** A clean tick takes the oldest hundred off the backlog and leaves the rest in order. */
  lemma TickShrinksBacklog(s: System)
    requires Quiet(s)
    ensures var t := CleanTick(s); var listing := Listing(s.rows, Backlog(s));
            && Quiet(t) && t.log == s.log + NextBatch(s) && t.rows == MarkSent(s.rows, NextBatch(s))
            && NextBatch(s) == listing[..Min(BATCH_SIZE, |listing|)]
            && Listing(t.rows, Backlog(t)) == listing[Min(BATCH_SIZE, |listing|)..]
  {
    var t := CleanTick(s);
    var listing := Listing(s.rows, Backlog(s));
    var k := Min(BATCH_SIZE, |listing|);
    assert Backlog(s) - {} == Backlog(s);
    var batch := NextBatch(s);
    assert batch == listing[..k];
    hide Listing;
    hide ClaimBatch;
    assert forall id | id in batch :: id in listing;
    QuietAfterSending(s, batch);
    hide Quiet;
    hide Claimable;
    BacklogAfterSending(s, batch);
    assert Backlog(t) == Backlog(s) - Elements(batch);
    ListingFrame(s.rows, t.rows, Backlog(t));
    ListingDrop(s.rows, Backlog(s), k);
  }

  /** Waiting makes nothing more or less claimable when every audit row is claimable or SENT. */
  lemma WaitKeepsBacklog(s: System, ms: nat)
    requires Quiet(s)
    ensures Quiet(s.(now := s.now + ms)) && Backlog(s.(now := s.now + ms)) == Backlog(s)
  {
    var t := s.(now := s.now + ms);
    forall id | id in s.rows ensures Claimable(t.rows[id], t.now) <==> Claimable(s.rows[id], s.now) {
    }
  }

  lemma MarkSentTwice(rows: Table, a: seq<EventId>, b: seq<EventId>)
    ensures MarkSent(MarkSent(rows, a), b) == MarkSent(rows, a + b)
  {}

  /** How many of n listed rows are sent after some ticks. */
  function Progress(ticks: nat, n: nat): (k: nat)
    ensures k <= n
  {
    Min(BATCH_SIZE * ticks, n)
  }

  /** One tick's share of a listing, then the share of the remaining ticks. */
  lemma ProgressSplit(listing: seq<EventId>, ticks: nat)
    requires ticks > 0
    ensures var b := Min(BATCH_SIZE, |listing|);
            var later := listing[b..][..Progress(ticks - 1, |listing| - b)];
            && listing[..b] + later == listing[..Progress(ticks, |listing|)]
            && listing[b..][|later|..] == listing[Progress(ticks, |listing|)..]
  {}

  lemma DrainUnfold(s: System, waits: seq<nat>)
    requires waits != []
    ensures Drain(s, waits) == Drain(CleanTick(s.(now := s.now + waits[0])), waits[1..])
  {}

  lemma DrainNothing(s: System)
    ensures Drain(s, []) == s && MarkSent(s.rows, []) == s.rows && forall n: nat :: Progress(0, n) == 0
  {}

  /** From s to f some ticks have sent the oldest rows of the backlog, a hundred each, in order; nothing
      else has changed. */
  predicate Drained(s: System, f: System, ticks: nat) {
    var listing := Listing(s.rows, Backlog(s));
    var k := Progress(ticks, |listing|);
    && Quiet(f)
    && f.log == s.log + listing[..k]
    && f.rows == MarkSent(s.rows, listing[..k])
    && Listing(f.rows, Backlog(f)) == listing[k..]
  }

  lemma Regroup(a: seq<EventId>, b: seq<EventId>, c: seq<EventId>)
    ensures (a + b) + c == a + (b + c)
  {}

  lemma DrainedFirst(s: System, t: System, f: System, ticks: nat)
    requires ticks > 0 && Drained(t, f, ticks - 1)
    requires var listing := Listing(s.rows, Backlog(s)); var b := Min(BATCH_SIZE, |listing|);
             && t.log == s.log + listing[..b] && t.rows == MarkSent(s.rows, listing[..b])
             && Listing(t.rows, Backlog(t)) == listing[b..]
    ensures Drained(s, f, ticks)
  {
    hide Quiet;
    hide Listing;
    hide Backlog;
    hide MarkSent;
    hide Progress;
    var listing := Listing(s.rows, Backlog(s));
    var b := Min(BATCH_SIZE, |listing|);
    var first, rest := listing[..b], listing[b..];
    var k := Progress(ticks - 1, |rest|);
    ProgressSplit(listing, ticks);
    MarkSentTwice(s.rows, first, rest[..k]);
    Regroup(s.log, first, rest[..k]);
  }

  lemma {:induction false} DrainProgress(s: System, waits: seq<nat>)
    requires Quiet(s)
    ensures Drained(s, Drain(s, waits), |waits|) && Quiet(Drain(s, waits))
    decreases |waits|
  {
    hide Quiet;
    hide Listing;
    hide NextBatch;
    hide CleanTick;
    hide MarkSent;
    hide Drain;
    hide Backlog;
    hide Progress;
    if waits == [] {
      DrainNothing(s);
    } else {
      hide Drained;
      var s1 := s.(now := s.now + waits[0]);
      WaitKeepsBacklog(s, waits[0]);
      TickShrinksBacklog(s1);
      DrainProgress(CleanTick(s1), waits[1..]);
      DrainUnfold(s, waits);
      DrainedFirst(s, CleanTick(s1), Drain(s, waits), |waits|);
    }
  }

  lemma DrainFacts(s: System, waits: seq<nat>)
    requires Quiet(s)
    ensures var f := Drain(s, waits); var n := |Backlog(s)|; var emitted := f.log[|s.log|..];
            && f.log[..|s.log|] == s.log
            && (Backlog(f) == {} <==> CeilDiv(n, BATCH_SIZE) <= |waits|)
            && (CeilDiv(n, BATCH_SIZE) <= |waits| ==>
                  && (forall id | id in Backlog(s) :: id in f.rows && f.rows[id].status == SENT)
                  && multiset(emitted) == multiset(Backlog(s)))
            && (forall id | id in emitted :: id in s.rows) && Ordered(s.rows, emitted)
            && (forall id | id in s.rows && id !in Backlog(s) :: id in f.rows && f.rows[id] == s.rows[id])
  {
    hide Drain;
    hide Listing;
    hide Quiet;
    DrainProgress(s, waits);
    var listing := Listing(s.rows, Backlog(s));
    var f := Drain(s, waits);
    var n, k := |listing|, Progress(|waits|, |listing|);
    ListingOrdered(s.rows, Backlog(s));
    assert f.log[|s.log|..] == listing[..k];
    assert forall id | id in listing[..k] :: id in listing;
    assert |Listing(f.rows, Backlog(f))| == n - k;
    CoversIff(n, BATCH_SIZE, |waits|);
    if CeilDiv(n, BATCH_SIZE) <= |waits| {
      assert listing[..k] == listing;
      ListingMultiset(s.rows, Backlog(s));
    }
  }

  /** The n rows that are due are gone from the backlog after exactly ceil(n / 100) ticks, not before. Then each
      is SENT and has been emitted once. At any time the oldest hundred per tick have been emitted, in order of
      creation and, where that is equal, of ids. */
  lemma DrainTheorem(s: System, waits: seq<nat>)
    requires Quiet(s)
    ensures var f := Drain(s, waits); var due := DueIds(s.rows, s.now, {}); var emitted := f.log[|s.log|..];
            && f.log[..|s.log|] == s.log
            && PicksOldest(s.rows, due, 100 * |waits|, emitted)
            && (DueIds(f.rows, f.now, {}) == {} <==> |due| <= 100 * |waits|)
            && (|due| <= 100 * |waits| ==>
                  && (forall id | id in due :: id in f.rows && f.rows[id].status == SENT)
                  && multiset(emitted) == multiset(due))
            && (forall id | id in s.rows && id !in due :: id in f.rows && f.rows[id] == s.rows[id])
  {
    var f := Drain(s, waits);
    SameDue(s.rows, s.now, {});
    SameDue(f.rows, f.now, {});
    assert Backlog(s) - {} == Backlog(s) && Backlog(f) - {} == Backlog(f);
    hide Drain;
    hide Due;
    hide DueIds;
    hide Claimable;
    hide ClaimableIds;
    hide Quiet;
    hide Ordered;
    hide PicksOldest;
    DrainFacts(s, waits);
    CoversIff(|Backlog(s)|, BATCH_SIZE, |waits|);
    EmittedOldest(s, waits);
  }

  lemma EmittedOldest(s: System, waits: seq<nat>)
    requires Quiet(s)
    ensures var f := Drain(s, waits);
            |f.log| >= |s.log| && PicksOldest(s.rows, Backlog(s), 100 * |waits|, f.log[|s.log|..])
  {
    DrainProgress(s, waits);
    var listing := Listing(s.rows, Backlog(s));
    var k := Progress(|waits|, |listing|);
    assert k == if |listing| <= 100 * |waits| then |listing| else 100 * |waits|;
    ListingOrdered(s.rows, Backlog(s));
    assert Drain(s, waits).log == s.log + listing[..k];
    hide *;
    FirstPicked(s.rows, Backlog(s), listing, 100 * |waits|);
    assert (s.log + listing[..k])[|s.log|..] == listing[..k];
  }

  lemma FirstPicked(rows: Table, ids: set<EventId>, listing: seq<EventId>, limit: nat)
    requires |listing| == |ids| && (forall id :: id in listing <==> id in ids) && ids <= rows.Keys
    requires Ordered(rows, listing)
    ensures PicksOldest(rows, ids, limit, listing[..if |listing| <= limit then |listing| else limit])
  {
    var k := if |listing| <= limit then |listing| else limit;
    assert forall id | id in listing[..k] :: id in listing;
    PassedOver(rows, listing, k);
  }

  /** In an ordered listing what is listed first comes before what is listed after. */
  lemma PassedOver(rows: Table, listing: seq<EventId>, k: nat)
    requires k <= |listing| && (forall id | id in listing :: id in rows) && Ordered(rows, listing)
    ensures forall x, y | x in listing[..k] && y in listing && y !in listing[..k] :: Before(rows, x, y)
  {
    assert listing == listing[..k] + listing[k..];
    forall x, y | x in listing[..k] && y in listing && y !in listing[..k] ensures Before(rows, x, y) {
      var i :| 0 <= i < k && listing[i] == x;
      var j :| 0 <= j < |listing[k..]| && listing[k..][j] == y;
      assert listing[k + j] == y;
    }
  }

  lemma {:induction false} ListingMultiset(rows: Table, ids: set<EventId>)
    requires ids <= rows.Keys
    ensures multiset(Listing(rows, ids)) == multiset(ids)
    decreases |ids|
  {
    if ids != {} {
      var a := Oldest(rows, ids);
      ListingMultiset(rows, ids - {a});
      assert Listing(rows, ids) == [a] + Listing(rows, ids - {a});
      assert multiset(ids) == multiset{a} + multiset(ids - {a});
    }
  }

  // ----- Recovery from any run -----

  lemma {:induction false} KillAll(s: System) returns (es: seq<Event>)
    ensures CanRun(s, es)
    ensures Run(s, es).workers == map[] && Run(s, es).rows == s.rows && Run(s, es).now == s.now
    ensures Run(s, es).log == s.log && Run(s, es).committed == s.committed
    ensures forall e | e in es :: !e.Insert?
    decreases |s.workers|
  {
    if s.workers == map[] {
      es := [];
    } else {
      var w :| w in s.workers;
      var t := Apply(s, Die(w));
      assert s.workers.Keys == t.workers.Keys + {w};
      var rest := KillAll(t);
      RunConcat(s, [Die(w)], rest);
      es := [Die(w)] + rest;
    }
  }

  /** Every event ever committed for the audit queue can be delivered: whatever has happened so far,
      with every publisher dead and the stale threshold past, ceil(n / 100) undisturbed ticks emit
      everything that was still waiting. */
  lemma DeliveryAlwaysPossible(es: seq<Event>, waits: seq<nat>) returns (more: seq<Event>)
    requires CanRun(EMPTY, es)
    requires CeilDiv(|Run(EMPTY, es).rows|, BATCH_SIZE) <= |waits|
    ensures CanRun(Run(EMPTY, es), more) && forall e | e in more :: !e.Insert?
    ensures var f := Run(Run(EMPTY, es), more);
            && f.committed == Run(EMPTY, es).committed
            && forall id | id in f.committed :: id in f.log || (id in f.rows && f.rows[id].destination != AUDIT_QUEUE)
  {
    var s := Run(EMPTY, es);
    SafeRun(EMPTY, es);
    more := Recover(s, waits);
  }

  lemma Recover(s: System, waits: seq<nat>) returns (more: seq<Event>)
    requires Safe(s) && CeilDiv(|s.rows|, BATCH_SIZE) <= |waits|
    ensures CanRun(s, more) && forall e | e in more :: !e.Insert?
    ensures Run(s, more).committed == s.committed
    ensures forall id | id in s.committed ::
      id in Run(s, more).log || (id in Run(s, more).rows && Run(s, more).rows[id].destination != AUDIT_QUEUE)
  {
    hide *;
    var kill := KillAll(s);
    var s1 := Run(s, kill);
    var tick := Tick(PROCESSING_TIMEOUT_MS + 1);
    var s2 := s1.(now := s1.now + PROCESSING_TIMEOUT_MS + 1);
    WaitRuns(s1, PROCESSING_TIMEOUT_MS + 1);
    QuietAfterTimeout(s, s2);
    var drain := DrainRuns(s2, 0, waits);
    RunConcat(s1, [tick], drain);
    RunConcat(s, kill, [tick] + drain);
    more := kill + ([tick] + drain);
    var f := Run(s, more);
    assert f == Drain(s2, waits);
    SafeRun(s, more);
    BacklogSize(s2, |waits|);
    DrainFacts(s2, waits);
    assert Quiet(f) by { DrainProgress(s2, waits); }
    assert forall id | id in f.committed ::
      id in f.log || (id in f.rows && f.rows[id].destination != AUDIT_QUEUE) by { NothingWaiting(f); }
  }

  /** With the stale threshold past, every claimed row is claimable again. */
  lemma QuietAfterTimeout(s: System, s2: System)
    requires Safe(s) && s2.rows == s.rows && s2.now == s.now + PROCESSING_TIMEOUT_MS + 1
    ensures Quiet(s2)
  {
    forall id | id in s2.rows && s2.rows[id].destination == AUDIT_QUEUE
      ensures s2.rows[id].status == SENT || Claimable(s2.rows[id], s2.now)
    {
      assert Waiting(s.rows[id]) || s.rows[id].status == SENT;
    }
  }

  lemma NothingWaiting(f: System)
    requires Safe(f) && Quiet(f) && Backlog(f) == {}
    ensures forall id | id in f.committed :: id in f.log || (id in f.rows && f.rows[id].destination != AUDIT_QUEUE)
  {
    forall id | id in f.committed && id in f.rows && f.rows[id].destination == AUDIT_QUEUE ensures id in f.log {
      assert id !in Backlog(f);
    }
  }

  lemma BacklogSize(s: System, k: nat)
    requires CeilDiv(|s.rows|, BATCH_SIZE) <= k
    ensures CeilDiv(|Backlog(s)|, BATCH_SIZE) <= k
  {
    SubsetSize(Backlog(s), s.rows.Keys);
    CoversIff(|s.rows|, BATCH_SIZE, k);
    CoversIff(|Backlog(s)|, BATCH_SIZE, k);
  }
}
