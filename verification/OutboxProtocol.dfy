/** The transactional outbox as interleaved steps: inserts, overlapping claims, emits, the writes
    that follow an emit, worker deaths, the clock and the nightly cleanup.

    Any number of publishers run at once, because the ten-second schedule does not wait for the
    previous run. Their writes after an emit name the row by id only. */
module OutboxProtocol {
  import opened Common

  const BATCH_SIZE: nat := 100
  const PROCESSING_TIMEOUT_MS: nat := 60000
  const CLEANUP_BATCH_SIZE: nat := 1000
  const AUDIT_QUEUE := "audit_queue"

  // A uuid, compared by Postgres as one 128-bit number.
  type EventId = nat
  type WorkerId = nat

  datatype Status = PENDING | PROCESSING | SENT | FAILED

  datatype Row = Row(destination: string, createdAt: nat, status: Status, claimedAt: Option<nat>)

  type Table = map<EventId, Row>

  /** Where a publisher stands with the first event of its remaining batch. */
  datatype Phase = Ready | Emitted | Failing

  datatype Worker = Worker(batch: seq<EventId>, claimTime: nat, phase: Phase)

  /** `committed`, `log` and `unacked` are history: the ids ever committed, the emits in order, and
      the emits that no lasting SENT write followed: the emit's own confirmation was lost, the write was
      not carried out, or its reply was lost and the error path undid it. */
  datatype System = System(
    rows: Table,
    now: nat,
    workers: map<WorkerId, Worker>,
    committed: set<EventId>,
    log: seq<EventId>,
    unacked: multiset<EventId>)

  /** One atomic step. A write that fails with its effect lost is `Die` or `AckFail`; `EmitLost`
      and `AckLost` are an emit and a SENT write that were carried out although the caller saw an error. */
  datatype Event =
    | Insert(id: EventId, destination: string, createdAt: nat)
    | Claim(w: WorkerId, at: nat, locked: set<EventId>)
    | EmitOk(w: WorkerId)
    | EmitFail(w: WorkerId)
    | EmitLost(w: WorkerId)
    | AckOk(w: WorkerId)
    | AckFail(w: WorkerId)
    | AckLost(w: WorkerId)
    | ResetOk(w: WorkerId)
    | Die(w: WorkerId)
    | Tick(ms: nat)
    | Cleanup(ids: set<EventId>)

  // ----- The claim query -----

  /** The WHERE clause of the claim. */
  predicate Claimable(row: Row, at: nat) {
    row.destination == AUDIT_QUEUE &&
    (row.status == PENDING ||
     (row.status == PROCESSING && row.claimedAt.Some? && row.claimedAt.value < at - PROCESSING_TIMEOUT_MS))
  }

  function ClaimableIds(rows: Table, at: nat): set<EventId> {
    set id | id in rows && Claimable(rows[id], at)
  }

  /** ORDER BY created_at ASC, id ASC. */
  predicate Before(rows: Table, a: EventId, b: EventId)
    requires a in rows && b in rows
  {
    rows[a].createdAt < rows[b].createdAt || (rows[a].createdAt == rows[b].createdAt && a < b)
  }

  predicate IsOldest(rows: Table, ids: set<EventId>, a: EventId)
    requires ids <= rows.Keys
  {
    a in ids && forall b | b in ids && b != a :: Before(rows, a, b)
  }

  lemma OldestExists(rows: Table, ids: set<EventId>)
    requires ids <= rows.Keys && ids != {}
    ensures exists a :: IsOldest(rows, ids, a)
  {
    var x :| x in ids;
    var rest := ids - {x};
    if rest == {} {
      assert ids == {x};
      assert IsOldest(rows, ids, x);
    } else {
      OldestExists(rows, rest);
      var y :| IsOldest(rows, rest, y);
      assert ids == rest + {x};
      if Before(rows, x, y) {
        assert IsOldest(rows, ids, x);
      } else {
        assert IsOldest(rows, ids, y);
      }
    }
  }

  function Oldest(rows: Table, ids: set<EventId>): (a: EventId)
    requires ids <= rows.Keys && ids != {}
    ensures IsOldest(rows, ids, a)
  {
    OldestExists(rows, ids);
    var a :| IsOldest(rows, ids, a);
    a
  }

  /** The chosen rows in query order. */
  function Listing(rows: Table, ids: set<EventId>): (s: seq<EventId>)
    requires ids <= rows.Keys
    ensures |s| == |ids|
    ensures forall id :: id in s <==> id in ids
    decreases |ids|
  {
    if ids == {} then []
    else
      var a := Oldest(rows, ids);
      [a] + Listing(rows, ids - {a})
  }

  lemma ListingUnfold(rows: Table, ids: set<EventId>)
    requires ids <= rows.Keys && ids != {}
    ensures Listing(rows, ids) == [Oldest(rows, ids)] + Listing(rows, ids - {Oldest(rows, ids)})
  {}

  /** FOR UPDATE SKIP LOCKED LIMIT 100: the oldest hundred claimable rows nobody else has locked. */
  function ClaimBatch(rows: Table, at: nat, locked: set<EventId>): (batch: seq<EventId>) {
    var listing := Listing(rows, ClaimableIds(rows, at) - locked);
    listing[..Min(BATCH_SIZE, |listing|)]
  }

  predicate Ordered(rows: Table, s: seq<EventId>)
    requires forall id | id in s :: id in rows
  {
    forall i, j | 0 <= i < j < |s| :: Before(rows, s[i], s[j])
  }

  lemma {:induction false} ListingOrdered(rows: Table, ids: set<EventId>)
    requires ids <= rows.Keys
    ensures Ordered(rows, Listing(rows, ids))
    decreases |ids|
  {
    if ids != {} {
      var a := Oldest(rows, ids);
      ListingOrdered(rows, ids - {a});
      var rest := Listing(rows, ids - {a});
      forall j | 0 <= j < |rest| ensures Before(rows, a, rest[j]) {
        assert rest[j] in rest;
      }
    }
  }

  /** No event is listed twice. */
  lemma OrderedDistinct(rows: Table, s: seq<EventId>)
    requires forall id | id in s :: id in rows
    requires Ordered(rows, s)
    ensures forall i, j | 0 <= i < j < |s| :: s[i] != s[j]
  {
    forall i, j | 0 <= i < j < |s| ensures s[i] != s[j] {
      assert Before(rows, s[i], s[j]);
    }
  }

  /** What one claim picks, by the order of the query. */
  lemma ClaimBatchFacts(rows: Table, at: nat, locked: set<EventId>)
    ensures var batch := ClaimBatch(rows, at, locked);
            var free := ClaimableIds(rows, at) - locked;
            && |batch| == Min(BATCH_SIZE, |free|)
            && (forall id | id in batch :: id in free)
            && Ordered(rows, batch)
            && (forall i, j | 0 <= i < j < |batch| :: batch[i] != batch[j])
            && (forall x, y | x in batch && y in free && y !in batch :: Before(rows, x, y))
  {
    var free := ClaimableIds(rows, at) - locked;
    var listing := Listing(rows, free);
    var batch := ClaimBatch(rows, at, locked);
    ListingOrdered(rows, free);
    forall id | id in batch ensures id in free {
      assert id in listing;
    }
    OrderedDistinct(rows, batch);
    forall x, y | x in batch && y in free && y !in batch ensures Before(rows, x, y) {
      var i :| 0 <= i < |batch| && batch[i] == x;
      assert y in listing;
      var j :| 0 <= j < |listing| && listing[j] == y;
      assert forall k | 0 <= k < |batch| :: listing[k] == batch[k] && batch[k] in batch;
    }
  }

  /** The rows a claim looks at before it comes to the given one. */
  function OlderThan(rows: Table, free: set<EventId>, id: EventId): set<EventId>
    requires free <= rows.Keys && id in rows
  {
    set x | x in free && Before(rows, x, id)
  }

  /** In a listing, what is older than an event is what stands before it. */
  lemma OlderIsBefore(rows: Table, free: set<EventId>, id: EventId, j: nat)
    requires free <= rows.Keys && id in rows
    requires j < |Listing(rows, free)| && Listing(rows, free)[j] == id
    ensures |OlderThan(rows, free, id)| == j
  {
    var listing := Listing(rows, free);
    ListingOrdered(rows, free);
    OrderedDistinct(rows, listing);
    hide Listing;
    forall x ensures x in OlderThan(rows, free, id) <==> x in listing[..j] {
      if x in free {
        assert x in listing;
        var i :| 0 <= i < |listing| && listing[i] == x;
        assert i < j ==> Before(rows, x, id) && listing[..j][i] == x;
        assert j < i ==> Before(rows, id, x);
      }
    }
    assert OlderThan(rows, free, id) == Elements(listing[..j]);
    DistinctCount(listing[..j]);
  }

  lemma ClaimedByRank(rows: Table, at: nat, locked: set<EventId>, id: EventId)
    requires id in rows
    ensures var free := ClaimableIds(rows, at) - locked;
            id in ClaimBatch(rows, at, locked) <==> id in free && |OlderThan(rows, free, id)| < BATCH_SIZE
  {
    var free := ClaimableIds(rows, at) - locked;
    var listing := Listing(rows, free);
    hide Listing;
    hide Claimable;
    if id in free {
      assert id in listing;
      var j :| 0 <= j < |listing| && listing[j] == id;
      OlderIsBefore(rows, free, id, j);
      if j < BATCH_SIZE {
        assert ClaimBatch(rows, at, locked)[j] == id;
      } else {
        assert id !in ClaimBatch(rows, at, locked) by { NotClaimed(rows, free, j); }
      }
    } else {
      assert forall x | x in ClaimBatch(rows, at, locked) :: x in listing;
    }
  }

  /** An event is listed once. */
  lemma NotClaimed(rows: Table, free: set<EventId>, j: nat)
    requires free <= rows.Keys && BATCH_SIZE <= j < |Listing(rows, free)|
    ensures Listing(rows, free)[j] !in Listing(rows, free)[..BATCH_SIZE]
  {
    ListingOrdered(rows, free);
    OrderedDistinct(rows, Listing(rows, free));
    hide Listing;
  }

  /** An audit row that waits to be published: PENDING, or PROCESSING since more than 60000 ms. */
  predicate Due(row: Row, at: nat) {
    && row.destination == "audit_queue"
    && (row.status == PENDING || (row.status == PROCESSING && row.claimedAt.Some? && row.claimedAt.value + 60000 < at))
  }

  function DueIds(rows: Table, at: nat, locked: set<EventId>): set<EventId> {
    set id | id in rows && id !in locked && Due(rows[id], at)
  }

  /** A choice among the rows that are due, at most so many: none twice; by creation time and, where that is
      equal, by id; and nothing passed over comes before anything picked. */
  predicate PicksOldest(rows: Table, due: set<EventId>, limit: nat, picked: seq<EventId>) {
    && |picked| == (if |due| <= limit then |due| else limit)
    && (forall id | id in picked :: id in rows && id in due)
    && (forall i, j | 0 <= i < j < |picked| ::
          rows[picked[i]].createdAt < rows[picked[j]].createdAt
          || (rows[picked[i]].createdAt == rows[picked[j]].createdAt && picked[i] < picked[j]))
    && (forall x, y | x in picked && y in due && y !in picked && y in rows ::
          rows[x].createdAt < rows[y].createdAt || (rows[x].createdAt == rows[y].createdAt && x < y))
  }

  /** A claim picks the oldest hundred of the rows that are due and that nobody has locked. */
  lemma ClaimBatchSpec(rows: Table, at: nat, locked: set<EventId>)
    ensures PicksOldest(rows, DueIds(rows, at, locked), 100, ClaimBatch(rows, at, locked))
  {
    ClaimBatchFacts(rows, at, locked);
    SameDue(rows, at, locked);
    hide ClaimBatch;
    hide ClaimableIds;
  }

  lemma SameDue(rows: Table, at: nat, locked: set<EventId>)
    ensures ClaimableIds(rows, at) - locked == DueIds(rows, at, locked)
  {}

  /** Those of the given rows that were created before the given one or, at the same time, have a smaller id. */
  function EarlierIds(rows: Table, ids: set<EventId>, id: EventId): set<EventId>
    requires ids <= rows.Keys && id in rows
  {
    set x | x in ids && (rows[x].createdAt < rows[id].createdAt || (rows[x].createdAt == rows[id].createdAt && x < id))
  }

  /** An event is claimed exactly when it is due and not locked, and fewer than a hundred such rows come
      before it. */
  lemma ClaimedIff(rows: Table, at: nat, locked: set<EventId>, id: EventId)
    requires id in rows
    ensures var free := DueIds(rows, at, locked);
            id in ClaimBatch(rows, at, locked) <==> id in free && |EarlierIds(rows, free, id)| < 100
  {
    ClaimedByRank(rows, at, locked, id);
    SameDue(rows, at, locked);
    hide ClaimBatch;
    hide ClaimableIds;
    var free := DueIds(rows, at, locked);
    assert OlderThan(rows, free, id) == EarlierIds(rows, free, id);
  }

  /** The table after the rows of a batch have been taken over by a publisher. */
  predicate TakesOver(rows: Table, after: Table, batch: seq<EventId>, at: nat) {
    && after.Keys == rows.Keys
    && forall id | id in rows ::
         after[id] == if id in batch then Row(rows[id].destination, rows[id].createdAt, PROCESSING, Some(at))
                      else rows[id]
  }

  // ----- Steps -----

  /** UPDATE outbox SET status, claimed_at WHERE id: nothing happens when the row is gone. */
  function WriteById(rows: Table, id: EventId, status: Status, claimedAt: Option<nat>): Table {
    if id in rows then rows[id := rows[id].(status := status, claimedAt := claimedAt)] else rows
  }

  function MarkClaimed(rows: Table, batch: seq<EventId>, at: nat): Table {
    map id | id in rows :: if id in batch then rows[id].(status := PROCESSING, claimedAt := Some(at)) else rows[id]
  }

  /** A worker that can act on the first event of its batch in the given phase. */
  predicate At(s: System, w: WorkerId, phase: Phase) {
    w in s.workers && s.workers[w].phase == phase && s.workers[w].batch != []
  }

  function Head(s: System, w: WorkerId): EventId
    requires w in s.workers && s.workers[w].batch != []
  {
    s.workers[w].batch[0]
  }

  predicate IsSent(s: System, id: EventId) {
    id in s.rows && s.rows[id].status == SENT
  }

  predicate Enabled(s: System, e: Event) {
    match e
    case Insert(id, _, _) => id !in s.committed
    case Claim(w, at, _) => w !in s.workers && at <= s.now
    case EmitOk(w) => At(s, w, Ready)
    case EmitFail(w) => At(s, w, Ready)
    case EmitLost(w) => At(s, w, Ready)
    case AckOk(w) => At(s, w, Emitted)
    case AckFail(w) => At(s, w, Emitted)
    case AckLost(w) => At(s, w, Emitted)
    case ResetOk(w) => At(s, w, Failing)
    case Die(w) => w in s.workers
    case Tick(_) => true
    case Cleanup(ids) => |ids| <= CLEANUP_BATCH_SIZE && forall id | id in ids :: IsSent(s, id)
  }

  function SetPhase(s: System, w: WorkerId, phase: Phase): System
    requires w in s.workers
  {
    s.(workers := s.workers[w := s.workers[w].(phase := phase)])
  }

  /** The worker moves on to the next event of its batch. */
  function Advance(s: System, w: WorkerId): System
    requires w in s.workers && s.workers[w].batch != []
  {
    s.(workers := s.workers[w := s.workers[w].(batch := s.workers[w].batch[1..], phase := Ready)])
  }

  function Apply(s: System, e: Event): System
    requires Enabled(s, e)
  {
    match e
    case Insert(id, destination, createdAt) =>
      s.(rows := s.rows[id := Row(destination, createdAt, PENDING, None)], committed := s.committed + {id})
    case Claim(w, at, locked) =>
      var batch := ClaimBatch(s.rows, at, locked);
      s.(rows := MarkClaimed(s.rows, batch, at), workers := s.workers[w := Worker(batch, at, Ready)])
    case EmitOk(w) =>
      SetPhase(s, w, Emitted).(log := s.log + [Head(s, w)])
    case EmitFail(w) =>
      SetPhase(s, w, Failing)
    case EmitLost(w) =>
      SetPhase(s, w, Failing).(log := s.log + [Head(s, w)], unacked := s.unacked + multiset{Head(s, w)})
    case AckOk(w) =>
      Advance(s, w).(rows := WriteById(s.rows, Head(s, w), SENT, None))
    case AckFail(w) =>
      SetPhase(s, w, Failing).(unacked := s.unacked + multiset{Head(s, w)})
    case AckLost(w) =>
      SetPhase(s, w, Failing).(rows := WriteById(s.rows, Head(s, w), SENT, None))
    case ResetOk(w) =>
      Advance(s, w).(rows := WriteById(s.rows, Head(s, w), PENDING, None),
                     unacked := if IsSent(s, Head(s, w)) then s.unacked + multiset{Head(s, w)} else s.unacked)
    case Die(w) =>
      s.(workers := s.workers - {w},
         unacked := if At(s, w, Emitted) then s.unacked + multiset{Head(s, w)} else s.unacked)
    case Tick(ms) =>
      s.(now := s.now + ms)
    case Cleanup(ids) =>
      s.(rows := s.rows - ids)
  }

  // ----- Runs -----

  predicate CanRun(s: System, es: seq<Event>)
    decreases |es|
  {
    es == [] || (Enabled(s, es[0]) && CanRun(Apply(s, es[0]), es[1..]))
  }

  function Run(s: System, es: seq<Event>): System
    requires CanRun(s, es)
    decreases |es|
  {
    if es == [] then s else Run(Apply(s, es[0]), es[1..])
  }

  lemma {:induction false} RunConcat(s: System, a: seq<Event>, b: seq<Event>)
    requires CanRun(s, a) && CanRun(Run(s, a), b)
    ensures CanRun(s, a + b) && Run(s, a + b) == Run(Run(s, a), b)
    decreases |a|
  {
    if a == [] {
      assert a + b == b;
    } else {
      hide Apply;
      hide Enabled;
      assert (a + b)[1..] == a[1..] + b;
      RunConcat(Apply(s, a[0]), a[1..], b);
    }
  }

  lemma RunOne(s: System, e: Event)
    requires Enabled(s, e)
    ensures CanRun(s, [e]) && Run(s, [e]) == Apply(s, e)
  {
    hide Apply;
    hide Enabled;
    assert [e][1..] == [];
  }

  const EMPTY: System := System(map[], 0, map[], {}, [], multiset{})

  // ----- At-least-once -----

  /** Some later claim will pick the row up again. */
  predicate Waiting(row: Row) {
    row.status == PENDING || (row.status == PROCESSING && row.claimedAt.Some?)
  }

  /** Every committed event has been emitted or is still in the table, waiting; a SENT or deleted row
      has been emitted; FAILED is never written. */
  predicate AtLeastOnce(s: System) {
    && (forall id | id in s.committed :: id in s.log || (id in s.rows && Waiting(s.rows[id])))
    && (forall id | id in s.rows :: s.rows[id].status != FAILED)
    && (forall id | id in s.rows && s.rows[id].status == SENT :: id in s.log)
    && (forall id | id in s.committed && id !in s.rows :: id in s.log)
  }

  /** What is safe about the table: rows wait, or are SENT and emitted. */
  predicate SafeTable(rows: Table, now: nat, committed: set<EventId>, log: seq<EventId>) {
    && rows.Keys <= committed
    && (forall id | id in rows :: Waiting(rows[id]) || (rows[id].status == SENT && id in log))
    && (forall id | id in rows && rows[id].claimedAt.Some? :: rows[id].claimedAt.value <= now)
    && (forall id | id in committed && id !in rows :: id in log)
  }

  /** What every step keeps, and what at-least-once delivery follows from. */
  predicate Safe(s: System) {
    && SafeTable(s.rows, s.now, s.committed, s.log)
    && (forall w | w in s.workers && s.workers[w].phase == Emitted :: s.workers[w].batch != [] && Head(s, w) in s.log)
  }

  lemma SafeStep(s: System, e: Event)
    requires Safe(s) && Enabled(s, e)
    ensures Safe(Apply(s, e))
  {
    if e.Insert? || e.Claim? || e.Tick? || e.Cleanup? {
      SafeTableStep(s, e);
    } else if e.AckOk? || e.AckLost? || e.ResetOk? {
      SafeWriteStep(s, e);
    } else {
      SafeWorkerStep(s, e);
    }
  }

  lemma SafeTableStep(s: System, e: Event)
    requires Safe(s) && Enabled(s, e) && (e.Insert? || e.Claim? || e.Tick? || e.Cleanup?)
    ensures Safe(Apply(s, e))
  {
    hide ClaimBatch;
    hide Claimable;
    hide Advance;
    hide SetPhase;
    hide WriteById;
    var t := Apply(s, e);
    assert t.log == s.log;
    assert forall w | w in t.workers && t.workers[w].phase == Emitted :: w in s.workers && s.workers[w] == t.workers[w];
  }

  lemma SafeWrite(rows: Table, now: nat, committed: set<EventId>, log: seq<EventId>, id: EventId, status: Status)
    requires SafeTable(rows, now, committed, log) && (status == PENDING || (status == SENT && id in log))
    ensures SafeTable(WriteById(rows, id, status, None), now, committed, log)
  {}

  /** The writes of a worker touch one row at most, the one at the head of its batch. */
  lemma SafeWriteStep(s: System, e: Event)
    requires Safe(s) && Enabled(s, e) && (e.AckOk? || e.AckLost? || e.ResetOk?)
    ensures Safe(Apply(s, e))
  {
    hide ClaimBatch;
    hide Claimable;
    hide MarkClaimed;
    hide Waiting;
    hide WriteById;
    var t := Apply(s, e);
    var head := Head(s, e.w);
    var status := if e.ResetOk? then PENDING else SENT;
    assert t.rows == WriteById(s.rows, head, status, None) && t.log == s.log && t.committed == s.committed
      && t.now == s.now;
    SafeWrite(s.rows, s.now, s.committed, s.log, head, status);
    assert forall w | w in t.workers && t.workers[w].phase == Emitted :: w in s.workers && t.workers[w] == s.workers[w];
  }

  lemma SafeWorkerStep(s: System, e: Event)
    requires Safe(s) && Enabled(s, e) && (e.EmitOk? || e.EmitFail? || e.EmitLost? || e.AckFail? || e.Die?)
    ensures Safe(Apply(s, e))
  {
    hide ClaimBatch;
    hide Claimable;
    hide MarkClaimed;
    hide WriteById;
    hide Advance;
    var t := Apply(s, e);
    assert t.rows == s.rows && t.committed == s.committed && t.now == s.now;
    assert forall id | id in s.log :: id in t.log;
  }

  lemma {:induction false} SafeRun(s: System, es: seq<Event>)
    requires Safe(s) && CanRun(s, es)
    ensures Safe(Run(s, es))
    decreases |es|
  {
    if es != [] {
      SafeStep(s, es[0]);
      SafeRun(Apply(s, es[0]), es[1..]);
    }
  }

  /** At-least-once over every interleaving, with no assumption on timing or on which writes fail. */
  lemma AtLeastOnceAlways(es: seq<Event>)
    requires CanRun(EMPTY, es)
    ensures AtLeastOnce(Run(EMPTY, es))
  {
    SafeRun(EMPTY, es);
  }
}
