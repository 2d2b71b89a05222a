/** The publisher's scheduled run as an imperative method, proved to be one worker of the protocol. */
module OutboxPublisher {
  import opened Common
  import opened OutboxProtocol
  import opened OutboxDrain

  /** How RabbitMQ and Postgres answer for one event: the emit, the SENT write that follows it, and the
      PENDING write of the error path. */
  datatype Delivery = Delivery(emit: Outcome, ack: Outcome, reset: Outcome)
  {
    predicate Succeeds() { emit.Done? && ack.Done? }

    /** The error path itself fails, which ends the run. */
    predicate Aborts() { !Succeeds() && reset.Raised() }
  }

  type Deliveries = EventId -> Delivery

  function Settle(row: Row, d: Delivery): Row {
    row.(status := if d.Succeeds() then SENT else PENDING, claimedAt := None)
  }

  /** The table when the first k events of a batch have been dealt with and the rest are claimed. */
  function PartWay(rows: Table, batch: seq<EventId>, k: nat, at: nat, deliver: Deliveries): Table
    requires k <= |batch|
  {
    map id | id in rows ::
      if id in batch[..k] then Settle(rows[id], deliver(id))
      else if id in batch then rows[id].(status := PROCESSING, claimedAt := Some(at))
      else rows[id]
  }

  function EmittedOf(batch: seq<EventId>, deliver: Deliveries): seq<EventId> {
    if batch == [] then []
    else
      var last := batch[|batch| - 1];
      EmittedOf(batch[..|batch| - 1], deliver) + (if deliver(last).emit.Applied() then [last] else [])
  }

  /** The protocol steps of the emit and the SENT write. */
  function AttemptSteps(w: WorkerId, d: Delivery): seq<Event> {
    if d.emit.Failed? then [EmitFail(w)]
    else if d.emit.Lost? then [EmitLost(w)]
    else [EmitOk(w)] + [match d.ack case Done => AckOk(w) case Failed => AckFail(w) case Lost => AckLost(w)]
  }

  /** The protocol steps of the error path, the end of an aborted run included. */
  function RecoverySteps(w: WorkerId, reset: Outcome): seq<Event> {
    match reset
    case Done => [ResetOk(w)]
    case Failed => [Die(w)]
    case Lost => [ResetOk(w)] + [Die(w)]
  }

  function StepsOf(w: WorkerId, d: Delivery): seq<Event> {
    AttemptSteps(w, d) + (if d.Succeeds() then [] else RecoverySteps(w, d.reset))
  }

  function StepsOfAll(w: WorkerId, batch: seq<EventId>, deliver: Deliveries): seq<Event> {
    if batch == [] then []
    else StepsOfAll(w, batch[..|batch| - 1], deliver) + StepsOf(w, deliver(batch[|batch| - 1]))
  }

  // ----- The same steps in the protocol -----

  /** What the emit and the SENT write leave in the table. */
  function Attempted(rows: Table, id: EventId, d: Delivery): Table {
    if d.emit.Done? && d.ack.Applied() then WriteById(rows, id, SENT, None) else rows
  }

  /** What dealing with one event leaves in the table. */
  function Dealt(rows: Table, id: EventId, d: Delivery): Table {
    if d.Succeeds() || d.reset.Failed? then Attempted(rows, id, d)
    else WriteById(Attempted(rows, id, d), id, PENDING, None)
  }

  lemma AttemptRuns(s: System, w: WorkerId, id: EventId, d: Delivery)
    requires At(s, w, Ready) && Head(s, w) == id
    ensures CanRun(s, AttemptSteps(w, d))
    ensures var t := Run(s, AttemptSteps(w, d));
            && t.rows == Attempted(s.rows, id, d) && t.now == s.now
            && t.log == s.log + (if d.emit.Applied() then [id] else [])
            && t.workers == s.workers[w := if d.Succeeds() then s.workers[w].(batch := s.workers[w].batch[1..])
                                            else s.workers[w].(phase := Failing)]
  {
    hide Run;
    hide CanRun;
    if d.emit.Done? {
      var ack := match d.ack case Done => AckOk(w) case Failed => AckFail(w) case Lost => AckLost(w);
      RunOne(s, EmitOk(w));
      var s1 := Apply(s, EmitOk(w));
      RunOne(s1, ack);
      RunConcat(s, [EmitOk(w)], [ack]);
    } else {
      RunOne(s, if d.emit.Lost? then EmitLost(w) else EmitFail(w));
    }
  }

  lemma RecoveryRuns(s: System, w: WorkerId, id: EventId, reset: Outcome)
    requires At(s, w, Failing) && Head(s, w) == id
    ensures CanRun(s, RecoverySteps(w, reset))
    ensures var t := Run(s, RecoverySteps(w, reset));
            && t.rows == (if reset.Applied() then WriteById(s.rows, id, PENDING, None) else s.rows)
            && t.now == s.now && t.log == s.log
            && t.workers == (if reset.Raised() then s.workers - {w}
                             else s.workers[w := s.workers[w].(batch := s.workers[w].batch[1..], phase := Ready)])
  {
    hide Run;
    hide CanRun;
    if reset.Failed? {
      RunOne(s, Die(w));
    } else {
      RunOne(s, ResetOk(w));
      if reset.Lost? {
        var s1 := Apply(s, ResetOk(w));
        RunOne(s1, Die(w));
        RunConcat(s, [ResetOk(w)], [Die(w)]);
        assert s1.workers - {w} == s.workers - {w};
      }
    }
  }

  lemma PublishRuns(s: System, w: WorkerId, id: EventId, d: Delivery)
    requires At(s, w, Ready) && Head(s, w) == id
    ensures CanRun(s, StepsOf(w, d))
    ensures var t := Run(s, StepsOf(w, d));
            && t.rows == Dealt(s.rows, id, d) && t.now == s.now
            && t.log == s.log + (if d.emit.Applied() then [id] else [])
            && t.workers == (if d.Aborts() then s.workers - {w}
                             else s.workers[w := s.workers[w].(batch := s.workers[w].batch[1..])])
  {
    hide Run;
    hide CanRun;
    hide RecoverySteps;
    hide AttemptSteps;
    hide WriteById;
    AttemptRuns(s, w, id, d);
    if d.Succeeds() {
      assert AttemptSteps(w, d) + [] == AttemptSteps(w, d);
    } else {
      var s1 := Run(s, AttemptSteps(w, d));
      RecoveryRuns(s1, w, id, d.reset);
      RunConcat(s, AttemptSteps(w, d), RecoverySteps(w, d.reset));
      assert s1.workers - {w} == s.workers - {w};
    }
  }

  lemma ClaimRuns(s: System, w: WorkerId, at: nat, locked: set<EventId>)
    requires w !in s.workers && at <= s.now
    ensures Enabled(s, Claim(w, at, locked))
    ensures var t := Apply(s, Claim(w, at, locked)); var batch := ClaimBatch(s.rows, at, locked);
            && t == s.(rows := MarkClaimed(s.rows, batch, at), workers := s.workers[w := Worker(batch, at, Ready)])
  {}

  class OutboxPublisherService {
    var rows: Table
    var now: nat
    var published: seq<EventId>
    ghost var sys: System   // the protocol state of the whole system, other publishers included

    ghost predicate Valid()
      reads this
    {
      sys.rows == rows && sys.now == now && sys.log == published
    }

    constructor (ghost s: System, rows: Table, now: nat, published: seq<EventId>)
      requires s.rows == rows && s.now == now && s.log == published
      ensures Valid() && sys == s
    {
      this.rows, this.now, this.published := rows, now, published;
      sys := s;
    }

    method ClaimAvailableEvents(locked: set<EventId>, ghost w: WorkerId) returns (batch: seq<EventId>)
      requires Valid() && w !in sys.workers
      modifies this
      ensures Valid() && now == old(now) && published == old(published)
      ensures batch == ClaimBatch(old(rows), now, locked)
      ensures rows == MarkClaimed(old(rows), batch, now)
      ensures PicksOldest(old(rows), DueIds(old(rows), now, locked), 100, batch)
      ensures TakesOver(old(rows), rows, batch, now)
      ensures sys == Apply(old(sys), Claim(w, now, locked))
    {
      ClaimBatchSpec(rows, now, locked);
      hide DueIds;
      hide PicksOldest;
      hide ClaimBatch;
      hide Apply;
      ClaimRuns(sys, w, now, locked);
      batch := ClaimBatch(rows, now, locked);
      sys := Apply(sys, Claim(w, now, locked));
      if |batch| == 0 {
        return [];
      }
      rows := MarkClaimed(rows, batch, now);
    }

    /** One event of the batch: emit, then SENT; on any error PENDING, which may itself fail. */
    method Publish(id: EventId, d: Delivery, ghost w: WorkerId) returns (ok: bool)
      requires Valid() && At(sys, w, Ready) && Head(sys, w) == id
      modifies this
      ensures Valid() && now == old(now)
      ensures published == old(published) + (if d.emit.Applied() then [id] else [])
      ensures ok <==> !d.Aborts()
      ensures rows == Dealt(old(rows), id, d)
      ensures CanRun(old(sys), StepsOf(w, d)) && sys == Run(old(sys), StepsOf(w, d))
    {
      hide Run;
      hide CanRun;
      hide StepsOf;
      hide WriteById;
      PublishRuns(sys, w, id, d);
      sys := Run(sys, StepsOf(w, d));
      var failed := true;
      if d.emit.Applied() {
        published := published + [id];
      }
      if d.emit.Done? {
        if d.ack.Applied() {
          rows := WriteById(rows, id, SENT, None);
        }
        failed := d.ack.Raised();
      }
      ok := true;
      if failed {
        if d.reset.Applied() {
          rows := WriteById(rows, id, PENDING, None);
        }
        ok := !d.reset.Raised();
      }
    }

    /** The scheduled run. It answers how many events of its batch it got through; it stops early only
        when the error path of an event fails. The ghost trace is the run as steps of worker w. */
    method HandleAuditEvents(locked: set<EventId>, deliver: Deliveries, ghost w: WorkerId)
      returns (batch: seq<EventId>, done: nat, ghost trace: seq<Event>)
      requires Valid() && w !in sys.workers
      modifies this
      ensures Valid() && now == old(now)
      ensures batch == ClaimBatch(old(rows), now, locked)
      ensures done <= |batch| && forall j | 0 <= j < done :: !deliver(batch[j]).Aborts()
      ensures done < |batch| ==> deliver(batch[done]).Aborts()
      ensures done == |batch| ==>
        && rows == PartWay(old(rows), batch, done, now, deliver)
        && published == old(published) + EmittedOf(batch, deliver)
        && trace == [Claim(w, now, locked)] + StepsOfAll(w, batch, deliver) + [Die(w)]
      ensures done < |batch| ==>
        && rows == Dealt(PartWay(old(rows), batch, done, now, deliver), batch[done], deliver(batch[done]))
        && published == old(published) + EmittedOf(batch[..done + 1], deliver)
      ensures CanRun(old(sys), trace) && sys == Run(old(sys), trace) && w !in sys.workers
    {
      hide PicksOldest;
      hide TakesOver;
      hide DueIds;
      hide ClaimBatch;
      hide Run;
      hide CanRun;
      hide Apply;
      hide Enabled;
      hide At;
      hide Head;
      hide StepsOf;
      hide StepsOfAll;
      hide EmittedOf;
      hide Dealt;
      hide PartWay;
      hide MarkClaimed;
      ghost var start := sys;
      RunStarts(sys, w, locked, deliver);
      batch := ClaimAvailableEvents(locked, w);
      trace := [Claim(w, now, locked)];
      done := 0;
      while done < |batch|
        invariant Valid() && now == old(now) && CanRun(start, trace) && sys == Run(start, trace)
        invariant PartDone(start, trace, w, batch, done, locked, deliver)
      {
        ghost var d := deliver(batch[done]);
        RunGoesOn(start, trace, w, batch, done, locked, deliver);
        var ok := Publish(batch[done], deliver(batch[done]), w);
        trace := trace + StepsOf(w, d);
        if !ok {
          return;
        }
        done := done + 1;
      }
      RunEnds(start, trace, w, batch, locked, deliver);
      assert batch[..|batch|] == batch;
      sys := Apply(sys, Die(w));
      trace := trace + [Die(w)];
    }
  }

  // ----- The scheduled run, event by event -----

  /** The trace is the claim and the steps of the first i events of its batch, none of which aborted the
      run; it leaves these events dealt with, and the rest to the worker. */
  ghost predicate PartDone(start: System, trace: seq<Event>, w: WorkerId, batch: seq<EventId>, i: nat,
                           locked: set<EventId>, deliver: Deliveries)
  {
    && i <= |batch| && batch == ClaimBatch(start.rows, start.now, locked)
    && (forall j | 0 <= j < i :: !deliver(batch[j]).Aborts())
    && trace == [Claim(w, start.now, locked)] + StepsOfAll(w, batch[..i], deliver)
    && CanRun(start, trace)
    && var s := Run(start, trace);
       && s.rows == PartWay(start.rows, batch, i, start.now, deliver) && s.now == start.now
       && s.log == start.log + EmittedOf(batch[..i], deliver)
       && w in s.workers && s.workers[w] == Worker(batch[i..], start.now, Ready)
  }

  lemma RunStarts(s: System, w: WorkerId, locked: set<EventId>, deliver: Deliveries)
    requires w !in s.workers
    ensures var claim := Claim(w, s.now, locked); var batch := ClaimBatch(s.rows, s.now, locked);
            && Enabled(s, claim) && CanRun(s, [claim]) && Run(s, [claim]) == Apply(s, claim)
            && PartDone(s, [claim], w, batch, 0, locked, deliver)
  {
    hide ClaimBatch;
    hide MarkClaimed;
    hide PartWay;
    var batch := ClaimBatch(s.rows, s.now, locked);
    ClaimRuns(s, w, s.now, locked);
    RunOne(s, Claim(w, s.now, locked));
    NothingDealtYet(s.rows, batch, s.now, deliver, w);
    hide Run;
    hide CanRun;
    hide Apply;
    assert batch[..0] == [] && batch[0..] == batch;
  }

  /** One more event: the run goes on, or ends with an error path that failed. */
  lemma RunGoesOn(start: System, trace: seq<Event>, w: WorkerId, batch: seq<EventId>, i: nat, locked: set<EventId>,
                  deliver: Deliveries)
    requires PartDone(start, trace, w, batch, i, locked, deliver) && i < |batch|
    ensures CanRun(start, trace) && At(Run(start, trace), w, Ready) && Head(Run(start, trace), w) == batch[i]
    ensures var d := deliver(batch[i]); var more := trace + StepsOf(w, d); var s := Run(start, trace);
            && CanRun(s, StepsOf(w, d)) && CanRun(start, more) && Run(start, more) == Run(s, StepsOf(w, d))
            && if d.Aborts() then EndsAt(start, more, w, batch, i, deliver)
               else PartDone(start, more, w, batch, i + 1, locked, deliver)
  {
    hide Run;
    hide CanRun;
    hide StepsOf;
    hide StepsOfAll;
    hide EmittedOf;
    hide PartWay;
    hide Dealt;
    hide ClaimBatch;
    var s, d := Run(start, trace), deliver(batch[i]);
    ClaimBatchFacts(start.rows, start.now, locked);
    hide Ordered;
    PublishRuns(s, w, batch[i], d);
    RunConcat(start, trace, StepsOf(w, d));
    OneMoreDealt(batch, i, deliver, w);
    if !d.Aborts() {
      PartWayNext(start.rows, batch, i, start.now, deliver);
    }
  }

  /** The run has stopped at the i-th event of its batch. */
  ghost predicate EndsAt(start: System, trace: seq<Event>, w: WorkerId, batch: seq<EventId>, i: nat,
                         deliver: Deliveries)
    requires i < |batch|
  {
    CanRun(start, trace) &&
    var t := Run(start, trace);
    && t.rows == Dealt(PartWay(start.rows, batch, i, start.now, deliver), batch[i], deliver(batch[i]))
    && t.log == start.log + EmittedOf(batch[..i + 1], deliver)
    && w !in t.workers
  }

  /** The end of a run that has dealt with its whole batch. */
  lemma RunEnds(start: System, trace: seq<Event>, w: WorkerId, batch: seq<EventId>, locked: set<EventId>,
                deliver: Deliveries)
    requires PartDone(start, trace, w, batch, |batch|, locked, deliver)
    ensures var s := Run(start, trace); var t := Apply(s, Die(w));
            && Enabled(s, Die(w)) && CanRun(start, trace + [Die(w)]) && Run(start, trace + [Die(w)]) == t
            && t.rows == PartWay(start.rows, batch, |batch|, start.now, deliver) && t.now == start.now
            && t.log == start.log + EmittedOf(batch, deliver) && w !in t.workers
            && trace + [Die(w)] == [Claim(w, start.now, locked)] + StepsOfAll(w, batch, deliver) + [Die(w)]
  {
    var s := Run(start, trace);
    DyingFree(s, w);
    RunOne(s, Die(w));
    RunConcat(start, trace, [Die(w)]);
    assert batch[..|batch|] == batch;
  }

  lemma NothingDealtYet(rows: Table, batch: seq<EventId>, at: nat, deliver: Deliveries, w: WorkerId)
    ensures MarkClaimed(rows, batch, at) == PartWay(rows, batch, 0, at, deliver)
    ensures EmittedOf([], deliver) == [] && StepsOfAll(w, [], deliver) == []
  {}

  lemma OneMoreDealt(batch: seq<EventId>, i: nat, deliver: Deliveries, w: WorkerId)
    requires i < |batch|
    ensures EmittedOf(batch[..i + 1], deliver)
         == EmittedOf(batch[..i], deliver) + (if deliver(batch[i]).emit.Applied() then [batch[i]] else [])
    ensures StepsOfAll(w, batch[..i + 1], deliver) == StepsOfAll(w, batch[..i], deliver) + StepsOf(w, deliver(batch[i]))
  {
    assert batch[..i + 1][..i] == batch[..i] && batch[..i + 1][i] == batch[i];
  }

  lemma PartWayNext(rows: Table, batch: seq<EventId>, i: nat, at: nat, deliver: Deliveries)
    requires i < |batch| && forall j, k | 0 <= j < k < |batch| :: batch[j] != batch[k]
    requires !deliver(batch[i]).Aborts()
    ensures Dealt(PartWay(rows, batch, i, at, deliver), batch[i], deliver(batch[i])) ==
      PartWay(rows, batch, i + 1, at, deliver)
  {
    assert batch[..i + 1] == batch[..i] + [batch[i]];
    assert batch[i] !in batch[..i];
  }

  /** The end of a publisher changes neither the table nor what has been emitted. */
  lemma DyingFree(s: System, w: WorkerId)
    requires w in s.workers
    ensures Enabled(s, Die(w))
    ensures var t := Apply(s, Die(w));
            t.rows == s.rows && t.now == s.now && t.log == s.log && t.workers == s.workers - {w}
  {}

  lemma CleanSteps(w: WorkerId, d: Delivery)
    requires d.Succeeds()
    ensures StepsOf(w, d) == [EmitOk(w), AckOk(w)]
  {}

  /** When nothing fails and nothing is locked, the method's trace is the undisturbed tick. */
  lemma {:induction false} CleanTrace(w: WorkerId, batch: seq<EventId>, deliver: Deliveries)
    requires forall id | id in batch :: deliver(id).Succeeds()
    ensures StepsOfAll(w, batch, deliver) == PublishEvents(w, |batch|)
  {
    if batch != [] {
      var n := |batch| - 1;
      assert batch[n] in batch;
      CleanSteps(w, deliver(batch[n]));
      hide StepsOf;
      CleanTrace(w, batch[..n], deliver);
      PublishEventsLast(w, n);
    }
  }

  lemma {:induction false} PublishEventsLast(w: WorkerId, n: nat)
    ensures PublishEvents(w, n + 1) == PublishEvents(w, n) + [EmitOk(w), AckOk(w)]
  {
    if n > 0 {
      PublishEventsLast(w, n - 1);
    }
  }
}
