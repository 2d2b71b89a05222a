/** Exclusive ownership of claimed events, under the timing hypothesis the sixty-second stale
    threshold stands for, and what goes wrong without it. */
module OutboxOwnership {
  import opened Common
  import opened OutboxProtocol

  /** Every publisher still at work is within the stale threshold of its claim. */
  predicate Timely(s: System) {
    forall w | w in s.workers :: s.now <= s.workers[w].claimTime + PROCESSING_TIMEOUT_MS
  }

  /** The hypothesis on a run: publishers finish or die in time. */
  predicate TimelyRun(s: System, es: seq<Event>)
    requires CanRun(s, es)
    decreases |es|
  {
    es == [] || (Timely(s) && TimelyRun(Apply(s, es[0]), es[1..]))
  }

  predicate Holds(s: System, w: WorkerId, id: EventId) {
    w in s.workers && id in s.workers[w].batch
  }

  /** No two live publishers hold the same event. */
  ghost predicate Disjoint(s: System) {
    forall v, w, id | Holds(s, v, id) && Holds(s, w, id) :: v == w
  }

  predicate Distinct(batch: seq<EventId>) {
    forall i, j | 0 <= i < j < |batch| :: batch[i] != batch[j]
  }

  predicate RowHeld(s: System, w: WorkerId, id: EventId)
    requires w in s.workers
  {
    id in s.rows && s.rows[id].status == PROCESSING && s.rows[id].claimedAt == Some(s.workers[w].claimTime)
  }

  /** The holder's SENT write was carried out, its reply was lost, and the error path is still to come. */
  predicate ReplyLost(s: System, w: WorkerId, id: EventId) {
    At(s, w, Failing) && Head(s, w) == id && (id in s.rows ==> s.rows[id].status == SENT)
  }

  /** Remaining batches are pairwise disjoint, and every held row is PROCESSING with its holder's
      claim time, unless the reply to its SENT write was lost. */
  ghost predicate Exclusive(s: System) {
    && Disjoint(s)
    && (forall w | w in s.workers :: Distinct(s.workers[w].batch))
    && (forall w, id | Holds(s, w, id) :: id in s.committed && (RowHeld(s, w, id) || ReplyLost(s, w, id)))
    && (forall w | w in s.workers && s.workers[w].phase != Ready :: s.workers[w].batch != [])
    && s.rows.Keys <= s.committed
    && (forall id | IsSent(s, id) :: s.rows[id].claimedAt.None?)
  }

  predicate Settled(s: System, id: EventId) {
    id in s.committed && (id in s.rows ==> s.rows[id].status == SENT)
  }

  ghost predicate InFlight(s: System, id: EventId) {
    exists w :: At(s, w, Emitted) && Head(s, w) == id
  }

  /** Emits of an event, counted: one if it is SENT or already deleted, one if a publisher is between
      its emit and its SENT write, and one for each emit that no lasting SENT write followed. */
  ghost predicate Counted(s: System, id: EventId) {
    multiset(s.log)[id] ==
      (if Settled(s, id) then 1 else 0) + (if InFlight(s, id) then 1 else 0) + s.unacked[id]
  }

  ghost predicate Accounted(s: System) {
    Exclusive(s) && forall id :: Counted(s, id)
  }

  // ----- A claim never takes what a live publisher holds -----

  lemma ClaimTakesNothingHeld(s: System, at: nat, locked: set<EventId>, w: WorkerId, id: EventId)
    requires Exclusive(s) && Timely(s) && at <= s.now && Holds(s, w, id)
    ensures id !in ClaimBatch(s.rows, at, locked)
  {
    assert RowHeld(s, w, id) || ReplyLost(s, w, id);
    ClaimBatchFacts(s.rows, at, locked);
  }

  /** Handing a new worker rows that nobody holds. */
  lemma ExclusiveGrant(s: System, t: System, v: WorkerId, batch: seq<EventId>, at: nat)
    requires Exclusive(s) && v !in s.workers && Distinct(batch)
    requires forall id | id in batch :: id in s.rows && !IsSent(s, id) && forall w :: !Holds(s, w, id)
    requires t == s.(rows := MarkClaimed(s.rows, batch, at), workers := s.workers[v := Worker(batch, at, Ready)])
    ensures Exclusive(t)
  {
    forall w, id | Holds(t, w, id) 
      ensures (RowHeld(t, w, id) || ReplyLost(t, w, id)) && (if w == v then id in batch else Holds(s, w, id))
    {
      if w != v {
        assert Holds(s, w, id) && (RowHeld(s, w, id) || ReplyLost(s, w, id));
      }
    }
  }

  /** What a claim gives to a new worker: rows of the table, none of them SENT. */
  lemma ClaimGrants(s: System, e: Event)
    requires Enabled(s, e) && e.Claim?
    ensures var batch := ClaimBatch(s.rows, e.at, e.locked);
            && Apply(s, e) == s.(rows := MarkClaimed(s.rows, batch, e.at),
                                 workers := s.workers[e.w := Worker(batch, e.at, Ready)])
            && e.w !in s.workers && Distinct(batch) && forall id | id in batch :: id in s.rows && !IsSent(s, id)
  {
    ClaimBatchFacts(s.rows, e.at, e.locked);
    hide ClaimBatch;
  }

  lemma ExclusiveClaim(s: System, e: Event)
    requires Exclusive(s) && Timely(s) && Enabled(s, e) && e.Claim?
    ensures Exclusive(Apply(s, e))
  {
    var batch := ClaimBatch(s.rows, e.at, e.locked);
    ClaimGrants(s, e);
    forall id, w | id in batch ensures !Holds(s, w, id) {
      if Holds(s, w, id) { ClaimTakesNothingHeld(s, e.at, e.locked, w, id); }
    }
    ExclusiveGrant(s, Apply(s, e), e.w, batch, e.at);
  }

  /** The events whose effect on workers is to move one of them on. */
  predicate MovesWorker(e: Event) {
    e.EmitOk? || e.EmitFail? || e.EmitLost? || e.AckOk? || e.AckFail? || e.AckLost? || e.ResetOk?
  }

  /** Moving a worker on touches no row but the one at the head of its batch, which it lets go of. */
  lemma MoveFrame(s: System, e: Event, w: WorkerId, id: EventId)
    requires Exclusive(s) && Enabled(s, e) && MovesWorker(e)
    requires Holds(Apply(s, e), w, id)
    ensures Holds(s, w, id) && (RowHeld(Apply(s, e), w, id) || ReplyLost(Apply(s, e), w, id))
  {
    var t := Apply(s, e);
    var batch := s.workers[e.w].batch;
    assert Holds(s, e.w, batch[0]);
    assert Distinct(batch);
    if w == e.w && (e.AckOk? || e.ResetOk?) {
      assert id in batch[1..] && id != batch[0];
    }
    assert Holds(s, w, id) && (RowHeld(s, w, id) || ReplyLost(s, w, id));
  }

  lemma ExclusiveMove(s: System, e: Event)
    requires Exclusive(s) && Enabled(s, e) && MovesWorker(e)
    ensures Exclusive(Apply(s, e))
  {
    var t := Apply(s, e);
    forall w, id | Holds(t, w, id) ensures Holds(s, w, id) && (RowHeld(t, w, id) || ReplyLost(t, w, id)) {
      MoveFrame(s, e, w, id);
    }
    assert Distinct(s.workers[e.w].batch);
  }

  lemma ExclusiveStep(s: System, e: Event)
    requires Exclusive(s) && Timely(s) && Enabled(s, e)
    ensures Exclusive(Apply(s, e))
  {
    if e.Claim? {
      ExclusiveClaim(s, e);
    } else if MovesWorker(e) {
      ExclusiveMove(s, e);
    } else {
      var t := Apply(s, e);
      forall w, id | Holds(t, w, id) ensures Holds(s, w, id) && (RowHeld(t, w, id) || ReplyLost(t, w, id)) {
        assert Holds(s, w, id) && (RowHeld(s, w, id) || ReplyLost(s, w, id));
      }
    }
  }

  /** The claim would take an event from the publisher that holds it: its claim has gone stale, and
      the hundred-row limit reaches it. */
  predicate Exposed(s: System, at: nat, locked: set<EventId>, w: WorkerId, id: EventId)
    requires w in s.workers
  {
    && id in s.rows && s.rows[id].status == PROCESSING
    && s.workers[w].claimTime + PROCESSING_TIMEOUT_MS < at
    && s.rows[id].destination == AUDIT_QUEUE && id !in locked
    && |OlderThan(s.rows, ClaimableIds(s.rows, at) - locked, id)| < BATCH_SIZE
  }

  /** Exactly when a claim keeps ownership exclusive, timely run or not: no held event is exposed. */
  lemma ClaimKeepsExclusiveIff(s: System, e: Event)
    requires Exclusive(s) && Enabled(s, e) && e.Claim?
    ensures Exclusive(Apply(s, e)) <==> forall w, id | Holds(s, w, id) :: !Exposed(s, e.at, e.locked, w, id)
  {
    var batch := ClaimBatch(s.rows, e.at, e.locked);
    forall w, id | Holds(s, w, id) ensures id in batch <==> Exposed(s, e.at, e.locked, w, id) {
      assert RowHeld(s, w, id) || ReplyLost(s, w, id);
      if id in s.rows {
        ClaimedByRank(s.rows, e.at, e.locked, id);
      } else {
        ClaimBatchFacts(s.rows, e.at, e.locked);
      }
    }
    if w, id :| Holds(s, w, id) && Exposed(s, e.at, e.locked, w, id) {
      assert Holds(Apply(s, e), w, id) && Holds(Apply(s, e), e.w, id);
    } else {
      ClaimGrants(s, e);
      ExclusiveGrant(s, Apply(s, e), e.w, batch, e.at);
    }
  }

  // ----- Counting emits -----

  /** Nobody but its holder can be between emit and SENT write of a held event. */
  lemma InFlightOnlyByHolder(s: System, w: WorkerId, id: EventId)
    requires Exclusive(s) && w in s.workers && s.workers[w].batch != [] && Head(s, w) == id
    ensures InFlight(s, id) <==> s.workers[w].phase == Emitted
  {
    assert Holds(s, w, id);
    if s.workers[w].phase == Emitted {
      assert At(s, w, Emitted);
    }
    forall v | At(s, v, Emitted) && Head(s, v) == id ensures v == w {
      assert Holds(s, v, id);
    }
  }

  /** An event whose holders are untouched is in flight after a step exactly when it was before. */
  lemma InFlightElsewhere(s: System, t: System, w: WorkerId, id: EventId)
    requires forall v | v != w ::
      (v in s.workers <==> v in t.workers) && (v in s.workers ==> s.workers[v] == t.workers[v])
    requires !(At(s, w, Emitted) && Head(s, w) == id) && !(At(t, w, Emitted) && Head(t, w) == id)
    ensures InFlight(s, id) <==> InFlight(t, id)
  {
    forall v | At(s, v, Emitted) && Head(s, v) == id ensures InFlight(t, id) {
      assert At(t, v, Emitted);
    }
    forall v | At(t, v, Emitted) && Head(t, v) == id ensures InFlight(s, id) {
      assert At(s, v, Emitted);
    }
  }

  lemma CountedGrant(s: System, t: System, v: WorkerId, batch: seq<EventId>, at: nat, id: EventId)
    requires Counted(s, id) && v !in s.workers && forall x | x in batch :: x in s.rows && !IsSent(s, x)
    requires t == s.(rows := MarkClaimed(s.rows, batch, at), workers := s.workers[v := Worker(batch, at, Ready)])
    ensures Counted(t, id)
  {
    InFlightElsewhere(s, t, v, id);
    hide InFlight;
  }

  lemma CountedMove(s: System, e: Event, id: EventId)
    requires Accounted(s) && Enabled(s, e) && (MovesWorker(e) || e.Die?)
    ensures Counted(Apply(s, e), id)
  {
    assert Counted(s, id);
    if s.workers[e.w].batch != [] && Head(s, e.w) == id {
      CountedAtHead(s, e, id);
    } else {
      CountedBeside(s, e, id);
    }
  }

  /** An event that is not at the head of the batch that moves on. */
  lemma CountedBeside(s: System, e: Event, id: EventId)
    requires Exclusive(s) && Counted(s, id) && Enabled(s, e) && (MovesWorker(e) || e.Die?)
    requires s.workers[e.w].batch == [] || Head(s, e.w) != id
    ensures Counted(Apply(s, e), id)
  {
    var t := Apply(s, e);
    if e.AckOk? || e.ResetOk? {
      assert !At(t, e.w, Emitted);
    }
    InFlightElsewhere(s, t, e.w, id);
    hide InFlight;
    hide Exclusive;
  }

  lemma CountedAtHead(s: System, e: Event, id: EventId)
    requires Exclusive(s) && Counted(s, id) && Enabled(s, e) && (MovesWorker(e) || e.Die?)
    requires s.workers[e.w].batch != [] && Head(s, e.w) == id
    ensures Counted(Apply(s, e), id)
  {
    var t := Apply(s, e);
    InFlightOnlyByHolder(s, e.w, id);
    assert Holds(s, e.w, id) && (RowHeld(s, e.w, id) || ReplyLost(s, e.w, id));
    if e.EmitOk? {
      assert At(t, e.w, Emitted);
    } else {
      forall v | At(t, v, Emitted) ensures Head(t, v) != id {
        if v != e.w { assert Holds(s, v, Head(t, v)); }
      }
    }
  }

  lemma AccountedStep(s: System, e: Event)
    requires Accounted(s) && Timely(s) && Enabled(s, e)
    ensures Accounted(Apply(s, e))
  {
    ExclusiveStep(s, e);
    var t := Apply(s, e);
    forall id ensures Counted(t, id) {
      if e.Claim? {
        ClaimGrants(s, e);
        hide Apply;
        CountedGrant(s, t, e.w, ClaimBatch(s.rows, e.at, e.locked), e.at, id);
      } else if MovesWorker(e) || e.Die? {
        CountedMove(s, e, id);
      } else {
        assert Counted(s, id);
        assert forall v :: At(s, v, Emitted) == At(t, v, Emitted);
      }
    }
  }

  lemma {:induction false} AccountedRun(s: System, es: seq<Event>)
    requires Accounted(s) && CanRun(s, es) && TimelyRun(s, es)
    ensures Accounted(Run(s, es))
    decreases |es|
  {
    if es != [] {
      AccountedStep(s, es[0]);
      AccountedRun(Apply(s, es[0]), es[1..]);
    }
  }

  /** Exclusive ownership and the emit count, over every timely run of the system. */
  lemma ExclusiveOwnership(es: seq<Event>)
    requires CanRun(EMPTY, es) && TimelyRun(EMPTY, es)
    ensures Exclusive(Run(EMPTY, es))
    ensures forall id :: Counted(Run(EMPTY, es), id)
  {
    forall id ensures Counted(EMPTY, id) {
      assert !Settled(EMPTY, id) && !InFlight(EMPTY, id);
    }
    AccountedRun(EMPTY, es);
  }

  /** With no emit left unacknowledged an event is emitted at most once, and exactly once when it is
      SENT or cleaned up. */
  lemma ExactlyOnceWhenAcknowledged(es: seq<Event>, id: EventId)
    requires CanRun(EMPTY, es) && TimelyRun(EMPTY, es)
    requires Run(EMPTY, es).unacked[id] == 0
    ensures var s := Run(EMPTY, es);
            multiset(s.log)[id] <= 1 && (Settled(s, id) ==> multiset(s.log)[id] == 1)
  {
    ExclusiveOwnership(es);
    var s := Run(EMPTY, es);
    assert Counted(s, id);
    if InFlight(s, id) {
      var w :| At(s, w, Emitted) && Head(s, w) == id;
      assert Holds(s, w, id) && (RowHeld(s, w, id) || ReplyLost(s, w, id));
    }
  }

  /** SENT is terminal but for one step: a SENT row changes, other than by being deleted, exactly when
      the error path reaches it after its own SENT write lost its reply. */
  lemma SentIsTerminalIff(s: System, e: Event, id: EventId)
    requires Exclusive(s) && Timely(s) && Enabled(s, e)
    requires IsSent(s, id)
    ensures var t := Apply(s, e);
            id !in t.rows || t.rows[id] == s.rows[id] <==> !(e.ResetOk? && Head(s, e.w) == id)
    ensures e.ResetOk? && Head(s, e.w) == id ==> ReplyLost(s, e.w, id)
  {
    if e.Claim? {
      ClaimBatchFacts(s.rows, e.at, e.locked);
    } else if MovesWorker(e) {
      var head := Head(s, e.w);
      assert Holds(s, e.w, head) && (RowHeld(s, e.w, head) || ReplyLost(s, e.w, head));
    }
  }

  /** SENT or deleted, and in nobody's batch: what a SENT write whose reply arrives leaves. */
  ghost predicate Acknowledged(s: System, id: EventId) {
    Settled(s, id) && forall w :: !Holds(s, w, id)
  }

  lemma AcknowledgedStep(s: System, e: Event, id: EventId)
    requires Exclusive(s) && Timely(s) && Enabled(s, e) && Acknowledged(s, id)
    ensures var t := Apply(s, e);
            Acknowledged(t, id) && multiset(t.log)[id] == multiset(s.log)[id]
            && (id in t.rows ==> id in s.rows && t.rows[id] == s.rows[id])
  {
    var t := Apply(s, e);
    if e.Claim? {
      AcknowledgedClaim(s, e, id);
    } else if MovesWorker(e) {
      assert Holds(s, e.w, Head(s, e.w));
      hide Exclusive;
      hide Timely;
      forall w | Holds(t, w, id) ensures Holds(s, w, id) {}
    } else {
      hide Exclusive;
      hide Timely;
      forall w | Holds(t, w, id) ensures Holds(s, w, id) {}
    }
  }

  lemma AcknowledgedClaim(s: System, e: Event, id: EventId)
    requires s.rows.Keys <= s.committed && Enabled(s, e) && e.Claim? && Acknowledged(s, id)
    ensures var t := Apply(s, e);
            Acknowledged(t, id) && t.log == s.log && (id in t.rows ==> id in s.rows && t.rows[id] == s.rows[id])
  {
    ClaimGrants(s, e);
    var t := Apply(s, e);
    hide Apply;
    hide ClaimBatch;
    forall w | Holds(t, w, id) ensures Holds(s, w, id) {}
  }

  /** In a timely run an acknowledged event is never claimed, changed or emitted again. */
  lemma {:induction false} AcknowledgedForGood(s: System, es: seq<Event>, id: EventId)
    requires Exclusive(s) && CanRun(s, es) && TimelyRun(s, es) && Acknowledged(s, id)
    ensures var t := Run(s, es);
            Acknowledged(t, id) && multiset(t.log)[id] == multiset(s.log)[id]
            && (id in t.rows ==> id in s.rows && t.rows[id] == s.rows[id])
    decreases |es|
  {
    if es != [] {
      AcknowledgedStep(s, es[0], id);
      ExclusiveStep(s, es[0]);
      hide Apply;
      hide Exclusive;
      hide Acknowledged;
      AcknowledgedForGood(Apply(s, es[0]), es[1..], id);
    }
  }

  /** Exactly which of its steps make a publisher's event acknowledged: a SENT write whose reply arrives,
      or the end of an error path whose row has meanwhile been cleaned up. */
  lemma AcknowledgedIff(s: System, e: Event)
    requires Exclusive(s) && Enabled(s, e) && MovesWorker(e)
    ensures Acknowledged(Apply(s, e), Head(s, e.w)) <==> e.AckOk? || (e.ResetOk? && Head(s, e.w) !in s.rows)
  {
    var id, t := Head(s, e.w), Apply(s, e);
    assert Holds(s, e.w, id) && (RowHeld(s, e.w, id) || ReplyLost(s, e.w, id));
    assert Distinct(s.workers[e.w].batch);
    if e.AckOk? || e.ResetOk? {
      forall w | w != e.w && Holds(t, w, id) ensures Holds(s, w, id) {}
    } else {
      assert Holds(t, e.w, id);
    }
  }

  // ----- Concrete runs -----

  lemma ListingOne(rows: Table, ids: set<EventId>, id: EventId)
    requires id in rows && ids == {id}
    ensures Listing(rows, ids) == [id]
  {
    assert Listing(rows, ids)[0] in Listing(rows, ids);
  }

  /** A claim over a table holding one row, which is claimable. */
  lemma ClaimOne(rows: Table, at: nat, id: EventId)
    requires rows.Keys == {id} && Claimable(rows[id], at)
    ensures ClaimBatch(rows, at, {}) == [id]
  {
    assert ClaimableIds(rows, at) - {} == {id};
    ListingOne(rows, ClaimableIds(rows, at) - {}, id);
  }

  /** A run followed by one more step. */
  lemma RunOneMore(es: seq<Event>, e: Event)
    requires CanRun(EMPTY, es) && Enabled(Run(EMPTY, es), e)
    ensures CanRun(EMPTY, es + [e]) && Run(EMPTY, es + [e]) == Apply(Run(EMPTY, es), e)
  {
    RunConcat(EMPTY, es, [e]);
  }

  function Only(status: Status, claimedAt: Option<nat>): Table {
    map[7 := Row(AUDIT_QUEUE, 0, status, claimedAt)]
  }

  function Claimed(batch: seq<EventId>, at: nat, rows: Table): System {
    System(rows, at, map[1 := Worker(batch, 0, Ready)], {7}, [], multiset{})
  }

  /** A publisher claims event 7, at time zero. */
  lemma ClaimedRun() returns (es: seq<Event>)
    ensures CanRun(EMPTY, es) && TimelyRun(EMPTY, es)
    ensures Run(EMPTY, es) == Claimed([7], 0, Only(PROCESSING, Some(0)))
  {
    var insert, claim := Insert(7, AUDIT_QUEUE, 0), Claim(1, 0, {});
    var s1 := Apply(EMPTY, insert);
    assert s1.rows == Only(PENDING, None);
    ClaimOne(s1.rows, 0, 7);
    var s2 := Apply(s1, claim);
    assert s2 == Claimed([7], 0, Only(PROCESSING, Some(0)));
    RunOneMore([], insert);
    RunOneMore([] + [insert], claim);
    TimelyMore([], insert);
    TimelyMore([] + [insert], claim);
    es := [] + [insert] + [claim];
  }

  /** And stays at work for just over a minute. */
  lemma StalledRun() returns (es: seq<Event>)
    ensures CanRun(EMPTY, es)
    ensures Run(EMPTY, es) == Claimed([7], 60001, Only(PROCESSING, Some(0)))
  {
    var claimed := ClaimedRun();
    RunOneMore(claimed, Tick(60001));
    es := claimed + [Tick(60001)];
  }

  /** A second publisher reclaims the event while the first still holds it. */
  lemma StalledOverlap() returns (es: seq<Event>)
    ensures CanRun(EMPTY, es) && !Disjoint(Run(EMPTY, es))
    ensures Run(EMPTY, es).rows == Only(PROCESSING, Some(60001))
    ensures Run(EMPTY, es).workers == map[1 := Worker([7], 0, Ready), 2 := Worker([7], 60001, Ready)]
    ensures Run(EMPTY, es).log == [] && Run(EMPTY, es).unacked == multiset{}
  {
    var stalled := StalledRun();
    var s := Run(EMPTY, stalled);
    ClaimOne(s.rows, 60001, 7);
    RunOneMore(stalled, Claim(2, 60001, {}));
    es := stalled + [Claim(2, 60001, {})];
    assert Holds(Run(EMPTY, es), 1, 7) && Holds(Run(EMPTY, es), 2, 7);
  }

  /** Without the timing hypothesis nothing of exclusive ownership is left: the second publisher sends
      the event, then the first one's failed emit puts the SENT row back to PENDING. */
  lemma LateWorkerUndoesSent() returns (sent: seq<Event>, undone: seq<Event>)
    ensures CanRun(EMPTY, sent) && Run(EMPTY, sent).rows == Only(SENT, None)
    ensures undone == sent + [EmitFail(1)] + [ResetOk(1)]
    ensures CanRun(EMPTY, undone) && Run(EMPTY, undone).rows == Only(PENDING, None)
    ensures Run(EMPTY, undone).log == [7] && Run(EMPTY, undone).unacked == multiset{7}
  {
    var es := StalledOverlap();
    RunOneMore(es, EmitOk(2));
    RunOneMore(es + [EmitOk(2)], AckOk(2));
    sent := es + [EmitOk(2)] + [AckOk(2)];
    RunOneMore(sent, EmitFail(1));
    RunOneMore(sent + [EmitFail(1)], ResetOk(1));
    undone := sent + [EmitFail(1)] + [ResetOk(1)];
  }

  /** Event 7 is claimed and emitted, all at time zero, and the reply to its SENT write is lost. */
  lemma LostReplyRun() returns (es: seq<Event>)
    ensures CanRun(EMPTY, es) && TimelyRun(EMPTY, es)
    ensures Run(EMPTY, es) == System(Only(SENT, None), 0, map[1 := Worker([7], 0, Failing)], {7}, [7], multiset{})
  {
    hide CanRun;
    hide Run;
    hide TimelyRun;
    var claimed := ClaimedRun();
    RunOneMore(claimed, EmitOk(1));
    TimelyMore(claimed, EmitOk(1));
    RunOneMore(claimed + [EmitOk(1)], AckLost(1));
    TimelyMore(claimed + [EmitOk(1)], AckLost(1));
    es := claimed + [EmitOk(1)] + [AckLost(1)];
  }

  lemma TimelyMore(es: seq<Event>, e: Event)
    requires CanRun(EMPTY, es) && TimelyRun(EMPTY, es) && Timely(Run(EMPTY, es)) && CanRun(EMPTY, es + [e])
    ensures TimelyRun(EMPTY, es + [e])
  {
    TimelyConcat(EMPTY, es, e);
  }

  lemma {:induction false} TimelyConcat(s: System, es: seq<Event>, e: Event)
    requires CanRun(s, es) && TimelyRun(s, es) && Timely(Run(s, es)) && CanRun(s, es + [e])
    ensures TimelyRun(s, es + [e])
    decreases |es|
  {
    hide Apply;
    hide Enabled;
    hide Timely;
    if es == [] {
      assert (es + [e])[1..] == [];
    } else {
      assert (es + [e])[1..] == es[1..] + [e];
      TimelyConcat(Apply(s, es[0]), es[1..], e);
    }
  }

  /** However timely, the error path after a lost reply reopens the SENT row, and the event will be
      emitted again. */
  lemma LostReplyReopensSent() returns (sent: seq<Event>, undone: seq<Event>)
    ensures CanRun(EMPTY, sent) && Run(EMPTY, sent).rows == Only(SENT, None)
    ensures undone == sent + [ResetOk(1)] && CanRun(EMPTY, undone) && TimelyRun(EMPTY, undone)
    ensures Run(EMPTY, undone).rows == Only(PENDING, None)
    ensures Run(EMPTY, undone).log == [7] && Run(EMPTY, undone).unacked == multiset{7}
  {
    sent := LostReplyRun();
    RunOneMore(sent, ResetOk(1));
    undone := sent + [ResetOk(1)];
    TimelyMore(sent, ResetOk(1));
  }
}
