/** The nightly cleanup run alone: batches of a thousand SENT rows until a batch comes up short. */
module OutboxCleanup {
  import opened Common
  import opened OutboxProtocol

  function SentIds(rows: Table): set<EventId> {
    set id | id in rows && rows[id].status == SENT
  }

  /** What a number of full and partial batches can delete. */
  lemma {:induction false} SubsetOfSize(ids: set<EventId>, n: nat) returns (chosen: set<EventId>)
    requires n <= |ids|
    ensures chosen <= ids && |chosen| == n
    decreases |ids|
  {
    if n == |ids| {
      chosen := ids;
    } else {
      var x :| x in ids;
      chosen := SubsetOfSize(ids - {x}, n);
    }
  }

  class OutboxCleanupService {
    var rows: Table

    constructor (rows: Table)
      ensures this.rows == rows
    {
      this.rows := rows;
    }

    /** DELETE ... WHERE id IN (SELECT id ... WHERE status = 'SENT' LIMIT 1000). Which rows the subquery
        picks is up to the database. */
    method DeleteSentBatch() returns (affected: nat)
      modifies this
      ensures affected == Min(1000, |SentIds(old(rows))|)
      ensures exists ids | ids <= SentIds(old(rows)) :: |ids| == affected && rows == old(rows) - ids
    {
      var sent := SentIds(rows);
      affected := Min(CLEANUP_BATCH_SIZE, |sent|);
      ghost var chosen := SubsetOfSize(sent, affected);
      var ids :| ids <= sent && |ids| == affected;
      rows := rows - ids;
    }

    /** The whole job. `failAt` is the iteration whose query fails, if any, and `lost` says that only its
        reply was lost; the error is logged and the job stops. Run on n SENT rows with no failure it
        deletes exactly these n in exactly floor(n / 1000) + 1 iterations; failing, it has counted full
        batches only, and deleted one batch more if the reply was lost. */
    method HandleOutboxCleanup(failAt: Option<nat>, lost: bool) returns (totalDeleted: nat, iterations: nat)
      modifies this
      ensures var n := |SentIds(old(rows))|;
              var completes := failAt.None? || failAt.value > n / 1000;
              && (completes ==> iterations == n / 1000 + 1 && totalDeleted == n
                                && rows == old(rows) - SentIds(old(rows)))
              && (!completes ==> iterations == failAt.value && totalDeleted == iterations * 1000)
      ensures var left := |SentIds(old(rows))| - totalDeleted;
              |SentIds(rows)| ==
                if failAt == Some(iterations) && lost then left - Min(1000, left) else left
      ensures rows.Keys <= old(rows).Keys
      ensures forall id | id in old(rows) && (id in rows || old(rows)[id].status != SENT) ::
        id in rows && rows[id] == old(rows)[id]
    {
      ghost var before := rows;
      ghost var n := |SentIds(rows)|;
      totalDeleted, iterations := 0, 0;
      while true
        invariant totalDeleted == iterations * CLEANUP_BATCH_SIZE <= n
        invariant |SentIds(rows)| == n - totalDeleted
        invariant rows.Keys <= before.Keys && forall id | id in rows :: rows[id] == before[id]
        invariant forall id | id in before && before[id].status != SENT :: id in rows
        invariant failAt.Some? ==> iterations <= failAt.value
        decreases |SentIds(rows)|
      {
        if failAt == Some(iterations) && !lost {
          return;
        }
        ghost var sent := SentIds(rows);
        ghost var was := rows;
        var affected := DeleteSentBatch();
        ghost var ids :| ids <= sent && |ids| == affected && rows == was - ids;
        SentAfter(was, ids);
        if failAt == Some(iterations) {
          return;
        }
        totalDeleted := totalDeleted + affected;
        iterations := iterations + 1;
        if affected != CLEANUP_BATCH_SIZE {
          SubsetEqual(ids, sent);
          AllSentGone(before, was);
          return;
        }
      }
    }
  }

  /** What one query of the job can delete is what a step of the protocol can: any SENT rows, at most a thousand. */
  lemma CleanupIff(s: System, ids: set<EventId>)
    ensures Enabled(s, Cleanup(ids)) <==> |ids| <= 1000 && ids <= SentIds(s.rows)
    ensures ids <= SentIds(s.rows) <==> forall id | id in ids :: id in s.rows && s.rows[id].status == SENT
    ensures Enabled(s, Cleanup(ids)) ==> Apply(s, Cleanup(ids)) == s.(rows := s.rows - ids)
  {
    assert forall id | id in ids :: IsSent(s, id) <==> id in SentIds(s.rows);
  }

  lemma SentAfter(rows: Table, ids: set<EventId>)
    requires ids <= SentIds(rows)
    ensures SentIds(rows - ids) == SentIds(rows) - ids && |SentIds(rows - ids)| == |SentIds(rows)| - |ids|
  {}

  lemma AllSentGone(before: Table, was: Table)
    requires was.Keys <= before.Keys && forall id | id in was :: was[id] == before[id]
    requires forall id | id in before && before[id].status != SENT :: id in was
    ensures was - SentIds(was) == before - SentIds(before) && SentIds(was - SentIds(was)) == {}
  {}

  lemma SubsetEqual(a: set<EventId>, b: set<EventId>)
    requires a <= b && |a| == |b|
    ensures a == b
  {
    assert b == a + (b - a);
    assert |b - a| == 0;
  }
}
