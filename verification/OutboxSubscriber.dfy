/** The entity subscriber that records one outbox row for every entity write, inside the transaction
    of that write. Saving the outbox row notifies the subscriber again, which must not record itself. */
module OutboxSubscriber {
  import opened Common

  datatype Kind = Created | Updated | Deleted

  /** The parts of TypeORM's entity metadata that the subscriber looks at. */
  datatype Metadata = Metadata(target: string, targetName: string, tableName: Option<string>)

  const OUTBOX_ENTITY := "OutboxEntity"
  const OUTBOX_TABLE := "outbox"

  /** One notification: metadata and entity are each missing in some TypeORM events. */
  datatype Write = Write(kind: Kind, metadata: Option<Metadata>, entity: Option<string>)

  /** A recorded event; status and claim time are the column defaults. */
  datatype Record = Record(kind: Kind, entityName: string, primaryKeys: string, destination: string, pending: bool)

  function LowerChar(c: char): char {
    if 'A' <= c <= 'Z' then (c as int + 32) as char else c
  }

  function ToLower(s: string): string {
    seq(|s|, i requires 0 <= i < |s| => LowerChar(s[i]))
  }

  predicate ShouldSkip(metadata: Option<Metadata>) {
    || metadata.None?
    || metadata.value.target == OUTBOX_ENTITY
    || metadata.value.targetName == OUTBOX_ENTITY
    || (metadata.value.tableName.Some? && ToLower(metadata.value.tableName.value) == OUTBOX_TABLE)
  }

  /** The writes that leave a record. */
  predicate Audited(w: Write) {
    w.entity.Some? && !ShouldSkip(w.metadata)
  }

  function RecordOf(w: Write): Record
    requires Audited(w)
  {
    Record(w.kind, w.metadata.value.targetName, w.entity.value, "audit_queue", true)
  }

  function Records(ws: seq<Write>): seq<Record> {
    if ws == [] then []
    else Records(ws[..|ws| - 1]) + (if Audited(ws[|ws| - 1]) then [RecordOf(ws[|ws| - 1])] else [])
  }

  /** The write that saving an outbox record is. */
  const OUTBOX_WRITE := Write(Created, Some(Metadata(OUTBOX_ENTITY, OUTBOX_ENTITY, Some(OUTBOX_TABLE))), Some("outbox"))

  /** The records are those of the picked writes, which are the audited ones, in order. */
  predicate Picks(ws: seq<Write>, records: seq<Record>, picked: seq<nat>) {
    && |picked| == |records|
    && (forall i | 0 <= i < |picked| :: picked[i] < |ws| && Audited(ws[picked[i]])
         && records[i] == RecordOf(ws[picked[i]]))
    && (forall i, j | 0 <= i < j < |picked| :: picked[i] < picked[j])
    && (forall k | 0 <= k < |ws| && Audited(ws[k]) :: k in picked)
  }

  lemma PicksMore(ws: seq<Write>, records: seq<Record>, picked: seq<nat>, w: Write) returns (more: seq<nat>)
    requires Picks(ws, records, picked)
    ensures Picks(ws + [w], records + if Audited(w) then [RecordOf(w)] else [], more)
  {
    hide ShouldSkip;
    hide RecordOf;
    more := picked;
    if Audited(w) {
      more := picked + [|ws|];
      assert more[|picked|] == |ws|;
    } else {
      assert records + [] == records;
    }
    forall k | 0 <= k < |ws| && Audited((ws + [w])[k]) ensures k in more {
      assert k in picked;
    }
  }

  /** One record per audited write and no other, in the order of the writes. */
  lemma {:induction false} RecordsExactlyAudited(ws: seq<Write>) returns (picked: seq<nat>)
    ensures Picks(ws, Records(ws), picked)
  {
    if ws == [] {
      picked := [];
    } else {
      var n := |ws| - 1;
      picked := RecordsExactlyAudited(ws[..n]);
      hide Picks;
      picked := PicksMore(ws[..n], Records(ws[..n]), picked, ws[n]);
      assert ws[..n] + [ws[n]] == ws;
    }
  }

  /** A write that must be recorded: it has an entity and metadata, and is not one of the outbox itself, by its
      class, by the name of its class, or by its table in any mixture of cases. */
  predicate MustRecord(w: Write) {
    && w.entity.Some? && w.metadata.Some?
    && w.metadata.value.target != "OutboxEntity" && w.metadata.value.targetName != "OutboxEntity"
    && match w.metadata.value.tableName
       case None => true
       case Some(t) => !(&& |t| == 6 && t[0] in "oO" && t[1] in "uU" && t[2] in "tT"
                         && t[3] in "bB" && t[4] in "oO" && t[5] in "xX")
  }

  /** The records of a sequence of writes are exactly these, in the order of the writes: each names what was done
      to which entity, with its keys, is bound for the audit queue, and is pending. */
  lemma RecordsSpec(ws: seq<Write>) returns (picked: seq<nat>)
    ensures |picked| == |Records(ws)| && forall i, j | 0 <= i < j < |picked| :: picked[i] < picked[j]
    ensures forall k | 0 <= k < |ws| :: k in picked <==> MustRecord(ws[k])
    ensures forall i | 0 <= i < |picked| ::
      && picked[i] < |ws| && MustRecord(ws[picked[i]])
      && var w := ws[picked[i]];
         Records(ws)[i] == Record(w.kind, w.metadata.value.targetName, w.entity.value, "audit_queue", true)
  {
    picked := RecordsExactlyAudited(ws);
    forall w: Write ensures Audited(w) <==> MustRecord(w) {
      AuditedIff(w);
    }
    hide Records;
    hide Audited;
    hide MustRecord;
  }

  lemma AuditedIff(w: Write)
    ensures Audited(w) <==> MustRecord(w)
  {
    if w.metadata.Some? && w.metadata.value.tableName.Some? {
      var t := w.metadata.value.tableName.value;
      assert |t| == 6 ==>
        ToLower(t) == [LowerChar(t[0]), LowerChar(t[1]), LowerChar(t[2]), LowerChar(t[3]), LowerChar(t[4]),
                       LowerChar(t[5])];
      assert ToLower(t) == "outbox" ==> |t| == 6;
      LowerIff();
      hide LowerChar;
      hide ToLower;
    }
  }

  lemma LowerIff()
    ensures forall c :: LowerChar(c) == 'o' <==> c in "oO"
    ensures forall c :: LowerChar(c) == 'u' <==> c in "uU"
    ensures forall c :: LowerChar(c) == 't' <==> c in "tT"
    ensures forall c :: LowerChar(c) == 'b' <==> c in "bB"
    ensures forall c :: LowerChar(c) == 'x' <==> c in "xX"
  {}

  /** The outbox table, and the open transaction's view of it. */
  class OutboxTable {
    var committed: seq<Record>
    var working: seq<Record>

    constructor ()
      ensures committed == [] && working == []
    {
      committed, working := [], [];
    }

    /** Saving any entity in the open transaction notifies the subscriber. */
    method Save(w: Write, record: Option<Record>)
      requires record.Some? ==> w == OUTBOX_WRITE
      modifies this
      ensures committed == old(committed)
      ensures working == old(working) + (if record.Some? then [record.value] else [])
                         + (if Audited(w) then [RecordOf(w)] else [])
      decreases if Audited(w) then 2 else 0
    {
      if record.Some? {
        working := working + [record.value];
      }
      AfterWrite(w);
    }

    /** afterInsert, afterUpdate and afterRemove, which differ in the kind they record. */
    method AfterWrite(w: Write)
      modifies this
      ensures committed == old(committed)
      ensures working == old(working) + (if Audited(w) then [RecordOf(w)] else [])
      decreases if Audited(w) then 1 else 0, 0
    {
      if w.entity.None? || ShouldSkip(w.metadata) {
        return;
      }
      assert ShouldSkip(OUTBOX_WRITE.metadata);
      Save(OUTBOX_WRITE, Some(RecordOf(w)));
    }

    /** A transaction of entity writes that commits, or that fails after some of them and rolls back. */
    method Transaction(writes: seq<Write>, failAfter: Option<nat>) returns (ok: bool)
      modifies this
      ensures ok <==> (failAfter.None? || failAfter.value >= |writes|)
      ensures committed == old(committed) + (if ok then Records(writes) else [])
      ensures working == committed
    {
      working := committed;
      for i := 0 to |writes|
        invariant committed == old(committed)
        invariant working == committed + Records(writes[..i])
        invariant failAfter.Some? ==> i <= failAfter.value
      {
        if failAfter == Some(i) {
          working := committed;
          return false;
        }
        assert writes[..i + 1][..i] == writes[..i];
        Save(writes[i], None);
      }
      assert writes[..|writes|] == writes;
      committed := working;
      return true;
    }
  }
}
