/** Ingesting one event: store it, then publish it as well as one can. */
module Ingest {
  import opened Events
  import opened Postgres
  import opened Kafka

  datatype Command = Command(
    streamId: string, kind: string, source: string, payload: string, metadata: map<string, string>)

  predicate Complete(cmd: Command) {
    cmd.streamId != "" && cmd.kind != "" && cmd.source != ""
  }

  /** A new event, with its fresh id and the current time; the store will give it its version. */
  function NewEvent(cmd: Command, tenant: string, id: nat, now: int): Event {
    Event(id, tenant, cmd.streamId, 0, Content(cmd.kind, cmd.source, now, cmd.payload, cmd.metadata))
  }

  /** What the caller of an ingest may rely on: the event that is returned, which is the last row of a table
      in order, is the last that its tenant reads of the stream, and no other tenant reads it. */
  lemma CallerReadsIt(rows: seq<Event>, tenant: string, stream: string, e: Event)
    requires Ledger(rows) && Unique(rows) && rows != [] && e == rows[|rows| - 1]
    requires e.tenantId == tenant != "" && e.streamId == stream
    ensures var own := Select(rows, tenant, stream, 0); own != [] && own[|own| - 1] == e
    ensures forall other | other != "" && other != tenant :: e !in Select(rows, other, stream, 0)
  {
    var front := rows[..|rows| - 1];
    assert rows == front + [e];
    NewRowIsRead(front, e);
  }

  /** And what is written of it, whatever the report, is at the end of the log of its stream. */
  lemma WrittenLast(routing: Routing, logs: Logs, e: Event, fate: WriteFate)
    requires SlotOf(routing, e.streamId).topic != "" && fate != Unacked(0)
    ensures var log := LogAt(PublishTo(routing, logs, e, fate), SlotOf(routing, e.streamId));
            log != [] && log[|log| - 1] == Message(e)
  {
    PublishedWhere(routing, logs, e, fate);
  }

  class IngestService {
    const store: EventStore
    const producer: Producer

    constructor (store: EventStore, producer: Producer)
      ensures this.store == store && this.producer == producer
    {
      this.store := store;
      this.producer := producer;
    }

    /** `others` is what other sessions commit while the INSERT runs. A caller who is told "stored" has
        the row in the table at the next version of its stream, whatever became of the publish; a caller
        who is told otherwise has published nothing. */
    method Ingest(tenant: string, cmd: Command, id: nat, now: int,
                  others: seq<Event>, stored: CallFate, written: WriteFate)
      returns (r: Result<Event>)
      requires Ledger(store.rows) && Ledger(store.rows + others) && Unique(store.rows + others)
      modifies store, producer.broker
      ensures r.Err? && r.error == Unauthenticated <==> tenant == ""
      ensures r.Err? && r.error == Invalid <==> tenant != "" && !Complete(cmd)
      ensures tenant == "" || !Complete(cmd) ==>
        store.rows == old(store.rows) && producer.broker.logs == old(producer.broker.logs)
      ensures tenant != "" && Complete(cmd) ==>
        var e := NewEvent(cmd, tenant, id, now);
        var row := e.(version := Count(old(store.rows), cmd.streamId) + 1);
        var done := Lands(old(store.rows), others, e, stored);
        && store.rows == (if done then old(store.rows) + others + [row] else old(store.rows) + others)
        && r == (if done && stored.Answered? then Ok(row) else Err(StoreFailure))
        && producer.broker.logs == if r.Ok? then PublishTo(producer.routing, old(producer.broker.logs), row, written)
                                   else old(producer.broker.logs)
      ensures r.Err? && r.error == Invalid <==>
        tenant != "" && (cmd.streamId == "" || cmd.kind == "" || cmd.source == "")
      // The row, field by field.
      ensures |store.rows| > |old(store.rows)| + |others| ==>
        var row := store.rows[|store.rows| - 1];
        && row.id == id && row.tenantId == tenant && row.streamId == cmd.streamId
        && row.content.kind == cmd.kind && row.content.source == cmd.source && row.content.occurredAt == now
        && row.content.payload == cmd.payload && row.content.metadata == cmd.metadata
      ensures r.Ok? ==> |store.rows| > |old(store.rows)| + |others| && r.value == store.rows[|store.rows| - 1]
      ensures r.Ok? ==> Ledger(store.rows) && Unique(store.rows)
    {
      if tenant == "" { return Err(Unauthenticated); }
      if cmd.streamId == "" || cmd.kind == "" || cmd.source == "" { return Err(Invalid); }
      var e := NewEvent(cmd, tenant, id, now);
      var appended := store.Append(e, others, stored);
      if appended.Err? { return Err(StoreFailure); }
      var published := producer.Publish(appended.value, written);
      r := appended;
    }
  }
}
