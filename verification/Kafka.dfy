/** Partitioned append-only logs and the producer. */
module Kafka {
  import opened Events
  import opened Config
  import opened Topics

  datatype Entry = Message(event: Event) | Malformed

  datatype Slot = Slot(topic: string, partition: nat)

  type Logs = map<Slot, seq<Entry>>

  function LogAt(logs: Logs, slot: Slot): seq<Entry> {
    if slot in logs then logs[slot] else []
  }

  function Write(logs: Logs, slot: Slot, entries: seq<Entry>): Logs {
    logs[slot := LogAt(logs, slot) + entries]
  }

  /** The resolver and, for a topic and a key, the partition its hash gives. */
  datatype Routing = Routing(resolver: Resolver, partitionOf: (string, string) -> nat)

  function SlotOf(routing: Routing, stream: string): Slot {
    var topic := Resolve(routing.resolver, stream);
    Slot(topic, routing.partitionOf(topic, stream))
  }

  /** The writer refuses a message without a topic. */
  function PublishTo(routing: Routing, logs: Logs, e: Event, fate: WriteFate): Logs {
    var slot := SlotOf(routing, e.streamId);
    if slot.topic == "" then logs else Write(logs, slot, Repeat(Message(e), fate.Copies()))
  }

  predicate Accepted(routing: Routing, e: Event, fate: WriteFate) {
    SlotOf(routing, e.streamId).topic != "" && fate.Acked?
  }

  /** A publish writes to the one log its stream belongs to, at the end, and nowhere else; a message whose
      publish succeeded is there. */
  lemma PublishedWhere(routing: Routing, logs: Logs, e: Event, fate: WriteFate)
    ensures var after := PublishTo(routing, logs, e, fate);
            var mine := SlotOf(routing, e.streamId);
      && (forall slot | slot != mine :: LogAt(after, slot) == LogAt(logs, slot))
      && LogAt(after, mine) == LogAt(logs, mine) + (if mine.topic == "" then [] else Repeat(Message(e), fate.Copies()))
      && (Accepted(routing, e, fate) ==> Message(e) in LogAt(after, mine))
  {
    var after := PublishTo(routing, logs, e, fate);
    var mine := SlotOf(routing, e.streamId);
    var added := Repeat(Message(e), fate.Copies());
    if Accepted(routing, e, fate) {
      assert LogAt(after, mine)[|LogAt(logs, mine)|] == added[0];
    }
  }

  /** Where a publish goes under a configuration, said without resolving: to the topic of the route whose key
      and colon begin the stream id, to the main topic when there is none, and there to the partition that
      the hash of topic and stream id gives. So many copies as the writer has written are added at the end of
      that one log; the writer's success is passed on unless there is no topic to write to. */
  lemma PublishGoesToRoute(raw: string, topic: string, partitionOf: (string, string) -> nat, logs: Logs, e: Event,
                           fate: WriteFate, to: string)
    requires forall k | k in Routes(raw) && k + ":" <= e.streamId :: to == Routes(raw)[k]
    requires (forall k | k in Routes(raw) :: !(k + ":" <= e.streamId)) ==> to == topic
    ensures var routing := Routing(NewTopicResolver(Routes(raw), topic), partitionOf);
            var after := PublishTo(routing, logs, e, fate);
            var mine := Slot(to, partitionOf(to, e.streamId));
            var copies := match fate case Acked(extra) => 1 + extra case Unacked(n) => n;
      && (forall slot | slot != mine :: LogAt(after, slot) == LogAt(logs, slot))
      && LogAt(after, mine) == LogAt(logs, mine) + (if to == "" then [] else seq(copies, _ => Message(e)))
      && (Accepted(routing, e, fate) <==> to != "" && fate.Acked?)
  {
    var routing := Routing(NewTopicResolver(Routes(raw), topic), partitionOf);
    var copies := match fate case Acked(extra) => 1 + extra case Unacked(n) => n;
    ResolveMeans(raw, topic, e.streamId);
    assert Resolve(routing.resolver, e.streamId) == to;
    PublishedWhere(routing, logs, e, fate);
    assert Repeat(Message(e), fate.Copies()) == seq(copies, _ => Message(e));
  }

  /** So whatever is written after a start that went through is written to a topic that exists. */
  lemma WrittenTopicsExist(raw: string, topic: string, topics: map<string, Shape>,
                           partitionOf: (string, string) -> nat, logs: Logs, e: Event, fate: WriteFate)
    requires topic in topics && forall k | k in Routes(raw) :: Routes(raw)[k] in topics
    ensures var after := PublishTo(Routing(NewTopicResolver(Routes(raw), topic), partitionOf), logs, e, fate);
            forall slot | LogAt(after, slot) != LogAt(logs, slot) :: slot.topic in topics
  {
    var to := Resolve(NewTopicResolver(Routes(raw), topic), e.streamId);
    ResolveMeans(raw, topic, e.streamId);
    PublishGoesToRoute(raw, topic, partitionOf, logs, e, fate, to);
  }

  class Broker {
    var logs: Logs

    constructor ()
      ensures logs == map[]
    {
      logs := map[];
    }
  }

  class Producer {
    const broker: Broker
    const routing: Routing

    constructor (broker: Broker, routing: Routing)
      ensures this.broker == broker && this.routing == routing
    {
      this.broker := broker;
      this.routing := routing;
    }

    method Publish(e: Event, fate: WriteFate) returns (ok: bool)
      modifies broker
      ensures broker.logs == PublishTo(routing, old(broker.logs), e, fate)
      ensures ok <==> Accepted(routing, e, fate)
    {
      var topic := Resolve(routing.resolver, e.streamId);
      var slot := Slot(topic, routing.partitionOf(topic, e.streamId));
      if topic == "" {
        return false;
      }
      var written := Repeat(Message(e), fate.Copies());
      broker.logs := broker.logs[slot := LogAt(broker.logs, slot) + written];
      ok := fate.Acked?;
    }
  }

  /** Logs are only ever extended, each at its end. */
  ghost predicate LogsExtend(before: Logs, after: Logs) {
    forall slot :: LogAt(before, slot) <= LogAt(after, slot)
  }
}
