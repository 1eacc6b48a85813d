/** The whole pipeline as one step system: any number of ingests at once, the log, the consumer with its
    crashes, the index and the dead-letter topic. A step that is not possible changes nothing, so every
    sequence of steps is a run. */
module Pipeline {
  import opened Events
  import opened Postgres
  import opened Search
  import opened Kafka
  import opened Consume

  /** What is fixed: where events go, and the one topic that is consumed. */
  datatype Setup = Setup(routing: Routing, topic: string)

  /** An ingest in flight: its INSERT has taken its snapshot of the first `seen` rows, or it is done and
      the event is about to be published. */
  datatype Ticket = Reading(event: Event, seen: nat) | Stored(event: Event)

  /** The message the loop is at. */
  datatype Stage = Fetched(event: Event) | Refused(event: Event) | Handled
  datatype Delivery = Delivery(partition: nat, offset: nat, stage: Stage)

  datatype State = State(
    rows: seq<Event>,
    tickets: map<nat, Ticket>,
    logs: Logs,
    acked: set<Event>,
    side: Side,
    current: Option<Delivery>)

  const INIT := State([], map[], map[], {}, Side(map[], map[], Sinks(map[], [], {})), None)

  datatype Step =
    | Begin(call: nat, event: Event)
    | Insert(call: nat, stored: CallFate)
    | Retry(call: nat)
    | Publish(call: nat, written: WriteFate)
    | Abandon(call: nat)
    | Garble(slot: Slot)
    | FetchNext(partition: nat)
    | IndexIt(indexed: CallFate)
    | DeadLetter(dead: WriteFate)
    | CommitIt(fate: CallFate)
    | Crash

  function IngestStep(c: Setup, st: State, a: Step): State {
    match a
    case Begin(call, e) =>
      if call in st.tickets then st
      else st.(tickets := st.tickets[call := Reading(e.(version := MaxVersion(st.rows, e.streamId) + 1), |st.rows|)])
    case Insert(call, fate) =>
      if call !in st.tickets || !st.tickets[call].Reading? then st
      else
        var e := st.tickets[call].event;
        var rows := InsertRow(st.rows, e, fate);
        st.(rows := rows,
            tickets := if |rows| > |st.rows| && fate.Answered? then st.tickets[call := Stored(e)]
                       else st.tickets - {call})
    // An attempt of the writer that lands although it goes on trying; other messages may come next.
    case Retry(call) =>
      if call !in st.tickets || !st.tickets[call].Stored? then st
      else st.(logs := PublishTo(c.routing, st.logs, st.tickets[call].event, Unacked(1)))
    case Publish(call, fate) =>
      if call !in st.tickets || !st.tickets[call].Stored? then st
      else
        var e := st.tickets[call].event;
        st.(logs := PublishTo(c.routing, st.logs, e, fate),
            acked := if Accepted(c.routing, e, fate) then st.acked + {e} else st.acked,
            tickets := st.tickets - {call})
    case Abandon(call) => st.(tickets := st.tickets - {call})
    case Garble(slot) => st.(logs := Write(st.logs, slot, [Malformed]))
    case _ => st
  }

  function Log(c: Setup, st: State, partition: nat): seq<Entry> {
    LogAt(st.logs, Slot(c.topic, partition))
  }

  function ConsumeStep(c: Setup, st: State, a: Step): State {
    match a
    case FetchNext(p) =>
      var offset := At(st.side.position, p);
      if st.current.Some? || offset >= |Log(c, st, p)| then st
      else
        var entry := Log(c, st, p)[offset];
        st.(side := st.side.(position := st.side.position[p := offset + 1]),
            current := Some(Delivery(p, offset, if entry.Malformed? then Handled else Fetched(entry.event))))
    case IndexIt(fate) =>
      if st.current.None? || !st.current.value.stage.Fetched? then st
      else
        var e := st.current.value.stage.event;
        st.(side := st.side.(sinks := AfterIndex(st.side.sinks, e, fate)),
            current := Some(st.current.value.(stage := if fate.Answered? then Handled else Refused(e))))
    case DeadLetter(fate) =>
      if st.current.None? || !st.current.value.stage.Refused? then st
      else
        st.(side := st.side.(sinks := AfterDlq(st.side.sinks, st.current.value.stage.event, fate)),
            current := Some(st.current.value.(stage := Handled)))
    case CommitIt(fate) =>
      if st.current.None? || !st.current.value.stage.Handled? then st
      else
        var side := Commit(st.side, st.current.value.partition, st.current.value.offset, fate);
        st.(side := if fate.Answered? then side else Restarted(side), current := None)
    case Crash => st.(side := Restarted(st.side), current := None)
    case _ => st
  }

  function Next(c: Setup, st: State, a: Step): State {
    if Ingests(a) then IngestStep(c, st, a) else ConsumeStep(c, st, a)
  }

  predicate Ingests(a: Step) {
    a.Begin? || a.Insert? || a.Retry? || a.Publish? || a.Abandon? || a.Garble?
  }

  function Exec(c: Setup, st: State, steps: seq<Step>): State
    decreases |steps|
  {
    if steps == [] then st else Next(c, Exec(c, st, steps[..|steps| - 1]), steps[|steps| - 1])
  }

  lemma {:induction false} ExecConcat(c: Setup, st: State, a: seq<Step>, b: seq<Step>)
    ensures Exec(c, st, a + b) == Exec(c, Exec(c, st, a), b)
    decreases |b|
  {
    if b == [] {
      assert a + b == a;
    } else {
      var n := |b| - 1;
      assert (a + b)[..|a + b| - 1] == a + b[..n];
      ExecConcat(c, st, a, b[..n]);
    }
  }

  lemma ExecTwo(c: Setup, st: State, a: Step, b: Step)
    ensures Exec(c, st, [a]) == Next(c, st, a)
    ensures Exec(c, st, [a, b]) == Next(c, Next(c, st, a), b)
  {
    assert [a][..0] == [] && [a, b][..1] == [a];
  }

  // ---- What every reachable state keeps ----

  ghost predicate StoreInv(st: State) {
    && Ledger(st.rows) && Unique(st.rows)
    && forall call | call in st.tickets :: TicketInv(st.rows, st.tickets[call])
  }

  ghost predicate TicketInv(rows: seq<Event>, t: Ticket) {
    match t
    case Reading(e, seen) => seen <= |rows| && e.version == Count(rows[..seen], e.streamId) + 1
    case Stored(e) => e in rows
  }

  /** Every message is a stored row, in the log its stream belongs to. */
  ghost predicate LogInv(c: Setup, st: State) {
    && (forall slot, i | 0 <= i < |LogAt(st.logs, slot)| && LogAt(st.logs, slot)[i].Message? ::
          var e := LogAt(st.logs, slot)[i].event; e in st.rows && slot == SlotOf(c.routing, e.streamId))
    && (forall e | e in st.acked :: e in st.rows && Message(e) in LogAt(st.logs, SlotOf(c.routing, e.streamId)))
  }

  /** What the consumer may have touched: stored events whose stream goes to the consumed topic. */
  ghost predicate Ours(c: Setup, rows: seq<Event>, e: Event) {
    e in rows && SlotOf(c.routing, e.streamId).topic == c.topic
  }

  ghost predicate SinkInv(c: Setup, st: State) {
    && Keyed(st.side.sinks.docs)
    && (forall id | id in st.side.sinks.docs :: Ours(c, st.rows, st.side.sinks.docs[id]))
    && (forall e | e in st.side.sinks.dlq || e in st.side.sinks.lost :: Ours(c, st.rows, e))
  }

  predicate Holds(st: State, partition: nat) {
    st.current.Some? && st.current.value.partition == partition
  }

  /** The reader is past what is committed by the message in hand and nothing else, and everything
      committed is settled. */
  ghost predicate OffsetInv(c: Setup, st: State) {
    && (forall p: nat :: At(st.side.position, p) == At(st.side.committed, p) + if Holds(st, p) then 1 else 0)
    && (forall p: nat :: At(st.side.position, p) <= |Log(c, st, p)|)
    && (forall p: nat, i | 0 <= i < At(st.side.committed, p) && i < |Log(c, st, p)| ::
          Settled(st.side.sinks, Log(c, st, p)[i]))
    && (st.current.Some? ==> InHand(c, st, st.current.value))
  }

  ghost predicate InHand(c: Setup, st: State, d: Delivery) {
    && d.offset == At(st.side.committed, d.partition) < |Log(c, st, d.partition)|
    && match d.stage
       case Handled => Settled(st.side.sinks, Log(c, st, d.partition)[d.offset])
       case Fetched(e) => Log(c, st, d.partition)[d.offset] == Message(e)
       case Refused(e) => Log(c, st, d.partition)[d.offset] == Message(e)
  }

  ghost predicate Inv(c: Setup, st: State) {
    StoreInv(st) && LogInv(c, st) && SinkInv(c, st) && OffsetInv(c, st)
  }

  // ---- The store keeps its part ----

  lemma TicketStays(rows: seq<Event>, e: Event, t: Ticket)
    requires TicketInv(rows, t)
    ensures TicketInv(rows + [e], t)
  {
    if t.Reading? {
      assert (rows + [e])[..t.seen] == rows[..t.seen];
    }
  }

  lemma NewTicket(rows: seq<Event>, e: Event)
    requires Ledger(rows)
    ensures TicketInv(rows, Reading(e.(version := MaxVersion(rows, e.streamId) + 1), |rows|))
  {
    MaxIsCount(rows, e.streamId);
    assert rows[..|rows|] == rows;
  }

  /** Tickets as other rows are committed beside them. */
  lemma TicketsOverInsert(st: State, call: nat, fate: CallFate)
    requires forall k | k in st.tickets :: TicketInv(st.rows, st.tickets[k])
    requires call in st.tickets && st.tickets[call].Reading?
    ensures var rows := InsertRow(st.rows, st.tickets[call].event, fate);
      && (forall k | k in st.tickets :: TicketInv(rows, st.tickets[k]))
      && (|rows| > |st.rows| ==> TicketInv(rows, Stored(st.tickets[call].event)))
  {
    var e := st.tickets[call].event;
    forall k | k in st.tickets ensures TicketInv(st.rows + [e], st.tickets[k]) {
      TicketStays(st.rows, e, st.tickets[k]);
    }
  }

  lemma InsertFrame(c: Setup, st: State, call: nat, fate: CallFate)
    requires call in st.tickets && st.tickets[call].Reading?
    ensures var after := Next(c, st, Insert(call, fate));
            var e := st.tickets[call].event;
      && after.rows == InsertRow(st.rows, e, fate)
      && forall k | k in after.tickets ::
           || (k in st.tickets && after.tickets[k] == st.tickets[k])
           || (after.tickets[k] == Stored(e) && |after.rows| > |st.rows|)
  {
  }

  lemma StoreOverInsert(st: State, after: State, call: nat, fate: CallFate)
    requires StoreInv(st) && call in st.tickets && st.tickets[call].Reading?
    requires after.rows == InsertRow(st.rows, st.tickets[call].event, fate)
    requires forall k | k in after.tickets ::
               || (k in st.tickets && after.tickets[k] == st.tickets[k])
               || (after.tickets[k] == Stored(st.tickets[call].event) && |after.rows| > |st.rows|)
    ensures StoreInv(after)
  {
    var t := st.tickets[call];
    assert TicketInv(st.rows, t);
    InsertKeepsLedger(st.rows, t.seen, t.event, fate);
    TicketsOverInsert(st, call, fate);
  }

  lemma StoreOverRest(c: Setup, st: State, a: Step)
    requires !(a.Insert? && a.call in st.tickets && st.tickets[a.call].Reading?)
    ensures var after := Next(c, st, a);
      && after.rows == st.rows
      && forall k | k in after.tickets ::
           (k in st.tickets && after.tickets[k] == st.tickets[k])
           || (a.Begin? && after.tickets[k]
                 == Reading(a.event.(version := MaxVersion(st.rows, a.event.streamId) + 1), |st.rows|))
  {
  }

  lemma StoreStep(c: Setup, st: State, a: Step)
    requires StoreInv(st)
    ensures StoreInv(Next(c, st, a))
  {
    if a.Insert? && a.call in st.tickets && st.tickets[a.call].Reading? {
      InsertFrame(c, st, a.call, a.stored);
      StoreOverInsert(st, Next(c, st, a), a.call, a.stored);
    } else {
      if a.Begin? { NewTicket(st.rows, a.event); }
      StoreOverRest(c, st, a);
    }
  }

  lemma RowsGrow(c: Setup, st: State, a: Step)
    ensures st.rows <= Next(c, st, a).rows
    ensures forall e | e in st.rows :: e in Next(c, st, a).rows
  {
  }

  // ---- The logs keep theirs ----

  /** The step writes the event of a stored ticket. */
  predicate Writes(st: State, a: Step) {
    (a.Retry? || a.Publish?) && a.call in st.tickets && st.tickets[a.call].Stored?
  }

  function FateOf(a: Step): WriteFate
    requires a.Retry? || a.Publish?
  {
    if a.Retry? then Unacked(1) else a.written
  }

  /** What such a step does to the logs. */
  lemma WriteStep(c: Setup, st: State, a: Step)
    requires Writes(st, a)
    ensures var after := Next(c, st, a); var e := st.tickets[a.call].event;
      && after.logs == PublishTo(c.routing, st.logs, e, FateOf(a))
      && after.acked == (if Accepted(c.routing, e, FateOf(a)) then st.acked + {e} else st.acked)
      && after.rows == st.rows
  {
  }

  lemma LogStep(c: Setup, st: State, a: Step)
    requires LogInv(c, st)
    requires Writes(st, a) ==> st.tickets[a.call].event in st.rows
    ensures LogInv(c, Next(c, st, a))
    ensures LogsExtend(st.logs, Next(c, st, a).logs)
  {
    if Writes(st, a) {
      WriteStep(c, st, a);
      PublishKeepsLogs(c, st, st.tickets[a.call].event, FateOf(a));
      MoreRowsKeepLogs(c, st.(logs := Next(c, st, a).logs, acked := Next(c, st, a).acked), Next(c, st, a));
    } else if a.Garble? {
      GarbleKeepsLogs(c, st, a.slot);
    } else {
      RowsGrow(c, st, a);
      MoreRowsKeepLogs(c, st, Next(c, st, a));
    }
  }

  lemma MoreRowsKeepLogs(c: Setup, st: State, after: State)
    requires LogInv(c, st) && after.logs == st.logs && after.acked == st.acked
    requires forall e | e in st.rows :: e in after.rows
    ensures LogInv(c, after)
  {
  }

  lemma GarbleKeepsLogs(c: Setup, st: State, at: Slot)
    requires LogInv(c, st)
    ensures var logs := Write(st.logs, at, [Malformed]); LogInv(c, st.(logs := logs)) && LogsExtend(st.logs, logs)
  {
    var logs := Write(st.logs, at, [Malformed]);
    assert LogAt(logs, at) == LogAt(st.logs, at) + [Malformed];
    forall slot | slot != at ensures LogAt(logs, slot) == LogAt(st.logs, slot) {}
  }

  lemma PublishKeepsLogs(c: Setup, st: State, e: Event, fate: WriteFate)
    requires LogInv(c, st) && e in st.rows
    ensures var logs := PublishTo(c.routing, st.logs, e, fate);
            var acked := if Accepted(c.routing, e, fate) then st.acked + {e} else st.acked;
            LogInv(c, st.(logs := logs, acked := acked)) && LogsExtend(st.logs, logs)
  {
    var logs := PublishTo(c.routing, st.logs, e, fate);
    var mine := SlotOf(c.routing, e.streamId);
    PublishedWhere(c.routing, st.logs, e, fate);
    forall f | f in st.acked ensures Message(f) in LogAt(logs, SlotOf(c.routing, f.streamId)) {
      assert Message(f) in LogAt(st.logs, SlotOf(c.routing, f.streamId));
    }
  }

  // ---- The sinks keep theirs ----

  /** The message in hand is a stored event of the consumed topic. */
  lemma HandedIsOurs(c: Setup, st: State)
    requires LogInv(c, st) && st.current.Some? && !st.current.value.stage.Handled? && InHand(c, st, st.current.value)
    ensures Ours(c, st.rows, st.current.value.stage.event)
  {
    var d := st.current.value;
    assert LogAt(st.logs, Slot(c.topic, d.partition))[d.offset] == Message(d.stage.event);
  }

  lemma SinkStep(c: Setup, st: State, a: Step)
    requires LogInv(c, st) && SinkInv(c, st) && (st.current.Some? ==> InHand(c, st, st.current.value))
    ensures SinkInv(c, Next(c, st, a))
  {
    RowsGrow(c, st, a);
    if Ingests(a) {
    } else if st.current.Some? && !st.current.value.stage.Handled? {
      HandedIsOurs(c, st);
    }
  }

  ghost predicate SinksGrow(s: Sinks, t: Sinks) {
    && (forall id | id in s.docs :: id in t.docs && t.docs[id] == s.docs[id])
    && s.dlq <= t.dlq && s.lost <= t.lost
  }

  /** Documents are added, never changed; dead letters and double failures are added too. */
  lemma SinksOnlyGrow(c: Setup, st: State, a: Step)
    requires Unique(st.rows) && LogInv(c, st) && SinkInv(c, st)
    requires st.current.Some? ==> InHand(c, st, st.current.value)
    ensures SinksGrow(st.side.sinks, Next(c, st, a).side.sinks)
  {
    if a.IndexIt? && st.current.Some? && st.current.value.stage.Fetched? {
      HandedIsOurs(c, st);
      IndexingAgain(c, st, st.current.value.stage.event);
    }
    SinkChange(c, st, a);
  }

  /** The only ways a step touches the sinks. */
  function SinksAfter(st: State, a: Step): Sinks {
    var s := st.side.sinks;
    if st.current.None? then s
    else match st.current.value.stage
      case Fetched(e) => if a.IndexIt? then AfterIndex(s, e, a.indexed) else s
      case Refused(e) => if a.DeadLetter? then AfterDlq(s, e, a.dead) else s
      case Handled => s
  }

  lemma SinkChange(c: Setup, st: State, a: Step)
    ensures Next(c, st, a).side.sinks == SinksAfter(st, a)
  {
  }

  lemma IndexingAgain(c: Setup, st: State, e: Event)
    requires Unique(st.rows) && SinkInv(c, st) && e in st.rows
    ensures e.id in st.side.sinks.docs ==> st.side.sinks.docs[e.id] == e
  {
    if e.id in st.side.sinks.docs {
      SameRow(st.rows, st.side.sinks.docs[e.id], e);
    }
  }

  // ---- The offsets keep theirs ----

  lemma GrownStaysSettled(s: Sinks, t: Sinks, entry: Entry)
    requires SinksGrow(s, t) && Settled(s, entry)
    ensures Settled(t, entry)
  {
  }

  lemma IngestLeavesConsumer(c: Setup, st: State, a: Step)
    requires Ingests(a)
    ensures Next(c, st, a).side == st.side && Next(c, st, a).current == st.current
  {
  }

  lemma OffsetsFrame(c: Setup, st: State, after: State)
    requires OffsetInv(c, st) && after.side == st.side && after.current == st.current
    requires LogsExtend(st.logs, after.logs)
    ensures OffsetInv(c, after)
  {
    forall p: nat ensures Log(c, st, p) <= Log(c, after, p) {
      assert LogAt(st.logs, Slot(c.topic, p)) <= LogAt(after.logs, Slot(c.topic, p));
    }
    forall p: nat ensures At(after.side.position, p) <= |Log(c, after, p)| {
      assert At(st.side.position, p) <= |Log(c, st, p)|;
    }
    forall p: nat, i | 0 <= i < At(after.side.committed, p) && i < |Log(c, after, p)|
      ensures Settled(after.side.sinks, Log(c, after, p)[i])
    {
      assert At(st.side.position, p) <= |Log(c, st, p)|;
      assert Settled(st.side.sinks, Log(c, st, p)[i]);
    }
  }

  lemma OffsetsOverIngest(c: Setup, st: State, a: Step)
    requires OffsetInv(c, st) && Ingests(a) && LogsExtend(st.logs, Next(c, st, a).logs)
    ensures OffsetInv(c, Next(c, st, a))
  {
    IngestLeavesConsumer(c, st, a);
    OffsetsFrame(c, st, Next(c, st, a));
  }

  /** The settled part of the log, and the message in hand, as the sinks grow. */
  lemma SettledOverConsume(c: Setup, st: State, a: Step)
    requires OffsetInv(c, st) && !Ingests(a) && SinksGrow(st.side.sinks, Next(c, st, a).side.sinks)
    ensures forall p: nat, i | 0 <= i < At(st.side.committed, p) && i < |Log(c, st, p)| ::
      Settled(Next(c, st, a).side.sinks, Log(c, st, p)[i])
    ensures var after := Next(c, st, a);
      after.current.Some? && after.current.value.stage.Handled? ==>
        var d := after.current.value;
        d.offset < |Log(c, st, d.partition)| && Settled(after.side.sinks, Log(c, st, d.partition)[d.offset])
  {
    var after := Next(c, st, a);
    forall p: nat, i | 0 <= i < At(st.side.committed, p) && i < |Log(c, st, p)|
      ensures Settled(after.side.sinks, Log(c, st, p)[i])
    {
      GrownStaysSettled(st.side.sinks, after.side.sinks, Log(c, st, p)[i]);
    }
    if a.DeadLetter? && st.current.Some? && st.current.value.stage.Refused? && a.dead.Acked? {
      assert after.side.sinks.dlq[|st.side.sinks.dlq|] == st.current.value.stage.event;
    }
  }

  lemma PositionsOverConsume(c: Setup, st: State, a: Step, p: nat)
    requires OffsetInv(c, st) && !Ingests(a)
    ensures var after := Next(c, st, a);
      && At(after.side.position, p) == At(after.side.committed, p) + (if Holds(after, p) then 1 else 0)
      && At(after.side.position, p) <= |Log(c, after, p)|
  {
    assert At(st.side.position, p) == At(st.side.committed, p) + if Holds(st, p) then 1 else 0;
    assert At(st.side.position, p) <= |Log(c, st, p)|;
  }

  lemma InHandOverConsume(c: Setup, st: State, a: Step)
    requires OffsetInv(c, st) && !Ingests(a) && SinksGrow(st.side.sinks, Next(c, st, a).side.sinks)
    ensures var after := Next(c, st, a); after.current.Some? ==> InHand(c, after, after.current.value)
  {
    SettledOverConsume(c, st, a);
    if a.FetchNext? {
      var p := a.partition;
      assert At(st.side.position, p) == At(st.side.committed, p) + if Holds(st, p) then 1 else 0;
    }
  }

  lemma CommittedOverConsume(c: Setup, st: State, a: Step)
    requires OffsetInv(c, st) && !Ingests(a) && SinksGrow(st.side.sinks, Next(c, st, a).side.sinks)
    ensures var after := Next(c, st, a);
      forall p: nat, i | 0 <= i < At(after.side.committed, p) && i < |Log(c, after, p)| ::
        Settled(after.side.sinks, Log(c, after, p)[i])
  {
    SettledOverConsume(c, st, a);
  }

  lemma OffsetsOverConsume(c: Setup, st: State, a: Step)
    requires OffsetInv(c, st) && !Ingests(a) && SinksGrow(st.side.sinks, Next(c, st, a).side.sinks)
    ensures OffsetInv(c, Next(c, st, a))
  {
    InHandOverConsume(c, st, a);
    CommittedOverConsume(c, st, a);
    var after := Next(c, st, a);
    forall p: nat
      ensures At(after.side.position, p) == At(after.side.committed, p) + if Holds(after, p) then 1 else 0
      ensures At(after.side.position, p) <= |Log(c, after, p)|
    {
      PositionsOverConsume(c, st, a, p);
    }
  }

  lemma InvStep(c: Setup, st: State, a: Step)
    requires Inv(c, st)
    ensures Inv(c, Next(c, st, a))
  {
    StoreStep(c, st, a);
    LogStep(c, st, a);
    SinkStep(c, st, a);
    if Ingests(a) {
      OffsetsOverIngest(c, st, a);
    } else {
      SinksOnlyGrow(c, st, a);
      OffsetsOverConsume(c, st, a);
    }
  }

  lemma {:induction false} InvAlong(c: Setup, st: State, steps: seq<Step>)
    requires Inv(c, st)
    ensures Inv(c, Exec(c, st, steps))
    decreases |steps|
  {
    if steps != [] {
      InvAlong(c, st, steps[..|steps| - 1]);
      InvStep(c, Exec(c, st, steps[..|steps| - 1]), steps[|steps| - 1]);
    }
  }

  lemma BeginAlone(c: Setup, st: State, call: nat, e: Event, last: nat)
    requires call !in st.tickets && last == MaxVersion(st.rows, e.streamId)
    ensures Next(c, st, Begin(call, e))
         == st.(tickets := st.tickets[call := Reading(e.(version := last + 1), |st.rows|)])
  {
  }

  lemma NextRowIsFree(rows: seq<Event>, row: Event)
    requires Ledger(rows) && row.version == Count(rows, row.streamId) + 1 && forall r | r in rows :: r.id != row.id
    ensures !Taken(rows, row)
  {
    assert rows[..|rows|] == rows;
    RaceDecides(rows, |rows|, row);
    TakenMeans(rows, row);
  }

  lemma InsertAlone(c: Setup, st: State, call: nat, row: Event)
    requires call in st.tickets && st.tickets[call].Reading? && st.tickets[call].event == row && !Taken(st.rows, row)
    ensures Next(c, st, Insert(call, Answered))
         == st.(rows := st.rows + [row], tickets := st.tickets[call := Stored(row)])
  {
  }

  lemma AloneSteps(c: Setup, st: State, call: nat, e: Event, last: nat)
    requires call !in st.tickets && last == MaxVersion(st.rows, e.streamId)
    requires !Taken(st.rows, e.(version := last + 1))
    ensures var row := e.(version := last + 1);
      Exec(c, st, [Begin(call, e), Insert(call, Answered)])
        == st.(rows := st.rows + [row], tickets := st.tickets[call := Stored(row)])
  {
    var row := e.(version := last + 1);
    var begun := st.tickets[call := Reading(row, |st.rows|)];
    BeginAlone(c, st, call, e, last);
    InsertAlone(c, st.(tickets := begun), call, row);
    assert begun[call := Stored(row)] == st.tickets[call := Stored(row)];
    ExecTwo(c, st, Begin(call, e), Insert(call, Answered));
  }

  /** An ingest that nobody disturbs stores its event at the next version. */
  lemma StoredAlone(c: Setup, st: State, call: nat, e: Event)
    requires StoreInv(st) && call !in st.tickets && forall r | r in st.rows :: r.id != e.id
    ensures var row := e.(version := Count(st.rows, e.streamId) + 1);
      Exec(c, st, [Begin(call, e), Insert(call, Answered)])
        == st.(rows := st.rows + [row], tickets := st.tickets[call := Stored(row)])
  {
    MaxIsCount(st.rows, e.streamId);
    NextRowIsFree(st.rows, e.(version := Count(st.rows, e.streamId) + 1));
    AloneSteps(c, st, call, e, Count(st.rows, e.streamId));
  }

  lemma Always(c: Setup, steps: seq<Step>)
    ensures Inv(c, Exec(c, INIT, steps))
  {
    InvAlong(c, INIT, steps);
  }
}
