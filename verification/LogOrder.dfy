/** When the order of a stream in its log is the order of its versions. */
module LogOrder {
  import opened Events
  import opened Postgres
  import opened Replay
  import opened Kafka
  import opened Pipeline
  import opened Provenance
  import opened Consume

  ghost predicate InVersionOrder(log: seq<Entry>, stream: string) {
    forall i, j | 0 <= i < j < |log| && log[i].Message? && log[j].Message?
               && log[i].event.streamId == stream && log[j].event.streamId == stream ::
      log[i].event.version < log[j].event.version
  }

  /** Every message of the stream is older than `version`. */
  ghost predicate AllBelow(log: seq<Entry>, stream: string, version: nat) {
    forall x | x in log && x.Message? && x.event.streamId == stream :: x.event.version < version
  }

  /** One publish keeps the order exactly when nothing is written, or one copy is and no newer event of
      the stream is there already. */
  lemma PublishKeepsOrderIff(log: seq<Entry>, e: Event, copies: nat)
    requires InVersionOrder(log, e.streamId)
    ensures InVersionOrder(log + Repeat(Message(e), copies), e.streamId)
       <==> copies == 0 || (copies == 1 && AllBelow(log, e.streamId, e.version))
  {
    var after := log + Repeat(Message(e), copies);
    assert forall i | 0 <= i < |log| :: after[i] == log[i];
    assert forall i | |log| <= i < |after| :: after[i] == Message(e);
    if copies > 1 {
      assert after[|log|] == Message(e) && after[|log| + 1] == Message(e);
      assert !InVersionOrder(after, e.streamId);
    }
    if InVersionOrder(after, e.streamId) && copies == 1 {
      forall x | x in log && x.Message? && x.event.streamId == e.streamId ensures x.event.version < e.version {
        var i :| 0 <= i < |log| && log[i] == x;
        assert after[i] == x && after[|log|] == Message(e);
      }
    }
  }

  /** What a step writes to a log. */
  function AddedTo(c: Setup, st: State, a: Step, slot: Slot): seq<Entry> {
    if a.Garble? && a.slot == slot then [Malformed]
    else if Writes(st, a) && slot.topic != "" && SlotOf(c.routing, st.tickets[a.call].event.streamId) == slot
    then Repeat(Message(st.tickets[a.call].event), FateOf(a).Copies())
    else []
  }

  lemma LogGrowsBy(c: Setup, st: State, a: Step, slot: Slot)
    ensures LogAt(Next(c, st, a).logs, slot) == LogAt(st.logs, slot) + AddedTo(c, st, a, slot)
  {
    if Writes(st, a) {
      WriteStep(c, st, a);
      PublishedWhere(c.routing, st.logs, st.tickets[a.call].event, FateOf(a));
    }
  }

  // ---- Ingests of one stream that do not overlap ----

  predicate On(st: State, call: nat, stream: string) {
    call in st.tickets && st.tickets[call].event.streamId == stream
  }

  /** The log holds the event already. */
  predicate Logged(c: Setup, st: State, e: Event) {
    Message(e) in LogAt(st.logs, SlotOf(c.routing, e.streamId))
  }

  /** No ingest of the stream begins while another is in flight, and no event of it is written twice. */
  ghost predicate Calm(c: Setup, st: State, a: Step, stream: string) {
    && (a.Begin? && a.event.streamId == stream ==> forall call :: !On(st, call, stream))
    && (Writes(st, a) && On(st, a.call, stream) ==>
          FateOf(a).Copies() == 0 || (FateOf(a).Copies() == 1 && !Logged(c, st, st.tickets[a.call].event)))
  }

  ghost predicate CalmRun(c: Setup, steps: seq<Step>, stream: string)
    decreases |steps|
  {
    steps == [] ||
    (&& CalmRun(c, steps[..|steps| - 1], stream)
     && Calm(c, Exec(c, INIT, steps[..|steps| - 1]), steps[|steps| - 1], stream))
  }

  ghost predicate OneAtATime(st: State, stream: string) {
    forall j, k | On(st, j, stream) && On(st, k, stream) :: j == k
  }

  /** What is about to be published is in its log or newer than everything there. */
  ghost predicate OrderInv(c: Setup, st: State, stream: string) {
    var log := LogAt(st.logs, SlotOf(c.routing, stream));
    && InVersionOrder(log, stream)
    && OneAtATime(st, stream)
    && StoredAreNext(st, log, stream)
  }

  ghost predicate StoredAreNext(st: State, log: seq<Entry>, stream: string) {
    forall call | On(st, call, stream) && st.tickets[call].Stored? ::
      Message(st.tickets[call].event) in log || AllBelow(log, stream, st.tickets[call].event.version)
  }

  /** No message is newer than the last row. */
  lemma MessagesBelowNext(c: Setup, st: State, stream: string)
    requires Ledger(st.rows) && LogInv(c, st)
    ensures AllBelow(LogAt(st.logs, SlotOf(c.routing, stream)), stream, Count(st.rows, stream) + 1)
  {
    var log := LogAt(st.logs, SlotOf(c.routing, stream));
    forall x | x in log && x.Message? && x.event.streamId == stream
      ensures x.event.version < Count(st.rows, stream) + 1
    {
      var i :| 0 <= i < |log| && log[i] == x;
      assert log[i].event in st.rows;
      VersionBounds(st.rows, x.event);
    }
  }

  lemma InsertedIsNext(st: State, call: nat, fate: CallFate)
    requires StoreInv(st) && call in st.tickets && st.tickets[call].Reading?
    ensures var e := st.tickets[call].event;
            |InsertRow(st.rows, e, fate)| > |st.rows| ==> e.version == Count(st.rows, e.streamId) + 1
  {
    var t := st.tickets[call];
    assert TicketInv(st.rows, t);
    RaceDecides(st.rows, t.seen, t.event);
    TakenMeans(st.rows, t.event);
  }

  lemma OneAtATimeStep(c: Setup, st: State, a: Step, stream: string)
    requires OneAtATime(st, stream) && Calm(c, st, a, stream)
    ensures OneAtATime(Next(c, st, a), stream)
  {
    var after := Next(c, st, a);
    forall k | On(after, k, stream)
      ensures On(st, k, stream) || (a.Begin? && k == a.call && a.event.streamId == stream)
    {}
    if a.Begin? && a.event.streamId == stream {
      assert forall k | On(after, k, stream) :: k == a.call;
    }
  }

  lemma OthersDoNotMatter(log: seq<Entry>, added: seq<Entry>, stream: string)
    requires forall x | x in added && x.Message? :: x.event.streamId != stream
    ensures InVersionOrder(log, stream) ==> InVersionOrder(log + added, stream)
    ensures forall v: nat | AllBelow(log, stream, v) :: AllBelow(log + added, stream, v)
  {
  }

  /** A write leaves the tickets it does not end as they are. */
  lemma WriteTickets(c: Setup, st: State, a: Step, stream: string)
    requires Writes(st, a)
    ensures var after := Next(c, st, a);
      forall k | On(after, k, stream) :: On(st, k, stream) && after.tickets[k] == st.tickets[k]
  {
  }

  lemma OrderOverWrite(c: Setup, st: State, a: Step, stream: string)
    requires OrderInv(c, st, stream) && Writes(st, a) && Calm(c, st, a, stream)
    ensures var after := Next(c, st, a); var log := LogAt(after.logs, SlotOf(c.routing, stream));
      InVersionOrder(log, stream) && StoredAreNext(after, log, stream)
  {
    var after := Next(c, st, a);
    var e := st.tickets[a.call].event;
    var slot := SlotOf(c.routing, stream);
    var log := LogAt(st.logs, slot);
    var added := AddedTo(c, st, a, slot);
    LogGrowsBy(c, st, a, slot);
    WriteTickets(c, st, a, stream);
    if e.streamId == stream {
      assert On(st, a.call, stream);
      if added != [] {
        assert added == Repeat(Message(e), 1);
        PublishKeepsOrderIff(log, e, 1);
        assert (log + added)[|log|] == Message(e);
      }
    } else {
      OthersDoNotMatter(log, added, stream);
    }
  }

  lemma OrderOverInsert(c: Setup, st: State, call: nat, fate: CallFate, stream: string)
    requires StoreInv(st) && LogInv(c, st) && OrderInv(c, st, stream)
    requires call in st.tickets && st.tickets[call].Reading?
    ensures var after := Next(c, st, Insert(call, fate)); var log := LogAt(after.logs, SlotOf(c.routing, stream));
      log == LogAt(st.logs, SlotOf(c.routing, stream)) && StoredAreNext(after, log, stream)
  {
    InsertedIsNext(st, call, fate);
    MessagesBelowNext(c, st, stream);
    var after := Next(c, st, Insert(call, fate));
    assert forall k | On(after, k, stream) && k != call :: On(st, k, stream) && after.tickets[k] == st.tickets[k];
  }

  lemma OrderOverRest(c: Setup, st: State, a: Step, stream: string)
    requires OrderInv(c, st, stream) && !Writes(st, a)
    requires a.Insert? && a.call in st.tickets ==> !st.tickets[a.call].Reading?
    ensures var after := Next(c, st, a); var log := LogAt(after.logs, SlotOf(c.routing, stream));
      InVersionOrder(log, stream) && StoredAreNext(after, log, stream)
  {
    var slot := SlotOf(c.routing, stream);
    var log, added := LogAt(st.logs, slot), AddedTo(c, st, a, slot);
    LogGrowsBy(c, st, a, slot);
    OthersDoNotMatter(log, added, stream);
    RestTickets(c, st, a, stream);
    assert forall x | x in log :: x in log + added;
  }

  lemma RestTickets(c: Setup, st: State, a: Step, stream: string)
    requires !Writes(st, a) && (a.Insert? && a.call in st.tickets ==> !st.tickets[a.call].Reading?)
    ensures var after := Next(c, st, a);
      forall k | On(after, k, stream) && after.tickets[k].Stored? ::
        On(st, k, stream) && after.tickets[k] == st.tickets[k]
  {
  }

  lemma OrderStep(c: Setup, st: State, a: Step, stream: string)
    requires StoreInv(st) && LogInv(c, st) && OrderInv(c, st, stream) && Calm(c, st, a, stream)
    ensures OrderInv(c, Next(c, st, a), stream)
  {
    OneAtATimeStep(c, st, a, stream);
    if Writes(st, a) {
      OrderOverWrite(c, st, a, stream);
    } else if a.Insert? && a.call in st.tickets && st.tickets[a.call].Reading? {
      OrderOverInsert(c, st, a.call, a.stored, stream);
    } else {
      OrderOverRest(c, st, a, stream);
    }
  }

  /** If ingests of a stream do not overlap and no event of it is written twice, then whatever else
      goes on, its messages stand in its log in strictly ascending versions. */
  lemma {:induction false} LogFollowsVersions(c: Setup, steps: seq<Step>, stream: string)
    requires CalmRun(c, steps, stream)
    ensures OrderInv(c, Exec(c, INIT, steps), stream)
    decreases |steps|
  {
    if steps != [] {
      var n := |steps| - 1;
      LogFollowsVersions(c, steps[..n], stream);
      Always(c, steps[..n]);
      OrderStep(c, Exec(c, INIT, steps[..n]), steps[n], stream);
    }
  }

  /** So deliveries follow the versions too: when a message of the stream is handed on, every older one
      that was ever published has already been handled. */
  lemma DeliveriesFollowVersions(c: Setup, steps: seq<Step>, stream: string)
    requires CalmRun(c, steps, stream)
    ensures var st := Exec(c, INIT, steps);
      st.current.Some? && !st.current.value.stage.Handled? && st.current.value.stage.event.streamId == stream ==>
        forall older: Event | older.streamId == stream && older.version < st.current.value.stage.event.version
                           && Message(older) in LogAt(st.logs, SlotOf(c.routing, stream)) ::
          Settled(st.side.sinks, Message(older))
  {
    LogFollowsVersions(c, steps, stream);
    Always(c, steps);
    var st := Exec(c, INIT, steps);
    if st.current.Some? && !st.current.value.stage.Handled? && st.current.value.stage.event.streamId == stream {
      HandedInOrder(c, st, stream);
    }
  }

  lemma HandedInOrder(c: Setup, st: State, stream: string)
    requires LogInv(c, st) && OffsetInv(c, st) && InVersionOrder(LogAt(st.logs, SlotOf(c.routing, stream)), stream)
    requires st.current.Some? && !st.current.value.stage.Handled? && st.current.value.stage.event.streamId == stream
    ensures forall older: Event | older.streamId == stream && older.version < st.current.value.stage.event.version
                               && Message(older) in LogAt(st.logs, SlotOf(c.routing, stream)) ::
              Settled(st.side.sinks, Message(older))
  {
    var d := st.current.value;
    var slot := Slot(c.topic, d.partition);
    var log := LogAt(st.logs, slot);
    assert log[d.offset] == Message(d.stage.event);
    assert slot == SlotOf(c.routing, stream);
    forall older: Event | older.streamId == stream && older.version < d.stage.event.version && Message(older) in log
      ensures Settled(st.side.sinks, Message(older))
    {
      var i :| 0 <= i < |log| && log[i] == Message(older);
      assert i < d.offset;
      assert Settled(st.side.sinks, Log(c, st, d.partition)[i]);
    }
  }

  // ---- The exact condition in every run ----

  /** The step writes an event of the stream more than once, or on top of one that is not older. */
  ghost predicate Disorders(c: Setup, st: State, a: Step, stream: string) {
    && Writes(st, a) && On(st, a.call, stream)
    && SlotOf(c.routing, stream).topic != ""
    && var e := st.tickets[a.call].event;
    && FateOf(a).Copies() > 0
    && (FateOf(a).Copies() > 1 || !AllBelow(LogAt(st.logs, SlotOf(c.routing, stream)), stream, e.version))
  }

  /** A broken order stays broken. */
  lemma OrderOfFront(log: seq<Entry>, added: seq<Entry>, stream: string)
    requires InVersionOrder(log + added, stream)
    ensures InVersionOrder(log, stream)
  {
    assert forall i | 0 <= i < |log| :: (log + added)[i] == log[i];
  }

  lemma DisorderStep(c: Setup, st: State, a: Step, stream: string)
    ensures var slot := SlotOf(c.routing, stream);
      InVersionOrder(LogAt(Next(c, st, a).logs, slot), stream)
      <==> InVersionOrder(LogAt(st.logs, slot), stream) && !Disorders(c, st, a, stream)
  {
    var slot := SlotOf(c.routing, stream);
    var log, added := LogAt(st.logs, slot), AddedTo(c, st, a, slot);
    LogGrowsBy(c, st, a, slot);
    if InVersionOrder(log + added, stream) {
      OrderOfFront(log, added, stream);
    }
    if InVersionOrder(log, stream) {
      if Writes(st, a) && On(st, a.call, stream) && slot.topic != "" {
        PublishKeepsOrderIff(log, st.tickets[a.call].event, FateOf(a).Copies());
      } else {
        OthersDoNotMatter(log, added, stream);
      }
    }
  }

  /** In every run, whatever overlaps: the messages of a stream stand in version order exactly when no
      step of the run was such a write. */
  lemma {:induction false} LogOrderIff(c: Setup, steps: seq<Step>, stream: string)
    ensures InVersionOrder(LogAt(Exec(c, INIT, steps).logs, SlotOf(c.routing, stream)), stream)
       <==> !Ever((st, a) => Disorders(c, st, a, stream), c, steps)
    decreases |steps|
  {
    if steps != [] {
      var n := |steps| - 1;
      LogOrderIff(c, steps[..n], stream);
      DisorderStep(c, Exec(c, INIT, steps[..n]), steps[n], stream);
      EverSplits((st, a) => Disorders(c, st, a, stream), c, steps);
    }
  }

  // ---- And when they do overlap ----

  /** Two ingests of one stream in which the first to be stored is the last to be published. */
  function Overtaking(first: Event, second: Event): seq<Step> {
    [Begin(0, first), Insert(0, Answered)] + [Begin(1, second), Insert(1, Answered)]
    + [Publish(1, Acked(0)), Publish(0, Acked(0))]
  }

  lemma FirstStored(c: Setup, first: Event)
    ensures var a := first.(version := 1);
      Exec(c, INIT, [Begin(0, first), Insert(0, Answered)]) == INIT.(rows := [a], tickets := map[0 := Stored(a)])
  {
    var a := first.(version := 1);
    ExecTwo(c, INIT, Begin(0, first), Insert(0, Answered));
    assert Next(c, INIT, Begin(0, first)) == INIT.(tickets := map[0 := Reading(a, 0)]);
    assert !Taken([], a);
  }

  function BothStored(first: Event, second: Event): State {
    var a, b := first.(version := 1), second.(version := 2);
    INIT.(rows := [a, b], tickets := map[0 := Stored(a), 1 := Stored(b)])
  }

  lemma SecondStored(c: Setup, first: Event, second: Event)
    requires first.streamId == second.streamId && first.id != second.id
    ensures var a := first.(version := 1);
      Exec(c, INIT.(rows := [a], tickets := map[0 := Stored(a)]), [Begin(1, second), Insert(1, Answered)])
        == BothStored(first, second)
  {
    var a, b := first.(version := 1), second.(version := 2);
    ExecTwo(c, INIT.(rows := [a], tickets := map[0 := Stored(a)]), Begin(1, second), Insert(1, Answered));
    assert MaxVersion([a], first.streamId) == 1 by { assert [a][..0] == []; }
    assert !Taken([a], b);
    assert InsertRow([a], b, Answered) == [a, b];
  }

  lemma PublishedBackwards(c: Setup, first: Event, second: Event)
    requires first.streamId == second.streamId && SlotOf(c.routing, first.streamId).topic != ""
    ensures var after := Exec(c, BothStored(first, second), [Publish(1, Acked(0)), Publish(0, Acked(0))]);
            !InVersionOrder(LogAt(after.logs, SlotOf(c.routing, first.streamId)), first.streamId)
  {
    var a, b := first.(version := 1), second.(version := 2);
    var slot := SlotOf(c.routing, first.streamId);
    ExecTwo(c, BothStored(first, second), Publish(1, Acked(0)), Publish(0, Acked(0)));
    var s5 := Next(c, BothStored(first, second), Publish(1, Acked(0)));
    assert LogAt(s5.logs, slot) == [Message(b)];
    var log := LogAt(Next(c, s5, Publish(0, Acked(0))).logs, slot);
    assert log == [Message(b)] + [Message(a)];
    assert log[0] == Message(b) && log[1] == Message(a);
  }

  /** Overlapping ingests can be logged against their versions, on any routing. */
  lemma OverlapBreaksOrder(c: Setup, first: Event, second: Event)
    requires first.streamId == second.streamId && first.id != second.id
    requires SlotOf(c.routing, first.streamId).topic != ""
    ensures var after := Exec(c, INIT, Overtaking(first, second));
            !InVersionOrder(LogAt(after.logs, SlotOf(c.routing, first.streamId)), first.streamId)
  {
    FirstStored(c, first);
    SecondStored(c, first, second);
    PublishedBackwards(c, first, second);
    ThreeParts(c, [Begin(0, first), Insert(0, Answered)], [Begin(1, second), Insert(1, Answered)],
               [Publish(1, Acked(0)), Publish(0, Acked(0))]);
  }

  lemma ThreeParts(c: Setup, p: seq<Step>, q: seq<Step>, r: seq<Step>)
    ensures Exec(c, INIT, p + q + r) == Exec(c, Exec(c, Exec(c, INIT, p), q), r)
  {
    ExecConcat(c, INIT, p, q);
    ExecConcat(c, INIT, p + q, r);
  }
}
