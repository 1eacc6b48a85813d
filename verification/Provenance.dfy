/** Where what is in the index, in the dead-letter topic and among the losses came from: the steps of the
    run that put it there. */
module Provenance {
  import opened Events
  import opened Kafka
  import opened Consume
  import opened Pipeline

  /** The step is an index call for `e` that takes effect, whatever it reports. */
  predicate Indexes(st: State, a: Step, e: Event) {
    && a.IndexIt? && !a.indexed.NotApplied?
    && st.current.Some? && st.current.value.stage == Fetched(e)
  }

  /** The step writes `e` to the dead-letter topic. */
  predicate DeadLetters(st: State, a: Step, e: Event) {
    && a.DeadLetter? && a.dead.Copies() > 0
    && st.current.Some? && st.current.value.stage == Refused(e)
  }

  /** The step reports `e` lost. */
  predicate ReportsLost(st: State, a: Step, e: Event) {
    && a.DeadLetter? && a.dead.Unacked?
    && st.current.Some? && st.current.value.stage == Refused(e)
  }

  /** The state in which step `i` of a run is taken. */
  function Before(c: Setup, steps: seq<Step>, i: nat): State
    requires i <= |steps|
  {
    Exec(c, INIT, steps[..i])
  }

  lemma BeforeFront(c: Setup, steps: seq<Step>, n: nat, i: nat)
    requires i <= n <= |steps|
    ensures Before(c, steps[..n], i) == Before(c, steps, i)
  {
    assert steps[..n][..i] == steps[..i];
  }

  /** One step adds to each sink exactly what it is a step of. */
  lemma SinksOverStep(c: Setup, st: State, a: Step, e: Event)
    requires Inv(c, st)
    ensures var s, t := st.side.sinks, Next(c, st, a).side.sinks;
      && (Indexed(t, e) <==> Indexed(s, e) || Indexes(st, a, e))
      && (e in t.dlq <==> e in s.dlq || DeadLetters(st, a, e))
      && (e in t.lost <==> e in s.lost || ReportsLost(st, a, e))
  {
    SinkChange(c, st, a);
    if st.current.Some? && !st.current.value.stage.Handled? {
      HandedIsOurs(c, st);
      IndexingAgain(c, st, st.current.value.stage.event);
    }
    Adds(st, a, e);
  }

  lemma Adds(st: State, a: Step, e: Event)
    requires st.current.Some? && !st.current.value.stage.Handled? ==>
      var f := st.current.value.stage.event; f.id in st.side.sinks.docs ==> st.side.sinks.docs[f.id] == f
    ensures var s, t := st.side.sinks, SinksAfter(st, a);
      && (Indexed(t, e) <==> Indexed(s, e) || Indexes(st, a, e))
      && (e in t.dlq <==> e in s.dlq || DeadLetters(st, a, e))
      && (e in t.lost <==> e in s.lost || ReportsLost(st, a, e))
  {
    if a.DeadLetter? && st.current.Some? && st.current.value.stage.Refused? {
      CopiesAdded(st.side.sinks.dlq, st.current.value.stage.event, a.dead.Copies());
    }
  }

  ghost predicate SuchAt(such: (State, Step) -> bool, c: Setup, steps: seq<Step>, i: nat)
    requires i < |steps|
  {
    such(Before(c, steps, i), steps[i])
  }

  /** Some step of the run is such a step. */
  ghost predicate Ever(such: (State, Step) -> bool, c: Setup, steps: seq<Step>) {
    exists i :: 0 <= i < |steps| && SuchAt(such, c, steps, i)
  }

  lemma SuchInFront(such: (State, Step) -> bool, c: Setup, steps: seq<Step>, n: nat, i: nat)
    requires i < n <= |steps|
    ensures SuchAt(such, c, steps[..n], i) <==> SuchAt(such, c, steps, i)
  {
    BeforeFront(c, steps, n, i);
  }

  /** The last step against those before it. */
  lemma EverSplits(such: (State, Step) -> bool, c: Setup, steps: seq<Step>)
    requires steps != []
    ensures var n := |steps| - 1;
      Ever(such, c, steps) <==> Ever(such, c, steps[..n]) || SuchAt(such, c, steps, n)
  {
    var n := |steps| - 1;
    forall i | 0 <= i < n ensures SuchAt(such, c, steps[..n], i) <==> SuchAt(such, c, steps, i) {
      SuchInFront(such, c, steps, n, i);
    }
  }

  ghost predicate EverIndexed(c: Setup, steps: seq<Step>, e: Event) {
    Ever((st, a) => Indexes(st, a, e), c, steps)
  }

  ghost predicate EverDeadLettered(c: Setup, steps: seq<Step>, e: Event) {
    Ever((st, a) => DeadLetters(st, a, e), c, steps)
  }

  ghost predicate EverReported(c: Setup, steps: seq<Step>, e: Event) {
    Ever((st, a) => ReportsLost(st, a, e), c, steps)
  }

  /** In every run: an event is in the index exactly when an index call for it took effect, in the
      dead-letter topic exactly when it was written there after an index call had failed, and reported lost
      exactly when that write failed too. Redeliveries, crashes and lost replies are all among the steps. */
  lemma {:induction false} SinksIff(c: Setup, steps: seq<Step>, e: Event)
    ensures var s := Exec(c, INIT, steps).side.sinks;
      && (Indexed(s, e) <==> EverIndexed(c, steps, e))
      && (e in s.dlq <==> EverDeadLettered(c, steps, e))
      && (e in s.lost <==> EverReported(c, steps, e))
    decreases |steps|
  {
    if steps != [] {
      var n := |steps| - 1;
      SinksIff(c, steps[..n], e);
      Always(c, steps[..n]);
      SinksOverStep(c, Exec(c, INIT, steps[..n]), steps[n], e);
      EverSplits((st, a) => Indexes(st, a, e), c, steps);
      EverSplits((st, a) => DeadLetters(st, a, e), c, steps);
      EverSplits((st, a) => ReportsLost(st, a, e), c, steps);
    }
  }

  /** So an event is in both exactly when both kinds of step were taken for it, in the same delivery or not. */
  lemma BothIff(c: Setup, steps: seq<Step>, e: Event)
    ensures var s := Exec(c, INIT, steps).side.sinks;
      Indexed(s, e) && e in s.dlq <==> EverIndexed(c, steps, e) && EverDeadLettered(c, steps, e)
  {
    SinksIff(c, steps, e);
  }

  // ---- In both without a lost reply ----

  /** The event is indexed and the consumer crashes before it commits. */
  function IndexThenCrash(partition: nat): seq<Step> {
    [FetchNext(partition), IndexIt(Answered)] + [Crash]
  }

  /** The index refuses it and it becomes a dead letter. */
  function RefuseThenBury(partition: nat): seq<Step> {
    [FetchNext(partition), IndexIt(NotApplied)] + [DeadLetter(Acked(0))]
  }

  /** `e` is the next message of the partition. */
  ghost predicate IsNext(c: Setup, st: State, partition: nat, e: Event) {
    var offset := At(st.side.position, partition);
    st.current.None? && offset < |Log(c, st, partition)| && Log(c, st, partition)[offset] == Message(e)
  }

  lemma Fetches(c: Setup, st: State, partition: nat, e: Event)
    requires IsNext(c, st, partition, e)
    ensures var after := Next(c, st, FetchNext(partition));
      && after.current == Some(Delivery(partition, At(st.side.position, partition), Fetched(e)))
      && after.side.sinks == st.side.sinks && after.side.committed == st.side.committed && after.logs == st.logs
  {
  }

  lemma ExecThree(c: Setup, st: State, p: Step, q: Step, r: Step)
    ensures Exec(c, st, [p, q] + [r]) == Next(c, Next(c, Next(c, st, p), q), r)
  {
    ExecConcat(c, st, [p, q], [r]);
    ExecTwo(c, st, p, q);
    ExecTwo(c, Next(c, Next(c, st, p), q), r, r);
  }

  lemma IndexedThenCrashed(c: Setup, st: State, partition: nat, e: Event)
    requires IsNext(c, st, partition, e) && At(st.side.committed, partition) == At(st.side.position, partition)
    ensures var after := Exec(c, st, IndexThenCrash(partition));
            IsNext(c, after, partition, e) && Indexed(after.side.sinks, e)
  {
    ExecThree(c, st, FetchNext(partition), IndexIt(Answered), Crash);
    Fetches(c, st, partition, e);
  }

  lemma RefusedNext(c: Setup, st: State, partition: nat, e: Event)
    requires IsNext(c, st, partition, e)
    ensures var after := Next(c, Next(c, Next(c, st, FetchNext(partition)), IndexIt(NotApplied)), DeadLetter(Acked(0)));
      after.side.sinks == AfterDlq(st.side.sinks, e, Acked(0))
  {
    Fetches(c, st, partition, e);
  }

  lemma RefusedThenBuried(c: Setup, st: State, partition: nat, e: Event)
    requires IsNext(c, st, partition, e)
    ensures var s := Exec(c, st, RefuseThenBury(partition)).side.sinks;
            s.docs == st.side.sinks.docs && e in s.dlq
  {
    ExecThree(c, st, FetchNext(partition), IndexIt(NotApplied), DeadLetter(Acked(0)));
    RefusedNext(c, st, partition, e);
    CopiesAdded(st.side.sinks.dlq, e, 1);
  }

  /** In every run, a message that is next can end up in both although every reply arrives. */
  lemma CrashPutsInBoth(c: Setup, steps: seq<Step>, partition: nat, e: Event)
    requires IsNext(c, Exec(c, INIT, steps), partition, e)
    ensures var s := Exec(c, INIT, steps + IndexThenCrash(partition) + RefuseThenBury(partition)).side.sinks;
            Indexed(s, e) && e in s.dlq
  {
    NextIsCommitted(c, steps, partition);
    IndexedThenCrashed(c, Exec(c, INIT, steps), partition, e);
    OneThenOther(c, steps, IndexThenCrash(partition), RefuseThenBury(partition), partition, e);
  }

  lemma NextIsCommitted(c: Setup, steps: seq<Step>, partition: nat)
    ensures var st := Exec(c, INIT, steps);
      st.current.None? ==> At(st.side.committed, partition) == At(st.side.position, partition)
  {
    Always(c, steps);
    var st := Exec(c, INIT, steps);
    assert At(st.side.position, partition) == At(st.side.committed, partition) + if Holds(st, partition) then 1 else 0;
  }

  lemma OneThenOther(c: Setup, steps: seq<Step>, a: seq<Step>, b: seq<Step>, partition: nat, e: Event)
    requires b == RefuseThenBury(partition)
    requires var mid := Exec(c, Exec(c, INIT, steps), a); IsNext(c, mid, partition, e) && Indexed(mid.side.sinks, e)
    ensures var s := Exec(c, INIT, steps + a + b).side.sinks; Indexed(s, e) && e in s.dlq
  {
    ExecConcat(c, INIT, steps, a);
    ExecConcat(c, INIT, steps + a, b);
    RefusedThenBuried(c, Exec(c, INIT, steps + a), partition, e);
  }

  function StoreAndPublish(e: Event): seq<Step> {
    [Begin(0, e), Insert(0, Answered)] + [Publish(0, Acked(0))]
  }

  lemma FirstIsPublished(c: Setup, e: Event)
    requires SlotOf(c.routing, e.streamId).topic != ""
    ensures var st := Exec(c, INIT, StoreAndPublish(e)); var row := e.(version := 1);
      && row in st.acked && st.side == INIT.side && st.current.None?
      && LogAt(st.logs, SlotOf(c.routing, e.streamId)) == [Message(row)]
  {
    var row := e.(version := 1);
    var stored := INIT.(rows := [row], tickets := map[0 := Stored(row)]);
    ExecConcat(c, INIT, [Begin(0, e), Insert(0, Answered)], [Publish(0, Acked(0))]);
    FirstIsStored(c, e);
    ExecTwo(c, stored, Publish(0, Acked(0)), Crash);
    PublishOnce(c, stored, row);
  }

  lemma FirstIsStored(c: Setup, e: Event)
    ensures var row := e.(version := 1);
      Exec(c, INIT, [Begin(0, e), Insert(0, Answered)]) == INIT.(rows := [row], tickets := map[0 := Stored(row)])
  {
    StoredAlone(c, INIT, 0, e);
    assert INIT.rows + [e.(version := 1)] == [e.(version := 1)];
  }

  lemma PublishOnce(c: Setup, st: State, row: Event)
    requires 0 in st.tickets && st.tickets[0] == Stored(row) && st.logs == map[]
    requires SlotOf(c.routing, row.streamId).topic != ""
    ensures var after := Next(c, st, Publish(0, Acked(0)));
      && row in after.acked && after.side == st.side && after.current == st.current
      && LogAt(after.logs, SlotOf(c.routing, row.streamId)) == [Message(row)]
  {
    PublishedWhere(c.routing, st.logs, row, Acked(0));
    assert Repeat(Message(row), 1) == [Message(row)];
  }

  /** There is such a message: the first event ever published to the consumed topic. */
  lemma FirstIsNext(c: Setup, e: Event)
    requires SlotOf(c.routing, e.streamId).topic == c.topic != ""
    ensures IsNext(c, Exec(c, INIT, StoreAndPublish(e)), SlotOf(c.routing, e.streamId).partition, e.(version := 1))
  {
    FirstIsPublished(c, e);
  }

  /** So it happens, on any routing that has the consumed topic, and no reply is lost on the way. */
  lemma InBothAlthoughAnswered(c: Setup, e: Event)
    requires SlotOf(c.routing, e.streamId).topic == c.topic != ""
    ensures var p := SlotOf(c.routing, e.streamId).partition;
            var s := Exec(c, INIT, StoreAndPublish(e) + IndexThenCrash(p) + RefuseThenBury(p)).side.sinks;
            Indexed(s, e.(version := 1)) && e.(version := 1) in s.dlq
    ensures var p := SlotOf(c.routing, e.streamId).partition;
            forall a | a in StoreAndPublish(e) + IndexThenCrash(p) + RefuseThenBury(p) ::
              a.IndexIt? ==> !a.indexed.ReplyLost?
  {
    FirstIsNext(c, e);
    CrashPutsInBoth(c, StoreAndPublish(e), SlotOf(c.routing, e.streamId).partition, e.(version := 1));
  }
}
