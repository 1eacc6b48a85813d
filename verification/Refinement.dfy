/** The methods of the services are runs of the step system. */
module Refinement {
  import opened Events
  import opened Postgres
  import opened Kafka
  import opened Consume
  import opened Pipeline
  import opened Guarantees
  import opened Provenance
  import opened Query
  import opened Search

  // ---- The consume loop ----

  /** The steps one round takes. Those that the round's outcome leaves no room for change nothing. */
  function StepsOf(r: Round): seq<Step> {
    match r
    case Cancelled => [Crash]
    case FetchFails => [Crash]
    case Fetch(p, index, dead, commit) => [FetchNext(p), IndexIt(index)] + [DeadLetter(dead), CommitIt(commit)]
  }

  /** Between two rounds, with the reader where the group is. */
  ghost predicate Idle(st: State) {
    st.current.None? && st.side.position == st.side.committed
  }

  lemma FetchAndHandle(c: Setup, st: State, p: nat, index: CallFate, dead: WriteFate)
    requires Idle(st) && At(st.side.position, p) < |Log(c, st, p)|
    ensures var offset := At(st.side.position, p);
            var entry := Log(c, st, p)[offset];
            var fetched := st.side.(position := st.side.position[p := offset + 1]);
            Next(c, Next(c, Next(c, st, FetchNext(p)), IndexIt(index)), DeadLetter(dead))
              == st.(side := if entry.Malformed? then fetched
                             else fetched.(sinks := AfterHandle(fetched.sinks, entry.event, index, dead)),
                     current := Some(Delivery(p, offset, Handled)))
  {
  }

  lemma CommitEnds(c: Setup, st: State, p: nat, offset: nat, commit: CallFate)
    requires st.current == Some(Delivery(p, offset, Handled))
    ensures var side := Commit(st.side, p, offset, commit);
      Next(c, st, CommitIt(commit))
        == st.(side := if commit.Answered? then side else Restarted(side), current := None)
  {
  }

  lemma NothingToFetch(c: Setup, st: State, p: nat, index: CallFate, dead: WriteFate, commit: CallFate)
    requires st.current.None? && At(st.side.position, p) >= |Log(c, st, p)|
    ensures Next(c, st, FetchNext(p)) == Next(c, st, IndexIt(index)) == st
    ensures Next(c, st, DeadLetter(dead)) == Next(c, st, CommitIt(commit)) == st
  {
  }

  lemma CommitRound(c: Setup, st: State, p: nat, index: CallFate, dead: WriteFate, commit: CallFate)
    requires Idle(st)
    ensures var (side, end) := Iterate((q: nat) => Log(c, st, q), st.side, Fetch(p, index, dead, commit));
            var handled := Next(c, Next(c, Next(c, st, FetchNext(p)), IndexIt(index)), DeadLetter(dead));
            var after := Next(c, handled, CommitIt(commit));
            && after == st.(side := if end.None? then side else Restarted(side))
            && Idle(after)
  {
    var offset := At(st.side.position, p);
    if offset < |Log(c, st, p)| {
      FetchAndHandle(c, st, p, index, dead);
      var handled := Next(c, Next(c, Next(c, st, FetchNext(p)), IndexIt(index)), DeadLetter(dead));
      CommitEnds(c, handled, p, offset, commit);
    } else {
      NothingToFetch(c, st, p, index, dead, commit);
    }
  }

  lemma SameLogSameRound(log: nat -> seq<Entry>, log2: nat -> seq<Entry>, side: Side, r: Round)
    requires forall p: nat :: log(p) == log2(p)
    ensures Iterate(log, side, r) == Iterate(log2, side, r)
  {
  }

  /** A round of the loop, and the restart that follows when it ends the loop, is those steps. */
  lemma RoundIsSteps(c: Setup, st: State, log: nat -> seq<Entry>, r: Round)
    requires Idle(st) && forall p: nat :: log(p) == Log(c, st, p)
    ensures var (side, end) := Iterate(log, st.side, r);
            var after := Exec(c, st, StepsOf(r));
            && after == st.(side := if end.None? then side else Restarted(side))
            && Idle(after)
  {
    ExecTwo(c, st, Crash, Crash);
    if r.Fetch? {
      SameLogSameRound(log, (q: nat) => Log(c, st, q), st.side, r);
      CommitRound(c, st, r.partition, r.index, r.dead, r.commit);
      ExecFour(c, st, FetchNext(r.partition), IndexIt(r.index), DeadLetter(r.dead), CommitIt(r.commit));
    }
  }

  lemma ExecFour(c: Setup, st: State, p: Step, q: Step, r: Step, s: Step)
    ensures Exec(c, st, [p, q] + [r, s]) == Next(c, Next(c, Next(c, Next(c, st, p), q), r), s)
  {
    ExecConcat(c, st, [p, q], [r, s]);
    ExecTwo(c, st, p, q);
    ExecTwo(c, Next(c, Next(c, st, p), q), r, s);
  }

  /** The steps of the rounds that the loop gets to. */
  function StepsOfLoop(log: nat -> seq<Entry>, side: Side, rounds: seq<Round>): seq<Step>
    decreases |rounds|
  {
    if rounds == [] then []
    else
      var (next, end) := Iterate(log, side, rounds[0]);
      StepsOf(rounds[0]) + if end.Some? then [] else StepsOfLoop(log, next, rounds[1..])
  }

  /** The whole loop with the restart after it is a run, so what holds in every run holds after it. */
  lemma {:induction false} LoopIsRun(c: Setup, st: State, log: nat -> seq<Entry>, rounds: seq<Round>)
    requires Idle(st) && forall p: nat :: log(p) == Log(c, st, p)
    ensures Exec(c, st, StepsOfLoop(log, st.side, rounds)) == st.(side := Restarted(Loop(log, st.side, rounds).0))
    decreases |rounds|
  {
    if rounds != [] {
      RoundIsSteps(c, st, log, rounds[0]);
      var (side, end) := Iterate(log, st.side, rounds[0]);
      var now := StepsOf(rounds[0]);
      if end.None? {
        var rest := StepsOfLoop(log, side, rounds[1..]);
        LoopIsRun(c, Exec(c, st, now), log, rounds[1..]);
        ExecConcat(c, st, now, rest);
      } else {
        assert now + [] == now;
      }
    }
  }

  function StepsOfLives(log: nat -> seq<Entry>, side: Side, lives: seq<seq<Round>>): seq<Step>
    decreases |lives|
  {
    if lives == [] then []
    else StepsOfLoop(log, side, lives[0]) + StepsOfLives(log, Restarted(Loop(log, side, lives[0]).0), lives[1..])
  }

  /** So are any number of processes that take over from one another, each from the committed offsets. */
  lemma {:induction false} LivesAreRun(c: Setup, st: State, log: nat -> seq<Entry>, lives: seq<seq<Round>>)
    requires Idle(st) && forall p: nat :: log(p) == Log(c, st, p)
    ensures Exec(c, st, StepsOfLives(log, st.side, lives)) == st.(side := Lives(log, st.side, lives))
    decreases |lives|
  {
    if lives != [] {
      LoopIsRun(c, st, log, lives[0]);
      var next := st.(side := Restarted(Loop(log, st.side, lives[0]).0));
      LivesAreRun(c, next, log, lives[1..]);
      ExecConcat(c, st, StepsOfLoop(log, st.side, lives[0]), StepsOfLives(log, next.side, lives[1..]));
    }
  }

  // ---- The consumer is never stuck ----

  /** How the index and the dead-letter topic answer, message by message: an adversary's choice. */
  datatype Answers = Answers(index: (nat, nat) -> CallFate, dead: (nat, nat) -> WriteFate)

  /** A step of the consumer in which the two answer so. */
  predicate StepObeys(st: State, a: Step, ans: Answers) {
    && !Ingests(a)
    && (st.current.Some? ==>
          var d := st.current.value;
          && (a.IndexIt? ==> a.indexed == ans.index(d.partition, d.offset))
          && (a.DeadLetter? ==> a.dead == ans.dead(d.partition, d.offset)))
  }

  predicate AnsweredBy(c: Setup, st: State, more: seq<Step>, ans: Answers)
    decreases |more|
  {
    more == [] ||
    (&& AnsweredBy(c, st, more[..|more| - 1], ans)
     && StepObeys(Exec(c, st, more[..|more| - 1]), more[|more| - 1], ans))
  }

  lemma {:induction false} AnsweredConcat(c: Setup, st: State, a: seq<Step>, b: seq<Step>, ans: Answers)
    requires AnsweredBy(c, st, a, ans) && AnsweredBy(c, Exec(c, st, a), b, ans)
    ensures AnsweredBy(c, st, a + b, ans)
    decreases |b|
  {
    if b == [] {
      assert a + b == a;
    } else {
      var n := |b| - 1;
      assert (a + b)[..|a + b| - 1] == a + b[..n];
      AnsweredConcat(c, st, a, b[..n], ans);
      ExecConcat(c, st, a, b[..n]);
    }
  }

  lemma AnsweredTwo(c: Setup, st: State, p: Step, q: Step, ans: Answers)
    requires StepObeys(st, p, ans)
    ensures AnsweredBy(c, st, [p], ans)
    ensures StepObeys(Next(c, st, p), q, ans) ==> AnsweredBy(c, st, [p, q], ans)
  {
    assert [p][..0] == [] && [p, q][..1] == [p];
    ExecTwo(c, st, p, q);
  }

  /** The event has what these answers mean for it. */
  ghost predicate Met(s: Sinks, e: Event, index: CallFate, dead: WriteFate) {
    && (!index.NotApplied? ==> Indexed(s, e))
    && (!index.Answered? && dead.Copies() > 0 ==> e in s.dlq)
    && (!index.Answered? && dead.Unacked? ==> e in s.lost)
  }

  lemma HandledIsMet(s: Sinks, e: Event, index: CallFate, dead: WriteFate)
    ensures Met(AfterHandle(s, e, index, dead), e, index, dead)
  {
    CopiesAdded(s.dlq, e, dead.Copies());
  }

  /** The consumer has passed everything in the partitions below `n`, each message it had not committed has
      met the fate its answers give it, and nothing else has changed. */
  ghost predicate AllPassed(c: Setup, st: State, after: State, n: nat, ans: Answers) {
    && after.logs == st.logs && after.rows == st.rows
    && (forall p | 0 <= p < n :: At(after.side.committed, p) == |Log(c, after, p)|)
    && (forall p, i | 0 <= p < n && At(st.side.committed, p) <= i < |Log(c, st, p)| && Log(c, st, p)[i].Message? ::
          Met(after.side.sinks, Log(c, st, p)[i].event, ans.index(p, i), ans.dead(p, i)))
  }

  ghost predicate CatchesUp(c: Setup, st: State, more: seq<Step>, n: nat, ans: Answers) {
    AnsweredBy(c, st, more, ans) && AllPassed(c, st, Exec(c, st, more), n, ans)
  }

  /** The round that passes the next message of a partition, answered as the adversary chooses. */
  function NextRound(st: State, p: nat, ans: Answers): Round {
    var offset := At(st.side.position, p);
    Fetch(p, ans.index(p, offset), ans.dead(p, offset), Answered)
  }

  lemma AnsweredFour(c: Setup, st: State, p: Step, q: Step, r: Step, s: Step, ans: Answers)
    requires StepObeys(st, p, ans) && StepObeys(Next(c, st, p), q, ans)
    requires StepObeys(Next(c, Next(c, st, p), q), r, ans) && StepObeys(Next(c, Next(c, Next(c, st, p), q), r), s, ans)
    ensures AnsweredBy(c, st, [p, q] + [r, s], ans)
  {
    AnsweredTwo(c, st, p, q, ans);
    AnsweredTwo(c, Next(c, Next(c, st, p), q), r, s, ans);
    ExecTwo(c, st, p, q);
    AnsweredConcat(c, st, [p, q], [r, s], ans);
  }

  /** The message stays in hand from the fetch on. */
  lemma StaysInHand(c: Setup, st: State, p: nat, index: CallFate)
    requires Idle(st) && At(st.side.position, p) < |Log(c, st, p)|
    ensures var fetched := Next(c, st, FetchNext(p));
            var called := Next(c, fetched, IndexIt(index));
      && fetched.current.Some? && called.current.Some?
      && fetched.current.value.partition == called.current.value.partition == p
      && fetched.current.value.offset == called.current.value.offset == At(st.side.position, p)
  {
  }

  lemma RoundObeys(c: Setup, st: State, p: nat, ans: Answers)
    requires Idle(st) && At(st.side.position, p) < |Log(c, st, p)|
    ensures AnsweredBy(c, st, StepsOf(NextRound(st, p, ans)), ans)
  {
    var r := NextRound(st, p, ans);
    StaysInHand(c, st, p, r.index);
    AnsweredFour(c, st, FetchNext(p), IndexIt(r.index), DeadLetter(r.dead), CommitIt(Answered), ans);
  }

  /** What that round leaves. */
  lemma RoundMeets(c: Setup, st: State, log: nat -> seq<Entry>, p: nat, n: nat, ans: Answers)
    requires Inv(c, st) && Idle(st) && forall q: nat :: log(q) == Log(c, st, q)
    requires p < n && At(st.side.committed, p) < |log(p)|
    ensures var next := Exec(c, st, StepsOf(NextRound(st, p, ans)));
      && Inv(c, next) && Idle(next) && next.logs == st.logs && next.rows == st.rows
      && Lag(log, next.side.committed, n) == Lag(log, st.side.committed, n) - 1
      && At(next.side.committed, p) == At(st.side.committed, p) + 1
      && (forall q | q != p :: At(next.side.committed, q) == At(st.side.committed, q))
      && var i := At(st.side.committed, p);
         log(p)[i].Message? ==> Met(next.side.sinks, log(p)[i].event, ans.index(p, i), ans.dead(p, i))
  {
    var r := NextRound(st, p, ans);
    RoundIsSteps(c, st, log, r);
    RoundMakesProgress(log, st.side, r, n);
    InvAlong(c, st, StepsOf(r));
    var entry := log(p)[At(st.side.committed, p)];
    if entry.Message? {
      HandledIsMet(st.side.sinks, entry.event, r.index, r.dead);
    }
  }

  lemma MetStays(s: Sinks, t: Sinks, e: Event, index: CallFate, dead: WriteFate)
    requires SinksGrow(s, t) && Met(s, e, index, dead)
    ensures Met(t, e, index, dead)
  {
  }

  /** The first round, and then the rest. */
  lemma PassedAfterRound(c: Setup, st: State, next: State, after: State, p: nat, n: nat, ans: Answers)
    requires next.logs == st.logs && next.rows == st.rows && SinksGrow(next.side.sinks, after.side.sinks)
    requires At(next.side.committed, p) == At(st.side.committed, p) + 1
    requires forall q | q != p :: At(next.side.committed, q) == At(st.side.committed, q)
    requires At(st.side.committed, p) < |Log(c, st, p)|
    requires var i := At(st.side.committed, p); var entry := Log(c, st, p)[i];
      entry.Message? ==> Met(next.side.sinks, entry.event, ans.index(p, i), ans.dead(p, i))
    requires AllPassed(c, next, after, n, ans)
    ensures AllPassed(c, st, after, n, ans)
  {
    forall q, i | 0 <= q < n && At(st.side.committed, q) <= i < |Log(c, st, q)| && Log(c, st, q)[i].Message?
      ensures Met(after.side.sinks, Log(c, st, q)[i].event, ans.index(q, i), ans.dead(q, i))
    {
      if q == p && i == At(st.side.committed, p) {
        MetStays(next.side.sinks, after.side.sinks, Log(c, st, p)[i].event, ans.index(p, i), ans.dead(p, i));
      } else {
        assert Log(c, next, q)[i].Message?;
      }
    }
  }

  lemma {:induction false} CatchUp(c: Setup, st: State, log: nat -> seq<Entry>, n: nat, ans: Answers)
    returns (more: seq<Step>)
    requires Inv(c, st) && Idle(st) && forall p: nat :: log(p) == Log(c, st, p)
    ensures CatchesUp(c, st, more, n, ans)
    decreases Lag(log, st.side.committed, n)
  {
    forall p: nat ensures At(st.side.committed, p) <= |log(p)| {
      assert At(st.side.position, p) <= |Log(c, st, p)|;
    }
    NoLagNoneLeft(log, st.side.committed, n);
    if p :| 0 <= p < n && At(st.side.committed, p) < |log(p)| {
      var now := StepsOf(NextRound(st, p, ans));
      var next := Exec(c, st, now);
      RoundMeets(c, st, log, p, n, ans);
      RoundObeys(c, st, p, ans);
      var rest := CatchUp(c, next, log, n, ans);
      IndexOnlyGrows(c, next, rest);
      PassedAfterRound(c, st, next, Exec(c, next, rest), p, n, ans);
      ExecConcat(c, st, now, rest);
      AnsweredConcat(c, st, now, rest, ans);
      more := now + rest;
    } else {
      more := [];
      forall p | 0 <= p < n ensures At(st.side.committed, p) == |Log(c, st, p)| {
        assert log(p) == Log(c, st, p);
      }
    }
  }

  lemma CatchUpFrom(c: Setup, st: State, n: nat, ans: Answers) returns (more: seq<Step>)
    requires Inv(c, st)
    ensures CatchesUp(c, st, more, n, ans)
  {
    var idle := Next(c, st, Crash);
    InvStep(c, st, Crash);
    var rest := CatchUp(c, idle, (p: nat) => Log(c, idle, p), n, ans);
    ExecTwo(c, st, Crash, Crash);
    AnsweredTwo(c, st, Crash, Crash, ans);
    ExecConcat(c, st, [Crash], rest);
    AnsweredConcat(c, st, [Crash], rest, ans);
    more := [Crash] + rest;
  }

  /** From every reachable state, and however the index and the dead-letter topic answer each message, the
      consumer alone can pass everything that is in its log: there is a continuation of consumer steps in
      which the two answer in just that way and every message not yet committed gets what its answers
      give. So no message, and no failure of either, blocks a partition. */
  lemma NeverStuck(c: Setup, steps: seq<Step>, n: nat, ans: Answers)
    ensures exists more :: CatchesUp(c, Exec(c, INIT, steps), more, n, ans)
  {
    Always(c, steps);
    var more := CatchUpFrom(c, Exec(c, INIT, steps), n, ans);
  }

  /** An event whose publish succeeded, on the consumed topic, has under all answers a future in which it is
      searchable, dead-lettered or reported lost, whatever has happened so far; and wherever it still waits
      to be passed, it is the answers to that message that decide which. */
  lemma PublishedCanArrive(c: Setup, steps: seq<Step>, e: Event, ans: Answers)
    requires e in Exec(c, INIT, steps).acked && SlotOf(c.routing, e.streamId).topic == c.topic
    ensures exists more ::
      && AnsweredBy(c, Exec(c, INIT, steps), more, ans)
      && var s := Exec(c, INIT, steps + more).side.sinks; var p := SlotOf(c.routing, e.streamId).partition;
      && Settled(s, Message(e))
      && forall i: nat | WaitsAt(c, Exec(c, INIT, steps), e, i) :: Met(s, e, ans.index(p, i), ans.dead(p, i))
  {
    var slot := SlotOf(c.routing, e.streamId);
    var st := Exec(c, INIT, steps);
    Always(c, steps);
    assert slot == Slot(c.topic, slot.partition);
    NeverStuck(c, steps, slot.partition + 1, ans);
    var more :| CatchesUp(c, st, more, slot.partition + 1, ans);
    ExecConcat(c, INIT, steps, more);
    var after := Exec(c, INIT, steps + more);
    var i :| 0 <= i < |LogAt(st.logs, slot)| && LogAt(st.logs, slot)[i] == Message(e);
    assert Log(c, after, slot.partition)[i] == Message(e);
    NothingIsSkipped(c, steps + more, slot.partition);
  }

  /** In particular: as long as the index answers, what waits becomes searchable; and while it refuses
      everything and the dead-letter topic takes it, what waits becomes a dead letter. */
  lemma AnswersDecide(c: Setup, steps: seq<Step>, e: Event, i: nat, ans: Answers)
    requires e in Exec(c, INIT, steps).acked && SlotOf(c.routing, e.streamId).topic == c.topic
    requires WaitsAt(c, Exec(c, INIT, steps), e, i)
    ensures (forall p: nat, k: nat :: ans.index(p, k).Answered?) ==>
      exists more :: && AnsweredBy(c, Exec(c, INIT, steps), more, ans)
                     && Indexed(Exec(c, INIT, steps + more).side.sinks, e)
    ensures (forall p: nat, k: nat :: ans.index(p, k).NotApplied? && ans.dead(p, k).Acked?) ==>
      exists more :: AnsweredBy(c, Exec(c, INIT, steps), more, ans) && e in Exec(c, INIT, steps + more).side.sinks.dlq
  {
    PublishedCanArrive(c, steps, e, ans);
  }

  /** Exactly when: an event published with success can be settled, under any answers, if and only if its
      stream goes to the consumed topic. */
  lemma ArrivesIff(c: Setup, steps: seq<Step>, e: Event, ans: Answers)
    requires e in Exec(c, INIT, steps).acked
    ensures (exists more :: AnsweredBy(c, Exec(c, INIT, steps), more, ans)
                            && Settled(Exec(c, INIT, steps + more).side.sinks, Message(e)))
       <==> SlotOf(c.routing, e.streamId).topic == c.topic
  {
    if SlotOf(c.routing, e.streamId).topic == c.topic {
      PublishedCanArrive(c, steps, e, ans);
    } else {
      forall more ensures !Settled(Exec(c, INIT, steps + more).side.sinks, Message(e)) {
        NothingIsInvented(c, steps + more, e);
      }
    }
  }

  /** And there are such events: on any routing, the first event of a stream that goes elsewhere is published
      with success, and nothing that anybody does afterwards makes it searchable. */
  lemma RoutedElsewhereIsNeverSearchable(c: Setup, e: Event, more: seq<Step>)
    requires SlotOf(c.routing, e.streamId).topic != "" && SlotOf(c.routing, e.streamId).topic != c.topic
    ensures e.(version := 1) in Exec(c, INIT, StoreAndPublish(e)).acked
    ensures !Settled(Exec(c, INIT, StoreAndPublish(e) + more).side.sinks, Message(e.(version := 1)))
  {
    FirstIsPublished(c, e);
    NothingIsInvented(c, StoreAndPublish(e) + more, e.(version := 1));
  }

  // ---- What the walk can still come to ----

  /** Consumer steps leave the store and the logs, and no commit is taken back. */
  lemma {:induction false} ConsumerOnly(c: Setup, st: State, more: seq<Step>, ans: Answers)
    requires Inv(c, st) && AnsweredBy(c, st, more, ans)
    ensures var after := Exec(c, st, more);
      && after.rows == st.rows && after.logs == st.logs
      && forall p: nat :: At(st.side.committed, p) <= At(after.side.committed, p)
    decreases |more|
  {
    if more != [] {
      var n := |more| - 1;
      ConsumerOnly(c, st, more[..n], ans);
      InvAlong(c, st, more[..n]);
      ConsumerStepOnly(c, Exec(c, st, more[..n]), more[n]);
    }
  }

  lemma ConsumerStepOnly(c: Setup, st: State, a: Step)
    requires !Ingests(a) && (st.current.Some? ==> InHand(c, st, st.current.value))
    ensures var after := Next(c, st, a);
      && after.rows == st.rows && after.logs == st.logs
      && forall p: nat :: At(st.side.committed, p) <= At(after.side.committed, p)
  {
  }

  /** What is in hand waits, at the offset committed last. */
  lemma InHandWaits(c: Setup, st: State, later: State, e: Event)
    requires LogInv(c, later) && later.logs == st.logs
    requires forall p: nat :: At(st.side.committed, p) <= At(later.side.committed, p)
    requires later.current.Some? && later.current.value.stage == Fetched(e) && InHand(c, later, later.current.value)
    ensures Waits(c, st, e)
  {
    var d := later.current.value;
    var slot := Slot(c.topic, d.partition);
    assert LogAt(later.logs, slot)[d.offset] == Message(e);
    assert slot == SlotOf(c.routing, e.streamId);
    assert WaitsAt(c, st, e, d.offset);
  }

  /** Consumer steps index only what waits. */
  lemma {:induction false} IndexedWaited(c: Setup, st: State, more: seq<Step>, ans: Answers, e: Event)
    requires Inv(c, st) && AnsweredBy(c, st, more, ans) && Indexed(Exec(c, st, more).side.sinks, e)
    ensures Indexed(st.side.sinks, e) || Waits(c, st, e)
    decreases |more|
  {
    if more != [] {
      var n := |more| - 1;
      var before := Exec(c, st, more[..n]);
      ConsumerOnly(c, st, more[..n], ans);
      InvAlong(c, st, more[..n]);
      SinksOverStep(c, before, more[n], e);
      if Indexed(before.side.sinks, e) {
        IndexedWaited(c, st, more[..n], ans, e);
      } else {
        InHandWaits(c, st, before, e);
      }
    }
  }

  ghost predicate IndexedOrWaits(c: Setup, st: State, tenant: string, stream: string) {
    forall e | e in st.rows && e.tenantId == tenant && e.streamId == stream ::
      Indexed(st.side.sinks, e) || Waits(c, st, e)
  }

  /** When the consumer has caught up with an index that answers, what waited is indexed too. */
  lemma CaughtUpIsIndexed(c: Setup, st: State, more: seq<Step>, n: nat, ans: Answers, e: Event)
    requires Inv(c, st) && CatchesUp(c, st, more, n, ans) && SlotOf(c.routing, e.streamId).partition < n
    requires forall p: nat, k: nat :: ans.index(p, k).Answered?
    requires Indexed(st.side.sinks, e) || Waits(c, st, e)
    ensures Indexed(Exec(c, st, more).side.sinks, e)
  {
    IndexOnlyGrows(c, st, more);
    if Waits(c, st, e) {
      var i: nat :| WaitsAt(c, st, e, i);
      assert Log(c, st, SlotOf(c.routing, e.streamId).partition)[i].event == e;
    }
  }

  /** With an index that answers, the consumer alone can bring the page walk of a stream to the rows of the
      stream exactly when each of them is indexed or waits for the consumer. What was never published, or has
      been passed without being indexed, it cannot bring back. */
  lemma WalkCanCatchUpIff(c: Setup, steps: seq<Step>, tenant: string, stream: string, limit: int, ans: Answers)
    requires tenant != "" && stream != "" && forall p: nat, k: nat :: ans.index(p, k).Answered?
    ensures (exists more :: AnsweredBy(c, Exec(c, INIT, steps), more, ans)
                            && WalkIsRows(Exec(c, INIT, steps + more), tenant, stream, limit))
       <==> IndexedOrWaits(c, Exec(c, INIT, steps), tenant, stream)
  {
    var st := Exec(c, INIT, steps);
    Always(c, steps);
    if IndexedOrWaits(c, st, tenant, stream) {
      var n := SlotOf(c.routing, stream).partition + 1;
      NeverStuck(c, steps, n, ans);
      var more :| CatchesUp(c, st, more, n, ans);
      WalkAfter(c, steps, more, tenant, stream, limit, ans);
      forall e | e in st.rows && e.tenantId == tenant && e.streamId == stream
        ensures Indexed(Exec(c, st, more).side.sinks, e)
      {
        CaughtUpIsIndexed(c, st, more, n, ans, e);
      }
      assert WalkIsRows(Exec(c, INIT, steps + more), tenant, stream, limit);
    }
    forall more | AnsweredBy(c, st, more, ans) && WalkIsRows(Exec(c, INIT, steps + more), tenant, stream, limit)
      ensures IndexedOrWaits(c, st, tenant, stream)
    {
      WalkAfter(c, steps, more, tenant, stream, limit, ans);
      forall e | e in st.rows && e.tenantId == tenant && e.streamId == stream
        ensures Indexed(st.side.sinks, e) || Waits(c, st, e)
      {
        IndexedWaited(c, st, more, ans, e);
      }
    }
  }

  ghost predicate WalkIsRows(st: State, tenant: string, stream: string, limit: int) {
    && Keyed(st.side.sinks.docs) && Unique(st.rows)
    && Walk(st.side.sinks.docs, tenant, stream, limit, 0) == Select(st.rows, tenant, stream, 0)
  }

  /** After consumer steps the rows are those of before. */
  lemma WalkAfter(c: Setup, steps: seq<Step>, more: seq<Step>, tenant: string, stream: string, limit: int, ans: Answers)
    requires tenant != "" && stream != "" && AnsweredBy(c, Exec(c, INIT, steps), more, ans)
    ensures Exec(c, INIT, steps + more) == Exec(c, Exec(c, INIT, steps), more)
    ensures WalkIsRows(Exec(c, INIT, steps + more), tenant, stream, limit) <==>
      forall e | e in Exec(c, INIT, steps).rows && e.tenantId == tenant && e.streamId == stream ::
        Indexed(Exec(c, INIT, steps + more).side.sinks, e)
  {
    Always(c, steps);
    Always(c, steps + more);
    ExecConcat(c, INIT, steps, more);
    ConsumerOnly(c, Exec(c, INIT, steps), more, ans);
    WalkIsRowsIff(c, Exec(c, INIT, steps + more), tenant, stream, limit);
  }

  // ---- An ingest among others ----

  /** Steps of everybody else; the call's own writer may be retrying. */
  ghost predicate LeavesAlone(steps: seq<Step>, call: nat) {
    forall a | a in steps && (a.Begin? || a.Insert? || a.Publish? || a.Abandon?) :: a.call != call
  }

  ghost predicate SameTicket(st: State, after: State, call: nat) {
    && (call in after.tickets <==> call in st.tickets)
    && (call in st.tickets ==> after.tickets[call] == st.tickets[call])
  }

  lemma TicketUntouchedStep(c: Setup, st: State, a: Step, call: nat)
    requires LeavesAlone([a], call)
    ensures SameTicket(st, Next(c, st, a), call)
  {
    assert a in [a];
  }

  lemma {:induction false} TicketUntouched(c: Setup, st: State, steps: seq<Step>, call: nat)
    requires LeavesAlone(steps, call)
    ensures SameTicket(st, Exec(c, st, steps), call)
    ensures st.rows <= Exec(c, st, steps).rows
    decreases |steps|
  {
    if steps != [] {
      var n := |steps| - 1;
      TicketUntouched(c, st, steps[..n], call);
      assert steps[n] in steps;
      var before := Exec(c, st, steps[..n]);
      TicketUntouchedStep(c, before, steps[n], call);
      RowsGrow(c, before, steps[n]);
    }
  }

  /** The state at the insert: the ticket still holds the version of its snapshot. */
  lemma BeforeInsert(c: Setup, st: State, call: nat, e: Event, between: seq<Step>)
    requires StoreInv(st) && call !in st.tickets && LeavesAlone(between, call)
    ensures var mid := Exec(c, Next(c, st, Begin(call, e)), between);
      && StoreInv(mid) && st.rows <= mid.rows && call in mid.tickets
      && mid.tickets[call] == Reading(e.(version := Count(st.rows, e.streamId) + 1), |st.rows|)
  {
    StoreStep(c, st, Begin(call, e));
    MaxIsCount(st.rows, e.streamId);
    TicketUntouched(c, Next(c, st, Begin(call, e)), between, call);
    StoreAlong(c, Next(c, st, Begin(call, e)), between);
  }

  /** The insert, seen from the call. */
  lemma InsertDecides(c: Setup, mid: State, call: nat, rows: seq<Event>, row: Event, stored: CallFate)
    requires Ledger(mid.rows) && rows <= mid.rows && row.version == Count(rows, row.streamId) + 1
    requires call in mid.tickets && mid.tickets[call] == Reading(row, |rows|)
    ensures var after := Next(c, mid, Insert(call, stored));
            var done := Lands(rows, mid.rows[|rows|..], row, stored);
      && after.rows == (if done then mid.rows + [row] else mid.rows)
      && after.logs == mid.logs
      && (if done && stored.Answered? then call in after.tickets && after.tickets[call] == Stored(row)
          else call !in after.tickets)
  {
    assert mid.rows == rows + mid.rows[|rows|..];
    LandsIff(rows, mid.rows[|rows|..], row, stored);
  }

  /** The publish, seen from the call. */
  lemma PublishDecides(c: Setup, found: State, call: nat, row: Event, written: WriteFate)
    requires call in found.tickets ==> found.tickets[call] == Stored(row)
    ensures var after := Next(c, found, Publish(call, written));
      && after.rows == found.rows && call !in after.tickets
      && after.logs == (if call in found.tickets then PublishTo(c.routing, found.logs, row, written) else found.logs)
      && after.acked ==
         (if call in found.tickets && Accepted(c.routing, row, written) then found.acked + {row} else found.acked)
  {
  }

  /** One ingest, with any steps of others in both its gaps, between its snapshot and its insert and between
      its insert and its publish. The row is stored at the end of the table the insert found, exactly when
      it lands, and stays there; it is written at the end of the log the publish found, exactly when the
      insert was answered; and the ingest counts as published exactly when the writer says so. */
  lemma IngestIsRun(c: Setup, st: State, call: nat, e: Event, between: seq<Step>, stored: CallFate,
                    between2: seq<Step>, written: WriteFate)
    requires StoreInv(st) && call !in st.tickets && LeavesAlone(between, call) && LeavesAlone(between2, call)
    ensures var mid := Exec(c, Next(c, st, Begin(call, e)), between);
            var inserted := Next(c, mid, Insert(call, stored));
            var found := Exec(c, inserted, between2);
            var after := Next(c, found, Publish(call, written));
            var row := e.(version := Count(st.rows, e.streamId) + 1);
      && st.rows <= mid.rows
      && var done := Lands(st.rows, mid.rows[|st.rows|..], row, stored);
      && inserted.rows == (if done then mid.rows + [row] else mid.rows)
      && inserted.rows <= after.rows && after.rows == found.rows
      && after.logs == (if done && stored.Answered? then PublishTo(c.routing, found.logs, row, written) else found.logs)
      && after.acked == (if done && stored.Answered? && Accepted(c.routing, row, written) then found.acked + {row}
                         else found.acked)
      && call !in after.tickets
  {
    BeforeInsert(c, st, call, e, between);
    var mid := Exec(c, Next(c, st, Begin(call, e)), between);
    var row := e.(version := Count(st.rows, e.streamId) + 1);
    InsertDecides(c, mid, call, st.rows, row, stored);
    var inserted := Next(c, mid, Insert(call, stored));
    TicketUntouched(c, inserted, between2, call);
    PublishDecides(c, Exec(c, inserted, between2), call, row, written);
  }

  /** An ingest whose process dies leaves the table and the logs as they are, and whatever others do later, no
      retry or publish of its own writes anything any more. */
  lemma DeadIngestIsOver(c: Setup, st: State, call: nat, steps: seq<Step>, written: WriteFate)
    requires LeavesAlone(steps, call)
    ensures var dead := Next(c, st, Abandon(call)); var later := Exec(c, dead, steps);
      && dead.rows == st.rows && dead.logs == st.logs
      && call !in later.tickets
      && Next(c, later, Retry(call)) == later && Next(c, later, Publish(call, written)) == later
  {
    TicketUntouched(c, Next(c, st, Abandon(call)), steps, call);
  }

  lemma {:induction false} StoreAlong(c: Setup, st: State, steps: seq<Step>)
    requires StoreInv(st)
    ensures StoreInv(Exec(c, st, steps))
    decreases |steps|
  {
    if steps != [] {
      StoreAlong(c, st, steps[..|steps| - 1]);
      StoreStep(c, Exec(c, st, steps[..|steps| - 1]), steps[|steps| - 1]);
    }
  }
}
