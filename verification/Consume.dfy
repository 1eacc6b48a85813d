/** The consume loop: fetch, index or dead-letter, commit. */
module Consume {
  import opened Events
  import opened Search
  import opened Kafka

  // ---- What handling one event leaves behind ----

  /** The index, the dead-letter topic, and the events that reached neither. */
  datatype Sinks = Sinks(docs: Index, dlq: seq<Event>, lost: set<Event>)

  function AfterIndex(s: Sinks, e: Event, fate: CallFate): Sinks {
    if fate.NotApplied? then s else s.(docs := IndexDoc(s.docs, e))
  }

  function AfterDlq(s: Sinks, e: Event, fate: WriteFate): Sinks {
    s.(dlq := s.dlq + Repeat(e, fate.Copies()), lost := if fate.Acked? then s.lost else s.lost + {e})
  }

  function AfterHandle(s: Sinks, e: Event, index: CallFate, dlq: WriteFate): Sinks {
    if index.Answered? then AfterIndex(s, e, index) else AfterDlq(AfterIndex(s, e, index), e, dlq)
  }

  ghost predicate Indexed(s: Sinks, e: Event) {
    e.id in s.docs && s.docs[e.id] == e
  }

  /** The event has an end: it is in the index, in the dead-letter topic, or known to be in neither. */
  ghost predicate Settled(s: Sinks, entry: Entry) {
    entry.Malformed? || Indexed(s, entry.event) || entry.event in s.dlq || entry.event in s.lost
  }

  class DeadLetters {
    var messages: seq<Event>

    constructor ()
      ensures messages == []
    {
      messages := [];
    }

    method Publish(e: Event, fate: WriteFate) returns (ok: bool)
      modifies this
      ensures messages == old(messages) + Repeat(e, fate.Copies())
      ensures ok <==> fate.Acked?
    {
      messages := messages + Repeat(e, fate.Copies());
      ok := fate.Acked?;
    }
  }

  class ConsumeService {
    const indexer: Indexer
    const dlq: DeadLetters
    /** What the double-failure log line reports. */
    ghost var lost: set<Event>

    constructor (indexer: Indexer, dlq: DeadLetters)
      ensures this.indexer == indexer && this.dlq == dlq && lost == {}
    {
      this.indexer := indexer;
      this.dlq := dlq;
      lost := {};
    }

    ghost function View(): Sinks
      reads this, indexer, dlq
    {
      Sinks(indexer.docs, dlq.messages, lost)
    }

    /** Never fails, so that the offset is committed whatever happened. */
    method Handle(e: Event, index: CallFate, dead: WriteFate)
      modifies this, indexer, dlq
      ensures View() == AfterHandle(old(View()), e, index, dead)
      ensures Settled(View(), Message(e))
      ensures indexer.docs == if index.NotApplied? then old(indexer.docs) else old(indexer.docs)[e.id := e]
      ensures index.Answered? ==> dlq.messages == old(dlq.messages) && lost == old(lost)
      ensures !index.Answered? ==> dlq.messages == old(dlq.messages) + Repeat(e, dead.Copies())
      ensures !index.Answered? ==> lost == old(lost) + if dead.Acked? then {} else {e}
      ensures Indexed(View(), e) && e in dlq.messages <==>
        && (Indexed(old(View()), e) || !index.NotApplied?)
        && (e in old(dlq.messages) || (!index.Answered? && dead.Copies() > 0))
    {
      InBothIff(View(), e, index, dead);
      var ok := indexer.PutDocument(e, index);
      if !ok {
        RouteToDlq(e, dead);
      }
    }

    method RouteToDlq(e: Event, fate: WriteFate)
      modifies this`lost, dlq
      ensures View() == AfterDlq(old(View()), e, fate)
      ensures e in dlq.messages || e in lost
    {
      var before := dlq.messages;
      var ok := dlq.Publish(e, fate);
      if !ok {
        lost := lost + {e};
      }
      assert ok ==> dlq.messages[|before|] == e;
    }
  }

  // ---- The loop ----

  function At(offsets: map<nat, nat>, partition: nat): nat {
    if partition in offsets then offsets[partition] else 0
  }

  /** Group offsets, the reader's own position, and the sinks. */
  datatype Side = Side(committed: map<nat, nat>, position: map<nat, nat>, sinks: Sinks)

  /** What one round of the loop meets. */
  datatype Round =
    | Cancelled
    | FetchFails
    | Fetch(partition: nat, index: CallFate, dead: WriteFate, commit: CallFate)

  datatype End = Stopped | Failed

  function Commit(side: Side, partition: nat, offset: nat, fate: CallFate): Side {
    if fate.NotApplied? then side else side.(committed := side.committed[partition := offset + 1])
  }

  /** What the next process of the group starts from. */
  function Restarted(side: Side): Side {
    side.(position := side.committed)
  }

  /** One round; with no message to fetch the reader waits until it is cancelled. */
  function Iterate(log: nat -> seq<Entry>, side: Side, r: Round): (Side, Option<End>) {
    match r
    case Cancelled => (side, Some(Stopped))
    case FetchFails => (side, Some(Failed))
    case Fetch(p, index, dead, commit) =>
      var offset := At(side.position, p);
      if offset >= |log(p)| then (side, Some(Stopped))
      else
        var fetched := side.(position := side.position[p := offset + 1]);
        var entry := log(p)[offset];
        var handled := if entry.Malformed? then fetched
                       else fetched.(sinks := AfterHandle(fetched.sinks, entry.event, index, dead));
        (Commit(handled, p, offset, commit), if commit.Answered? then None else Some(Failed))
  }

  function Loop(log: nat -> seq<Entry>, side: Side, rounds: seq<Round>): (Side, End)
    decreases |rounds|
  {
    if rounds == [] then (side, Stopped)
    else
      var (next, end) := Iterate(log, side, rounds[0]);
      if end.Some? then (next, end.value) else Loop(log, next, rounds[1..])
  }

  /** Processes of the group one after another. */
  function Lives(log: nat -> seq<Entry>, side: Side, lives: seq<seq<Round>>): Side
    decreases |lives|
  {
    if lives == [] then side else Lives(log, Restarted(Loop(log, side, lives[0]).0), lives[1..])
  }

  // ---- How the loop ends ----

  /** How many messages of the partition the first `k` rounds fetch, when each fetches one. */
  function FetchedBefore(rounds: seq<Round>, k: nat, partition: nat): nat
    requires k <= |rounds|
  {
    if k == 0 then 0
    else FetchedBefore(rounds, k - 1, partition)
         + if rounds[k - 1].Fetch? && rounds[k - 1].partition == partition then 1 else 0
  }

  /** Round `k` fetches a message that is there, the rounds before having each fetched one. */
  predicate FetchesOne(log: nat -> seq<Entry>, position: map<nat, nat>, rounds: seq<Round>, k: nat)
    requires k < |rounds|
  {
    && rounds[k].Fetch?
    && var p := rounds[k].partition;
       (if p in position then position[p] else 0) + FetchedBefore(rounds, k, p) < |log(p)|
  }

  /** Round `k` passes its message. */
  predicate PassesOne(log: nat -> seq<Entry>, position: map<nat, nat>, rounds: seq<Round>, k: nat)
    requires k < |rounds|
  {
    FetchesOne(log, position, rounds, k) && rounds[k].commit == Answered
  }

  /** Round `k` goes wrong: the fetch fails, or its message is there and its commit is not answered. */
  predicate GoesWrong(log: nat -> seq<Entry>, position: map<nat, nat>, rounds: seq<Round>, k: nat)
    requires k < |rounds|
  {
    || rounds[k] == FetchFails
    || (FetchesOne(log, position, rounds, k) && rounds[k].commit != Answered)
  }

  ghost predicate FailsAt(log: nat -> seq<Entry>, position: map<nat, nat>, rounds: seq<Round>, k: nat)
    requires k < |rounds|
  {
    GoesWrong(log, position, rounds, k) && forall j | 0 <= j < k :: PassesOne(log, position, rounds, j)
  }

  lemma {:induction false} FetchedShift(rounds: seq<Round>, k: nat, partition: nat)
    requires k < |rounds|
    ensures FetchedBefore(rounds, k + 1, partition) == FetchedBefore(rounds[1..], k, partition)
      + if rounds[0].Fetch? && rounds[0].partition == partition then 1 else 0
    decreases k
  {
    if k > 0 {
      FetchedShift(rounds, k - 1, partition);
      assert rounds[1..][k - 1] == rounds[k];
    }
  }

  /** The rounds after the first, from where it has left the reader. */
  lemma FailsLater(log: nat -> seq<Entry>, position: map<nat, nat>, rounds: seq<Round>, k: nat)
    requires k + 1 < |rounds| && rounds[0].Fetch?
    ensures var p := rounds[0].partition;
            var next := position[p := At(position, p) + 1];
      && FetchesOne(log, next, rounds[1..], k) == FetchesOne(log, position, rounds, k + 1)
      && GoesWrong(log, next, rounds[1..], k) == GoesWrong(log, position, rounds, k + 1)
      && PassesOne(log, next, rounds[1..], k) == PassesOne(log, position, rounds, k + 1)
  {
    assert rounds[1..][k] == rounds[k + 1];
    if rounds[k + 1].Fetch? {
      FetchedShift(rounds, k, rounds[k + 1].partition);
    }
  }

  /** The loop reports a failure exactly when some round goes wrong and all before it have passed a message;
      in all other cases it has been stopped. */
  lemma {:induction false} LoopFailsIff(log: nat -> seq<Entry>, side: Side, rounds: seq<Round>)
    ensures Loop(log, side, rounds).1 == Failed
       <==> exists k :: 0 <= k < |rounds| && FailsAt(log, side.position, rounds, k)
    ensures Loop(log, side, rounds).1 == Stopped || Loop(log, side, rounds).1 == Failed
    decreases |rounds|
  {
    if rounds != [] {
      var (next, end) := Iterate(log, side, rounds[0]);
      assert FetchedBefore(rounds, 0, 0) == 0;
      if end.None? {
        LoopFailsIff(log, next, rounds[1..]);
        forall k: nat | k + 1 < |rounds|
          ensures FailsAt(log, next.position, rounds[1..], k) == FailsAt(log, side.position, rounds, k + 1)
        {
          FailsShift(log, side.position, rounds, k);
        }
        if k :| 0 <= k < |rounds| && FailsAt(log, side.position, rounds, k) {
          assert k > 0 && FailsAt(log, next.position, rounds[1..], k - 1);
        }
        if k :| 0 <= k < |rounds[1..]| && FailsAt(log, next.position, rounds[1..], k) {
          assert FailsAt(log, side.position, rounds, k + 1);
        }
      } else {
        assert GoesWrong(log, side.position, rounds, 0) <==> end == Some(Failed);
        assert FailsAt(log, side.position, rounds, 0) <==> end == Some(Failed);
        assert !PassesOne(log, side.position, rounds, 0);
      }
    }
  }

  lemma FailsShift(log: nat -> seq<Entry>, position: map<nat, nat>, rounds: seq<Round>, k: nat)
    requires k + 1 < |rounds| && PassesOne(log, position, rounds, 0)
    ensures var p := rounds[0].partition;
      FailsAt(log, position[p := At(position, p) + 1], rounds[1..], k) == FailsAt(log, position, rounds, k + 1)
  {
    var p := rounds[0].partition;
    var next := position[p := At(position, p) + 1];
    forall j: nat | j + 1 < |rounds|
      ensures GoesWrong(log, next, rounds[1..], j) == GoesWrong(log, position, rounds, j + 1)
      ensures PassesOne(log, next, rounds[1..], j) == PassesOne(log, position, rounds, j + 1)
    {
      FailsLater(log, position, rounds, j);
    }
    if FailsAt(log, next, rounds[1..], k) {
      forall j | 0 <= j < k + 1 ensures PassesOne(log, position, rounds, j) {
        if j > 0 { assert PassesOne(log, next, rounds[1..], j - 1); }
      }
    }
    if FailsAt(log, position, rounds, k + 1) {
      forall j | 0 <= j < k ensures PassesOne(log, next, rounds[1..], j) {
        assert PassesOne(log, position, rounds, j + 1);
      }
    }
  }

  class Consumer {
    const log: nat -> seq<Entry>
    var committed: map<nat, nat>
    var position: map<nat, nat>

    constructor (log: nat -> seq<Entry>, committed: map<nat, nat>)
      ensures this.log == log && this.committed == committed && position == committed
    {
      this.log := log;
      this.committed := committed;
      position := committed;
    }

    ghost function View(svc: ConsumeService): Side
      reads this, svc, svc.indexer, svc.dlq
    {
      Side(committed, position, svc.View())
    }

    method FetchMessage(r: Round) returns (fetched: Option<(nat, Entry)>)
      requires r.Fetch?
      modifies this`position
      ensures fetched.None? <==> At(old(position), r.partition) >= |log(r.partition)|
      ensures fetched.None? ==> position == old(position)
      ensures fetched.Some? ==>
        && fetched.value == (At(old(position), r.partition), log(r.partition)[At(old(position), r.partition)])
        && position == old(position)[r.partition := At(old(position), r.partition) + 1]
    {
      var offset := At(position, r.partition);
      if offset >= |log(r.partition)| {
        return None;
      }
      position := position[r.partition := offset + 1];
      fetched := Some((offset, log(r.partition)[offset]));
    }

    method CommitMessages(partition: nat, offset: nat, fate: CallFate) returns (ok: bool)
      modifies this`committed
      ensures committed == if fate.NotApplied? then old(committed) else old(committed)[partition := offset + 1]
      ensures ok <==> fate.Answered?
    {
      if !fate.NotApplied? {
        committed := committed[partition := offset + 1];
      }
      ok := fate.Answered?;
    }

    method Run(svc: ConsumeService, rounds: seq<Round>) returns (end: End)
      modifies this, svc, svc.indexer, svc.dlq
      ensures (View(svc), end) == Loop(log, old(View(svc)), rounds)
    {
      var i := 0;
      while i < |rounds|
        invariant 0 <= i <= |rounds|
        invariant Loop(log, old(View(svc)), rounds) == Loop(log, View(svc), rounds[i..])
      {
        var r := rounds[i];
        assert rounds[i..][0] == r && rounds[i..][1..] == rounds[i + 1..];
        if r.Cancelled? { return Stopped; }
        if r.FetchFails? { return Failed; }
        var fetched := FetchMessage(r);
        if fetched.None? { return Stopped; }
        var (offset, entry) := fetched.value;
        if entry.Malformed? {
          var skipped := CommitMessages(r.partition, offset, r.commit);
          if !skipped { return Failed; }
        } else {
          svc.Handle(entry.event, r.index, r.dead);
          var done := CommitMessages(r.partition, offset, r.commit);
          if !done { return Failed; }
        }
        i := i + 1;
      }
      end := Stopped;
    }

    /** The next process of the group reads on from what was committed. */
    method Restart()
      modifies this`position
      ensures position == committed
    {
      position := committed;
    }

    /** One process after another: each works through its rounds until it ends, and the next one takes over. */
    method Serve(svc: ConsumeService, lives: seq<seq<Round>>)
      modifies this, svc, svc.indexer, svc.dlq
      ensures View(svc) == Lives(log, old(View(svc)), lives)
    {
      var i := 0;
      while i < |lives|
        invariant 0 <= i <= |lives|
        invariant Lives(log, old(View(svc)), lives) == Lives(log, View(svc), lives[i..])
      {
        assert lives[i..][0] == lives[i] && lives[i..][1..] == lives[i + 1..];
        var end := Run(svc, lives[i]);
        Restart();
        i := i + 1;
      }
    }
  }

  // ---- Progress ----

  /** How far the group is behind, over the partitions below `n`. */
  ghost function Lag(log: nat -> seq<Entry>, committed: map<nat, nat>, n: nat): int {
    if n == 0 then 0 else Lag(log, committed, n - 1) + |log(n - 1)| - At(committed, n - 1)
  }

  ghost predicate InSync(side: Side) {
    forall p: nat :: At(side.position, p) == At(side.committed, p)
  }

  lemma {:induction false} LagAfterCommit(log: nat -> seq<Entry>, committed: map<nat, nat>, p: nat, n: nat)
    ensures Lag(log, committed[p := At(committed, p) + 1], n) == Lag(log, committed, n) - if p < n then 1 else 0
    decreases n
  {
    if n > 0 {
      LagAfterCommit(log, committed, p, n - 1);
    }
  }

  /** Every round that does not end the loop lowers the lag by exactly one, poison pills, index failures
      and double failures included, and settles the message it passes. */
  lemma RoundMakesProgress(log: nat -> seq<Entry>, side: Side, r: Round, n: nat)
    requires InSync(side) && (r.Fetch? ==> r.partition < n)
    ensures var (next, end) := Iterate(log, side, r);
      end.None? ==>
        && InSync(next)
        && Lag(log, next.committed, n) == Lag(log, side.committed, n) - 1
        && Settled(next.sinks, log(r.partition)[At(side.committed, r.partition)])
        && forall q | q != r.partition :: At(next.committed, q) == At(side.committed, q)
  {
    if r.Fetch? && At(side.position, r.partition) < |log(r.partition)| {
      var offset := At(side.position, r.partition);
      LagAfterCommit(log, side.committed, r.partition, n);
      var entry := log(r.partition)[offset];
      if entry.Message? {
        HandledIsSettled(side.sinks, entry.event, r.index, r.dead);
      }
      var next := Iterate(log, side, r).0;
      if r.commit.Answered? {
        forall q: nat ensures At(next.position, q) == At(next.committed, q) {
          assert At(side.position, q) == At(side.committed, q);
        }
      }
    }
  }

  lemma HandledIsSettled(s: Sinks, e: Event, index: CallFate, dead: WriteFate)
    ensures Settled(AfterHandle(s, e, index, dead), Message(e))
  {
    var after := AfterHandle(s, e, index, dead);
    if !index.Answered? && dead.Acked? {
      assert after.dlq[|s.dlq|] == e;
    }
  }

  /** What one delivery adds, from any state of the sinks: the event is in the index and in the dead-letter
      topic exactly when each of the two has it from before or takes it now, the first without saying so;
      and likewise for an event that is reported lost although one of the two has it. */
  lemma InBothIff(s: Sinks, e: Event, index: CallFate, dead: WriteFate)
    ensures var after := AfterHandle(s, e, index, dead);
      Indexed(after, e) && e in after.dlq <==>
      (Indexed(s, e) || !index.NotApplied?) && (e in s.dlq || (!index.Answered? && dead.Copies() > 0))
    ensures var after := AfterHandle(s, e, index, dead);
      e in after.lost && (Indexed(after, e) || e in after.dlq) <==>
      && (e in s.lost || (!index.Answered? && dead.Unacked?))
      && (Indexed(s, e) || !index.NotApplied? || e in s.dlq || (!index.Answered? && dead.Copies() > 0))
  {
    if !index.Answered? {
      CopiesAdded(s.dlq, e, dead.Copies());
    }
  }

  lemma CopiesAdded(dlq: seq<Event>, e: Event, n: nat)
    ensures forall x :: x in dlq + Repeat(e, n) <==> x in dlq || (x == e && n > 0)
  {
    if n > 0 {
      assert (dlq + Repeat(e, n))[|dlq|] == e;
    }
  }

  /** The rounds bring messages that are there, and no commit fails. */
  ghost predicate Undisturbed(log: nat -> seq<Entry>, side: Side, rounds: seq<Round>, n: nat)
    decreases |rounds|
  {
    rounds == [] ||
    (&& rounds[0].Fetch? && rounds[0].partition < n && rounds[0].commit.Answered?
     && At(side.position, rounds[0].partition) < |log(rounds[0].partition)|
     && Undisturbed(log, Iterate(log, side, rounds[0]).0, rounds[1..], n))
  }

  ghost predicate Within(log: nat -> seq<Entry>, committed: map<nat, nat>, n: nat) {
    forall p | 0 <= p < n :: At(committed, p) <= |log(p)|
  }

  lemma {:induction false} NoLagNoneLeft(log: nat -> seq<Entry>, committed: map<nat, nat>, n: nat)
    requires Within(log, committed, n)
    ensures Lag(log, committed, n) >= 0
    ensures Lag(log, committed, n) == 0 ==> forall p | 0 <= p < n :: At(committed, p) == |log(p)|
    decreases n
  {
    if n > 0 {
      NoLagNoneLeft(log, committed, n - 1);
    }
  }

  /** A finite log is drained: each undisturbed round takes one off the lag, and after as many as the
      lag every message of every partition has been passed. */
  lemma {:induction false} Drains(log: nat -> seq<Entry>, side: Side, rounds: seq<Round>, n: nat)
    requires InSync(side) && Within(log, side.committed, n) && Undisturbed(log, side, rounds, n)
    ensures var (after, end) := Loop(log, side, rounds);
      && end == Stopped && InSync(after) && Within(log, after.committed, n)
      && Lag(log, after.committed, n) == Lag(log, side.committed, n) - |rounds|
      && (|rounds| == Lag(log, side.committed, n) ==> forall p | 0 <= p < n :: At(after.committed, p) == |log(p)|)
    decreases |rounds|
  {
    if rounds == [] {
      NoLagNoneLeft(log, side.committed, n);
    } else {
      RoundMakesProgress(log, side, rounds[0], n);
      Drains(log, Iterate(log, side, rounds[0]).0, rounds[1..], n);
    }
  }
}
