/** What holds in every run of the pipeline. */
module Guarantees {
  import opened Events
  import opened Postgres
  import opened Replay
  import opened Search
  import opened Query
  import opened Kafka
  import opened Consume
  import opened Pipeline

  // ---- The store ----

  /** Any number of overlapping appends, with aborts and lost replies, leave each stream with exactly
      the versions 1 to n, each once, in commit order. */
  lemma VersionsAreGapFree(c: Setup, steps: seq<Step>)
    ensures GapFree(Exec(c, INIT, steps).rows) && Unique(Exec(c, INIT, steps).rows)
  {
    Always(c, steps);
    LedgerIffGapFree(Exec(c, INIT, steps).rows);
  }

  /** The insert of an append in flight takes effect exactly when it is carried out, its id is new, and
      no other append on the stream has committed since its snapshot. */
  lemma InsertLosesOnlyRaces(c: Setup, steps: seq<Step>, call: nat, fate: CallFate)
    requires var st := Exec(c, INIT, steps); call in st.tickets && st.tickets[call].Reading?
    ensures var st := Exec(c, INIT, steps);
            var t := st.tickets[call];
            var after := Next(c, st, Insert(call, fate));
            && t.seen <= |st.rows|
            && after.rows == (if |after.rows| > |st.rows| then st.rows + [t.event] else st.rows)
            && (|after.rows| > |st.rows| <==>
                 && !fate.NotApplied?
                 && (forall r | r in st.rows :: r.id != t.event.id)
                 && !exists i :: t.seen <= i < |st.rows| && st.rows[i].streamId == t.event.streamId)
            && (call in after.tickets <==> |after.rows| > |st.rows| && fate.Answered?)
  {
    Always(c, steps);
    var st := Exec(c, INIT, steps);
    var t := st.tickets[call];
    assert TicketInv(st.rows, t);
    RaceDecides(st.rows, t.seen, t.event);
    TakenMeans(st.rows, t.event);
  }

  lemma {:induction false} StoreOnlyGrows(c: Setup, st: State, more: seq<Step>)
    ensures st.rows <= Exec(c, st, more).rows
    decreases |more|
  {
    if more != [] {
      StoreOnlyGrows(c, st, more[..|more| - 1]);
      RowsGrow(c, Exec(c, st, more[..|more| - 1]), more[|more| - 1]);
    }
  }

  /** A replay read is a prefix of the same read at any later time. */
  lemma ReplayIsStable(c: Setup, steps: seq<Step>, more: seq<Step>, tenant: string, stream: string, from: int)
    ensures var now, later := Exec(c, INIT, steps).rows, Exec(c, INIT, steps + more).rows;
            Unique(now) && Unique(later) && Select(now, tenant, stream, from) <= Select(later, tenant, stream, from)
  {
    Always(c, steps);
    Always(c, steps + more);
    ExecConcat(c, INIT, steps, more);
    StoreOnlyGrows(c, Exec(c, INIT, steps), more);
    ReadOnlyExtends(Exec(c, INIT, steps).rows, Exec(c, INIT, steps + more).rows, tenant, stream, from);
  }

  /** In every run, a replay finds a gap for one reason only: another tenant wrote into the stream
      between two of the caller's events. */
  lemma ReplayFailsOnlyForSharing(c: Setup, steps: seq<Step>, tenant: string, stream: string, from: int)
    requires tenant != ""
    ensures var rows := Exec(c, INIT, steps).rows;
            Unique(rows) && (Replayable(rows, tenant, stream, from) <==> !Interleaved(rows, tenant, stream, from))
  {
    Always(c, steps);
    ReplayableIff(Exec(c, INIT, steps).rows, tenant, stream, from);
  }

  /** Ingests one after another, by the calls 0, 1, ... */
  function InTurn(es: seq<Event>): seq<Step> {
    if es == [] then []
    else
      var n := |es| - 1;
      InTurn(es[..n]) + [Begin(n, es[n]), Insert(n, Answered)]
  }

  function Numbered(es: seq<Event>): seq<Event> {
    seq(|es|, i requires 0 <= i < |es| => es[i].(version := i + 1))
  }

  lemma {:induction false} CountOfAll(rows: seq<Event>, stream: string)
    requires forall r | r in rows :: r.streamId == stream
    ensures Count(rows, stream) == |rows|
    decreases |rows|
  {
    if rows != [] {
      CountOfAll(rows[..|rows| - 1], stream);
    }
  }

  /** The state after `rows` have been stored by the calls 0, 1, ... */
  ghost predicate HasStored(st: State, rows: seq<Event>) {
    st.rows == rows && forall call | call in st.tickets :: call < |rows|
  }

  lemma OneMore(c: Setup, steps: seq<Step>, rows: seq<Event>, e: Event)
    requires HasStored(Exec(c, INIT, steps), rows)
    requires forall r | r in rows :: r.id != e.id && r.streamId == e.streamId
    ensures HasStored(Exec(c, INIT, steps + [Begin(|rows|, e), Insert(|rows|, Answered)]),
                      rows + [e.(version := |rows| + 1)])
  {
    Always(c, steps);
    CountOfAll(rows, e.streamId);
    StoredAlone(c, Exec(c, INIT, steps), |rows|, e);
    ExecConcat(c, INIT, steps, [Begin(|rows|, e), Insert(|rows|, Answered)]);
  }

  lemma NumberedSnoc(front: seq<Event>, e: Event)
    ensures Numbered(front + [e]) == Numbered(front) + [e.(version := |front| + 1)]
  {
  }

  ghost predicate OneStream(es: seq<Event>, stream: string) {
    && (forall e | e in es :: e.streamId == stream)
    && (forall i, j | 0 <= i < j < |es| :: es[i].id != es[j].id)
  }

  lemma NewToNumbered(es: seq<Event>, stream: string, n: nat)
    requires OneStream(es, stream) && n < |es|
    ensures OneStream(es[..n], stream)
    ensures forall r | r in Numbered(es[..n]) :: r.id != es[n].id && r.streamId == es[n].streamId
  {
  }

  /** Any events of one stream can be stored in turn. */
  lemma {:induction false} StoredInTurn(c: Setup, es: seq<Event>, stream: string)
    requires OneStream(es, stream)
    ensures HasStored(Exec(c, INIT, InTurn(es)), Numbered(es))
    decreases |es|
  {
    if es != [] {
      var n := |es| - 1;
      NewToNumbered(es, stream, n);
      StoredInTurn(c, es[..n], stream);
      OneMore(c, InTurn(es[..n]), Numbered(es[..n]), es[n]);
      NumberedSnoc(es[..n], es[n]);
      assert es[..n] + [es[n]] == es;
    }
  }

  lemma InNumbered(es: seq<Event>, stream: string, i: nat)
    requires OneStream(es, stream) && i < |es|
    ensures var row := es[i].(version := i + 1); row in Numbered(es) && row.streamId == stream
  {
    assert Numbered(es)[i] == es[i].(version := i + 1);
  }

  lemma NumberedInterleaved(es: seq<Event>, stream: string, i: nat, j: nat, k: nat, from: int)
    requires OneStream(es, stream) && i < j < k < |es| && from <= i + 1
    requires es[i].tenantId == es[k].tenantId && es[j].tenantId != es[i].tenantId
    ensures Interleaved(Numbered(es), es[i].tenantId, stream, from)
  {
    var rows := Numbered(es);
    InNumbered(es, stream, i);
    InNumbered(es, stream, j);
    InNumbered(es, stream, k);
  }

  /** Said of any run and the rows it has stored. */
  lemma SharingFails(c: Setup, steps: seq<Step>, rows: seq<Event>, tenant: string, stream: string, from: int)
    requires Exec(c, INIT, steps).rows == rows
    ensures GapFree(rows) && Unique(rows)
    ensures tenant != "" && Interleaved(rows, tenant, stream, from) ==> !Replayable(rows, tenant, stream, from)
  {
    VersionsAreGapFree(c, steps);
    if tenant != "" {
      ReplayFailsOnlyForSharing(c, steps, tenant, stream, from);
    }
  }

  /** And so it happens: store the events of a stream in turn, with another tenant's anywhere between two of
      the caller's, and the replay of the caller finds a gap in a table that has none. */
  lemma SharedStreamFails(c: Setup, es: seq<Event>, stream: string, i: nat, j: nat, k: nat, from: int)
    requires OneStream(es, stream) && i < j < k < |es| && from <= i + 1
    requires es[i].tenantId == es[k].tenantId != "" && es[j].tenantId != es[i].tenantId
    ensures Exec(c, INIT, InTurn(es)).rows == Numbered(es)
    ensures GapFree(Numbered(es)) && Unique(Numbered(es)) && !Replayable(Numbered(es), es[i].tenantId, stream, from)
  {
    StoredInTurn(c, es, stream);
    NumberedInterleaved(es, stream, i, j, k, from);
    SharingFails(c, InTurn(es), Numbered(es), es[i].tenantId, stream, from);
  }

  // ---- The consumer ----

  /** At least once, across crashes: nothing is committed that is not settled, and the reader never
      runs ahead of the message it holds. */
  lemma NothingIsSkipped(c: Setup, steps: seq<Step>, partition: nat)
    ensures var st := Exec(c, INIT, steps);
            var log := Log(c, st, partition);
            && At(st.side.committed, partition) <= At(st.side.position, partition) <= |log|
            && At(st.side.position, partition) <= At(st.side.committed, partition) + 1
            && forall i | 0 <= i < At(st.side.committed, partition) :: Settled(st.side.sinks, log[i])
  {
    Always(c, steps);
    var st := Exec(c, INIT, steps);
    assert At(st.side.position, partition) <= |Log(c, st, partition)|;
    assert At(st.side.position, partition) == At(st.side.committed, partition) + if Holds(st, partition) then 1 else 0;
  }

  // ---- Conservation ----

  ghost predicate Written(st: State, e: Event) {
    exists slot :: Message(e) in LogAt(st.logs, slot)
  }

  /** The event waits in the consumed topic, at this offset at or beyond the committed one. */
  ghost predicate WaitsAt(c: Setup, st: State, e: Event, i: nat) {
    var p := SlotOf(c.routing, e.streamId).partition;
    At(st.side.committed, p) <= i < |Log(c, st, p)| && Log(c, st, p)[i] == Message(e)
  }

  ghost predicate Waits(c: Setup, st: State, e: Event) {
    exists i: nat :: WaitsAt(c, st, e, i)
  }

  /** The event is in a topic that is routed to but not consumed. */
  ghost predicate Parked(c: Setup, st: State, e: Event) {
    var slot := SlotOf(c.routing, e.streamId);
    slot.topic != c.topic && Message(e) in LogAt(st.logs, slot)
  }

  /** Every stored event is somewhere, and publishing it with success rules out the first place. */
  lemma NothingIsLost(c: Setup, steps: seq<Step>, e: Event)
    requires e in Exec(c, INIT, steps).rows
    ensures var st := Exec(c, INIT, steps);
            !Written(st, e) || Parked(c, st, e) || Waits(c, st, e) || Settled(st.side.sinks, Message(e))
    ensures var st := Exec(c, INIT, steps); e in st.acked ==> Written(st, e)
  {
    Always(c, steps);
    var st := Exec(c, INIT, steps);
    if Written(st, e) {
      var slot :| Message(e) in LogAt(st.logs, slot);
      var i :| 0 <= i < |LogAt(st.logs, slot)| && LogAt(st.logs, slot)[i] == Message(e);
      assert slot == SlotOf(c.routing, e.streamId);
      if slot.topic == c.topic {
        assert slot == Slot(c.topic, slot.partition);
        assert Log(c, st, slot.partition)[i] == Message(e);
        assert WaitsAt(c, st, e, i) || i < At(st.side.committed, slot.partition);
        NothingIsSkipped(c, steps, slot.partition);
      }
    }
  }

  /** Nothing is made up: whatever is in a log, in the index, in the dead-letter topic or reported lost
      is a stored row; and the last three only ever hold events of the consumed topic, so an event
      routed elsewhere is never searchable. */
  lemma NothingIsInvented(c: Setup, steps: seq<Step>, e: Event)
    ensures var st := Exec(c, INIT, steps);
      && (Written(st, e) ==> e in st.rows)
      && (Indexed(st.side.sinks, e) || e in st.side.sinks.dlq || e in st.side.sinks.lost ==>
            e in st.rows && SlotOf(c.routing, e.streamId).topic == c.topic)
  {
    Always(c, steps);
    var st := Exec(c, INIT, steps);
    if Written(st, e) {
      var slot :| Message(e) in LogAt(st.logs, slot);
      var i :| 0 <= i < |LogAt(st.logs, slot)| && LogAt(st.logs, slot)[i] == Message(e);
    }
  }

  // ---- The read model against the store ----

  ghost predicate StreamIndexed(st: State, tenant: string, stream: string) {
    forall e | e in st.rows && e.tenantId == tenant && e.streamId == stream :: Indexed(st.side.sinks, e)
  }

  /** The columns give the content of the stream back as it was written. */
  ghost predicate StreamNormal(columns: Content -> Content, st: State, tenant: string, stream: string) {
    forall e | e in st.rows && e.tenantId == tenant && e.streamId == stream :: columns(e.content) == e.content
  }

  /** What the walk over the pages of a stream has to do with its rows and with its replay, going by whether
      the rows are all indexed, whether the columns change nothing in them, and whether another tenant's event
      lies between two of the caller's. */
  ghost predicate Agreement(columns: Content -> Content, st: State, tenant: string, stream: string, limit: int,
                            indexed: bool, normal: bool, shared: bool)
    requires Keyed(st.side.sinks.docs) && Unique(st.rows)
  {
    var walk, rows := Walk(st.side.sinks.docs, tenant, stream, limit, 0), Select(st.rows, tenant, stream, 0);
    && (walk == rows <==> indexed)
    && (ReadAll(columns, walk) == ReadAll(columns, rows) <==> indexed)
    && (walk == ReadAll(columns, rows) <==> indexed && normal)
    && (HandsOut(columns, st.rows, tenant, stream, 0, ReadAll(columns, walk)) <==> indexed && !shared)
    && (HandsOut(columns, st.rows, tenant, stream, 0, walk) <==> indexed && normal && !shared)
  }

  /** Once the index is right about the rows of a stream, the walk over its pages gives those rows, and so,
      in the form the columns keep, the events that replay reads; and only then. It gives exactly what replay
      hands out when, beyond that, the columns change nothing in the stream and no other tenant's event lies
      between two of the caller's, so that replay hands out anything. */
  lemma AgreementIff(c: Setup, columns: Content -> Content, steps: seq<Step>, tenant: string, stream: string,
                     limit: int)
    requires tenant != "" && stream != ""
    ensures var st := Exec(c, INIT, steps);
      && Keyed(st.side.sinks.docs) && Unique(st.rows)
      && Agreement(columns, st, tenant, stream, limit, StreamIndexed(st, tenant, stream),
                   StreamNormal(columns, st, tenant, stream), Interleaved(st.rows, tenant, stream, 0))
  {
    Always(c, steps);
    StateAgrees(c, columns, Exec(c, INIT, steps), tenant, stream, limit);
  }

  lemma StateAgrees(c: Setup, columns: Content -> Content, st: State, tenant: string, stream: string, limit: int)
    requires Inv(c, st) && tenant != "" && stream != ""
    ensures Agreement(columns, st, tenant, stream, limit, StreamIndexed(st, tenant, stream),
                      StreamNormal(columns, st, tenant, stream), Interleaved(st.rows, tenant, stream, 0))
  {
    var walk, rows := Walk(st.side.sinks.docs, tenant, stream, limit, 0), Select(st.rows, tenant, stream, 0);
    WalkAgainstRows(c, columns, st, tenant, stream, limit);
    ReplayableIff(st.rows, tenant, stream, 0);
    HandsOutMeans(columns, st.rows, tenant, stream, walk);
    HandsOutMeans(columns, st.rows, tenant, stream, ReadAll(columns, walk));
  }

  lemma HandsOutMeans(columns: Content -> Content, rows: seq<Event>, tenant: string, stream: string, es: seq<Event>)
    requires Unique(rows)
    ensures HandsOut(columns, rows, tenant, stream, 0, es)
       <==> Replayable(rows, tenant, stream, 0) && es == ReadAll(columns, Select(rows, tenant, stream, 0))
  {
  }

  lemma WalkAgainstRows(c: Setup, columns: Content -> Content, st: State, tenant: string, stream: string, limit: int)
    requires Inv(c, st) && tenant != "" && stream != ""
    ensures var walk, rows := Walk(st.side.sinks.docs, tenant, stream, limit, 0), Select(st.rows, tenant, stream, 0);
      && (walk == rows <==> StreamIndexed(st, tenant, stream))
      && (ReadAll(columns, walk) == ReadAll(columns, rows) <==> StreamIndexed(st, tenant, stream))
      && (walk == ReadAll(columns, rows) <==>
            StreamIndexed(st, tenant, stream) && StreamNormal(columns, st, tenant, stream))
  {
    WalkIsRowsIff(c, st, tenant, stream, limit);
    VisibleAreRows(c, st, tenant, stream);
    SelectReads(st.rows, tenant, stream, 0);
    WholeWalk(st.side.sinks.docs, tenant, stream, limit);
    var walk, rows := Walk(st.side.sinks.docs, tenant, stream, limit, 0), Select(st.rows, tenant, stream, 0);
    SameUpToColumns(columns, st.rows, walk, rows);
    ReadIsSame(columns, rows);
  }

  lemma WalkIsRowsIff(c: Setup, st: State, tenant: string, stream: string, limit: int)
    requires Inv(c, st) && tenant != "" && stream != ""
    ensures Walk(st.side.sinks.docs, tenant, stream, limit, 0) == Select(st.rows, tenant, stream, 0)
       <==> StreamIndexed(st, tenant, stream)
  {
    var docs := st.side.sinks.docs;
    WholeWalk(docs, tenant, stream, limit);
    SelectReads(st.rows, tenant, stream, 0);
    VisibleAreRows(c, st, tenant, stream);
    if StreamIndexed(st, tenant, stream) {
      FeedIsSelect(docs, st.rows, tenant, stream);
    }
    FedMeansIndexed(st.side.sinks, tenant, stream);
  }

  /** Rows that read alike are the same rows, since ids are read back as they are. */
  lemma SameUpToColumns(columns: Content -> Content, table: seq<Event>, walk: seq<Event>, rows: seq<Event>)
    requires Unique(table) && forall e | e in walk || e in rows :: e in table
    ensures ReadAll(columns, walk) == ReadAll(columns, rows) <==> walk == rows
    ensures walk == ReadAll(columns, rows) ==> walk == rows
  {
    var seen, read := ReadAll(columns, walk), ReadAll(columns, rows);
    if seen == read || walk == read {
      forall i | 0 <= i < |rows| ensures walk[i] == rows[i] {
        assert read[i].id == rows[i].id && seen[i].id == walk[i].id;
        SameRow(table, walk[i], rows[i]);
      }
    }
  }

  lemma ReadIsSame(columns: Content -> Content, rows: seq<Event>)
    ensures rows == ReadAll(columns, rows) <==> forall e | e in rows :: columns(e.content) == e.content
  {
    var read := ReadAll(columns, rows);
    if rows == read {
      forall e | e in rows ensures columns(e.content) == e.content {
        var i :| 0 <= i < |rows| && rows[i] == e;
        assert read[i] == Read(columns, rows[i]);
      }
    }
  }

  lemma FedMeansIndexed(s: Sinks, tenant: string, stream: string)
    requires Keyed(s.docs)
    ensures forall e | e in Feed(s.docs, tenant, stream, false) :: Indexed(s, e)
  {
  }

  lemma VisibleAreRows(c: Setup, st: State, tenant: string, stream: string)
    requires SinkInv(c, st)
    ensures forall e | e in Visible(st.side.sinks.docs, tenant, stream) :: e in st.rows
  {
  }

  /** Sorting by version and sorting by version then id are the same where versions are unique. */
  lemma FeedIsSelect(docs: Index, rows: seq<Event>, tenant: string, stream: string)
    requires Keyed(docs) && Unique(rows) && tenant != "" && stream != ""
    requires forall e | e in Visible(docs, tenant, stream) :: e in rows
    requires forall e | e in rows && e.tenantId == tenant && e.streamId == stream :: e.id in docs && docs[e.id] == e
    ensures Feed(docs, tenant, stream, false) == Select(rows, tenant, stream, 0)
  {
    var s, m := Visible(docs, tenant, stream), Matching(rows, tenant, stream, 0);
    forall e ensures e in s <==> e in m {
      if e in m { assert docs[e.id] == e; }
    }
    assert s == m;
    MatchingOrdered(rows, tenant, stream, 0);
    VisibleOrdered(docs, tenant, stream);
    var q := Select(rows, tenant, stream, 0);
    forall i, j | 0 <= i < j < |q| ensures ByVersionThenId(q[i], q[j]) {
      assert ByVersion(q[i], q[j]);
    }
    FeedIsOnly(docs, tenant, stream, false, q);
  }

  /** Every event of the stream has been published and passed by the consumer, and none was refused
      by the index. */
  ghost predicate Quiet(c: Setup, st: State, stream: string) {
    var slot := SlotOf(c.routing, stream);
    && slot.topic == c.topic
    && (forall e | e in st.rows && e.streamId == stream :: Message(e) in LogAt(st.logs, slot))
    && At(st.side.committed, slot.partition) == |LogAt(st.logs, slot)|
    && (forall e | e in st.side.sinks.dlq || e in st.side.sinks.lost :: e.streamId != stream)
  }

  lemma QuietIsIndexed(c: Setup, steps: seq<Step>, stream: string)
    requires Quiet(c, Exec(c, INIT, steps), stream)
    ensures var st := Exec(c, INIT, steps); forall e | e in st.rows && e.streamId == stream :: Indexed(st.side.sinks, e)
  {
    var st := Exec(c, INIT, steps);
    var slot := SlotOf(c.routing, stream);
    NothingIsSkipped(c, steps, slot.partition);
    assert Log(c, st, slot.partition) == LogAt(st.logs, slot);
    forall e | e in st.rows && e.streamId == stream ensures Indexed(st.side.sinks, e) {
      var i :| 0 <= i < |LogAt(st.logs, slot)| && LogAt(st.logs, slot)[i] == Message(e);
      assert Settled(st.side.sinks, Log(c, st, slot.partition)[i]);
    }
  }

  /** Replay and the walk both give the versions 1 to n. */
  ghost predicate GivesAll(columns: Content -> Content, st: State, tenant: string, stream: string, limit: int)
    requires Keyed(st.side.sinks.docs) && Unique(st.rows)
  {
    var walk := Walk(st.side.sinks.docs, tenant, stream, limit, 0);
    && HandsOut(columns, st.rows, tenant, stream, 0, ReadAll(columns, walk))
    && |walk| == Count(st.rows, stream)
    && forall i | 0 <= i < Count(st.rows, stream) :: walk[i].version == i + 1
  }

  lemma AloneGivesAll(columns: Content -> Content, st: State, tenant: string, stream: string, limit: int)
    requires Keyed(st.side.sinks.docs) && Ledger(st.rows) && Unique(st.rows) && tenant != ""
    requires OnlyTenant(st.rows, tenant, stream)
    requires Walk(st.side.sinks.docs, tenant, stream, limit, 0) == Select(st.rows, tenant, stream, 0)
    ensures GivesAll(columns, st, tenant, stream, limit)
  {
    SingleTenantReplays(st.rows, tenant, stream, 0);
  }

  /** Eventual consistency: when the stream has gone quiet, whatever interleavings, duplicates and crashes
      led there, walking its pages gives its rows. That is what replaying it from the start hands out, up to
      the form the columns keep, exactly when no other tenant's event lies between two of the caller's; and to
      the letter when, besides, the columns change nothing in the stream. A stream of one tenant always
      replays, and both give its versions 1 to n. */
  lemma QuietMeansAgreement(c: Setup, columns: Content -> Content, steps: seq<Step>, tenant: string, stream: string,
                            limit: int)
    requires tenant != "" && stream != "" && Quiet(c, Exec(c, INIT, steps), stream)
    ensures var st := Exec(c, INIT, steps);
      && Keyed(st.side.sinks.docs) && Unique(st.rows)
      && Agreement(columns, st, tenant, stream, limit, true, StreamNormal(columns, st, tenant, stream),
                   Interleaved(st.rows, tenant, stream, 0))
      && (OnlyTenant(st.rows, tenant, stream) ==> GivesAll(columns, st, tenant, stream, limit))
  {
    var st := Exec(c, INIT, steps);
    Always(c, steps);
    QuietIsIndexed(c, steps, stream);
    AgreementIff(c, columns, steps, tenant, stream, limit);
    assert StreamIndexed(st, tenant, stream) == true;
    if OnlyTenant(st.rows, tenant, stream) {
      AloneGivesAll(columns, st, tenant, stream, limit);
    }
  }

  /** A page of a stream, at any moment of any run, holds strictly ascending versions of one tenant and
      one stream, each a stored row. */
  lemma StreamPageAscends(c: Setup, steps: seq<Step>, tenant: string, stream: string, limit: int, offset: int)
    requires tenant != "" && stream != ""
    ensures var st := Exec(c, INIT, steps);
      && Keyed(st.side.sinks.docs)
      && var p := PageOf(st.side.sinks.docs, tenant, stream, limit, offset);
      && (forall e | e in p.events :: e in st.rows && e.tenantId == tenant && e.streamId == stream)
      && (forall i, j | 0 <= i < j < |p.events| :: p.events[i].version < p.events[j].version)
  {
    Always(c, steps);
    var st := Exec(c, INIT, steps);
    PageIsScoped(st.side.sinks.docs, tenant, stream, limit, offset);
    var es := PageOf(st.side.sinks.docs, tenant, stream, limit, offset).events;
    forall e | e in es ensures e in st.rows {
      var id :| id in st.side.sinks.docs && st.side.sinks.docs[id] == e;
      assert Ours(c, st.rows, e);
    }
    forall i, j | 0 <= i < j < |es| ensures es[i].version < es[j].version {
      assert es[i] in es && es[j] in es;
      assert ByVersionThenId(es[i], es[j]);
      if es[i].version == es[j].version {
        SameRow(st.rows, es[i], es[j]);
      }
    }
  }

  // ---- A page walk while the pipeline runs ----

  lemma {:induction false} IndexOnlyGrows(c: Setup, st: State, more: seq<Step>)
    requires Inv(c, st)
    ensures SinksGrow(st.side.sinks, Exec(c, st, more).side.sinks)
    decreases |more|
  {
    if more != [] {
      var n := |more| - 1;
      IndexOnlyGrows(c, st, more[..n]);
      InvAlong(c, st, more[..n]);
      SinksOnlyGrow(c, Exec(c, st, more[..n]), more[n]);
    }
  }

  /** The index as the pages of a walk find it: `parts[i]` happens between page i and the next. */
  ghost function ViewsAlong(c: Setup, st: State, parts: seq<seq<Step>>): (views: seq<Index>)
    ensures |views| == |parts| + 1 && views[0] == st.side.sinks.docs
    decreases |parts|
  {
    [st.side.sinks.docs] + if parts == [] then [] else ViewsAlong(c, Exec(c, st, parts[0]), parts[1..])
  }

  lemma {:induction false} ViewsGrow(c: Setup, st: State, parts: seq<seq<Step>>)
    requires Inv(c, st)
    ensures Grows(ViewsAlong(c, st, parts))
    decreases |parts|
  {
    var views := ViewsAlong(c, st, parts);
    if parts != [] {
      var next := Exec(c, st, parts[0]);
      InvAlong(c, st, parts[0]);
      IndexOnlyGrows(c, st, parts[0]);
      ViewsGrow(c, next, parts[1..]);
      var rest := ViewsAlong(c, next, parts[1..]);
      assert views == [st.side.sinks.docs] + rest;
      assert views[1..] == rest;
    }
  }

  /** A caller who pages through a stream, or through the whole feed, while events keep arriving and the
      consumer keeps crashing, misses nothing that was searchable when the walk began. */
  lemma WalkDuringRun(c: Setup, steps: seq<Step>, parts: seq<seq<Step>>, tenant: string, stream: string, limit: int)
    ensures var st := Exec(c, INIT, steps);
            var views := ViewsAlong(c, st, parts);
      && Grows(views)
      && (Ended(views, tenant, stream, limit, 0) ==>
            forall e | e in Visible(st.side.sinks.docs, tenant, stream) ::
              e in WalkViews(views, tenant, stream, limit, 0))
  {
    Always(c, steps);
    ViewsGrow(c, Exec(c, INIT, steps), parts);
    if Ended(ViewsAlong(c, Exec(c, INIT, steps), parts), tenant, stream, limit, 0) {
      WalkSkipsNothing(ViewsAlong(c, Exec(c, INIT, steps), parts), tenant, stream, limit);
    }
  }
}
