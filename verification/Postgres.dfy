/** The event table: appending under UNIQUE constraints, and the ordered reads. */
module Postgres {
  import opened Events
  import opened Ordering

  /** PRIMARY KEY (id) and UNIQUE (stream_id, version). */
  ghost predicate Unique(rows: seq<Event>) {
    forall i, j | 0 <= i < j < |rows| :: !Clash(rows[i], rows[j])
  }

  predicate Clash(a: Event, b: Event) {
    a.id == b.id || (a.streamId == b.streamId && a.version == b.version)
  }

  predicate Taken(rows: seq<Event>, e: Event) {
    exists r :: r in rows && Clash(r, e)
  }

  /** COALESCE(MAX(version), 0) over one stream. */
  function MaxVersion(rows: seq<Event>, stream: string): (m: nat)
    ensures forall r | r in rows && r.streamId == stream :: r.version <= m
    ensures m == 0 || exists r :: r in rows && r.streamId == stream && r.version == m
  {
    if rows == [] then 0
    else
      var last := rows[|rows| - 1];
      var m := MaxVersion(rows[..|rows| - 1], stream);
      if last.streamId == stream && last.version > m then last.version else m
  }

  /** The INSERT after its sub-select has run: `e` carries the version read from the snapshot. */
  function InsertRow(rows: seq<Event>, e: Event, fate: CallFate): seq<Event> {
    if Taken(rows, e) || fate.NotApplied? then rows else rows + [e]
  }

  // ---- What the rows of a stream look like ----

  function Count(rows: seq<Event>, stream: string): nat {
    if rows == [] then 0
    else Count(rows[..|rows| - 1], stream) + if rows[|rows| - 1].streamId == stream then 1 else 0
  }

  ghost predicate HasVersion(rows: seq<Event>, stream: string, v: nat) {
    exists i :: 0 <= i < |rows| && rows[i].streamId == stream && rows[i].version == v
  }

  /** Each stream holds exactly the versions 1..n, each once, committed in that order. */
  ghost predicate GapFree(rows: seq<Event>) {
    && (forall i, j | 0 <= i < j < |rows| && rows[i].streamId == rows[j].streamId ::
          rows[i].version < rows[j].version)
    && (forall s, v: nat :: HasVersion(rows, s, v) <==> 1 <= v <= Count(rows, s))
  }

  /** The same said row by row, which is the form one append can be checked against. */
  ghost predicate Ledger(rows: seq<Event>) {
    forall i | 0 <= i < |rows| :: NextInStream(rows, i)
  }

  /** The version of a row is one more than the number of rows its stream had before it. */
  ghost predicate NextInStream(rows: seq<Event>, i: nat)
    requires i < |rows|
  {
    rows[i].version == Count(rows[..i], rows[i].streamId) + 1
  }

  /** One more row, seen by the two ways of looking at a stream. */
  lemma Snoc(front: seq<Event>, last: Event, stream: string, v: nat)
    ensures Count(front + [last], stream) == Count(front, stream) + if last.streamId == stream then 1 else 0
    ensures HasVersion(front + [last], stream, v)
       <==> HasVersion(front, stream, v) || (last.streamId == stream && last.version == v)
  {
  }

  lemma LedgerPrefix(rows: seq<Event>, n: nat)
    requires Ledger(rows) && n <= |rows|
    ensures Ledger(rows[..n])
  {
    forall i | 0 <= i < n ensures NextInStream(rows[..n], i) {
      assert NextInStream(rows, i);
      assert rows[..n][..i] == rows[..i];
    }
  }

  lemma LedgerExtend(rows: seq<Event>, e: Event)
    requires Ledger(rows)
    ensures Ledger(rows + [e]) <==> e.version == Count(rows, e.streamId) + 1
  {
    var after := rows + [e];
    assert after[..|rows|] == rows;
    forall i | 0 <= i < |rows| ensures NextInStream(after, i) {
      assert NextInStream(rows, i);
      assert after[..i] == rows[..i];
    }
    assert NextInStream(after, |rows|) <==> e.version == Count(rows, e.streamId) + 1;
  }

  lemma {:induction false} CountMonotone(rows: seq<Event>, n: nat, stream: string)
    requires n <= |rows|
    ensures Count(rows[..n], stream) <= Count(rows, stream)
    ensures Count(rows[..n], stream) < Count(rows, stream)
       <==> exists i :: n <= i < |rows| && rows[i].streamId == stream
    decreases |rows|
  {
    if n == |rows| {
      assert rows[..n] == rows;
    } else {
      var front := rows[..|rows| - 1];
      assert front[..n] == rows[..n];
      CountMonotone(front, n, stream);
      if Count(rows[..n], stream) < Count(front, stream) {
        var i :| n <= i < |front| && front[i].streamId == stream;
        assert rows[i].streamId == stream;
      } else if exists i :: n <= i < |rows| && rows[i].streamId == stream {
        var i :| n <= i < |rows| && rows[i].streamId == stream;
        assert i < |front| ==> front[i].streamId == stream;
      }
    }
  }

  lemma {:induction false} LedgerVersions(rows: seq<Event>, stream: string, v: nat)
    requires Ledger(rows)
    ensures HasVersion(rows, stream, v) <==> 1 <= v <= Count(rows, stream)
    decreases |rows|
  {
    if rows != [] {
      var n := |rows| - 1;
      LedgerPrefix(rows, n);
      LedgerVersions(rows[..n], stream, v);
      assert rows == rows[..n] + [rows[n]];
      Snoc(rows[..n], rows[n], stream, v);
      assert NextInStream(rows, n);
    }
  }

  lemma LedgerAscends(rows: seq<Event>, i: nat, j: nat)
    requires Ledger(rows) && i < j < |rows| && rows[i].streamId == rows[j].streamId
    ensures rows[i].version < rows[j].version
  {
    var s := rows[i].streamId;
    assert NextInStream(rows, i) && NextInStream(rows, j);
    CountMonotone(rows[..j], i, s);
    assert rows[..j][..i] == rows[..i];
    assert rows[..j][i].streamId == s;
  }

  /** The two forms say the same. */
  lemma {:induction false} LedgerIffGapFree(rows: seq<Event>)
    ensures Ledger(rows) <==> GapFree(rows)
    decreases |rows|
  {
    if Ledger(rows) {
      forall i, j | 0 <= i < j < |rows| && rows[i].streamId == rows[j].streamId
        ensures rows[i].version < rows[j].version
      {
        LedgerAscends(rows, i, j);
      }
      forall s, v: nat ensures HasVersion(rows, s, v) <==> 1 <= v <= Count(rows, s) {
        LedgerVersions(rows, s, v);
      }
    }
    if GapFree(rows) && rows != [] {
      var n := |rows| - 1;
      assert rows == rows[..n] + [rows[n]];
      GapFreeFront(rows[..n], rows[n]);
      LedgerIffGapFree(rows[..n]);
      LedgerExtend(rows[..n], rows[n]);
    }
  }

  lemma GapFreeFront(front: seq<Event>, last: Event)
    requires GapFree(front + [last])
    ensures GapFree(front) && last.version == Count(front, last.streamId) + 1
  {
    var rows := front + [last];
    LastIsGreatest(rows);
    Snoc(front, last, last.streamId, last.version);
    assert forall i | 0 <= i < |front| :: rows[i] == front[i];
    forall s, v: nat ensures HasVersion(front, s, v) <==> 1 <= v <= Count(front, s) {
      Snoc(front, last, s, v);
      assert HasVersion(rows, s, v) <==> 1 <= v <= Count(rows, s);
      if HasVersion(front, s, v) && s == last.streamId {
        var i :| 0 <= i < |front| && front[i].streamId == s && front[i].version == v;
        assert rows[i].version < rows[|front|].version;
      }
    }
  }

  lemma LastIsGreatest(rows: seq<Event>)
    requires GapFree(rows) && rows != []
    ensures rows[|rows| - 1].version == Count(rows, rows[|rows| - 1].streamId)
  {
    var last := rows[|rows| - 1];
    var n := Count(rows, last.streamId);
    assert HasVersion(rows, last.streamId, last.version);
    assert HasVersion(rows, last.streamId, n);
    var i :| 0 <= i < |rows| && rows[i].streamId == last.streamId && rows[i].version == n;
  }

  /** In a gap-free table the greatest version is the number of rows. */
  lemma MaxIsCount(rows: seq<Event>, stream: string)
    requires Ledger(rows)
    ensures MaxVersion(rows, stream) == Count(rows, stream)
  {
    var m, n := MaxVersion(rows, stream), Count(rows, stream);
    if n > 0 {
      LedgerVersions(rows, stream, n);
    }
    if m > 0 {
      var r :| r in rows && r.streamId == stream && r.version == m;
      assert HasVersion(rows, stream, m);
      LedgerVersions(rows, stream, m);
    }
  }

  /** The first `seen` rows were visible when `version` was worked out. The version is still free
      exactly when no other append on the stream has committed since, and then it is the next one. */
  lemma RaceDecides(rows: seq<Event>, seen: nat, e: Event)
    requires Ledger(rows) && seen <= |rows|
    requires e.version == Count(rows[..seen], e.streamId) + 1
    ensures HasVersion(rows, e.streamId, e.version)
       <==> exists i :: seen <= i < |rows| && rows[i].streamId == e.streamId
    ensures !HasVersion(rows, e.streamId, e.version) <==> e.version == Count(rows, e.streamId) + 1
  {
    CountMonotone(rows, seen, e.streamId);
    LedgerVersions(rows, e.streamId, e.version);
  }

  /** A row is refused for its id or for its version, and for nothing else. */
  lemma TakenMeans(rows: seq<Event>, e: Event)
    ensures Taken(rows, e) <==> HasVersion(rows, e.streamId, e.version) || exists r :: r in rows && r.id == e.id
  {
    if HasVersion(rows, e.streamId, e.version) {
      var i :| 0 <= i < |rows| && rows[i].streamId == e.streamId && rows[i].version == e.version;
      assert rows[i] in rows && Clash(rows[i], e);
    }
    if r :| r in rows && r.id == e.id {
      assert Clash(r, e);
    }
  }

  /** The same with the rows that were committed since the snapshot at hand. */
  lemma TakenAfter(rows: seq<Event>, others: seq<Event>, e: Event)
    requires Ledger(rows + others) && e.version == Count(rows, e.streamId) + 1
    ensures Taken(rows + others, e)
       <==> (exists x :: x in others && x.streamId == e.streamId) || exists x :: x in rows + others && x.id == e.id
  {
    var all := rows + others;
    assert all[..|rows|] == rows && all[|rows|..] == others;
    RaceDecides(all, |rows|, e);
    TakenMeans(all, e);
    if x :| x in others && x.streamId == e.streamId {
      var i :| 0 <= i < |others| && others[i] == x;
      assert all[|rows| + i] == x;
    }
    if i :| |rows| <= i < |all| && all[i].streamId == e.streamId {
      assert others[i - |rows|] == all[i];
    }
  }

  /** An append that saw `rows` in its snapshot takes effect, `others` having been committed since: it is
      carried out, none of the others is on its stream, and its id is new. */
  ghost predicate Lands(rows: seq<Event>, others: seq<Event>, e: Event, fate: CallFate) {
    && !fate.NotApplied?
    && (forall x | x in others :: x.streamId != e.streamId)
    && (forall x | x in rows + others :: x.id != e.id)
  }

  lemma LandsIff(rows: seq<Event>, others: seq<Event>, e: Event, fate: CallFate)
    requires Ledger(rows + others) && e.version == Count(rows, e.streamId) + 1
    ensures Lands(rows, others, e, fate) <==> !fate.NotApplied? && !Taken(rows + others, e)
  {
    TakenAfter(rows, others, e);
  }

  /** An insert keeps the table unique and gap-free, whatever the snapshot missed. */
  lemma InsertKeepsLedger(rows: seq<Event>, seen: nat, e: Event, fate: CallFate)
    requires Ledger(rows) && Unique(rows) && seen <= |rows|
    requires e.version == Count(rows[..seen], e.streamId) + 1
    ensures Ledger(InsertRow(rows, e, fate)) && Unique(InsertRow(rows, e, fate))
  {
    RaceDecides(rows, seen, e);
    TakenMeans(rows, e);
    LedgerExtend(rows, e);
    if !Taken(rows, e) {
      forall i | 0 <= i < |rows| ensures !Clash(rows[i], e) {
        assert rows[i] in rows;
      }
    }
  }

  /** Two rows that a constraint would keep apart are one row. */
  lemma SameRow(rows: seq<Event>, a: Event, b: Event)
    requires Unique(rows) && a in rows && b in rows
    requires a.id == b.id || (a.streamId == b.streamId && a.version == b.version)
    ensures a == b
  {
  }

  lemma SameLands(rows: seq<Event>, others: seq<Event>, e: Event, f: Event, fate: CallFate)
    requires e.id == f.id && e.streamId == f.streamId
    ensures Lands(rows, others, e, fate) <==> Lands(rows, others, f, fate)
  {
  }

  /** An append from its snapshot on. */
  lemma AppendMeans(rows: seq<Event>, others: seq<Event>, e: Event, fate: CallFate)
    requires Ledger(rows) && Ledger(rows + others) && Unique(rows + others)
    ensures var row := e.(version := Count(rows, e.streamId) + 1); var after := InsertRow(rows + others, row, fate);
      && MaxVersion(rows, e.streamId) == Count(rows, e.streamId)
      && (Lands(rows, others, e, fate) <==> !fate.NotApplied? && !Taken(rows + others, row))
      && Ledger(after) && Unique(after)
  {
    var row := e.(version := Count(rows, e.streamId) + 1);
    MaxIsCount(rows, e.streamId);
    LandsIff(rows, others, row, fate);
    SameLands(rows, others, e, row, fate);
    FromSnapshot(rows, others, row, fate);
  }

  lemma FromSnapshot(rows: seq<Event>, others: seq<Event>, row: Event, fate: CallFate)
    requires Ledger(rows + others) && Unique(rows + others) && row.version == Count(rows, row.streamId) + 1
    ensures var after := InsertRow(rows + others, row, fate); Ledger(after) && Unique(after)
  {
    assert (rows + others)[..|rows|] == rows;
    InsertKeepsLedger(rows + others, |rows|, row, fate);
  }

  // ---- Ordered reads ----

  predicate ByVersion(a: Event, b: Event) { a.version < b.version }

  /** The WHERE clause; the tenant clause is there only for a caller with a tenant. */
  function Matching(rows: seq<Event>, tenant: string, stream: string, from: int): set<Event> {
    set r | r in rows && r.streamId == stream && r.version >= from && (tenant == "" || r.tenantId == tenant)
  }

  lemma MatchingOrdered(rows: seq<Event>, tenant: string, stream: string, from: int)
    requires Unique(rows)
    ensures Orders(ByVersion, Matching(rows, tenant, stream, from))
  {
  }

  function Select(rows: seq<Event>, tenant: string, stream: string, from: int): seq<Event>
    requires Unique(rows)
  {
    MatchingOrdered(rows, tenant, stream, from);
    Arrange(ByVersion, Matching(rows, tenant, stream, from))
  }

  /** Nothing that is read of a stream is newer than the last row of the table, when that is of the stream. */
  lemma LastRowIsNewest(rows: seq<Event>, e: Event)
    requires Ledger(rows) && rows != [] && e in rows && e.streamId == rows[|rows| - 1].streamId
    ensures e.version <= rows[|rows| - 1].version
  {
    var j :| 0 <= j < |rows| && rows[j] == e;
    if j < |rows| - 1 {
      LedgerAscends(rows, j, |rows| - 1);
    }
  }

  lemma GreatestIsLast(s: set<Event>, m: Event)
    requires Orders(ByVersion, s) && m in s && forall e | e in s :: e.version <= m.version
    ensures var q := Arrange(ByVersion, s); q != [] && q[|q| - 1] == m
  {
    var q := Arrange(ByVersion, s);
    assert m in q;
    var last := q[|q| - 1];
    assert last in q;
    forall i | 0 <= i < |q| - 1 ensures q[i] != m {
      assert ByVersion(q[i], last);
    }
  }

  /** A row just stored is the last its tenant reads of the stream, and no other tenant reads it. */
  lemma NewRowIsRead(rows: seq<Event>, row: Event)
    requires Ledger(rows + [row]) && Unique(rows + [row]) && row.tenantId != ""
    ensures var own := Select(rows + [row], row.tenantId, row.streamId, 0); own != [] && own[|own| - 1] == row
    ensures forall other | other != "" && other != row.tenantId :: row !in Select(rows + [row], other, row.streamId, 0)
  {
    var after := rows + [row];
    var own := Matching(after, row.tenantId, row.streamId, 0);
    assert after[|rows|] == row;
    MatchingOrdered(after, row.tenantId, row.streamId, 0);
    forall e | e in own ensures e.version <= row.version {
      LastRowIsNewest(after, e);
    }
    GreatestIsLast(own, row);
  }

  /** What the columns give back: TIMESTAMPTZ and JSONB keep a normal form of the content. */
  function Read(columns: Content -> Content, r: Event): Event {
    r.(content := columns(r.content))
  }

  function ReadAll(columns: Content -> Content, rows: seq<Event>): (es: seq<Event>)
    ensures |es| == |rows|
    ensures forall i | 0 <= i < |rows| :: es[i] == Read(columns, rows[i])
  {
    seq(|rows|, i requires 0 <= i < |rows| => Read(columns, rows[i]))
  }

  class EventStore {
    var rows: seq<Event>
    const columns: Content -> Content

    constructor (columns: Content -> Content)
      ensures rows == [] && this.columns == columns
    {
      rows := [];
      this.columns := columns;
    }

    /** One INSERT statement. Between its snapshot and its effect other sessions commit `others`. */
    method Append(e: Event, others: seq<Event>, fate: CallFate) returns (r: Result<Event>)
      requires Ledger(rows) && Ledger(rows + others) && Unique(rows + others)
      modifies this
      ensures Ledger(rows) && Unique(rows)
      ensures var row := e.(version := Count(old(rows), e.streamId) + 1);
              var done := Lands(old(rows), others, e, fate);
              && rows == (if done then old(rows) + others + [row] else old(rows) + others)
              && r == if done && fate.Answered? then Ok(row) else Err(StoreFailure)
    {
      var version := MaxVersion(rows, e.streamId) + 1;
      var row := e.(version := version);
      ghost var seen := rows;
      rows := rows + others;
      var conflict := Taken(rows, row);
      AppendMeans(seen, others, e, fate);
      if conflict || fate.NotApplied? {
        return Err(StoreFailure);
      }
      rows := rows + [row];
      if fate.ReplyLost? {
        return Err(StoreFailure);
      }
      r := Ok(row);
    }

    /** Decodes the selected rows one by one; `fault` is the row at which the cursor or a decode fails. */
    method ScanRows(selected: seq<Event>, fault: Option<nat>) returns (r: Result<seq<Event>>)
      ensures r == if fault.Some? && fault.value <= |selected| then Err(StoreFailure)
                   else Ok(ReadAll(columns, selected))
    {
      var events: seq<Event> := [];
      for i := 0 to |selected|
        invariant fault.Some? ==> i <= fault.value
        invariant events == ReadAll(columns, selected[..i])
      {
        if fault == Some(i) {
          return Err(StoreFailure);
        }
        events := events + [Read(columns, selected[i])];
      }
      assert selected[..|selected|] == selected;
      if fault == Some(|selected|) {
        return Err(StoreFailure);
      }
      r := Ok(events);
    }

    /** The read without a version clause. */
    method GetByStreamId(tenant: string, stream: string, fault: Option<nat>) returns (r: Result<seq<Event>>)
      requires Unique(rows)
      ensures var found := Select(rows, tenant, stream, 0);
              r == if fault.Some? && fault.value <= |found| then Err(StoreFailure) else Ok(ReadAll(columns, found))
    {
      r := ScanRows(Select(rows, tenant, stream, 0), fault);
    }

    method GetFromVersion(tenant: string, stream: string, from: int, fault: Option<nat>) returns (r: Result<seq<Event>>)
      requires Unique(rows)
      ensures var found := Select(rows, tenant, stream, from);
              r == if fault.Some? && fault.value <= |found| then Err(StoreFailure) else Ok(ReadAll(columns, found))
    {
      r := ScanRows(Select(rows, tenant, stream, from), fault);
    }
  }
}
