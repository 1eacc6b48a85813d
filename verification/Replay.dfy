/** Replay from the store, with the pairwise gap check. */
module Replay {
  import opened Events
  import opened Ordering
  import opened Postgres

  // ---- The gap check ----

  /** Versions run up one by one from wherever they start. */
  ghost predicate Contiguous(es: seq<Event>) {
    forall i | 0 <= i < |es| :: es[i].version == es[0].version + i
  }

  /** The pair at `i` is the first that does not fit. */
  ghost predicate FirstGap(es: seq<Event>, i: int) {
    && 1 <= i < |es|
    && es[i].version != es[i - 1].version + 1
    && Contiguous(es[..i])
  }

  /** The first place where the versions do not run up: this one is missing and that one found. */
  ghost predicate FirstGapIs(es: seq<Event>, missing: int, found: int) {
    exists i :: GapAt(es, i, missing, found)
  }

  ghost predicate GapAt(es: seq<Event>, i: int, missing: int, found: int) {
    FirstGap(es, i) && missing == es[i - 1].version + 1 && found == es[i].version
  }

  method ValidateContiguous(es: seq<Event>) returns (r: Result<()>)
    ensures r.Ok? <==> Contiguous(es)
    ensures r.Err? ==> r.error.VersionGap? && FirstGapIs(es, r.error.missing, r.error.found)
  {
    var i := 1;
    while i < |es|
      invariant 1 <= i && (|es| == 0 || i <= |es|)
      invariant |es| > 0 ==> Contiguous(es[..i])
    {
      var prev, curr := es[i - 1].version, es[i].version;
      if curr != prev + 1 {
        assert es[..i][i - 1] == es[i - 1];
        assert GapAt(es, i, prev + 1, curr);
        return Err(VersionGap(prev + 1, curr));
      }
      assert es[..i][i - 1] == es[i - 1];
      i := i + 1;
    }
    assert |es| > 0 ==> es[..i] == es;
    r := Ok(());
  }

  lemma SameVersions(a: seq<Event>, b: seq<Event>)
    requires |a| == |b| && forall i | 0 <= i < |a| :: b[i].version == a[i].version
    ensures Contiguous(a) <==> Contiguous(b)
  {
  }

  lemma SameGapAt(a: seq<Event>, b: seq<Event>, i: int)
    requires |a| == |b| && (forall k | 0 <= k < |a| :: b[k].version == a[k].version) && FirstGap(b, i)
    ensures FirstGap(a, i) && a[i - 1].version == b[i - 1].version && a[i].version == b[i].version
  {
    SameVersions(a[..i], b[..i]);
  }

  lemma SameGap(a: seq<Event>, b: seq<Event>, missing: int, found: int)
    requires |a| == |b| && (forall i | 0 <= i < |a| :: b[i].version == a[i].version) && FirstGapIs(b, missing, found)
    ensures FirstGapIs(a, missing, found)
  {
    var i :| GapAt(b, i, missing, found);
    SameGapAt(a, b, i);
    assert GapAt(a, i, missing, found);
  }

  /** The versions being in order, the missing one is really missing, below the found one, which is there. */
  lemma GapMeans(es: seq<Event>, missing: int, found: int)
    requires (forall i, j | 0 <= i < j < |es| :: es[i].version < es[j].version) && FirstGapIs(es, missing, found)
    ensures missing < found && (forall e | e in es :: e.version != missing)
    ensures exists e :: e in es && e.version == found
  {
    var i :| GapAt(es, i, missing, found);
    var last := es[i - 1].version;
    assert es[i] in es;
    forall k | 0 <= k < |es| ensures es[k].version != missing {
      assert k < i - 1 ==> es[k].version < last;
      assert k > i ==> es[k].version > found;
    }
  }

  /** What is read back of the rows: all that match and nothing else, each as the columns keep it. */
  lemma ReadsRows(columns: Content -> Content, rows: seq<Event>, tenant: string, stream: string, from: int)
    requires Unique(rows) && tenant != ""
    ensures var es := ReadAll(columns, Select(rows, tenant, stream, from));
      && (forall e | e in es :: e.tenantId == tenant && e.streamId == stream && e.version >= from)
      && (forall e | e in es :: exists row :: row in rows && e == row.(content := columns(row.content)))
      && (forall row | row in rows && row.tenantId == tenant && row.streamId == stream && row.version >= from ::
            row.(content := columns(row.content)) in es)
  {
    var found := Select(rows, tenant, stream, from);
    var es := ReadAll(columns, found);
    SelectReads(rows, tenant, stream, from);
    forall e | e in es
      ensures exists row :: row in found && e == row.(content := columns(row.content))
    {
      var i :| 0 <= i < |es| && es[i] == e;
      assert found[i] in found && e == found[i].(content := columns(found[i].content));
    }
    forall row | row in found ensures row.(content := columns(row.content)) in es {
      var i :| 0 <= i < |found| && found[i] == row;
      assert es[i] == row.(content := columns(row.content));
    }
  }

  // ---- The service ----

  /** What a caller may rely on when the store itself does not fail. */
  ghost predicate Replayable(rows: seq<Event>, tenant: string, stream: string, from: int)
    requires Unique(rows)
  {
    Contiguous(Select(rows, tenant, stream, from))
  }

  /** The events a caller gets when the store itself does not fail: none at all when there is a gap. */
  ghost predicate HandsOut(columns: Content -> Content, rows: seq<Event>, tenant: string, stream: string, from: int,
                           es: seq<Event>)
    requires Unique(rows)
  {
    Replayable(rows, tenant, stream, from) && es == ReadAll(columns, Select(rows, tenant, stream, from))
  }

  class ReplayService {
    const store: EventStore

    constructor (store: EventStore)
      ensures this.store == store
    {
      this.store := store;
    }

    /** `tenant` is the caller's tenant, empty without an identity; `fault` is where the cursor fails, if it does. */
    method Replay(tenant: string, stream: string, from: int, fault: Option<nat>) returns (r: Result<seq<Event>>)
      requires Unique(store.rows)
      ensures r.Err? && r.error == Unauthenticated <==> tenant == ""
      ensures r.Err? && r.error == Invalid <==> tenant != "" && (stream == "" || from < 0)
      ensures tenant != "" && stream != "" && from >= 0 ==>
        var found := Select(store.rows, tenant, stream, from);
        var broken := fault.Some? && fault.value <= |found|;
        && (r.Err? && r.error == StoreFailure <==> broken)
        && (r.Ok? <==> !broken && Replayable(store.rows, tenant, stream, from))
        && (r.Ok? ==> HandsOut(store.columns, store.rows, tenant, stream, from, r.value))
        && (r.Err? && r.error.VersionGap? ==> FirstGapIs(found, r.error.missing, r.error.found))
      ensures r.Ok? ==>
        && (forall e | e in r.value :: e.tenantId == tenant && e.streamId == stream && e.version >= from)
        && (forall e | e in r.value ::
              exists row :: row in store.rows && e == row.(content := store.columns(row.content)))
        && (forall row | row in store.rows && row.tenantId == tenant && row.streamId == stream && row.version >= from ::
              row.(content := store.columns(row.content)) in r.value)
        && (forall i | 0 <= i < |r.value| :: r.value[i].version == r.value[0].version + i)
    {
      if tenant == "" { return Err(Unauthenticated); }
      if stream == "" { return Err(Invalid); }
      if from < 0 { return Err(Invalid); }
      var events := store.GetFromVersion(tenant, stream, from, fault);
      if events.Err? { return Err(events.error); }
      var check := ValidateContiguous(events.value);
      SameVersions(Select(store.rows, tenant, stream, from), events.value);
      if check.Err? {
        SameGap(Select(store.rows, tenant, stream, from), events.value, check.error.missing, check.error.found);
        return Err(check.error);
      }
      ReadsRows(store.columns, store.rows, tenant, stream, from);
      assert HandsOut(store.columns, store.rows, tenant, stream, from, events.value);
      r := Ok(events.value);
    }
  }

  // ---- When replay succeeds ----

  /** Another tenant's row of the stream lies between two rows the caller would get. */
  ghost predicate Interleaved(rows: seq<Event>, tenant: string, stream: string, from: int) {
    exists a, c, b | a in rows && c in rows && b in rows ::
      && a.streamId == c.streamId == b.streamId == stream
      && a.tenantId == b.tenantId == tenant && c.tenantId != tenant
      && from <= a.version < c.version < b.version
  }

  /** What a read returns, said without sorting: the matching rows, each once, versions ascending. */
  ghost predicate Reads(es: seq<Event>, rows: seq<Event>, tenant: string, stream: string, from: int) {
    && (forall e | e in es :: Wanted(e, rows, tenant, stream, from))
    && (forall e | e in rows && Wanted(e, rows, tenant, stream, from) :: e in es)
    && (forall i, j | 0 <= i < j < |es| :: es[i].version < es[j].version)
  }

  ghost predicate Wanted(e: Event, rows: seq<Event>, tenant: string, stream: string, from: int) {
    e in rows && e.streamId == stream && e.version >= from && (tenant == "" || e.tenantId == tenant)
  }

  lemma SelectReads(rows: seq<Event>, tenant: string, stream: string, from: int)
    requires Unique(rows)
    ensures Reads(Select(rows, tenant, stream, from), rows, tenant, stream, from)
  {
  }

  predicate JumpAt(es: seq<Event>, i: nat) {
    1 <= i < |es| && es[i].version != es[i - 1].version + 1
  }

  /** The pairwise check is the whole truth. */
  lemma {:induction false} NoJumpIffContiguous(es: seq<Event>)
    ensures Contiguous(es) <==> forall i: nat :: !JumpAt(es, i)
  {
    if forall i: nat :: !JumpAt(es, i) {
      var n := 0;
      while n < |es|
        invariant 0 <= n <= |es|
        invariant forall i | 0 <= i < n :: es[i].version == es[0].version + i
      {
        assert !JumpAt(es, n);
        n := n + 1;
      }
    }
  }

  /** What a contiguous selection spans belongs to the caller alone. */
  lemma SpannedIsOwn(rows: seq<Event>, es: seq<Event>, tenant: string, stream: string, from: int,
                     a: Event, c: Event, b: Event)
    requires Unique(rows) && tenant != "" && Reads(es, rows, tenant, stream, from) && Contiguous(es)
    requires Wanted(a, rows, tenant, stream, from) && Wanted(b, rows, tenant, stream, from)
    requires c in rows && c.streamId == stream && a.version < c.version < b.version
    ensures c.tenantId == tenant
  {
    assert a in es && b in es;
    var i :| 0 <= i < |es| && es[i] == a;
    var j :| 0 <= j < |es| && es[j] == b;
    var k := i + c.version - a.version;
    assert es[k] in es;
    SameRow(rows, es[k], c);
  }

  lemma ContiguousNotInterleaved(rows: seq<Event>, es: seq<Event>, tenant: string, stream: string, from: int)
    requires Unique(rows) && tenant != "" && Reads(es, rows, tenant, stream, from) && Contiguous(es)
    ensures !Interleaved(rows, tenant, stream, from)
  {
    if Interleaved(rows, tenant, stream, from) {
      var a, c, b :| a in rows && c in rows && b in rows
        && a.streamId == c.streamId == b.streamId == stream
        && a.tenantId == b.tenantId == tenant && c.tenantId != tenant
        && from <= a.version < c.version < b.version;
      SpannedIsOwn(rows, es, tenant, stream, from, a, c, b);
    }
  }

  /** A row with the version that a gap leaves out is somebody else's. */
  lemma GapIsForeign(rows: seq<Event>, es: seq<Event>, tenant: string, stream: string, from: int, i: nat, c: Event)
    requires tenant != "" && Reads(es, rows, tenant, stream, from)
    requires 1 <= i < |es| && es[i].version != es[i - 1].version + 1
    requires c in rows && c.streamId == stream && c.version == es[i - 1].version + 1
    ensures Interleaved(rows, tenant, stream, from)
  {
    var a, b := es[i - 1], es[i];
    assert a in es && b in es;
    forall k | 0 <= k < |es| ensures es[k] != c {
      assert k < i - 1 ==> es[k].version < a.version;
      assert k > i ==> b.version < es[k].version;
    }
    assert c !in es && !Wanted(c, rows, tenant, stream, from);
  }

  /** Below every version of a stream all the others are there. */
  ghost predicate Downward(rows: seq<Event>) {
    forall b, v: nat | b in rows && 1 <= v <= b.version :: HasVersion(rows, b.streamId, v)
  }

  lemma LedgerDownward(rows: seq<Event>)
    requires Ledger(rows)
    ensures Downward(rows)
  {
    forall b, v: nat | b in rows && 1 <= v <= b.version ensures HasVersion(rows, b.streamId, v) {
      assert HasVersion(rows, b.streamId, b.version);
      LedgerVersions(rows, b.streamId, b.version);
      LedgerVersions(rows, b.streamId, v);
    }
  }

  lemma GapMeansInterleaved(rows: seq<Event>, es: seq<Event>, tenant: string, stream: string, from: int)
    requires Downward(rows) && tenant != "" && Reads(es, rows, tenant, stream, from) && !Contiguous(es)
    ensures Interleaved(rows, tenant, stream, from)
  {
    NoJumpIffContiguous(es);
    var i: nat :| JumpAt(es, i);
    assert es[i - 1] in es && es[i] in es;
    var c := RowBelow(rows, es[i], es[i - 1].version + 1);
    GapIsForeign(rows, es, tenant, stream, from, i, c);
  }

  lemma RowBelow(rows: seq<Event>, b: Event, v: nat) returns (c: Event)
    requires Downward(rows) && b in rows && 1 <= v <= b.version
    ensures c in rows && c.streamId == b.streamId && c.version == v
  {
    assert HasVersion(rows, b.streamId, v);
    var n :| 0 <= n < |rows| && rows[n].streamId == b.streamId && rows[n].version == v;
    c := rows[n];
  }

  /** The exact condition: on a gap-free table replay fails for one reason only, that the stream is
      shared and another tenant's event sits between two of the caller's. */
  lemma ReplayableIff(rows: seq<Event>, tenant: string, stream: string, from: int)
    requires Ledger(rows) && Unique(rows) && tenant != ""
    ensures Replayable(rows, tenant, stream, from) <==> !Interleaved(rows, tenant, stream, from)
  {
    var es := Select(rows, tenant, stream, from);
    SelectReads(rows, tenant, stream, from);
    LedgerDownward(rows);
    if Contiguous(es) {
      ContiguousNotInterleaved(rows, es, tenant, stream, from);
    } else {
      GapMeansInterleaved(rows, es, tenant, stream, from);
    }
  }

  ghost predicate OnlyTenant(rows: seq<Event>, tenant: string, stream: string) {
    forall r | r in rows && r.streamId == stream :: r.tenantId == tenant
  }

  /** A stream of one tenant always replays, and gives exactly the versions max(from, 1) to n. */
  lemma SingleTenantReplays(rows: seq<Event>, tenant: string, stream: string, from: nat)
    requires Ledger(rows) && Unique(rows) && tenant != "" && OnlyTenant(rows, tenant, stream)
    ensures Replayable(rows, tenant, stream, from)
    ensures var es := Select(rows, tenant, stream, from);
            var first := if from == 0 then 1 else from;
            && |es| == (if first <= Count(rows, stream) then Count(rows, stream) - first + 1 else 0)
            && forall i | 0 <= i < |es| :: es[i].version == first + i && es[i].streamId == stream && es[i] in rows
  {
    var es := Select(rows, tenant, stream, from);
    ReplayableIff(rows, tenant, stream, from);
    SelectReads(rows, tenant, stream, from);
    SpansAll(rows, es, tenant, stream, from);
  }

  lemma SpansAll(rows: seq<Event>, es: seq<Event>, tenant: string, stream: string, from: nat)
    requires Ledger(rows) && OnlyTenant(rows, tenant, stream)
    requires Reads(es, rows, tenant, stream, from) && Contiguous(es)
    ensures var first := if from == 0 then 1 else from;
            && |es| == (if first <= Count(rows, stream) then Count(rows, stream) - first + 1 else 0)
            && forall i | 0 <= i < |es| :: es[i].version == first + i && es[i].streamId == stream && es[i] in rows
  {
    var first, n := if from == 0 then 1 else from, Count(rows, stream);
    if first <= n {
      VersionRead(rows, es, tenant, stream, from, first);
      VersionRead(rows, es, tenant, stream, from, n);
      assert es != [];
    }
    if es != [] {
      assert es[0] in es && es[|es| - 1] in es;
      VersionBounds(rows, es[0]);
      VersionBounds(rows, es[|es| - 1]);
    }
    assert forall i | 0 <= i < |es| :: es[i] in es;
  }

  lemma VersionBounds(rows: seq<Event>, e: Event)
    requires Ledger(rows) && e in rows
    ensures 1 <= e.version <= Count(rows, e.streamId)
  {
    assert HasVersion(rows, e.streamId, e.version);
    LedgerVersions(rows, e.streamId, e.version);
  }

  lemma VersionRead(rows: seq<Event>, es: seq<Event>, tenant: string, stream: string, from: nat, v: nat)
    requires Ledger(rows) && OnlyTenant(rows, tenant, stream) && Reads(es, rows, tenant, stream, from)
    requires from <= v && 1 <= v <= Count(rows, stream)
    ensures exists i :: 0 <= i < |es| && es[i].version == v
  {
    LedgerVersions(rows, stream, v);
    var i :| 0 <= i < |rows| && rows[i].streamId == stream && rows[i].version == v;
    assert rows[i] in es;
  }

  // ---- Replay is stable ----

  /** Reading from `j` is the part below `k` followed by reading from `k`. */
  lemma ReadSplits(rows: seq<Event>, tenant: string, stream: string, j: int, k: int)
    requires Unique(rows) && j <= k
    ensures exists low :: Select(rows, tenant, stream, j) == low + Select(rows, tenant, stream, k)
                          && forall e | e in low :: e.version < k
    ensures forall e | e in Select(rows, tenant, stream, k) :: e.version >= k
  {
    var s, hi := Matching(rows, tenant, stream, j), Matching(rows, tenant, stream, k);
    var lo := set r | r in s && r.version < k;
    MatchingOrdered(rows, tenant, stream, j);
    assert s == lo + hi;
    ArrangeSplit(ByVersion, lo, hi);
    SelectReads(rows, tenant, stream, k);
    ghost var low := Arrange(ByVersion, lo);
    forall e | e in low ensures e.version < k {
      assert e in lo;
    }
    assert Select(rows, tenant, stream, j) == low + Select(rows, tenant, stream, k);
  }

  lemma NewRowsComeAfter(rows: seq<Event>, later: seq<Event>, x: Event, y: Event)
    requires rows <= later && Ledger(later)
    requires x in rows && y in later && y !in rows && x.streamId == y.streamId
    ensures x.version < y.version
  {
    var i :| 0 <= i < |rows| && rows[i] == x;
    var j :| 0 <= j < |later| && later[j] == y;
    assert forall k | 0 <= k < |rows| :: rows[k] == later[k] && rows[k] in rows;
    assert j >= |rows|;
    LedgerAscends(later, i, j);
  }

  lemma PrefixUnique(rows: seq<Event>, later: seq<Event>)
    requires rows <= later && Unique(later)
    ensures Unique(rows)
    ensures forall e | e in rows :: e in later
  {
  }

  /** More rows only add to the end of what was read before. */
  lemma ReadOnlyExtends(rows: seq<Event>, later: seq<Event>, tenant: string, stream: string, from: int)
    requires rows <= later && Ledger(later) && Unique(later)
    ensures Unique(rows)
    ensures Select(rows, tenant, stream, from) <= Select(later, tenant, stream, from)
  {
    PrefixUnique(rows, later);
    var lo, s := Matching(rows, tenant, stream, from), Matching(later, tenant, stream, from);
    var hi := s - lo;
    MatchingOrdered(later, tenant, stream, from);
    forall x, y | x in lo && y in hi ensures ByVersion(x, y) {
      assert y !in rows;
      NewRowsComeAfter(rows, later, x, y);
    }
    assert s == lo + hi;
    ArrangeSplit(ByVersion, lo, hi);
  }
}
