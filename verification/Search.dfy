/** The read model: idempotent indexing, building a search, and what Elasticsearch makes of it. */
module Search {
  import opened Events
  import opened Ordering

  type Index = map<nat, Event>

  const NANOS_PER_MILLI := 1_000_000

  /** A document is stored under its own id. */
  ghost predicate Keyed(docs: Index) {
    forall id | id in docs :: docs[id].id == id
  }

  // ---- Indexing ----

  function IndexDoc(docs: Index, e: Event): Index {
    docs[e.id := e]
  }

  function IndexAll(docs: Index, es: seq<Event>): Index {
    if es == [] then docs else IndexDoc(IndexAll(docs, es[..|es| - 1]), es[|es| - 1])
  }

  ghost predicate SameIdSameEvent(events: set<Event>) {
    forall e, f | e in events && f in events && e.id == f.id :: e == f
  }

  /** `es` delivers each of `events` at least once and nothing else. */
  ghost predicate Delivers(es: seq<Event>, events: set<Event>) {
    forall e :: e in es <==> e in events
  }

  lemma {:induction false} IndexedDocs(es: seq<Event>, id: nat)
    ensures id in IndexAll(map[], es) <==> exists e :: e in es && e.id == id
    ensures id in IndexAll(map[], es) ==> IndexAll(map[], es)[id] in es && IndexAll(map[], es)[id].id == id
    decreases |es|
  {
    if es != [] {
      IndexedDocs(es[..|es| - 1], id);
      assert es == es[..|es| - 1] + [es[|es| - 1]];
    }
  }

  lemma SameDeliverySameIndex(es: seq<Event>, fs: seq<Event>, events: set<Event>)
    requires SameIdSameEvent(events) && Delivers(es, events) && Delivers(fs, events)
    ensures IndexAll(map[], es) == IndexAll(map[], fs)
  {
    var a, b := IndexAll(map[], es), IndexAll(map[], fs);
    forall id: nat ensures (id in a <==> id in b) && (id in a ==> a[id] == b[id]) {
      IndexedDocs(es, id);
      IndexedDocs(fs, id);
    }
    assert a.Keys == b.Keys;
  }

  lemma {:induction false} DeliveryExists(events: set<Event>) returns (es: seq<Event>)
    ensures Delivers(es, events)
    decreases |events|
  {
    if events == {} {
      es := [];
    } else {
      var e :| e in events;
      var rest := DeliveryExists(events - {e});
      es := rest + [e];
    }
  }

  lemma DeliveryEndingIn(events: set<Event>, e: Event) returns (es: seq<Event>)
    requires e in events
    ensures Delivers(es, events) && e.id in IndexAll(map[], es) && IndexAll(map[], es)[e.id] == e
  {
    var some := DeliveryExists(events);
    es := some + [e];
    assert es[..|es| - 1] == some;
  }

  /** Every order and every repetition of the same deliveries gives the same index, exactly when no two
      different events share an id. */
  lemma ConvergesIff(events: set<Event>)
    ensures (forall es, fs | Delivers(es, events) && Delivers(fs, events) :: IndexAll(map[], es) == IndexAll(map[], fs))
       <==> SameIdSameEvent(events)
  {
    if SameIdSameEvent(events) {
      forall es, fs | Delivers(es, events) && Delivers(fs, events) ensures IndexAll(map[], es) == IndexAll(map[], fs) {
        SameDeliverySameIndex(es, fs, events);
      }
    } else {
      var e, f :| e in events && f in events && e.id == f.id && e != f;
      var es := DeliveryEndingIn(events, e);
      var fs := DeliveryEndingIn(events, f);
      assert IndexAll(map[], es) != IndexAll(map[], fs);
    }
  }

  // ---- The request ----

  datatype SearchQuery = SearchQuery(tenantId: string, streamId: string, limit: int, offset: int, newestFirst: bool)

  datatype Field = TenantId | StreamId
  datatype Clause = Term(field: Field, value: string)
  datatype EsQuery = MatchAll | BoolFilter(filters: seq<Clause>)
  datatype SortField = Version | Id | OccurredAt
  datatype SortKey = SortKey(field: SortField, descending: bool)
  datatype Body = Body(query: EsQuery, sort: seq<SortKey>, from: int, size: int)

  // ---- What Elasticsearch makes of a request ----

  predicate Satisfies(c: Clause, e: Event) {
    match c.field
    case TenantId => e.tenantId == c.value
    case StreamId => e.streamId == c.value
  }

  predicate Matches(q: EsQuery, e: Event) {
    match q
    case MatchAll => true
    case BoolFilter(filters) => forall c | c in filters :: Satisfies(c, e)
  }

  /** What a `date` field sorts by: whole milliseconds. */
  function Millis(e: Event): int {
    e.content.occurredAt / NANOS_PER_MILLI
  }

  function Key(f: SortField, e: Event): int {
    match f
    case Version => e.version
    case Id => e.id
    case OccurredAt => Millis(e)
  }

  /** Sort clauses decide in the order they are listed. */
  predicate Precedes(sort: seq<SortKey>, a: Event, b: Event) {
    sort != [] &&
    var ka, kb := Key(sort[0].field, a), Key(sort[0].field, b);
    if ka == kb then Precedes(sort[1..], a, b)
    else if sort[0].descending then ka > kb else ka < kb
  }

  function Hits(docs: Index, body: Body): set<Event> {
    set id | id in docs && Matches(body.query, docs[id]) :: docs[id]
  }

  function Slice<T>(s: seq<T>, from: nat, size: nat): (r: seq<T>)
    ensures |r| <= size
    ensures forall i | 0 <= i < |r| :: from + i < |s| && r[i] == s[from + i]
    ensures forall i | 0 <= i < size && from + i < |s| :: i < |r| && r[i] == s[from + i]
  {
    if from >= |s| then []
    else if from + size <= |s| then s[from..from + size] else s[from..]
  }

  /** A request with a negative from or size is refused. The sorts in use leave no ties. */
  function Execute(docs: Index, body: Body): Result<(seq<Event>, nat)>
    requires Orders((a, b) => Precedes(body.sort, a, b), Hits(docs, body))
  {
    if body.from < 0 || body.size < 0 then Err(SearchFailure)
    else
      var order := Arrange((a, b) => Precedes(body.sort, a, b), Hits(docs, body));
      Ok((Slice(order, body.from, body.size), |order|))
  }

  // ---- What a search is for ----

  predicate ByVersionThenId(a: Event, b: Event) {
    a.version < b.version || (a.version == b.version && a.id < b.id)
  }

  /** By the millisecond, and by id within one. */
  predicate NewestFirst(a: Event, b: Event) {
    Millis(a) > Millis(b) || (Millis(a) == Millis(b) && a.id > b.id)
  }

  /** The documents of a tenant, of one stream when a stream is named. */
  function Visible(docs: Index, tenant: string, stream: string): set<Event> {
    set e | e in docs.Values && (tenant == "" || e.tenantId == tenant) && (stream == "" || e.streamId == stream)
  }

  lemma VisibleOrdered(docs: Index, tenant: string, stream: string)
    requires Keyed(docs)
    ensures Orders(ByVersionThenId, Visible(docs, tenant, stream))
    ensures Orders(NewestFirst, Visible(docs, tenant, stream))
  {
  }

  /** `r` is the visible documents in the order asked for. */
  ghost predicate IsFeed(r: seq<Event>, docs: Index, tenant: string, stream: string, newestFirst: bool) {
    && Lists(r, Visible(docs, tenant, stream))
    && Sorted(if newestFirst then NewestFirst else ByVersionThenId, r)
    && |r| == |Visible(docs, tenant, stream)|
  }

  lemma FeedExists(docs: Index, tenant: string, stream: string, newestFirst: bool)
    requires Keyed(docs)
    ensures exists r :: IsFeed(r, docs, tenant, stream, newestFirst)
  {
    VisibleOrdered(docs, tenant, stream);
    assert IsFeed(Arrange(if newestFirst then NewestFirst else ByVersionThenId, Visible(docs, tenant, stream)),
                  docs, tenant, stream, newestFirst);
  }

  /** All the events a search ranges over, in order. */
  ghost function Feed(docs: Index, tenant: string, stream: string, newestFirst: bool): (r: seq<Event>)
    requires Keyed(docs)
    ensures IsFeed(r, docs, tenant, stream, newestFirst)
  {
    FeedExists(docs, tenant, stream, newestFirst);
    var r :| IsFeed(r, docs, tenant, stream, newestFirst); r
  }

  lemma FeedIsOnly(docs: Index, tenant: string, stream: string, newestFirst: bool, q: seq<Event>)
    requires Keyed(docs)
    requires Lists(q, Visible(docs, tenant, stream)) && Sorted(if newestFirst then NewestFirst else ByVersionThenId, q)
    ensures q == Feed(docs, tenant, stream, newestFirst)
  {
    VisibleOrdered(docs, tenant, stream);
    SortedUnique(if newestFirst then NewestFirst else ByVersionThenId, Visible(docs, tenant, stream), q,
                 Feed(docs, tenant, stream, newestFirst));
  }

  /** With two clauses the second breaks the ties of the first. */
  lemma PrecedesTwo(k: SortKey, l: SortKey, a: Event, b: Event)
    ensures Precedes([k, l], a, b) <==>
      var ka, kb := Key(k.field, a), Key(k.field, b);
      if ka == kb then
        var la, lb := Key(l.field, a), Key(l.field, b);
        if l.descending then la > lb else la < lb
      else if k.descending then ka > kb else ka < kb
  {
    assert [k, l][1..] == [l] && [l][1..] == [];
    assert Precedes([l], a, b) <==>
      if Key(l.field, a) == Key(l.field, b) then false
      else if l.descending then Key(l.field, a) > Key(l.field, b) else Key(l.field, a) < Key(l.field, b);
  }

  /** The sort clauses mean the orders. */
  lemma SortMeans(a: Event, b: Event)
    ensures Precedes([SortKey(Version, false), SortKey(Id, false)], a, b) <==> ByVersionThenId(a, b)
    ensures Precedes([SortKey(OccurredAt, true), SortKey(Id, true)], a, b) <==> NewestFirst(a, b)
  {
    PrecedesTwo(SortKey(Version, false), SortKey(Id, false), a, b);
    PrecedesTwo(SortKey(OccurredAt, true), SortKey(Id, true), a, b);
  }

  /** The filters mean the scope: a clause is there only for a value that is not empty. */
  lemma FiltersMean(filters: seq<Clause>, tenant: string, stream: string, e: Event)
    requires forall c :: c in filters <==>
      (stream != "" && c == Term(StreamId, stream)) || (tenant != "" && c == Term(TenantId, tenant))
    ensures Matches(if |filters| == 0 then MatchAll else BoolFilter(filters), e) <==>
      (tenant == "" || e.tenantId == tenant) && (stream == "" || e.streamId == stream)
  {
    assert Satisfies(Term(StreamId, stream), e) <==> e.streamId == stream;
    assert Satisfies(Term(TenantId, tenant), e) <==> e.tenantId == tenant;
    if |filters| == 0 {
      assert Term(StreamId, stream) !in filters && Term(TenantId, tenant) !in filters;
    }
  }

  /** Equivalent orders arrange a set alike. */
  lemma SameOrderSameArrangement(f: (Event, Event) -> bool, g: (Event, Event) -> bool, s: set<Event>)
    requires Orders(g, s) && forall a, b :: f(a, b) <==> g(a, b)
    ensures Orders(f, s) && Arrange(f, s) == Arrange(g, s)
  {
    SortedUnique(g, s, Arrange(f, s), Arrange(g, s));
  }

  class Indexer {
    var docs: Index

    constructor ()
      ensures docs == map[]
    {
      docs := map[];
    }

    /** PUT under the event's id: creates or overwrites. */
    method PutDocument(e: Event, fate: CallFate) returns (ok: bool)
      modifies this
      ensures docs == if fate.NotApplied? then old(docs) else IndexDoc(old(docs), e)
      ensures ok <==> fate.Answered?
    {
      if !fate.NotApplied? {
        docs := docs[e.id := e];
      }
      ok := fate.Answered?;
    }

    /** `available` is whether the request and its answer get through. */
    method Search(q: SearchQuery, available: bool) returns (r: Result<(seq<Event>, nat)>)
      requires Keyed(docs)
      ensures r == if q.offset < 0 || q.limit < 0 || !available then Err(SearchFailure)
                   else var feed := Feed(docs, q.tenantId, q.streamId, q.newestFirst);
                        Ok((Slice(feed, q.offset, q.limit), |feed|))
    {
      var body := BuildRequest(q);
      RequestMeans(docs, q, body);
      if !available {
        return Err(SearchFailure);
      }
      var answer := Execute(docs, body);
      if answer.Err? {
        return Err(answer.error);
      }
      var events := Decode(answer.value.0);
      r := Ok((events, answer.value.1));
    }

    /** One document after another. */
    method Decode(hits: seq<Event>) returns (events: seq<Event>)
      ensures events == hits
    {
      events := [];
      for i := 0 to |hits|
        invariant events == hits[..i]
      {
        events := events + [hits[i]];
      }
      assert hits[..|hits|] == hits;
    }
  }

  /** The request selects the caller's scope and sorts by the order asked for. */
  ghost predicate Requests(q: SearchQuery, body: Body) {
    && body.from == q.offset && body.size == q.limit
    && (forall e :: Matches(body.query, e) <==>
          (q.tenantId == "" || e.tenantId == q.tenantId) && (q.streamId == "" || e.streamId == q.streamId))
    && (forall a, b :: Precedes(body.sort, a, b) <==>
          if q.newestFirst then NewestFirst(a, b) else ByVersionThenId(a, b))
  }

  method BuildRequest(q: SearchQuery) returns (body: Body)
    ensures Requests(q, body)
  {
    var filters: seq<Clause> := [];
    if q.streamId != "" {
      filters := filters + [Term(StreamId, q.streamId)];
    }
    if q.tenantId != "" {
      filters := filters + [Term(TenantId, q.tenantId)];
    }
    var query := if |filters| == 0 then MatchAll else BoolFilter(filters);
    var sort: seq<SortKey>;
    if q.newestFirst {
      sort := [SortKey(OccurredAt, true), SortKey(Id, true)];
    } else {
      sort := [SortKey(Version, false), SortKey(Id, false)];
    }
    forall e ensures Matches(query, e) <==>
      (q.tenantId == "" || e.tenantId == q.tenantId) && (q.streamId == "" || e.streamId == q.streamId)
    {
      FiltersMean(filters, q.tenantId, q.streamId, e);
    }
    forall a, b ensures Precedes(sort, a, b) <==> if q.newestFirst then NewestFirst(a, b) else ByVersionThenId(a, b) {
      SortMeans(a, b);
    }
    body := Body(query, sort, q.offset, q.limit);
  }

  /** Executing such a request is slicing the sorted scope, with the scope's size as the total. */
  lemma RequestMeans(docs: Index, q: SearchQuery, body: Body)
    requires Keyed(docs) && Requests(q, body)
    ensures Orders((a, b) => Precedes(body.sort, a, b), Hits(docs, body))
    ensures Execute(docs, body) ==
      if q.offset < 0 || q.limit < 0 then Err(SearchFailure)
      else var feed := Feed(docs, q.tenantId, q.streamId, q.newestFirst);
           Ok((Slice(feed, q.offset, q.limit), |feed|))
  {
    var visible := Visible(docs, q.tenantId, q.streamId);
    assert Hits(docs, body) == visible;
    VisibleOrdered(docs, q.tenantId, q.streamId);
    if q.newestFirst {
      SameOrderSameArrangement((a, b) => Precedes(body.sort, a, b), NewestFirst, visible);
      FeedIsOnly(docs, q.tenantId, q.streamId, true, Arrange(NewestFirst, visible));
    } else {
      SameOrderSameArrangement((a, b) => Precedes(body.sort, a, b), ByVersionThenId, visible);
      FeedIsOnly(docs, q.tenantId, q.streamId, false, Arrange(ByVersionThenId, visible));
    }
  }
}
