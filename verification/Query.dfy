/** Paged reading of the read model, one page and whole walks. */
module Query {
  import opened Events
  import opened Ordering
  import opened Search

  const DEFAULT_LIMIT := 20
  const MAX_LIMIT := 100

  datatype Page = Page(events: seq<Event>, total: nat, limit: int, offset: int)

  function Limit(asked: int): int {
    if asked <= 0 then DEFAULT_LIMIT else if asked > MAX_LIMIT then MAX_LIMIT else asked
  }

  /** The page a caller gets: `stream` is empty for the feed of all streams, which runs newest first. */
  ghost function PageOf(docs: Index, tenant: string, stream: string, limit: int, offset: int): Page
    requires Keyed(docs)
  {
    var feed := Feed(docs, tenant, stream, stream == "");
    var from: nat := if offset < 0 then 0 else offset;
    Page(Slice(feed, from, Limit(limit)), |feed|, Limit(limit), from)
  }

  class QueryService {
    const searcher: Indexer

    constructor (searcher: Indexer)
      ensures this.searcher == searcher
    {
      this.searcher := searcher;
    }

    method QueryByStream(tenant: string, stream: string, limit: int, offset: int, available: bool)
      returns (r: Result<Page>)
      requires Keyed(searcher.docs)
      ensures tenant == "" ==> r == Err(Unauthenticated)
      ensures tenant != "" && stream == "" ==> r == Err(Invalid)
      ensures tenant != "" && stream != "" ==>
        r == if available then Ok(PageOf(searcher.docs, tenant, stream, limit, offset)) else Err(SearchFailure)
    {
      if tenant == "" { return Err(Unauthenticated); }
      if stream == "" { return Err(Invalid); }
      var size, from := limit, offset;
      if size <= 0 { size := DEFAULT_LIMIT; }
      if size > MAX_LIMIT { size := MAX_LIMIT; }
      if from < 0 { from := 0; }
      var found := searcher.Search(SearchQuery(tenant, stream, size, from, false), available);
      if found.Err? { return Err(found.error); }
      r := Ok(Page(found.value.0, found.value.1, size, from));
    }

    method ListAll(tenant: string, limit: int, offset: int, available: bool) returns (r: Result<Page>)
      requires Keyed(searcher.docs)
      ensures tenant == "" ==> r == Err(Unauthenticated)
      ensures tenant != "" ==>
        r == if available then Ok(PageOf(searcher.docs, tenant, "", limit, offset)) else Err(SearchFailure)
    {
      if tenant == "" { return Err(Unauthenticated); }
      var size, from := limit, offset;
      if size <= 0 { size := DEFAULT_LIMIT; }
      if size > MAX_LIMIT { size := MAX_LIMIT; }
      if from < 0 { from := 0; }
      var found := searcher.Search(SearchQuery(tenant, "", size, from, true), available);
      if found.Err? { return Err(found.error); }
      r := Ok(Page(found.value.0, found.value.1, size, from));
    }
  }

  // ---- What a page may hold ----

  /** A page holds events of the caller's tenant only, and of the stream asked for; it has the size asked
      for, 20 when that is not positive and 100 when it is more; and a page of a stream ascends. */
  lemma PageIsScoped(docs: Index, tenant: string, stream: string, limit: int, offset: int)
    requires Keyed(docs) && tenant != ""
    ensures var p := PageOf(docs, tenant, stream, limit, offset);
      && |p.events| <= p.limit <= 100
      && p.limit == (if limit <= 0 then 20 else if limit <= 100 then limit else 100)
      && p.offset == (if offset < 0 then 0 else offset)
      && (forall e | e in p.events ::
            e in docs.Values && e.tenantId == tenant && (stream == "" || e.streamId == stream))
      && (stream != "" ==> forall i, j | 0 <= i < j < |p.events| :: ByVersionThenId(p.events[i], p.events[j]))
  {
    var feed := Feed(docs, tenant, stream, stream == "");
    var from: nat := if offset < 0 then 0 else offset;
    assert forall e | e in feed :: e in Visible(docs, tenant, stream);
    SliceMembers(feed, from, Limit(limit));
    if stream != "" {
      SliceSorted(ByVersionThenId, feed, from, Limit(limit));
    }
  }

  /** The feed of all streams in terms of time alone. Nobody on a page comes a millisecond or more before
      somebody listed later; within one millisecond the greater id is listed first. */
  lemma FeedRunsNewestFirst(docs: Index, tenant: string, limit: int, offset: int)
    requires Keyed(docs)
    ensures var es := PageOf(docs, tenant, "", limit, offset).events;
      && (forall i, j | 0 <= i < j < |es| ::
            es[j].content.occurredAt < es[i].content.occurredAt + 1_000_000)
      && (forall i, j | 0 <= i < j < |es| &&
                        es[i].content.occurredAt / 1_000_000 == es[j].content.occurredAt / 1_000_000 ::
            es[i].id > es[j].id)
  {
    var feed := Feed(docs, tenant, "", true);
    PageIsSliceAt(docs, tenant, "", limit, offset);
    var from: nat := if offset < 0 then 0 else offset;
    SliceSorted(NewestFirst, feed, from, Limit(limit));
    var es := PageOf(docs, tenant, "", limit, offset).events;
    forall i, j | 0 <= i < j < |es|
      ensures es[j].content.occurredAt < es[i].content.occurredAt + 1_000_000
      ensures es[i].content.occurredAt / 1_000_000 == es[j].content.occurredAt / 1_000_000 ==> es[i].id > es[j].id
    {
      NewerFirst(es[i], es[j]);
    }
  }

  lemma NewerFirst(a: Event, b: Event)
    requires NewestFirst(a, b)
    ensures b.content.occurredAt < a.content.occurredAt + 1_000_000
    ensures a.content.occurredAt / 1_000_000 == b.content.occurredAt / 1_000_000 ==> a.id > b.id
  {
  }

  lemma PageIsSliceAt(docs: Index, tenant: string, stream: string, limit: int, offset: int)
    requires Keyed(docs)
    ensures var from: nat := if offset < 0 then 0 else offset;
      PageOf(docs, tenant, stream, limit, offset).events
        == Slice(Feed(docs, tenant, stream, stream == ""), from, Limit(limit))
  {
  }

  /** Of two events of a tenant a millisecond or more apart, the newer one is listed earlier. */
  lemma NewerIsEarlier(docs: Index, tenant: string, i: nat, j: nat)
    requires Keyed(docs)
    requires var feed := Feed(docs, tenant, "", true);
      && i < |feed| && j < |feed|
      && feed[i].content.occurredAt >= feed[j].content.occurredAt + 1_000_000
    ensures i < j
  {
    var feed := Feed(docs, tenant, "", true);
    if j < i {
      NewerFirst(feed[j], feed[i]);
    }
  }

  /** The documents a caller may see. */
  ghost function Scope(docs: Index, tenant: string, stream: string): set<Event> {
    set e | e in docs.Values && e.tenantId == tenant && (stream == "" || e.streamId == stream)
  }

  /** The feed holds all of them, each once, and nothing else. */
  lemma FeedIsScope(docs: Index, tenant: string, stream: string)
    requires Keyed(docs) && tenant != ""
    ensures var feed := Feed(docs, tenant, stream, stream == ""); var all := Scope(docs, tenant, stream);
            |feed| == |all| && Lists(feed, all)
  {
    assert Scope(docs, tenant, stream) == Visible(docs, tenant, stream);
  }

  lemma SliceSize<T>(s: seq<T>, from: nat, size: nat)
    ensures |Slice(s, from, size)| == if from >= |s| then 0 else if from + size <= |s| then size else |s| - from
    ensures forall i | 0 <= i < |Slice(s, from, size)| :: from + i < |s| && Slice(s, from, size)[i] == s[from + i]
  {
  }

  lemma PageFields(docs: Index, tenant: string, stream: string, limit: int, offset: int)
    requires Keyed(docs)
    ensures var p := PageOf(docs, tenant, stream, limit, offset);
            var feed := Feed(docs, tenant, stream, stream == "");
      && 0 <= p.offset && 0 < p.limit
      && p.total == |feed| && p.events == Slice(feed, p.offset, p.limit)
  {
  }

  /** A page tells how many documents there are for the caller; it is full as far as they reach, and holds just
      those from its offset on. */
  lemma PageCounts(docs: Index, tenant: string, stream: string, limit: int, offset: int)
    requires Keyed(docs) && tenant != ""
    ensures var p := PageOf(docs, tenant, stream, limit, offset);
            var n := |Scope(docs, tenant, stream)|;
      && p.total == n
      && |p.events| == if p.offset >= n then 0 else if p.offset + p.limit <= n then p.limit else n - p.offset
    ensures var p := PageOf(docs, tenant, stream, limit, offset);
            var feed := Feed(docs, tenant, stream, stream == "");
      forall i | 0 <= i < |p.events| :: 0 <= p.offset + i < |feed| && p.events[i] == feed[p.offset + i]
  {
    var p, feed := PageOf(docs, tenant, stream, limit, offset), Feed(docs, tenant, stream, stream == "");
    FeedIsScope(docs, tenant, stream);
    PageFields(docs, tenant, stream, limit, offset);
    SliceSize(feed, p.offset, p.limit);
  }

  lemma SliceMembers<T>(s: seq<T>, from: nat, size: nat)
    ensures forall x | x in Slice(s, from, size) :: x in s
  {
  }

  lemma SliceSorted(less: (Event, Event) -> bool, s: seq<Event>, from: nat, size: nat)
    requires Sorted(less, s)
    ensures forall i, j | 0 <= i < j < |Slice(s, from, size)| :: less(Slice(s, from, size)[i], Slice(s, from, size)[j])
  {
  }

  lemma SliceThenRest<T>(s: seq<T>, from: nat, size: nat)
    requires from <= |s|
    ensures Slice(s, from, size) + (if from + size <= |s| then s[from + size..] else []) == s[from..]
  {
  }

  // ---- Walking an index that does not change ----

  /** Pages from `offset` on, each starting where the last one ended, until the offset reaches the total. */
  ghost function Walk(docs: Index, tenant: string, stream: string, limit: int, offset: nat): seq<Event>
    requires Keyed(docs)
    decreases |Visible(docs, tenant, stream)| - offset
  {
    var p := PageOf(docs, tenant, stream, limit, offset);
    if offset >= p.total then [] else p.events + Walk(docs, tenant, stream, limit, offset + p.limit)
  }

  lemma PageIsSlice(docs: Index, tenant: string, stream: string, limit: int, offset: nat)
    requires Keyed(docs)
    ensures var p := PageOf(docs, tenant, stream, limit, offset);
            var feed := Feed(docs, tenant, stream, stream == "");
            p == Page(Slice(feed, offset, Limit(limit)), |feed|, Limit(limit), offset)
  {
  }

  /** The same on a list. */
  ghost function Pages(feed: seq<Event>, size: nat, offset: nat): seq<Event>
    requires size > 0
    decreases |feed| - offset
  {
    if offset >= |feed| then [] else Slice(feed, offset, size) + Pages(feed, size, offset + size)
  }

  lemma {:induction false} PagesAreRest(feed: seq<Event>, size: nat, offset: nat)
    requires size > 0
    ensures Pages(feed, size, offset) == if offset <= |feed| then feed[offset..] else []
    decreases |feed| - offset
  {
    if offset < |feed| {
      PagesAreRest(feed, size, offset + size);
      SliceThenRest(feed, offset, size);
    }
  }

  lemma WalkUnfolds(docs: Index, tenant: string, stream: string, limit: int, feed: seq<Event>, offset: nat)
    requires Keyed(docs) && feed == Feed(docs, tenant, stream, stream == "")
    ensures Walk(docs, tenant, stream, limit, offset) ==
      if offset >= |feed| then []
      else Slice(feed, offset, Limit(limit)) + Walk(docs, tenant, stream, limit, offset + Limit(limit))
  {
    PageIsSlice(docs, tenant, stream, limit, offset);
  }

  lemma {:induction false} WalkIsPages(docs: Index, tenant: string, stream: string, limit: int, feed: seq<Event>,
                                       offset: nat)
    requires Keyed(docs) && feed == Feed(docs, tenant, stream, stream == "")
    ensures Walk(docs, tenant, stream, limit, offset) == Pages(feed, Limit(limit), offset)
    decreases |feed| - offset
  {
    WalkUnfolds(docs, tenant, stream, limit, feed, offset);
    if offset < |feed| {
      WalkIsPages(docs, tenant, stream, limit, feed, offset + Limit(limit));
    }
  }

  /** With no change during the walk, it returns each event exactly once, in order. */
  lemma WholeWalk(docs: Index, tenant: string, stream: string, limit: int)
    requires Keyed(docs)
    ensures Walk(docs, tenant, stream, limit, 0) == Feed(docs, tenant, stream, stream == "")
    ensures NoRepeats(Walk(docs, tenant, stream, limit, 0))
  {
    WalkIsPages(docs, tenant, stream, limit, Feed(docs, tenant, stream, stream == ""), 0);
    PagesAreRest(Feed(docs, tenant, stream, stream == ""), Limit(limit), 0);
    FeedHasNoRepeats(docs, tenant, stream);
  }

  ghost predicate NoRepeats(q: seq<Event>) {
    forall i, j | 0 <= i < j < |q| :: q[i] != q[j]
  }

  lemma FeedHasNoRepeats(docs: Index, tenant: string, stream: string)
    requires Keyed(docs)
    ensures NoRepeats(Feed(docs, tenant, stream, stream == ""))
  {
  }

  /** Where a caller gets to who starts at 0 and adds `step` each time. */
  ghost predicate IsStride(from: nat, step: nat)
    requires step > 0
  {
    from == 0 || (from >= step && IsStride(from - step, step))
  }

  lemma {:induction false} SomeStride(i: nat, step: nat) returns (from: nat)
    requires step > 0
    ensures IsStride(from, step) && from <= i < from + step
    decreases i
  {
    if i < step {
      from := 0;
    } else {
      from := SomeStride(i - step, step);
      from := from + step;
    }
  }

  lemma SliceHolds<T>(s: seq<T>, from: nat, size: nat, i: nat)
    requires from <= i < from + size && i < |s|
    ensures s[i] in Slice(s, from, size)
  {
  }

  lemma SliceOmits(q: seq<Event>, from: nat, size: nat, i: nat)
    requires NoRepeats(q) && i < |q| && !(from <= i < from + size)
    ensures q[i] !in Slice(q, from, size)
  {
  }

  /** Some page of a caller who asks for `asked` events and adds `asked` each time holds the event. */
  ghost predicate OnSomePage(docs: Index, tenant: string, stream: string, asked: nat, e: Event)
    requires Keyed(docs) && asked > 0
  {
    exists from: nat {:trigger PageOf(docs, tenant, stream, asked, from)} ::
      IsStride(from, asked) && e in PageOf(docs, tenant, stream, asked, from).events
  }

  lemma SteppingFinds(docs: Index, tenant: string, stream: string, asked: nat, e: Event)
    requires Keyed(docs) && e in Visible(docs, tenant, stream)
    requires asked > 0 && (asked <= 100 || |Visible(docs, tenant, stream)| <= 100)
    ensures OnSomePage(docs, tenant, stream, asked, e)
  {
    var feed := Feed(docs, tenant, stream, stream == "");
    assert e in feed;
    var i :| 0 <= i < |feed| && feed[i] == e;
    var from := 0;
    if asked <= 100 {
      from := SomeStride(i, asked);
    }
    SliceHolds(feed, from, Limit(asked), i);
    PageIsSlice(docs, tenant, stream, asked, from);
  }

  lemma SteppingMisses(docs: Index, tenant: string, stream: string, asked: nat)
    requires Keyed(docs) && asked > 100 && |Visible(docs, tenant, stream)| > 100
    ensures exists e :: e in Visible(docs, tenant, stream) && !OnSomePage(docs, tenant, stream, asked, e)
  {
    var feed := Feed(docs, tenant, stream, stream == "");
    FeedHasNoRepeats(docs, tenant, stream);
    var e := feed[100];
    forall from: nat | IsStride(from, asked) ensures e !in PageOf(docs, tenant, stream, asked, from).events {
      PageIsSlice(docs, tenant, stream, asked, from);
      SliceOmits(feed, from, Limit(asked), 100);
    }
    assert e in feed;
  }

  /** A caller who steps by the limit asked for, not by the limit the page reports, sees everything
      exactly when the limit is one the service grants or the first page of 100 already holds it all. */
  lemma SteppingByAskedIff(docs: Index, tenant: string, stream: string, asked: nat)
    requires Keyed(docs) && asked > 0
    ensures (forall e | e in Visible(docs, tenant, stream) :: OnSomePage(docs, tenant, stream, asked, e))
       <==> asked <= 100 || |Visible(docs, tenant, stream)| <= 100
  {
    if asked <= 100 || |Visible(docs, tenant, stream)| <= 100 {
      forall e | e in Visible(docs, tenant, stream) ensures OnSomePage(docs, tenant, stream, asked, e) {
        SteppingFinds(docs, tenant, stream, asked, e);
      }
    } else {
      SteppingMisses(docs, tenant, stream, asked);
    }
  }

  // ---- Walking an index that grows ----

  /** Documents are added and overwritten with themselves; none changes or disappears. */
  ghost predicate Follows(older: Index, newer: Index) {
    forall id | id in older :: id in newer && newer[id] == older[id]
  }

  /** Views of one index, each of which follows the one before. */
  ghost predicate Grows(views: seq<Index>) {
    views != [] ==>
      && Keyed(views[0])
      && Grows(views[1..])
      && (|views| > 1 ==> Follows(views[0], views[1]))
  }

  /** A document's rank can only go up. */
  lemma RankGrows(older: Index, newer: Index, tenant: string, stream: string, e: Event)
    requires Keyed(older) && Keyed(newer)
    requires Follows(older, newer)
    requires e in Visible(older, tenant, stream)
    ensures e in Visible(newer, tenant, stream)
    ensures Rank(older, tenant, stream, e) <= Rank(newer, tenant, stream, e)
  {
    var s, t := Visible(older, tenant, stream), Visible(newer, tenant, stream);
    forall x | x in s ensures x in t {
      var id :| id in older && older[id] == x;
      assert newer[id] == x;
    }
    var less := if stream == "" then NewestFirst else ByVersionThenId;
    SubsetSize(Below(less, s, e), Below(less, t, e));
  }

  lemma SubsetSize<T>(a: set<T>, b: set<T>)
    requires a <= b
    ensures |a| <= |b|
  {
    assert b == a + (b - a);
  }

  ghost function Rank(docs: Index, tenant: string, stream: string, e: Event): nat {
    |Below(if stream == "" then NewestFirst else ByVersionThenId, Visible(docs, tenant, stream), e)|
  }

  lemma AtItsRank(docs: Index, tenant: string, stream: string, e: Event)
    requires Keyed(docs) && e in Visible(docs, tenant, stream)
    ensures Rank(docs, tenant, stream, e) < |Feed(docs, tenant, stream, stream == "")|
    ensures Feed(docs, tenant, stream, stream == "")[Rank(docs, tenant, stream, e)] == e
  {
    var less := if stream == "" then NewestFirst else ByVersionThenId;
    VisibleOrdered(docs, tenant, stream);
    RankIsPlace(less, Visible(docs, tenant, stream), e);
    FeedIsOnly(docs, tenant, stream, stream == "", Arrange(less, Visible(docs, tenant, stream)));
  }

  /** Not on this page and not before it: then, on a later view, not before the next page. */
  lemma StillBeyond(older: Index, newer: Index, tenant: string, stream: string, limit: int, offset: nat, e: Event)
    requires Keyed(older) && Keyed(newer)
    requires Follows(older, newer)
    requires e in Visible(older, tenant, stream) && Rank(older, tenant, stream, e) >= offset
    requires e !in PageOf(older, tenant, stream, limit, offset).events
    ensures e in Visible(newer, tenant, stream)
    ensures Rank(newer, tenant, stream, e) >= offset + Limit(limit)
  {
    RankGrows(older, newer, tenant, stream, e);
    AtItsRank(older, tenant, stream, e);
    PageIsSlice(older, tenant, stream, limit, offset);
    if Rank(older, tenant, stream, e) < offset + Limit(limit) {
      SliceHolds(Feed(older, tenant, stream, stream == ""), offset, Limit(limit), Rank(older, tenant, stream, e));
    }
  }

  /** All that a walk returns whose pages, from `offset` on, are read from one view each. */
  ghost function WalkViews(views: seq<Index>, tenant: string, stream: string, limit: int, offset: nat): seq<Event>
    requires Grows(views)
  {
    if views == [] then []
    else PageOf(views[0], tenant, stream, limit, offset).events
         + WalkViews(views[1..], tenant, stream, limit, offset + Limit(limit))
  }

  /** The last page of the walk starts at or beyond the total it reports. */
  ghost predicate Ended(views: seq<Index>, tenant: string, stream: string, limit: int, offset: nat)
    requires Grows(views)
  {
    && views != []
    && if |views| == 1 then offset >= PageOf(views[0], tenant, stream, limit, offset).total
       else Ended(views[1..], tenant, stream, limit, offset + Limit(limit))
  }

  /** A walk that has not come to its end has another view. */
  lemma EndIsLater(views: seq<Index>, tenant: string, stream: string, limit: int, offset: nat)
    requires Grows(views) && Ended(views, tenant, stream, limit, offset)
    requires offset < PageOf(views[0], tenant, stream, limit, offset).total
    ensures |views| > 1
    ensures Grows(views[1..]) && Ended(views[1..], tenant, stream, limit, offset + Limit(limit))
  {
  }

  lemma NextFollows(views: seq<Index>)
    requires Grows(views) && |views| > 1
    ensures Keyed(views[0]) && Keyed(views[1]) && Follows(views[0], views[1])
  {
    assert views[1..][0] == views[1];
  }

  /** A walk is its first page and the walk over what comes after. */
  lemma FirstOrLater(views: seq<Index>, tenant: string, stream: string, limit: int, offset: nat, e: Event)
    requires Grows(views) && views != []
    ensures e in WalkViews(views, tenant, stream, limit, offset)
       <==> || e in PageOf(views[0], tenant, stream, limit, offset).events
            || e in WalkViews(views[1..], tenant, stream, limit, offset + Limit(limit))
  {
    InConcat(PageOf(views[0], tenant, stream, limit, offset).events,
             WalkViews(views[1..], tenant, stream, limit, offset + Limit(limit)), e);
  }

  lemma InConcat<T>(a: seq<T>, b: seq<T>, x: T)
    ensures x in a + b <==> x in a || x in b
  {
  }

  lemma {:induction false} WalkFindsAhead(views: seq<Index>, tenant: string, stream: string, limit: int, offset: nat,
                                          e: Event)
    requires Grows(views) && Ended(views, tenant, stream, limit, offset)
    requires e in Visible(views[0], tenant, stream) && Rank(views[0], tenant, stream, e) >= offset
    ensures e in WalkViews(views, tenant, stream, limit, offset)
    decreases |views|
  {
    AheadIsBelowTotal(views[0], tenant, stream, limit, offset, e);
    EndIsLater(views, tenant, stream, limit, offset);
    FirstOrLater(views, tenant, stream, limit, offset, e);
    if e !in PageOf(views[0], tenant, stream, limit, offset).events {
      NextFollows(views);
      StillBeyond(views[0], views[1], tenant, stream, limit, offset, e);
      assert views[1..][0] == views[1];
      WalkFindsAhead(views[1..], tenant, stream, limit, offset + Limit(limit), e);
    }
  }

  lemma AheadIsBelowTotal(docs: Index, tenant: string, stream: string, limit: int, offset: nat, e: Event)
    requires Keyed(docs) && e in Visible(docs, tenant, stream) && Rank(docs, tenant, stream, e) >= offset
    ensures offset < PageOf(docs, tenant, stream, limit, offset).total
  {
    AtItsRank(docs, tenant, stream, e);
  }

  /** A walk whose pages are read one after another while the index grows, and which stops at a page
      whose offset has reached the total, returns every document that was there when it began. */
  lemma WalkSkipsNothing(views: seq<Index>, tenant: string, stream: string, limit: int)
    requires Grows(views) && Ended(views, tenant, stream, limit, 0)
    ensures forall e | e in Visible(views[0], tenant, stream) :: e in WalkViews(views, tenant, stream, limit, 0)
  {
    forall e | e in Visible(views[0], tenant, stream) ensures e in WalkViews(views, tenant, stream, limit, 0) {
      WalkFindsAhead(views, tenant, stream, limit, 0, e);
    }
  }
}
