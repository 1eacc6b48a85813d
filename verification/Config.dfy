/** KAFKA_TOPIC_ROUTES: the parser, the text it reads back, and the topic names that have defaults. */
module Config {
  import opened Events

  // ---- The string operations the parser is built from ----

  /** strings.Index for one character; the length when it is absent. */
  function IndexOf(s: string, c: char): (i: nat)
    ensures i <= |s|
    ensures i < |s| ==> s[i] == c
  {
    if s == "" || s[0] == c then 0 else 1 + IndexOf(s[1..], c)
  }

  /** It is the first such character, and nothing else is. */
  lemma {:induction false} IndexIsFirst(s: string, c: char)
    ensures forall k | 0 <= k < IndexOf(s, c) :: s[k] != c
    decreases |s|
  {
    if s != "" && s[0] != c {
      IndexIsFirst(s[1..], c);
      assert forall k | 0 < k < |s| :: s[k] == s[1..][k - 1];
    }
  }

  lemma FirstIsIndex(s: string, c: char, i: nat)
    requires i <= |s| && (i < |s| ==> s[i] == c) && forall k | 0 <= k < i :: s[k] != c
    ensures IndexOf(s, c) == i
  {
    IndexIsFirst(s, c);
  }

  /** strings.Split for one character. */
  function Split(s: string, c: char): seq<string>
    decreases |s|
  {
    var i := IndexOf(s, c);
    if i == |s| then [s] else [s[..i]] + Split(s[i + 1..], c)
  }

  lemma {:induction false} SplitPieces(s: string, c: char)
    ensures forall p | p in Split(s, c) :: c !in p
    decreases |s|
  {
    var i := IndexOf(s, c);
    IndexIsFirst(s, c);
    if i < |s| {
      SplitPieces(s[i + 1..], c);
    }
  }

  /** unicode.IsSpace. */
  predicate IsSpace(c: char) {
    || '\t' <= c <= '\r' || c == ' ' || c == '\U{85}' || c == '\U{A0}' || c == '\U{1680}'
    || '\U{2000}' <= c <= '\U{200A}' || c == '\U{2028}' || c == '\U{2029}'
    || c == '\U{202F}' || c == '\U{205F}' || c == '\U{3000}'
  }

  /** strings.TrimSpace. */
  function TrimSpace(s: string): (t: string)
    ensures t != "" ==> !IsSpace(t[0]) && !IsSpace(t[|t| - 1])
    ensures forall c | c in t :: c in s
    decreases |s|
  {
    if s != "" && IsSpace(s[0]) then TrimSpace(s[1..])
    else if s != "" && IsSpace(s[|s| - 1]) then TrimSpace(s[..|s| - 1])
    else s
  }

  ghost predicate Spaces(s: string) {
    forall c | c in s :: IsSpace(c)
  }

  lemma AsciiSpace(c: char)
    requires c as int < 128
    ensures IsSpace(c) <==> 9 <= c as int <= 13 || c as int == 32
  {
  }

  lemma MoreSpaces(c: char, s: string)
    requires IsSpace(c)
    ensures Spaces([c] + s) <==> Spaces(s)
    ensures Spaces(s + [c]) <==> Spaces(s)
  {
    assert forall d | d in s :: d in [c] + s && d in s + [c];
  }

  lemma TrimFront(c: char, s: string)
    requires IsSpace(c)
    ensures TrimSpace([c] + s) == TrimSpace(s)
  {
    assert ([c] + s)[1..] == s;
  }

  lemma {:induction false} TrimBack(s: string, c: char)
    requires IsSpace(c)
    ensures TrimSpace(s + [c]) == TrimSpace(s)
    decreases |s|
  {
    assert (s + [c])[..|s|] == s;
    if s != "" && IsSpace(s[0]) {
      assert (s + [c])[1..] == s[1..] + [c];
      TrimBack(s[1..], c);
    } else if s == "" {
      assert (s + [c])[1..] == "";
    }
  }

  lemma TrimDone(s: string)
    requires s != "" ==> !IsSpace(s[0]) && !IsSpace(s[|s| - 1])
    ensures TrimSpace(s) == s
  {
  }

  lemma {:induction false} TrimLeft(l: string, s: string)
    requires Spaces(l)
    ensures TrimSpace(l + s) == TrimSpace(s)
    decreases |l|
  {
    if l == "" {
      assert l + s == s;
    } else {
      assert l[0] in l;
      assert l + s == [l[0]] + (l[1..] + s);
      TrimFront(l[0], l[1..] + s);
      assert forall c | c in l[1..] :: c in l;
      TrimLeft(l[1..], s);
    }
  }

  lemma {:induction false} TrimRight(s: string, r: string)
    requires Spaces(r)
    ensures TrimSpace(s + r) == TrimSpace(s)
    decreases |r|
  {
    if r == "" {
      assert s + r == s;
    } else {
      var n := |r| - 1;
      assert r[n] in r;
      assert s + r == (s + r[..n]) + [r[n]];
      TrimBack(s + r[..n], r[n]);
      assert forall c | c in r[..n] :: c in r;
      TrimRight(s, r[..n]);
    }
  }

  /** What is between the outer spaces stays. */
  lemma TrimKeeps(l: string, t: string, r: string)
    requires Spaces(l) && Spaces(r) && (t != "" ==> !IsSpace(t[0]) && !IsSpace(t[|t| - 1]))
    ensures TrimSpace(l + t + r) == t
  {
    TrimRight(l + t, r);
    TrimLeft(l, t);
    TrimDone(t);
  }

  lemma MoreAround(s: string, c: char, l: string, t: string, r: string)
    requires s == l + t + r
    ensures [c] + s == ([c] + l) + t + r
    ensures s + [c] == l + t + (r + [c])
  {
  }

  /** And only the outer spaces go. */
  lemma {:induction false} TrimSplits(s: string) returns (l: string, r: string)
    ensures Spaces(l) && Spaces(r) && s == l + TrimSpace(s) + r
    decreases |s|
  {
    l, r := "", "";
    if s != "" && IsSpace(s[0]) {
      var rest := s[1..];
      assert s == [s[0]] + rest;
      l, r := TrimSplits(rest);
      TrimFront(s[0], rest);
      MoreSpaces(s[0], l);
      MoreAround(rest, s[0], l, TrimSpace(rest), r);
      l := [s[0]] + l;
    } else if s != "" && IsSpace(s[|s| - 1]) {
      var n := |s| - 1;
      var rest := s[..n];
      assert s == rest + [s[n]];
      l, r := TrimSplits(rest);
      TrimBack(rest, s[n]);
      MoreSpaces(s[n], r);
      MoreAround(rest, s[n], l, TrimSpace(rest), r);
      r := r + [s[n]];
    } else {
      TrimDone(s);
    }
  }

  // ---- The parser ----

  /** strings.SplitN(pair, ":", 2) with both halves non-empty. */
  function ParsePair(pair: string): Option<(string, string)> {
    var t := TrimSpace(pair);
    var i := IndexOf(t, ':');
    if 0 < i && i + 1 < |t| then Some((t[..i], t[i + 1..])) else None
  }

  function AddPair(routes: map<string, string>, pair: string): map<string, string> {
    var p := ParsePair(pair);
    if p.Some? then routes[p.value.0 := p.value.1] else routes
  }

  function AddPairs(routes: map<string, string>, pairs: seq<string>): map<string, string> {
    if pairs == [] then routes else AddPair(AddPairs(routes, pairs[..|pairs| - 1]), pairs[|pairs| - 1])
  }

  function Routes(raw: string): map<string, string> {
    AddPairs(map[], Split(raw, ','))
  }

  method ParseTopicRoutes(raw: string) returns (routes: map<string, string>)
    ensures routes == Routes(raw)
  {
    routes := map[];
    if raw == "" {
      assert Split(raw, ',') == [""];
      assert ParsePair("") == None;
      assert AddPairs(map[], [""]) == AddPair(AddPairs(map[], []), "");
      return;
    }
    var pairs := Split(raw, ',');
    for i := 0 to |pairs|
      invariant routes == AddPairs(map[], pairs[..i])
    {
      assert pairs[..i + 1][..i] == pairs[..i];
      var parts := ParsePair(pairs[i]);
      if parts.Some? {
        routes := routes[parts.value.0 := parts.value.1];
      }
    }
    assert pairs[..|pairs|] == pairs;
  }

  /** getEnv: an empty variable is as good as none. */
  function GetEnv(value: string, fallback: string): string {
    if value != "" then value else fallback
  }

  /** The topic `Load` takes from KAFKA_TOPIC. */
  function MainTopic(kafkaTopic: string): string {
    GetEnv(kafkaTopic, "events.v1")
  }

  /** DLQTopicName. */
  function DlqTopicName(topic: string, dlqTopic: string): string {
    if dlqTopic != "" then dlqTopic else topic + ".dlq"
  }

  // ---- Two texts joined by a comma ----

  lemma IndexInJoined(a: string, b: string, c: char)
    ensures IndexOf(a + [c] + b, c) == IndexOf(a, c)
  {
    var s := a + [c] + b;
    assert s[|a|] == c;
    assert forall k | 0 <= k < |a| :: s[k] == a[k];
    IndexIsFirst(a, c);
    FirstIsIndex(s, c, IndexOf(a, c));
  }

  lemma JoinedParts(a: string, b: string, c: char, s: string, i: nat, tail: string)
    requires s == a + [c] + b && i <= |a|
    requires tail == if i == |a| then b else a[i + 1..] + [c] + b
    ensures s[..i] == a[..i] && s[i + 1..] == tail
  {
  }

  lemma SplitAt(s: string, c: char, i: nat, head: string, tail: string)
    requires IndexOf(s, c) == i < |s| && s[..i] == head && s[i + 1..] == tail
    ensures Split(s, c) == [head] + Split(tail, c)
  {
  }

  /** The first piece of a joined text `s`, and what is left of it. */
  lemma JoinedFirst(a: string, b: string, c: char, s: string, i: nat, tail: string)
    requires s == a + [c] + b && i == IndexOf(a, c)
    requires tail == if i == |a| then b else a[i + 1..] + [c] + b
    ensures Split(s, c) == [a[..i]] + Split(tail, c)
  {
    IndexInJoined(a, b, c);
    JoinedParts(a, b, c, s, i, tail);
    SplitAt(s, c, i, a[..i], tail);
  }

  lemma {:induction false} SplitJoined(a: string, b: string, c: char)
    ensures Split(a + [c] + b, c) == Split(a, c) + Split(b, c)
    decreases |a|
  {
    var i := IndexOf(a, c);
    if i < |a| {
      JoinedFirst(a, b, c, a + [c] + b, i, a[i + 1..] + [c] + b);
      SplitJoined(a[i + 1..], b, c);
    } else {
      JoinedFirst(a, b, c, a + [c] + b, i, b);
      assert a[..i] == a;
    }
  }

  lemma {:induction false} AddPairsOver(routes: map<string, string>, p: seq<string>)
    ensures AddPairs(routes, p) == routes + AddPairs(map[], p)
    decreases |p|
  {
    if p != [] {
      AddPairsOver(routes, p[..|p| - 1]);
    }
  }

  lemma {:induction false} AddPairsThen(routes: map<string, string>, p: seq<string>, q: seq<string>)
    ensures AddPairs(routes, p + q) == AddPairs(AddPairs(routes, p), q)
    decreases |q|
  {
    if q == [] {
      assert p + q == p;
    } else {
      var n := |q| - 1;
      assert (p + q)[..|p + q| - 1] == p + q[..n];
      assert (p + q)[|p + q| - 1] == q[n];
      AddPairsThen(routes, p, q[..n]);
    }
  }

  /** Parsing two texts joined by a comma is parsing each, the second overriding the first. */
  lemma ParseJoined(a: string, b: string)
    ensures Routes(a + "," + b) == Routes(a) + Routes(b)
  {
    SplitJoined(a, b, ',');
    AddPairsThen(map[], Split(a, ','), Split(b, ','));
    AddPairsOver(Routes(a), Split(b, ','));
  }

  // ---- Which routes can be written down ----

  /** The routes that have a spelling. */
  predicate Writable(k: string, v: string) {
    && k != "" && ',' !in k && ':' !in k && !IsSpace(k[0])
    && v != "" && ',' !in v && !IsSpace(v[|v| - 1])
  }

  ghost predicate AllWritable(routes: map<string, string>) {
    forall k | k in routes :: Writable(k, routes[k])
  }

  lemma ParsedPairWritable(pair: string)
    requires ',' !in pair
    ensures ParsePair(pair).Some? ==> Writable(ParsePair(pair).value.0, ParsePair(pair).value.1)
  {
    var t := TrimSpace(pair);
    var i := IndexOf(t, ':');
    IndexIsFirst(t, ':');
    if 0 < i && i + 1 < |t| {
      assert t[i + 1..][|t| - i - 2] == t[|t| - 1];
    }
  }

  lemma {:induction false} AddedPairsWritable(pairs: seq<string>)
    requires forall p | p in pairs :: ',' !in p
    ensures AllWritable(AddPairs(map[], pairs))
  {
    if pairs != [] {
      AddedPairsWritable(pairs[..|pairs| - 1]);
      ParsedPairWritable(pairs[|pairs| - 1]);
    }
  }

  /** Every route that comes out of the parser: the key is not empty and has no colon, the topic is not empty. */
  lemma ParsedWritable(raw: string)
    ensures AllWritable(Routes(raw))
  {
    SplitPieces(raw, ',');
    AddedPairsWritable(Split(raw, ','));
  }

  /** A writable pair is read back. */
  lemma PairReadsBack(k: string, v: string)
    requires Writable(k, v)
    ensures ParsePair(k + ":" + v) == Some((k, v))
  {
    var s := k + ":" + v;
    assert s[0] == k[0] && s[|s| - 1] == v[|v| - 1];
    assert TrimSpace(s) == s;
    assert s[|k|] == ':';
    assert forall i | 0 <= i < |k| :: s[i] == k[i];
    FirstIsIndex(s, ':', |k|);
    assert s[..|k|] == k && s[|k| + 1..] == v;
  }

  /** A piece of the text with spaces around, as it gives a route. */
  ghost predicate Spells(pair: string, l: string, k: string, v: string, r: string) {
    && pair == l + (k + ":" + v) + r && Spaces(l) && Spaces(r)
    && k != "" && ':' !in k && !IsSpace(k[0])
    && v != "" && !IsSpace(v[|v| - 1])
  }

  lemma ParsedIsSpelled(pair: string, k: string, v: string) returns (l: string, r: string)
    requires ParsePair(pair) == Some((k, v))
    ensures Spells(pair, l, k, v, r)
  {
    var t := TrimSpace(pair);
    l, r := TrimSplits(pair);
    IndexIsFirst(t, ':');
    assert t == k + ":" + v;
    assert k[0] == t[0] && v[|v| - 1] == t[|t| - 1];
  }

  lemma SpelledIsParsed(pair: string, l: string, k: string, v: string, r: string)
    requires Spells(pair, l, k, v, r)
    ensures ParsePair(pair) == Some((k, v))
  {
    var s := k + ":" + v;
    assert s[0] == k[0] && s[|s| - 1] == v[|v| - 1];
    TrimKeeps(l, s, r);
    ColonCut(k, v);
  }

  /** A piece gives a route exactly when it is a key, a colon and a topic, with any spaces around the whole:
      the key is all before the first colon. Every other piece is passed over. */
  lemma ParsePairIff(pair: string, k: string, v: string)
    ensures ParsePair(pair) == Some((k, v)) <==> exists l, r :: Spells(pair, l, k, v, r)
  {
    if ParsePair(pair) == Some((k, v)) {
      var l, r := ParsedIsSpelled(pair, k, v);
    }
    forall l, r | Spells(pair, l, k, v, r) ensures ParsePair(pair) == Some((k, v)) {
      SpelledIsParsed(pair, l, k, v, r);
    }
  }

  lemma ColonCut(k: string, v: string)
    requires ':' !in k
    ensures var s := k + ":" + v; IndexOf(s, ':') == |k| && s[..|k|] == k && s[|k| + 1..] == v
  {
    var s := k + ":" + v;
    assert s[|k|] == ':';
    assert forall i | 0 <= i < |k| :: s[i] == k[i];
    FirstIsIndex(s, ':', |k|);
  }

  /** `k:v` pairs joined by commas, in the order given. */
  function Print(entries: seq<(string, string)>): string {
    if entries == [] then ""
    else
      var (k, v) := entries[|entries| - 1];
      var last := k + ":" + v;
      if |entries| == 1 then last else Print(entries[..|entries| - 1]) + "," + last
  }

  function FromEntries(entries: seq<(string, string)>): map<string, string> {
    if entries == [] then map[]
    else FromEntries(entries[..|entries| - 1])[entries[|entries| - 1].0 := entries[|entries| - 1].1]
  }

  lemma SingleRoute(k: string, v: string)
    requires Writable(k, v)
    ensures Routes(k + ":" + v) == map[k := v]
  {
    var s := k + ":" + v;
    PairReadsBack(k, v);
    FirstIsIndex(s, ',', |s|);
    assert AddPairs(map[], [s]) == AddPair(AddPairs(map[], []), s);
  }

  lemma NothingReadsBack()
    ensures Routes("") == map[]
  {
  }

  /** One more route at the end of the text. */
  lemma RouteAppended(text: string, k: string, v: string)
    requires Writable(k, v)
    ensures Routes(text + "," + (k + ":" + v)) == Routes(text)[k := v]
  {
    SingleRoute(k, v);
    ParseJoined(text, k + ":" + v);
  }

  lemma {:induction false} PrintedReadsBack(entries: seq<(string, string)>)
    requires forall e | e in entries :: Writable(e.0, e.1)
    ensures Routes(Print(entries)) == FromEntries(entries)
    decreases |entries|
  {
    if entries == [] {
      NothingReadsBack();
    } else {
      var n := |entries| - 1;
      var (k, v) := entries[n];
      assert entries[n] in entries;
      if n == 0 {
        SingleRoute(k, v);
        assert FromEntries(entries[..0]) == map[];
      } else {
        PrintedReadsBack(entries[..n]);
        RouteAppended(Print(entries[..n]), k, v);
      }
    }
  }

  /** `entries` goes through the map in some order, as a Go range does. */
  ghost predicate Enumerates(entries: seq<(string, string)>, routes: map<string, string>) {
    && FromEntries(entries) == routes
    && forall e | e in entries :: e.0 in routes && routes[e.0] == e.1
  }

  /** Printing a map in any order and parsing the text gives the map back, exactly for the maps
      whose routes are writable. The topics may contain ':'. */
  lemma RoundTripIff(routes: map<string, string>, entries: seq<(string, string)>)
    requires Enumerates(entries, routes)
    ensures Routes(Print(entries)) == routes <==> AllWritable(routes)
  {
    ParsedWritable(Print(entries));
    if AllWritable(routes) {
      PrintedReadsBack(entries);
    }
  }
}
