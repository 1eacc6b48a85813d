/** Choosing a topic by stream-id prefix, listing the topics, and creating them on the broker. */
module Topics {
  import opened Events
  import opened Config

  // ---- Resolving ----

  datatype Resolver = SingleTopic(topic: string) | PrefixTopic(routes: map<string, string>, fallback: string)

  function NewTopicResolver(routes: map<string, string>, topic: string): Resolver {
    if |routes| == 0 then SingleTopic(topic) else PrefixTopic(routes, topic)
  }

  function Resolve(r: Resolver, stream: string): string {
    match r
    case SingleTopic(topic) => topic
    case PrefixTopic(routes, fallback) =>
      var i := IndexOf(stream, ':');
      if 0 < i < |stream| && stream[..i] in routes then routes[stream[..i]] else fallback
  }

  lemma KeyEndsAtColon(k: string, stream: string)
    requires ':' !in k
    ensures k + ":" <= stream <==> IndexOf(stream, ':') == |k| < |stream| && stream[..|k|] == k
  {
    var p := k + ":";
    if p <= stream {
      assert stream[..|p|] == p;
      assert forall j | 0 <= j < |k| :: stream[j] == p[j] == k[j];
      assert stream[|k|] == p[|k|] == ':';
      FirstIsIndex(stream, ':', |k|);
    }
    if IndexOf(stream, ':') == |k| < |stream| && stream[..|k|] == k {
      assert stream[..|p|] == p;
    }
  }

  /** Which topic a configuration sends a stream to, said without searching: the route whose key and
      colon begin the stream id, and the main topic when there is none. No two routes compete. */
  lemma ResolveMeans(raw: string, topic: string, stream: string)
    ensures var routes := Routes(raw); var to := Resolve(NewTopicResolver(routes, topic), stream);
      && (forall k | k in routes && k + ":" <= stream :: to == routes[k])
      && ((forall k | k in routes :: !(k + ":" <= stream)) ==> to == topic)
  {
    var routes := Routes(raw);
    ParsedWritable(raw);
    var i := IndexOf(stream, ':');
    forall k | k in routes
      ensures k != "" && (k + ":" <= stream <==> i == |k| < |stream| && stream[..|k|] == k)
    {
      assert Writable(k, routes[k]);
      KeyEndsAtColon(k, stream);
    }
    if 0 < i < |stream| && stream[..i] in routes {
      assert stream[..i] + ":" <= stream;
    }
  }

  /** No dead route: every key in the parsed map decides for every stream that carries it. */
  lemma NoDeadRoute(raw: string, topic: string, k: string, rest: string)
    requires k in Routes(raw)
    ensures Resolve(NewTopicResolver(Routes(raw), topic), k + ":" + rest) == Routes(raw)[k]
  {
    assert k + ":" <= k + ":" + rest;
    ResolveMeans(raw, topic, k + ":" + rest);
  }

  /** With a main topic, no stream is sent to an empty topic name, which the writer would refuse. */
  lemma NoEmptyTopic(raw: string, topic: string, stream: string)
    requires topic != ""
    ensures Resolve(NewTopicResolver(Routes(raw), topic), stream) != ""
  {
    ParsedWritable(raw);
  }

  /** Whatever the environment holds, `Load` leaves a topic for every stream: the one it names or its default
      where no route applies. */
  lemma LoadedTopics(kafkaTopic: string, topicRoutes: string, stream: string)
    ensures var to := Resolve(NewTopicResolver(Routes(topicRoutes), MainTopic(kafkaTopic)), stream);
      && to != ""
      && ((forall k | k in Routes(topicRoutes) :: !(k + ":" <= stream)) ==>
            (kafkaTopic != "" ==> to == kafkaTopic) && (kafkaTopic == "" ==> to == "events.v1"))
  {
    NoEmptyTopic(topicRoutes, MainTopic(kafkaTopic), stream);
    ResolveMeans(topicRoutes, MainTopic(kafkaTopic), stream);
  }

  // ---- Listing ----

  /** Every topic the resolver may route to. */
  ghost function TopicsOf(r: Resolver): set<string> {
    match r
    case SingleTopic(topic) => {topic}
    case PrefixTopic(routes, fallback) => {fallback} + routes.Values
  }

  method ListTopics(r: Resolver) returns (topics: seq<string>)
    ensures forall i, j | 0 <= i < j < |topics| :: topics[i] != topics[j]
    ensures (set t | t in topics) == TopicsOf(r)
    ensures r.PrefixTopic? ==> topics != [] && topics[0] == r.fallback
  {
    if r.SingleTopic? {
      return [r.topic];
    }
    var seen := {r.fallback};
    topics := [r.fallback];
    var todo := r.routes.Keys;
    while todo != {}
      invariant todo <= r.routes.Keys
      invariant (set t | t in topics) == seen
      invariant seen == {r.fallback} + set k | k in r.routes.Keys - todo :: r.routes[k]
      invariant forall i, j | 0 <= i < j < |topics| :: topics[i] != topics[j]
      invariant topics != [] && topics[0] == r.fallback
      decreases todo
    {
      var k :| k in todo;
      var t := r.routes[k];
      if t !in seen {
        assert t !in topics;
        seen := seen + {t};
        topics := topics + [t];
      }
      ghost var before := r.routes.Keys - todo;
      todo := todo - {k};
      assert r.routes.Keys - todo == before + {k};
    }
    assert r.routes.Keys - todo == r.routes.Keys;
  }

  /** The topics listed are exactly those that some stream resolves to. */
  lemma ResolvableIff(raw: string, topic: string, t: string)
    ensures var r := NewTopicResolver(Routes(raw), topic);
            (exists stream :: Resolve(r, stream) == t) <==> t in TopicsOf(r)
  {
    var routes := Routes(raw);
    var r := NewTopicResolver(routes, topic);
    assert Resolve(r, "") == topic;
    if t in routes.Values {
      var k :| k in routes && routes[k] == t;
      NoDeadRoute(raw, topic, k, "");
    }
  }

  // ---- Provisioning ----

  datatype TopicSpec = TopicSpec(name: string, partitions: int, replication: int)
  datatype Shape = Shape(partitions: int, replication: int)

  method BuildTopicSpecs(r: Resolver, dlq: string, partitions: int, replication: int) returns (specs: seq<TopicSpec>)
    ensures specs != [] && specs[|specs| - 1] == TopicSpec(dlq, 1, replication)
    ensures forall i | 0 <= i < |specs| - 1 :: specs[i].partitions == partitions && specs[i].replication == replication
    ensures forall i, j | 0 <= i < j < |specs| - 1 :: specs[i].name != specs[j].name
    ensures (set i | 0 <= i < |specs| - 1 :: specs[i].name) == TopicsOf(r)
  {
    var topics := ListTopics(r);
    specs := [];
    for i := 0 to |topics|
      invariant |specs| == i
      invariant forall k | 0 <= k < i :: specs[k] == TopicSpec(topics[k], partitions, replication)
    {
      specs := specs + [TopicSpec(topics[i], partitions, replication)];
    }
    ghost var routed := specs;
    specs := specs + [TopicSpec(dlq, 1, replication)];
    assert forall k | 0 <= k < |topics| :: specs[k].name == topics[k];
    forall t ensures t in topics <==> exists i :: 0 <= i < |specs| - 1 && specs[i].name == t {
      if t in topics {
        var i :| 0 <= i < |topics| && topics[i] == t;
        assert specs[i].name == t;
      }
    }
  }

  /** One attempt as the network lets it go: the broker cannot be reached; the controller cannot be
      reached; or the creation request arrives, after other processes have created `others`. The broker
      creates `made` of the requested topics, all of those missing when it answers without an error. */
  datatype Attempt =
    | NoBroker
    | NoController(others: map<string, Shape>)
    | Requested(others: map<string, Shape>, made: set<string>, answered: bool)

  /** Existing entries win over new ones. */
  function Adopt(topics: map<string, Shape>, more: map<string, Shape>): map<string, Shape> {
    more + topics
  }

  function ShapesOf(specs: seq<TopicSpec>): map<string, Shape> {
    if specs == [] then map[]
    else ShapesOf(specs[1..])[specs[0].name := Shape(specs[0].partitions, specs[0].replication)]
  }

  lemma {:induction false} ShapesOfMeans(specs: seq<TopicSpec>, name: string)
    ensures name in ShapesOf(specs) <==> exists s :: s in specs && s.name == name
    ensures name in ShapesOf(specs) ==>
      exists s :: s in specs && s.name == name && ShapesOf(specs)[name] == Shape(s.partitions, s.replication)
    decreases |specs|
  {
    if specs != [] {
      ShapesOfMeans(specs[1..], name);
      assert specs[0] in specs;
      assert forall s :: s in specs <==> s == specs[0] || s in specs[1..];
    }
  }

  ghost predicate Covered(topics: map<string, Shape>, specs: seq<TopicSpec>) {
    forall s | s in specs :: s.name in topics
  }

  /** Nothing that was there has changed, and what is new was asked for or is somebody else's. */
  ghost predicate OnlyAdds(before: map<string, Shape>, after: map<string, Shape>, specs: seq<TopicSpec>,
                           others: set<string>)
  {
    && (forall t | t in before :: t in after && after[t] == before[t])
    && (forall t | t in after && t !in before && t !in others ::
          exists s :: s in specs && s.name == t && after[t] == Shape(s.partitions, s.replication))
  }

  /** The specs whose topics are not there, in order. */
  function Missing(specs: seq<TopicSpec>, topics: map<string, Shape>): seq<TopicSpec> {
    if specs == [] then []
    else Missing(specs[..|specs| - 1], topics)
         + if specs[|specs| - 1].name in topics then [] else [specs[|specs| - 1]]
  }

  lemma {:induction false} MissingMeans(specs: seq<TopicSpec>, topics: map<string, Shape>)
    ensures forall s :: s in Missing(specs, topics) <==> s in specs && s.name !in topics
    decreases |specs|
  {
    if specs != [] {
      MissingMeans(specs[..|specs| - 1], topics);
      assert specs == specs[..|specs| - 1] + [specs[|specs| - 1]];
    }
  }

  /** What an attempt leaves, and whether it has done all there was to do. */
  function AfterAttempt(topics: map<string, Shape>, specs: seq<TopicSpec>, attempt: Attempt): map<string, Shape> {
    var wanted := Missing(specs, topics);
    if attempt.NoBroker? || wanted == [] then topics
    else if attempt.NoController? then Adopt(topics, attempt.others)
    else Adopt(Adopt(topics, attempt.others), Created(wanted, attempt))
  }

  function Created(wanted: seq<TopicSpec>, attempt: Attempt): map<string, Shape>
    requires attempt.Requested?
  {
    var shapes := ShapesOf(wanted);
    map t | t in shapes && (attempt.answered || t in attempt.made) :: shapes[t]
  }

  ghost predicate Succeeds(topics: map<string, Shape>, specs: seq<TopicSpec>, attempt: Attempt) {
    !attempt.NoBroker? && (Covered(topics, specs) || (attempt.Requested? && attempt.answered))
  }

  /** The topics after the first `n` attempts. */
  function AfterAttempts(topics: map<string, Shape>, specs: seq<TopicSpec>, attempts: seq<Attempt>, n: nat)
    : map<string, Shape>
    requires n <= |attempts|
  {
    if n == 0 then topics else AfterAttempt(AfterAttempts(topics, specs, attempts, n - 1), specs, attempts[n - 1])
  }

  /** An attempt finds everything there or is answered, the ones before having left what they left. */
  ghost predicate AttemptSucceeds(topics: map<string, Shape>, specs: seq<TopicSpec>, attempts: seq<Attempt>, i: nat)
    requires i < |attempts|
  {
    Succeeds(AfterAttempts(topics, specs, attempts, i), specs, attempts[i])
  }

  /** None of the first `n` attempts has succeeded, so none of them was answered. */
  ghost predicate NoneSucceeded(topics: map<string, Shape>, specs: seq<TopicSpec>, attempts: seq<Attempt>, n: nat)
    requires n <= |attempts|
  {
    forall k | 0 <= k < n :: !AttemptSucceeds(topics, specs, attempts, k)
  }

  lemma OneMoreAttempt(topics: map<string, Shape>, specs: seq<TopicSpec>, attempts: seq<Attempt>, n: nat)
    requires n < |attempts| && NoneSucceeded(topics, specs, attempts, n)
    ensures AttemptSucceeds(topics, specs, attempts, n)
       <==> Succeeds(AfterAttempts(topics, specs, attempts, n), specs, attempts[n])
    ensures AfterAttempts(topics, specs, attempts, n + 1)
         == AfterAttempt(AfterAttempts(topics, specs, attempts, n), specs, attempts[n])
    ensures NoneSucceeded(topics, specs, attempts, n + 1) <==> !AttemptSucceeds(topics, specs, attempts, n)
  {
  }

  lemma NoneAnswered(topics: map<string, Shape>, specs: seq<TopicSpec>, attempts: seq<Attempt>, n: nat)
    requires n <= |attempts| && NoneSucceeded(topics, specs, attempts, n)
    ensures forall k | 0 <= k < n :: !(attempts[k].Requested? && attempts[k].answered)
  {
    forall k | 0 <= k < n ensures !(attempts[k].Requested? && attempts[k].answered) {
      assert !AttemptSucceeds(topics, specs, attempts, k);
    }
  }

  lemma AddsCompose(before: map<string, Shape>, mid: map<string, Shape>, after: map<string, Shape>,
                    specs: seq<TopicSpec>, attempts: seq<Attempt>, i: nat)
    requires i < |attempts|
    requires OnlyAdds(before, mid, specs, OthersOf(attempts)) && OnlyAdds(mid, after, specs, OthersOf([attempts[i]]))
    ensures OnlyAdds(before, after, specs, OthersOf(attempts))
  {
    assert attempts[i] in attempts;
    assert OthersOf([attempts[i]]) <= OthersOf(attempts);
  }

  lemma CreatedMeans(specs: seq<TopicSpec>, wanted: seq<TopicSpec>, attempt: Attempt)
    requires attempt.Requested? && forall s | s in wanted :: s in specs
    ensures var created := Created(wanted, attempt);
      && (forall t | t in created ::
            exists s :: s in specs && s.name == t && created[t] == Shape(s.partitions, s.replication))
      && (attempt.answered ==> forall s | s in wanted :: s.name in created)
  {
    var created := Created(wanted, attempt);
    forall t | t in created
      ensures exists s :: s in specs && s.name == t && created[t] == Shape(s.partitions, s.replication)
    {
      ShapesOfMeans(wanted, t);
    }
    forall s | s in wanted && attempt.answered ensures s.name in created {
      ShapesOfMeans(wanted, s.name);
    }
  }

  ghost function OthersOf(attempts: seq<Attempt>): set<string> {
    set a, t | a in attempts && !a.NoBroker? && t in a.others :: t
  }

  lemma NothingMissing(topics: map<string, Shape>, specs: seq<TopicSpec>)
    ensures Missing(specs, topics) == [] <==> Covered(topics, specs)
  {
    MissingMeans(specs, topics);
    if Missing(specs, topics) != [] {
      assert Missing(specs, topics)[0] in Missing(specs, topics);
    }
  }

  /** Adopting only adds what was not there. */
  lemma AdoptAdds(topics: map<string, Shape>, others: map<string, Shape>, created: map<string, Shape>,
                  specs: seq<TopicSpec>, names: set<string>)
    requires others.Keys <= names
    requires forall t | t in created ::
      exists s :: s in specs && s.name == t && created[t] == Shape(s.partitions, s.replication)
    ensures OnlyAdds(topics, Adopt(topics, others), specs, names)
    ensures OnlyAdds(topics, Adopt(Adopt(topics, others), created), specs, names)
  {
  }

  /** What an attempt leaves: nothing changed that was there, and everything when it succeeds. */
  lemma AttemptMeans(topics: map<string, Shape>, specs: seq<TopicSpec>, attempt: Attempt)
    ensures var after := AfterAttempt(topics, specs, attempt);
      && OnlyAdds(topics, after, specs, OthersOf([attempt]))
      && (Succeeds(topics, specs, attempt) ==> Covered(after, specs))
    ensures Missing(specs, topics) == [] <==> Covered(topics, specs)
  {
    NothingMissing(topics, specs);
    MissingMeans(specs, topics);
    if !attempt.NoBroker? {
      assert forall t | t in attempt.others :: attempt in [attempt] && t in OthersOf([attempt]);
      if attempt.Requested? {
        var created := Created(Missing(specs, topics), attempt);
        CreatedMeans(specs, Missing(specs, topics), attempt);
        AdoptAdds(topics, attempt.others, created, specs, OthersOf([attempt]));
      } else {
        AdoptAdds(topics, attempt.others, map[], specs, OthersOf([attempt]));
      }
    }
  }

  /** Which topics there are after an attempt: those there were and, when something was missing and a broker
      was reached, those of the others and those that the broker has created of the ones asked for. */
  lemma AttemptLeaves(topics: map<string, Shape>, specs: seq<TopicSpec>, attempt: Attempt, t: string)
    ensures t in AfterAttempt(topics, specs, attempt) <==>
      || t in topics
      || (&& !attempt.NoBroker? && !Covered(topics, specs)
          && (|| t in attempt.others
              || (attempt.Requested? && (attempt.answered || t in attempt.made)
                  && exists s :: s in specs && s.name == t)))
  {
    NothingMissing(topics, specs);
    MissingMeans(specs, topics);
    ShapesOfMeans(Missing(specs, topics), t);
  }

  class Cluster {
    var topics: map<string, Shape>

    constructor (topics: map<string, Shape>)
      ensures this.topics == topics
    {
      this.topics := topics;
    }

    method TryEnsureTopics(specs: seq<TopicSpec>, attempt: Attempt) returns (ok: bool)
      modifies this
      ensures ok ==> Covered(topics, specs)
      ensures OnlyAdds(old(topics), topics, specs, OthersOf([attempt]))
      ensures ok <==> Succeeds(old(topics), specs, attempt)
      ensures ok <==>
        && !attempt.NoBroker?
        && ((forall s | s in specs :: s.name in old(topics)) || (attempt.Requested? && attempt.answered))
      ensures topics == AfterAttempt(old(topics), specs, attempt)
    {
      if attempt.NoBroker? {
        return false;
      }
      var existing := topics.Keys;
      var toCreate: seq<TopicSpec> := [];
      for i := 0 to |specs|
        invariant toCreate == Missing(specs[..i], topics)
      {
        assert specs[..i + 1][..i] == specs[..i];
        if specs[i].name !in existing {
          toCreate := toCreate + [specs[i]];
        }
      }
      assert specs[..|specs|] == specs;
      AttemptMeans(topics, specs, attempt);
      if toCreate == [] {
        return true;
      }
      topics := Adopt(topics, attempt.others);
      if attempt.NoController? {
        return false;
      }
      // A topic somebody else has just created is reported as existing, which is not an error.
      topics := Adopt(topics, Created(toCreate, attempt));
      ok := attempt.answered;
    }

    /** At most five attempts; `cancelled` is the attempt after which the wait is interrupted. */
    method EnsureTopics(specs: seq<TopicSpec>, attempts: seq<Attempt>, cancelled: Option<nat>) returns (ok: bool)
      requires |attempts| == 5
      modifies this
      ensures ok ==> Covered(topics, specs)
      ensures OnlyAdds(old(topics), topics, specs, OthersOf(attempts))
      ensures ok <==> exists i :: 0 <= i < 5 && (cancelled.Some? ==> i <= cancelled.value)
                                  && AttemptSucceeds(old(topics), specs, attempts, i)
      ensures !ok ==> forall i | 0 <= i < 5 && (cancelled.Some? ==> i <= cancelled.value) ::
                        !(attempts[i].Requested? && attempts[i].answered)
    {
      ghost var before := topics;
      for i := 0 to 5
        invariant topics == AfterAttempts(before, specs, attempts, i)
        invariant OnlyAdds(before, topics, specs, OthersOf(attempts))
        invariant cancelled.Some? ==> i <= cancelled.value
        invariant NoneSucceeded(before, specs, attempts, i)
      {
        ghost var mid := topics;
        ok := TryEnsureTopics(specs, attempts[i]);
        AddsCompose(before, mid, topics, specs, attempts, i);
        OneMoreAttempt(before, specs, attempts, i);
        if ok {
          return;
        }
        if cancelled == Some(i) {
          NoneAnswered(before, specs, attempts, i + 1);
          return false;
        }
      }
      NoneAnswered(before, specs, attempts, 5);
      ok := false;
    }
  }

  /** The start of the ingest API, up to the point where it may publish: every topic that resolving can
      give exists, and so does the dead-letter topic; topics that were there are as they were. */
  method Provision(cluster: Cluster, raw: string, topic: string, dlqTopic: string, partitions: int, replication: int,
                   attempts: seq<Attempt>, cancelled: Option<nat>)
    returns (ok: bool, resolver: Resolver)
    requires |attempts| == 5
    modifies cluster
    ensures resolver == NewTopicResolver(Routes(raw), topic)
    ensures ok ==> DlqTopicName(topic, dlqTopic) in cluster.topics
    ensures ok ==> (if dlqTopic != "" then dlqTopic else topic + ".dlq") in cluster.topics
    ensures ok ==> topic in cluster.topics && forall k | k in Routes(raw) :: Routes(raw)[k] in cluster.topics
    ensures ok ==> forall stream :: Resolve(resolver, stream) in cluster.topics
    ensures forall t | t in old(cluster.topics) :: t in cluster.topics && cluster.topics[t] == old(cluster.topics)[t]
  {
    var routes := ParseTopicRoutes(raw);
    resolver := NewTopicResolver(routes, topic);
    var specs := BuildTopicSpecs(resolver, DlqTopicName(topic, dlqTopic), partitions, replication);
    ok := cluster.EnsureTopics(specs, attempts, cancelled);
    forall stream | ok ensures Resolve(resolver, stream) in cluster.topics {
      ResolvableIff(raw, topic, Resolve(resolver, stream));
      var i :| 0 <= i < |specs| - 1 && specs[i].name == Resolve(resolver, stream);
      assert specs[i] in specs;
    }
    assert specs[|specs| - 1] in specs;
    if ok {
      assert Resolve(resolver, "") == topic;
      forall k | k in Routes(raw) ensures Routes(raw)[k] in cluster.topics {
        NoDeadRoute(raw, topic, k, "");
      }
    }
  }
}
