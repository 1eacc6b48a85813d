# Verified model of the event streaming and audit pipeline

The pipeline stores events in PostgreSQL, publishes them to Kafka as well as it can, consumes one topic
into an Elasticsearch index with a dead-letter topic beside it, and is read in two ways: by paging
through the index and by replaying the table. The Dafny project models each of these parts in the form
the Go code has them (classes whose methods change fields, loops, pure functions) and then puts them
together as one step system, whose runs are all sequences of steps: any number of overlapping ingests,
lost replies, aborted statements, repeated or lost log writes, crashes of the consumer at any point,
refused index calls and refused dead letters.

`dafny verify dfyconfig.toml` checks the project.

## How it is laid out

| file | part |
|---|---|
| `Events.dfy` | the event, and the outcomes a remote call can have |
| `Ordering.dfy` | putting a set in order, rank and place |
| `Postgres.dfy`, `Replay.dfy` | the event table, append under UNIQUE constraints, replay |
| `Config.dfy`, `Topics.dfy` | the route parser, the resolver, topic provisioning |
| `Kafka.dfy`, `Ingest.dfy` | logs and producer, the ingest service |
| `Search.dfy`, `Query.dfy` | the index, the search request, pages and page walks |
| `Consume.dfy` | the consume loop, the dead-letter path, progress |
| `Migrate.dfy` | the migration runner, alone and several at once |
| `Pipeline.dfy` | the step system and the invariant of every reachable state |
| `Guarantees.dfy` | what holds in every run |
| `Provenance.dfy` | which steps put an event where it is |
| `LogOrder.dfy` | when the order of a stream in its log is the order of its versions |
| `Refinement.dfy` | the consume loop and the ingest are runs of the step system; the consumer is never stuck |

## How the outside world appears

- A remote call with one effect ends in one of three ways (`CallFate`): done and answered, done with the
  answer lost, not done. A log write (`WriteFate`) leaves any number of copies, at least one when it is
  acknowledged; in the step system a writer that goes on trying lets other messages come between its copies.
  The fates are parameters, so every theorem is about all of them.
- An INSERT reads `MAX(version)` from a snapshot and takes effect later. In `EventStore.Append` the rows
  other sessions commit in between are the parameter `others`; in the step system the two halves are two
  steps. Its precondition on `others` says only that the table still obeys its constraints and is gap
  free, which `InsertKeepsLedger` shows of every insert.
- The columns give back a normal form of an event's content (TIMESTAMPTZ, JSONB). That form is a
  parameter of the store, `columns`; id, tenant, stream and version come back as they were.
- The tenant of the caller is a parameter, empty when there is no identity.
- `occurredAt` counts nanoseconds; Elasticsearch sorts a `date` by whole milliseconds.
- `uuid.New`, the clock, the key hash, the database's collation and the order in which a Go map is ranged
  over are parameters or left open. An id is a number, since the text of a UUID sorts as its number does.

## Where the code and its documentation differ

- The producer's comment promises that the events of a stream are delivered in order. Two overlapping
  ingests can be stored as versions 1, 2 and published as 2, 1 (`OverlapBreaksOrder`). `LogOrderIff` says
  exactly which runs keep the order; those whose ingests do not overlap do (`LogFollowsVersions`).
- Routing by prefix is documented as a way to spread events over topics. The consumer reads the main
  topic only. An event published with success can still become searchable, dead-lettered or reported lost
  exactly when its stream goes there (`ArrivesIff`); one routed elsewhere never does
  (`RoutedElsewhereIsNeverSearchable`).
- A detected gap is documented as an integrity violation. The table never has gaps; the check fails
  exactly when a second tenant has written into the stream between two of the caller's events
  (`ReplayFailsOnlyForSharing`), because versions count per stream and reads filter by tenant; and any
  stream filled like that is such a case (`SharedStreamFails`).
- The dead-letter topic is documented as the place for events that could not be indexed. An event can be
  in the index and in the dead-letter topic: exactly when an index call for it took effect and, in that
  delivery or another, it was dead-lettered (`BothIff`). A lost reply does that, and so does a crash before
  the commit followed by a refused redelivery, with no reply lost (`CrashPutsInBoth`).
- Replay gives the content as the columns keep it, the index as it was published; and replay gives nothing at
  all for a shared stream with a gap, which the index does not mind. So the two agree up to the columns' form
  exactly when the rows are indexed and no other tenant's event lies between two of the caller's, and to the
  letter when, besides, the columns change nothing (`AgreementIff`).
- The migration runner does not look at the error of its cursor, so it may believe in fewer applied
  files than there are. Such a run stops at the first file it wrongly takes to be missing (`Migrator.Run`,
  `ShortCursorFails`); the primary key keeps every file from committing twice (`ExactlyOnce`).
- A new migration that sorts before an applied one is run, once, but out of order
  (`LateFileRunsOutOfOrder`, `ResumeIff`).

## Model

| member | source | states |
|---|---|---|
| Postgres.EventStore.Append | internal/infrastructure/postgres/store.go:65-85 | the row gets the next version of its stream; it is stored exactly when the statement is carried out, nobody else committed on the stream since the snapshot and the id is new; success is reported only for a stored row |
| Postgres.EventStore.ScanRows | internal/infrastructure/postgres/store.go:191-201 | the selected rows in order, or an error at whichever row the cursor or a decode fails |
| Postgres.EventStore.GetFromVersion | internal/infrastructure/postgres/store.go:123-152 | the tenant's rows of the stream from a version on, in version order |
| Postgres.EventStore.GetByStreamId | internal/infrastructure/postgres/store.go:89-118 | the tenant's rows of the stream, in version order |
| Postgres.LedgerIffGapFree | internal/infrastructure/postgres/store.go:62-64 | "each row is one more than the rows its stream had" is the same as "each stream has exactly the versions 1..n, once, in commit order" |
| Postgres.MaxIsCount | internal/infrastructure/postgres/store.go:75 | on a gap-free table the greatest version is the number of rows |
| Postgres.TakenMeans | internal/infrastructure/postgres/store.go:19-29 | the constraints refuse a row for its id or its (stream, version), and for nothing else |
| Postgres.RaceDecides | internal/infrastructure/postgres/store.go:62-75 | a version worked out from a stale snapshot is still free exactly when no other append on the stream committed since, and then it is the next version |
| Postgres.InsertKeepsLedger | internal/infrastructure/postgres/store.go:62-85 | whatever the snapshot missed, an insert leaves the table unique and gap free |
| Replay.ValidateContiguous | internal/application/replay/service.go:75-84 | accepts exactly the lists whose versions run up one by one, and otherwise reports the first gap |
| Replay.NoJumpIffContiguous | internal/application/replay/service.go:72-84 | the pairwise check and the global interval say the same |
| Replay.ReplayService.Replay | internal/application/replay/service.go:34-70 | each error in its case and only there, and of a gap the first missing and the found version; otherwise, exactly when the matching rows are contiguous, all of them and nothing else, each with the columns' form of its content |
| Replay.GapMeans | internal/application/replay/service.go:75-84 | of versions in order, the one reported missing is missing, and lies below the one reported found, which is there |
| Replay.SelectReads | internal/infrastructure/postgres/store.go:130-145 | a read returns the matching rows, all of them and nothing else, versions strictly ascending |
| Replay.ReplayableIff | internal/application/replay/service.go:34-84 | on a gap-free table replay passes its check if and only if no other tenant's row lies between two of the caller's |
| Replay.SingleTenantReplays | internal/application/replay/service.go:34-84 | a stream of one tenant always replays and gives exactly the versions max(from, 1)..n |
| Replay.ReadSplits | internal/infrastructure/postgres/store.go:123-152 | reading from j is what lies below k followed by reading from k |
| Replay.ReadOnlyExtends | internal/infrastructure/postgres/store.go:123-152 | more rows only add to the end of a read |
| Config.ParseTopicRoutes | internal/config/config.go:135-148 | the loop computes the map of all usable pairs, later ones winning |
| Config.ParseJoined | internal/config/config.go:135-148 | parsing two texts joined by a comma is parsing each, the second overriding the first |
| Config.ParsedWritable | internal/config/config.go:140-145 | no parsed key is empty or has a colon or comma, no parsed topic is empty or has a comma, and the outer spaces are gone |
| Config.PairReadsBack | internal/config/config.go:141-145 | a writable key and topic written as `k:v` are read back, colons in the topic included |
| Config.ParsePairIff | internal/config/config.go:140-145 | a piece of the text gives a route if and only if it is a key, a colon and a topic with any spaces around; the key is all before the first colon |
| Config.AsciiSpace | internal/config/config.go:142 | among the ASCII characters the spaces that are trimmed are those from 9 to 13, and 32 |
| Config.RoundTripIff | internal/config/config.go:132-148 | printing a map in any order and parsing it gives the map back if and only if its routes are writable |
| Topics.ResolveMeans | internal/infrastructure/kafka/topic_resolver.go:79-86 | the route whose key and colon begin the stream id decides, the main topic when there is none, and no two routes compete |
| Topics.NoDeadRoute | internal/infrastructure/kafka/topic_resolver.go:79-86 | every parsed key decides for every stream that carries it |
| Topics.NoEmptyTopic | internal/infrastructure/kafka/topic_resolver.go:79-86 | with a main topic no stream resolves to an empty topic name |
| Topics.LoadedTopics | internal/config/config.go:80-98 | whatever the environment holds, a stream goes to a topic, and where no route applies to the one it names or to events.v1 |
| Topics.ListTopics | internal/infrastructure/kafka/topic_resolver.go:88-98 | fallback first, then every routed topic, each once, nothing else |
| Topics.ResolvableIff | internal/infrastructure/kafka/topic_resolver.go:34-98 | the listed topics are exactly those some stream resolves to |
| Topics.BuildTopicSpecs | cmd/ingest-api/main.go:145-160 | one spec for each listed topic with the configured shape, and last the dead-letter topic with one partition |
| Topics.Cluster.TryEnsureTopics | internal/infrastructure/kafka/topic_manager.go:70-133 | succeeds exactly when everything was there or the creation was answered; then all specs exist; existing topics keep their shape and new ones have the shape of a spec |
| Topics.AttemptLeaves | internal/infrastructure/kafka/topic_manager.go:70-133 | exactly which topics there are after an attempt, a partial one included |
| Topics.Cluster.EnsureTopics | internal/infrastructure/kafka/topic_manager.go:46-68 | succeeds exactly when one of the attempts made before the wait is interrupted reaches a broker and finds everything there or is answered, the earlier ones having left what they left; success means every spec is covered; earlier topics are unchanged |
| Topics.Provision | cmd/ingest-api/main.go:73-82 | after a successful start every topic that resolving can give exists, and so does the dead-letter topic, under the name set or the main topic's with .dlq; earlier topics are unchanged |
| Kafka.Producer.Publish | internal/infrastructure/kafka/producer.go:46-68 | one log is extended with the copies written; a message without a topic is refused; the report is the writer's |
| Kafka.PublishedWhere | internal/infrastructure/kafka/producer.go:24-68 | a publish touches only the log of the event's stream, at its end, and a message whose publish succeeded is there |
| Kafka.PublishGoesToRoute | internal/infrastructure/kafka/producer.go:46-68 | a publish adds its copies to the topic of the route whose key and colon begin the stream id, or the main topic, in the partition of the hash of topic and stream id, and nowhere else; it succeeds exactly when there is a topic and the writer does |
| Kafka.WrittenTopicsExist | cmd/ingest-api/main.go:73-82 | after a start that went through, every topic written to exists |
| Ingest.IngestService.Ingest | internal/application/ingest/service.go:37-71 | each refusal in its case; "stored" is reported exactly for a stored row at the next version, whatever the publish did; that row has, field by field, the caller's tenant, the new id and time and the command's stream, type, source, payload and metadata; nothing is published that was not stored |
| Ingest.CallerReadsIt | internal/application/ingest/service.go:48-50 | the event returned is the last its tenant reads of the stream, and no other tenant reads it |
| Ingest.WrittenLast | internal/application/ingest/service.go:54 | what is written of it stands at the end of its stream's log |
| Search.Indexer.PutDocument | internal/infrastructure/elasticsearch/indexer.go:114-139 | creates or overwrites the document under the event's id and no other |
| Search.ConvergesIff | internal/infrastructure/elasticsearch/indexer.go:112-139 | all orders and repetitions of the same deliveries give one index if and only if no two events share an id |
| Search.BuildRequest | internal/infrastructure/elasticsearch/indexer.go:152-196 | the request's query selects exactly the caller's scope and its sort clauses mean the two orders |
| Search.RequestMeans | internal/infrastructure/elasticsearch/indexer.go:165-196 | executing such a request is slicing the sorted scope, with the size of the scope as total |
| Search.Indexer.Search | internal/infrastructure/elasticsearch/indexer.go:151-243 | the slice of the sorted documents of tenant and stream, and their number |
| Query.QueryService.QueryByStream | internal/application/query/service.go:114-162 | each refusal in its case; otherwise the clamped page of the stream |
| Query.QueryService.ListAll | internal/application/query/service.go:64-108 | the refusal; otherwise the clamped page of the tenant's feed, newest first |
| Query.PageIsScoped | internal/application/query/service.go:64-162 | a page never leaves the tenant or the stream, never exceeds 100 events, and has the default and maximum sizes where they apply |
| Query.FeedIsScope | internal/infrastructure/elasticsearch/indexer.go:152-196 | the feed a page is cut from holds all the caller's documents, each once, and nothing else |
| Query.PageCounts | internal/infrastructure/elasticsearch/indexer.go:184-243 | a page's total is the number of the caller's documents, and the page is as full as they reach and holds just the events from its offset on |
| Query.FeedRunsNewestFirst | internal/infrastructure/elasticsearch/indexer.go:176-183 | no event of a feed page comes a millisecond or more before one listed later, and within a millisecond the greater id is first |
| Query.NewerIsEarlier | internal/infrastructure/elasticsearch/indexer.go:176-183 | of two events a millisecond or more apart the newer one is listed earlier |
| Query.WholeWalk | internal/application/query/service.go:114-162 | on an index at rest, walking the pages gives every event exactly once in order, at any limit |
| Query.SteppingByAskedIff | internal/application/query/service.go:70-78 | a caller who steps by the limit asked for misses nothing if and only if it is at most 100 or there are at most 100 events |
| Query.WalkSkipsNothing | internal/application/query/service.go:64-162 | a walk over a growing index returns everything that was there when it began, in either order |
| Consume.DeadLetters.Publish | internal/infrastructure/kafka/dlq_producer.go:42-58 | the copies written are at the end of the dead-letter topic |
| Consume.ConsumeService.Handle | internal/application/consume/service.go:58-70 | indexed and nothing else, or dead-lettered, or reported lost; settled in every case; and exactly when the delivery, first or repeated, leaves the event both indexed and dead-lettered |
| Consume.ConsumeService.RouteToDlq | internal/application/consume/service.go:72-96 | the event is in the dead-letter topic or reported lost |
| Consume.Consumer.FetchMessage | internal/infrastructure/kafka/consumer.go:48-54 | the next message of the partition, and the position moves by one |
| Consume.Consumer.CommitMessages | internal/infrastructure/kafka/consumer.go:65-79 | the committed offset is the one after the message |
| Consume.Consumer.Restart | internal/infrastructure/kafka/consumer.go:23-36 | a new reader of the group starts at the committed offsets, which do not change |
| Consume.Consumer.Run | internal/infrastructure/kafka/consumer.go:46-81 | the loop is the fold of its rounds over offsets and sinks, and ends as its last round says |
| Consume.LoopFailsIff | internal/infrastructure/kafka/consumer.go:46-81 | the loop reports a failure if and only if some round is a failed fetch or fetches a message without getting its commit answered, and every round before it has passed a message |
| Consume.Consumer.Serve | cmd/consumer-service/main.go:51-72 | any number of processes one after another, each ending as its loop does and the next starting from the committed offsets |
| Consume.RoundMakesProgress | internal/infrastructure/kafka/consumer.go:46-81 | every round that does not end the loop lowers the lag by exactly one and settles the message it passes |
| Consume.Drains | internal/infrastructure/kafka/consumer.go:46-81 | after as many undisturbed rounds as the lag, every partition is read to its end |
| Migrate.Migrator.ApplyInTransaction | cmd/migrate/main.go:127-151 | the SQL and its row commit together or not at all, and not for a file that has its row |
| Migrate.ReadApplied | cmd/migrate/main.go:67-79 | the names among the rows delivered, in whatever order and however early the cursor stopped, or an end to the run when a row does not scan |
| Migrate.Migrator.Run | cmd/migrate/main.go:56-122 | a run gets exactly to the first file that is neither among the rows delivered nor in fact missing with an answered transaction; it has then committed the missing files before that one, in order, and that one too if only the reply was lost; all it adds are entries with the ending .sql, and after success every such entry is in the table |
| Migrate.RunTells | cmd/migrate/main.go:97-122 | success and the stopping file of a run, said file by file |
| Migrate.LessMeans | cmd/migrate/main.go:94 | the order of the files is the dictionary order: a beginning first, otherwise the smaller character at the first difference |
| Migrate.ExactlyOnce | cmd/migrate/main.go:56-151 | over any interleaving of runs that fail anywhere and have read only part of the table, no file commits twice, and a finished runner leaves all its files applied |
| Migrate.AlwaysPrefix | cmd/migrate/main.go:81-122 | when releases only add files at the end, the committed schema is always that of a prefix of the sorted files, and of all of them once a runner has finished |
| Migrate.ResumeIff | cmd/migrate/main.go:81-122 | a successful run leaves the order of an uninterrupted one if and only if what was applied was in order and everything missing sorts after it |
| Migrate.LateFileRunsOutOfOrder | cmd/migrate/main.go:81-122 | two releases, both gone through, whose history is not the sorted one |
| Migrate.ShortCursorFails | cmd/migrate/main.go:67-79 | a run, every transaction answered, that an applied file stops because its row was not delivered |
| Pipeline.StoreStep | internal/infrastructure/postgres/store.go:62-85 | every step keeps the table unique and gap free, and every append in flight at the version of its snapshot |
| Pipeline.LogStep | internal/infrastructure/kafka/producer.go:46-68 | every step keeps all messages stored rows in the log of their stream, and only extends logs |
| Pipeline.SinksOnlyGrow | internal/infrastructure/elasticsearch/indexer.go:112-139 | a step adds documents and never changes one, redeliveries included |
| Pipeline.Always | internal/infrastructure/kafka/consumer.go:38-81 | the invariant of store, logs, offsets and sinks holds after every sequence of steps |
| Guarantees.VersionsAreGapFree | internal/infrastructure/postgres/store.go:62-85 | in every run each stream has exactly the versions 1..n, each once, in commit order |
| Guarantees.InsertLosesOnlyRaces | internal/infrastructure/postgres/store.go:71-84 | in every run an append fails on a constraint only if its id is taken or another append on the stream committed since its snapshot |
| Guarantees.ReplayIsStable | internal/infrastructure/postgres/store.go:123-152 | in every run a replay read is a prefix of the same read later |
| Guarantees.ReplayFailsOnlyForSharing | internal/application/replay/service.go:34-84 | in every run replay finds a gap if and only if another tenant's event lies between two of the caller's |
| Guarantees.SharedStreamFails | internal/application/replay/service.go:34-84 | storing any events of one stream in turn, with another tenant's anywhere between two of the caller's, gives a gap-free table whose replay fails |
| Guarantees.NothingIsSkipped | internal/infrastructure/kafka/consumer.go:38-81 | committed <= position <= log length, position at most one ahead, and everything committed is settled, across crashes and redelivery |
| Guarantees.NothingIsLost | internal/application/consume/service.go:54-96 | every stored event is unwritten, parked on a topic nobody consumes, waiting at or beyond the committed offset, or settled; a successful publish rules out the first |
| Guarantees.NothingIsInvented | internal/application/ingest/service.go:50-61 | whatever is in a log, the index, the dead-letter topic or reported lost is a stored row; the last three hold only events of the consumed topic |
| Guarantees.AgreementIff | internal/application/query/service.go:110-162 | in every run, each if and only if: the page walk of a stream gives its rows, when the rows are indexed; it gives what replay hands out, up to the columns' normal form, when besides no other tenant's event lies between two of the caller's; and to the letter when besides the normal form changes nothing in the stream |
| Guarantees.QuietMeansAgreement | internal/application/query/service.go:110-162 | once a stream is published, consumed and no index call was refused, the walk gives its rows, and what replay hands out under exactly the other two conditions; for one tenant replay hands out all and both are versions 1..n |
| Guarantees.StreamPageAscends | internal/application/query/service.go:110-162 | at any moment a page of a stream holds stored rows of one tenant and stream with strictly ascending versions |
| Guarantees.WalkDuringRun | internal/application/query/service.go:64-162 | a page walk during a run misses nothing that was searchable when it began |
| LogOrder.PublishKeepsOrderIff | internal/infrastructure/kafka/producer.go:46-68 | a publish keeps a stream's log in version order if and only if it writes nothing, or once with nothing newer there |
| LogOrder.LogOrderIff | internal/infrastructure/kafka/producer.go:46-68 | in every run, retries included, the messages of a stream stand in version order if and only if no write on it was made twice at once or on top of an event that is not older |
| LogOrder.LogFollowsVersions | internal/application/ingest/service.go:37-71 | if ingests of a stream do not overlap and no publish is repeated, its messages stand in strictly ascending versions, whatever else goes on |
| LogOrder.DeliveriesFollowVersions | internal/infrastructure/kafka/producer.go:24-68 | in such a run, when an event is handed on, every published event of the stream with a lower version has been handled: first deliveries follow the versions |
| LogOrder.OverlapBreaksOrder | internal/application/ingest/service.go:50-61 | two overlapping ingests that are logged against their versions, on any routing |
| Provenance.SinksIff | internal/application/consume/service.go:58-96 | in every run, redeliveries and crashes included: an event is in the index exactly when an index call for it took effect, dead-lettered exactly when that write took effect after a failed index call, reported lost exactly when that write failed |
| Provenance.BothIff | internal/application/consume/service.go:58-96 | an event is in both exactly when both kinds of step were taken for it |
| Provenance.CrashPutsInBoth | internal/infrastructure/kafka/consumer.go:46-81 | in every run a message that is next ends up in both by a crash before its commit and a refused redelivery |
| Provenance.InBothAlthoughAnswered | internal/infrastructure/kafka/consumer.go:46-81 | a whole run in which that happens, on any routing with the consumed topic |
| Refinement.RoundIsSteps | internal/infrastructure/kafka/consumer.go:46-81 | a round of the loop with the restart that follows its end is a fixed sequence of steps |
| Refinement.LoopIsRun | internal/infrastructure/kafka/consumer.go:46-81 | the whole loop is a run of the step system |
| Refinement.LivesAreRun | cmd/consumer-service/main.go:51-72 | so are any number of processes that take over from one another |
| Refinement.IngestIsRun | internal/application/ingest/service.go:50-61 | an ingest with any steps of others, and retries of its own writer, between snapshot and insert and between insert and publish: stored exactly when it lands, at the end of the table the insert found; written, exactly when the insert was answered, at the end of the log the publish found; published exactly when the writer says so |
| Refinement.DeadIngestIsOver | internal/application/ingest/service.go:50-61 | an ingest that dies after its insert leaves its row, and no later retry or publish of its own writes anything |
| Refinement.NeverStuck | internal/application/consume/service.go:54-70 | from every reachable state, for every choice of answers of the index and the dead-letter topic to each message, there is a continuation of consumer steps, beginning with a restart and answered in just that way, that passes the whole log and gives each message what its answers mean |
| Refinement.PublishedCanArrive | internal/application/consume/service.go:54-96 | under all such answers an event published with success on the consumed topic has a future in which it is settled, and where it still waits, its own answers decide how |
| Refinement.AnswersDecide | internal/application/consume/service.go:54-96 | if the index answers, what waits becomes searchable; if it refuses everything and the dead-letter topic answers, what waits becomes a dead letter |
| Refinement.ArrivesIff | internal/infrastructure/kafka/consumer.go:23-81 | an event published with success can come to be settled, under any answers, if and only if its stream goes to the consumed topic |
| Refinement.RoutedElsewhereIsNeverSearchable | internal/infrastructure/kafka/consumer.go:23-36 | the first event of any stream routed elsewhere is published with success and is never settled, whatever follows |
| Refinement.WalkCanCatchUpIff | internal/application/query/service.go:110-162 | with an index that answers, the consumer alone can bring the walk of a stream to its rows if and only if each row is indexed or waits at or beyond the committed offset |

## Left out

- HTTP and gRPC handlers, authentication, token issuance: plumbing around the services; the tenant is a parameter.
- JSON: encoding and decoding are the identity on events; a log entry that does not decode is a separate kind of entry.
- Event: the Go struct is shared by reference and written by Ingest and Append; here an event is a value and the new version is returned, so aliasing is not modelled.
- DLQMessage: the reason and the time of failure beside the event are not modelled.
- Versions are unbounded: a stream would need 2^63 rows before BIGINT or int64 matters.
- Internals of PostgreSQL, Kafka and Elasticsearch: statements commit atomically, logs only grow, a search sees some earlier state of the index and never an earlier one than the search before; result-window limits, partition-count changes and group rebalancing are not modelled.
- Consume.Consumer.Run: the log stands still while the loop runs; messages that arrive meanwhile are in the step system, of which each round is a run.
- Kafka.Producer.Publish: its copies stand side by side; copies with other messages between them are in the step system (`Retry`).
- Topics.Cluster.TryEnsureTopics: which of two specs with one name the broker takes is not decided by the source; the model takes the first when the broker accepts them.
- NewIndexer and ensureIndex: the retry loop would only repeat what EnsureTopics shows.
- GetByID, Close, logging, timeouts and backoff waits: nothing depends on them.
- fs.ReadDir and fs.ReadFile on the embedded migrations: they do not fail.
- Termination of a page walk while events keep arriving: a caller who pages more slowly than events arrive may never reach the total.
- Refinement.NeverStuck: says that the consumer can always catch up, not that it will; fairness of the broker and of restarts is not modelled, and its continuation is one in which offset commits succeed.
