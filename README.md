# events-router: the routing decision of `EventsRouter.execute`

`EventsRouter.execute` takes one Kinesis stream batch. Each record carries a
base64-encoded JSON event `{type, payload}` and an `eventID`. The router:

1. decodes the batch into events;
2. groups the events by type, keeping batch order inside each group;
3. for every subscription returned by `SubscriptionRepo.getAll` whose `type`
   matches a group, calls `KinesisNotifier.publishBatch(events, subscription)`
   once;
4. puts every record of the notifiers' responses that carries an `error` or an
   `errorCode`, unchanged, on `EventsDeadLetterQueue`.

The router's own source is not part of this model. Its behaviour is taken from
its test, `events-router/src/commandHandlers/EventsRouter.test.js`, which fixes
the fixtures (a batch of three event types, two subscriptions, two canned
notifier responses) and asserts the two call histories that result.

Modules:

- `Wrappers`: `Option`.
- `Seqs`: associativity of concatenation, used by the proofs.
- `Json`: JSON values and a token-level wire form. `Serialize` stands in for
  `JSON.stringify` plus base64, and `Parse` for decoding. `ParseSerialize`
  proves that decoding inverts encoding. `Lookup` reads a property the way
  `JSON.parse` leaves it: the last duplicate key wins.
- `Events`: events, subscriptions, delivery records (`Failed` when `error` or
  `errorCode` is present), Kinesis records, and `buildKinesisEvent`. It also has
  the decoding of one record and of a whole batch.
- `Routing`: the pure routing decision.
  - `Group` is the single pass that partitions the batch by type, in order of
    first appearance. `ReferenceGroups` is the independent definition it is
    proved equal to.
  - `PublishCalls` gives the (events, subscription) pairs.
  - `Responses` gives the notifier's answer to each call, and `DeadLetters` the
    failed records of those answers.
- `Router`: the effects. `KinesisNotifier` and `EventsDeadLetterQueue` are
  classes that keep their call histories, as the test's stubs do. `Execute`
  appends to those histories, and its postconditions say that the histories
  equal `PublishCalls` and `DeadLetters`.
- `Fixture`: the test's scenario as constants, lemmas that compute its
  outcome, and `RouteFixture`, which calls `Execute` on it and states the test's
  two assertions.

## Model

| member | source | states |
|---|---|---|
| Json.ParseSerialize | events-router/src/commandHandlers/EventsRouter.test.js:16 | Decoding the wire form of any JSON value gives that value back, with no tokens left over. |
| Json.ParseSerializeRest | events-router/src/commandHandlers/EventsRouter.test.js:16 | Parsing a serialized value followed by any tokens consumes exactly that value and leaves the following tokens. |
| Json.Lookup | events-router/src/commandHandlers/EventsRouter.test.js:16 | A property is found exactly when some field has that key, and the value found is the value of one such field. |
| Events.FromJson | events-router/src/commandHandlers/EventsRouter.test.js:14-17 | An event is read exactly from a JSON object whose `type` is a string and that has a `payload`. Its type and payload are the values of those two properties. |
| Events.BuildKinesisEvent | events-router/src/commandHandlers/EventsRouter.test.js:14-19 | No contract of its own: the record carries the encoded `{type, payload}` object and the fixed `eventID`. `Events.DecodeBuilt` states its round trip. |
| Events.DecodeRecord | events-router/src/commandHandlers/EventsRouter.test.js:14-19 | No contract of its own: it parses the data and reads the event back. `Events.DecodeRecordIff` states when it succeeds and what it yields, and `Events.DecodeBuilt` that it inverts `BuildKinesisEvent`. |
| Events.DecodeRecordIff | events-router/src/commandHandlers/EventsRouter.test.js:14-19 | A record decodes exactly when its data parses to an object with a string `type` and a `payload`, and it then decodes to the event those two properties name. |
| Events.BuildRecords | events-router/src/commandHandlers/EventsRouter.test.js:29 | The stream has one record per event, and record i is `buildKinesisEvent` of event i. |
| Events.DecodeBuilt | events-router/src/commandHandlers/EventsRouter.test.js:14-19 | Decoding a record built by `buildKinesisEvent` gives back the original event, type and payload. |
| Events.DecodeBatch | events-router/src/commandHandlers/EventsRouter.test.js:29 | A batch decodes exactly when every record decodes. The decoded batch then has one event per record, in record order. |
| Events.DecodeBuiltBatch | events-router/src/commandHandlers/EventsRouter.test.js:14-29 | Decoding the records built from a list of events gives back exactly those events, in order. |
| Routing.OfTypeCount | events-router/src/commandHandlers/EventsRouter.test.js:20-29 | The events of one type hold every event of that type as often as the batch does, and no event of another type. |
| Routing.OfTypeAppend | events-router/src/commandHandlers/EventsRouter.test.js:29 | Selecting one type commutes with concatenating batches, so batch order is kept within a type. |
| Routing.Types | events-router/src/commandHandlers/EventsRouter.test.js:29 | The types of a batch are listed without repetition, and exactly the types that occur are listed. |
| Routing.OccursIff | events-router/src/commandHandlers/EventsRouter.test.js:20-25 | A type occurs in the batch exactly when its selection is non-empty. |
| Routing.Group | events-router/src/commandHandlers/EventsRouter.test.js:20-29 | No contract of its own: the one-pass grouping by type. `Routing.GroupIsReference`, `Routing.GroupIsStablePartition` and `Routing.GroupPermutes` state what it computes. |
| Routing.GroupIsReference | events-router/src/commandHandlers/EventsRouter.test.js:20-29 | The single grouping pass equals the reference grouping: one group per type, in order of first appearance, each holding that type's events in batch order. |
| Routing.GroupIsStablePartition | events-router/src/commandHandlers/EventsRouter.test.js:20-29 | Group types are distinct and are exactly the batch's types. Every group is non-empty and holds exactly its type's events in batch order. |
| Routing.GroupMembership | events-router/src/commandHandlers/EventsRouter.test.js:59-60 | (t, es) is a group exactly when es is the non-empty list of the batch's events of type t. |
| Routing.GroupPermutes | events-router/src/commandHandlers/EventsRouter.test.js:29 | Grouping loses and duplicates no event: the groups together are a permutation of the batch. |
| Routing.SubscriptionsOf | events-router/src/commandHandlers/EventsRouter.test.js:26-28 | The subscriptions kept are exactly those in the list whose type is among the given types. |
| Routing.CallsForGroupCount | events-router/src/commandHandlers/EventsRouter.test.js:58-63 | One group is published once to each subscription of its type, with exactly its events, and to no other subscription. |
| Routing.PublishCalls | events-router/src/commandHandlers/EventsRouter.test.js:57-64 | No contract of its own: every group paired with each subscription of its type. `Routing.PublishCallsExact`, `Routing.PublishCallIff`, `Routing.PublishCallCount` and `Routing.NoOrphanPublish` state what it computes. |
| Routing.PublishCallsExact | events-router/src/commandHandlers/EventsRouter.test.js:57-64 | A call (es, s) occurs once for each occurrence of s in the subscription list when s's type occurs in the batch and es is that type's events in batch order. Otherwise it occurs zero times. |
| Routing.PublishCallIff | events-router/src/commandHandlers/EventsRouter.test.js:57-64 | (es, s) is published exactly when s is a listed subscription whose type occurs in the batch and es is the batch's events of that type in order. |
| Routing.NoOrphanPublish | events-router/src/commandHandlers/EventsRouter.test.js:24-29 | No publish call carries an event of a type that no subscription names. |
| Routing.PublishCallCount | events-router/src/commandHandlers/EventsRouter.test.js:55-57 | The number of publish calls equals the number of listed subscriptions whose type occurs in the batch. |
| Routing.FailuresCount | events-router/src/commandHandlers/EventsRouter.test.js:30-40 | Of one response, each failed record is selected as often as it occurs, and no successful record is selected. |
| Routing.AllRecords | events-router/src/commandHandlers/EventsRouter.test.js:30-40 | A record is among all response records exactly when it is in one of the responses. |
| Routing.DeadLetters | events-router/src/commandHandlers/EventsRouter.test.js:67-73 | No contract of its own: the failed records of the responses, in order. `Routing.DeadLettersAreFailures`, `Routing.DeadLetterCount` and `Routing.DeadLetterIff` state what it computes. |
| Routing.DeadLettersAreFailures | events-router/src/commandHandlers/EventsRouter.test.js:67-73 | The records put on the dead-letter queue are exactly the failed records of all responses, in response order, unchanged. |
| Routing.DeadLetterCount | events-router/src/commandHandlers/EventsRouter.test.js:67-73 | Every failed record is dead-lettered as often as it occurs across the responses. A successful record never is. |
| Routing.DeadLetterIff | events-router/src/commandHandlers/EventsRouter.test.js:30-40 | A record is dead-lettered exactly when it failed and occurs in some response. |
| Routing.NoOrphanDeadLetter | events-router/src/commandHandlers/EventsRouter.test.js:67-73 | If the notifier reports only on the events it was given, no record of an unsubscribed type is dead-lettered. |
| Routing.Responses | events-router/src/commandHandlers/EventsRouter.test.js:44-46 | No contract of its own: the notifier's answer to each call, in call order. `Routing.ResponsesAt` states it position by position. |
| Routing.ResponsesAt | events-router/src/commandHandlers/EventsRouter.test.js:44-46 | There is one response per publish call, and response k is the notifier's answer to call k. |
| Routing.DeadLettersDependOnlyOnResponses | events-router/src/commandHandlers/EventsRouter.test.js:55-73 | Two notifiers that give the same answers to the calls made give the same dead letters. The calls themselves take no input from the notifier. |
| Router.KinesisNotifier.PublishBatch | events-router/src/commandHandlers/EventsRouter.test.js:44-46 | The call is appended to the notifier's history, and the answer is the notifier's response to these events and this subscription. |
| Router.EventsDeadLetterQueue.Put | events-router/src/commandHandlers/EventsRouter.test.js:47 | The record is appended to the queue's history, and the put is acknowledged. |
| Router.PutFailures | events-router/src/commandHandlers/EventsRouter.test.js:67-73 | Exactly the failed records of one response are appended to the queue, in order. |
| Router.PublishGroup | events-router/src/commandHandlers/EventsRouter.test.js:58-63 | One group is published to each subscription of its type, in list order, and each response's failures are dead-lettered. |
| Router.PublishGroups | events-router/src/commandHandlers/EventsRouter.test.js:55-74 | The groups are published in order, and both histories grow by `CallsFor` and by its dead letters. |
| Router.Execute | events-router/src/commandHandlers/EventsRouter.test.js:55-74 | The batch is routed exactly when it decodes. If it does not decode, neither history changes. If it does, the publish history grows by exactly `PublishCalls` of the decoded events and the queue's history by exactly the dead letters of the notifier's responses to those calls. |
| Fixture.FixtureDecodes | events-router/src/commandHandlers/EventsRouter.test.js:14-29 | The test's stream decodes to its four events in batch order. |
| Fixture.FixtureGroups | events-router/src/commandHandlers/EventsRouter.test.js:20-29 | The test's batch falls into three groups: `aType` (two events), `anotherType`, and `noSubscriptionEvents`. |
| Fixture.FixturePublishCalls | events-router/src/commandHandlers/EventsRouter.test.js:57-64 | The test's publish calls are exactly (aTypeEvents, aTypeSubscription) then (anotherTypeEvents, anotherTypeSubscription). |
| Fixture.FixtureResponses | events-router/src/commandHandlers/EventsRouter.test.js:30-46 | The stubbed notifier answers those two calls with the two canned responses. |
| Fixture.FixtureDeadLetters | events-router/src/commandHandlers/EventsRouter.test.js:67-73 | The dead letters are exactly the first record of each canned response. |
| Fixture.RouteFixture | events-router/src/commandHandlers/EventsRouter.test.js:55-74 | After one `Execute` on the test's scenario, `publishBatch` was called twice, once with each expected pair, and `put` was called twice, once with each failed record. |

## Left out

- The router's source file is not part of this model. Its behaviour is reconstructed from what the test's fixtures and assertions fix.
- JSON text and base64 are not modelled. The wire form is the token stream of a JSON value, and only the property the router relies on, that decoding inverts encoding, is proved.
- Events.DecodeRecord: a record whose data does not parse, or whose JSON is not an object with a string `type` and a `payload`, is rejected. The test never exercises this path. The model then refuses the whole batch before any call: this is a modelling choice, since the test does not say what the router does with a bad record.
- Events.FromJson: keeps only the `type` and `payload` properties of the decoded object and drops any other. A router that passes `JSON.parse`'s whole object on would hand such extra properties to `publishBatch` and into the records it dead-letters. The test cannot tell the two apart, since its events have only `type` and `payload`.
- JSON numbers, including a record's `errorCode`, are unbounded integers. JavaScript's numbers are doubles, so fractional, non-finite and out-of-range numbers are not modelled. Neither affects the routing decision.
- Promises, `async`/`await` and any concurrent fan-out of the publish and put calls are left out. The calls are made one after another, groups in order of first appearance and subscriptions in list order. The test does not assert this order, and the count and membership lemmas (`PublishCallsExact`, `DeadLetterCount`) state what holds in any order.
- The sinon, chai and sinon-chai machinery and the stub setup and teardown are left out. The stubs' recorded call histories become the `calls` and `puts` fields.
- `SubscriptionRepo.getAll` is a parameter, the subscription list, so the number of times it is called is not modelled.
- Router.KinesisNotifier.PublishBatch: a notifier is a pure function from (events, subscription) to its response. A rejected `publishBatch`, a rejected `put` and a rejected `getAll` are not modelled, because the test exercises none of them.
- Router.EventsDeadLetterQueue.Put: always acknowledges, as the stub does. The acknowledgement is not used by the router model.
- The `eventID` field is carried on each record but plays no part in routing, as in the test.
- `subscriberType` and `subscribedResource` are carried unchanged. Dispatch to different notifier kinds by `subscriberType` is not modelled, because the test uses only `kinesis`.
