/**
 The scenario of the router's test: a batch with two `aType` events, one
 `anotherType` event and one `noSubscriptionEvents` event, subscriptions for
 the first two types only, and notifier answers that fail one record of each
 publish call.
 */
module Fixture {
  import opened Wrappers
  import opened Json
  import opened Events
  import opened Routing
  import opened Router

  const ATypeEvents: seq<Event> := [
    Event("aType", JObject([Field("the", JString("data"))])),
    Event("aType", JObject([Field("more", JString("data"))]))
  ]
  const AnotherTypeEvents: seq<Event> := [Event("anotherType", JObject([Field("some", JString("data"))]))]
  const NoSubscriptionEvents: seq<Event> := [Event("noSubscriptionEvents", JObject([Field("some", JString("data"))]))]

  const ATypeSubscription := Subscription("aType", "kinesis", "StreamName")
  const AnotherTypeSubscription := Subscription("anotherType", "kinesis", "AnotherStreamName")
  const Subscriptions: seq<Subscription> := [ATypeSubscription, AnotherTypeSubscription]

  const BatchEvents: seq<Event> := ATypeEvents + AnotherTypeEvents + NoSubscriptionEvents
  const KinesisStream: seq<KinesisRecord> := BuildRecords(BatchEvents)

  const ATypeResponse: seq<DeliveryRecord> := [
    DeliveryRecord(ATypeEvents[0], ATypeSubscription, Some("Some error"), Some(1234)),
    DeliveryRecord(ATypeEvents[1], ATypeSubscription, None, None)
  ]
  const AnotherTypeResponse: seq<DeliveryRecord> := [
    DeliveryRecord(AnotherTypeEvents[0], AnotherTypeSubscription, Some("Some other error"), Some(567))
  ]

  /** The stubbed notifier: a known response for each of the two expected calls, nothing otherwise. */
  function StubResponse(events: seq<Event>, subscription: Subscription): seq<DeliveryRecord> {
    if events == ATypeEvents && subscription == ATypeSubscription then ATypeResponse
    else if events == AnotherTypeEvents && subscription == AnotherTypeSubscription then AnotherTypeResponse
    else []
  }

  /** The records built for the batch decode to the batch's events. */
  lemma FixtureDecodes()
    ensures DecodeBatch(KinesisStream) == Some(BatchEvents)
  {
    DecodeBuiltBatch(BatchEvents);
  }

  /** The batch falls into three groups, in order of first appearance. */
  lemma FixtureGroups()
    ensures Group(BatchEvents) == [EventGroup("aType", ATypeEvents), EventGroup("anotherType", AnotherTypeEvents),
                                   EventGroup("noSubscriptionEvents", NoSubscriptionEvents)]
  {
    var e0, e1, e2, e3 := ATypeEvents[0], ATypeEvents[1], AnotherTypeEvents[0], NoSubscriptionEvents[0];
    assert BatchEvents == [e0, e1, e2, e3];
    var g1 := [EventGroup("aType", [e0])];
    var g2 := [EventGroup("aType", [e0, e1])];
    var g3 := [EventGroup("aType", [e0, e1]), EventGroup("anotherType", [e2])];
    assert Group([e0]) == Insert(Group([]), e0) == g1;
    assert [e0, e1][..1] == [e0];
    assert [e0] + [e1] == [e0, e1] && g1[1..] == [];
    assert Insert(g1, e1) == g2;
    assert Group([e0, e1]) == g2;
    assert [e0, e1, e2][..2] == [e0, e1];
    assert Insert(g2[1..], e2) == [EventGroup("anotherType", [e2])];
    assert Insert(g2, e2) == g3;
    assert Group([e0, e1, e2]) == g3;
    assert [e0, e1, e2, e3][..3] == [e0, e1, e2];
    assert Insert(g3[2..], e3) == [EventGroup("noSubscriptionEvents", [e3])];
    assert Insert(g3[1..], e3) == [EventGroup("anotherType", [e2]), EventGroup("noSubscriptionEvents", [e3])];
  }

  /** Exactly two publish calls: one per subscribed type, none for `noSubscriptionEvents`. */
  lemma FixturePublishCalls()
    ensures PublishCalls(BatchEvents, Subscriptions) ==
            [PublishCall(ATypeEvents, ATypeSubscription), PublishCall(AnotherTypeEvents, AnotherTypeSubscription)]
  {
    FixtureGroups();
    var groups := Group(BatchEvents);
    var c0, c1 := PublishCall(ATypeEvents, ATypeSubscription), PublishCall(AnotherTypeEvents, AnotherTypeSubscription);
    var s0, s1 := ATypeSubscription, AnotherTypeSubscription;
    assert Subscriptions == [s0, s1];
    assert [s0, s1][..1] == [s0];
    assert CallsForGroup(groups[0], [s0]) == [c0];
    assert CallsForGroup(groups[0], Subscriptions) == [c0];
    assert CallsForGroup(groups[1], [s0]) == [];
    assert CallsForGroup(groups[1], Subscriptions) == [c1];
    assert CallsForGroup(groups[2], [s0]) == [];
    assert CallsForGroup(groups[2], Subscriptions) == [];
    assert groups[..1][..0] == [];
    assert groups[..2][..1] == groups[..1];
    assert groups[..3][..2] == groups[..2];
    assert groups[..3] == groups;
    assert CallsFor(groups[..1], Subscriptions) == [c0];
    assert CallsFor(groups[..2], Subscriptions) == [c0, c1];
  }

  /** The stub answers the two calls with the two fixture responses. */
  lemma FixtureResponses()
    ensures Responses(PublishCalls(BatchEvents, Subscriptions), StubResponse) == [ATypeResponse, AnotherTypeResponse]
  {
    FixturePublishCalls();
    var c0, c1 := PublishCall(ATypeEvents, ATypeSubscription), PublishCall(AnotherTypeEvents, AnotherTypeSubscription);
    assert [c0, c1][..1] == [c0];
    assert StubResponse(c0.events, c0.subscription) == ATypeResponse;
    assert StubResponse(c1.events, c1.subscription) == AnotherTypeResponse by {
      assert |AnotherTypeEvents| != |ATypeEvents|;
    }
    assert Responses([c0], StubResponse) == [ATypeResponse];
  }

  /** Exactly the two failed records are dead-lettered. */
  lemma FixtureDeadLetters()
    ensures DeadLetters(Responses(PublishCalls(BatchEvents, Subscriptions), StubResponse)) ==
            [ATypeResponse[0], AnotherTypeResponse[0]]
  {
    FixtureResponses();
    var r0, r1, r2 := ATypeResponse[0], ATypeResponse[1], AnotherTypeResponse[0];
    assert Failures(ATypeResponse) == [r0] by {
      assert ATypeResponse == [r0, r1];
      assert [r0, r1][..1] == [r0];
      assert Failures([r0]) == [r0];
    }
    assert Failures(AnotherTypeResponse) == [r2] by {
      assert AnotherTypeResponse == [r2];
    }
    assert DeadLetters([ATypeResponse]) == [r0] by {
      assert [ATypeResponse][..0] == [];
    }
    assert [ATypeResponse, AnotherTypeResponse][..1] == [ATypeResponse];
  }

  /**
   The test's two assertions, on the call histories of the stubs after one
   `execute`: `publishBatch` was called twice, once with each expected
   (events, subscription) pair, and `put` was called twice, once with each
   failed record.
   */
  method RouteFixture() returns (published: seq<PublishCall>, deadLettered: seq<DeliveryRecord>)
    ensures |published| == 2
    ensures PublishCall(ATypeEvents, ATypeSubscription) in published
    ensures PublishCall(AnotherTypeEvents, AnotherTypeSubscription) in published
    ensures |deadLettered| == 2
    ensures ATypeResponse[0] in deadLettered && AnotherTypeResponse[0] in deadLettered
  {
    var notifier := new KinesisNotifier(StubResponse);
    var queue := new EventsDeadLetterQueue();
    FixtureDecodes();
    FixturePublishCalls();
    FixtureDeadLetters();
    var ok := Execute(KinesisStream, Subscriptions, notifier, queue);
    published, deadLettered := notifier.calls, queue.puts;
  }
}
