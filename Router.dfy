/**
 The effects of `EventsRouter.execute`. The two collaborators whose calls the
 router makes are objects that keep a history of those calls, as the stubs
 on `KinesisNotifier.publishBatch` and `EventsDeadLetterQueue.put` do; the
 notifier's answers are a function given when it is created. The result of
 `SubscriptionRepo.getAll` is a parameter.
 */
module Router {
  import opened Events
  import opened Routing

  /** A notifier: answers every `publishBatch` with `respond` and records the call. */
  class KinesisNotifier {
    const respond: (seq<Event>, Subscription) -> seq<DeliveryRecord>
    var calls: seq<PublishCall>

    constructor (respond: (seq<Event>, Subscription) -> seq<DeliveryRecord>)
      ensures this.respond == respond && calls == []
    {
      this.respond := respond;
      calls := [];
    }

    method PublishBatch(events: seq<Event>, subscription: Subscription) returns (records: seq<DeliveryRecord>)
      modifies this
      ensures calls == old(calls) + [PublishCall(events, subscription)]
      ensures records == respond(events, subscription)
    {
      calls := calls + [PublishCall(events, subscription)];
      records := respond(events, subscription);
    }
  }

  /** The dead-letter sink: accepts and records every record it is given. */
  class EventsDeadLetterQueue {
    var puts: seq<DeliveryRecord>

    constructor ()
      ensures puts == []
    {
      puts := [];
    }

    method Put(record: DeliveryRecord) returns (ack: bool)
      modifies this
      ensures puts == old(puts) + [record]
      ensures ack
    {
      puts := puts + [record];
      ack := true;
    }
  }

  /** Puts every failed record of one response on the dead-letter queue, in response order. */
  method PutFailures(response: seq<DeliveryRecord>, deadLetters: EventsDeadLetterQueue)
    modifies deadLetters
    ensures deadLetters.puts == old(deadLetters.puts) + Failures(response)
  {
    var k := 0;
    while k < |response|
      invariant 0 <= k <= |response|
      invariant deadLetters.puts == old(deadLetters.puts) + Failures(response[..k])
    {
      assert response[..k + 1][..k] == response[..k];
      if response[k].Failed() {
        var _ := deadLetters.Put(response[k]);
      }
      k := k + 1;
    }
    assert response[..k] == response;
  }

  /** Publishes one group to each subscription of its type and dead-letters the failures. */
  method PublishGroup(group: EventGroup, subscriptions: seq<Subscription>,
                      notifier: KinesisNotifier, deadLetters: EventsDeadLetterQueue)
    modifies notifier, deadLetters
    ensures notifier.calls == old(notifier.calls) + CallsForGroup(group, subscriptions)
    ensures deadLetters.puts == old(deadLetters.puts) + DeadLetters(Responses(CallsForGroup(group, subscriptions), notifier.respond))
  {
    var j := 0;
    while j < |subscriptions|
      invariant 0 <= j <= |subscriptions|
      invariant notifier.calls == old(notifier.calls) + CallsForGroup(group, subscriptions[..j])
      invariant deadLetters.puts == old(deadLetters.puts)
                                    + DeadLetters(Responses(CallsForGroup(group, subscriptions[..j]), notifier.respond))
    {
      var subscription := subscriptions[j];
      if subscription.eventType == group.eventType {
        var response := notifier.PublishBatch(group.events, subscription);
        PutFailures(response, deadLetters);
        MatchStep(group, subscriptions, j, notifier.respond,
                  old(notifier.calls), notifier.calls, old(deadLetters.puts), deadLetters.puts);
      } else {
        SkipStep(group, subscriptions, j);
      }
      j := j + 1;
    }
    assert subscriptions[..j] == subscriptions;
  }

  /** Publishes each group in turn to its subscriptions and dead-letters the failures. */
  method PublishGroups(groups: seq<EventGroup>, subscriptions: seq<Subscription>,
                       notifier: KinesisNotifier, deadLetters: EventsDeadLetterQueue)
    modifies notifier, deadLetters
    ensures notifier.calls == old(notifier.calls) + CallsFor(groups, subscriptions)
    ensures deadLetters.puts == old(deadLetters.puts)
                                + DeadLetters(Responses(CallsFor(groups, subscriptions), notifier.respond))
  {
    var i := 0;
    while i < |groups|
      invariant 0 <= i <= |groups|
      invariant notifier.calls == old(notifier.calls) + CallsFor(groups[..i], subscriptions)
      invariant deadLetters.puts == old(deadLetters.puts)
                                    + DeadLetters(Responses(CallsFor(groups[..i], subscriptions), notifier.respond))
    {
      PublishGroup(groups[i], subscriptions, notifier, deadLetters);
      CallsStep(groups, i, subscriptions, old(notifier.calls), notifier.calls);
      DeadLettersStep(groups, i, subscriptions, notifier.respond, old(deadLetters.puts), deadLetters.puts);
      i := i + 1;
    }
    assert groups[..i] == groups;
  }

  /**
   Routes one stream batch (`EventsRouter.execute`). When every record
   decodes, each (type, subscription) pair gets one publish call, and every
   failed record of each response is put on the dead-letter queue:
   `Routing.PublishCalls` fixes the calls, which do not depend on the
   notifier's answers, and `Routing.DeadLetters` fixes the puts, which depend
   only on those answers. A batch with an undecodable record is refused before
   any call is made.
   */
  method Execute(batch: seq<KinesisRecord>, subscriptions: seq<Subscription>,
                 notifier: KinesisNotifier, deadLetters: EventsDeadLetterQueue)
    returns (ok: bool)
    modifies notifier, deadLetters
    ensures ok <==> DecodeBatch(batch).Some?
    ensures !ok ==> notifier.calls == old(notifier.calls) && deadLetters.puts == old(deadLetters.puts)
    ensures ok ==> notifier.calls == old(notifier.calls) + PublishCalls(DecodeBatch(batch).value, subscriptions)
    ensures ok ==> deadLetters.puts == old(deadLetters.puts)
                   + DeadLetters(Responses(PublishCalls(DecodeBatch(batch).value, subscriptions), notifier.respond))
  {
    var decoded := DecodeBatch(batch);
    if decoded.None? {
      return false;
    }
    PublishGroups(Group(decoded.value), subscriptions, notifier, deadLetters);
    return true;
  }
}
