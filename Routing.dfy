/**
 The routing decision of `EventsRouter.execute`, with the I/O taken out:
 group the decoded batch by event type, pair every group with each
 subscription of its type (one publish call per pair), and select the
 failed records of the notifiers' responses for the dead-letter queue.
 */
module Routing {
  import opened Events
  import opened Seqs

  /** The batch's events of one type, in batch order. */
  datatype EventGroup = EventGroup(eventType: string, events: seq<Event>)

  /** The arguments of one `publishBatch(events, subscription)` call. */
  datatype PublishCall = PublishCall(events: seq<Event>, subscription: Subscription)

  predicate Distinct(ts: seq<string>) {
    forall i, j :: 0 <= i < j < |ts| ==> ts[i] != ts[j]
  }

  /** The set of event types that occur in a batch. */
  function TypesIn(events: seq<Event>): set<string> {
    set e | e in events :: e.eventType
  }

  // ----- Grouping --------------------------------------------------------

  /** The events of type `t`, in the order the batch has them. */
  function OfType(events: seq<Event>, t: string): seq<Event> {
    if events == [] then []
    else
      var prefix, last := events[..|events| - 1], events[|events| - 1];
      OfType(prefix, t) + (if last.eventType == t then [last] else [])
  }

  /** Selecting a type keeps every event of that type, as often as the batch has it, and no other event. */
  lemma {:induction false} OfTypeCount(events: seq<Event>, t: string)
    ensures forall e :: multiset(OfType(events, t))[e] == if e.eventType == t then multiset(events)[e] else 0
    decreases |events|
  {
    if events != [] {
      var prefix, last := events[..|events| - 1], events[|events| - 1];
      assert events == prefix + [last];
      OfTypeCount(prefix, t);
    }
  }

  /** The distinct event types of a batch, in order of first appearance. */
  function Types(events: seq<Event>): (r: seq<string>)
    ensures Distinct(r)
    ensures forall t :: t in r <==> t in TypesIn(events)
  {
    if events == [] then []
    else
      var prefix, last := events[..|events| - 1], events[|events| - 1];
      assert events == prefix + [last];
      var ts := Types(prefix);
      if last.eventType in ts then ts else ts + [last.eventType]
  }

  /** A type occurs in the batch exactly when the batch has some event of it. */
  lemma OccursIff(events: seq<Event>, t: string)
    ensures t in TypesIn(events) <==> OfType(events, t) != []
  {
  }

  /** Selecting one type commutes with concatenating batches: the selection keeps batch order. */
  lemma {:induction false} OfTypeAppend(a: seq<Event>, b: seq<Event>, t: string)
    ensures OfType(a + b, t) == OfType(a, t) + OfType(b, t)
    decreases |b|
  {
    if b == [] {
      assert a + b == a;
    } else {
      var prefix, last := b[..|b| - 1], b[|b| - 1];
      assert (a + b)[..|a + b| - 1] == a + prefix;
      assert (a + b)[|a + b| - 1] == last;
      OfTypeAppend(a, prefix, t);
    }
  }

  /** The types of a list of groups, in list order. */
  function GroupTypes(groups: seq<EventGroup>): (r: seq<string>)
    ensures |r| == |groups|
  {
    seq(|groups|, i requires 0 <= i < |groups| => groups[i].eventType)
  }

  /** Adds one event to its type's group, opening a new group at the end for a new type. */
  function Insert(groups: seq<EventGroup>, e: Event): seq<EventGroup> {
    if groups == [] then [EventGroup(e.eventType, [e])]
    else if groups[0].eventType == e.eventType then
      [EventGroup(groups[0].eventType, groups[0].events + [e])] + groups[1..]
    else [groups[0]] + Insert(groups[1..], e)
  }

  /** Groups a batch by type in one linear pass over it. */
  function Group(events: seq<Event>): seq<EventGroup> {
    if events == [] then [] else Insert(Group(events[..|events| - 1]), events[|events| - 1])
  }

  /** The partition stated directly: one group per distinct type, holding that type's events. */
  function ReferenceGroups(events: seq<Event>): seq<EventGroup> {
    var ts := Types(events);
    seq(|ts|, i requires 0 <= i < |ts| => EventGroup(ts[i], OfType(events, ts[i])))
  }

  /** What `Insert` does to a list of groups with distinct types. */
  lemma {:induction false} InsertShape(groups: seq<EventGroup>, e: Event)
    requires Distinct(GroupTypes(groups))
    ensures e.eventType in GroupTypes(groups) ==>
              |Insert(groups, e)| == |groups|
              && forall i :: 0 <= i < |groups| ==>
                   Insert(groups, e)[i] == if groups[i].eventType == e.eventType
                                           then EventGroup(groups[i].eventType, groups[i].events + [e])
                                           else groups[i]
    ensures e.eventType !in GroupTypes(groups) ==>
              |Insert(groups, e)| == |groups| + 1
              && Insert(groups, e)[|groups|] == EventGroup(e.eventType, [e])
              && forall i :: 0 <= i < |groups| ==> Insert(groups, e)[i] == groups[i]
  {
    if groups == [] {
    } else if groups[0].eventType == e.eventType {
      assert GroupTypes(groups)[0] == e.eventType;
      forall i | 0 < i < |groups|
        ensures groups[i].eventType != e.eventType
      {
        assert GroupTypes(groups)[i] == groups[i].eventType;
      }
    } else {
      var tail := groups[1..];
      assert GroupTypes(tail) == GroupTypes(groups)[1..];
      assert GroupTypes(groups) == [groups[0].eventType] + GroupTypes(tail);
      InsertShape(tail, e);
    }
  }

  /** Inserting the last event into the reference partition of the rest gives the reference partition. */
  lemma InsertIntoReference(events: seq<Event>)
    requires events != []
    ensures Insert(ReferenceGroups(events[..|events| - 1]), events[|events| - 1]) == ReferenceGroups(events)
  {
    var prefix, e := events[..|events| - 1], events[|events| - 1];
    var before := ReferenceGroups(prefix);
    assert GroupTypes(before) == Types(prefix);
    InsertShape(before, e);
    var after := Insert(before, e);
    var ts := Types(events);
    var want := ReferenceGroups(events);
    if e.eventType in Types(prefix) {
      forall i | 0 <= i < |ts|
        ensures after[i] == want[i]
      {
        assert ts[i] == GroupTypes(before)[i];
        assert OfType(events, ts[i]) == OfType(prefix, ts[i]) + (if e.eventType == ts[i] then [e] else []);
      }
    } else {
      forall i | 0 <= i < |ts|
        ensures after[i] == want[i]
      {
        assert OfType(events, ts[i]) == OfType(prefix, ts[i]) + (if e.eventType == ts[i] then [e] else []);
        assert ts == Types(prefix) + [e.eventType];
        if i < |before| {
          assert ts[i] == Types(prefix)[i] != e.eventType;
          assert after[i] == before[i];
        } else {
          assert ts[i] == e.eventType;
          assert e.eventType !in TypesIn(prefix);
          OccursIff(prefix, e.eventType);
          assert OfType(events, ts[i]) == [e];
          assert i == |before| && e.eventType !in GroupTypes(before);
        }
      }
    }
  }

  /** The linear pass computes exactly the reference partition. */
  lemma {:induction false} GroupIsReference(events: seq<Event>)
    ensures Group(events) == ReferenceGroups(events)
    decreases |events|
  {
    if events != [] {
      GroupIsReference(events[..|events| - 1]);
      InsertIntoReference(events);
    }
  }

  /**
   Grouping is a stable partition: one group per type occurring in the batch,
   no type twice, and each group holds exactly that type's events in batch order.
   */
  lemma GroupIsStablePartition(events: seq<Event>)
    ensures Distinct(GroupTypes(Group(events)))
    ensures forall t :: t in GroupTypes(Group(events)) <==> t in TypesIn(events)
    ensures forall g :: g in Group(events) ==> g.events == OfType(events, g.eventType) && g.events != []
  {
    GroupIsReference(events);
    var groups := Group(events);
    assert GroupTypes(groups) == Types(events);
    forall g | g in groups
      ensures g.events == OfType(events, g.eventType) && g.events != []
    {
      var i :| 0 <= i < |groups| && groups[i] == g;
      OccursIff(events, g.eventType);
    }
  }

  /** A group of the batch is a type that occurs in it paired with that type's events. */
  lemma GroupMembership(events: seq<Event>, t: string, es: seq<Event>)
    ensures EventGroup(t, es) in Group(events) <==> es != [] && es == OfType(events, t)
  {
    GroupIsStablePartition(events);
    OccursIff(events, t);
    var groups := Group(events);
    if es != [] && es == OfType(events, t) {
      var i :| 0 <= i < |groups| && GroupTypes(groups)[i] == t;
      assert groups[i] == EventGroup(t, es);
    }
  }

  /** All events of a list of groups, group after group. */
  function Flatten(groups: seq<EventGroup>): seq<Event> {
    if groups == [] then [] else groups[0].events + Flatten(groups[1..])
  }

  lemma {:induction false} FlattenInsert(groups: seq<EventGroup>, e: Event)
    ensures multiset(Flatten(Insert(groups, e))) == multiset(Flatten(groups)) + multiset{e}
  {
    if groups != [] && groups[0].eventType != e.eventType {
      FlattenInsert(groups[1..], e);
    }
  }

  /** No event is lost or duplicated by grouping. */
  lemma {:induction false} GroupPermutes(events: seq<Event>)
    ensures multiset(Flatten(Group(events))) == multiset(events)
    decreases |events|
  {
    if events != [] {
      var prefix, e := events[..|events| - 1], events[|events| - 1];
      GroupPermutes(prefix);
      FlattenInsert(Group(prefix), e);
      assert events == prefix + [e];
    }
  }

  // ----- Publish calls ---------------------------------------------------

  /** The subscriptions whose type is in `types`, in list order. */
  function SubscriptionsOf(subs: seq<Subscription>, types: set<string>): (r: seq<Subscription>)
    ensures forall s :: s in r <==> s in subs && s.eventType in types
  {
    if subs == [] then []
    else
      var prefix, last := subs[..|subs| - 1], subs[|subs| - 1];
      assert subs == prefix + [last];
      SubscriptionsOf(prefix, types) + (if last.eventType in types then [last] else [])
  }

  /** One call per subscription of the group's type, in subscription-list order. */
  function CallsForGroup(g: EventGroup, subs: seq<Subscription>): seq<PublishCall> {
    if subs == [] then []
    else
      var prefix, last := subs[..|subs| - 1], subs[|subs| - 1];
      CallsForGroup(g, prefix) + (if last.eventType == g.eventType then [PublishCall(g.events, last)] else [])
  }

  /** A group's calls: one with its events for each listed subscription of its type. */
  lemma {:induction false} CallsForGroupCount(g: EventGroup, subs: seq<Subscription>)
    ensures forall c :: multiset(CallsForGroup(g, subs))[c] ==
                        if c.events == g.events && c.subscription.eventType == g.eventType
                        then multiset(subs)[c.subscription] else 0
    decreases |subs|
  {
    if subs != [] {
      var prefix, last := subs[..|subs| - 1], subs[|subs| - 1];
      assert subs == prefix + [last];
      CallsForGroupCount(g, prefix);
    }
  }

  /** The calls for every group, group after group. */
  function CallsFor(groups: seq<EventGroup>, subs: seq<Subscription>): seq<PublishCall> {
    if groups == [] then []
    else CallsFor(groups[..|groups| - 1], subs) + CallsForGroup(groups[|groups| - 1], subs)
  }

  /** The `publishBatch` calls that routing a decoded batch makes. */
  function PublishCalls(events: seq<Event>, subs: seq<Subscription>): seq<PublishCall> {
    CallsFor(Group(events), subs)
  }

  lemma {:induction false} CallsForCount(groups: seq<EventGroup>, subs: seq<Subscription>)
    requires Distinct(GroupTypes(groups))
    ensures forall c :: multiset(CallsFor(groups, subs))[c] ==
                        if EventGroup(c.subscription.eventType, c.events) in groups
                        then multiset(subs)[c.subscription] else 0
    decreases |groups|
  {
    if groups != [] {
      var prefix, last := groups[..|groups| - 1], groups[|groups| - 1];
      assert GroupTypes(prefix) == GroupTypes(groups)[..|groups| - 1];
      CallsForCount(prefix, subs);
      CallsForGroupCount(last, subs);
      assert groups == prefix + [last];
      forall g | g in prefix
        ensures g.eventType != last.eventType
      {
        var i :| 0 <= i < |prefix| && prefix[i] == g;
        assert GroupTypes(groups)[i] == g.eventType;
        assert GroupTypes(groups)[|groups| - 1] == last.eventType;
      }
    }
  }

  /**
   The publish calls, counted with multiplicity and regardless of order: a call
   `(es, s)` is made exactly as often as `s` occurs in the subscription list,
   when `es` is the non-empty list of the batch's events of `s`'s type in batch
   order; no other call is made. So a type without a subscription is never
   published, and a type with N subscriptions is published N times, each time
   with its full event list.
   */
  lemma PublishCallsExact(events: seq<Event>, subs: seq<Subscription>)
    ensures forall c :: multiset(PublishCalls(events, subs))[c] ==
                        if c.events != [] && c.events == OfType(events, c.subscription.eventType)
                        then multiset(subs)[c.subscription] else 0
  {
    GroupIsStablePartition(events);
    CallsForCount(Group(events), subs);
    forall c: PublishCall {
      GroupMembership(events, c.subscription.eventType, c.events);
    }
  }

  /** A call is made for a pair exactly when the subscription is listed and the batch has events of its type. */
  lemma PublishCallIff(events: seq<Event>, subs: seq<Subscription>, es: seq<Event>, s: Subscription)
    ensures PublishCall(es, s) in PublishCalls(events, subs) <==>
            s in subs && es == OfType(events, s.eventType) && s.eventType in TypesIn(events)
  {
    PublishCallsExact(events, subs);
    OccursIff(events, s.eventType);
    assert multiset(PublishCalls(events, subs))[PublishCall(es, s)] > 0 <==> PublishCall(es, s) in PublishCalls(events, subs);
  }

  /** Events of a type that no subscription names reach no publish call. */
  lemma NoOrphanPublish(events: seq<Event>, subs: seq<Subscription>, t: string)
    requires forall s :: s in subs ==> s.eventType != t
    ensures forall c, e :: c in PublishCalls(events, subs) && e in c.events ==> e.eventType != t
  {
    forall c, e | c in PublishCalls(events, subs) && e in c.events
      ensures e.eventType != t
    {
      PublishCallIff(events, subs, c.events, c.subscription);
      OfTypeCount(events, c.subscription.eventType);
      assert multiset(OfType(events, c.subscription.eventType))[e] > 0;
    }
  }

  lemma {:induction false} SubscriptionsOfNone(subs: seq<Subscription>)
    ensures SubscriptionsOf(subs, {}) == []
    decreases |subs|
  {
    if subs != [] {
      SubscriptionsOfNone(subs[..|subs| - 1]);
    }
  }

  lemma {:induction false} SubscriptionsOfSplit(subs: seq<Subscription>, types: set<string>, t: string)
    requires t !in types
    ensures |SubscriptionsOf(subs, types + {t})| == |SubscriptionsOf(subs, types)| + |SubscriptionsOf(subs, {t})|
    decreases |subs|
  {
    if subs != [] {
      SubscriptionsOfSplit(subs[..|subs| - 1], types, t);
    }
  }

  lemma {:induction false} CallsForGroupLength(g: EventGroup, subs: seq<Subscription>)
    ensures |CallsForGroup(g, subs)| == |SubscriptionsOf(subs, {g.eventType})|
    decreases |subs|
  {
    if subs != [] {
      CallsForGroupLength(g, subs[..|subs| - 1]);
    }
  }

  lemma {:induction false} CallsForLength(groups: seq<EventGroup>, subs: seq<Subscription>)
    requires Distinct(GroupTypes(groups))
    ensures |CallsFor(groups, subs)| == |SubscriptionsOf(subs, set t | t in GroupTypes(groups))|
    decreases |groups|
  {
    var types := set t | t in GroupTypes(groups);
    if groups == [] {
      assert types == {};
      SubscriptionsOfNone(subs);
    } else {
      var prefix, last := groups[..|groups| - 1], groups[|groups| - 1];
      assert GroupTypes(prefix) == GroupTypes(groups)[..|groups| - 1];
      CallsForLength(prefix, subs);
      CallsForGroupLength(last, subs);
      var before := set t | t in GroupTypes(prefix);
      assert GroupTypes(groups) == GroupTypes(prefix) + [last.eventType];
      assert types == before + {last.eventType};
      assert last.eventType !in before by {
        forall i | 0 <= i < |prefix|
          ensures GroupTypes(prefix)[i] != last.eventType
        {
          assert GroupTypes(groups)[i] != GroupTypes(groups)[|groups| - 1];
        }
      }
      SubscriptionsOfSplit(subs, before, last.eventType);
    }
  }

  /** The number of publish calls is the number of listed subscriptions whose type occurs in the batch. */
  lemma PublishCallCount(events: seq<Event>, subs: seq<Subscription>)
    ensures |PublishCalls(events, subs)| == |SubscriptionsOf(subs, TypesIn(events))|
  {
    GroupIsStablePartition(events);
    CallsForLength(Group(events), subs);
    assert (set t | t in GroupTypes(Group(events))) == TypesIn(events);
  }

  // ----- Dead letters ----------------------------------------------------

  /** The failed records of one response, in response order. */
  function Failures(records: seq<DeliveryRecord>): seq<DeliveryRecord> {
    if records == [] then []
    else
      var prefix, last := records[..|records| - 1], records[|records| - 1];
      Failures(prefix) + (if last.Failed() then [last] else [])
  }

  /** A response's failures are its failed records, each as often as the response holds it. */
  lemma {:induction false} FailuresCount(records: seq<DeliveryRecord>)
    ensures forall x :: multiset(Failures(records))[x] == if x.Failed() then multiset(records)[x] else 0
    decreases |records|
  {
    if records != [] {
      var prefix, last := records[..|records| - 1], records[|records| - 1];
      assert records == prefix + [last];
      FailuresCount(prefix);
    }
  }

  /** Every record of every response, response after response. */
  function AllRecords(responses: seq<seq<DeliveryRecord>>): (r: seq<DeliveryRecord>)
    ensures forall x :: x in r <==> exists k :: 0 <= k < |responses| && x in responses[k]
  {
    if responses == [] then []
    else
      var prefix, last := responses[..|responses| - 1], responses[|responses| - 1];
      assert forall k :: 0 <= k < |prefix| ==> prefix[k] == responses[k];
      AllRecords(prefix) + last
  }

  /** The records handed to `EventsDeadLetterQueue.put`, response after response. */
  function DeadLetters(responses: seq<seq<DeliveryRecord>>): seq<DeliveryRecord> {
    if responses == [] then []
    else DeadLetters(responses[..|responses| - 1]) + Failures(responses[|responses| - 1])
  }

  lemma {:induction false} FailuresAppend(a: seq<DeliveryRecord>, b: seq<DeliveryRecord>)
    ensures Failures(a + b) == Failures(a) + Failures(b)
    decreases |b|
  {
    if b == [] {
      assert a + b == a;
    } else {
      var prefix, last := b[..|b| - 1], b[|b| - 1];
      assert (a + b)[..|a + b| - 1] == a + prefix;
      assert (a + b)[|a + b| - 1] == last;
      FailuresAppend(a, prefix);
    }
  }

  /**
   The dead letters are exactly the failed records of all responses, in
   order: each failed record is put once and unmodified, no successful
   record is put, and the number of puts is the number of failed records.
   */
  lemma {:induction false} DeadLettersAreFailures(responses: seq<seq<DeliveryRecord>>)
    ensures DeadLetters(responses) == Failures(AllRecords(responses))
    decreases |responses|
  {
    if responses != [] {
      var prefix, last := responses[..|responses| - 1], responses[|responses| - 1];
      DeadLettersAreFailures(prefix);
      FailuresAppend(AllRecords(prefix), last);
    }
  }

  /**
   Each failed record of the responses is dead-lettered as often as the
   responses hold it, and no successful record is.
   */
  lemma DeadLetterCount(responses: seq<seq<DeliveryRecord>>)
    ensures forall x :: multiset(DeadLetters(responses))[x] ==
                        if x.Failed() then multiset(AllRecords(responses))[x] else 0
  {
    DeadLettersAreFailures(responses);
    FailuresCount(AllRecords(responses));
  }

  /** A record is dead-lettered exactly when it failed and some response holds it. */
  lemma DeadLetterIff(responses: seq<seq<DeliveryRecord>>, x: DeliveryRecord)
    ensures x in DeadLetters(responses) <==> x.Failed() && exists k :: 0 <= k < |responses| && x in responses[k]
  {
    DeadLetterCount(responses);
    var all := AllRecords(responses);
    assert x in DeadLetters(responses) <==> multiset(DeadLetters(responses))[x] > 0;
    assert x in all <==> multiset(all)[x] > 0;
  }

  /**
   With a notifier that reports only on the events it was given, no record of
   an event whose type no subscription names is ever dead-lettered.
   */
  lemma NoOrphanDeadLetter(events: seq<Event>, subs: seq<Subscription>,
                           respond: (seq<Event>, Subscription) -> seq<DeliveryRecord>, t: string)
    requires forall s :: s in subs ==> s.eventType != t
    requires forall es, s, x :: x in respond(es, s) ==> x.event in es
    ensures forall x :: x in DeadLetters(Responses(PublishCalls(events, subs), respond)) ==> x.event.eventType != t
  {
    var calls := PublishCalls(events, subs);
    var responses := Responses(calls, respond);
    ResponsesAt(calls, respond);
    NoOrphanPublish(events, subs, t);
    forall x | x in DeadLetters(responses)
      ensures x.event.eventType != t
    {
      DeadLetterIff(responses, x);
      var k :| 0 <= k < |responses| && x in responses[k];
      assert x.event in calls[k].events;
    }
  }

  /**
   The publish calls do not depend on the notifiers at all (`PublishCalls`
   takes no responder), and the dead letters depend only on what the
   notifiers answer to those calls: two notifiers that agree on every call
   made yield the same dead letters.
   */
  lemma DeadLettersDependOnlyOnResponses(events: seq<Event>, subs: seq<Subscription>,
                                         r1: (seq<Event>, Subscription) -> seq<DeliveryRecord>,
                                         r2: (seq<Event>, Subscription) -> seq<DeliveryRecord>)
    requires forall c :: c in PublishCalls(events, subs) ==> r1(c.events, c.subscription) == r2(c.events, c.subscription)
    ensures DeadLetters(Responses(PublishCalls(events, subs), r1)) == DeadLetters(Responses(PublishCalls(events, subs), r2))
  {
    var calls := PublishCalls(events, subs);
    ResponsesAt(calls, r1);
    ResponsesAt(calls, r2);
    assert Responses(calls, r1) == Responses(calls, r2);
  }

  /** The response at each position answers the call at that position. */
  lemma {:induction false} ResponsesAt(calls: seq<PublishCall>, respond: (seq<Event>, Subscription) -> seq<DeliveryRecord>)
    ensures |Responses(calls, respond)| == |calls|
    ensures forall k :: 0 <= k < |calls| ==> Responses(calls, respond)[k] == respond(calls[k].events, calls[k].subscription)
    decreases |calls|
  {
    if calls != [] {
      ResponsesAt(calls[..|calls| - 1], respond);
    }
  }

  /** The notifier's response to each call, in call order. */
  function Responses(calls: seq<PublishCall>, respond: (seq<Event>, Subscription) -> seq<DeliveryRecord>)
    : seq<seq<DeliveryRecord>>
  {
    if calls == [] then []
    else
      var prefix, last := calls[..|calls| - 1], calls[|calls| - 1];
      Responses(prefix, respond) + [respond(last.events, last.subscription)]
  }

  lemma ResponsesSnoc(calls: seq<PublishCall>, c: PublishCall,
                      respond: (seq<Event>, Subscription) -> seq<DeliveryRecord>)
    ensures Responses(calls + [c], respond) == Responses(calls, respond) + [respond(c.events, c.subscription)]
  {
    assert (calls + [c])[..|calls|] == calls;
  }

  lemma {:induction false} ResponsesAppend(a: seq<PublishCall>, b: seq<PublishCall>,
                                           respond: (seq<Event>, Subscription) -> seq<DeliveryRecord>)
    ensures Responses(a + b, respond) == Responses(a, respond) + Responses(b, respond)
    decreases |b|
  {
    if b == [] {
      assert a + b == a;
    } else {
      var prefix, last := b[..|b| - 1], b[|b| - 1];
      assert (a + b)[..|a + b| - 1] == a + prefix;
      assert (a + b)[|a + b| - 1] == last;
      ResponsesAppend(a, prefix, respond);
    }
  }

  lemma DeadLettersSnoc(responses: seq<seq<DeliveryRecord>>, response: seq<DeliveryRecord>)
    ensures DeadLetters(responses + [response]) == DeadLetters(responses) + Failures(response)
  {
    assert (responses + [response])[..|responses|] == responses;
  }

  /** Dead-lettering distributes over the responses of consecutive calls. */
  lemma {:induction false} DeadLettersAppend(a: seq<seq<DeliveryRecord>>, b: seq<seq<DeliveryRecord>>)
    ensures DeadLetters(a + b) == DeadLetters(a) + DeadLetters(b)
    decreases |b|
  {
    if b == [] {
      assert a + b == a;
    } else {
      var prefix, last := b[..|b| - 1], b[|b| - 1];
      assert (a + b)[..|a + b| - 1] == a + prefix;
      assert (a + b)[|a + b| - 1] == last;
      DeadLettersAppend(a, prefix);
    }
  }

  lemma CallsForSnoc(groups: seq<EventGroup>, i: nat, subs: seq<Subscription>)
    requires i < |groups|
    ensures CallsFor(groups[..i + 1], subs) == CallsFor(groups[..i], subs) + CallsForGroup(groups[i], subs)
  {
    assert groups[..i + 1][..i] == groups[..i];
  }

  /** One more matching subscription extends a group's call log and dead-letter log by its call and failures. */
  lemma MatchStep(g: EventGroup, subs: seq<Subscription>, j: nat,
                  respond: (seq<Event>, Subscription) -> seq<DeliveryRecord>,
                  callsBase: seq<PublishCall>, calls: seq<PublishCall>,
                  putsBase: seq<DeliveryRecord>, puts: seq<DeliveryRecord>)
    requires j < |subs| && subs[j].eventType == g.eventType
    requires calls == callsBase + CallsForGroup(g, subs[..j]) + [PublishCall(g.events, subs[j])]
    requires puts == putsBase + DeadLetters(Responses(CallsForGroup(g, subs[..j]), respond))
                              + Failures(respond(g.events, subs[j]))
    ensures calls == callsBase + CallsForGroup(g, subs[..j + 1])
    ensures puts == putsBase + DeadLetters(Responses(CallsForGroup(g, subs[..j + 1]), respond))
  {
    var sent, call := CallsForGroup(g, subs[..j]), PublishCall(g.events, subs[j]);
    CallsForGroupSnoc(g, subs, j);
    AppendAssoc(callsBase, sent, [call]);
    DeadLettersOfCallSnoc(sent, call, respond);
    AppendAssoc(putsBase, DeadLetters(Responses(sent, respond)), Failures(respond(call.events, call.subscription)));
  }

  lemma CallsForGroupSnoc(g: EventGroup, subs: seq<Subscription>, j: nat)
    requires j < |subs| && subs[j].eventType == g.eventType
    ensures CallsForGroup(g, subs[..j + 1]) == CallsForGroup(g, subs[..j]) + [PublishCall(g.events, subs[j])]
  {
    assert subs[..j + 1][..j] == subs[..j];
  }

  lemma DeadLettersOfCallSnoc(sent: seq<PublishCall>, call: PublishCall,
                              respond: (seq<Event>, Subscription) -> seq<DeliveryRecord>)
    ensures DeadLetters(Responses(sent + [call], respond))
            == DeadLetters(Responses(sent, respond)) + Failures(respond(call.events, call.subscription))
  {
    ResponsesSnoc(sent, call, respond);
    DeadLettersSnoc(Responses(sent, respond), respond(call.events, call.subscription));
  }

  /** A subscription of another type adds no call. */
  lemma SkipStep(g: EventGroup, subs: seq<Subscription>, j: nat)
    requires j < |subs| && subs[j].eventType != g.eventType
    ensures CallsForGroup(g, subs[..j + 1]) == CallsForGroup(g, subs[..j])
  {
    assert subs[..j + 1][..j] == subs[..j];
  }

  /** One more group's calls extend the log by exactly those. */
  lemma CallsStep(groups: seq<EventGroup>, i: nat, subs: seq<Subscription>,
                  base: seq<PublishCall>, calls: seq<PublishCall>)
    requires i < |groups|
    requires calls == base + CallsFor(groups[..i], subs) + CallsForGroup(groups[i], subs)
    ensures calls == base + CallsFor(groups[..i + 1], subs)
  {
    CallsForSnoc(groups, i, subs);
    AppendAssoc(base, CallsFor(groups[..i], subs), CallsForGroup(groups[i], subs));
  }

  /**
   One more group's dead letters extend the log by exactly those: the step
   that keeps the log equal to the dead letters of the calls made so far.
   */
  lemma DeadLettersStep(groups: seq<EventGroup>, i: nat, subs: seq<Subscription>,
                        respond: (seq<Event>, Subscription) -> seq<DeliveryRecord>,
                        base: seq<DeliveryRecord>, puts: seq<DeliveryRecord>)
    requires i < |groups|
    requires puts == base + DeadLetters(Responses(CallsFor(groups[..i], subs), respond))
                          + DeadLetters(Responses(CallsForGroup(groups[i], subs), respond))
    ensures puts == base + DeadLetters(Responses(CallsFor(groups[..i + 1], subs), respond))
  {
    DeadLettersOfGroupsSnoc(groups, i, subs, respond);
    var da := DeadLetters(Responses(CallsFor(groups[..i], subs), respond));
    var db := DeadLetters(Responses(CallsForGroup(groups[i], subs), respond));
    AppendAssoc(base, da, db);
  }

  lemma DeadLettersOfGroupsSnoc(groups: seq<EventGroup>, i: nat, subs: seq<Subscription>,
                                respond: (seq<Event>, Subscription) -> seq<DeliveryRecord>)
    requires i < |groups|
    ensures DeadLetters(Responses(CallsFor(groups[..i + 1], subs), respond))
            == DeadLetters(Responses(CallsFor(groups[..i], subs), respond))
               + DeadLetters(Responses(CallsForGroup(groups[i], subs), respond))
  {
    var a, b := CallsFor(groups[..i], subs), CallsForGroup(groups[i], subs);
    CallsForSnoc(groups, i, subs);
    ResponsesAppend(a, b, respond);
    DeadLettersAppend(Responses(a, respond), Responses(b, respond));
  }
}
