/**
 The router's data model: decoded events, subscriptions, per-event delivery
 outcomes, and the Kinesis records that carry encoded events.
 */
module Events {
  import opened Wrappers
  import opened Json

  /** A decoded event `{type, payload}`. */
  datatype Event = Event(eventType: string, payload: Json)

  /** A routing rule `{type, subscriberType, subscribedResource}`. */
  datatype Subscription = Subscription(eventType: string, subscriberType: string, subscribedResource: string)

  /**
   One entry of a notifier's response `{event, subscription, error?, errorCode?}`.
   The optional fields are absent on success.
   */
  datatype DeliveryRecord = DeliveryRecord(
    event: Event,
    subscription: Subscription,
    error: Option<string>,
    errorCode: Option<int>)
  {
    /** A record reports a failure when it carries `error` or `errorCode`. */
    predicate Failed() {
      error.Some? || errorCode.Some?
    }
  }

  /** The inner `kinesis` object of a stream record; `data` is the encoded event. */
  datatype KinesisData = KinesisData(data: seq<Token>)

  /** One element of a stream batch's `Records`. */
  datatype KinesisRecord = KinesisRecord(kinesis: KinesisData, eventID: string)

  /** The transport identifier that `buildKinesisEvent` gives every record. */
  const BuildEventID: string := "shardId-000:12345"

  /** The JSON object `{type, payload}` written for an event. */
  function ToJson(e: Event): Json {
    JObject([Field("type", JString(e.eventType)), Field("payload", e.payload)])
  }

  /**
   Reads an event back from a parsed JSON value: it must be an object whose
   `type` is a string and that has a `payload`; other properties are ignored.
   */
  function FromJson(v: Json): (r: Option<Event>)
    ensures r.Some? <==> v.JObject? && Lookup(v.fields, "type").Some? && Lookup(v.fields, "type").value.JString?
                         && Lookup(v.fields, "payload").Some?
    ensures r.Some? ==> v.JObject?
                        && Lookup(v.fields, "type") == Some(JString(r.value.eventType))
                        && Lookup(v.fields, "payload") == Some(r.value.payload)
  {
    if !v.JObject? then None
    else
      match (Lookup(v.fields, "type"), Lookup(v.fields, "payload"))
      case (Some(JString(t)), Some(p)) => Some(Event(t, p))
      case _ => None
  }

  /** Builds the stream record for one event, encoding the event into `kinesis.data`. */
  function BuildKinesisEvent(e: Event): KinesisRecord {
    KinesisRecord(KinesisData(Serialize(ToJson(e))), BuildEventID)
  }

  /** Builds a whole batch's `Records`, one record per event in order. */
  function BuildRecords(events: seq<Event>): (r: seq<KinesisRecord>)
    ensures |r| == |events|
    ensures forall i :: 0 <= i < |r| ==> r[i] == BuildKinesisEvent(events[i])
  {
    if events == [] then [] else BuildRecords(events[..|events| - 1]) + [BuildKinesisEvent(events[|events| - 1])]
  }

  /** Decodes one stream record; `None` when the data is not a well-formed event. */
  function DecodeRecord(r: KinesisRecord): Option<Event> {
    match Parse(r.kinesis.data)
    case None => None
    case Some(v) => FromJson(v)
  }

  /**
   A record decodes exactly when its data parses to an object with a string
   `type` and a `payload`, and then it decodes to the event those two name.
   */
  lemma DecodeRecordIff(r: KinesisRecord)
    ensures DecodeRecord(r).Some? <==>
              Parse(r.kinesis.data).Some? && Parse(r.kinesis.data).value.JObject?
              && Lookup(Parse(r.kinesis.data).value.fields, "type").Some?
              && Lookup(Parse(r.kinesis.data).value.fields, "type").value.JString?
              && Lookup(Parse(r.kinesis.data).value.fields, "payload").Some?
    ensures DecodeRecord(r).Some? ==>
              DecodeRecord(r).value
              == Event(Lookup(Parse(r.kinesis.data).value.fields, "type").value.s,
                       Lookup(Parse(r.kinesis.data).value.fields, "payload").value)
  {
  }

  /**
   Decodes a whole batch in order. A single undecodable record makes the
   whole batch undecodable.
   */
  function DecodeBatch(records: seq<KinesisRecord>): (r: Option<seq<Event>>)
    ensures r.Some? <==> forall i :: 0 <= i < |records| ==> DecodeRecord(records[i]).Some?
    ensures r.Some? ==> |r.value| == |records|
                        && forall i :: 0 <= i < |records| ==> DecodeRecord(records[i]) == Some(r.value[i])
  {
    if records == [] then Some([])
    else
      match DecodeBatch(records[..|records| - 1])
      case None => None
      case Some(prefix) =>
        match DecodeRecord(records[|records| - 1])
        case None => None
        case Some(e) =>
          DecodeSnoc(records, prefix, e);
          Some(prefix + [e])
  }

  /** The batch contract carries over from a decoded prefix to one more decoded record. */
  lemma DecodeSnoc(records: seq<KinesisRecord>, prefix: seq<Event>, e: Event)
    requires records != [] && |prefix| == |records| - 1
    requires forall i :: 0 <= i < |prefix| ==> DecodeRecord(records[..|records| - 1][i]) == Some(prefix[i])
    requires DecodeRecord(records[|records| - 1]) == Some(e)
    ensures forall i :: 0 <= i < |records| ==> DecodeRecord(records[i]) == Some((prefix + [e])[i])
  {
    forall i | 0 <= i < |records|
      ensures DecodeRecord(records[i]) == Some((prefix + [e])[i])
    {
      if i < |prefix| {
        assert records[..|records| - 1][i] == records[i];
      }
    }
  }

  /** Decoding a record built for an event gives back that event. */
  lemma DecodeBuilt(e: Event)
    ensures DecodeRecord(BuildKinesisEvent(e)) == Some(e)
  {
    ParseSerialize(ToJson(e));
  }

  /** Decoding a batch built from events gives back exactly those events, in order. */
  lemma DecodeBuiltBatch(events: seq<Event>)
    ensures DecodeBatch(BuildRecords(events)) == Some(events)
  {
    var records := BuildRecords(events);
    forall i | 0 <= i < |records|
      ensures DecodeRecord(records[i]) == Some(events[i])
    {
      DecodeBuilt(events[i]);
    }
    var d := DecodeBatch(records);
    assert d.Some?;
    assert d.value == events by {
      forall i | 0 <= i < |events|
        ensures d.value[i] == events[i]
      {
        assert DecodeRecord(records[i]) == Some(d.value[i]);
      }
    }
  }
}
