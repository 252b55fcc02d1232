/**
 Structured event payloads and their wire form.

 The producer of a Kinesis record writes `JSON.stringify(evt)` and then
 base64-encodes the text; the router reverses both steps. Neither the JSON
 text syntax nor base64 is modelled here: the wire form is the token stream
 a JSON lexer would produce, `Serialize` plays the part of the encoder and
 `Parse` the part of the decoder, and the one property the router relies on,
 that decoding inverts encoding, is proved as `ParseSerialize`.
 */
module Json {
  import opened Wrappers
  import opened Seqs

  /** A JSON value. Object fields keep their textual order. */
  datatype Json =
    | JNull
    | JBool(b: bool)
    | JNumber(n: int)
    | JString(s: string)
    | JArray(items: seq<Json>)
    | JObject(fields: seq<Field>)

  datatype Field = Field(key: string, value: Json)

  /** The lexical units of JSON text. */
  datatype Token =
    | TNull
    | TBool(b: bool)
    | TNumber(n: int)
    | TString(s: string)
    | TBeginArray
    | TEndArray
    | TBeginObject
    | TKey(key: string)
    | TEndObject

  function Serialize(v: Json): seq<Token>
    decreases v
  {
    match v
    case JNull => [TNull]
    case JBool(b) => [TBool(b)]
    case JNumber(n) => [TNumber(n)]
    case JString(s) => [TString(s)]
    case JArray(items) => [TBeginArray] + SerializeItems(items) + [TEndArray]
    case JObject(fields) => [TBeginObject] + SerializeFields(fields) + [TEndObject]
  }

  function SerializeItems(items: seq<Json>): seq<Token>
    decreases items
  {
    if items == [] then [] else Serialize(items[0]) + SerializeItems(items[1..])
  }

  function SerializeFields(fields: seq<Field>): seq<Token>
    decreases fields
  {
    if fields == [] then []
    else [TKey(fields[0].key)] + Serialize(fields[0].value) + SerializeFields(fields[1..])
  }

  /** Parses one value from the front of `ts` and returns it with the tokens after it. */
  function ParseValue(ts: seq<Token>): (r: Option<(Json, seq<Token>)>)
    ensures r.Some? ==> |r.value.1| < |ts|
    decreases |ts|, 0
  {
    if ts == [] then None
    else
      match ts[0]
      case TNull => Some((JNull, ts[1..]))
      case TBool(b) => Some((JBool(b), ts[1..]))
      case TNumber(n) => Some((JNumber(n), ts[1..]))
      case TString(s) => Some((JString(s), ts[1..]))
      case TBeginArray =>
        (match ParseItems(ts[1..])
         case None => None
         case Some((items, rest)) => Some((JArray(items), rest)))
      case TBeginObject =>
        (match ParseFields(ts[1..])
         case None => None
         case Some((fields, rest)) => Some((JObject(fields), rest)))
      case _ => None
  }

  /** Parses array elements up to and including the closing `TEndArray`. */
  function ParseItems(ts: seq<Token>): (r: Option<(seq<Json>, seq<Token>)>)
    ensures r.Some? ==> |r.value.1| < |ts|
    decreases |ts|, 1
  {
    if ts == [] then None
    else if ts[0] == TEndArray then Some(([], ts[1..]))
    else
      match ParseValue(ts)
      case None => None
      case Some((v, rest)) =>
        match ParseItems(rest)
        case None => None
        case Some((vs, rest')) => Some(([v] + vs, rest'))
  }

  /** Parses object fields up to and including the closing `TEndObject`. */
  function ParseFields(ts: seq<Token>): (r: Option<(seq<Field>, seq<Token>)>)
    ensures r.Some? ==> |r.value.1| < |ts|
    decreases |ts|, 1
  {
    if ts == [] then None
    else if ts[0] == TEndObject then Some(([], ts[1..]))
    else if !ts[0].TKey? then None
    else
      match ParseValue(ts[1..])
      case None => None
      case Some((v, rest)) =>
        match ParseFields(rest)
        case None => None
        case Some((fs, rest')) => Some(([Field(ts[0].key, v)] + fs, rest'))
  }

  /** Decodes a complete wire form: exactly one value and nothing after it. */
  function Parse(ts: seq<Token>): Option<Json> {
    match ParseValue(ts)
    case Some((v, rest)) => if rest == [] then Some(v) else None
    case None => None
  }

  /**
   Property lookup as `JSON.parse` leaves it: when a key occurs more than
   once, the last occurrence wins.
   */
  function Lookup(fields: seq<Field>, key: string): (r: Option<Json>)
    ensures r.Some? <==> exists i :: 0 <= i < |fields| && fields[i].key == key
    ensures r.Some? ==> exists i :: 0 <= i < |fields| && fields[i] == Field(key, r.value)
                                    && forall j :: i < j < |fields| ==> fields[j].key != key
  {
    if fields == [] then None
    else if fields[|fields| - 1].key == key then Some(fields[|fields| - 1].value)
    else Lookup(fields[..|fields| - 1], key)
  }

  lemma {:induction false} ParseSerializeRest(v: Json, rest: seq<Token>)
    ensures ParseValue(Serialize(v) + rest) == Some((v, rest))
    decreases v
  {
    match v
    case JArray(items) =>
      assert Serialize(v) + rest == [TBeginArray] + (SerializeItems(items) + [TEndArray] + rest);
      ParseSerializeItems(items, rest);
    case JObject(fields) =>
      assert Serialize(v) + rest == [TBeginObject] + (SerializeFields(fields) + [TEndObject] + rest);
      ParseSerializeFields(fields, rest);
    case _ =>
  }

  lemma {:induction false} ParseSerializeItems(items: seq<Json>, rest: seq<Token>)
    ensures ParseItems(SerializeItems(items) + [TEndArray] + rest) == Some((items, rest))
    decreases items
  {
    if items != [] {
      var first, more := Serialize(items[0]), SerializeItems(items[1..]);
      var tail := more + [TEndArray] + rest;
      AppendAssoc(first, more, [TEndArray]);
      AppendAssoc(first, more + [TEndArray], rest);
      ParseSerializeRest(items[0], tail);
      ParseSerializeItems(items[1..], rest);
      assert [items[0]] + items[1..] == items;
    }
  }

  lemma {:induction false} ParseSerializeFields(fields: seq<Field>, rest: seq<Token>)
    ensures ParseFields(SerializeFields(fields) + [TEndObject] + rest) == Some((fields, rest))
    decreases fields
  {
    if fields != [] {
      var key, value := [TKey(fields[0].key)], Serialize(fields[0].value);
      var more := SerializeFields(fields[1..]);
      var tail := more + [TEndObject] + rest;
      AppendAssoc(key + value, more, [TEndObject]);
      AppendAssoc(key + value, more + [TEndObject], rest);
      AppendAssoc(key, value, tail);
      DropHead(TKey(fields[0].key), value + tail);
      ParseSerializeRest(fields[0].value, tail);
      ParseSerializeFields(fields[1..], rest);
      assert [Field(fields[0].key, fields[0].value)] + fields[1..] == fields;
    }
  }

  /** Decoding inverts encoding: `JSON.parse(JSON.stringify(v))` gives `v` back. */
  lemma ParseSerialize(v: Json)
    ensures Parse(Serialize(v)) == Some(v)
  {
    ParseSerializeRest(v, []);
    assert Serialize(v) + [] == Serialize(v);
  }
}
