/**
 The payload of an outbox row: the sender's arguments, stored as JSON with each datetime wrapped in an object of
 one key. The ISO text of a datetime is a parameter, known only to read back.
 */
module Payload {
  import opened Basics

  datatype Json = Null | Bool(b: bool) | Number(n: int) | Str(s: string) | Arr(items: seq<Json>) | Obj(fields: map<string, Json>)

  // An argument of a sender: a datetime, or a value JSON can hold.
  datatype Argument<D> = Moment(at: D) | Plain(json: Json)

  const TAG := "$dt"

  predicate Tagged(j: Json) { j.Obj? && j.fields.Keys == {TAG} }

  function Serialize<D>(arguments: map<string, Argument<D>>, iso: D -> string): map<string, Json> {
    map k | k in arguments ::
      match arguments[k]
      case Moment(at) => Obj(map[TAG := Str(iso(at))])
      case Plain(json) => json
  }

  // One stored value; None when the datetime does not parse, which raises.
  function Decoded<D>(j: Json, parse: string -> Option<D>): Option<Argument<D>> {
    if !Tagged(j) then Some(Plain(j))
    else
      var text := j.fields[TAG];
      if !text.Str? then None
      else match parse(text.s) case None => None case Some(at) => Some(Moment(at))
  }

  function Deserialize<D>(payload: map<string, Json>, parse: string -> Option<D>): Option<map<string, Argument<D>>> {
    if exists k | k in payload :: Decoded(payload[k], parse) == None then None
    else Some(map k | k in payload :: Decoded(payload[k], parse).value)
  }

  /** The round trip gives the arguments back exactly when none of them is itself an object whose only key is the
      tag: such an argument comes back as a datetime, or stops the row from loading. */
  lemma RoundTripExactly<D>(arguments: map<string, Argument<D>>, iso: D -> string, parse: string -> Option<D>)
    requires forall at :: parse(iso(at)) == Some(at)
    ensures Deserialize(Serialize(arguments, iso), parse) == Some(arguments) <==>
            forall k | k in arguments && arguments[k].Plain? && arguments[k].json.Obj? :: arguments[k].json.fields.Keys != {"$dt"}
  {
    var payload := Serialize(arguments, iso);
    forall k | k in arguments
      ensures Decoded(payload[k], parse) == Some(arguments[k]) <==>
              (arguments[k].Plain? ==> !Tagged(arguments[k].json))
    {
    }
    if forall k | k in arguments && arguments[k].Plain? && arguments[k].json.Obj? :: arguments[k].json.fields.Keys != {"$dt"} {
      forall k | k in payload ensures Decoded(payload[k], parse) == Some(arguments[k]) {}
      assert (map k | k in payload :: Decoded(payload[k], parse).value) == arguments;
    }
    if Deserialize(payload, parse) == Some(arguments) {
      forall k | k in arguments ensures Decoded(payload[k], parse) == Some(arguments[k]) {}
    }
  }

  /** An argument that reads like a stored datetime comes back as one, or not at all. */
  lemma TaggedArgumentIsLost<D>(text: string, iso: D -> string, parse: string -> Option<D>)
    requires forall at :: parse(iso(at)) == Some(at)
    ensures var arguments := map["note" := Plain(Obj(map["$dt" := Str(text)]))];
            Deserialize(Serialize(arguments, iso), parse) != Some(arguments)
  {
    var arguments: map<string, Argument<D>> := map["note" := Plain(Obj(map[TAG := Str(text)]))];
    RoundTripExactly(arguments, iso, parse);
    assert arguments["note"].Plain? && Tagged(arguments["note"].json);
  }
}
