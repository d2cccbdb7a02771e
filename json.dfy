/** The values `JSON.parse` produces, and the property reads the relay performs on a parsed
    message (`msg.type`, `msg.pos`, `msg.vel`). Parsing itself is not modelled: the relay
    receives it as a function from a line to a value, or to nothing when the line is not JSON. */
module Json {
  import opened Wrappers

  datatype Value =
    | Null
    | Bool(b: bool)
    | Number(n: real)
    | Str(s: string)
    | Array(items: seq<Value>)
    | Object(fields: map<string, Value>)

  /** The outcome of evaluating `v.key` in JavaScript. */
  datatype Read = Thrown | Undefined | Found(value: Value)

  /** `v.key` as the relay evaluates it, for the keys it reads ("type", "pos", "vel"; none of
      them is inherited by JSON values): reading a property of `null` throws a TypeError,
      an object yields its own member or `undefined`, and every other value yields
      `undefined`. */
  function ReadAsWritten(v: Value, key: string): (r: Read)
    ensures r == Thrown <==> v == Null
    ensures r.Found? <==> v.Object? && key in v.fields
    ensures r.Found? ==> r.value == v.fields[key]
  {
    match v
    case Null => Thrown
    case Object(fields) => if key in fields then Found(fields[key]) else Undefined
    case _ => Undefined
  }

  /** `v.key` as the relay means it: an object's own member, and `undefined` (None) for
      anything else, `null` included. */
  function Get(v: Value, key: string): (r: Option<Value>)
    ensures r.Some? <==> v.Object? && key in v.fields
    ensures r.Some? ==> r.value == v.fields[key]
  {
    if v.Object? && key in v.fields then Some(v.fields[key]) else None
  }

  /** The two reads agree on every value except `null`. */
  lemma GetAgreesAwayFromNull(v: Value, key: string)
    requires v != Null
    ensures ReadAsWritten(v, key) == if Get(v, key).Some? then Found(Get(v, key).value) else Undefined
  {
  }
}
