/** The JSON values the handlers put into a response: `fiber.Map` envelopes,
    encoded structs and slices of them. Timestamps stay opaque ticks. */
module Json {

  datatype Json =
    | JInt(n: int)
    | JStr(s: string)
    | JTime(tick: nat)
    | JArr(items: seq<Json>)
    | JObj(fields: map<string, Json>)

  /** No object anywhere inside `j` has a member named `key`. */
  predicate KeyAbsent(j: Json, key: string)
  {
    match j
    case JArr(items) => forall i :: 0 <= i < |items| ==> KeyAbsent(items[i], key)
    case JObj(fields) => key !in fields && forall k :: k in fields ==> KeyAbsent(fields[k], key)
    case _ => true
  }
}
