/**
 * The JSON-LD records the pages hand to their head tags, as plain values.
 * Object members keep their source order, as `JSON.stringify` would emit them.
 */
module Json {
  import opened Wrappers

  datatype Json =
    | JNull
    | JBool(b: bool)
    | JNum(n: int)
    | JStr(s: string)
    | JArr(items: seq<Json>)
    | JObj(members: seq<(string, Json)>)

  /**
   * The value of the first member named `key`, like property access on an object: a parsed
   * JSON object here, an object literal of any value type elsewhere.
   */
  function Member<V>(members: seq<(string, V)>, key: string): (r: Option<V>)
    ensures r.Some? <==> exists i :: 0 <= i < |members| && members[i].0 == key
    ensures r.Some? ==> exists i :: 0 <= i < |members| && members[i] == (key, r.value)
  {
    if members == [] then None
    else if members[0].0 == key then Some(members[0].1)
    else Member(members[1..], key)
  }
}
