/** JSON values, for the helpers that walk arbitrary resource content rather than
    a known FHIR record. An object is its list of properties in the order
    `Object.keys` reports them. A JavaScript object never repeats a key (`JSON.parse`
    keeps the last of repeated ones); this type does not rule repeats out, and on a
    repeated key a lookup sees the first property while the walks visit all. */
module Json {
  import opened Common
  import opened Numbers

  datatype Field = Field(key: string, value: Json)

  datatype Json =
    | JNull
    | JBool(b: bool)
    | JNum(n: Decimal)
    | JStr(s: string)
    | JArr(items: seq<Json>)
    | JObj(fields: seq<Field>)

  /** JavaScript falsiness: `null` (and a missing value), `false`, `0` and `''`;
      arrays and objects are always truthy. */
  predicate Falsy(j: Json) {
    j.JNull? || j == JBool(false) || (j.JNum? && j.n.mantissa == 0) || j == JStr("")
  }

  /** The first property with the given key. */
  function Lookup(fs: seq<Field>, key: string): (r: Option<Json>)
    ensures r.Some? ==> exists k :: 0 <= k < |fs| && fs[k] == Field(key, r.value)
    ensures r.None? ==> forall k :: 0 <= k < |fs| ==> fs[k].key != key
  {
    if fs == [] then None
    else if fs[0].key == key then Some(fs[0].value)
    else Lookup(fs[1..], key)
  }

  /** `x[key]`: the property of an object; a missing property, and any property
      of a value that is not an object, reads as `null`. */
  function Get(j: Json, key: string): (r: Json)
    ensures r != JNull ==> j.JObj? && Lookup(j.fields, key) == Some(r)
    ensures j.JObj? && Lookup(j.fields, key).Some? ==> r == Lookup(j.fields, key).value
  {
    if j.JObj? then match Lookup(j.fields, key) case Some(v) => v case None => JNull
    else JNull
  }

  /** `x || fallback`. */
  function OrJson(x: Json, fallback: Json): Json {
    if Falsy(x) then fallback else x
  }
}
