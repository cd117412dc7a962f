/**
 * The JSON document tree the accessors read and write: an ordered, value-level
 * stand-in for JToken, JValue, JArray, JObject and JProperty.
 */
module Json {
  import opened Values
  import opened TypeExtensions

  datatype JToken =
    | JNull                                           // a JValue of token type Null
    | JValue(constructedFrom: TypeDesc, payload: Value)   // a JValue built by its constructor taking `constructedFrom`
    | JArray(items: seq<JToken>)
    | JObject(properties: seq<JProperty>)

  datatype JProperty = JProperty(name: string, value: JToken)

  /** Whether the token is a JValue, so that the cast `(JValue)token` succeeds. */
  predicate IsJValue(t: JToken) {
    t.JNull? || t.JValue?
  }
}
