/**
 * JSON values as the browser code and the two proxies handle them, with the
 * JavaScript rules for truthiness and property access that the source relies on.
 * A property read that yields `undefined` is `None`.
 */
module Json {
  import opened Wrappers

  /** A parsed JSON value. Numbers are kept as exact reals. */
  datatype Json =
    | JNull
    | JBool(b: bool)
    | JNumber(n: real)
    | JString(s: string)
    | JArray(items: seq<Json>)
    | JObject(fields: map<string, Json>)

  /** JavaScript truthiness of a value that may be `undefined`. */
  predicate Truthy(v: Option<Json>)
  {
    match v
    case None => false
    case Some(JNull) => false
    case Some(JBool(b)) => b
    case Some(JNumber(n)) => n != 0.0
    case Some(JString(s)) => s != ""
    case Some(_) => true
  }

  /**
   * The optional-chaining read `v?.key`: undefined and null give undefined, and
   * so does every non-object (none of the keys the model reads is a property of
   * an array, string, number or boolean).
   */
  function Get(v: Option<Json>, key: string): (r: Option<Json>)
    ensures r.Some? ==> v.Some? && v.value.JObject? && key in v.value.fields
  {
    match v
    case Some(JObject(fields)) => if key in fields then Some(fields[key]) else None
    case _ => None
  }

  /** The optional-chaining read `v?.[0]`: the first element of an array, or the field "0" of an object. */
  function First(v: Option<Json>): (r: Option<Json>)
    ensures v.Some? && v.value.JArray? && |v.value.items| > 0 ==> r == Some(v.value.items[0])
    ensures v.Some? && v.value.JArray? && |v.value.items| == 0 ==> r.None?
  {
    match v
    case Some(JArray(items)) => if |items| > 0 then Some(items[0]) else None
    case Some(JObject(_)) => Get(v, "0")
    case _ => None
  }

  /** `{ error: { message } }`, the error body every failing response of the proxies carries. */
  function ErrorBody(message: Json): Json
  {
    JObject(map["error" := JObject(map["message" := message])])
  }

  /** Reads `body.error.message` back out of a body. */
  function ErrorMessageOf(body: Option<Json>): Option<Json>
  {
    Get(Get(body, "error"), "message")
  }

  lemma ErrorMessageOfErrorBody(message: Json)
    ensures ErrorMessageOf(Some(ErrorBody(message))) == Some(message)
  {
  }
}
