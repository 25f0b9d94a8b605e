/**
 The standard response envelope every `/api/v1` endpoint returns: a JSON object
 that always carries `success`, `timestamp` and `version`, and then either the
 payload (`data`, optional `message`) or the failure (`error`, `code`).
 The timestamp is the caller's clock reading, already rendered as text.
 */
module ApiResponse {
  import opened Wrappers

  /** The API version reported in every envelope. */
  const ApiVersion: string := "v1"

  const UnknownError: string := "Unknown error"
  const InternalError: string := "INTERNAL_ERROR"

  /** The JSON values a handler may put in an envelope. */
  datatype Json =
    | JNull
    | JBool(b: bool)
    | JNum(n: real)
    | JStr(s: string)
    | JArr(items: seq<Json>)
    | JObj(fields: map<string, Json>)

  /** Python truthiness of a JSON value: `None`, `False`, `0`, and empty strings,
      lists and dicts are false. */
  predicate Falsy(j: Json) {
    match j
    case JNull => true
    case JBool(b) => !b
    case JNum(n) => n == 0.0
    case JStr(s) => s == ""
    case JArr(items) => items == []
    case JObj(fields) => fields == map[]
  }

  /** An optional argument counts as given when present and truthy. */
  predicate GivenText(t: Option<string>) {
    t.Some? && t.value != ""
  }

  type Envelope = map<string, Json>

  /** The shape clients rely on: the three common keys, and exactly one of the
      success part (`data`, maybe `message`) or the failure part (`error`, `code`). */
  predicate WellFormed(r: Envelope) {
    && "success" in r && r["success"].JBool?
    && "timestamp" in r && r["timestamp"].JStr?
    && "version" in r && r["version"] == JStr(ApiVersion)
    && (r["success"].b ==>
         && "data" in r && "error" !in r && "code" !in r
         && r.Keys <= {"success", "timestamp", "version", "data", "message"})
    && (!r["success"].b ==>
         && "error" in r && "code" in r && "data" !in r && "message" !in r
         && r.Keys == {"success", "timestamp", "version", "error", "code"})
  }

  /** Builds the envelope. A missing or falsy payload becomes the empty object; a
      missing or empty error text and code fall back to their defaults; a message
      is included only on success and only when one was given. */
  function CreateApiResponse(success: bool, data: Option<Json>, error: Option<string>,
                             code: Option<string>, message: Option<string>,
                             timestamp: string): (r: Envelope)
    ensures WellFormed(r)
    ensures r["success"] == JBool(success) && r["timestamp"] == JStr(timestamp)
    ensures success ==> r["data"] == (if data.Some? && !Falsy(data.value) then data.value else JObj(map[]))
    ensures success ==> ("message" in r <==> GivenText(message))
    ensures success && GivenText(message) ==> r["message"] == JStr(message.value)
    ensures !success ==> r["error"] == JStr(if GivenText(error) then error.value else UnknownError)
    ensures !success ==> r["code"] == JStr(if GivenText(code) then code.value else InternalError)
  {
    var common := map["success" := JBool(success), "timestamp" := JStr(timestamp), "version" := JStr(ApiVersion)];
    if success then
      var payload := if data.Some? && !Falsy(data.value) then data.value else JObj(map[]);
      var withData := common["data" := payload];
      if GivenText(message) then withData["message" := JStr(message.value)] else withData
    else
      common["error" := JStr(if GivenText(error) then error.value else UnknownError)]
            ["code" := JStr(if GivenText(code) then code.value else InternalError)]
  }
}
