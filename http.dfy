/**
 * What the two serverless handlers (claude.js and api/claude.js) share: the
 * request and response they see, the upstream call's result taken as an input,
 * and the guard ladder both run before calling upstream (lines 20-39 of
 * claude.js and 20-38 of api/claude.js). Headers the handlers set on every
 * response (CORS) are not modelled.
 */
module Http {
  import opened Wrappers
  import opened Json

  /** The incoming request: its method (`req.method`) and `req.body` (`None` when undefined). */
  datatype Request = Request(verb: string, body: Option<Json>)

  /** The response sent: `res.status(status).json(body)`, or `.end()` with no body. */
  datatype Response = Response(status: int, body: Option<Json>)

  /**
   * How the awaited upstream call settles: a reply whose body parsed as JSON,
   * or a thrown error (fetch failing, or `upstream.json()` failing) with its message.
   */
  datatype Upstream = Replied(status: int, data: Json) | Threw(message: string)

  /** The call the handler makes upstream. */
  datatype Outgoing = Outgoing(url: string, headers: map<string, string>, body: Json)

  /** Where the guard ladder leaves a request: answered at once, or sent upstream. */
  datatype Step = Respond(response: Response) | Forward(call: Outgoing)

  /** `response.ok`. */
  predicate IsOk(status: int)
  {
    200 <= status <= 299
  }

  /** `!apiKey` is false: the variable is set and not empty. */
  predicate KeyPresent(key: Option<string>)
  {
    key.Some? && key.value != ""
  }

  const MethodNotAllowed: string := "Method Not Allowed. Use POST."
  const MissingMessages: string := "Missing required field: messages (array)."

  /** `{ error: { message } }` with status `status`. */
  function Failure(status: int, message: string): (r: Response)
    ensures r.status == status && ErrorMessageOf(r.body) == Some(JString(message))
  {
    Response(status, Some(ErrorBody(JString(message))))
  }

  /** The `messages` field of the body read by destructuring `req.body || {}`. */
  function Messages(req: Request): Option<Json>
  {
    Get(req.body, "messages")
  }

  /** `messages && Array.isArray(messages) && messages.length !== 0`. */
  predicate HasMessages(req: Request)
  {
    Messages(req).Some? && Messages(req).value.JArray? && Messages(req).value.items != []
  }

  /**
   * The guards in the handlers' order: OPTIONS gets an empty 200, any other
   * method but POST a 405, a missing key a 500 with `keyMissing`, and a body
   * without a non-empty `messages` array a 400. `None` when every guard passes.
   */
  function Guards(req: Request, key: Option<string>, keyMissing: string): (r: Option<Response>)
    ensures req.verb == "OPTIONS" ==> r == Some(Response(200, None))
    ensures req.verb != "OPTIONS" && req.verb != "POST" ==> r == Some(Failure(405, MethodNotAllowed))
    ensures req.verb == "POST" && !KeyPresent(key) ==> r == Some(Failure(500, keyMissing))
    ensures req.verb == "POST" && KeyPresent(key) && !HasMessages(req) ==> r == Some(Failure(400, MissingMessages))
    ensures r.None? <==> req.verb == "POST" && KeyPresent(key) && HasMessages(req)
  {
    if req.verb == "OPTIONS" then Some(Response(200, None))
    else if req.verb != "POST" then Some(Failure(405, MethodNotAllowed))
    else if !KeyPresent(key) then Some(Failure(500, keyMissing))
    else if !HasMessages(req) then Some(Failure(400, MissingMessages))
    else None
  }

  /** The key is checked before the body is read: with no key, the body makes no difference. */
  lemma KeyBeforeBody(verb: string, b1: Option<Json>, b2: Option<Json>, key: Option<string>, keyMissing: string)
    requires !KeyPresent(key)
    ensures Guards(Request(verb, b1), key, keyMissing) == Guards(Request(verb, b2), key, keyMissing)
  {
  }

  /** Only whether a key is set matters to the guards, not its value. */
  lemma GuardsIgnoreKeyValue(req: Request, k1: string, k2: string, keyMissing: string)
    requires k1 != "" && k2 != ""
    ensures Guards(req, Some(k1), keyMissing) == Guards(req, Some(k2), keyMissing)
  {
  }
}
