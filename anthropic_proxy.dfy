/**
 * api/claude.js: the same endpoint /api/claude deployed against Anthropic's
 * Messages API. It forwards the browser's messages verbatim, with a default
 * `max_tokens` and an optional `system`, and returns the upstream body as it is.
 */
module AnthropicProxy {
  import opened Wrappers
  import opened Json
  import opened Http

  const Endpoint: string := "https://api.anthropic.com/v1/messages"
  const ModelName: string := "claude-sonnet-4-20250514"
  const ApiVersion: string := "2023-06-01"
  const KeyMissing: string := "Server configuration error: API key missing."
  const UpstreamFailed: string := "Upstream API error."
  const Unreachable: string := "Failed to reach Anthropic API: "
  /** The TypeError message for `data.error` when the upstream body is `null`. */
  const NullData: string := "Cannot read properties of null (reading 'error')"
  const DefaultMaxTokens: real := 1024.0

  /** `max_tokens = 1024` in the destructuring: the default applies only when the field is absent. */
  function MaxTokens(req: Request): (m: Json)
    ensures Get(req.body, "max_tokens").Some? ==> m == Get(req.body, "max_tokens").value
    ensures Get(req.body, "max_tokens").None? ==> m == JNumber(DefaultMaxTokens)
  {
    match Get(req.body, "max_tokens")
    case Some(v) => v
    case None => JNumber(DefaultMaxTokens)
  }

  /** `system && typeof system === 'string'`: a non-empty string. */
  predicate HasSystem(req: Request)
  {
    Get(req.body, "system").Some? && Get(req.body, "system").value.JString?
    && Get(req.body, "system").value.s != ""
  }

  /** The payload built at lines 41-46: model, max_tokens and messages, and `system` when it is a non-empty string. */
  function Payload(req: Request): (p: Json)
    requires HasMessages(req)
    ensures p.JObject? && {"model", "max_tokens", "messages"} <= p.fields.Keys
    ensures p.fields["model"] == JString(ModelName)
    ensures p.fields["max_tokens"] == MaxTokens(req)
    ensures p.fields["messages"] == Messages(req).value
    ensures "system" in p.fields <==> HasSystem(req)
    ensures HasSystem(req) ==> p.fields["system"] == Get(req.body, "system").value
    ensures p.fields.Keys <= {"model", "max_tokens", "messages", "system"}
  {
    var base := map["model" := JString(ModelName), "max_tokens" := MaxTokens(req), "messages" := Messages(req).value];
    JObject(if HasSystem(req) then base["system" := Get(req.body, "system").value] else base)
  }

  /** The upstream headers: the key travels in `x-api-key`, with the pinned API version, and in no other header. */
  function Headers(key: string): (h: map<string, string>)
    ensures h.Keys == {"Content-Type", "x-api-key", "anthropic-version"}
    ensures h["x-api-key"] == key && h["anthropic-version"] == ApiVersion
    ensures h["Content-Type"] == "application/json"
  {
    map["Content-Type" := "application/json", "x-api-key" := key, "anthropic-version" := ApiVersion]
  }

  /** The guard ladder, then the upstream call with the key in `x-api-key`. */
  function Route(req: Request, key: Option<string>): (s: Step)
    ensures s.Respond? <==> Guards(req, key, KeyMissing).Some?
    ensures s.Respond? ==> Some(s.response) == Guards(req, key, KeyMissing)
    ensures s.Forward? ==> s.call == Outgoing(Endpoint, Headers(key.value), Payload(req))
  {
    match Guards(req, key, KeyMissing)
    case Some(r) => Respond(r)
    case None => Forward(Outgoing(Endpoint, Headers(key.value), Payload(req)))
  }

  /** `data.error || { message: 'Upstream API error.' }`: Anthropic's own error object when it has one. */
  function UpstreamError(data: Json): (e: Json)
    ensures Truthy(Get(Some(data), "error")) ==> e == Get(Some(data), "error").value
    ensures !Truthy(Get(Some(data), "error")) ==> Get(Some(e), "message") == Some(JString(UpstreamFailed))
  {
    var e := Get(Some(data), "error");
    if Truthy(e) then e.value else JObject(map["message" := JString(UpstreamFailed)])
  }

  /**
   * The response once the upstream call settles: a success exactly when
   * Anthropic answered successfully, with its body untouched.
   */
  function Complete(u: Upstream): (r: Response)
    ensures IsOk(r.status) <==> u.Replied? && IsOk(u.status)
    ensures IsOk(r.status) ==> r == Response(200, Some(u.data))
  {
    match u
    case Threw(m) => Failure(500, Unreachable + m)
    case Replied(status, data) =>
      if !IsOk(status) then
        if data == JNull then Failure(500, Unreachable + NullData)
        else Response(status, Some(JObject(map["error" := UpstreamError(data)])))
      else Response(200, Some(data))
  }

  /** The handler: the guards' answer when one refuses, and otherwise what the upstream call comes to. */
  function Handle(req: Request, key: Option<string>, upstream: Upstream): (r: Response)
    ensures Guards(req, key, KeyMissing).Some? ==> r == Guards(req, key, KeyMissing).value
    ensures Guards(req, key, KeyMissing).None? ==> r == Complete(upstream)
  {
    match Route(req, key)
    case Respond(r) => r
    case Forward(_) => Complete(upstream)
  }

  lemma OptionsFirst(req: Request, key: Option<string>, upstream: Upstream)
    requires req.verb == "OPTIONS"
    ensures Handle(req, key, upstream) == Response(200, None)
  {
  }

  lemma OtherMethodsRefused(req: Request, key: Option<string>, upstream: Upstream)
    requires req.verb != "OPTIONS" && req.verb != "POST"
    ensures Handle(req, key, upstream) == Failure(405, MethodNotAllowed)
  {
  }

  /** With no ANTHROPIC_API_KEY every POST gets the same 500, whatever its body. */
  lemma MissingKey(req: Request, key: Option<string>, upstream: Upstream)
    requires req.verb == "POST" && !KeyPresent(key)
    ensures Handle(req, key, upstream) == Failure(500, KeyMissing)
  {
  }

  lemma MissingMessagesRefused(req: Request, key: Option<string>, upstream: Upstream)
    requires req.verb == "POST" && KeyPresent(key) && !HasMessages(req)
    ensures Handle(req, key, upstream) == Failure(400, MissingMessages)
  {
  }

  /** Anthropic is called exactly when every guard passes; otherwise its result makes no difference. */
  lemma UpstreamOnlyAfterGuards(req: Request, key: Option<string>, u1: Upstream, u2: Upstream)
    ensures Route(req, key).Forward? <==> req.verb == "POST" && KeyPresent(key) && HasMessages(req)
    ensures Route(req, key).Forward? ==> Handle(req, key, u1) == Complete(u1)
    ensures Route(req, key).Respond? ==> Handle(req, key, u1) == Handle(req, key, u2)
  {
  }

  /** The key's value goes only into the `x-api-key` header: it never changes the response. */
  lemma KeyValueUnseen(req: Request, k1: string, k2: string, upstream: Upstream)
    requires k1 != "" && k2 != ""
    ensures Handle(req, Some(k1), upstream) == Handle(req, Some(k2), upstream)
  {
    GuardsIgnoreKeyValue(req, k1, k2, KeyMissing);
  }

  /** A failing upstream keeps its status and its own error object, or gets the fallback one. */
  lemma UpstreamErrorPassedOn(status: int, data: Json)
    requires !IsOk(status) && data != JNull
    ensures Complete(Replied(status, data)).status == status
    ensures Truthy(Get(Some(data), "error")) ==>
      Get(Complete(Replied(status, data)).body, "error") == Get(Some(data), "error")
    ensures !Truthy(Get(Some(data), "error")) ==>
      ErrorMessageOf(Complete(Replied(status, data)).body) == Some(JString(UpstreamFailed))
  {
  }

  /** A successful upstream body is relayed untouched. */
  lemma SuccessRelayed(status: int, data: Json)
    requires IsOk(status)
    ensures Complete(Replied(status, data)) == Response(200, Some(data))
  {
  }

  lemma ThrownError(m: string)
    ensures Complete(Threw(m)).status == 500
    ensures ErrorMessageOf(Complete(Threw(m)).body) == Some(JString(Unreachable + m))
  {
  }
}
