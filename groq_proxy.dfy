/**
 * claude.js: the endpoint /api/claude deployed against Groq's chat-completions
 * API. It relays the browser's messages, with the system prompt spliced in as a
 * first message, and re-wraps the answer as `content[0].text`, the shape the
 * browser reads.
 */
module GroqProxy {
  import opened Wrappers
  import opened Json
  import opened Http

  const Endpoint: string := "https://api.groq.com/openai/v1/chat/completions"
  const ModelName: string := "llama-3.3-70b-versatile"
  const KeyMissing: string := "Server config error: GROQ_API_KEY not set in Vercel environment variables."
  const UpstreamFailed: string := "Groq API error."
  const EmptyReply: string := "Empty response from Groq."
  const Unreachable: string := "Failed to reach Groq API: "
  /** The TypeError message for `data.error` when the upstream body is `null`. */
  const NullData: string := "Cannot read properties of null (reading 'error')"

  function SystemMessage(system: Json): Json
  {
    JObject(map["role" := JString("system"), "content" := system])
  }

  /**
   * `[...(system ? [{ role: 'system', content: system }] : []), ...messages]`:
   * the browser's messages in their order, after the system message when there
   * is a truthy one.
   */
  function ChatMessages(system: Option<Json>, messages: seq<Json>): (r: seq<Json>)
    ensures |r| == |messages| + (if Truthy(system) then 1 else 0)
    ensures r[|r| - |messages|..] == messages
    ensures Truthy(system) ==> r[0] == SystemMessage(system.value)
  {
    (if Truthy(system) then [SystemMessage(system.value)] else []) + messages
  }

  /** The JSON body sent to Groq: the model, the spliced messages and the two fixed sampling settings. */
  function Payload(req: Request): (p: Json)
    requires HasMessages(req)
    ensures p.JObject? && p.fields.Keys == {"model", "messages", "max_tokens", "temperature"}
    ensures p.fields["model"] == JString(ModelName)
    ensures p.fields["messages"] == JArray(ChatMessages(Get(req.body, "system"), Messages(req).value.items))
    ensures p.fields["max_tokens"] == JNumber(1024.0) && p.fields["temperature"] == JNumber(0.7)
  {
    JObject(map[
      "model" := JString(ModelName),
      "messages" := JArray(ChatMessages(Get(req.body, "system"), Messages(req).value.items)),
      "max_tokens" := JNumber(1024.0),
      "temperature" := JNumber(0.7)
    ])
  }

  /** The guard ladder, then the upstream call with the key as a bearer token. */
  function Route(req: Request, key: Option<string>): (s: Step)
    ensures s.Respond? <==> Guards(req, key, KeyMissing).Some?
    ensures s.Respond? ==> Some(s.response) == Guards(req, key, KeyMissing)
    ensures s.Forward? ==>
      s.call.url == Endpoint && s.call.body == Payload(req)
      && s.call.headers == map["Content-Type" := "application/json", "Authorization" := "Bearer " + key.value]
  {
    match Guards(req, key, KeyMissing)
    case Some(r) => Respond(r)
    case None =>
      Forward(Outgoing(Endpoint, map["Content-Type" := "application/json", "Authorization" := "Bearer " + key.value],
                       Payload(req)))
  }

  /**
   * `data?.choices?.[0]?.message?.content`: undefined as soon as one step of
   * the path is missing.
   */
  function ReplyText(data: Json): (r: Option<Json>)
    ensures Get(Some(data), "choices").None? ==> r.None?
    ensures Get(Some(data), "choices") == Some(JArray([])) ==> r.None?
    ensures r.Some? ==> Get(First(Get(Some(data), "choices")), "message").Some?
  {
    Get(Get(First(Get(Some(data), "choices")), "message"), "content")
  }

  /** The first choice's message content is the text read, whatever else the reply holds. */
  lemma FirstChoiceRead(text: Json, message: map<string, Json>, choice: map<string, Json>,
                        others: seq<Json>, fields: map<string, Json>)
    requires "content" in message && message["content"] == text
    requires "message" in choice && choice["message"] == JObject(message)
    requires "choices" in fields && fields["choices"] == JArray([JObject(choice)] + others)
    ensures ReplyText(JObject(fields)) == Some(text)
  {
    assert ([JObject(choice)] + others)[0] == JObject(choice);
  }

  /** The answer in the shape the browser reads: `{ content: [{ type: 'text', text }] }`. */
  function Wrapped(text: Json): Json
  {
    JObject(map["content" := JArray([JObject(map["type" := JString("text"), "text" := text])])])
  }

  /**
   * The response once the upstream call settles: a success exactly when Groq
   * answered successfully with a non-empty first choice, and otherwise an error
   * carrying a non-empty message.
   */
  function Complete(u: Upstream): (r: Response)
    ensures IsOk(r.status) <==> u.Replied? && IsOk(u.status) && Truthy(ReplyText(u.data))
    ensures !IsOk(r.status) ==> Truthy(ErrorMessageOf(r.body))
  {
    assert EmptyReply[0] == 'E' && UpstreamFailed[0] == 'G' && (Unreachable + NullData)[0] == 'F';
    assert u.Threw? ==> (Unreachable + u.message)[0] == 'F';
    match u
    case Threw(m) => Failure(500, Unreachable + m)
    case Replied(status, data) =>
      if !IsOk(status) then
        if data == JNull then Failure(500, Unreachable + NullData)
        else
          var m := ErrorMessageOf(Some(data));
          Response(status, Some(ErrorBody(if Truthy(m) then m.value else JString(UpstreamFailed))))
      else
        var text := ReplyText(data);
        if Truthy(text) then Response(200, Some(Wrapped(text.value))) else Failure(500, EmptyReply)
  }

  /** The handler: the guards' answer when one refuses, and otherwise what the upstream call comes to. */
  function Handle(req: Request, key: Option<string>, upstream: Upstream): (r: Response)
    ensures Guards(req, key, KeyMissing).Some? ==> r == Guards(req, key, KeyMissing).value
    ensures Guards(req, key, KeyMissing).None? ==> r == Complete(upstream)
  {
    match Route(req, key)
    case Respond(r) => r
    case Forward(_) => Complete(upstream)
  }

  /** A preflight gets an empty 200 before anything else is looked at. */
  lemma OptionsFirst(req: Request, key: Option<string>, upstream: Upstream)
    requires req.verb == "OPTIONS"
    ensures Handle(req, key, upstream) == Response(200, None)
  {
  }

  /** Every method other than POST and OPTIONS is refused with 405. */
  lemma OtherMethodsRefused(req: Request, key: Option<string>, upstream: Upstream)
    requires req.verb != "OPTIONS" && req.verb != "POST"
    ensures Handle(req, key, upstream) == Failure(405, MethodNotAllowed)
  {
  }

  /** With no GROQ_API_KEY every POST gets the same 500, whatever its body. */
  lemma MissingKey(req: Request, key: Option<string>, upstream: Upstream)
    requires req.verb == "POST" && !KeyPresent(key)
    ensures Handle(req, key, upstream) == Failure(500, KeyMissing)
  {
  }

  /** A POST whose `messages` is absent, not an array or empty gets 400. */
  lemma MissingMessagesRefused(req: Request, key: Option<string>, upstream: Upstream)
    requires req.verb == "POST" && KeyPresent(key) && !HasMessages(req)
    ensures Handle(req, key, upstream) == Failure(400, MissingMessages)
  {
  }

  /** Groq is called exactly when every guard passes; otherwise its result makes no difference. */
  lemma UpstreamOnlyAfterGuards(req: Request, key: Option<string>, u1: Upstream, u2: Upstream)
    ensures Route(req, key).Forward? <==> req.verb == "POST" && KeyPresent(key) && HasMessages(req)
    ensures Route(req, key).Forward? ==> Handle(req, key, u1) == Complete(u1)
    ensures Route(req, key).Respond? ==> Handle(req, key, u1) == Handle(req, key, u2)
  {
  }

  /** The key's value goes only into the Authorization header: it never changes the response. */
  lemma KeyValueUnseen(req: Request, k1: string, k2: string, upstream: Upstream)
    requires k1 != "" && k2 != ""
    ensures Handle(req, Some(k1), upstream) == Handle(req, Some(k2), upstream)
  {
    GuardsIgnoreKeyValue(req, k1, k2, KeyMissing);
  }

  /** A failing upstream keeps its status; the message is Groq's own, or the fallback. */
  lemma UpstreamErrorPassedOn(status: int, data: Json)
    requires !IsOk(status) && data != JNull
    ensures Complete(Replied(status, data)).status == status
    ensures Truthy(ErrorMessageOf(Some(data))) ==>
      ErrorMessageOf(Complete(Replied(status, data)).body) == ErrorMessageOf(Some(data))
    ensures !Truthy(ErrorMessageOf(Some(data))) ==>
      ErrorMessageOf(Complete(Replied(status, data)).body) == Some(JString(UpstreamFailed))
  {
  }

  /** A successful upstream: its first choice's content, re-wrapped, or a 500 when that is empty. */
  lemma UpstreamAnswer(status: int, data: Json)
    requires IsOk(status)
    ensures Truthy(ReplyText(data)) ==> Complete(Replied(status, data)) == Response(200, Some(Wrapped(ReplyText(data).value)))
    ensures !Truthy(ReplyText(data)) ==> Complete(Replied(status, data)) == Failure(500, EmptyReply)
  {
  }

  /** A thrown error becomes a 500 whose message starts with the fixed prefix. */
  lemma ThrownError(m: string)
    ensures Complete(Threw(m)).status == 500
    ensures ErrorMessageOf(Complete(Threw(m)).body) == Some(JString(Unreachable + m))
  {
  }

  /** Every guard's answer other than the preflight's is a failure with a message. */
  lemma GuardFailures(req: Request, key: Option<string>)
    requires req.verb != "OPTIONS" && Route(req, key).Respond?
    ensures !IsOk(Route(req, key).response.status)
    ensures Truthy(ErrorMessageOf(Route(req, key).response.body))
  {
    assert |MethodNotAllowed| > 0 && |KeyMissing| > 0 && |MissingMessages| > 0;
  }

  /**
   * Apart from the preflight, a response is successful exactly when Groq answered
   * successfully with a non-empty first choice; every other response carries
   * a non-empty error message.
   */
  lemma SuccessShape(req: Request, key: Option<string>, upstream: Upstream)
    requires req.verb != "OPTIONS"
    ensures IsOk(Handle(req, key, upstream).status) <==>
      Route(req, key).Forward? && upstream.Replied? && IsOk(upstream.status) && Truthy(ReplyText(upstream.data))
    ensures !IsOk(Handle(req, key, upstream).status) ==> Truthy(ErrorMessageOf(Handle(req, key, upstream).body))
  {
    if Route(req, key).Respond? {
      GuardFailures(req, key);
    }
  }

  /** The spliced message list of a request with a system prompt: that prompt first, then the conversation. */
  lemma SystemSpliced(req: Request, system: string)
    requires HasMessages(req) && Get(req.body, "system") == Some(JString(system)) && system != ""
    ensures Payload(req).fields["messages"] == JArray([SystemMessage(JString(system))] + Messages(req).value.items)
  {
  }
}
