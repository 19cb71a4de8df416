/**
 * callClaude (js/Script.js:71-83): the browser's call to /api/claude and its
 * reading of the response, whichever of the two deployments answers it.
 */
module Client {
  import opened Wrappers
  import opened Json
  import opened Http
  import GroqProxy
  import AnthropicProxy

  /** The request callClaude sends: `{ system, messages: [{ role: 'user', content }] }`. */
  function ClientRequest(system: string, userMessage: string): (req: Request)
    ensures req.verb == "POST" && HasMessages(req)
  {
    Request("POST", Some(JObject(map[
      "system" := JString(system),
      "messages" := JArray([JObject(map["role" := JString("user"), "content" := JString(userMessage)])])
    ])))
  }

  /**
   * How callClaude's promise settles: resolved with `data.content[0].text`
   * (`None` for undefined), or rejected, with the Error's message when callClaude
   * throws one itself and `None` for a SyntaxError or TypeError raised on the way.
   */
  datatype Call = Resolved(value: Option<Json>) | Rejected(message: Option<Json>)

  /** `v[0]` for a value that is neither null nor undefined. */
  function Index0(v: Json): (r: Option<Json>)
    ensures v.JArray? ==> r == First(Some(v))
    ensures v.JObject? ==> r == Get(Some(v), "0")
    ensures v.JString? ==> (r.Some? <==> v.s != "") && (r.Some? ==> r == Some(JString(v.s[..1])))
    ensures v.JNumber? || v.JBool? || v.JNull? ==> r.None?
  {
    match v
    case JString(s) => if s != "" then Some(JString(s[..1])) else None
    case _ => First(Some(v))
  }

  function CallClaude(resp: Response): (c: Call)
    ensures c.Resolved? ==> IsOk(resp.status)
    ensures resp.body.None? || resp.body == Some(JNull) ==> c == Rejected(None)
    ensures resp.body.Some? && resp.body.value != JNull && !IsOk(resp.status) ==>
      c == Rejected(Some(if Truthy(ErrorMessageOf(resp.body)) then ErrorMessageOf(resp.body).value
                         else JString("API error")))
    ensures resp.body.Some? && resp.body.value != JNull && IsOk(resp.status) ==>
      var content := Get(resp.body, "content");
      (c.Resolved? <==>
         content.Some? && content.value != JNull && Index0(content.value).Some? && Index0(content.value) != Some(JNull)) &&
      (c.Resolved? ==> c.value == Get(Index0(content.value), "text"))
  {
    match resp.body
    case None => Rejected(None)   // response.json() on an empty body
    case Some(data) =>
      if data == JNull then Rejected(None)   // data.error or data.content of null
      else if !IsOk(resp.status) then
        var m := ErrorMessageOf(Some(data));
        Rejected(Some(if Truthy(m) then m.value else JString("API error")))
      else
        var content := Get(Some(data), "content");
        if content.None? || content.value == JNull then Rejected(None)
        else
          var first := Index0(content.value);
          if first.None? || first.value == JNull then Rejected(None)
          else Resolved(Get(first, "text"))
  }

  /**
   * The reply text the tools go on with: only a string survives, since the
   * callers' `text.split` and `text.indexOf` throw on anything else.
   */
  function ReplyText(resp: Response): (t: Option<string>)
    ensures t.Some? <==> CallClaude(resp).Resolved? && CallClaude(resp).value.Some? && CallClaude(resp).value.value.JString?
    ensures t.Some? ==> CallClaude(resp) == Resolved(Some(JString(t.value)))
  {
    match CallClaude(resp)
    case Resolved(Some(JString(s))) => Some(s)
    case _ => None
  }

  /** The client's request always gets past the body guard, so either proxy forwards it once a key is set. */
  lemma ClientRequestForwarded(system: string, userMessage: string, key: Option<string>)
    requires KeyPresent(key)
    ensures GroqProxy.Route(ClientRequest(system, userMessage), key).Forward?
    ensures AnthropicProxy.Route(ClientRequest(system, userMessage), key).Forward?
  {
  }

  /** Groq is sent the system prompt, when there is one, and then the user's message. */
  lemma GroqConversation(system: string, userMessage: string)
    requires system != ""
    ensures GroqProxy.Payload(ClientRequest(system, userMessage)).fields["messages"]
      == JArray([GroqProxy.SystemMessage(JString(system)),
                 JObject(map["role" := JString("user"), "content" := JString(userMessage)])])
  {
    GroqProxy.SystemSpliced(ClientRequest(system, userMessage), system);
  }

  /** Groq's first choice, when it is a non-empty string, is exactly what the browser goes on with. */
  lemma GroqTextReachesClient(req: Request, key: Option<string>, status: int, data: Json, text: string)
    requires GroqProxy.Route(req, key).Forward?
    requires IsOk(status) && GroqProxy.ReplyText(data) == Some(JString(text)) && text != ""
    ensures ReplyText(GroqProxy.Handle(req, key, Replied(status, data))) == Some(text)
  {
    GroqProxy.UpstreamOnlyAfterGuards(req, key, Replied(status, data), Replied(status, data));
    GroqProxy.UpstreamAnswer(status, data);
    WrappedRead(text);
  }

  /** The reply wrapper the Groq deployment builds is read back by the browser as its text. */
  lemma WrappedRead(text: string)
    ensures ReplyText(Response(200, Some(GroqProxy.Wrapped(JString(text))))) == Some(text)
  {
    var block := JObject(map["type" := JString("text"), "text" := JString(text)]);
    assert Get(Some(GroqProxy.Wrapped(JString(text))), "content") == Some(JArray([block]));
    assert Index0(JArray([block])) == Some(block);
  }

  /** Behind the Anthropic deployment the browser reads `content[0].text` of Anthropic's own body. */
  lemma AnthropicTextReachesClient(req: Request, key: Option<string>, status: int, data: Json, text: string,
                                   blocks: seq<Json>)
    requires AnthropicProxy.Route(req, key).Forward?
    requires IsOk(status) && Get(Some(data), "content") == Some(JArray(blocks)) && blocks != []
    requires Get(Some(blocks[0]), "text") == Some(JString(text))
    ensures ReplyText(AnthropicProxy.Handle(req, key, Replied(status, data))) == Some(text)
  {
  }

  /**
   * Every failure of the Groq deployment (preflight aside, which the browser never
   * sends) rejects callClaude with the message the proxy put in the body.
   */
  lemma GroqFailuresReject(req: Request, key: Option<string>, upstream: Upstream)
    requires req.verb != "OPTIONS"
    requires !IsOk(GroqProxy.Handle(req, key, upstream).status)
    ensures CallClaude(GroqProxy.Handle(req, key, upstream))
      == Rejected(ErrorMessageOf(GroqProxy.Handle(req, key, upstream).body))
  {
    GroqProxy.SuccessShape(req, key, upstream);
  }

  /** A guard's refusal rejects callClaude with the guard's message, behind either deployment. */
  lemma GuardRefusalsReject(req: Request, key: Option<string>, keyMissing: string)
    requires req.verb != "OPTIONS" && Guards(req, key, keyMissing).Some? && keyMissing != ""
    ensures CallClaude(Guards(req, key, keyMissing).value) == Rejected(ErrorMessageOf(Guards(req, key, keyMissing).value.body))
  {
    assert |MethodNotAllowed| > 0 && |MissingMessages| > 0;
  }
}
