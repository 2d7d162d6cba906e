/** `submit`: the public letter endpoint. An ordered chain of checks
    (honeypot, required message, length, session id, configuration) and then
    the trimmed payload forwarded to the spreadsheet. The forwarding call is
    not made here; its outcome is an argument. */
module Submit {
  import opened Wrappers
  import opened Js
  import opened Http

  const MaxMessageLength: nat := 2000

  /** What is forwarded to the spreadsheet: the trimmed letter, the ISO time
      of the clock reading and the client's session id as it came. */
  datatype Payload = Payload(message: string, timestamp: string, sessionId: Json)

  /** The spreadsheet call: it threw, answered with a non-OK status, answered
      OK with a body that is not JSON, or answered OK with JSON. */
  datatype Delivery = DeliveryThrew | DeliveryNotOk(status: int) | DeliveryBadJson | DeliveryOk

  /** The response and, when the handler got as far as the call, the payload sent. */
  datatype SubmitResult = SubmitResult(response: Response, sent: Option<Payload>)

  function Failed(): Response {
    Reply(500, ErrorBody("Failed to deliver letter"))
  }

  function Rejected(error: string): Response {
    Reply(400, ErrorBody(error))
  }

  /** `!data.message || data.message.trim().length === 0` over a message that
      is truthy and a string. */
  predicate BlankMessage(message: Prop)
    requires !message.Throws?
  {
    !PropTruthy(message) || (message.value.JStr? && AllWhitespace(message.value.s))
  }

  /** Every check on the request passed: a readable POST with an empty
      honeypot, a non-blank string message within the limit and a session id. */
  predicate Validated(req: Request) {
    && req.httpMethod == "POST" && BodyReadable(req)
    && var data := req.body.value;
       && !PropTruthy(GetProp(data, "website"))
       && var message := GetProp(data, "message");
          && message.Defined? && message.value.JStr?
          && !AllWhitespace(message.value.s) && |message.value.s| <= MaxMessageLength
          && PropTruthy(GetProp(data, "sessionId"))
  }

  /** Every check passed: what the handler forwards to the spreadsheet. */
  predicate Admissible(req: Request, env: Env) {
    Validated(req) && IsSet(env.gscriptUrl)
  }

  function ConfigurationError(): Response {
    Reply(500, ErrorBody("Server configuration error - GSCRIPT_URL not set"))
  }

  function Submit(req: Request, env: Env, clockIso: string, delivery: Delivery): (r: SubmitResult)
    ensures r.sent.Some? <==> Admissible(req, env)
    ensures req.httpMethod != "POST" ==> r == SubmitResult(MethodNotAllowed(), None)
  {
    if req.httpMethod != "POST" then SubmitResult(MethodNotAllowed(), None)
    else if !BodyReadable(req) then SubmitResult(Failed(), None)
    else
      var data := req.body.value;
      var message := GetProp(data, "message");
      if PropTruthy(GetProp(data, "website")) then SubmitResult(Rejected("Invalid request"), None)
      else if BlankMessage(message) then SubmitResult(Rejected("Message is required"), None)
      // a truthy message that is not a string has no `trim`: the TypeError lands in the catch
      else if !message.value.JStr? then SubmitResult(Failed(), None)
      else if |message.value.s| > MaxMessageLength then
        SubmitResult(Rejected("Message must be under 2000 characters"), None)
      else if !PropTruthy(GetProp(data, "sessionId")) then SubmitResult(Rejected("Session ID required"), None)
      else if !IsSet(env.gscriptUrl) then
        SubmitResult(ConfigurationError(), None)
      else
        var payload := Payload(Trim(message.value.s), clockIso, GetProp(data, "sessionId").value);
        var response :=
          if delivery == DeliveryOk then Reply(200, map["ok" := JBool(true), "message" := JStr("Letter delivered successfully")])
          else Failed();
        SubmitResult(response, Some(payload))
  }

  /** A letter is delivered exactly when every check passes and the spreadsheet
      answers OK with JSON. */
  lemma DeliveredIff(req: Request, env: Env, clockIso: string, delivery: Delivery)
    ensures Submit(req, env, clockIso, delivery).response.status == 200 <==>
      Admissible(req, env) && delivery == DeliveryOk
  {
  }

  /** The payload carries the letter trimmed: non-empty, within the limit, with
      no whitespace at either end, and only whitespace cut from around it;
      the session id is passed on unchanged. */
  lemma PayloadShape(req: Request, env: Env, clockIso: string, delivery: Delivery)
    requires Submit(req, env, clockIso, delivery).sent.Some?
    ensures var p := Submit(req, env, clockIso, delivery).sent.value;
      var typed := GetProp(req.body.value, "message").value.s;
      && p.message != [] && |p.message| <= MaxMessageLength
      && !IsWhitespace(p.message[0]) && !IsWhitespace(p.message[|p.message| - 1])
      && p.message == Trim(typed) && WhitespaceAround(typed, p.message)
      && p.timestamp == clockIso
      && Defined(p.sessionId) == GetProp(req.body.value, "sessionId") && Truthy(p.sessionId)
  {
    var typed := GetProp(req.body.value, "message").value.s;
    var p := Submit(req, env, clockIso, delivery).sent.value;
    assert p.message == Trim(typed);
  }

  /** A filled-in honeypot is refused before anything else is looked at. */
  lemma HoneypotFirst(req: Request, env: Env, clockIso: string, delivery: Delivery)
    requires req.httpMethod == "POST" && BodyReadable(req)
    requires PropTruthy(GetProp(req.body.value, "website"))
    ensures Submit(req, env, clockIso, delivery) == SubmitResult(Rejected("Invalid request"), None)
  {
  }

  /** A missing, empty or blank message is refused, and nothing is sent. */
  lemma BlankMessageRejected(req: Request, env: Env, clockIso: string, delivery: Delivery)
    requires req.httpMethod == "POST" && BodyReadable(req)
    requires !PropTruthy(GetProp(req.body.value, "website"))
    requires BlankMessage(GetProp(req.body.value, "message"))
    ensures Submit(req, env, clockIso, delivery) == SubmitResult(Rejected("Message is required"), None)
  {
  }

  /** The limit is inclusive and counts the letter before trimming: 2000
      characters pass, 2001 do not, whatever trimming would leave. */
  lemma LengthLimit(req: Request, env: Env, clockIso: string, delivery: Delivery)
    requires req.httpMethod == "POST" && BodyReadable(req)
    requires !PropTruthy(GetProp(req.body.value, "website"))
    requires var m := GetProp(req.body.value, "message");
      m.Defined? && m.value.JStr? && !AllWhitespace(m.value.s)
    ensures var r := Submit(req, env, clockIso, delivery);
      var n := |GetProp(req.body.value, "message").value.s|;
      && (n > MaxMessageLength ==> r == SubmitResult(Rejected("Message must be under 2000 characters"), None))
      && (n <= MaxMessageLength && r.response.status == 400 ==> r.response == Rejected("Session ID required"))
  {
  }

  /** A valid letter without a session id is refused, whatever the
      configuration, and nothing is sent. */
  lemma MissingSessionIdRejected(req: Request, env: Env, clockIso: string, delivery: Delivery)
    requires req.httpMethod == "POST" && BodyReadable(req)
    requires !PropTruthy(GetProp(req.body.value, "website"))
    requires var m := GetProp(req.body.value, "message");
      m.Defined? && m.value.JStr? && !AllWhitespace(m.value.s) && |m.value.s| <= MaxMessageLength
    requires !PropTruthy(GetProp(req.body.value, "sessionId"))
    ensures Submit(req, env, clockIso, delivery) == SubmitResult(Rejected("Session ID required"), None)
  {
  }

  /** The configuration is looked at last: the missing-GSCRIPT_URL 500 comes
      exactly when every check on the request passed and the URL is unset. */
  lemma ConfigurationErrorIff(req: Request, env: Env, clockIso: string, delivery: Delivery)
    ensures Submit(req, env, clockIso, delivery).response == ConfigurationError() <==>
      Validated(req) && !IsSet(env.gscriptUrl)
    ensures Submit(req, env, clockIso, delivery).response == ConfigurationError() ==>
      Submit(req, env, clockIso, delivery).sent.None?
  {
    var r := Submit(req, env, clockIso, delivery);
    if r.response == ConfigurationError() {
      assert r.response.body["error"] == JStr("Server configuration error - GSCRIPT_URL not set");
    }
  }

  /** Every 400 is one of the four validation messages, and no 400 sends anything. */
  lemma BadRequestSendsNothing(req: Request, env: Env, clockIso: string, delivery: Delivery)
    ensures var r := Submit(req, env, clockIso, delivery);
      r.response.status == 400 ==>
        && r.sent.None?
        && r.response.body["error"] in {JStr("Invalid request"), JStr("Message is required"),
                                        JStr("Message must be under 2000 characters"), JStr("Session ID required")}
  {
  }
}
