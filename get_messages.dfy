/** `get-messages`: the dashboard's bearer check and the shaping of the
    message list. The bearer is the client's stored `{authenticated,
    timestamp}` record sent verbatim as the Authorization header. The call to
    the spreadsheet is not made here; its outcome is an argument. */
module GetMessages {
  import opened Wrappers
  import opened Js
  import opened Http

  const SessionLifetimeMs: nat := 30 * 60 * 1000

  /** The Authorization header: absent or empty, or a non-empty string whose
      `JSON.parse` gives `parsed` (`None` when parsing throws). */
  datatype AuthHeader = NoHeader | Header(parsed: Option<Json>)

  datatype AuthVerdict = Accepted | Expired | Invalid

  /** The bearer check as the source has it. `now - authData.timestamp` turns
      the timestamp into a number; when that throws the catch answers
      "Invalid authentication", and when it is NaN the comparison with the
      lifetime is false and the session is taken as fresh. */
  function AuthCheckAsWritten(authData: Option<Json>, now: nat): (v: AuthVerdict)
    ensures v == Invalid <==> !FieldsPresent(authData) || TimestampThrows(authData.value)
    ensures v == Expired <==> FieldsPresent(authData) && StaleTimestamp(authData.value, now)
  {
    if authData.None? || authData.value.JNull? then Invalid
    else
      var authenticated := GetProp(authData.value, "authenticated");
      var timestamp := GetProp(authData.value, "timestamp");
      if !PropTruthy(authenticated) || !PropTruthy(timestamp) then Invalid
      else if ToPrimitiveThrows(timestamp.value) then Invalid
      else match ToNumber(timestamp.value)
        case Finite(t) => if now - t > SessionLifetimeMs then Expired else Accepted
        case NaN => Accepted
  }

  /** The bearer check as intended: a timestamp that is not a number is invalid. */
  function AuthCheck(authData: Option<Json>, now: nat): (v: AuthVerdict)
    ensures v == Invalid <==>
      !FieldsPresent(authData) || TimestampThrows(authData.value)
      || ToNumber(GetProp(authData.value, "timestamp").value).NaN?
    ensures v == Expired <==> FieldsPresent(authData) && StaleTimestamp(authData.value, now)
  {
    if authData.None? || authData.value.JNull? then Invalid
    else
      var authenticated := GetProp(authData.value, "authenticated");
      var timestamp := GetProp(authData.value, "timestamp");
      if !PropTruthy(authenticated) || !PropTruthy(timestamp) then Invalid
      else if ToPrimitiveThrows(timestamp.value) then Invalid
      else match ToNumber(timestamp.value)
        case Finite(t) => if now - t > SessionLifetimeMs then Expired else Accepted
        case NaN => Invalid
  }

  /** `authData.authenticated` and `authData.timestamp` are both truthy. */
  predicate FieldsPresent(authData: Option<Json>) {
    && authData.Some? && !authData.value.JNull?
    && PropTruthy(GetProp(authData.value, "authenticated"))
    && PropTruthy(GetProp(authData.value, "timestamp"))
  }

  /** `now - authData.timestamp` throws: the timestamp has no primitive value. */
  predicate TimestampThrows(authData: Json)
    requires !authData.JNull?
  {
    var p := GetProp(authData, "timestamp");
    p.Defined? && ToPrimitiveThrows(p.value)
  }

  /** `now - authData.timestamp > 30 * 60 * 1000` with a numeric timestamp. */
  predicate StaleTimestamp(authData: Json, now: nat)
    requires !authData.JNull?
  {
    var p := GetProp(authData, "timestamp");
    p.Defined? && !ToPrimitiveThrows(p.value) && ToNumber(p.value).Finite?
    && now - ToNumber(p.value).v > SessionLifetimeMs
  }

  /** The bearer a client would send for a session issued at `timestamp`. */
  function Bearer(timestamp: Json): Json {
    JObj(map["authenticated" := JBool(true), "timestamp" := timestamp])
  }

  /** As written, a bearer whose timestamp is an object is never stale: it is
      accepted at every instant, while the intended check refuses it. */
  lemma NonNumericTimestampNeverExpires(now: nat)
    ensures AuthCheckAsWritten(Some(Bearer(JObj(map[]))), now) == Accepted
    ensures AuthCheck(Some(Bearer(JObj(map[]))), now) == Invalid
  {
  }

  /** The two checks differ only where the timestamp is not a number. */
  lemma CorrectionOnlyRejectsNaN(authData: Option<Json>, now: nat)
    ensures AuthCheck(authData, now) != AuthCheckAsWritten(authData, now) ==>
      && AuthCheckAsWritten(authData, now) == Accepted && AuthCheck(authData, now) == Invalid
      && ToNumber(GetProp(authData.value, "timestamp").value) == NaN
  {
  }

  /** The intended check accepts exactly a truthy `authenticated` together with
      a non-zero numeric timestamp at most 30 minutes old (exactly 30 minutes
      still passes); a numeric one older than that is expired. */
  lemma AuthCheckAcceptedIff(authData: Option<Json>, now: nat)
    ensures AuthCheck(authData, now) == Accepted <==>
      && authData.Some? && authData.value.JObj?
      && PropTruthy(GetProp(authData.value, "authenticated"))
      && PropTruthy(GetProp(authData.value, "timestamp"))
      && !ToPrimitiveThrows(GetProp(authData.value, "timestamp").value)
      && ToNumber(GetProp(authData.value, "timestamp").value).Finite?
      && now - ToNumber(GetProp(authData.value, "timestamp").value).v <= SessionLifetimeMs
    ensures AuthCheck(authData, now) == Expired ==>
      now - ToNumber(GetProp(authData.value, "timestamp").value).v > SessionLifetimeMs
  {
  }

  /** What the spreadsheet call produced: a thrown error (network failure or a
      body that is not JSON), a non-OK status, or the decoded answer. */
  datatype Sheets = SheetsThrew | SheetsNotOk(status: int) | SheetsAnswer(data: Json)

  /** `data.messages || []`: the stored messages when truthy, an empty list
      otherwise; never a falsy value. */
  function MessagesOf(data: Json): (r: Json)
    requires !data.JNull?
    ensures Truthy(r)
    ensures PropTruthy(GetProp(data, "messages")) ==> r == GetProp(data, "messages").value
    ensures !PropTruthy(GetProp(data, "messages")) ==> r == JArr([])
  {
    var p := GetProp(data, "messages");
    if PropTruthy(p) then p.value else JArr([])
  }

  /** `data.messages?.length || 0`. */
  function CountOf(data: Json): (c: Json)
    requires !data.JNull?
    ensures MessagesOf(data).JArr? ==> c == JNum(|MessagesOf(data).items|)
    ensures MessagesOf(data).JStr? ==> c == JNum(|MessagesOf(data).s|)
    ensures !PropTruthy(GetProp(data, "messages")) ==> c == JNum(0)
  {
    match GetProp(data, "messages")
    case Defined(JArr(xs)) => JNum(|xs|)
    case Defined(JStr(s)) => JNum(|s|)
    case Defined(JObj(f)) => if "length" in f && Truthy(f["length"]) then f["length"] else JNum(0)
    case _ => JNum(0)
  }

  /** The handler once the bearer has been judged: `verdict` is `None` when the
      header is absent or empty. */
  function Serve(httpMethod: string, verdict: Option<AuthVerdict>, gscriptUrl: Option<string>,
                 sheets: Sheets): (r: Response)
    ensures r.status in {200, 401, 405, 500}
    ensures r.status == 200 <==>
      httpMethod == "GET" && verdict == Some(Accepted) && IsSet(gscriptUrl)
      && sheets.SheetsAnswer? && !sheets.data.JNull?
    ensures r.status == 401 <==> httpMethod == "GET" && verdict != Some(Accepted)
  {
    if httpMethod != "GET" then MethodNotAllowed()
    else if verdict.None? then Reply(401, ErrorBody("Unauthorized"))
    else if verdict.value == Invalid then Reply(401, ErrorBody("Invalid authentication"))
    else if verdict.value == Expired then Reply(401, ErrorBody("Session expired"))
    else
      assert verdict.value.Accepted?;
      if !IsSet(gscriptUrl) then Reply(500, ErrorBody("Server configuration error"))
      else if !sheets.SheetsAnswer? || sheets.data.JNull? then Reply(500, ErrorBody("Failed to fetch messages"))
      else Reply(200, map["messages" := MessagesOf(sheets.data), "count" := CountOf(sheets.data)])
  }

  /** The handler as written, with the bearer check of lines 33-45 as it is. */
  function GetMessages(httpMethod: string, authorization: AuthHeader, gscriptUrl: Option<string>,
                       sheets: Sheets, now: nat): (r: Response)
    ensures r.status in {200, 401, 405, 500}
    ensures r.status == 200 <==>
      && httpMethod == "GET" && authorization.Header?
      && AuthCheckAsWritten(authorization.parsed, now) == Accepted
      && IsSet(gscriptUrl) && sheets.SheetsAnswer? && !sheets.data.JNull?
    ensures r.status == 500 ==> authorization.Header? && AuthCheckAsWritten(authorization.parsed, now) == Accepted
  {
    var verdict := if authorization.NoHeader? then None else Some(AuthCheckAsWritten(authorization.parsed, now));
    Serve(httpMethod, verdict, gscriptUrl, sheets)
  }

  /** The handler with the intended bearer check, which refuses a timestamp
      that is not a number. */
  function GetMessagesIntended(httpMethod: string, authorization: AuthHeader, gscriptUrl: Option<string>,
                               sheets: Sheets, now: nat): (r: Response)
    ensures r.status in {200, 401, 405, 500}
    ensures r.status == 200 <==>
      && httpMethod == "GET" && authorization.Header?
      && AuthCheck(authorization.parsed, now) == Accepted
      && IsSet(gscriptUrl) && sheets.SheetsAnswer? && !sheets.data.JNull?
    ensures r.status == 500 ==> authorization.Header? && AuthCheck(authorization.parsed, now) == Accepted
  {
    var verdict := if authorization.NoHeader? then None else Some(AuthCheck(authorization.parsed, now));
    Serve(httpMethod, verdict, gscriptUrl, sheets)
  }

  lemma NonGetRejected(httpMethod: string, authorization: AuthHeader, gscriptUrl: Option<string>,
                       sheets: Sheets, now: nat)
    requires httpMethod != "GET"
    ensures GetMessages(httpMethod, authorization, gscriptUrl, sheets, now).status == 405
  {
  }

  /** A request that does not carry an accepted session gets a 401, before the
      configuration is looked at: it never sees the 500 configuration error. */
  lemma UnauthenticatedIs401(httpMethod: string, authorization: AuthHeader, gscriptUrl: Option<string>,
                             sheets: Sheets, now: nat)
    requires httpMethod == "GET"
    requires authorization.NoHeader? || AuthCheckAsWritten(authorization.parsed, now) != Accepted
    ensures var r := GetMessages(httpMethod, authorization, gscriptUrl, sheets, now);
      && r.status == 401
      && r.body["error"] == JStr(
           if authorization.NoHeader? then "Unauthorized"
           else if AuthCheckAsWritten(authorization.parsed, now) == Expired then "Session expired"
           else "Invalid authentication")
  {
  }

  /** A 200 carries `data.messages || []` and `data.messages?.length || 0` of
      the spreadsheet's answer; it needs an accepted session. */
  lemma SuccessShape(httpMethod: string, authorization: AuthHeader, gscriptUrl: Option<string>,
                     sheets: Sheets, now: nat)
    ensures var r := GetMessages(httpMethod, authorization, gscriptUrl, sheets, now);
      r.status == 200 ==>
        && authorization.Header? && AuthCheckAsWritten(authorization.parsed, now) == Accepted
        && IsSet(gscriptUrl) && sheets.SheetsAnswer? && !sheets.data.JNull?
        && var p := GetProp(sheets.data, "messages");
           && r.body.Keys == {"messages", "count"}
           && r.body["messages"] == (if PropTruthy(p) then p.value else JArr([]))
           && r.body["count"] == CountOf(sheets.data)
           && (r.body["messages"].JArr? ==> r.body["count"] == JNum(|r.body["messages"].items|))
  {
  }

  /** The handler as written serves the letters to a bearer whose timestamp is
      an object, at any instant; the intended handler refuses it. */
  lemma NonNumericBearerServed(now: nat)
    ensures GetMessages("GET", Header(Some(Bearer(JObj(map[])))), Some("u"), SheetsAnswer(JObj(map[])), now)
            == Reply(200, map["messages" := JArr([]), "count" := JNum(0)])
    ensures GetMessagesIntended("GET", Header(Some(Bearer(JObj(map[])))), Some("u"), SheetsAnswer(JObj(map[])), now)
            == Reply(401, ErrorBody("Invalid authentication"))
  {
    NonNumericTimestampNeverExpires(now);
  }

  /** A timestamp object with its own "toString" key makes the subtraction
      throw, and the catch refuses the bearer at every instant. */
  lemma ThrowingTimestampRejected(gscriptUrl: Option<string>, sheets: Sheets, now: nat)
    ensures AuthCheckAsWritten(Some(Bearer(JObj(map["toString" := JNum(0)]))), now) == Invalid
    ensures GetMessages("GET", Header(Some(Bearer(JObj(map["toString" := JNum(0)])))), gscriptUrl, sheets, now)
            == Reply(401, ErrorBody("Invalid authentication"))
  {
    assert TimestampThrows(Bearer(JObj(map["toString" := JNum(0)])));
  }

  /** The two handlers answer alike except where the bearer's timestamp is not
      a number, and there the intended one answers 401. */
  lemma IntendedDiffersOnlyOnNaN(httpMethod: string, authorization: AuthHeader, gscriptUrl: Option<string>,
                                 sheets: Sheets, now: nat)
    ensures GetMessagesIntended(httpMethod, authorization, gscriptUrl, sheets, now)
            != GetMessages(httpMethod, authorization, gscriptUrl, sheets, now) ==>
      && authorization.Header?
      && ToNumber(GetProp(authorization.parsed.value, "timestamp").value) == NaN
      && GetMessagesIntended(httpMethod, authorization, gscriptUrl, sheets, now).status == 401
  {
    if authorization.Header? {
      CorrectionOnlyRejectsNaN(authorization.parsed, now);
    }
  }
}
