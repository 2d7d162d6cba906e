/** Step 1 of the admin login (`verify-static-pin`): the status code for a
    submitted static PIN. It keeps no state: no rate limit, no bot check. */
module StaticPin {
  import opened Wrappers
  import opened Js
  import opened Http

  function VerifyStaticPin(req: Request, env: Env): (r: Response)
    ensures r.status in {200, 401, 405, 500}
  {
    if req.httpMethod != "POST" then MethodNotAllowed()
    else if !BodyReadable(req) then
      Reply(500, map["valid" := JBool(false), "error" := JStr("Authentication error")])
    else if !IsSet(env.dashboardPin) then Reply(500, ErrorBody("Server configuration error"))
    else if GetProp(req.body.value, "staticPin") != Defined(JStr(env.dashboardPin.value)) then
      Reply(401, map["valid" := JBool(false), "error" := JStr("Invalid PIN")])
    else Reply(200, map["valid" := JBool(true)])
  }

  /** The PIN is valid exactly for a POST whose `staticPin` is the very string
      DASHBOARD_PIN holds, that variable being set; nothing else gives 200. */
  lemma ValidIff(req: Request, env: Env)
    ensures var r := VerifyStaticPin(req, env);
      && (r.status == 200 <==>
            && req.httpMethod == "POST" && req.body.Some? && IsSet(env.dashboardPin)
            && GetProp(req.body.value, "staticPin") == Defined(JStr(env.dashboardPin.value)))
      && (r.status == 200 ==> r.body == map["valid" := JBool(true)])
  {
  }

  lemma NonPostRejected(req: Request, env: Env)
    requires req.httpMethod != "POST"
    ensures VerifyStaticPin(req, env).status == 405
  {
  }

  /** An unset or empty DASHBOARD_PIN is a server error, never "any PIN". */
  lemma MissingPinIsServerError(req: Request, env: Env)
    requires req.httpMethod == "POST" && !IsSet(env.dashboardPin)
    ensures VerifyStaticPin(req, env).status == 500
  {
  }

  /** A missing, non-string or different `staticPin` is a 401 `valid: false`. */
  lemma WrongPinRejected(req: Request, env: Env)
    requires req.httpMethod == "POST" && BodyReadable(req) && IsSet(env.dashboardPin)
    requires GetProp(req.body.value, "staticPin") != Defined(JStr(env.dashboardPin.value))
    ensures VerifyStaticPin(req, env) == Reply(401, map["valid" := JBool(false), "error" := JStr("Invalid PIN")])
  {
  }

  /** A body that does not parse (or is `null`) is a 500 "Authentication error". */
  lemma UnparsableBody(req: Request, env: Env)
    requires req.httpMethod == "POST" && !BodyReadable(req)
    ensures VerifyStaticPin(req, env).status == 500
    ensures VerifyStaticPin(req, env).body["error"] == JStr("Authentication error")
  {
  }
}
