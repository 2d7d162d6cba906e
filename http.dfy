/** Requests, responses and configuration shared by the serverless handlers. */
module Http {
  import opened Wrappers
  import opened Js

  /** A function invocation: the HTTP method, the (lower-cased) request
      headers and the result of `JSON.parse(event.body)`, `None` when parsing
      throws. */
  datatype Request = Request(httpMethod: string, headers: map<string, string>, body: Option<Json>)

  /** A response: the status code, the `Retry-After` header (seconds) when one
      is sent, and the JSON object written to the body. */
  datatype Response = Response(status: int, retryAfter: Option<int>, body: map<string, Json>)

  /** Environment variables, read afresh on every invocation. */
  datatype Env = Env(dashboardPin: Option<string>, recaptchaSecret: Option<string>, gscriptUrl: Option<string>)

  /** An environment variable or argument is truthy: present and non-empty. */
  predicate IsSet(v: Option<string>) {
    v.Some? && v.value != ""
  }

  /** The body parsed to a value whose properties can be read (not `null`). */
  predicate BodyReadable(req: Request) {
    req.body.Some? && !req.body.value.JNull?
  }

  function ErrorBody(message: string): map<string, Json> {
    map["error" := JStr(message)]
  }

  function Reply(status: int, body: map<string, Json>): Response {
    Response(status, None, body)
  }

  function MethodNotAllowed(): (r: Response)
    ensures r.status == 405
  {
    Reply(405, ErrorBody("Method not allowed"))
  }
}
