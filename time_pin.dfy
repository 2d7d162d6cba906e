/** Step 2 of the admin login (`verify-time-pin`): a rate-limit check, a
    re-check of the static PIN, then a time-based code accepted for the
    current UTC minute and its two neighbours. The configured arithmetic rule
    is the parameter `rule`; `None` stands for an evaluation that throws. */
module TimePin {
  import opened Wrappers
  import opened Js
  import opened Http
  import opened RateLimiter

  // ---------- instants ----------

  /** `new Date(now).getUTCHours()`; JavaScript time has no leap seconds. */
  function UtcHour(now: nat): (h: nat)
    ensures h < 24
  {
    (now / 3600000) % 24
  }

  /** `new Date(now).getUTCMinutes()`. */
  function UtcMinute(now: nat): (m: nat)
    ensures m < 60
  {
    (now / 60000) % 60
  }

  function MinuteOfDay(hour: int, minute: int): int {
    hour * 60 + minute
  }

  /** The previous (hour, minute), wrapping 00:00 to 23:59. */
  function PrevInstant(hour: int, minute: int): (r: (int, int))
    requires 0 <= hour < 24 && 0 <= minute < 60
    ensures 0 <= r.0 < 24 && 0 <= r.1 < 60
    ensures MinuteOfDay(r.0, r.1) == (MinuteOfDay(hour, minute) + 1439) % 1440
  {
    var prevMinute := if minute == 0 then 59 else minute - 1;
    var prevHour := if minute == 0 then (if hour == 0 then 23 else hour - 1) else hour;
    (prevHour, prevMinute)
  }

  /** The next (hour, minute), wrapping 23:59 to 00:00. */
  function NextInstant(hour: int, minute: int): (r: (int, int))
    requires 0 <= hour < 24 && 0 <= minute < 60
    ensures 0 <= r.0 < 24 && 0 <= r.1 < 60
    ensures MinuteOfDay(r.0, r.1) == (MinuteOfDay(hour, minute) + 1) % 1440
  {
    var nextMinute := if minute == 59 then 0 else minute + 1;
    var nextHour := if minute == 59 then (if hour == 23 then 0 else hour + 1) else hour;
    (nextHour, nextMinute)
  }

  lemma MinuteOfDayInjective(h1: int, m1: int, h2: int, m2: int)
    requires 0 <= m1 < 60 && 0 <= m2 < 60
    requires MinuteOfDay(h1, m1) == MinuteOfDay(h2, m2)
    ensures h1 == h2 && m1 == m2
  {
    assert h1 == MinuteOfDay(h1, m1) / 60;
    assert h2 == MinuteOfDay(h2, m2) / 60;
  }

  lemma HourFromMinuteIndex(now: nat)
    ensures now / 3600000 == (now / 60000) / 60
  {
    var k := now / 60000;
    var q := k / 60;
    assert now == q * 3600000 + ((k % 60) * 60000 + now % 60000);
  }

  lemma MinuteIndexModDay(k: nat)
    ensures ((k / 60) % 24) * 60 + k % 60 == k % 1440
  {
    var q := k / 60;
    assert k == (q / 24) * 1440 + ((q % 24) * 60 + k % 60);
  }

  /** The UTC clock reading of `now` is the minute index modulo a day. */
  lemma UtcMinuteOfDay(now: nat)
    ensures MinuteOfDay(UtcHour(now), UtcMinute(now)) == (now / 60000) % 1440
  {
    HourFromMinuteIndex(now);
    MinuteIndexModDay(now / 60000);
  }

  lemma ModDayStep(k: nat)
    ensures (k % 1440 + 1) % 1440 == (k + 1) % 1440
    ensures k >= 1 ==> (k % 1440 + 1439) % 1440 == (k - 1) % 1440
  {
  }

  /** The previous instant of the source is the clock reading one minute before. */
  lemma PrevInstantIsMinuteBefore(now: nat)
    requires now >= 60000
    ensures PrevInstant(UtcHour(now), UtcMinute(now)) == (UtcHour(now - 60000), UtcMinute(now - 60000))
  {
    var k := now / 60000;
    var p := PrevInstant(UtcHour(now), UtcMinute(now));
    UtcMinuteOfDay(now);
    UtcMinuteOfDay(now - 60000);
    assert (now - 60000) / 60000 == k - 1;
    ModDayStep(k);
    MinuteOfDayInjective(p.0, p.1, UtcHour(now - 60000), UtcMinute(now - 60000));
  }

  /** The next instant of the source is the clock reading one minute after. */
  lemma NextInstantIsMinuteAfter(now: nat)
    ensures NextInstant(UtcHour(now), UtcMinute(now)) == (UtcHour(now + 60000), UtcMinute(now + 60000))
  {
    var k := now / 60000;
    var p := NextInstant(UtcHour(now), UtcMinute(now));
    UtcMinuteOfDay(now);
    UtcMinuteOfDay(now + 60000);
    assert (now + 60000) / 60000 == k + 1;
    ModDayStep(k);
    MinuteOfDayInjective(p.0, p.1, UtcHour(now + 60000), UtcMinute(now + 60000));
  }

  // ---------- the rule ----------

  /** The rule used when TIME_PIN_ALGORITHM is unset: `(hour * 7) + (minute % 10)`. */
  function DefaultRule(hour: int, minute: int): Option<int> {
    Some(hour * 7 + minute % 10)
  }

  lemma DefaultRuleRange(hour: int, minute: int)
    requires 0 <= hour < 24 && 0 <= minute < 60
    ensures DefaultRule(hour, minute).Some?
    ensures 0 <= DefaultRule(hour, minute).value <= 170
  {
  }

  /** The codes the default rule accepts at 14:32 and across the hour and
      day boundaries. */
  lemma DefaultRuleAtBoundaries()
    ensures DefaultRule(14, 31) == Some(99) && DefaultRule(14, 32) == Some(100) && DefaultRule(14, 33) == Some(101)
    ensures PrevInstant(14, 32) == (14, 31) && NextInstant(14, 32) == (14, 33)
    ensures PrevInstant(0, 0) == (23, 59) && NextInstant(23, 59) == (0, 0)
    ensures DefaultRule(23, 59) == Some(170) && DefaultRule(0, 0) == Some(0)
  {
    assert 31 % 10 == 1 && 32 % 10 == 2 && 33 % 10 == 3 && 59 % 10 == 9 && 0 % 10 == 0;
  }

  /** `parseInt(timePin, 10)` throws: the PIN has no primitive value. */
  predicate TimePinThrows(timePin: Prop) {
    timePin.Defined? && ToPrimitiveThrows(timePin.value)
  }

  /** The time PIN as `parseInt(timePin, 10)`; `None` is NaN. */
  function TimePinNumber(timePin: Prop): (r: Option<int>)
    requires !timePin.Throws? && !TimePinThrows(timePin)
    ensures timePin.Defined? && timePin.value.JNum? ==> r == Some(timePin.value.n)
    ensures timePin.Defined? && timePin.value.JStr? ==> r == ParseInt(timePin.value.s)
  {
    var r := ParseInt(PropToString(timePin));
    if timePin.Defined? && timePin.value.JNum? then ParseIntOfIntToString(timePin.value.n); r
    else r
  }

  /** `code` equals the rule's value at the current, previous or next minute. */
  predicate CodeAccepted(code: Option<int>, rule: (int, int) -> Option<int>, now: nat)
  {
    var (h, m) := (UtcHour(now), UtcMinute(now));
    var (ph, pm) := PrevInstant(h, m);
    var (nh, nm) := NextInstant(h, m);
    code.Some? &&
      (rule(h, m) == code || rule(ph, pm) == code || rule(nh, nm) == code)
  }

  /** The rule evaluates without throwing at the three instants around `now`. */
  predicate RuleEvaluates(rule: (int, int) -> Option<int>, now: nat) {
    var (h, m) := (UtcHour(now), UtcMinute(now));
    var (ph, pm) := PrevInstant(h, m);
    var (nh, nm) := NextInstant(h, m);
    rule(h, m).Some? && rule(ph, pm).Some? && rule(nh, nm).Some?
  }

  // ---------- responses ----------

  function AuthFailure(error: string): map<string, Json> {
    map["authenticated" := JBool(false), "error" := JStr(error)]
  }

  function AuthenticationError(): Response {
    Reply(500, AuthFailure("Authentication error"))
  }

  function Success(): Response {
    Reply(200, map["authenticated" := JBool(true), "message" := JStr("Authentication successful")])
  }

  /** The 429 answer; `Retry-After` is `retryAfter || 1800`. */
  function TooManyRequests(retryAfter: Option<int>, error: string): (r: Response)
    ensures r.status == 429
  {
    var header := if retryAfter.Some? && retryAfter.value != 0 then retryAfter.value else 1800;
    var body := AuthFailure(error);
    Response(429, Some(header),
      if retryAfter.Some? then body["retryAfter" := JNum(retryAfter.value)] else body)
  }

  /** What the handler answers once the rate check has allowed the request. */
  function Verify(attemptsLeft: int, staticPin: Prop, timePin: Prop, env: Env,
                  rule: (int, int) -> Option<int>, now: nat): (r: Response)
    requires !timePin.Throws?
    ensures r.status in {200, 401, 500}
    ensures !IsSet(env.dashboardPin) ==> r.status == 500
    ensures r.status == 200 ==>
      && r == Success() && staticPin == Defined(JStr(env.dashboardPin.value))
      && !TimePinThrows(timePin) && CodeAccepted(TimePinNumber(timePin), rule, now)
    ensures (&& IsSet(env.dashboardPin) && staticPin == Defined(JStr(env.dashboardPin.value))
             && RuleEvaluates(rule, now) && !TimePinThrows(timePin)
             && CodeAccepted(TimePinNumber(timePin), rule, now))
            ==> r == Success()
    ensures (&& IsSet(env.dashboardPin) && staticPin == Defined(JStr(env.dashboardPin.value))
             && RuleEvaluates(rule, now) && TimePinThrows(timePin))
            ==> r == AuthenticationError()
  {
    if !IsSet(env.dashboardPin) then Reply(500, ErrorBody("Server configuration error"))
    else if staticPin != Defined(JStr(env.dashboardPin.value)) then Reply(401, AuthFailure("Invalid PIN"))
    else
      var (h, m) := (UtcHour(now), UtcMinute(now));
      var current := rule(h, m);
      if current.None? then Reply(500, ErrorBody("Invalid algorithm configuration"))
      else
        var (ph, pm) := PrevInstant(h, m);
        var (nh, nm) := NextInstant(h, m);
        if rule(ph, pm).None? || rule(nh, nm).None? then AuthenticationError()
        else if TimePinThrows(timePin) then AuthenticationError()
        else if !CodeAccepted(TimePinNumber(timePin), rule, now) then WrongCode(attemptsLeft)
        else Success()
  }

  /** The whole handler over the limiter's map: the response and the map after. */
  function Handle(m: map<string, Record>, req: Request, env: Env,
                  rule: (int, int) -> Option<int>, now: nat): (out: (Response, map<string, Record>))
    ensures out.0.status in {200, 401, 405, 429, 500}
    ensures out.0.status == 405 <==> req.httpMethod != "POST"
    ensures out.0.status == 429 <==>
      req.httpMethod == "POST" && BodyReadable(req) && Check(m, GetClientIP(req.headers), now).0.Denied?
    ensures out.0.status == 200 ==> GetClientIP(req.headers) !in out.1
  {
    if req.httpMethod != "POST" then (MethodNotAllowed(), m)
    else if !BodyReadable(req) then (AuthenticationError(), m)
    else
      var ip := GetClientIP(req.headers);
      var staticPin := GetProp(req.body.value, "staticPin");
      var timePin := GetProp(req.body.value, "timePin");
      var (rateCheck, m1) := Check(m, ip, now);
      if rateCheck.Denied? then (TooManyRequests(rateCheck.retryAfter, rateCheck.error), m1)
      else
        var resp := Verify(rateCheck.attemptsLeft, staticPin, timePin, env, rule, now);
        (resp, if resp.status == 200 then Reset(m1, ip) else m1)
  }

  /** The handler, changing the limiter through its methods. */
  method VerifyTimePin(limiter: Limiter, req: Request, env: Env,
                       rule: (int, int) -> Option<int>, now: nat) returns (resp: Response)
    modifies limiter
    ensures (resp, limiter.attempts) == Handle(old(limiter.attempts), req, env, rule, now)
    ensures old(limiter.Valid()) ==> limiter.Valid()
  {
    if req.httpMethod != "POST" {
      return MethodNotAllowed();
    }
    var clientIP := GetClientIP(req.headers);
    if req.body.None? || req.body.value.JNull? {
      return AuthenticationError();
    }
    var staticPin := GetProp(req.body.value, "staticPin");
    var timePin := GetProp(req.body.value, "timePin");
    var rateCheck := limiter.CheckRateLimit(clientIP, now);
    if rateCheck.Denied? {
      return TooManyRequests(rateCheck.retryAfter, rateCheck.error);
    }
    resp := Verify(rateCheck.attemptsLeft, staticPin, timePin, env, rule, now);
    if resp.status == 200 {
      limiter.ResetRateLimit(clientIP);
    }
  }

  // ---------- properties ----------

  /** Anything but POST is refused and the limiter is not consulted. */
  lemma NonPostRejected(m: map<string, Record>, req: Request, env: Env,
                        rule: (int, int) -> Option<int>, now: nat)
    requires req.httpMethod != "POST"
    ensures Handle(m, req, env, rule, now) == (MethodNotAllowed(), m)
  {
  }

  /** A body that does not parse to an object is a 500 before any rate check. */
  lemma UnusableBodyKeepsLimiter(m: map<string, Record>, req: Request, env: Env,
                                 rule: (int, int) -> Option<int>, now: nat)
    requires req.httpMethod == "POST" && !BodyReadable(req)
    ensures Handle(m, req, env, rule, now) == (AuthenticationError(), m)
  {
  }

  /** The rate check comes first: a refused check is a 429 whatever the PINs
      and the configuration are, and the map is what the check left (a new
      lock, or nothing changed). */
  lemma RateLimitedBeforePins(m: map<string, Record>, req: Request, env: Env,
                              rule: (int, int) -> Option<int>, now: nat)
    requires req.httpMethod == "POST" && BodyReadable(req)
    requires Check(m, GetClientIP(req.headers), now).0.Denied?
    ensures var (resp, m') := Handle(m, req, env, rule, now);
      var (rc, m1) := Check(m, GetClientIP(req.headers), now);
      && resp.status == 429 && m' == m1
      && resp.body["authenticated"] == JBool(false)
      && resp.retryAfter == Some(if rc.retryAfter.Some? && rc.retryAfter.value != 0 then rc.retryAfter.value else 1800)
  {
  }

  /** Without DASHBOARD_PIN the handler can never authenticate. */
  lemma MissingPinNeverAuthenticates(m: map<string, Record>, req: Request, env: Env,
                                     rule: (int, int) -> Option<int>, now: nat)
    requires !IsSet(env.dashboardPin)
    ensures var resp := Handle(m, req, env, rule, now).0;
      && resp.status != 200
      && ((req.httpMethod == "POST" && BodyReadable(req) &&
           Check(m, GetClientIP(req.headers), now).0.Allowed?) ==> resp.status == 500)
  {
  }

  /** A static PIN that is not exactly DASHBOARD_PIN is a 401 "Invalid PIN"
      whatever the time PIN; the attempt stays counted. */
  lemma WrongStaticPinRejected(m: map<string, Record>, req: Request, env: Env,
                               rule: (int, int) -> Option<int>, now: nat)
    requires req.httpMethod == "POST" && BodyReadable(req) && IsSet(env.dashboardPin)
    requires Check(m, GetClientIP(req.headers), now).0.Allowed?
    requires GetProp(req.body.value, "staticPin") != Defined(JStr(env.dashboardPin.value))
    ensures Handle(m, req, env, rule, now)
      == (Reply(401, AuthFailure("Invalid PIN")), Check(m, GetClientIP(req.headers), now).1)
  {
  }

  /** Once the rate check allowed it, the request is authenticated exactly
      when the static PIN is DASHBOARD_PIN, the rule evaluates at all three
      instants and the parsed time PIN is one of the three values. */
  lemma VerifySucceedsIff(attemptsLeft: int, staticPin: Prop, timePin: Prop, env: Env,
                          rule: (int, int) -> Option<int>, now: nat)
    requires !timePin.Throws?
    ensures var resp := Verify(attemptsLeft, staticPin, timePin, env, rule, now);
      var (h, mi) := (UtcHour(now), UtcMinute(now));
      var (ph, pm) := PrevInstant(h, mi);
      var (nh, nm) := NextInstant(h, mi);
      && (resp.status == 200 <==>
            && IsSet(env.dashboardPin)
            && staticPin == Defined(JStr(env.dashboardPin.value))
            && rule(h, mi).Some? && rule(ph, pm).Some? && rule(nh, nm).Some?
            && !TimePinThrows(timePin) && CodeAccepted(TimePinNumber(timePin), rule, now))
      && (resp.status == 200 ==> resp == Success())
  {
  }

  /** The request is authenticated exactly when it is a POST with an object
      body, the rate check allows it and the credentials verify; success
      removes the IP's record altogether. */
  lemma AuthenticatedIff(m: map<string, Record>, req: Request, env: Env,
                         rule: (int, int) -> Option<int>, now: nat)
    ensures var (resp, m') := Handle(m, req, env, rule, now);
      var ip := GetClientIP(req.headers);
      && (resp.status == 200 <==>
            && req.httpMethod == "POST" && BodyReadable(req)
            && Check(m, ip, now).0.Allowed?
            && Verify(Check(m, ip, now).0.attemptsLeft, GetProp(req.body.value, "staticPin"),
                      GetProp(req.body.value, "timePin"), env, rule, now).status == 200)
      && (resp.status == 200 ==> resp == Success() && m' == m - {ip})
  {
    var ip := GetClientIP(req.headers);
    if req.httpMethod == "POST" && BodyReadable(req) && Check(m, ip, now).0.Allowed? {
      VerifySucceedsIff(Check(m, ip, now).0.attemptsLeft, GetProp(req.body.value, "staticPin"),
                        GetProp(req.body.value, "timePin"), env, rule, now);
      CheckThenReset(m, ip, now);
    }
  }

  function WrongCode(attemptsLeft: int): (r: Response)
    ensures r.status == 401 && r.retryAfter.None?
    ensures r.body.Keys == {"authenticated", "error", "attemptsLeft"}
    ensures r.body["authenticated"] == JBool(false) && r.body["error"] == JStr("Invalid time-based code")
    ensures r.body["attemptsLeft"] == JNum(attemptsLeft)
  {
    Reply(401, AuthFailure("Invalid time-based code")["attemptsLeft" := JNum(attemptsLeft)])
  }

  lemma VerifyWrongCode(attemptsLeft: int, staticPin: Prop, timePin: Prop, env: Env,
                        rule: (int, int) -> Option<int>, now: nat)
    requires !timePin.Throws? && IsSet(env.dashboardPin)
    requires staticPin == Defined(JStr(env.dashboardPin.value))
    requires RuleEvaluates(rule, now)
    requires !TimePinThrows(timePin) && !CodeAccepted(TimePinNumber(timePin), rule, now)
    ensures Verify(attemptsLeft, staticPin, timePin, env, rule, now) == WrongCode(attemptsLeft)
  {
  }

  /** A wrong time PIN is a 401 carrying the attempts left from the rate check,
      and the attempt is not forgiven. */
  lemma WrongTimePinCounted(m: map<string, Record>, req: Request, env: Env,
                            rule: (int, int) -> Option<int>, now: nat)
    requires req.httpMethod == "POST" && BodyReadable(req) && IsSet(env.dashboardPin)
    requires GetProp(req.body.value, "staticPin") == Defined(JStr(env.dashboardPin.value))
    requires Check(m, GetClientIP(req.headers), now).0.Allowed?
    requires RuleEvaluates(rule, now)
    requires !TimePinThrows(GetProp(req.body.value, "timePin"))
    requires !CodeAccepted(TimePinNumber(GetProp(req.body.value, "timePin")), rule, now)
    ensures var (resp, m') := Handle(m, req, env, rule, now);
      var (rc, m1) := Check(m, GetClientIP(req.headers), now);
      resp == WrongCode(rc.attemptsLeft) && m' == m1
  {
    var ip := GetClientIP(req.headers);
    var (rc, m1) := Check(m, ip, now);
    var staticPin := GetProp(req.body.value, "staticPin");
    var timePin := GetProp(req.body.value, "timePin");
    HandleAllowed(m, req, env, rule, now);
    VerifyWrongCode(rc.attemptsLeft, staticPin, timePin, env, rule, now);
  }

  /** A time PIN with no primitive value (an object with its own "toString"
      key) makes `parseInt` throw: the catch answers 500 "Authentication
      error", and the attempt stays counted. */
  lemma ThrowingTimePinIsServerError(m: map<string, Record>, req: Request, env: Env,
                                     rule: (int, int) -> Option<int>, now: nat)
    requires req.httpMethod == "POST" && BodyReadable(req) && IsSet(env.dashboardPin)
    requires GetProp(req.body.value, "staticPin") == Defined(JStr(env.dashboardPin.value))
    requires Check(m, GetClientIP(req.headers), now).0.Allowed?
    requires RuleEvaluates(rule, now)
    requires TimePinThrows(GetProp(req.body.value, "timePin"))
    ensures Handle(m, req, env, rule, now) == (AuthenticationError(), Check(m, GetClientIP(req.headers), now).1)
  {
    HandleAllowed(m, req, env, rule, now);
  }

  /** Past the method, body and rate checks the handler is `Verify`, and the
      map is reset exactly on success. */
  lemma HandleAllowed(m: map<string, Record>, req: Request, env: Env,
                      rule: (int, int) -> Option<int>, now: nat)
    requires req.httpMethod == "POST" && BodyReadable(req)
    requires Check(m, GetClientIP(req.headers), now).0.Allowed?
    ensures var ip := GetClientIP(req.headers);
      var (rc, m1) := Check(m, ip, now);
      var resp := Verify(rc.attemptsLeft, GetProp(req.body.value, "staticPin"),
                         GetProp(req.body.value, "timePin"), env, rule, now);
      Handle(m, req, env, rule, now) == (resp, if resp.status == 200 then Reset(m1, ip) else m1)
  {
  }

  /** How the submitted time PIN is read: a JSON number or its decimal
      string is that number. */
  lemma TimePinParsing(n: int)
    ensures TimePinNumber(Defined(JNum(n))) == Some(n)
    ensures TimePinNumber(Defined(JStr(IntToString(n)))) == Some(n)
  {
    ParseIntOfIntToString(n);
  }

  /** A missing, `null` or empty time PIN is NaN and matches no code. */
  lemma AbsentTimePinRejected(rule: (int, int) -> Option<int>, now: nat)
    ensures !CodeAccepted(TimePinNumber(Undefined), rule, now)
    ensures !CodeAccepted(TimePinNumber(Defined(JNull)), rule, now)
    ensures !CodeAccepted(TimePinNumber(Defined(JStr(""))), rule, now)
  {
    assert LeadingWhitespace("undefined") == 0 && LeadingWhitespace("null") == 0;
    assert TimePinNumber(Undefined) == None;
    assert TimePinNumber(Defined(JNull)) == None;
    assert TimePinNumber(Defined(JStr(""))) == None;
  }

  /** The tolerance window in terms of the clock: a code is accepted exactly
      when the rule gives it for the UTC minute of `now - 60 s`, `now` or
      `now + 60 s`. */
  lemma AcceptanceWindow(code: int, rule: (int, int) -> Option<int>, now: nat)
    requires now >= 60000
    ensures CodeAccepted(Some(code), rule, now) <==>
      || rule(UtcHour(now - 60000), UtcMinute(now - 60000)) == Some(code)
      || rule(UtcHour(now), UtcMinute(now)) == Some(code)
      || rule(UtcHour(now + 60000), UtcMinute(now + 60000)) == Some(code)
  {
    PrevInstantIsMinuteBefore(now);
    NextInstantIsMinuteAfter(now);
  }
}
