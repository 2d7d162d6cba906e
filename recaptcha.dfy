/** `verifyRecaptcha`: the decision taken on a reCAPTCHA v3 siteverify answer.
    The outbound call is not made here; its outcome is an argument, and is
    only looked at once a token and a secret are present. */
module Recaptcha {
  import opened Wrappers
  import Http

  const DefaultExpectedAction := "dashboard_login"
  const ScoreThreshold: real := 0.5

  /** The fields of the siteverify JSON answer that the code reads. */
  datatype Siteverify = Siteverify(
    success: bool,
    score: Option<real>,
    action: Option<string>,
    hostname: Option<string>,
    errorCodes: Option<seq<string>>)

  /** What the call to siteverify produced: a thrown error (network failure or
      a body that is not JSON), a non-OK status, or the decoded answer. */
  datatype Upstream = Threw | NotOk(status: int) | Answer(data: Siteverify)

  /** The object `verifyRecaptcha` resolves to. */
  datatype Verdict = Verdict(
    success: bool,
    error: Option<string>,
    errorCodes: Option<seq<string>>,
    score: Option<real>,
    action: Option<string>,
    hostname: Option<string>)

  function Fail(error: string): Verdict {
    Verdict(false, Some(error), None, None, None, None)
  }

  /** `data.action && data.action !== expectedAction`. */
  predicate ActionMismatch(action: Option<string>, expectedAction: string) {
    action.Some? && action.value != "" && action.value != expectedAction
  }

  /** `data.score !== undefined && data.score < 0.5`. */
  predicate ScoreTooLow(score: Option<real>) {
    score.Some? && score.value < ScoreThreshold
  }

  function VerifyRecaptcha(token: Option<string>, expectedAction: string,
                           secretKey: Option<string>, upstream: Upstream): (v: Verdict)
    ensures v.success <==>
      && Http.IsSet(token) && Http.IsSet(secretKey)
      && upstream.Answer? && upstream.data.success
      && !ActionMismatch(upstream.data.action, expectedAction)
      && !ScoreTooLow(upstream.data.score)
    ensures !v.success ==> v.error.Some?
  {
    if !Http.IsSet(token) then Fail("reCAPTCHA token required")
    else if !Http.IsSet(secretKey) then Fail("reCAPTCHA not configured")
    else match upstream
      case Threw => Fail("reCAPTCHA verification error")
      case NotOk(_) => Fail("reCAPTCHA verification failed")
      case Answer(data) =>
        if !data.success then Fail("reCAPTCHA verification failed").(errorCodes := data.errorCodes)
        else if ActionMismatch(data.action, expectedAction) then Fail("Invalid reCAPTCHA action")
        else if ScoreTooLow(data.score) then
          Fail("Suspicious activity detected. Please try again.").(score := data.score)
        else Verdict(true, None, None, data.score, data.action, data.hostname)
  }

  /** A missing token fails before the secret or the upstream answer is looked at. */
  lemma MissingTokenFailsFirst(token: Option<string>, expectedAction: string,
                               secretKey: Option<string>, upstream: Upstream)
    requires !Http.IsSet(token)
    ensures VerifyRecaptcha(token, expectedAction, secretKey, upstream) == Fail("reCAPTCHA token required")
  {
  }

  /** A missing secret fails before the upstream answer is looked at. */
  lemma MissingSecretFails(token: Option<string>, expectedAction: string,
                           secretKey: Option<string>, upstream: Upstream)
    requires Http.IsSet(token) && !Http.IsSet(secretKey)
    ensures VerifyRecaptcha(token, expectedAction, secretKey, upstream) == Fail("reCAPTCHA not configured")
  {
  }

  /** A failed call never succeeds, and only a generic error reaches the caller. */
  lemma UpstreamFailure(token: string, expectedAction: string, secretKey: string, upstream: Upstream)
    requires token != "" && secretKey != "" && !upstream.Answer?
    ensures var v := VerifyRecaptcha(Some(token), expectedAction, Some(secretKey), upstream);
      && !v.success && v.errorCodes.None?
      && v.error == Some(if upstream.Threw? then "reCAPTCHA verification error" else "reCAPTCHA verification failed")
  {
  }

  /** An explicit upstream failure is passed on with its error codes. */
  lemma UpstreamRejects(token: string, expectedAction: string, secretKey: string, data: Siteverify)
    requires token != "" && secretKey != "" && !data.success
    ensures var v := VerifyRecaptcha(Some(token), expectedAction, Some(secretKey), Answer(data));
      !v.success && v.errorCodes == data.errorCodes
  {
  }

  /** A foreign action label fails even with a perfect score. */
  lemma ActionMismatchFails(token: string, expectedAction: string, secretKey: string, data: Siteverify)
    requires token != "" && secretKey != "" && data.success
    requires ActionMismatch(data.action, expectedAction)
    ensures VerifyRecaptcha(Some(token), expectedAction, Some(secretKey), Answer(data)) == Fail("Invalid reCAPTCHA action")
  {
  }

  /** A score below 0.5 fails and reports the score; exactly 0.5 passes. */
  lemma ScoreThresholdBoundary(token: string, expectedAction: string, secretKey: string, data: Siteverify)
    requires token != "" && secretKey != "" && data.success && !ActionMismatch(data.action, expectedAction)
    ensures data.score.Some? && data.score.value < 0.5 ==>
      var v := VerifyRecaptcha(Some(token), expectedAction, Some(secretKey), Answer(data));
      !v.success && v.score == data.score
    ensures data.score == Some(0.5) ==>
      VerifyRecaptcha(Some(token), expectedAction, Some(secretKey), Answer(data)).success
  {
  }

  /** With the default expected action, an answered, confident verdict
      succeeds exactly when the reported action is missing, empty or
      'dashboard_login'. */
  lemma DefaultActionOnly(token: string, secretKey: string, data: Siteverify)
    requires token != "" && secretKey != "" && data.success && !ScoreTooLow(data.score)
    ensures VerifyRecaptcha(Some(token), DefaultExpectedAction, Some(secretKey), Answer(data)).success <==>
      data.action.None? || data.action.value == "" || data.action.value == "dashboard_login"
  {
  }
}
