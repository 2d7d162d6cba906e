# Urochithi: a verified model of the anonymous-letter backend and dashboard

Urochithi is an anonymous letter box. Visitors post a letter through a
serverless `submit` endpoint that forwards it to a spreadsheet. The owner
reads the letters on a dashboard. The dashboard sits behind a two-step
login: a static PIN, then a time-based code derived from the current UTC
minute. A per-IP rate limiter guards the second step. A bearer record
`{authenticated, timestamp}` kept in the browser guards the message list.

This project models, in Dafny:

- the in-memory rate limiter (`RateLimiter`): `checkRateLimit`,
  `resetRateLimit`, `cleanupOldEntries` as methods of a `Limiter` object
  over its `attempts` map, each proved equal to a pure function of the old
  map, and `getClientIP`;
- step 2 of the login (`TimePin`): method, body, rate check, re-check of
  the static PIN, and the three-minute acceptance window around the UTC
  clock reading;
- the reCAPTCHA v3 decision (`Recaptcha`) on a siteverify answer;
- step 1 of the login (`StaticPin`);
- the dashboard bearer check and message shaping of `get-messages`
  (`GetMessages`), as written, beside a corrected handler for the flaw listed
  under "## Findings";
- the ordered validation chain and trimmed payload of `submit` (`Submit`);
- the dashboard page (`Dashboard`). It covers the session guard (stored-record
  expiry and inactivity logout), the PIN held between the steps, the
  search, date filter and sort, the relative-time buckets and the share
  excerpt.

Shared pieces: `Wrappers` holds `Option`. `Js` holds the JSON values the
handlers see and the JavaScript semantics they rely on: property reads that
throw on `null`, truthiness, `trim`, ASCII `toLowerCase`, `includes`,
`String(v)`, `parseInt(s, 10)` and the `Number(v)` coercion of binary `-`.
The three conversions throw a TypeError for a value with no primitive value
(`ToPrimitiveThrows`): an object with its own "toString" key, whose value
JSON cannot make callable, or an array holding one.
`Http` holds requests, responses and environment variables.

Inputs from the outside are parameters:

- clocks are `now` in milliseconds; the local midnight "today" is `todayStart`;
- environment variables form `Env`;
- the outcomes of every `fetch` are datatypes (`Sheets`, `Delivery`,
  `Upstream`, `EndpointReply`, `LoadReply`);
- form fields and the browser's stored record are plain values.

The configured `TIME_PIN_ALGORITHM` is a function parameter
`rule: (int, int) -> Option<int>`, where `None` stands for an evaluation that
throws. `DefaultRule` is the closed form used when the variable is unset.

The static-PIN step keeps no state: no rate limit and no bot check. No handler
here calls `verifyRecaptcha`.

## Model

| member | source | states |
|---|---|---|
| `RateLimiter.Check` | netlify/functions/rate-limiter.js:21-92 | an empty IP is refused with the map unchanged; otherwise the IP has a record afterwards, an allowed answer leaves at least one attempt, and every refusal carries a wait of at least one second |
| `RateLimiter.Reset` | netlify/functions/rate-limiter.js:98-102 | a non-empty IP is gone afterwards and every other record is unchanged; an empty IP changes nothing |
| `RateLimiter.Cleaned` | netlify/functions/rate-limiter.js:120-129 | exactly the records idle for at most twice the window remain, each unchanged |
| `RateLimiter.Limiter.CheckRateLimit` | netlify/functions/rate-limiter.js:21-92 | the answer and the new `attempts` map are exactly `Check` of the old map, and the record invariant is kept |
| `RateLimiter.Limiter.ResetRateLimit` | netlify/functions/rate-limiter.js:98-102 | the new map is the old one without the IP; an empty IP changes nothing |
| `RateLimiter.Limiter.CleanupOldEntries` | netlify/functions/rate-limiter.js:120-129 | the loop deletes exactly the entries idle for more than twice the window and keeps the other records unchanged |
| `RateLimiter.Limiter.constructor` | netlify/functions/rate-limiter.js:7 | the limiter starts with an empty map |
| `RateLimiter.CheckWithoutIp` | netlify/functions/rate-limiter.js:22-24 | an empty IP is refused with "IP address required" and the map is unchanged |
| `RateLimiter.CheckFirstAttempt` | netlify/functions/rate-limiter.js:29-40 | an unknown IP gets `{count 1, lastAttempt now, blockedUntil null}` and 4 attempts left; no other key changes |
| `RateLimiter.CheckWhileBlocked` | netlify/functions/rate-limiter.js:43-50 | during a lock the call is refused with a wait of `ceil((blockedUntil - now)/1000) >= 1` seconds and the map is untouched |
| `RateLimiter.CheckAfterWindow` | netlify/functions/rate-limiter.js:53-63 | more than 15 minutes after the last attempt (strictly) the record restarts at count 1 with 4 left |
| `RateLimiter.CheckWithinWindow` | netlify/functions/rate-limiter.js:65-91 | inside the window the count goes up by one and `lastAttempt` becomes now; below 5 the answer is allowed with `5 - count` left; at 5 or more it is refused with a lock of `blockDurationMs * 2^(count-5)` |
| `RateLimiter.CheckTouchesOnlyIp` | netlify/functions/rate-limiter.js:21-92 | a check adds at most the given IP and changes no other record |
| `RateLimiter.CheckThenReset` | netlify/functions/rate-limiter.js:98-102 | a reset after any check of the same IP leaves the old map without that IP |
| `RateLimiter.ResetThenCheck` | netlify/functions/rate-limiter.js:29-40 | after a reset, the next check of that IP starts afresh with 4 left |
| `RateLimiter.CountedAttempt` | netlify/functions/rate-limiter.js:65-91 | a counted attempt below the limit is allowed with `5 - count - 1` left and records count + 1 at now |
| `RateLimiter.LockingAttempt` | netlify/functions/rate-limiter.js:70-84 | the attempt that reaches 5 is refused with 1800 seconds and locks until now + 30 minutes |
| `RateLimiter.FifthAttemptLocksOut` | netlify/functions/rate-limiter.js:21-92 | five calls within the window give allowed 4, 3, 2, 1 and then a refusal of 1800 s; a sixth call during the lock is refused with a positive wait |
| `RateLimiter.CheckPreservesInv` | netlify/functions/rate-limiter.js:9-92 | with the shipped constants every record keeps count in [1,5], and a lock sits exactly one block after the last attempt |
| `RateLimiter.ExpiredLockResets` | netlify/functions/rate-limiter.js:43-63 | a used-up record whose lock has ended is past its window, so it restarts rather than being counted further |
| `RateLimiter.BackoffMultiplierIsOne` | netlify/functions/rate-limiter.js:70-79 | under the invariant the backoff exponent is always 0: every lock lasts 1800 seconds |
| `RateLimiter.ResetPreservesInv` | netlify/functions/rate-limiter.js:98-102 | a reset keeps the record invariant |
| `RateLimiter.CleanupKeepsActiveLocks` | netlify/functions/rate-limiter.js:120-129 | cleanup keeps the invariant, removes exactly the stale entries and never removes an active lock |
| `RateLimiter.GetClientIP` | netlify/functions/rate-limiter.js:109-115 | the identity is never empty |
| `RateLimiter.ClientIPPrecedence` | netlify/functions/rate-limiter.js:111-114 | the Netlify address wins, then the first `x-forwarded-for` entry (which has no comma), then `client-ip`, then "unknown" |
| `RateLimiter.FirstCommaPart` | netlify/functions/rate-limiter.js:112 | the result is the prefix before the first comma, or the whole string when there is none |
| `RateLimiter.CeilDiv` | netlify/functions/rate-limiter.js:44 | `Math.ceil(a / d)`: the least q with `a <= d * q` |
| `TimePin.VerifyTimePin` | netlify/functions/verify-time-pin.js:8-159 | the handler driving the limiter object gives the response and new map of `Handle`, and keeps the limiter invariant |
| `TimePin.NonPostRejected` | netlify/functions/verify-time-pin.js:9-15 | a non-POST request is a 405 and the limiter is not consulted |
| `TimePin.UnusableBodyKeepsLimiter` | netlify/functions/verify-time-pin.js:20-157 | a body that does not parse, or is `null`, is a 500 "Authentication error" before any rate check |
| `TimePin.RateLimitedBeforePins` | netlify/functions/verify-time-pin.js:26-42 | a refused rate check is a 429 whatever the PINs; `Retry-After` is `retryAfter` or 1800; the map is what the check left |
| `TimePin.MissingPinNeverAuthenticates` | netlify/functions/verify-time-pin.js:47-56 | without DASHBOARD_PIN the handler never answers 200; past the rate check it answers 500 |
| `TimePin.WrongStaticPinRejected` | netlify/functions/verify-time-pin.js:58-68 | a static PIN not exactly DASHBOARD_PIN is a 401 "Invalid PIN"; the attempt stays counted |
| `TimePin.Handle` | netlify/functions/verify-time-pin.js:8-159 | the status is 200, 401, 405, 429 or 500; 405 exactly for a non-POST; 429 exactly when a readable POST is refused by the rate check; after a 200 the IP has no record |
| `TimePin.Verify` | netlify/functions/verify-time-pin.js:47-157 | after the rate check the status is 200, 401 or 500; an unset DASHBOARD_PIN is a 500; a 200 is the success body and needs the exact static PIN, a time PIN `parseInt` does not throw on and an accepted code, and those with a rule that evaluates give the success; a time PIN that makes `parseInt` throw is the 500 "Authentication error" |
| `TimePin.VerifySucceedsIff` | netlify/functions/verify-time-pin.js:47-146 | after the rate check, 200 holds exactly when the PIN matches, the rule evaluates at the three instants, `parseInt` does not throw and the parsed code equals one of them |
| `TimePin.AuthenticatedIff` | netlify/functions/verify-time-pin.js:8-146 | the request is authenticated exactly when it is a POST with a readable body, the rate check allows it and the credentials verify; success removes the IP's record |
| `TimePin.HandleAllowed` | netlify/functions/verify-time-pin.js:116-146 | past the rate check the answer is `Verify`'s, and the map is reset exactly on 200 |
| `TimePin.WrongTimePinCounted` | netlify/functions/verify-time-pin.js:116-131 | a wrong time code is a 401 carrying the rate check's `attemptsLeft`, and the attempt is not forgiven |
| `TimePin.WrongCode` | netlify/functions/verify-time-pin.js:122-130 | the 401 body holds `authenticated: false`, the error and `attemptsLeft` |
| `TimePin.TooManyRequests` | netlify/functions/verify-time-pin.js:30-41 | the rate-limit answer is a 429 |
| `TimePin.PrevInstant` | netlify/functions/verify-time-pin.js:102-103 | the previous (hour, minute) stays in range and is the minute of day minus one, modulo 1440 |
| `TimePin.NextInstant` | netlify/functions/verify-time-pin.js:109-110 | the next (hour, minute) stays in range and is the minute of day plus one, modulo 1440 |
| `TimePin.PrevInstantIsMinuteBefore` | netlify/functions/verify-time-pin.js:102-103 | the source's previous instant is the UTC clock reading of now - 60 s |
| `TimePin.NextInstantIsMinuteAfter` | netlify/functions/verify-time-pin.js:109-110 | the source's next instant is the UTC clock reading of now + 60 s |
| `TimePin.AcceptanceWindow` | netlify/functions/verify-time-pin.js:116-118 | a code is accepted exactly when the rule yields it at the UTC minute of now - 60 s, now or now + 60 s |
| `TimePin.UtcHour` | netlify/functions/verify-time-pin.js:79 | the UTC hour is in [0,23] |
| `TimePin.UtcMinute` | netlify/functions/verify-time-pin.js:80 | the UTC minute is in [0,59] |
| `TimePin.DefaultRuleRange` | netlify/functions/verify-time-pin.js:73 | the default rule `(hour*7)+(minute%10)` always evaluates, to a code in [0,170] |
| `TimePin.DefaultRuleAtBoundaries` | netlify/functions/verify-time-pin.js:73-114 | worked values of the default rule and of the wrap-around at 00:00 and 23:59 |
| `TimePin.TimePinNumber` | netlify/functions/verify-time-pin.js:116 | `parseInt(timePin, 10)`: a numeric time PIN reads as its own value, a string one as `parseInt` of the string |
| `TimePin.ThrowingTimePinIsServerError` | netlify/functions/verify-time-pin.js:116-157 | past the static PIN, a time PIN with its own "toString" key makes `parseInt` throw: 500 "Authentication error", and the attempt stays counted |
| `TimePin.TimePinParsing` | netlify/functions/verify-time-pin.js:116 | a numeric time PIN, or its decimal string as the model writes it, parses to that number |
| `TimePin.AbsentTimePinRejected` | netlify/functions/verify-time-pin.js:116-118 | a missing, `null` or empty time PIN is NaN and matches no code |
| `Recaptcha.VerifyRecaptcha` | netlify/functions/recaptcha-verify.js:11-103 | success holds exactly when token and secret are present, the call answered OK with `success`, the action is absent or expected, and the score is absent or at least 0.5; every failure carries an error |
| `Recaptcha.MissingTokenFailsFirst` | netlify/functions/recaptcha-verify.js:12-17 | a missing token fails with 'reCAPTCHA token required' whatever the secret and the upstream |
| `Recaptcha.MissingSecretFails` | netlify/functions/recaptcha-verify.js:19-27 | a missing secret fails with 'reCAPTCHA not configured' whatever the upstream |
| `Recaptcha.UpstreamFailure` | netlify/functions/recaptcha-verify.js:38-44 | a non-OK or thrown call fails with a generic error and no error codes |
| `Recaptcha.UpstreamRejects` | netlify/functions/recaptcha-verify.js:56-63 | `success: false` fails and passes on the error codes |
| `Recaptcha.ActionMismatchFails` | netlify/functions/recaptcha-verify.js:66-72 | a present, different action fails whatever the score |
| `Recaptcha.DefaultActionOnly` | netlify/functions/recaptcha-verify.js:11-72 | with the default `expectedAction` of 'dashboard_login', a successful, confident answer passes exactly when its action is missing, empty or 'dashboard_login' |
| `Recaptcha.ScoreThresholdBoundary` | netlify/functions/recaptcha-verify.js:77-86 | a score below 0.5 fails and reports the score; exactly 0.5 passes |
| `StaticPin.VerifyStaticPin` | netlify/functions/verify-static-pin.js:5-58 | the status is one of 200, 401, 405, 500 |
| `StaticPin.ValidIff` | netlify/functions/verify-static-pin.js:39-45 | 200 `valid: true` holds exactly for a POST whose `staticPin` is the string DASHBOARD_PIN holds, that variable being set |
| `StaticPin.NonPostRejected` | netlify/functions/verify-static-pin.js:6-12 | a non-POST request is a 405 |
| `StaticPin.MissingPinIsServerError` | netlify/functions/verify-static-pin.js:17-26 | an unset or empty DASHBOARD_PIN is a 500, never "any PIN" |
| `StaticPin.WrongPinRejected` | netlify/functions/verify-static-pin.js:28-37 | an absent, non-string or different PIN is a 401 `valid: false` |
| `StaticPin.UnparsableBody` | netlify/functions/verify-static-pin.js:47-56 | an unparsable or `null` body is a 500 'Authentication error' |
| `GetMessages.AuthCheckAsWritten` | netlify/functions/get-messages.js:30-52 | as written, a bearer is invalid exactly when a field is falsy or the subtraction throws (a timestamp with no primitive value); it expires only with a numeric stale timestamp |
| `GetMessages.AuthCheck` | netlify/functions/get-messages.js:30-52 | the intended check: invalid also when the timestamp is NaN; expired exactly for a numeric timestamp more than 30 minutes old |
| `GetMessages.ThrowingTimestampRejected` | netlify/functions/get-messages.js:33-51 | a bearer whose timestamp is `{"toString": 0}` makes `now - timestamp` throw, so the catch answers 401 "Invalid authentication" |
| `GetMessages.NonNumericTimestampNeverExpires` | netlify/functions/get-messages.js:39 | as written, `{authenticated: true, timestamp: {}}` is accepted at every instant; the intended check refuses it |
| `GetMessages.CorrectionOnlyRejectsNaN` | netlify/functions/get-messages.js:39 | the two checks differ only on a NaN timestamp |
| `GetMessages.AuthCheckAcceptedIff` | netlify/functions/get-messages.js:33-45 | accepted exactly with truthy fields and a numeric timestamp at most 30 minutes old (30 minutes still passes) |
| `GetMessages.Serve` | netlify/functions/get-messages.js:6-108 | once the bearer is judged: 200 exactly for a GET with an accepted session, GSCRIPT_URL set and a decoded answer; 401 exactly for a GET without an accepted session |
| `GetMessages.GetMessages` | netlify/functions/get-messages.js:6-108 | the handler as written: the status is 200, 401, 405 or 500; 200 exactly for a GET whose header passes the check as written, with GSCRIPT_URL set and a decoded answer; a 500 needs such a session |
| `GetMessages.GetMessagesIntended` | netlify/functions/get-messages.js:6-108 | the same handler with the intended bearer check: 200 exactly when that check accepts and the fetch succeeds |
| `GetMessages.NonGetRejected` | netlify/functions/get-messages.js:8-14 | a non-GET request is a 405 |
| `GetMessages.UnauthenticatedIs401` | netlify/functions/get-messages.js:20-52 | without a session the check as written accepts, the answer is a 401 with the matching message, before the configuration is read |
| `GetMessages.SuccessShape` | netlify/functions/get-messages.js:85-95 | a 200 needs a session the check as written accepts; its body has exactly `messages`, which is `data.messages` when truthy and `[]` otherwise, and `count`, which is `CountOf(data)`; for a list `count` is its length |
| `GetMessages.NonNumericBearerServed` | netlify/functions/get-messages.js:33-95 | as written, a bearer whose timestamp is `{}` is served the letters (200 with an empty list for `{}` from the sheet) at every instant; the intended handler answers 401 "Invalid authentication" |
| `GetMessages.IntendedDiffersOnlyOnNaN` | netlify/functions/get-messages.js:39 | the intended handler answers differently only for a bearer whose timestamp is NaN, and then with a 401 |
| `GetMessages.MessagesOf` | netlify/functions/get-messages.js:92 | the stored messages when truthy, else an empty list; never falsy |
| `GetMessages.CountOf` | netlify/functions/get-messages.js:93 | for a list or string of messages, `count` is its length; with falsy messages it is 0 |
| `Submit.Submit` | netlify/functions/submit.js:5-135 | a payload is sent exactly when every check passes; a non-POST is the 405 and sends nothing |
| `Submit.MissingSessionIdRejected` | netlify/functions/submit.js:51-57 | a valid letter without a truthy session id is a 400 "Session ID required", whatever the configuration, and nothing is sent |
| `Submit.ConfigurationErrorIff` | netlify/functions/submit.js:62-69 | the 500 "GSCRIPT_URL not set" comes exactly when every check on the request passes and GSCRIPT_URL is unset, and then nothing is sent |
| `Submit.DeliveredIff` | netlify/functions/submit.js:5-117 | 200 holds exactly when every check passes and the spreadsheet answers OK with JSON |
| `Submit.PayloadShape` | netlify/functions/submit.js:74-78 | the payload letter is the trimmed input: non-empty, within 2000, no whitespace at either end, and the input is it with only whitespace around it; the session id passes unchanged |
| `Submit.HoneypotFirst` | netlify/functions/submit.js:23-30 | a filled honeypot is a 400 "Invalid request" and nothing is sent |
| `Submit.BlankMessageRejected` | netlify/functions/submit.js:35-41 | a missing, falsy or blank letter is a 400 "Message is required" |
| `Submit.LengthLimit` | netlify/functions/submit.js:43-49 | the limit counts the untrimmed letter and is inclusive: 2000 passes, 2001 is refused |
| `Submit.BadRequestSendsNothing` | netlify/functions/submit.js:23-57 | every 400 is one of the four validation messages and sends nothing |
| `Dashboard.Page.constructor` | js/dashboard.js:5-9 | a page load starts at step 1, with no PIN held, no letters, and last activity at load time |
| `Dashboard.Page.CheckAuth` | js/dashboard.js:27-42 | a stored record is resumed exactly when `now - timestamp < 30 min` (strict), which sets last activity and shows the board; a stored `null` or a timestamp with no primitive value throws and changes nothing; any other record is removed |
| `Dashboard.Page.RecordActivity` | js/dashboard.js:45-46 | a click or key press sets last activity to now and nothing else |
| `Dashboard.Page.InactivityTick` | js/dashboard.js:47-49 | the periodic check logs out exactly when more than 30 minutes passed since last activity; otherwise nothing changes |
| `Dashboard.Page.Logout` | js/dashboard.js:139-142 | logout removes the stored record and reloads to step 1 with nothing held |
| `Dashboard.Page.Step1Replied` | js/dashboard.js:62-84 | the PIN is held and step 2 shown only on `response.ok && data.valid`; otherwise the error box shows `data.error` or 'Invalid PIN' |
| `Dashboard.Page.Back` | js/dashboard.js:87-92 | "back" shows step 1 and clears the held PIN |
| `Dashboard.Page.Step2Request` | js/dashboard.js:109 | step 2 sends the held static PIN with the typed code |
| `Dashboard.Page.Step2Replied` | js/dashboard.js:105-130 | `{authenticated: true, timestamp: now}` is stored and the board shown only on `response.ok && data.authenticated` |
| `Dashboard.Page.LoadMessages` | js/dashboard.js:146-172 | a successful load replaces the letters and redisplays them; a failure keeps both lists |
| `Dashboard.Page.FilterAndDisplay` | js/dashboard.js:191-226 | the letters on screen are `FilterAndSort` of the loaded letters |
| `Dashboard.ErrorText` | js/dashboard.js:75 | for step 1 here and step 2 at line 121: without a truthy `data.error` the fallback text is shown; with one, `String(data.error)`; a thrown call, or a `data.error` whose conversion to text throws, shows the connection message |
| `Dashboard.ClientSessionAcceptedByServer` | js/dashboard.js:32 | a session the page accepts is accepted by `get-messages` at the same instant |
| `Dashboard.ServerAcceptsAtBoundary` | js/dashboard.js:32 | at exactly 30 minutes the page drops a session the server still accepts |
| `Dashboard.ClearedPinNeverAuthenticates` | js/dashboard.js:87-92 | after "back" the step-2 request carries an empty PIN and cannot authenticate |
| `Dashboard.Cutoff` | js/dashboard.js:206-215 | a cutoff applies exactly for 'today', 'week' and 'month' |
| `Dashboard.Filter` | js/dashboard.js:196-217 | every letter that matches the search and passes the cutoff is kept as many times as it occurs, every other letter is dropped, and the kept ones stay in their original order |
| `Dashboard.Insert` | js/dashboard.js:219-223 | insertion adds exactly one copy of the letter |
| `Dashboard.InsertSorted` | js/dashboard.js:219-223 | insertion into a sorted list keeps it sorted |
| `Dashboard.SortByDate` | js/dashboard.js:219-223 | the sort is a permutation, ordered by timestamp (descending for 'newest', ascending otherwise) |
| `Dashboard.FilterAndSort` | js/dashboard.js:196-223 | the result is a permutation of the filtered letters: each letter that matches the search and passes the cutoff occurs as often as in the list and no other letter occurs; it is sorted by the chosen order |
| `Dashboard.NoFilterKeepsAll` | js/dashboard.js:196-217 | with an empty search and no date filter every letter is kept |
| `Dashboard.FormatAge` | js/dashboard.js:460-470 | under a minute gives 'Just now'; minutes are in [1,59] and hours in [1,23], each the floor of the elapsed time; a day or more gives the locale date |
| `Dashboard.FormatDate` | js/dashboard.js:465-469 | the label is 'Just now' under a minute, the floor of the minutes with 'm ago' under an hour, the floor of the hours with 'h ago' under a day, and the locale date from a day on |
| `Dashboard.BucketsMeet` | js/dashboard.js:465-467 | 59m is followed by 1h, and 23h by the date |
| `Dashboard.Excerpt` | js/dashboard.js:369-371 | the excerpt is at most 153 characters: the whole letter up to 150, else its first 150 and "..." |
| `Js.Trim` | netlify/functions/submit.js:35 | `trim` is empty exactly for an all-whitespace string; otherwise it starts and ends with non-whitespace; the input is the result with only whitespace before and after it |
| `Js.TrimUnique` | netlify/functions/submit.js:75 | any non-empty piece bounded by non-whitespace with only whitespace around it in the input is the trim |
| `Js.ParseIntOfIntToString` | netlify/functions/verify-time-pin.js:116 | `parseInt` of the model's `String(n)` (plain decimal digits) is n |
| `Js.ParseInt` | netlify/functions/verify-time-pin.js:116 | `parseInt(s, 10)` is NaN exactly when, after leading whitespace and an optional sign, no decimal digit follows |
| `Js.ToNumber` | netlify/functions/get-messages.js:39 | `Number(v)` for a value with a primitive value: `null` is 0, `true` 1 and `false` 0, a number itself, an object NaN, an empty array 0, a string `StringToNumber` of it |
| `Js.StringToNumber` | netlify/functions/get-messages.js:39 | `Number(s)`: a blank string is 0, and a finite value needs a decimal digit |
| `Js.StringToNumberOfIntToString` | netlify/functions/get-messages.js:39 | `Number` of the model's `String(n)`, with whitespace around it, is n |
| `Js.ToString` | js/dashboard.js:75 | `String(v)` for a value with a primitive value: a string is itself, a number its decimal digits, `null` "null", a boolean "true" or "false", an object "[object Object]", `[]` and `[null]` "", a one-element array its element's text |
| `Js.NatToStringValue` | netlify/functions/verify-time-pin.js:116 | the decimal digits of n read back as n |

## Left out

- I/O and the network: every `fetch` is an input (a datatype of outcomes), as are `Date.now()`, `new Date()`, `localStorage` contents and form fields. The outbound request bodies to the spreadsheet and to siteverify are not modelled, except the submit payload.
- Response headers other than `Retry-After` (`Content-Type`, `Cache-Control`), and the `details` field of 500 bodies (it carries a runtime error message).
- Logging (`console.*`) has no effect on the responses and is left out.
- Concurrency and cold starts: the `attempts` map is one object seen by sequential calls. Serverless instances that do not share it, or that lose it on a cold start, are not modelled.
- Floating point: JSON numbers are integers. A non-integer timestamp, score-like value or rule result is not modelled. reCAPTCHA scores are `real`. A `null` score (which JavaScript compares as 0) is not modelled; scores are present or absent.
- `Js.IntToString`: JSON numbers are exact unbounded integers and `String(n)` is always plain decimal digits. JavaScript writes 1e21 and larger in exponent form (so `parseInt(String(1e21), 10)` is 1) and loses integer precision above 2^53; neither is modelled, so `Js.ParseIntOfIntToString` and `TimePin.TimePinParsing` hold for the model's numbers only.
- `Js.ToString`: the TypeError for a value with no primitive value is a precondition; each caller tests `ToPrimitiveThrows` first and models the catch that follows. An own "valueOf" key alone is skipped, as in JavaScript, so `{"valueOf": 0}` converts like `{}`.
- `Number(s)` covers blank strings and optionally signed decimal integers. Fractions, exponents, hexadecimal and `Infinity` strings give NaN in the model.
- `TIME_PIN_ALGORITHM` is a function parameter. The string substitution and `Function(...)` evaluation are not modelled, and the handler's two clock readings are taken as one `now`.
- String lengths count code points, not UTF-16 code units. `toLowerCase` maps ASCII letters only.
- `Dashboard.SortByDate`: the sort is proved ordered and a permutation, but not stable. Invalid dates (NaN comparator results) are not modelled: timestamps are integers.
- `Dashboard.Page.LoadMessages`: decoding the JSON array into letter records is not modelled. The reply carries the decoded `data.messages || []`. The Authorization header it sends is the stored record itself.
- `Dashboard.Page.CheckAuth`: a stored record that does not parse as JSON (the page script stops) is not modelled. The stored value is held already parsed.
- `Dashboard.FormatAge`: the locale-formatted date and time after a day is the bucket `LocaleDate`, not a string.
- The "today" cutoff (local midnight) and the share text around the excerpt (site URL, share links) are parameters or left out.
- DOM rendering, `escapeHtml`, the letter modal, the clipboard, image export, `navigator.share`, the on-screen UTC clock and `updateStats` change only the screen. js/main.js and js/config.js are not part of this model; the submit length limit they repeat is `Submit.MaxMessageLength`.

## Findings

| source | as written | input that shows it | evidently intended | confidence | as-written member | corrected member |
|---|---|---|---|---|---|---|
| netlify/functions/get-messages.js:39 | `now - authData.timestamp > 30 * 60 * 1000` is false when the timestamp is not a number (NaN), so such a session never expires | Authorization `{"authenticated":true,"timestamp":{}}` is served the letters at every instant (`GetMessages.NonNumericBearerServed`) | a timestamp that is not a number is invalid authentication | medium (not executed) | `GetMessages.GetMessages` | `GetMessages.GetMessagesIntended` |
