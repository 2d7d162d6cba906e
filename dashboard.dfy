/** The admin dashboard page: the client-side session guard (absolute expiry
    of the stored auth record and expiry after inactivity), the two login
    steps, and the search, date filter, sort, relative-time labels and share
    excerpt over the loaded letters. Clocks, storage reads, form fields and
    endpoint replies are arguments. */
module Dashboard {
  import opened Wrappers
  import opened Js
  import GetMessages
  import TimePin
  import RateLimiter
  import Http

  const SessionTimeoutMs: nat := 30 * 60 * 1000
  const MinuteMs: nat := 60 * 1000
  const HourMs: nat := 60 * MinuteMs
  const DayMs: nat := 24 * HourMs
  const ExcerptLength: nat := 150

  /** A letter as the list holds it; `timestamp` is its time value in ms. */
  datatype Message = Message(message: string, sessionId: string, timestamp: int)

  /** Which of the three panels is showing. */
  datatype View = Step1 | Step2 | Board

  /** What `checkAuth` did: nothing stored, session resumed, stale record
      removed, or a stored `null` made the property read throw. */
  datatype AuthOutcome = NoSession | Resumed | Removed | Threw

  /** A call to one of the site's own endpoints: the request or `response.json()`
      threw, or the endpoint answered with its `ok` flag and JSON body. */
  datatype EndpointReply = ConnectionFailed | Answered(ok: bool, data: Json)

  /** The `get-messages` call: failed (non-OK or thrown), or the letters in
      `data.messages || []`. */
  datatype LoadReply = LoadFailed | Loaded(letters: seq<Message>)

  /** The search box, the sort select and the date filter select. */
  datatype Controls = Controls(searchTerm: string, sortBy: string, filterBy: string)

  // ---------- session guard ----------

  /** The record step 2 stores and `get-messages` receives as its bearer. */
  function StoredSession(issuedAt: nat): Json {
    GetMessages.Bearer(JNum(issuedAt))
  }

  /** `now - authData.timestamp < SESSION_TIMEOUT`: a missing or non-numeric
      timestamp gives NaN, which compares false, and one with no primitive
      value throws. `authenticated` is not read. */
  predicate SessionFresh(authData: Json, now: int)
    requires !authData.JNull?
  {
    var p := GetProp(authData, "timestamp");
    && p.Defined? && !ToPrimitiveThrows(p.value)
    && ToNumber(p.value).Finite? && now - ToNumber(p.value).v < SessionTimeoutMs
  }

  /** A session the page accepts is accepted by `get-messages` at the same
      instant: the client's bound is strict, the server's is not. */
  lemma ClientSessionAcceptedByServer(issuedAt: nat, now: nat)
    requires issuedAt != 0
    requires SessionFresh(StoredSession(issuedAt), now)
    ensures GetMessages.AuthCheckAsWritten(Some(StoredSession(issuedAt)), now) == GetMessages.Accepted
  {
  }

  /** The converse fails at exactly 30 minutes: the page drops the session
      the server still accepts. */
  lemma ServerAcceptsAtBoundary(issuedAt: nat)
    requires issuedAt != 0
    ensures !SessionFresh(StoredSession(issuedAt), issuedAt + SessionTimeoutMs)
    ensures GetMessages.AuthCheckAsWritten(Some(StoredSession(issuedAt)), issuedAt + SessionTimeoutMs) == GetMessages.Accepted
  {
  }

  // ---------- login steps ----------

  /** `response.ok && data[flag]` evaluated without throwing. */
  predicate ReplySays(reply: EndpointReply, flag: string) {
    reply.Answered? && reply.ok && !reply.data.JNull? && PropTruthy(GetProp(reply.data, flag))
  }

  /** The text put in the error box when a step fails: `data.error || fallback`,
      or the connection message when the call, a property read or the
      conversion of `data.error` to text threw. */
  function ErrorText(reply: EndpointReply, fallback: string): (text: string)
    ensures (reply.Answered? && !reply.data.JNull? && !PropTruthy(GetProp(reply.data, "error"))) ==> text == fallback
    ensures (&& reply.Answered? && !reply.data.JNull? && PropTruthy(GetProp(reply.data, "error"))
             && !ToPrimitiveThrows(GetProp(reply.data, "error").value))
            ==> text == ToString(GetProp(reply.data, "error").value)
    ensures (|| reply.ConnectionFailed? || reply.data.JNull?
             || (PropTruthy(GetProp(reply.data, "error")) && ToPrimitiveThrows(GetProp(reply.data, "error").value)))
            ==> text == "Connection error. Please try again."
  {
    if reply.ConnectionFailed? || reply.data.JNull? then "Connection error. Please try again."
    else
      var e := GetProp(reply.data, "error");
      if !PropTruthy(e) then fallback
      else if ToPrimitiveThrows(e.value) then "Connection error. Please try again."
      else ToString(e.value)
  }

  /** The body step 2 posts to `verify-time-pin`. */
  function Step2Body(staticPinValue: string, timePin: string): Json {
    JObj(map["staticPin" := JStr(staticPinValue), "timePin" := JStr(timePin)])
  }

  /** Once "back" has cleared the held PIN, step 2 cannot authenticate: the
      server compares the empty string with a configured, non-empty PIN. */
  lemma ClearedPinNeverAuthenticates(attemptsLeft: int, timePin: string, env: Http.Env,
                                     rule: (int, int) -> Option<int>, now: nat)
    ensures var body := Step2Body("", timePin);
      TimePin.Verify(attemptsLeft, GetProp(body, "staticPin"), GetProp(body, "timePin"), env, rule, now).status != 200
  {
  }

  // ---------- filter and sort ----------

  /** The earliest time a letter may have under the date filter, if any. */
  function Cutoff(filterBy: string, now: int, todayStart: int): (c: Option<int>)
    ensures c.Some? <==> filterBy in {"today", "week", "month"}
  {
    if filterBy == "today" then Some(todayStart)
    else if filterBy == "week" then Some(now - 7 * DayMs)
    else if filterBy == "month" then Some(now - 30 * DayMs)
    else None
  }

  /** The search term, lower-cased, is empty or occurs in the lower-cased
      letter or session id. */
  predicate MatchesSearch(m: Message, searchTerm: string) {
    var t := Lower(searchTerm);
    t == "" || Includes(Lower(m.message), t) || Includes(Lower(m.sessionId), t)
  }

  predicate PassesCutoff(m: Message, filterBy: string, now: int, todayStart: int) {
    var c := Cutoff(filterBy, now, todayStart);
    c.None? || m.timestamp >= c.value
  }

  predicate Keep(m: Message, c: Controls, now: int, todayStart: int) {
    MatchesSearch(m, c.searchTerm) && PassesCutoff(m, c.filterBy, now, todayStart)
  }

  /** `r` is `s` with some elements left out, the rest in their order. */
  predicate Subsequence(r: seq<Message>, s: seq<Message>)
    decreases |s|
  {
    r == [] || (s != [] && ((r[0] == s[0] && Subsequence(r[1..], s[1..])) || Subsequence(r, s[1..])))
  }

  /** `messages.filter(...)`: the kept letters, in their original order. */
  function Filter(ms: seq<Message>, c: Controls, now: int, todayStart: int): (r: seq<Message>)
    ensures multiset(r) <= multiset(ms)
    ensures forall m | m in r :: Keep(m, c, now, todayStart)
    ensures forall m | m in ms && Keep(m, c, now, todayStart) :: m in r
    ensures forall m :: multiset(r)[m] == if Keep(m, c, now, todayStart) then multiset(ms)[m] else 0
    ensures Subsequence(r, ms)
  {
    if ms == [] then []
    else
      var rest := Filter(ms[1..], c, now, todayStart);
      assert ms == [ms[0]] + ms[1..];
      if Keep(ms[0], c, now, todayStart) then [ms[0]] + rest else rest
  }

  /** `a` may come before `b`: newest first, or oldest first. */
  predicate Before(a: Message, b: Message, newest: bool) {
    if newest then a.timestamp >= b.timestamp else a.timestamp <= b.timestamp
  }

  predicate SortedBy(s: seq<Message>, newest: bool) {
    forall i, j | 0 <= i < j < |s| :: Before(s[i], s[j], newest)
  }

  /** `x` placed before the first element it may precede. */
  function Insert(x: Message, s: seq<Message>, newest: bool): (r: seq<Message>)
    ensures multiset(r) == multiset(s) + multiset{x}
  {
    if s == [] || Before(x, s[0], newest) then [x] + s
    else
      assert s == [s[0]] + s[1..];
      [s[0]] + Insert(x, s[1..], newest)
  }

  lemma {:induction false} InsertSorted(x: Message, s: seq<Message>, newest: bool)
    requires SortedBy(s, newest)
    ensures SortedBy(Insert(x, s, newest), newest)
  {
    if s == [] || Before(x, s[0], newest) {
      var r := [x] + s;
      forall i, j | 0 <= i < j < |r| ensures Before(r[i], r[j], newest) {
        if i == 0 && j > 1 {
          assert Before(s[0], s[j - 1], newest);
        }
      }
    } else {
      var rest := Insert(x, s[1..], newest);
      InsertSorted(x, s[1..], newest);
      forall y | y in s[1..] ensures Before(s[0], y, newest) {
        var j :| 0 <= j < |s[1..]| && s[1..][j] == y;
        assert s[j + 1] == y;
      }
      HeadPrecedesInsert(s[0], x, s[1..], newest);
      var r := [s[0]] + rest;
      forall i, j | 0 <= i < j < |r| ensures Before(r[i], r[j], newest) {
        if i == 0 {
          assert r[j] == rest[j - 1] && r[j] in rest;
        } else {
          assert r[i] == rest[i - 1] && r[j] == rest[j - 1];
        }
      }
    }
  }

  /** An element that may precede `x` and every element of `t` may precede
      every element of `Insert(x, t)`. */
  lemma HeadPrecedesInsert(h: Message, x: Message, t: seq<Message>, newest: bool)
    requires !Before(x, h, newest)
    requires forall y | y in t :: Before(h, y, newest)
    ensures forall y | y in Insert(x, t, newest) :: Before(h, y, newest)
  {
    forall y | y in Insert(x, t, newest) ensures Before(h, y, newest) {
      assert y in multiset(Insert(x, t, newest));
      if y != x { assert y in multiset(t); }
    }
  }

  /** The comparator sort `dateB - dateA` (newest) or `dateA - dateB`. */
  function SortByDate(s: seq<Message>, newest: bool): (r: seq<Message>)
    ensures multiset(r) == multiset(s)
    ensures SortedBy(r, newest)
  {
    if s == [] then []
    else
      assert s == [s[0]] + s[1..];
      var sorted := SortByDate(s[1..], newest);
      InsertSorted(s[0], sorted, newest);
      Insert(s[0], sorted, newest)
  }

  /** What `filterAndDisplayMessages` leaves in `filteredMessages`: exactly
      the letters that pass the search and the date filter, as many times as
      they occur, ordered by time (descending for "newest"). */
  function FilterAndSort(ms: seq<Message>, c: Controls, now: int, todayStart: int): (r: seq<Message>)
    ensures multiset(r) == multiset(Filter(ms, c, now, todayStart))
    ensures multiset(r) <= multiset(ms)
    ensures forall m | m in r :: m in ms && Keep(m, c, now, todayStart)
    ensures forall m | m in ms && Keep(m, c, now, todayStart) :: m in r
    ensures forall m :: multiset(r)[m] == if Keep(m, c, now, todayStart) then multiset(ms)[m] else 0
    ensures SortedBy(r, c.sortBy == "newest")
  {
    var kept := Filter(ms, c, now, todayStart);
    var r := SortByDate(kept, c.sortBy == "newest");
    assert forall m | m in r :: m in kept by {
      forall m | m in r ensures m in kept { assert m in multiset(r); }
    }
    assert forall m | m in kept :: m in r by {
      forall m | m in kept ensures m in r { assert m in multiset(kept); }
    }
    assert forall m | m in kept :: m in ms by {
      forall m | m in kept ensures m in ms { assert m in multiset(kept); }
    }
    r
  }

  /** With no search term and no date filter nothing is dropped. */
  lemma NoFilterKeepsAll(ms: seq<Message>, c: Controls, now: int, todayStart: int)
    requires c.searchTerm == "" && c.filterBy !in {"today", "week", "month"}
    ensures multiset(FilterAndSort(ms, c, now, todayStart)) == multiset(ms)
  {
    NoFilterKeepsAllFilter(ms, c, now, todayStart);
  }

  lemma {:induction false} NoFilterKeepsAllFilter(ms: seq<Message>, c: Controls, now: int, todayStart: int)
    requires c.searchTerm == "" && c.filterBy !in {"today", "week", "month"}
    ensures Filter(ms, c, now, todayStart) == ms
  {
    if ms != [] {
      NoFilterKeepsAllFilter(ms[1..], c, now, todayStart);
      assert ms == [ms[0]] + ms[1..];
    }
  }

  // ---------- relative time ----------

  /** The `formatDate` buckets; `LocaleDate` stands for the locale-formatted
      date and time. */
  datatype Age = JustNow | MinutesAgo(minutes: int) | HoursAgo(hours: int) | LocaleDate

  /** The bucket for `diff = now - date` in milliseconds. */
  function FormatAge(diff: int): (a: Age)
    ensures a == JustNow <==> diff < MinuteMs
    ensures a.LocaleDate? <==> diff >= DayMs
    ensures a.MinutesAgo? ==> 1 <= a.minutes <= 59 && a.minutes * MinuteMs <= diff < (a.minutes + 1) * MinuteMs
    ensures a.HoursAgo? ==> 1 <= a.hours <= 23 && a.hours * HourMs <= diff < (a.hours + 1) * HourMs
    ensures a.MinutesAgo? <==> MinuteMs <= diff < HourMs
  {
    if diff < MinuteMs then JustNow
    else if diff < HourMs then MinutesAgo(diff / MinuteMs)
    else if diff < DayMs then HoursAgo(diff / HourMs)
    else LocaleDate
  }

  /** `formatDate`: the label shown for a letter `diff` milliseconds old;
      `None` stands for the locale-formatted date and time. */
  function FormatDate(diff: int): (shown: Option<string>)
    ensures diff < MinuteMs ==> shown == Some("Just now")
    ensures MinuteMs <= diff < HourMs ==> shown == Some(IntToString(diff / MinuteMs) + "m ago")
    ensures HourMs <= diff < DayMs ==> shown == Some(IntToString(diff / HourMs) + "h ago")
    ensures shown.None? <==> diff >= DayMs
  {
    match FormatAge(diff)
    case JustNow => Some("Just now")
    case MinutesAgo(n) => Some(IntToString(n) + "m ago")
    case HoursAgo(n) => Some(IntToString(n) + "h ago")
    case LocaleDate => None
  }

  /** The label grows by a unit only when its number would reach the next
      unit: 59m is followed by 1h, never 60m. */
  lemma BucketsMeet(diff: int)
    ensures diff == HourMs - 1 ==> FormatAge(diff) == MinutesAgo(59)
    ensures diff == HourMs ==> FormatAge(diff) == HoursAgo(1)
    ensures diff == DayMs - 1 ==> FormatAge(diff) == HoursAgo(23)
  {
  }

  // ---------- share excerpt ----------

  /** The letter as quoted in the share text: its first 150 characters and
      "..." when it is longer, the whole letter otherwise. */
  function Excerpt(message: string): (r: string)
    ensures |r| <= ExcerptLength + 3
    ensures |message| <= ExcerptLength ==> r == message
    ensures |message| > ExcerptLength ==>
      |r| == ExcerptLength + 3 && r[..ExcerptLength] == message[..ExcerptLength] && r[ExcerptLength..] == "..."
  {
    if |message| > ExcerptLength then message[..ExcerptLength] + "..." else message
  }


  // ---------- the page ----------

  /** The page's state: the stored auth record (as parsed), the last activity
      time, the PIN held between the steps, the panel showing, the loaded
      letters and the letters on screen. */
  class Page {
    var authItem: Option<Json>
    var lastActivity: int
    var staticPinValue: string
    var view: View
    var messages: seq<Message>
    var filteredMessages: seq<Message>

    /** A page load at `now` with whatever the storage holds. */
    constructor (stored: Option<Json>, now: int)
      ensures authItem == stored && lastActivity == now && staticPinValue == ""
      ensures view == Step1 && messages == [] && filteredMessages == []
    {
      authItem := stored;
      lastActivity := now;
      staticPinValue := "";
      view := Step1;
      messages := [];
      filteredMessages := [];
    }

    /** `checkAuth`: resume a fresh stored session, drop a stale one. On
        resumption the page goes on to load the letters (`LoadMessages`). */
    method CheckAuth(now: int) returns (outcome: AuthOutcome)
      modifies this
      ensures old(authItem).None? ==> outcome == NoSession
      ensures outcome == Threw <==>
        old(authItem).Some? && (old(authItem).value.JNull? || GetMessages.TimestampThrows(old(authItem).value))
      ensures old(authItem).Some? && !old(authItem).value.JNull? ==>
        (outcome == Resumed <==> SessionFresh(old(authItem).value, now))
      ensures outcome == Resumed ==> lastActivity == now && view == Board && authItem == old(authItem)
      ensures outcome == Removed ==> authItem == None && lastActivity == old(lastActivity) && view == old(view)
      ensures outcome in {NoSession, Threw} ==> authItem == old(authItem) && lastActivity == old(lastActivity) && view == old(view)
      ensures staticPinValue == old(staticPinValue) && messages == old(messages) && filteredMessages == old(filteredMessages)
    {
      if authItem.None? {
        return NoSession;
      }
      if authItem.value.JNull? || GetMessages.TimestampThrows(authItem.value) {
        return Threw;
      }
      if SessionFresh(authItem.value, now) {
        lastActivity := now;
        view := Board;
        outcome := Resumed;
      } else {
        authItem := None;
        outcome := Removed;
      }
    }

    /** A click or a key press anywhere on the page. */
    method RecordActivity(now: int)
      modifies this
      ensures lastActivity == now
      ensures authItem == old(authItem) && staticPinValue == old(staticPinValue) && view == old(view)
      ensures messages == old(messages) && filteredMessages == old(filteredMessages)
    {
      lastActivity := now;
    }

    /** `logout`: remove the stored record and reload; the reloaded page
        starts over at step 1 with nothing stored. */
    method Logout(now: int)
      modifies this
      ensures authItem == None && lastActivity == now && staticPinValue == ""
      ensures view == Step1 && messages == [] && filteredMessages == []
    {
      authItem := None;
      lastActivity := now;
      staticPinValue := "";
      view := Step1;
      messages := [];
      filteredMessages := [];
    }

    /** The once-a-minute inactivity check: log out when more than 30 minutes
        have passed since the last activity (exactly 30 do not). */
    method InactivityTick(now: int) returns (loggedOut: bool)
      modifies this
      ensures loggedOut <==> now - old(lastActivity) > SessionTimeoutMs
      ensures loggedOut ==> authItem == None && view == Step1 && staticPinValue == ""
                            && messages == [] && filteredMessages == [] && lastActivity == now
      ensures !loggedOut ==> authItem == old(authItem) && lastActivity == old(lastActivity) && view == old(view)
                             && staticPinValue == old(staticPinValue) && messages == old(messages)
                             && filteredMessages == old(filteredMessages)
    {
      loggedOut := now - lastActivity > SessionTimeoutMs;
      if loggedOut {
        Logout(now);
      }
    }

    /** Step 1's reply from `verify-static-pin`: hold the PIN and move to step 2
        only on `response.ok && data.valid`; otherwise show the error. */
    method Step1Replied(staticPin: string, reply: EndpointReply) returns (error: Option<string>)
      modifies this
      ensures ReplySays(reply, "valid") ==> error == None && staticPinValue == staticPin && view == Step2
      ensures !ReplySays(reply, "valid") ==>
        error == Some(ErrorText(reply, "Invalid PIN")) && staticPinValue == old(staticPinValue) && view == old(view)
      ensures authItem == old(authItem) && lastActivity == old(lastActivity)
      ensures messages == old(messages) && filteredMessages == old(filteredMessages)
    {
      if ReplySays(reply, "valid") {
        staticPinValue := staticPin;
        view := Step2;
        error := None;
      } else {
        error := Some(ErrorText(reply, "Invalid PIN"));
      }
    }

    /** "Back to step 1": forget the held PIN. */
    method Back()
      modifies this
      ensures view == Step1 && staticPinValue == ""
      ensures authItem == old(authItem) && lastActivity == old(lastActivity)
      ensures messages == old(messages) && filteredMessages == old(filteredMessages)
    {
      view := Step1;
      staticPinValue := "";
    }

    /** The body step 2 sends carries the PIN held from step 1. */
    function Step2Request(timePin: string): (body: Json)
      reads this
      ensures GetProp(body, "staticPin") == Defined(JStr(staticPinValue))
      ensures GetProp(body, "timePin") == Defined(JStr(timePin))
    {
      Step2Body(staticPinValue, timePin)
    }

    /** Step 2's reply from `verify-time-pin`: store `{authenticated: true,
        timestamp: now}` and show the board only on `response.ok &&
        data.authenticated`; otherwise show the error. */
    method Step2Replied(reply: EndpointReply, now: nat) returns (error: Option<string>)
      modifies this
      ensures ReplySays(reply, "authenticated") ==> error == None && authItem == Some(StoredSession(now)) && view == Board
      ensures !ReplySays(reply, "authenticated") ==>
        error == Some(ErrorText(reply, "Invalid code")) && authItem == old(authItem) && view == old(view)
      ensures lastActivity == old(lastActivity) && staticPinValue == old(staticPinValue)
      ensures messages == old(messages) && filteredMessages == old(filteredMessages)
    {
      if ReplySays(reply, "authenticated") {
        authItem := Some(StoredSession(now));
        view := Board;
        error := None;
      } else {
        error := Some(ErrorText(reply, "Invalid code"));
      }
    }

    /** `filterAndDisplayMessages` over the current controls. */
    method FilterAndDisplay(c: Controls, now: int, todayStart: int)
      modifies this
      ensures filteredMessages == FilterAndSort(messages, c, now, todayStart)
      ensures authItem == old(authItem) && lastActivity == old(lastActivity) && staticPinValue == old(staticPinValue)
      ensures view == old(view) && messages == old(messages)
    {
      filteredMessages := FilterAndSort(messages, c, now, todayStart);
    }

    /** `loadMessages`: on success replace the letters and redisplay; on
        failure keep everything (the page shows an error). */
    method LoadMessages(reply: LoadReply, c: Controls, now: int, todayStart: int) returns (loaded: bool)
      modifies this
      ensures loaded <==> reply.Loaded?
      ensures loaded ==> messages == reply.letters && filteredMessages == FilterAndSort(reply.letters, c, now, todayStart)
      ensures !loaded ==> messages == old(messages) && filteredMessages == old(filteredMessages)
      ensures authItem == old(authItem) && lastActivity == old(lastActivity) && staticPinValue == old(staticPinValue)
      ensures view == old(view)
    {
      if reply.LoadFailed? {
        return false;
      }
      messages := reply.letters;
      FilterAndDisplay(c, now, todayStart);
      loaded := true;
    }
  }
}
