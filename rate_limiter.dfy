/** The per-IP rate limiter shared by the login endpoints: a map from client
    IP to its attempt record, with a sliding attempt window, a lockout after
    `MaxAttempts` attempts and an exponential block duration. The clock
    (`Date.now()`) is the `now` argument, in milliseconds since the epoch. */
module RateLimiter {
  import opened Wrappers
  import Js

  const MaxAttempts: nat := 5
  const WindowMs: nat := 15 * 60 * 1000
  const BlockDurationMs: nat := 30 * 60 * 1000
  const ExponentialBase: nat := 2

  /** What the limiter remembers about one IP; `blockedUntil` is `null` in the
      source when no lock was ever set. */
  datatype Record = Record(count: int, lastAttempt: int, blockedUntil: Option<int>)

  /** The answer of `checkRateLimit`. A denial carries `retryAfter` (seconds)
      except when the IP itself is missing. */
  datatype RateCheck = Allowed(attemptsLeft: int) | Denied(retryAfter: Option<int>, error: string)

  function Pow(base: nat, exp: nat): (r: nat)
    ensures base >= 1 ==> r >= 1
  {
    if exp == 0 then 1 else base * Pow(base, exp - 1)
  }

  /** `Math.ceil(a / d)`. */
  function CeilDiv(a: int, d: nat): (q: int)
    requires d > 0
    ensures d * (q - 1) < a <= d * q
  {
    -((-a) / d)
  }

  function FreshRecord(now: nat): Record {
    Record(1, now, None)
  }

  /** `record.blockedUntil && now < record.blockedUntil`. */
  predicate Blocked(rec: Record, now: nat) {
    rec.blockedUntil.Some? && rec.blockedUntil.value != 0 && now < rec.blockedUntil.value
  }

  /** `now - record.lastAttempt > windowMs`. */
  predicate WindowExpired(rec: Record, now: nat) {
    now - rec.lastAttempt > WindowMs
  }

  function BlockedMessage(retryAfter: int): string {
    "Too many attempts. Try again in " + Js.IntToString(retryAfter) + " seconds."
  }

  function LockedMessage(retryAfter: int): string {
    "Too many failed attempts. Account temporarily locked for "
      + Js.IntToString(CeilDiv(retryAfter, 60)) + " minutes."
  }

  /** `checkRateLimit(ip)` as a function of the map before the call: the
      answer and the map after it. */
  function Check(m: map<string, Record>, ip: string, now: nat): (r: (RateCheck, map<string, Record>))
    ensures ip == "" ==> r == (Denied(None, "IP address required"), m)
    ensures ip != "" ==> ip in r.1
    ensures r.0.Allowed? ==> r.0.attemptsLeft >= 1
    ensures r.0.Denied? && ip != "" ==> r.0.retryAfter.Some? && r.0.retryAfter.value >= 1
  {
    if ip == "" then (Denied(None, "IP address required"), m)
    else if ip !in m then (Allowed(MaxAttempts - 1), m[ip := FreshRecord(now)])
    else
      var rec := m[ip];
      if Blocked(rec, now) then
        var retryAfter := CeilDiv(rec.blockedUntil.value - now, 1000);
        (Denied(Some(retryAfter), BlockedMessage(retryAfter)), m)
      else if WindowExpired(rec, now) then
        (Allowed(MaxAttempts - 1), m[ip := FreshRecord(now)])
      else
        var count := rec.count + 1;
        if count >= MaxAttempts then
          var duration := BlockDurationMs * Pow(ExponentialBase, count - MaxAttempts);
          var retryAfter := CeilDiv(duration, 1000);
          (Denied(Some(retryAfter), LockedMessage(retryAfter)),
           m[ip := Record(count, now, Some(now + duration))])
        else
          (Allowed(MaxAttempts - count), m[ip := Record(count, now, rec.blockedUntil)])
  }

  /** `resetRateLimit(ip)`: forget the IP, unless it is empty. */
  function Reset(m: map<string, Record>, ip: string): (m': map<string, Record>)
    ensures ip != "" ==> ip !in m' && forall k | k in m && k != ip :: k in m' && m'[k] == m[k]
    ensures m'.Keys <= m.Keys
    ensures ip == "" ==> m' == m
  {
    if ip != "" then m - {ip} else m
  }

  /** A record is stale once idle for more than twice the window. */
  predicate Stale(rec: Record, now: nat) {
    now - rec.lastAttempt > WindowMs * 2
  }

  /** The map left by `cleanupOldEntries`. */
  function Cleaned(m: map<string, Record>, now: nat): (r: map<string, Record>)
    ensures forall ip :: ip in r <==> ip in m && !Stale(m[ip], now)
    ensures forall ip | ip in r :: r[ip] == m[ip]
  {
    map ip | ip in m && !Stale(m[ip], now) :: m[ip]
  }

  // ---------- header-based client identity ----------

  /** `s.split(',')[0]`. */
  function FirstCommaPart(s: string): (r: string)
    ensures |r| <= |s| && r == s[..|r|]
    ensures forall i | 0 <= i < |r| :: r[i] != ','
    ensures |r| < |s| ==> s[|r|] == ','
  {
    if s == [] || s[0] == ',' then ""
    else [s[0]] + FirstCommaPart(s[1..])
  }

  function Header(headers: map<string, string>, name: string): string {
    if name in headers then headers[name] else ""
  }

  /** `getClientIP(event)`: the first non-empty of the Netlify client address,
      the first entry of `x-forwarded-for` and `client-ip`, else "unknown". */
  function GetClientIP(headers: map<string, string>): (ip: string)
    ensures ip != ""
  {
    var nf := Header(headers, "x-nf-client-connection-ip");
    var forwarded := FirstCommaPart(Header(headers, "x-forwarded-for"));
    var client := Header(headers, "client-ip");
    if nf != "" then nf
    else if forwarded != "" then forwarded
    else if client != "" then client
    else "unknown"
  }

  // ---------- the limiter object ----------

  /** The module-level `attempts` map of the source, owned by one object. */
  class Limiter {
    var attempts: map<string, Record>

    constructor ()
      ensures attempts == map[]
    {
      attempts := map[];
    }

    /** The invariant the shipped constants give every record. */
    ghost predicate Valid()
      reads this
    {
      Inv(attempts)
    }

    method CheckRateLimit(ip: string, now: nat) returns (r: RateCheck)
      modifies this
      ensures (r, attempts) == Check(old(attempts), ip, now)
      ensures old(Valid()) ==> Valid()
    {
      if Valid() { CheckPreservesInv(attempts, ip, now); }
      if ip == "" {
        return Denied(None, "IP address required");
      }
      if ip !in attempts {
        attempts := attempts[ip := FreshRecord(now)];
        return Allowed(MaxAttempts - 1);
      }
      var rec := attempts[ip];
      if rec.blockedUntil.Some? && rec.blockedUntil.value != 0 && now < rec.blockedUntil.value {
        var retryAfter := CeilDiv(rec.blockedUntil.value - now, 1000);
        return Denied(Some(retryAfter), BlockedMessage(retryAfter));
      }
      if now - rec.lastAttempt > WindowMs {
        attempts := attempts[ip := FreshRecord(now)];
        return Allowed(MaxAttempts - 1);
      }
      rec := rec.(count := rec.count + 1);
      rec := rec.(lastAttempt := now);
      if rec.count >= MaxAttempts {
        var excess := rec.count - MaxAttempts;
        var duration := BlockDurationMs * Pow(ExponentialBase, excess);
        rec := rec.(blockedUntil := Some(now + duration));
        attempts := attempts[ip := rec];
        var retryAfter := CeilDiv(duration, 1000);
        return Denied(Some(retryAfter), LockedMessage(retryAfter));
      }
      attempts := attempts[ip := rec];
      return Allowed(MaxAttempts - rec.count);
    }

    method ResetRateLimit(ip: string)
      modifies this
      ensures attempts == Reset(old(attempts), ip)
      ensures old(Valid()) ==> Valid()
    {
      if ip != "" {
        attempts := attempts - {ip};
      }
    }

    /** Walks the entries once, deleting each stale one as it is met. */
    method CleanupOldEntries(now: nat)
      modifies this
      ensures attempts == Cleaned(old(attempts), now)
      ensures old(Valid()) ==> Valid()
    {
      if Valid() { CleanupKeepsActiveLocks(attempts, now); }
      var maxAge := WindowMs * 2;
      var pending := attempts.Keys;
      while pending != {}
        invariant pending <= old(attempts).Keys
        invariant forall ip :: ip in attempts <==>
          ip in old(attempts) && (ip in pending || !Stale(old(attempts)[ip], now))
        invariant forall ip | ip in attempts :: attempts[ip] == old(attempts)[ip]
        decreases pending
      {
        var ip :| ip in pending;
        var rec := attempts[ip];
        if now - rec.lastAttempt > maxAge {
          attempts := attempts - {ip};
        }
        pending := pending - {ip};
      }
    }
  }

  // ---------- properties of one call ----------

  /** A missing IP is refused and nothing is recorded. */
  lemma CheckWithoutIp(m: map<string, Record>, now: nat)
    ensures Check(m, "", now) == (Denied(None, "IP address required"), m)
  {
  }

  /** An unknown IP gets a fresh record and `maxAttempts - 1` attempts left;
      no other entry changes. */
  lemma CheckFirstAttempt(m: map<string, Record>, ip: string, now: nat)
    requires ip != "" && ip !in m
    ensures var (r, m') := Check(m, ip, now);
      && r == Allowed(4)
      && m'.Keys == m.Keys + {ip}
      && m'[ip] == Record(1, now, None)
      && forall k | k in m :: m'[k] == m[k]
  {
  }

  /** While a lock is active the call is refused with a positive wait of
      `ceil((blockedUntil - now) / 1000)` seconds and the record is untouched. */
  lemma CheckWhileBlocked(m: map<string, Record>, ip: string, now: nat)
    requires ip != "" && ip in m && Blocked(m[ip], now)
    ensures var (r, m') := Check(m, ip, now);
      && m' == m
      && r.Denied? && r.retryAfter.Some?
      && var wait := r.retryAfter.value;
         wait >= 1 && (wait - 1) * 1000 < m[ip].blockedUntil.value - now <= wait * 1000
  {
  }

  /** After more than a window of silence the IP starts over, as if new. */
  lemma CheckAfterWindow(m: map<string, Record>, ip: string, now: nat)
    requires ip != "" && ip in m && !Blocked(m[ip], now) && WindowExpired(m[ip], now)
    ensures Check(m, ip, now) == (Allowed(4), m[ip := Record(1, now, None)])
  {
  }

  /** Inside the window the attempt is counted; the fifth one locks the IP for
      `blockDurationMs * 2^(count - 5)` milliseconds. */
  lemma CheckWithinWindow(m: map<string, Record>, ip: string, now: nat)
    requires ip != "" && ip in m && !Blocked(m[ip], now) && !WindowExpired(m[ip], now)
    ensures var (r, m') := Check(m, ip, now);
      var count := m[ip].count + 1;
      && m'.Keys == m.Keys
      && (forall k | k in m && k != ip :: m'[k] == m[k])
      && m'[ip].count == count && m'[ip].lastAttempt == now
      && (count < MaxAttempts ==>
            r == Allowed(MaxAttempts - count) && r.attemptsLeft >= 1
            && m'[ip].blockedUntil == m[ip].blockedUntil)
      && (count >= MaxAttempts ==>
            var duration := BlockDurationMs * Pow(ExponentialBase, count - MaxAttempts);
            && r.Denied? && r.retryAfter == Some(CeilDiv(duration, 1000))
            && m'[ip].blockedUntil == Some(now + duration))
  {
  }

  /** Whatever a successful check recorded, a reset of the same IP removes it:
      the map is the old one without that IP. */
  lemma CheckThenReset(m: map<string, Record>, ip: string, now: nat)
    requires ip != ""
    ensures Reset(Check(m, ip, now).1, ip) == m - {ip}
  {
    var m' := Check(m, ip, now).1;
    CheckTouchesOnlyIp(m, ip, now);
    assert Reset(m', ip) == m' - {ip};
    assert m' - {ip} == m - {ip};
  }

  /** A check changes at most the record of the IP it is given. */
  lemma CheckTouchesOnlyIp(m: map<string, Record>, ip: string, now: nat)
    ensures var m' := Check(m, ip, now).1;
      && m'.Keys == m.Keys + (if ip == "" then {} else {ip})
      && forall k | k in m && k != ip :: m'[k] == m[k]
  {
  }

  // ---------- several calls ----------

  /** The answers to successive calls from one IP at the given instants. */
  function Replay(m: map<string, Record>, ip: string, times: seq<nat>): (res: (seq<RateCheck>, map<string, Record>))
    ensures |res.0| == |times|
    decreases |times|
  {
    if times == [] then ([], m)
    else
      var (r, m1) := Check(m, ip, times[0]);
      var (rs, m2) := Replay(m1, ip, times[1..]);
      ([r] + rs, m2)
  }

  /** Five attempts from a new IP with no gap longer than the window: the first
      four are allowed with 4, 3, 2, 1 attempts left, the fifth is refused with
      a 1800-second wait, and a sixth before the block ends is refused too,
      whatever credentials it carries. */
  lemma {:induction false} FifthAttemptLocksOut(m: map<string, Record>, ip: string, times: seq<nat>)
    requires ip != "" && ip !in m && |times| == 6
    requires forall i | 0 <= i < 4 :: times[i + 1] - times[i] <= WindowMs
    requires times[4] <= times[5] < times[4] + BlockDurationMs
    ensures var rs := Replay(m, ip, times).0;
      && rs[..4] == [Allowed(4), Allowed(3), Allowed(2), Allowed(1)]
      && rs[4].Denied? && rs[4].retryAfter == Some(1800)
      && rs[5].Denied? && rs[5].retryAfter.Some? && rs[5].retryAfter.value >= 1
  {
    var t := times;
    var m1 := Check(m, ip, t[0]).1;
    var m2 := Check(m1, ip, t[1]).1;
    var m3 := Check(m2, ip, t[2]).1;
    var m4 := Check(m3, ip, t[3]).1;
    var m5 := Check(m4, ip, t[4]).1;
    CheckFirstAttempt(m, ip, t[0]);
    CountedAttempt(m1, ip, t[1], 1, t[0]);
    CountedAttempt(m2, ip, t[2], 2, t[1]);
    CountedAttempt(m3, ip, t[3], 3, t[2]);
    LockingAttempt(m4, ip, t[4], t[3]);
    CheckWhileBlocked(m5, ip, t[5]);
    ReplayUnfold(m, ip, t);
    ReplayUnfold(m1, ip, t[1..]);
    ReplayUnfold(m2, ip, t[2..]);
    ReplayUnfold(m3, ip, t[3..]);
    ReplayUnfold(m4, ip, t[4..]);
    ReplayUnfold(m5, ip, t[5..]);
    assert t[1..][1..] == t[2..] && t[2..][1..] == t[3..] && t[3..][1..] == t[4..];
    assert t[4..][1..] == t[5..] && t[5..][1..] == [];
  }

  lemma ReplayUnfold(m: map<string, Record>, ip: string, times: seq<nat>)
    requires times != []
    ensures Replay(m, ip, times).0
      == [Check(m, ip, times[0]).0] + Replay(Check(m, ip, times[0]).1, ip, times[1..]).0
  {
  }

  /** A counted attempt below the limit (steps two to four of a streak). */
  lemma CountedAttempt(m: map<string, Record>, ip: string, now: nat, count: int, last: int)
    requires ip != "" && ip in m && m[ip] == Record(count, last, None)
    requires 1 <= count < MaxAttempts - 1 && now - last <= WindowMs
    ensures Check(m, ip, now).0 == Allowed(MaxAttempts - count - 1)
    ensures Check(m, ip, now).1[ip] == Record(count + 1, now, None)
  {
  }

  /** The attempt that reaches the limit locks for one block duration. */
  lemma LockingAttempt(m: map<string, Record>, ip: string, now: nat, last: int)
    requires ip != "" && ip in m && m[ip] == Record(MaxAttempts - 1, last, None)
    requires now - last <= WindowMs
    ensures Check(m, ip, now).0.Denied? && Check(m, ip, now).0.retryAfter == Some(1800)
    ensures Check(m, ip, now).1[ip] == Record(MaxAttempts, now, Some(now + BlockDurationMs))
  {
    assert Pow(ExponentialBase, 0) == 1;
  }

  /** After `resetRateLimit(ip)` the next check of that IP starts afresh. */
  lemma ResetThenCheck(m: map<string, Record>, ip: string, now: nat)
    requires ip != ""
    ensures Check(Reset(m, ip), ip, now) == (Allowed(4), Reset(m, ip)[ip := Record(1, now, None)])
  {
  }

  // ---------- the invariant of the shipped constants ----------

  /** Because a block (30 min) outlasts the window (15 min), a locked record is
      always reset by the first call after its block ends: the count stays in
      [1, 5] and a lock is exactly one block duration after the last attempt. */
  ghost predicate WellFormed(rec: Record) {
    && 1 <= rec.count <= MaxAttempts
    && rec.lastAttempt >= 0
    && (rec.count < MaxAttempts ==> rec.blockedUntil.None?)
    && (rec.count == MaxAttempts ==> rec.blockedUntil == Some(rec.lastAttempt + BlockDurationMs))
  }

  ghost predicate Inv(m: map<string, Record>) {
    forall ip | ip in m :: WellFormed(m[ip])
  }

  lemma CheckPreservesInv(m: map<string, Record>, ip: string, now: nat)
    requires Inv(m)
    ensures Inv(Check(m, ip, now).1)
  {
    var m' := Check(m, ip, now).1;
    if ip != "" && ip in m && !Blocked(m[ip], now) && !WindowExpired(m[ip], now) {
      BackoffMultiplierIsOne(m, ip, now);
      var count := m[ip].count + 1;
      if count >= MaxAttempts {
        assert Pow(ExponentialBase, count - MaxAttempts) == 1;
        assert m'[ip] == Record(MaxAttempts, now, Some(now + BlockDurationMs));
      } else {
        assert m'[ip] == Record(count, now, None);
      }
    }
    forall k | k in m' ensures WellFormed(m'[k]) {
      if k != ip { assert m'[k] == m[k]; }
    }
  }

  /** A record that has used up its attempts is either still blocked or past
      its window. */
  lemma ExpiredLockResets(rec: Record, now: nat)
    requires WellFormed(rec) && rec.count == MaxAttempts && !Blocked(rec, now)
    ensures WindowExpired(rec, now)
  {
  }

  /** Under the invariant the backoff exponent is always 0: every lock the
      limiter sets lasts exactly `blockDurationMs`, i.e. 1800 seconds. */
  lemma BackoffMultiplierIsOne(m: map<string, Record>, ip: string, now: nat)
    requires Inv(m) && ip != "" && ip in m && !Blocked(m[ip], now) && !WindowExpired(m[ip], now)
    ensures m[ip].count + 1 <= MaxAttempts
    ensures var (r, m') := Check(m, ip, now);
      r.Denied? ==> r.retryAfter == Some(1800) && m'[ip].blockedUntil == Some(now + BlockDurationMs)
  {
    if m[ip].count == MaxAttempts { ExpiredLockResets(m[ip], now); }
    if m[ip].count + 1 == MaxAttempts {
      LockingAttempt(m, ip, now, m[ip].lastAttempt);
    }
  }

  lemma ResetPreservesInv(m: map<string, Record>, ip: string)
    requires Inv(m)
    ensures Inv(Reset(m, ip))
  {
  }

  /** Clean-up removes exactly the stale entries and never an active lock. */
  lemma CleanupKeepsActiveLocks(m: map<string, Record>, now: nat)
    requires Inv(m)
    ensures Inv(Cleaned(m, now))
    ensures forall ip | ip in m :: ip in Cleaned(m, now) <==> !Stale(m[ip], now)
    ensures forall ip | ip in m && Blocked(m[ip], now) :: ip in Cleaned(m, now)
  {
  }

  /** The precedence of the identity sources. */
  lemma ClientIPPrecedence(headers: map<string, string>)
    ensures var ip := GetClientIP(headers);
      var nf := Header(headers, "x-nf-client-connection-ip");
      var forwarded := FirstCommaPart(Header(headers, "x-forwarded-for"));
      var client := Header(headers, "client-ip");
      && (nf != "" ==> ip == nf)
      && (nf == "" && forwarded != "" ==> ip == forwarded && ',' !in ip)
      && (nf == "" && forwarded == "" && client != "" ==> ip == client)
      && (nf == "" && forwarded == "" && client == "" ==> ip == "unknown")
  {
  }
}
