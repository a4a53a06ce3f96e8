/**
 * The request middleware of web/src/middleware.ts: a fixed-window, per-client
 * rate limiter over an in-memory map, applied to API and chat paths.  The clock
 * (`Date.now()`) is a parameter; request headers are given as optional strings.
 */
module Middleware {
  import opened Wrappers
  import opened Strings

  const WindowMs: int := 60000
  const MaxReqs: nat := 30

  /** A client's record: requests counted in the current window, and when the window ends. */
  datatype Hit = Hit(count: nat, reset: int)

  /** The verdict of one `rateLimit` call and the map it leaves behind. */
  datatype Decision = Decision(allowed: bool, hits: map<string, Hit>)

  /** One `rateLimit(ip)` call at time `now` on the map `hits`. */
  function Limit(hits: map<string, Hit>, ip: string, now: int): Decision {
    if ip !in hits || now > hits[ip].reset then Decision(true, hits[ip := Hit(1, now + WindowMs)])
    else if hits[ip].count >= MaxReqs then Decision(false, hits)
    else Decision(true, hits[ip := Hit(hits[ip].count + 1, hits[ip].reset)])
  }

  /** Every stored count lies in 1..MaxReqs. */
  ghost predicate CountsInRange(hits: map<string, Hit>) {
    forall k | k in hits :: 1 <= hits[k].count <= MaxReqs
  }

  /** The limiter keeps every stored count within 1..MaxReqs. */
  lemma LimitKeepsCountsInRange(hits: map<string, Hit>, ip: string, now: int)
    requires CountsInRange(hits)
    ensures CountsInRange(Limit(hits, ip, now).hits)
  {
  }

  /** Only the entry for `ip` is created or changed; every other entry is untouched. */
  lemma LimitTouchesOnlyItsKey(hits: map<string, Hit>, ip: string, now: int)
    ensures Limit(hits, ip, now).hits.Keys == hits.Keys + {ip}
    ensures forall k | k in hits && k != ip :: Limit(hits, ip, now).hits[k] == hits[k]
  {
  }

  /** A request: the client key it is counted under, and the time it arrives. */
  datatype Call = Call(ip: string, now: int)

  /** The verdicts of a sequence of calls, in order, and the map they leave behind. */
  datatype Trace = Trace(verdicts: seq<bool>, final: map<string, Hit>)

  function Replay(hits: map<string, Hit>, calls: seq<Call>): Trace
    decreases |calls|
  {
    if calls == [] then Trace([], hits)
    else
      var d := Limit(hits, calls[0].ip, calls[0].now);
      var rest := Replay(d.hits, calls[1..]);
      Trace([d.allowed] + rest.verdicts, rest.final)
  }

  /** How many of `calls` are for `ip` and were allowed. */
  function AllowedFor(ip: string, calls: seq<Call>, verdicts: seq<bool>): nat
    requires |verdicts| == |calls|
  {
    if calls == [] then 0
    else (if calls[0].ip == ip && verdicts[0] then 1 else 0) + AllowedFor(ip, calls[1..], verdicts[1..])
  }

  lemma {:induction false} ReplayLength(hits: map<string, Hit>, calls: seq<Call>)
    ensures |Replay(hits, calls).verdicts| == |calls|
    decreases |calls|
  {
    if calls != [] {
      ReplayLength(Limit(hits, calls[0].ip, calls[0].now).hits, calls[1..]);
    }
  }

  /**
   * Within one window at most MaxReqs calls for a client are allowed: if the client's
   * window is open (count `c`, end `r`) and every later call for it arrives at or
   * before `r` (the comparison is strict, so `now == r` is still inside), at most
   * `MaxReqs - c` of them are allowed, whatever calls for other clients are mixed in,
   * and the window's end does not move.
   */
  lemma {:induction false} AtMostMaxPerWindow(hits: map<string, Hit>, ip: string, calls: seq<Call>)
    requires ip in hits && hits[ip].count <= MaxReqs
    requires forall j | 0 <= j < |calls| && calls[j].ip == ip :: calls[j].now <= hits[ip].reset
    ensures |Replay(hits, calls).verdicts| == |calls|
    ensures AllowedFor(ip, calls, Replay(hits, calls).verdicts) <= MaxReqs - hits[ip].count
    ensures ip in Replay(hits, calls).final && Replay(hits, calls).final[ip].reset == hits[ip].reset
    ensures AllowedFor(ip, calls, Replay(hits, calls).verdicts) == Replay(hits, calls).final[ip].count - hits[ip].count
    decreases |calls|
  {
    ReplayLength(hits, calls);
    if calls != [] {
      var d := Limit(hits, calls[0].ip, calls[0].now);
      assert ip in d.hits && d.hits[ip].reset == hits[ip].reset && d.hits[ip].count <= MaxReqs;
      assert d.hits[ip].count == hits[ip].count + (if calls[0].ip == ip && d.allowed then 1 else 0);
      forall j | 0 <= j < |calls[1..]| && calls[1..][j].ip == ip
        ensures calls[1..][j].now <= d.hits[ip].reset
      {
        assert calls[1..][j] == calls[j + 1];
      }
      AtMostMaxPerWindow(d.hits, ip, calls[1..]);
      var r := Replay(hits, calls);
      assert r.verdicts[1..] == Replay(d.hits, calls[1..]).verdicts;
    }
  }

  /**
   * The call that opens a window at `t0` is allowed, and of it and every later call
   * for the same client up to `t0 + WindowMs`, at most MaxReqs are allowed.
   */
  lemma WindowAdmitsAtMostMax(hits: map<string, Hit>, ip: string, t0: int, later: seq<Call>)
    requires ip !in hits || t0 > hits[ip].reset
    requires forall j | 0 <= j < |later| && later[j].ip == ip :: later[j].now <= t0 + WindowMs
    ensures |Replay(hits, [Call(ip, t0)] + later).verdicts| == 1 + |later|
    ensures Replay(hits, [Call(ip, t0)] + later).verdicts[0]
    ensures AllowedFor(ip, [Call(ip, t0)] + later, Replay(hits, [Call(ip, t0)] + later).verdicts) <= MaxReqs
  {
    var calls := [Call(ip, t0)] + later;
    var d := Limit(hits, ip, t0);
    assert calls[1..] == later;
    AtMostMaxPerWindow(d.hits, ip, later);
    ReplayLength(hits, calls);
  }

  /** `getIp`: `x-forwarded-for`, else `x-real-ip`, else `"unknown"`; an empty header counts as absent. */
  function GetIp(forwardedFor: Option<string>, realIp: Option<string>): (key: string)
    ensures key != ""
    ensures forwardedFor.Some? && forwardedFor.value != "" ==> key == forwardedFor.value
    ensures (forwardedFor.None? || forwardedFor.value == "") && realIp.Some? && realIp.value != "" ==> key == realIp.value
    ensures (forwardedFor.None? || forwardedFor.value == "") && (realIp.None? || realIp.value == "") ==> key == "unknown"
  {
    if forwardedFor.Some? && forwardedFor.value != "" then forwardedFor.value
    else if realIp.Some? && realIp.value != "" then realIp.value
    else "unknown"
  }

  /** Only paths under `/api/` or starting with `/chat` are rate limited. */
  predicate IsLimitedPath(path: string) {
    StartsWith(path, "/api/") || StartsWith(path, "/chat")
  }

  /** The security headers added to every response that is passed on. */
  const SecurityHeaders: seq<(string, string)> := [
    ("X-Frame-Options", "DENY"),
    ("X-Content-Type-Options", "nosniff"),
    ("Referrer-Policy", "strict-origin-when-cross-origin"),
    ("Permissions-Policy", "geolocation=(), microphone=(), camera=()")
  ]

  /** What the middleware does with a request: refuse it with 429, or pass it on with headers. */
  datatype Response = RateLimited(status: nat, error: string) | Next(headers: seq<(string, string)>)

  /** The limiter state: the module-level `hits` map. */
  class RateLimiter {
    var hits: map<string, Hit>

    ghost predicate Valid()
      reads this
    {
      CountsInRange(hits)
    }

    constructor ()
      ensures Valid() && hits == map[]
    {
      hits := map[];
    }

    /** `rateLimit(ip)` with the current time supplied by the caller. */
    method RateLimit(ip: string, now: int) returns (allowed: bool)
      requires Valid()
      modifies this
      ensures Valid()
      ensures Decision(allowed, hits) == Limit(old(hits), ip, now)
      ensures (ip !in old(hits) || now > old(hits)[ip].reset) ==> allowed && hits[ip] == Hit(1, now + WindowMs)
      ensures ip in old(hits) && now <= old(hits)[ip].reset && old(hits)[ip].count >= MaxReqs ==> !allowed && hits == old(hits)
      ensures ip in old(hits) && now <= old(hits)[ip].reset && old(hits)[ip].count < MaxReqs ==>
        allowed && hits[ip] == Hit(old(hits)[ip].count + 1, old(hits)[ip].reset)
      ensures forall k | k in old(hits) && k != ip :: k in hits && hits[k] == old(hits)[k]
    {
      if ip !in hits || now > hits[ip].reset {
        hits := hits[ip := Hit(1, now + WindowMs)];
        return true;
      }
      var rec := hits[ip];
      if rec.count >= MaxReqs {
        return false;
      }
      hits := hits[ip := rec.(count := rec.count + 1)];
      return true;
    }

    /** `middleware(req)`: limit API and chat paths by client key; refuse with 429 when over the limit. */
    method Handle(path: string, forwardedFor: Option<string>, realIp: Option<string>, now: int) returns (resp: Response)
      requires Valid()
      modifies this
      ensures Valid()
      ensures !IsLimitedPath(path) ==> hits == old(hits) && resp == Next(SecurityHeaders)
      ensures IsLimitedPath(path) ==>
        var d := Limit(old(hits), GetIp(forwardedFor, realIp), now);
        hits == d.hits && (resp == if d.allowed then Next(SecurityHeaders) else RateLimited(429, "RATE_LIMITED"))
    {
      if IsLimitedPath(path) {
        var ip := GetIp(forwardedFor, realIp);
        var ok := RateLimit(ip, now);
        if !ok {
          return RateLimited(429, "RATE_LIMITED");
        }
      }
      resp := Next(SecurityHeaders);
    }
  }
}
