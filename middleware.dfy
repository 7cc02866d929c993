/**
  The two custom middlewares: `SecurityMiddleware`, a per-address sliding
  window rate limiter that also stamps seven security headers on every
  response it lets through, and `AdminIPRestrictionMiddleware`, an
  address allow-list for the admin areas. Clock readings (`time.time()`)
  are a `real` parameter; the downstream handler is a function parameter.
*/
module Middleware {
  import opened Support
  import opened Http

  /** At most this many requests per address ... */
  const RateLimit: nat := 100
  /** ... in a window of this many seconds. */
  const RatePeriod: real := 60.0

  const TooManyRequests := "Too many requests. Please try again later."
  const AccessDenied := "Access denied. Your IP is not allowed."

  /** A response on its way out: the view's outcome and the headers set on it. */
  datatype HttpResponse = HttpResponse(status: Response, headers: map<string, string>)

  /** `f'rate_limit_{ip}'`; a missing address formats as `None`. */
  function CacheKey(ip: Option<string>): (key: string)
    ensures |key| >= 11 && key[..11] == "rate_limit_"
  {
    "rate_limit_" + match ip { case Some(a) => a case None => "None" }
  }

  /** Two addresses never share a history. */
  lemma CacheKeyInjective(a: string, b: string)
    requires CacheKey(Some(a)) == CacheKey(Some(b))
    ensures a == b
  {
    assert a == CacheKey(Some(a))[11..];
    assert b == CacheKey(Some(b))[11..];
  }

  /** The timestamps still inside the window that ends at `now`, in stored order. */
  function Recent(history: seq<real>, now: real): (r: seq<real>)
    ensures |r| <= |history|
    ensures forall t :: t in r <==> t in history && t > now - RatePeriod
  {
    Filter(history, t => t > now - RatePeriod)
  }

  /** The history stored back: the recent timestamps with `now` appended. */
  function Recorded(history: seq<real>, now: real): (r: seq<real>)
    ensures |r| >= 1 && r[|r| - 1] == now
    ensures r[..|r| - 1] == Recent(history, now)
  {
    Recent(history, now) + [now]
  }

  /** The request is refused when the stored history exceeds the limit. */
  predicate Limited(history: seq<real>, now: real)
  {
    |Recorded(history, now)| > RateLimit
  }

  /** Refused exactly when at least 100 earlier requests are still in the window. */
  lemma LimitedIff(history: seq<real>, now: real)
    ensures Limited(history, now) <==> |Recent(history, now)| >= RateLimit
  {
  }

  /**
    Once every stored timestamp has left the window the history acts as
    empty; this is also all the cache expiry (60 seconds after the last
    write) could do to it.
  */
  lemma ExpiredHistoryIgnored(history: seq<real>, now: real)
    requires forall i :: 0 <= i < |history| ==> history[i] <= now - RatePeriod
    ensures Recorded(history, now) == Recorded([], now)
  {
    FilterNone(history, t => t > now - RatePeriod);
  }

  /** The history after a run of requests at the given times. */
  function Replay(history: seq<real>, times: seq<real>): (r: seq<real>)
    decreases |times|
  {
    if times == [] then history
    else Recorded(Replay(history, times[..|times| - 1]), times[|times| - 1])
  }

  /** No request of `times` is more than a window older than a later one. */
  predicate Burst(times: seq<real>)
  {
    forall i, j :: 0 <= i < j < |times| ==> times[i] > times[j] - RatePeriod
  }

  /** In a burst starting from an empty history every request is remembered. */
  lemma {:induction false} BurstRemembered(times: seq<real>)
    requires Burst(times)
    ensures Replay([], times) == times
    decreases |times|
  {
    if times != [] {
      var init := times[..|times| - 1];
      assert Burst(init);
      BurstRemembered(init);
      FilterAll(init, t => t > times[|times| - 1] - RatePeriod);
    }
  }

  /**
    In a burst from an empty history, request number `k + 1` is refused
    exactly when `k >= 100`: the 101st request in a minute is the first
    one turned away.
  */
  lemma BurstRefused(times: seq<real>, k: nat)
    requires Burst(times) && k < |times|
    ensures Limited(Replay([], times[..k]), times[k]) <==> k >= RateLimit
  {
    assert Burst(times[..k + 1]);
    assert Burst(times[..k]);
    BurstRemembered(times[..k]);
    FilterAll(times[..k], t => t > times[k] - RatePeriod);
  }

  /** The cache the limiter reads and writes: a history of timestamps per key. */
  class RateLimitCache {
    var histories: map<string, seq<real>>

    constructor()
      ensures histories == map[]
    {
      histories := map[];
    }

    /** `cache.get(key, [])`. */
    function Stored(key: string): seq<real>
      reads this
    {
      if key in histories then histories[key] else []
    }

    /**
      `is_rate_limited`: filters the address's history to the window,
      appends `now`, stores the list back, refused or not, and answers
      whether it is over the limit.
    */
    method IsRateLimited(ip: Option<string>, now: real) returns (limited: bool)
      modifies this
      ensures histories == old(histories)[CacheKey(ip) := Recorded(old(Stored(CacheKey(ip))), now)]
      ensures limited == Limited(old(Stored(CacheKey(ip))), now)
    {
      var key := CacheKey(ip);
      var requests := Stored(key);
      requests := Recent(requests, now);
      requests := requests + [now];
      histories := histories[key := requests];
      limited := |requests| > RateLimit;
    }
  }

  /** Static and media files bypass the limiter. */
  predicate Exempt(path: string)
  {
    StartsWith(path, "/static/") || StartsWith(path, "/media/")
  }

  /** The seven headers set on every response that passes. */
  function SecurityHeaders(): map<string, string>
  {
    map[
      "X-Content-Type-Options" := "nosniff",
      "X-Frame-Options" := "DENY",
      "X-XSS-Protection" := "1; mode=block",
      "Strict-Transport-Security" := "max-age=31536000; includeSubDomains",
      "Content-Security-Policy" := CspPolicy(),
      "Referrer-Policy" := "strict-origin-when-cross-origin",
      "Permissions-Policy" := "geolocation=(), microphone=(), camera=()"]
  }

  /** The directives of the Content-Security-Policy header, in order. */
  const CspDirectives: seq<string> := [
    "default-src 'self'",
    "script-src 'self' 'unsafe-inline' 'unsafe-eval' https://kit.fontawesome.com https://buttons.github.io",
    "style-src 'self' 'unsafe-inline' https://fonts.googleapis.com",
    "font-src 'self' https://fonts.gstatic.com",
    "img-src 'self' data: https:",
    "connect-src 'self'",
    "frame-src 'self'",
    "object-src 'none'",
    "base-uri 'self'",
    "form-action 'self'"]

  /** `sep.join(parts)`. */
  function Join(parts: seq<string>, sep: string): (s: string)
    ensures parts == [] ==> s == []
    ensures |parts| == 1 ==> s == parts[0]
  {
    if parts == [] then []
    else if |parts| == 1 then parts[0]
    else parts[0] + sep + Join(parts[1..], sep)
  }

  /** Joining one part more appends the separator and that part. */
  lemma {:induction false} JoinSnoc(parts: seq<string>, p: string, sep: string)
    requires parts != []
    ensures Join(parts + [p], sep) == Join(parts, sep) + sep + p
    decreases |parts|
  {
    if |parts| > 1 {
      assert (parts + [p])[1..] == parts[1..] + [p];
      JoinSnoc(parts[1..], p, sep);
    }
  }

  /** A join begins with its first part. */
  lemma JoinStartsWithFirst(parts: seq<string>, sep: string)
    requires parts != []
    ensures |parts[0]| <= |Join(parts, sep)| && Join(parts, sep)[..|parts[0]|] == parts[0]
  {
    if |parts| > 1 {
      var rest := sep + Join(parts[1..], sep);
      assert Join(parts, sep) == parts[0] + rest;
      assert (parts[0] + rest)[..|parts[0]|] == parts[0];
    }
  }

  /** `get_csp_policy`: the directives joined with `"; "`. */
  function CspPolicy(): string
  {
    Join(CspDirectives, "; ")
  }

  /** The policy opens with the `default-src 'self'` fallback directive. */
  lemma CspPolicyStartsWithDefault()
    ensures |CspPolicy()| >= 18 && CspPolicy()[..18] == "default-src 'self'"
  {
    JoinStartsWithFirst(CspDirectives, "; ");
  }

  /**
    The headers are written over whatever the downstream response set;
    every other header passes through unchanged, and so does the outcome.
  */
  function WithSecurityHeaders(r: HttpResponse): (s: HttpResponse)
    ensures s.status == r.status
    ensures forall h :: h in SecurityHeaders() ==> h in s.headers && s.headers[h] == SecurityHeaders()[h]
    ensures forall h :: h !in SecurityHeaders() ==>
      (h in s.headers <==> h in r.headers) && (h in r.headers ==> s.headers[h] == r.headers[h])
  {
    r.(headers := r.headers + SecurityHeaders())
  }

  /**
    `SecurityMiddleware.__call__`. `called` says whether the downstream
    handler ran: a refused request gets the bare 403 without it.
  */
  method SecurityCall(cache: RateLimitCache, req: Request, now: real, getResponse: Request -> HttpResponse)
    returns (resp: HttpResponse, called: bool)
    modifies cache
    ensures Exempt(req.path) ==>
      cache.histories == old(cache.histories) && called && resp == WithSecurityHeaders(getResponse(req))
    ensures !Exempt(req.path) ==>
      var key := CacheKey(ClientIp(req.meta));
      cache.histories == old(cache.histories)[key := Recorded(old(cache.Stored(key)), now)]
    ensures !Exempt(req.path) && Limited(old(cache.Stored(CacheKey(ClientIp(req.meta)))), now) ==>
      !called && resp == HttpResponse(Forbidden(TooManyRequests), map[])
    ensures !Exempt(req.path) && !Limited(old(cache.Stored(CacheKey(ClientIp(req.meta)))), now) ==>
      called && resp == WithSecurityHeaders(getResponse(req))
  {
    if !Exempt(req.path) {
      var ip := ClientIp(req.meta);
      var limited := cache.IsRateLimited(ip, now);
      if limited {
        return HttpResponse(Forbidden(TooManyRequests), map[]), false;
      }
    }
    resp := WithSecurityHeaders(getResponse(req));
    called := true;
  }

  /** The admin areas the allow-list guards. */
  predicate AdminPath(path: string)
  {
    StartsWith(path, "/admin/") || StartsWith(path, "/admindashboard/")
  }

  /**
    The allow-list refuses an admin-area request when the list is not
    empty and the client address is not on it; a missing address is never
    on it.
  */
  predicate Blocked(req: Request, allowed: seq<string>)
  {
    && AdminPath(req.path)
    && |allowed| > 0
    && (ClientIp(req.meta).None? || ClientIp(req.meta).value !in allowed)
  }

  /** `AdminIPRestrictionMiddleware.__call__`. */
  function AdminRestriction(req: Request, allowed: seq<string>, getResponse: Request -> HttpResponse): (r: HttpResponse)
    ensures Blocked(req, allowed) ==> r == HttpResponse(Forbidden(AccessDenied), map[])
    ensures !Blocked(req, allowed) ==> r == getResponse(req)
  {
    if AdminPath(req.path) && |allowed| > 0 && (ClientIp(req.meta).None? || ClientIp(req.meta).value !in allowed)
    then HttpResponse(Forbidden(AccessDenied), map[])
    else getResponse(req)
  }

  /**
    The allow-list only ever refuses admin-area requests from a listed-out
    address: an empty list, any other path, or a listed address passes.
  */
  lemma AdminPasses(req: Request, allowed: seq<string>, getResponse: Request -> HttpResponse)
    requires || allowed == []
             || !AdminPath(req.path)
             || (ClientIp(req.meta).Some? && ClientIp(req.meta).value in allowed)
    ensures AdminRestriction(req, allowed, getResponse) == getResponse(req)
  {
  }
}
