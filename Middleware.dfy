/** WebServer6's built-in middleware: `APIAuthenticationModule`, `CompressionModule` and
    `RateLimitingModule`, each configured from its settings and then run on every request. */
module Middleware {
  import opened Wrappers
  import opened Integers
  import opened Text
  import opened Settings
  import opened Responses

  /** What `ProcessRequestAsync` did: `true`, `false`, or an exception. */
  datatype Verdict = Continue | Stop | Throw(error: Exception)

  const StatusForbidden := 403

  // ---------------------------------------------------------------- API key

  /** `ApiKey` (possibly `null`) and `PathCollection` (`null` when no `Path` setting was given;
      its entries may be `null`). */
  datatype AuthenticationOptions = AuthenticationOptions(apiKey: Option<string>, pathCollection: Option<seq<Option<string>>>)

  const UnconfiguredAuthentication := AuthenticationOptions(None, None)

  /** `APIAuthenticationModule.Configure`: `ApiKey` is required; `Path`, when present, must be an
      array of strings and `null`s. */
  function ConfigureAuthentication(before: AuthenticationOptions, settings: SettingsMap): (r: (AuthenticationOptions, Outcome<Exception>))
    ensures settings.None? ==> r == (before, Fail(NullReferenceException))
    ensures settings.Some? && "ApiKey" !in settings.value ==> r == (before, Fail(ArgumentException))
    ensures r.1.Pass? <==>
      && settings.Some? && "ApiKey" in settings.value
      && GetString(settings.value["ApiKey"]).Success?
      && ("Path" in settings.value ==> GetStrings(settings.value["Path"]).Success?)
    ensures r.1.Pass? ==>
      && r.0.apiKey == GetString(settings.value["ApiKey"]).value
      && r.0.pathCollection ==
           if "Path" in settings.value then Some(GetStrings(settings.value["Path"]).value) else before.pathCollection
  {
    match TryGetValue(settings, "ApiKey")
    case Failure(e) => (before, Fail(e))
    case Success(None) => (before, Fail(ArgumentException))
    case Success(Some(apiKeyElement)) =>
      match GetString(apiKeyElement)
      case Failure(e) => (before, Fail(e))
      case Success(apiKey) =>
        var withKey := before.(apiKey := apiKey);
        if "Path" !in settings.value then (withKey, Pass)
        else
          match GetStrings(settings.value["Path"])
          case Failure(e) => (withKey, Fail(e))
          case Success(paths) => (withKey.(pathCollection := Some(paths)), Pass)
  }

  /** `PathCollection.Any(path => absolutePath.StartsWith(path))`: the entries are tried in order
      and the first that is a prefix ends the search; a `null` entry reached first throws. */
  function AnyPrefix(absolutePath: string, paths: seq<Option<string>>): (r: Result<bool, Exception>)
    ensures r == Success(false) <==> forall i :: 0 <= i < |paths| ==> paths[i].Some? && !StartsWith(absolutePath, paths[i].value)
    ensures r == Success(true) ==> exists i :: 0 <= i < |paths| && paths[i].Some? && StartsWith(absolutePath, paths[i].value)
    ensures r.Failure? ==> r.error == ArgumentNullException && exists i :: 0 <= i < |paths| && paths[i].None?
  {
    if paths == [] then Success(false)
    else match paths[0]
      case None => Failure(ArgumentNullException)
      case Some(path) =>
        if StartsWith(absolutePath, path) then Success(true)
        else
          var rest := AnyPrefix(absolutePath, paths[1..]);
          assert forall i :: 1 <= i < |paths| ==> paths[i] == paths[1..][i - 1];
          rest
  }

  /** `APIAuthenticationModule.ProcessRequestAsync` on the request path and its `X-API-Key`
      header: paths outside a configured path list pass; on the others a header different from
      the key (`null` counting as a value) gets 401 and the response is closed. */
  function Authenticate(options: AuthenticationOptions, response: Response, absolutePath: string, apiKeyHeader: Option<string>): (r: (Verdict, Response))
    requires !response.closed
  {
    var guarded :=
      if options.pathCollection.None? then Success(true) else AnyPrefix(absolutePath, options.pathCollection.value);
    match guarded
    case Failure(e) => (Throw(e), response)
    case Success(false) => (Continue, response)
    case Success(true) =>
      if apiKeyHeader != options.apiKey then (Stop, response.(statusCode := StatusUnauthorized, closed := true))
      else (Continue, response)
  }

  /** Whether the path list puts `absolutePath` under the key: always, without a list. */
  ghost predicate Guarded(options: AuthenticationOptions, absolutePath: string)
  {
    options.pathCollection.None? ||
    exists i :: 0 <= i < |options.pathCollection.value| && options.pathCollection.value[i].Some? &&
      StartsWith(absolutePath, options.pathCollection.value[i].value)
  }

  /** With a path list free of `null`s, a request is stopped exactly when its path is guarded and
      its header differs from the key; a stopped request gets 401 and a closed response, a passed
      one an untouched response. */
  lemma AuthenticationGuard(options: AuthenticationOptions, response: Response, absolutePath: string, apiKeyHeader: Option<string>)
    requires !response.closed
    requires options.pathCollection.Some? ==> forall i :: 0 <= i < |options.pathCollection.value| ==> options.pathCollection.value[i].Some?
    ensures var (verdict, after) := Authenticate(options, response, absolutePath, apiKeyHeader);
      && (verdict == Stop <==> Guarded(options, absolutePath) && apiKeyHeader != options.apiKey)
      && (verdict == Continue <==> !(Guarded(options, absolutePath) && apiKeyHeader != options.apiKey))
      && (verdict == Stop ==> after == response.(statusCode := StatusUnauthorized, closed := true))
      && (verdict == Continue ==> after == response)
  {
    if options.pathCollection.Some? {
      var paths := options.pathCollection.value;
      var guarded := AnyPrefix(absolutePath, paths);
      assert guarded.Success?;
      if guarded == Success(false) {
        assert !Guarded(options, absolutePath);
      }
    }
  }

  /** A key configured as JSON `null` lets through every request that carries no `X-API-Key`. */
  lemma NullKeyAdmitsMissingHeader(options: AuthenticationOptions, response: Response, absolutePath: string)
    requires !response.closed && options.apiKey.None?
    requires options.pathCollection.Some? ==> forall i :: 0 <= i < |options.pathCollection.value| ==> options.pathCollection.value[i].Some?
    ensures Authenticate(options, response, absolutePath, None).0 == Continue
  {
    AuthenticationGuard(options, response, absolutePath, None);
  }

  class APIAuthenticationModule {
    var apiKey: Option<string>
    var pathCollection: Option<seq<Option<string>>>

    constructor()
      ensures Options() == UnconfiguredAuthentication
    {
      apiKey := None;
      pathCollection := None;
    }

    function Options(): AuthenticationOptions
      reads this
    {
      AuthenticationOptions(apiKey, pathCollection)
    }

    method Configure(settings: SettingsMap) returns (outcome: Outcome<Exception>)
      modifies this
      ensures (Options(), outcome) == ConfigureAuthentication(old(Options()), settings)
    {
      var apiKeyElement := TryGetValue(settings, "ApiKey");
      if apiKeyElement.Failure? {
        return Fail(apiKeyElement.error);
      }
      if apiKeyElement.value.None? {
        return Fail(ArgumentException);
      }
      var key := GetString(apiKeyElement.value.value);
      if key.Failure? {
        return Fail(key.error);
      }
      apiKey := key.value;
      outcome := Pass;
      var pathElement := TryGetValue(settings, "Path");
      if pathElement.Success? && pathElement.value.Some? {
        var paths := GetStrings(pathElement.value.value);
        if paths.Failure? {
          return Fail(paths.error);
        }
        pathCollection := Some(paths.value);
      }
    }

    method ProcessRequest(response: Response, absolutePath: string, apiKeyHeader: Option<string>) returns (verdict: Verdict, after: Response)
      requires !response.closed
      ensures (verdict, after) == Authenticate(Options(), response, absolutePath, apiKeyHeader)
    {
      var guarded := Success(true);
      if pathCollection.Some? {
        guarded := AnyPrefix(absolutePath, pathCollection.value);
      }
      if guarded.Failure? {
        return Throw(guarded.error), response;
      }
      if !guarded.value {
        return Continue, response;
      }
      if apiKeyHeader != apiKey {
        return Stop, response.(statusCode := StatusUnauthorized, closed := true);
      }
      return Continue, response;
    }
  }

  // ---------------------------------------------------------------- compression

  const DefaultMinSizeToCompress := 1024

  datatype ContentEncoding = Gzip | Deflate

  function EncodingName(encoding: ContentEncoding): string
  {
    match encoding
    case Gzip => "gzip"
    case Deflate => "deflate"
  }

  /** `CompressionModule.Configure`: `MinSizeToCompress`, or 1024 without that setting. */
  function ConfigureCompression(before: int, settings: SettingsMap): (r: (int, Outcome<Exception>))
    ensures r.1.Pass? <==> settings.Some? && ("MinSizeToCompress" in settings.value ==> GetInt32(settings.value["MinSizeToCompress"]).Success?)
    ensures r.1.Pass? ==> r.0 == if "MinSizeToCompress" in settings.value then settings.value["MinSizeToCompress"].value else DefaultMinSizeToCompress
    ensures r.1.Fail? ==> r.0 == before
  {
    match TryGetValue(settings, "MinSizeToCompress")
    case Failure(e) => (before, Fail(e))
    case Success(None) => (DefaultMinSizeToCompress, Pass)
    case Success(Some(element)) =>
      match GetInt32(element)
      case Failure(e) => (before, Fail(e))
      case Success(minSize) => (minSize, Pass)
  }

  /** The encoding `ProcessRequestAsync` settles on: only with an `Accept-Encoding` header and a
      `ContentLength64` of at least `minSizeToCompress`; gzip when the header mentions it, else
      deflate when the header mentions that. */
  function ChooseEncoding(acceptEncoding: Option<string>, contentLength64: int, minSizeToCompress: int): (r: Option<ContentEncoding>)
    ensures r.Some? ==> acceptEncoding.Some? && contentLength64 >= minSizeToCompress
    ensures acceptEncoding.Some? && contentLength64 >= minSizeToCompress ==>
      r == if Contains(acceptEncoding.value, "gzip") then Some(Gzip)
           else if Contains(acceptEncoding.value, "deflate") then Some(Deflate)
           else None
  {
    if acceptEncoding.None? || contentLength64 < minSizeToCompress then None
    else if Contains(acceptEncoding.value, "gzip") then Some(Gzip)
    else if Contains(acceptEncoding.value, "deflate") then Some(Deflate)
    else None
  }

  /** Middleware runs before any handler has set `ContentLength64`, which is still 0 then: with a
      positive threshold nothing is ever compressed. */
  lemma NothingCompressedBeforeHandler(acceptEncoding: Option<string>, minSizeToCompress: int)
    requires minSizeToCompress > 0
    ensures ChooseEncoding(acceptEncoding, Fresh.contentLength64, minSizeToCompress).None?
  {
  }

  class CompressionModule {
    var minSizeToCompress: int

    constructor()
      ensures minSizeToCompress == 0
    {
      minSizeToCompress := 0;
    }

    method Configure(settings: SettingsMap) returns (outcome: Outcome<Exception>)
      modifies this
      ensures (minSizeToCompress, outcome) == ConfigureCompression(old(minSizeToCompress), settings)
    {
      var element := TryGetValue(settings, "MinSizeToCompress");
      if element.Failure? {
        return Fail(element.error);
      }
      if element.value.None? {
        minSizeToCompress := DefaultMinSizeToCompress;
        return Pass;
      }
      var minSize := GetInt32(element.value.value);
      if minSize.Failure? {
        return Fail(minSize.error);
      }
      minSizeToCompress := minSize.value;
      outcome := Pass;
    }

    /** Adds `Content-Encoding` for the chosen encoding, then copies the response's output
        stream into a compressor. That stream is write-only, so the copy throws
        `NotSupportedException` and the request ends in 500; without an encoding the module lets
        the request through untouched. */
    method ProcessRequest(response: Response, acceptEncoding: Option<string>) returns (verdict: Verdict, after: Response)
      ensures match ChooseEncoding(acceptEncoding, response.contentLength64, minSizeToCompress)
        case None => verdict == Continue && after == response
        case Some(encoding) =>
          && verdict == Throw(NotSupportedException)
          && after == response.(headers := response.headers + [("Content-Encoding", EncodingName(encoding))])
    {
      verdict, after := Continue, response;
      if acceptEncoding.Some? && response.contentLength64 >= minSizeToCompress {
        if Contains(acceptEncoding.value, "gzip") {
          after := response.(headers := response.headers + [("Content-Encoding", "gzip")]);
          verdict := Throw(NotSupportedException);
        } else if Contains(acceptEncoding.value, "deflate") {
          after := response.(headers := response.headers + [("Content-Encoding", "deflate")]);
          verdict := Throw(NotSupportedException);
        }
      }
    }
  }

  // ---------------------------------------------------------------- rate limiting

  const DefaultMaxRequestsPerMinute := 60

  /** `DateTime` ticks are 100 ns: one minute is 600 000 000 of them. */
  const TicksPerMinute := 600_000_000

  /** The `(Count, LastReset)` pair kept per client address; `lastReset` in ticks. */
  datatype Counter = Counter(count: int, lastReset: int)

  /** `RateLimitingModule.Configure`: `MaxRequestsPerMinute`, or 60 without that setting. */
  function ConfigureRateLimiting(before: int, settings: SettingsMap): (r: (int, Outcome<Exception>))
    ensures r.1.Pass? <==> settings.Some? && ("MaxRequestsPerMinute" in settings.value ==> GetInt32(settings.value["MaxRequestsPerMinute"]).Success?)
    ensures r.1.Pass? ==> r.0 == if "MaxRequestsPerMinute" in settings.value then settings.value["MaxRequestsPerMinute"].value else DefaultMaxRequestsPerMinute
    ensures r.1.Fail? ==> r.0 == before
  {
    match TryGetValue(settings, "MaxRequestsPerMinute")
    case Failure(e) => (before, Fail(e))
    case Success(None) => (DefaultMaxRequestsPerMinute, Pass)
    case Success(Some(element)) =>
      match GetInt32(element)
      case Failure(e) => (before, Fail(e))
      case Success(maxRequests) => (maxRequests, Pass)
  }

  /** One request from `ip` at time `now`: whether it is let through, and the counters after it.
      An unknown client starts from `(0, now)`; a minute after the last reset the counter restarts
      at `(1, now)`; otherwise a client at the limit is refused and nothing is stored, and one
      below it has its count raised. */
  function Admit(counts: map<string, Counter>, ip: string, now: int, maxRequestsPerMinute: int): (r: (bool, map<string, Counter>))
    ensures !r.0 ==> r.1 == counts
    ensures r.0 ==> r.1.Keys == counts.Keys + {ip} && forall k :: k in counts && k != ip ==> r.1[k] == counts[k]
    ensures ip in counts && now - counts[ip].lastReset >= TicksPerMinute ==> r == (true, counts[ip := Counter(1, now)])
    ensures ip in counts && now - counts[ip].lastReset < TicksPerMinute ==>
      r == if counts[ip].count >= maxRequestsPerMinute then (false, counts)
           else (true, counts[ip := counts[ip].(count := counts[ip].count + 1)])
    ensures ip !in counts ==>
      r == if maxRequestsPerMinute <= 0 then (false, counts) else (true, counts[ip := Counter(1, now)])
  {
    var current := if ip in counts then counts[ip] else Counter(0, now);
    if now - current.lastReset >= TicksPerMinute then (true, counts[ip := Counter(1, now)])
    else if current.count >= maxRequestsPerMinute then (false, counts)
    else (true, counts[ip := current.(count := current.count + 1)])
  }

  /** The verdicts for requests from `ip` at the given times, one after another. */
  function Replay(counts: map<string, Counter>, ip: string, times: seq<int>, maxRequestsPerMinute: int): (r: seq<bool>)
    ensures |r| == |times|
    decreases times
  {
    if times == [] then []
    else
      var (accepted, next) := Admit(counts, ip, times[0], maxRequestsPerMinute);
      [accepted] + Replay(next, ip, times[1..], maxRequestsPerMinute)
  }

  /** A client that has used `used` requests of the window opened at `start`, and sends more within
      that window: the `i`-th of them is let through exactly when `used + i` is below the limit. */
  lemma {:induction false} ReplayWithinWindow(counts: map<string, Counter>, ip: string, start: int, used: nat, times: seq<int>, maxRequestsPerMinute: int)
    requires used == 0 ==> ip !in counts
    requires used > 0 ==> ip in counts && counts[ip] == Counter(used, start) && used <= maxRequestsPerMinute
    requires forall i :: 0 <= i < |times| ==> times[i] - start < TicksPerMinute
    requires used == 0 && maxRequestsPerMinute > 0 && |times| > 0 ==> times[0] == start
    ensures forall i :: 0 <= i < |times| ==> (Replay(counts, ip, times, maxRequestsPerMinute)[i] <==> used + i < maxRequestsPerMinute)
    decreases times
  {
    if times != [] {
      var (accepted, next) := Admit(counts, ip, times[0], maxRequestsPerMinute);
      assert accepted <==> used < maxRequestsPerMinute;
      var rest := times[1..];
      if accepted {
        assert next[ip] == Counter(used + 1, start);
        ReplayWithinWindow(next, ip, start, used + 1, rest, maxRequestsPerMinute);
      } else {
        ReplayWithinWindow(next, ip, start, used, rest, maxRequestsPerMinute);
      }
      var r := Replay(counts, ip, times, maxRequestsPerMinute);
      assert r == [accepted] + Replay(next, ip, rest, maxRequestsPerMinute);
      forall i | 0 <= i < |times|
        ensures r[i] <==> used + i < maxRequestsPerMinute
      {
        if i > 0 {
          assert r[i] == Replay(next, ip, rest, maxRequestsPerMinute)[i - 1];
        }
      }
    }
  }

  /** A new client sending a burst within one minute of its first request gets exactly the first
      `MaxRequestsPerMinute` of them through; the next one is refused. */
  lemma BurstFromNewClient(counts: map<string, Counter>, ip: string, times: seq<int>, maxRequestsPerMinute: int)
    requires ip !in counts && |times| > 0
    requires forall i :: 0 <= i < |times| ==> times[i] - times[0] < TicksPerMinute
    ensures forall i :: 0 <= i < |times| ==> (Replay(counts, ip, times, maxRequestsPerMinute)[i] <==> i < maxRequestsPerMinute)
  {
    ReplayWithinWindow(counts, ip, times[0], 0, times, maxRequestsPerMinute);
  }

  class RateLimitingModule {
    var requestCounts: map<string, Counter>
    var maxRequestsPerMinute: int

    constructor()
      ensures requestCounts == map[] && maxRequestsPerMinute == 0
    {
      requestCounts := map[];
      maxRequestsPerMinute := 0;
    }

    method Configure(settings: SettingsMap) returns (outcome: Outcome<Exception>)
      modifies this
      ensures (maxRequestsPerMinute, outcome) == ConfigureRateLimiting(old(maxRequestsPerMinute), settings)
      ensures requestCounts == old(requestCounts)
    {
      var element := TryGetValue(settings, "MaxRequestsPerMinute");
      if element.Failure? {
        return Fail(element.error);
      }
      if element.value.None? {
        maxRequestsPerMinute := DefaultMaxRequestsPerMinute;
        return Pass;
      }
      var maxRequests := GetInt32(element.value.value);
      if maxRequests.Failure? {
        return Fail(maxRequests.error);
      }
      maxRequestsPerMinute := maxRequests.value;
      outcome := Pass;
    }

    /** `ProcessRequestAsync` for a request from `ip` at `now`; a refused request gets 403 and a
        closed response. */
    method ProcessRequest(response: Response, ip: string, now: int) returns (verdict: Verdict, after: Response)
      requires !response.closed
      modifies this
      ensures maxRequestsPerMinute == old(maxRequestsPerMinute)
      ensures var (accepted, counts) := Admit(old(requestCounts), ip, now, maxRequestsPerMinute);
        && requestCounts == counts
        && verdict == (if accepted then Continue else Stop)
        && after == if accepted then response else response.(statusCode := StatusForbidden, closed := true)
    {
      var currentCount := Counter(0, now);
      if ip in requestCounts {
        currentCount := requestCounts[ip];
      }
      if now - currentCount.lastReset >= TicksPerMinute {
        currentCount := Counter(1, now);
      } else if currentCount.count >= maxRequestsPerMinute {
        return Stop, response.(statusCode := StatusForbidden, closed := true);
      } else {
        currentCount := currentCount.(count := currentCount.count + 1);
      }
      requestCounts := requestCounts[ip := currentCount];
      return Continue, response;
    }
  }
}
