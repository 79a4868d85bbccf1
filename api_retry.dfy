/**
 * Fetch with retries and exponential backoff (src/utils/apiRetry.ts).
 *
 * The network is a function from the request and the attempt number to the
 * outcome of that call, so a scripted sequence of outcomes is one such
 * function. Sleeping is recorded, not performed: a run reports the delays it
 * would have slept and the number of calls it made.
 */
module ApiRetry {
  import opened Types
  import opened Strings
  import opened AppConstants

  /** A response: status code, status text and body text. */
  datatype Response = Response(status: nat, statusText: string, body: string) {
    /** `response.ok`. */
    predicate Ok()
    {
      200 <= status <= 299
    }
  }

  datatype Error = Error(message: string)

  /** What one call of `fetch` gives: a response, or a thrown error. */
  datatype Outcome = Answered(response: Response) | NetworkError(error: Error)

  /** The request `fetch` is called with. */
  datatype Request = Request(url: string, verb: string, headers: seq<(string, string)>, body: Option<string>)

  /** The network: `fetch(request)` on the given attempt (counted from 0). */
  type Network = (Request, nat) -> Outcome

  /** The options as given; a missing field takes its default. */
  datatype RetryOptionsInput = RetryOptionsInput(
    maxAttempts: Option<int>,
    initialDelay: Option<int>,
    retryableStatusCodes: Option<seq<nat>>)

  datatype RetryOptions = RetryOptions(maxAttempts: int, initialDelay: int, retryableStatusCodes: seq<nat>)

  const DEFAULT_STATUS_CODES: seq<nat> := [408, 429, 500, 502, 503, 504]

  /** The destructuring with defaults at the top of `fetchWithRetry`. */
  function WithDefaults(o: RetryOptionsInput): (r: RetryOptions)
    ensures o.maxAttempts.None? ==> r.maxAttempts == RETRY_ATTEMPTS
    ensures o.maxAttempts.Some? ==> r.maxAttempts == o.maxAttempts.value
    ensures o.initialDelay.None? ==> r.initialDelay == RETRY_INITIAL_DELAY
    ensures o.initialDelay.Some? ==> r.initialDelay == o.initialDelay.value
    ensures o.retryableStatusCodes.None? ==> r.retryableStatusCodes == DEFAULT_STATUS_CODES
    ensures o.retryableStatusCodes.Some? ==> r.retryableStatusCodes == o.retryableStatusCodes.value
  {
    RetryOptions(
      match o.maxAttempts case Some(n) => n case None => RETRY_ATTEMPTS,
      match o.initialDelay case Some(d) => d case None => RETRY_INITIAL_DELAY,
      match o.retryableStatusCodes case Some(c) => c case None => DEFAULT_STATUS_CODES)
  }

  /** The default status codes are the configured retryable ones. */
  lemma DefaultStatusCodesAreConfigured()
    ensures forall i :: 0 <= i < |DEFAULT_STATUS_CODES| ==>
      DEFAULT_STATUS_CODES[i] as int == RETRYABLE_STATUS_CODES[i]
    ensures |DEFAULT_STATUS_CODES| == |RETRYABLE_STATUS_CODES|
  {
  }

  function Pow2(n: nat): (r: nat)
    ensures r >= 1
  {
    if n == 0 then 1 else 2 * Pow2(n - 1)
  }

  /** `initialDelay * Math.pow(2, attempt)`. */
  function Delay(o: RetryOptions, attempt: nat): int
  {
    o.initialDelay * Pow2(attempt)
  }

  /** An outcome that the loop retries: a retryable status on a response that is not ok, or an error. */
  predicate Retryable(o: RetryOptions, out: Outcome)
  {
    match out
    case Answered(resp) => !resp.Ok() && resp.status in o.retryableStatusCodes
    case NetworkError(_) => true
  }

  /** The error recorded for a retryable response: `HTTP <status>: <statusText>`. */
  function HttpError(resp: Response): Error
  {
    Error("HTTP " + NatToString(resp.status) + ": " + resp.statusText)
  }

  const ALL_ATTEMPTS_FAILED: Error := Error("All retry attempts failed")

  datatype FetchResult = Returned(response: Response) | Threw(error: Error)

  /** A run of `fetchWithRetry`: its result, the calls it made, the delays it slept. */
  datatype Run = Run(result: FetchResult, calls: nat, delays: seq<int>)

  /** The run from `attempt` on, given the error recorded so far. */
  function RetryFrom(o: RetryOptions, net: Network, req: Request, attempt: nat, lastError: Option<Error>): Run
    decreases if o.maxAttempts > attempt then o.maxAttempts - attempt else 0
  {
    if attempt >= o.maxAttempts then
      Run(Threw(match lastError case Some(e) => e case None => ALL_ATTEMPTS_FAILED), 0, [])
    else
      var out := net(req, attempt);
      if !Retryable(o, out) then Run(Returned(out.response), 1, [])
      else
        var err := match out case Answered(resp) => HttpError(resp) case NetworkError(e) => e;
        if attempt < o.maxAttempts - 1 then
          var rest := RetryFrom(o, net, req, attempt + 1, Some(err));
          Run(rest.result, rest.calls + 1, [Delay(o, attempt)] + rest.delays)
        else if out.Answered? then Run(Returned(out.response), 1, [])
        else
          var rest := RetryFrom(o, net, req, attempt + 1, Some(err));
          Run(rest.result, rest.calls + 1, rest.delays)
  }

  /** `fetchWithRetry(url, options, retryOptions)`. */
  function Retry(o: RetryOptions, net: Network, req: Request): Run
  {
    RetryFrom(o, net, req, 0, None)
  }

  /* ---------------------------------------------------------------------- */
  /* What a run promises                                                     */
  /* ---------------------------------------------------------------------- */

  /**
   * From `attempt` on: at most `maxAttempts - attempt` calls; the `i`-th
   * delay is `initialDelay * 2^(attempt + i)`; a delay follows every call
   * but the last; every call but the last had a retryable outcome; the last
   * call decides the result, and it is the final attempt unless its outcome
   * was not retryable.
   */
  lemma {:induction false} RetryFromShape(o: RetryOptions, net: Network, req: Request, attempt: nat, lastError: Option<Error>)
    requires attempt < o.maxAttempts
    ensures var r := RetryFrom(o, net, req, attempt, lastError);
      1 <= r.calls <= o.maxAttempts - attempt
      && |r.delays| == r.calls - 1
      && (forall i :: 0 <= i < |r.delays| ==> r.delays[i] == Delay(o, attempt + i))
      && (forall i :: attempt <= i < attempt + r.calls - 1 ==> Retryable(o, net(req, i)))
      && LastCallDecides(o, net(req, attempt + r.calls - 1), r.result, attempt + r.calls == o.maxAttempts)
    decreases o.maxAttempts - attempt
  {
    var out := net(req, attempt);
    if Retryable(o, out) && attempt < o.maxAttempts - 1 {
      var err := match out case Answered(resp) => HttpError(resp) case NetworkError(e) => e;
      var rest := RetryFrom(o, net, req, attempt + 1, Some(err));
      RetryFromShape(o, net, req, attempt + 1, Some(err));
      var r := RetryFrom(o, net, req, attempt, lastError);
      assert r == Run(rest.result, rest.calls + 1, [Delay(o, attempt)] + rest.delays);
      forall i | 0 <= i < |r.delays| ensures r.delays[i] == Delay(o, attempt + i) {
        if i > 0 {
          assert r.delays[i] == rest.delays[i - 1];
        }
      }
    }
  }

  /**
   * How the last call decides the result: a response is returned (and, when
   * this was not the final attempt, it was not retryable); an error is thrown
   * only on the final attempt.
   */
  predicate LastCallDecides(o: RetryOptions, last: Outcome, result: FetchResult, final: bool)
  {
    match last
    case Answered(resp) => result == Returned(resp) && (!final ==> !Retryable(o, last))
    case NetworkError(e) => result == Threw(e) && final
  }

  /**
   * The whole run: with no attempts allowed it throws "All retry attempts
   * failed" without calling; otherwise it makes between one and `maxAttempts`
   * calls, sleeps `initialDelay * 2^i` after failed attempt `i` except the
   * last, and its last call decides the result.
   */
  lemma RetryShape(o: RetryOptions, net: Network, req: Request)
    ensures o.maxAttempts <= 0 ==> Retry(o, net, req) == Run(Threw(ALL_ATTEMPTS_FAILED), 0, [])
    ensures o.maxAttempts > 0 ==> var r := Retry(o, net, req);
      1 <= r.calls <= o.maxAttempts
      && |r.delays| == r.calls - 1
      && (forall i :: 0 <= i < |r.delays| ==> r.delays[i] == o.initialDelay * Pow2(i))
      && (forall i :: 0 <= i < r.calls - 1 ==> Retryable(o, net(req, i)))
      && LastCallDecides(o, net(req, r.calls - 1), r.result, r.calls == o.maxAttempts)
  {
    if o.maxAttempts > 0 {
      RetryFromShape(o, net, req, 0, None);
    }
  }

  /** A first outcome that is not retryable is returned at once, without delay. */
  lemma RetryReturnsAtOnce(o: RetryOptions, net: Network, req: Request)
    requires o.maxAttempts > 0
    requires net(req, 0).Answered? && !Retryable(o, net(req, 0))
    ensures Retry(o, net, req) == Run(Returned(net(req, 0).response), 1, [])
  {
  }

  /** When every attempt fails, all of them are made and the last outcome decides. */
  lemma RetryAllFail(o: RetryOptions, net: Network, req: Request)
    requires o.maxAttempts > 0
    requires forall i :: 0 <= i < o.maxAttempts ==> Retryable(o, net(req, i))
    ensures var r := Retry(o, net, req);
      r.calls == o.maxAttempts && |r.delays| == o.maxAttempts - 1
      && match net(req, o.maxAttempts - 1)
         case Answered(resp) => r.result == Returned(resp)
         case NetworkError(e) => r.result == Threw(e)
  {
    RetryShape(o, net, req);
  }

  /* ---------------------------------------------------------------------- */
  /* The loop                                                                */
  /* ---------------------------------------------------------------------- */

  /** A run prefixed with `calls` earlier calls and `delays` earlier delays. */
  function After(calls: nat, delays: seq<int>, rest: Run): Run
  {
    Run(rest.result, calls + rest.calls, delays + rest.delays)
  }

  /** Prefixing twice is prefixing once with the counts added and the delays joined. */
  lemma AfterAfter(calls: nat, delays: seq<int>, more: seq<int>, rest: Run)
    ensures After(calls, delays, After(1, more, rest)) == After(calls + 1, delays + more, rest)
  {
    assert delays + (more + rest.delays) == (delays + more) + rest.delays;
  }

  /** An attempt whose response is kept ends the run with that one call. */
  lemma RetryFromStops(o: RetryOptions, net: Network, req: Request, attempt: nat, lastError: Option<Error>)
    requires attempt < o.maxAttempts && net(req, attempt).Answered?
    requires !Retryable(o, net(req, attempt)) || attempt == o.maxAttempts - 1
    ensures RetryFrom(o, net, req, attempt, lastError) == Run(Returned(net(req, attempt).response), 1, [])
  {
  }

  /** A failed attempt that is not the end: one call, its delay, then the run from the next attempt. */
  lemma RetryFromContinues(o: RetryOptions, net: Network, req: Request, attempt: nat, lastError: Option<Error>,
                           err: Error, delay: seq<int>)
    requires attempt < o.maxAttempts && Retryable(o, net(req, attempt))
    requires net(req, attempt).NetworkError? || attempt < o.maxAttempts - 1
    requires err == match net(req, attempt) case Answered(resp) => HttpError(resp) case NetworkError(e) => e
    requires delay == if attempt < o.maxAttempts - 1 then [Delay(o, attempt)] else []
    ensures RetryFrom(o, net, req, attempt, lastError) == After(1, delay, RetryFrom(o, net, req, attempt + 1, Some(err)))
  {
  }

  /** `fetchWithRetry(url, options, retryOptions)`: the `for` loop over attempts. */
  method FetchWithRetry(o: RetryOptions, net: Network, req: Request)
    returns (result: FetchResult, calls: nat, delays: seq<int>)
    ensures Run(result, calls, delays) == Retry(o, net, req)
  {
    var lastError: Option<Error> := None;
    calls, delays := 0, [];
    var attempt: nat := 0;
    while attempt < o.maxAttempts
      invariant After(calls, delays, RetryFrom(o, net, req, attempt, lastError)) == Retry(o, net, req)
      decreases o.maxAttempts - attempt
    {
      ghost var previous, done := lastError, delays;
      var out := net(req, attempt);
      calls := calls + 1;
      match out {
        case Answered(resp) =>
          if resp.Ok() || resp.status !in o.retryableStatusCodes {
            RetryFromStops(o, net, req, attempt, previous);
            return Returned(resp), calls, delays;
          }
          lastError := Some(HttpError(resp));
          if attempt < o.maxAttempts - 1 {
            delays := delays + [o.initialDelay * Pow2(attempt)];
          } else {
            RetryFromStops(o, net, req, attempt, previous);
            return Returned(resp), calls, delays;
          }
        case NetworkError(e) =>
          lastError := Some(e);
          if attempt < o.maxAttempts - 1 {
            delays := delays + [o.initialDelay * Pow2(attempt)];
          }
      }
      RetryFromContinues(o, net, req, attempt, previous, lastError.value, delays[|done|..]);
      AfterAfter(calls - 1, done, delays[|done|..], RetryFrom(o, net, req, attempt + 1, lastError));
      attempt := attempt + 1;
    }
    result := Threw(match lastError case Some(e) => e case None => ALL_ATTEMPTS_FAILED);
  }

  /* ---------------------------------------------------------------------- */
  /* JSON helpers                                                            */
  /* ---------------------------------------------------------------------- */

  /**
   * What `fetchJsonWithRetry` yields: the body of an ok response, which the
   * caller's JSON parser reads, or a thrown error.
   */
  datatype JsonResult = JsonBody(text: string) | JsonError(error: Error)

  /** `fetchJsonWithRetry`: a response that is not ok becomes `HTTP <status>: <body>`. */
  function FetchJson(o: RetryOptions, net: Network, req: Request): (r: JsonResult)
    ensures Retry(o, net, req).result.Threw? ==> r == JsonError(Retry(o, net, req).result.error)
    ensures Retry(o, net, req).result.Returned? ==> var resp := Retry(o, net, req).result.response;
      (resp.Ok() ==> r == JsonBody(resp.body))
      && (!resp.Ok() ==> r == JsonError(Error("HTTP " + NatToString(resp.status) + ": " + resp.body)))
  {
    match Retry(o, net, req).result
    case Threw(e) => JsonError(e)
    case Returned(resp) =>
      if !resp.Ok() then JsonError(Error("HTTP " + NatToString(resp.status) + ": " + resp.body))
      else JsonBody(resp.body)
  }

  method FetchJsonWithRetry(o: RetryOptions, net: Network, req: Request) returns (r: JsonResult)
    ensures r == FetchJson(o, net, req)
  {
    var result, _, _ := FetchWithRetry(o, net, req);
    match result {
      case Threw(e) => r := JsonError(e);
      case Returned(resp) =>
        if !resp.Ok() {
          r := JsonError(Error("HTTP " + NatToString(resp.status) + ": " + resp.body));
        } else {
          r := JsonBody(resp.body);
        }
    }
  }

  /** The request `postJsonWithRetry` sends: a JSON POST of the serialised data. */
  function PostRequest(url: string, json: string): (req: Request)
    ensures req.url == url && req.verb == "POST" && req.body == Some(json)
    ensures req.headers == [("Content-Type", "application/json")]
  {
    Request(url, "POST", [("Content-Type", "application/json")], Some(json))
  }

  /** `postJsonWithRetry(url, data)`, given the JSON text of `data`. */
  method PostJsonWithRetry(url: string, json: string, o: RetryOptions, net: Network) returns (r: JsonResult)
    ensures r == FetchJson(o, net, PostRequest(url, json))
  {
    r := FetchJsonWithRetry(o, net, PostRequest(url, json));
  }

  /** A JSON result carries a body only from an ok response. */
  lemma FetchJsonBodyIsOk(o: RetryOptions, net: Network, req: Request)
    requires FetchJson(o, net, req).JsonBody?
    ensures Retry(o, net, req).result.Returned? && Retry(o, net, req).result.response.Ok()
    ensures FetchJson(o, net, req).text == Retry(o, net, req).result.response.body
  {
  }

  /**
   * The JSON result in terms of the calls made: with no attempts allowed it is
   * "All retry attempts failed"; otherwise it depends on the last call alone.
   * A body comes exactly from an ok response to that call; a response that is
   * not ok gives `HTTP <status>: <body>`; a network error is passed on, and
   * only after the final attempt.
   */
  lemma FetchJsonOutcome(o: RetryOptions, net: Network, req: Request)
    ensures o.maxAttempts <= 0 ==> FetchJson(o, net, req) == JsonError(ALL_ATTEMPTS_FAILED)
    ensures o.maxAttempts > 0 ==>
      var calls := Retry(o, net, req).calls;
      1 <= calls <= o.maxAttempts
      && var last := net(req, calls - 1);
      (FetchJson(o, net, req).JsonBody? <==> last.Answered? && last.response.Ok())
      && (last.Answered? && last.response.Ok() ==> FetchJson(o, net, req) == JsonBody(last.response.body))
      && (last.Answered? && !last.response.Ok() ==>
            FetchJson(o, net, req) == JsonError(Error("HTTP " + NatToString(last.response.status) + ": " + last.response.body)))
      && (last.NetworkError? ==> FetchJson(o, net, req) == JsonError(last.error) && calls == o.maxAttempts)
  {
    RetryShape(o, net, req);
  }

  /* ---------------------------------------------------------------------- */
  /* Examples with the default options                                       */
  /* ---------------------------------------------------------------------- */

  const DEFAULTS: RetryOptions := WithDefaults(RetryOptionsInput(None, None, None))

  const UNAVAILABLE: Response := Response(503, "Service Unavailable", "")
  const OK_RESPONSE: Response := Response(200, "OK", "{}")

  /** Two 503 responses and then a 200. */
  function TwoFailuresThenOk(req: Request, attempt: nat): Outcome
  {
    if attempt < 2 then Answered(UNAVAILABLE) else Answered(OK_RESPONSE)
  }

  /** 503 on every call. */
  function AlwaysUnavailable(req: Request, attempt: nat): Outcome
  {
    Answered(UNAVAILABLE)
  }

  /** [503, 503, 200]: three calls, delays 1000 and 2000, and the 200 response. */
  lemma ExampleRecovers(req: Request)
    ensures Retry(DEFAULTS, TwoFailuresThenOk, req) == Run(Returned(OK_RESPONSE), 3, [1000, 2000])
  {
    assert DEFAULTS == RetryOptions(3, 1000, [408, 429, 500, 502, 503, 504]);
    assert Retryable(DEFAULTS, Answered(UNAVAILABLE));
    assert !Retryable(DEFAULTS, Answered(OK_RESPONSE));
    assert RetryFrom(DEFAULTS, TwoFailuresThenOk, req, 2, Some(HttpError(UNAVAILABLE)))
      == Run(Returned(OK_RESPONSE), 1, []);
    assert Pow2(1) == 2;
  }

  /** 503 every time: three calls, delays 1000 and 2000, and the last 503 is returned, not thrown. */
  lemma ExampleGivesUp(req: Request)
    ensures Retry(DEFAULTS, AlwaysUnavailable, req) == Run(Returned(UNAVAILABLE), 3, [1000, 2000])
  {
    assert DEFAULTS == RetryOptions(3, 1000, [408, 429, 500, 502, 503, 504]);
    assert Retryable(DEFAULTS, Answered(UNAVAILABLE));
    assert RetryFrom(DEFAULTS, AlwaysUnavailable, req, 2, Some(HttpError(UNAVAILABLE)))
      == Run(Returned(UNAVAILABLE), 1, []);
    assert Pow2(1) == 2;
  }
}
