/**
 * The chat endpoint (src/app/api/chat/route.ts): a per-client rate limiter
 * over an in-memory table, the client key taken from the proxy headers, and
 * the shaping of the request sent to the language model.
 *
 * The model itself, the request parser and the clock are inputs: `now` is a
 * number of milliseconds, the model is a function from the request it is sent
 * to its reply, and the system prompt is an opaque string.
 */
module ChatRoute {
  import opened Types
  import opened Strings
  import opened AppConstants

  /* ---------------------------------------------------------------------- */
  /* Client key                                                              */
  /* ---------------------------------------------------------------------- */

  /** Request headers by lower-case name; a missing name reads as `null`. */
  type Headers = map<string, string>

  /** `s.split(',')[0]`: the text before the first comma, or all of `s`. */
  function BeforeFirstComma(s: string): (r: string)
    ensures r <= s && ',' !in r
    ensures |r| < |s| ==> s[|r|] == ','
    decreases |s|
  {
    if s == [] || s[0] == ',' then [] else [s[0]] + BeforeFirstComma(s[1..])
  }

  /**
   * `getRateLimitKey(request)`: the first address of a non-empty
   * `x-forwarded-for`, else a non-empty `x-real-ip`, else `unknown`.
   */
  function RateLimitKey(h: Headers): (key: string)
    ensures "x-forwarded-for" in h && h["x-forwarded-for"] != [] ==>
      key <= h["x-forwarded-for"] && ',' !in key
      && (|key| < |h["x-forwarded-for"]| ==> h["x-forwarded-for"][|key|] == ',')
    ensures ("x-forwarded-for" !in h || h["x-forwarded-for"] == []) && "x-real-ip" in h && h["x-real-ip"] != [] ==>
      key == h["x-real-ip"]
    ensures ("x-forwarded-for" !in h || h["x-forwarded-for"] == []) && ("x-real-ip" !in h || h["x-real-ip"] == []) ==>
      key == "unknown"
  {
    if "x-forwarded-for" in h && h["x-forwarded-for"] != [] then BeforeFirstComma(h["x-forwarded-for"])
    else if "x-real-ip" in h && h["x-real-ip"] != [] then h["x-real-ip"]
    else "unknown"
  }

  /** `BeforeFirstComma` stops at the first comma, whatever follows it. */
  lemma {:induction false} BeforeFirstCommaSplits(a: string, b: string)
    requires ',' !in a
    ensures BeforeFirstComma(a + "," + b) == a
    decreases |a|
  {
    if a != [] {
      assert (a + "," + b)[1..] == a[1..] + "," + b;
      BeforeFirstCommaSplits(a[1..], b);
    }
  }

  /**
   * With `x-forwarded-for: a,b` the key is the first entry `a` exactly as
   * written, spaces included, whatever `x-real-ip` says.
   */
  lemma ForwardedKeyIsFirstEntry(h: Headers, a: string, b: string)
    requires ',' !in a && "x-forwarded-for" in h && h["x-forwarded-for"] == a + "," + b
    ensures RateLimitKey(h) == a
  {
    BeforeFirstCommaSplits(a, b);
  }

  /* ---------------------------------------------------------------------- */
  /* Rate limiting                                                           */
  /* ---------------------------------------------------------------------- */

  /** One client's window: requests counted so far and the time the window ends. */
  datatype RateRecord = RateRecord(count: int, resetTime: int)

  type RateTable = map<string, RateRecord>

  /** `checkRateLimit(key)` at time `now`: whether the request is allowed, and the new table. */
  function Check(t: RateTable, key: string, now: int): (bool, RateTable)
  {
    if key !in t || now > t[key].resetTime then (true, t[key := RateRecord(1, now + WINDOW_MS)])
    else if t[key].count >= MAX_REQUESTS then (false, t)
    else (true, t[key := RateRecord(t[key].count + 1, t[key].resetTime)])
  }

  /** Every window has counted at least one and at most `MAX_REQUESTS` requests. */
  ghost predicate ValidTable(t: RateTable)
  {
    forall k :: k in t ==> 1 <= t[k].count <= MAX_REQUESTS
  }

  /** A missing or expired window restarts at one request, ending `WINDOW_MS` from now. */
  lemma CheckStartsWindow(t: RateTable, key: string, now: int)
    requires key !in t || now > t[key].resetTime
    ensures Check(t, key, now) == (true, t[key := RateRecord(1, now + WINDOW_MS)])
  {
  }

  /**
   * Inside the window a full count denies the request and changes nothing;
   * otherwise the count goes up by one and the window's end stays.
   */
  lemma CheckInsideWindow(t: RateTable, key: string, now: int)
    requires key in t && now <= t[key].resetTime
    ensures t[key].count >= MAX_REQUESTS ==> Check(t, key, now) == (false, t)
    ensures t[key].count < MAX_REQUESTS ==>
      Check(t, key, now) == (true, t[key := RateRecord(t[key].count + 1, t[key].resetTime)])
  {
  }

  /** Checking keeps every count between one and `MAX_REQUESTS`. */
  lemma CheckKeepsValid(t: RateTable, key: string, now: int)
    requires ValidTable(t)
    ensures ValidTable(Check(t, key, now).1)
  {
  }

  /** Checking touches only the entry of its own key. */
  lemma CheckFrame(t: RateTable, key: string, now: int, other: string)
    requires other != key
    ensures var t' := Check(t, key, now).1;
      (other in t' <==> other in t) && (other in t ==> t'[other] == t[other])
  {
  }

  /** Results and final table of a run of checks for one key at the given times. */
  function CheckAll(t: RateTable, key: string, times: seq<int>): (seq<bool>, RateTable)
    decreases |times|
  {
    if times == [] then ([], t)
    else
      var (ok, t1) := Check(t, key, times[0]);
      var (rest, t2) := CheckAll(t1, key, times[1..]);
      ([ok] + rest, t2)
  }

  function Min(a: int, b: int): int
  {
    if a <= b then a else b
  }

  /**
   * Inside one window that began at `start` with `done` requests counted,
   * the next requests are allowed while the count stays within
   * `MAX_REQUESTS` and denied after.
   */
  lemma {:induction false} CheckAllWithinWindow(t: RateTable, key: string, times: seq<int>, start: int, done: int)
    requires 1 <= done <= MAX_REQUESTS
    requires key in t && t[key] == RateRecord(done, start + WINDOW_MS)
    requires forall i :: 0 <= i < |times| ==> times[i] <= start + WINDOW_MS
    ensures var (oks, t') := CheckAll(t, key, times);
      |oks| == |times|
      && (forall i :: 0 <= i < |oks| ==> (oks[i] <==> done + i < MAX_REQUESTS))
      && key in t' && t'[key] == RateRecord(Min(done + |times|, MAX_REQUESTS), start + WINDOW_MS)
    decreases |times|
  {
    if times != [] {
      var (ok, t1) := Check(t, key, times[0]);
      var next := if done < MAX_REQUESTS then done + 1 else done;
      assert t1[key] == RateRecord(next, start + WINDOW_MS);
      assert forall i :: 0 <= i < |times[1..]| ==> times[1..][i] <= start + WINDOW_MS;
      CheckAllWithinWindow(t1, key, times[1..], start, next);
      var (rest, t2) := CheckAll(t1, key, times[1..]);
      assert CheckAll(t, key, times) == ([ok] + rest, t2);
      forall i | 0 <= i < |times| ensures (([ok] + rest)[i] <==> done + i < MAX_REQUESTS) {
        if i > 0 {
          assert ([ok] + rest)[i] == rest[i - 1];
          if done == MAX_REQUESTS {
            assert !rest[i - 1];
          }
        }
      }
    }
  }

  /**
   * `MAX_REQUESTS` is 30: a client with no open window gets its first 30
   * requests within one window allowed and every later one denied.
   */
  lemma ThirtyPerWindow(t: RateTable, key: string, times: seq<int>)
    requires |times| >= 1
    requires key !in t || times[0] > t[key].resetTime
    requires forall i :: 1 <= i < |times| ==> times[i] <= times[0] + WINDOW_MS
    ensures var oks := CheckAll(t, key, times).0;
      |oks| == |times| && forall i :: 0 <= i < |oks| ==> (oks[i] <==> i < 30)
  {
    var (ok, t1) := Check(t, key, times[0]);
    assert t1[key] == RateRecord(1, times[0] + WINDOW_MS);
    assert forall i :: 0 <= i < |times[1..]| ==> times[1..][i] <= times[0] + WINDOW_MS;
    CheckAllWithinWindow(t1, key, times[1..], times[0], 1);
    var rest := CheckAll(t1, key, times[1..]).0;
    var oks := CheckAll(t, key, times).0;
    assert oks == [ok] + rest;
    forall i | 0 <= i < |oks| ensures (oks[i] <==> i < 30) {
      if i > 0 {
        assert oks[i] == rest[i - 1];
      }
    }
  }

  /* ---------------------------------------------------------------------- */
  /* The request to the model                                                */
  /* ---------------------------------------------------------------------- */

  datatype Role = User | Assistant

  datatype ModelMessage = ModelMessage(role: Role, content: string)

  /** `messages.slice(-MAX_HISTORY_MESSAGES)`. */
  function RecentMessages(messages: seq<Message>): (r: seq<Message>)
    ensures |r| == Min(|messages|, MAX_HISTORY_MESSAGES)
    ensures r == messages[|messages| - |r|..]
  {
    if |messages| <= MAX_HISTORY_MESSAGES then messages
    else messages[|messages| - MAX_HISTORY_MESSAGES..]
  }

  /** `role: msg.isUser ? 'user' : 'assistant'` with the message's content. */
  function ToModelMessage(m: Message): ModelMessage
  {
    ModelMessage(if m.isUser then User else Assistant, m.content)
  }

  /** The conversation history mapped to model roles, one entry per message, in order. */
  function History(messages: seq<Message>): (r: seq<ModelMessage>)
    ensures |r| == |messages|
    ensures forall i :: 0 <= i < |r| ==> r[i] == ToModelMessage(messages[i])
    decreases |messages|
  {
    if messages == [] then [] else [ToModelMessage(messages[0])] + History(messages[1..])
  }

  /** The `messages` sent to the model: recent history, then the new message from the user. */
  function ModelConversation(messages: seq<Message>, message: string): seq<ModelMessage>
  {
    History(RecentMessages(messages)) + [ModelMessage(User, message)]
  }

  /**
   * The model sees at most 25 earlier messages, the latest ones in their
   * order, each as `user` exactly when the user wrote it, and then the new
   * message as `user`.
   */
  lemma ModelConversationShape(messages: seq<Message>, message: string)
    ensures var c, n := ModelConversation(messages, message), Min(|messages|, 25);
      |c| == n + 1
      && (forall i :: 0 <= i < n ==>
            var m := messages[|messages| - n + i];
            (c[i].role == User <==> m.isUser) && c[i].content == m.content)
      && c[n] == ModelMessage(User, message)
  {
    var r := RecentMessages(messages);
    var n := |r|;
    forall i | 0 <= i < n ensures r[i] == messages[|messages| - n + i] {
    }
  }

  /** The line naming the student's level. */
  function LevelNote(level: string): string
  {
    "\n\nCurrent student level: " + level + ". Adjust your teaching accordingly."
  }

  /** The line naming the practice mode. */
  function ModeNote(mode: string): string
  {
    "\n\nCurrent practice mode: " + mode
  }

  /** The system prompt with the optional level and mode lines appended, in that order. */
  function ContextualPrompt(systemPrompt: string, userLevel: Option<string>, mode: Option<string>): string
  {
    var withLevel :=
      if userLevel.Some? && userLevel.value != [] then systemPrompt + LevelNote(userLevel.value)
      else systemPrompt;
    if mode.Some? && mode.value != [] then withLevel + ModeNote(mode.value)
    else withLevel
  }

  /** Appending keeps what was there as a prefix and puts the addition at the end. */
  lemma AppendEnds(a: string, b: string)
    ensures a <= a + b && (a + b)[|a + b| - |b|..] == b
  {
    assert (a + b)[..|a|] == a;
  }

  /**
   * The prompt always begins with the system prompt, and only a given,
   * non-empty mode changes its end.
   */
  lemma ContextualPromptShape(systemPrompt: string, userLevel: Option<string>, mode: Option<string>)
    ensures systemPrompt <= ContextualPrompt(systemPrompt, userLevel, mode)
    ensures (userLevel.None? || userLevel.value == []) && (mode.None? || mode.value == []) ==>
      ContextualPrompt(systemPrompt, userLevel, mode) == systemPrompt
    ensures mode.Some? && mode.value != [] ==>
      var p, tail := ContextualPrompt(systemPrompt, userLevel, mode), "\n\nCurrent practice mode: " + mode.value;
      |tail| <= |p| && p[|p| - |tail|..] == tail
  {
    var withLevel := systemPrompt;
    if userLevel.Some? && userLevel.value != [] {
      withLevel := systemPrompt + LevelNote(userLevel.value);
      AppendEnds(systemPrompt, LevelNote(userLevel.value));
    }
    if mode.Some? && mode.value != [] {
      AppendEnds(withLevel, ModeNote(mode.value));
    }
  }

  /** What is sent to `anthropic.messages.create`. */
  datatype ModelRequest = ModelRequest(model: string, maxTokens: int, system: string, messages: seq<ModelMessage>)

  /** The first content block of a reply is text or something else. */
  datatype ContentBlock = TextBlock(text: string) | OtherBlock

  /** The model's reply, or the error the client library throws. */
  datatype ModelReply = Content(blocks: seq<ContentBlock>) | ApiFailure(message: string)

  type Model = ModelRequest -> ModelReply

  /** The parsed request body. */
  datatype ChatRequest = ChatRequest(
    message: string,
    messages: Option<seq<Message>>,
    userLevel: Option<string>,
    mode: Option<string>)

  /** Why a request ended in status 500. */
  datatype Failure =
    | UnreadableBody       // `request.json()` threw
    | MissingHistory       // `messages` was absent, so `messages.slice` threw
    | ApiError(message: string)
    | EmptyContent         // the reply had no content block to read

  datatype ReplyBody =
    | Answer(response: string)
    | TooManyRequests
    | Failed(details: Option<Failure>)

  /** `NextResponse.json(body, { status })`. */
  datatype HttpReply = HttpReply(status: nat, body: ReplyBody)

  function BuildModelRequest(systemPrompt: string, body: ChatRequest, history: seq<Message>): ModelRequest
  {
    ModelRequest(MODEL, MAX_TOKENS, ContextualPrompt(systemPrompt, body.userLevel, body.mode),
      ModelConversation(history, body.message))
  }

  /** A 500 reply, with details only in development. */
  function FailureReply(cause: Failure, development: bool): HttpReply
  {
    HttpReply(500, Failed(if development then Some(cause) else None))
  }

  /** The reply once the rate check has passed. */
  function Answering(systemPrompt: string, body: Option<ChatRequest>, model: Model, development: bool): HttpReply
  {
    match body
    case None => FailureReply(UnreadableBody, development)
    case Some(req) =>
      match req.messages
      case None => FailureReply(MissingHistory, development)
      case Some(history) =>
        match model(BuildModelRequest(systemPrompt, req, history))
        case ApiFailure(msg) => FailureReply(ApiError(msg), development)
        case Content(blocks) =>
          if blocks == [] then FailureReply(EmptyContent, development)
          else HttpReply(200, Answer(match blocks[0] case TextBlock(text) => text case OtherBlock => ""))
  }

  /** `POST(request)`: the reply and the new rate table. */
  function Post(t: RateTable, h: Headers, now: int, systemPrompt: string, body: Option<ChatRequest>,
                model: Model, development: bool): (HttpReply, RateTable)
  {
    var (allowed, t1) := Check(t, RateLimitKey(h), now);
    if !allowed then (HttpReply(429, TooManyRequests), t1)
    else (Answering(systemPrompt, body, model, development), t1)
  }

  /**
   * A denied request is answered 429 before its body is read or the model
   * called: the reply and the table are the same whatever the body and the model.
   */
  lemma DeniedBeforeBody(t: RateTable, h: Headers, now: int, systemPrompt: string,
                         body1: Option<ChatRequest>, body2: Option<ChatRequest>,
                         model1: Model, model2: Model, development: bool)
    requires !Check(t, RateLimitKey(h), now).0
    ensures Post(t, h, now, systemPrompt, body1, model1, development) == (HttpReply(429, TooManyRequests), t)
    ensures Post(t, h, now, systemPrompt, body1, model1, development)
      == Post(t, h, now, systemPrompt, body2, model2, development)
  {
  }

  /**
   * A 200 reply carries the text of the first content block (or nothing when
   * that block is not text) of the model's answer to the shaped request.
   */
  lemma AnsweredFromModel(t: RateTable, h: Headers, now: int, systemPrompt: string, body: Option<ChatRequest>,
                          model: Model, development: bool)
    requires Post(t, h, now, systemPrompt, body, model, development).0.status == 200
    ensures Check(t, RateLimitKey(h), now).0
    ensures body.Some? && body.value.messages.Some?
    ensures var reply := model(BuildModelRequest(systemPrompt, body.value, body.value.messages.value));
      reply.Content? && reply.blocks != []
      && Post(t, h, now, systemPrompt, body, model, development).0.body
         == Answer(match reply.blocks[0] case TextBlock(text) => text case OtherBlock => "")
  {
  }

  /** Every reply has status 200, 429 or 500, and only a 500 outside development hides its cause. */
  lemma PostStatuses(t: RateTable, h: Headers, now: int, systemPrompt: string, body: Option<ChatRequest>,
                     model: Model, development: bool)
    ensures StatusFitsBody(Post(t, h, now, systemPrompt, body, model, development).0, development)
  {
    var (allowed, _) := Check(t, RateLimitKey(h), now);
    if allowed {
      AnsweringStatuses(systemPrompt, body, model, development);
    }
  }

  /**
   * 200 goes with an answer, 429 with the rate-limit message, 500 with a
   * failure, and a failure carries details exactly in development.
   */
  predicate StatusFitsBody(r: HttpReply, development: bool)
  {
    (r.status == 200 <==> r.body.Answer?) && (r.status == 429 <==> r.body.TooManyRequests?)
    && (r.status == 500 <==> r.body.Failed?)
    && (r.body.Failed? ==> (r.body.details.Some? <==> development))
  }

  /** Every reply once the rate check has passed fits its status. */
  lemma AnsweringStatuses(systemPrompt: string, body: Option<ChatRequest>, model: Model, development: bool)
    ensures StatusFitsBody(Answering(systemPrompt, body, model, development), development)
  {
    if body.Some? && body.value.messages.Some? {
      var req := body.value;
      match model(BuildModelRequest(systemPrompt, req, req.messages.value))
      case ApiFailure(msg) => FailureFits(ApiError(msg), development);
      case Content(blocks) => if blocks == [] { FailureFits(EmptyContent, development); }
    } else if body.Some? {
      FailureFits(MissingHistory, development);
    } else {
      FailureFits(UnreadableBody, development);
    }
  }

  /** A failure reply fits its status. */
  lemma FailureFits(cause: Failure, development: bool)
    ensures StatusFitsBody(FailureReply(cause, development), development)
  {
  }


  /* ---------------------------------------------------------------------- */
  /* The server object                                                       */
  /* ---------------------------------------------------------------------- */

  /** The route module's state: the in-memory `rateLimitMap`. */
  class ChatServer {
    var rateLimits: RateTable

    constructor()
      ensures rateLimits == map[]
    {
      rateLimits := map[];
    }

    /** `checkRateLimit(key)`: restarts, denies, or counts the request in place. */
    method CheckRateLimit(key: string, now: int) returns (allowed: bool)
      modifies this
      ensures (allowed, rateLimits) == Check(old(rateLimits), key, now)
    {
      if key !in rateLimits || now > rateLimits[key].resetTime {
        rateLimits := rateLimits[key := RateRecord(1, now + WINDOW_MS)];
        return true;
      }
      var record := rateLimits[key];
      if record.count >= MAX_REQUESTS {
        return false;
      }
      rateLimits := rateLimits[key := record.(count := record.count + 1)];
      return true;
    }

    /** `POST(request)`. */
    method HandlePost(h: Headers, now: int, systemPrompt: string, body: Option<ChatRequest>,
                      model: Model, development: bool) returns (reply: HttpReply)
      modifies this
      ensures (reply, rateLimits) == Post(old(rateLimits), h, now, systemPrompt, body, model, development)
    {
      var key := RateLimitKey(h);
      var allowed := CheckRateLimit(key, now);
      if !allowed {
        return HttpReply(429, TooManyRequests);
      }
      reply := Answering(systemPrompt, body, model, development);
    }
  }
}
