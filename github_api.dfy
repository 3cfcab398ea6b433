/** The GitHub client's policy, as pure functions: what `apiCall` does with
    each HTTP response (succeed, wait out the rate limit, back off and retry,
    or fail), the retry loop that results, how `getFileContent` turns the
    outcome into a file or `null`, and the request bodies the client builds.
    The requests themselves go to the repository modelled in `GitStore`. */
module GitHubApi {
  import opened Common
  import opened Js
  import opened Documents

  const MaxRetries: nat := 5
  const RetryBaseDelay: nat := 1500
  const BackoffFactor: nat := 2

  /** An opaque git object id (blob, tree or commit). */
  datatype Sha = Sha(id: nat)

  /** The parts of an HTTP response `apiCall` looks at. `rateLimitReset` is
      `None` when the `x-ratelimit-reset` header is absent or empty, and
      otherwise its value in seconds. */
  datatype Response = Response(
    status: int,
    rateLimitRemaining: Option<string>,
    rateLimitReset: Option<int>,
    body: string)

  /** Errors that reach a caller: an HTTP status with the body text, or a
      failure below HTTP (the connection, JSON parsing). */
  datatype ApiError = HttpError(status: int, body: string) | NetworkError(message: string)

  /** `error.message` */
  function ErrorMessage(e: ApiError): string {
    match e
    case HttpError(status, body) => "GitHub API Error: " + IntToString(status) + " - " + body
    case NetworkError(m) => m
  }

  /** A successful result: `{}` for an empty body, otherwise `JSON.parse` of
      the body text (left opaque). */
  datatype Parsed = EmptyObject | JsonOf(text: string)

  /** What `apiCall` does with one response at a given attempt number. */
  datatype Decision =
    | Succeed(body: Parsed)
    | RateLimitWait(waitMs: int, attempt: int)
    | BackoffRetry(waitMs: int, attempt: int)
    | Fail(error: ApiError)

  /** `res.ok` */
  predicate IsOk(status: int) {
    200 <= status <= 299
  }

  /** The retriable test as the client writes it. */
  predicate Retriable(status: int) {
    status >= 500 || status in [502, 503, 429]
  }

  /** `RETRY_BASE_DELAY * Math.pow(BACKOFF_FACTOR, attempt - 1)` */
  function BackoffDelay(attempt: int): int
    requires attempt >= 1
  {
    RetryBaseDelay * Power(BackoffFactor, attempt - 1)
  }

  /** The decision for one response. A 2xx succeeds, with `{}` for an empty
      body; a 403 carrying a zero remaining quota and a reset time waits until
      one second after the reset (never less than one second) and retries at
      the same attempt; a status of at least 500, or 429, backs off
      1500 * 2^(attempt-1) ms and retries at the next attempt while the attempt
      is below 5; everything else fails with the status and body. */
  function Decide(res: Response, now: int, attempt: int): (d: Decision)
    requires attempt >= 1
    ensures d.Succeed? <==> IsOk(res.status)
    ensures d.Succeed? ==> d.body == (if res.body == "" then EmptyObject else JsonOf(res.body))
    ensures d.RateLimitWait? <==>
      res.status == 403 && res.rateLimitRemaining == Some("0") && res.rateLimitReset.Some?
    ensures d.RateLimitWait? ==>
      d.attempt == attempt && d.waitMs >= 1000
      && d.waitMs == Max(0, res.rateLimitReset.value * 1000 - now) + 1000
    ensures d.BackoffRetry? <==> (res.status >= 500 || res.status == 429) && attempt < MaxRetries
    ensures d.BackoffRetry? ==> d.attempt == attempt + 1 && d.waitMs == 1500 * Power(2, attempt - 1)
    ensures d.Fail? ==> d.error == HttpError(res.status, res.body)
  {
    if IsOk(res.status) then
      Succeed(if res.body == "" then EmptyObject else JsonOf(res.body))
    else if res.status == 403 && res.rateLimitRemaining == Some("0") && res.rateLimitReset.Some? then
      RateLimitWait(Max(0, res.rateLimitReset.value * 1000 - now) + 1000, attempt)
    else if Retriable(res.status) && attempt < MaxRetries then
      BackoffRetry(BackoffDelay(attempt), attempt + 1)
    else
      Fail(HttpError(res.status, res.body))
  }

  // ---------------------------------------------------------------------------
  // The retry loop
  // ---------------------------------------------------------------------------

  /** One answered request: the response and the clock reading when it was
      examined. */
  datatype Exchange = Exchange(response: Response, now: int)

  datatype Pause = RateLimitPause(ms: int) | BackoffPause(ms: int)

  /** How a call ended: its result (`None` when the responses ran out, i.e. the
      outcome is beyond what is modelled), how many requests it sent, and the
      pauses between them in order. */
  datatype CallOutcome = CallOutcome(result: Option<Result<Parsed, ApiError>>, requests: nat, pauses: seq<Pause>)

  /** `apiCall(endpoint, options, attempt)` when the server answers the
      successive requests with `script`. Each pause is followed by one more
      request, so the requests are the pauses plus the final one. */
  function ApiCall(script: seq<Exchange>, attempt: int): (o: CallOutcome)
    requires attempt >= 1
    ensures o.requests == |o.pauses| + (if o.result.Some? then 1 else 0)
    ensures o.requests <= |script|
    decreases |script|
  {
    if script == [] then CallOutcome(None, 0, [])
    else
      match Decide(script[0].response, script[0].now, attempt)
      case Succeed(body) => CallOutcome(Some(Ok(body)), 1, [])
      case Fail(e) => CallOutcome(Some(Err(e)), 1, [])
      case RateLimitWait(ms, a) =>
        var rest := ApiCall(script[1..], a);
        CallOutcome(rest.result, rest.requests + 1, [RateLimitPause(ms)] + rest.pauses)
      case BackoffRetry(ms, a) =>
        var rest := ApiCall(script[1..], a);
        CallOutcome(rest.result, rest.requests + 1, [BackoffPause(ms)] + rest.pauses)
  }

  function BackoffCount(ps: seq<Pause>): nat {
    if ps == [] then 0 else (if ps[0].BackoffPause? then 1 else 0) + BackoffCount(ps[1..])
  }

  function RateLimitCount(ps: seq<Pause>): nat {
    if ps == [] then 0 else (if ps[0].RateLimitPause? then 1 else 0) + RateLimitCount(ps[1..])
  }

  function TotalBackoff(ps: seq<Pause>): int {
    if ps == [] then 0 else (if ps[0].BackoffPause? then ps[0].ms else 0) + TotalBackoff(ps[1..])
  }

  /** The retry budget from any attempt up to the fifth: at most 5 - attempt
      backoff pauses, a total backoff of at most the remaining terms of
      1500, 3000, 6000, 12000, and at most 6 - attempt requests that were not
      followed by a rate-limit pause. Rate-limit pauses are not bounded. */
  lemma {:induction false} RetryBudget(script: seq<Exchange>, attempt: int)
    requires 1 <= attempt <= MaxRetries
    ensures BackoffCount(ApiCall(script, attempt).pauses) <= MaxRetries - attempt
    ensures TotalBackoff(ApiCall(script, attempt).pauses)
         <= RetryBaseDelay * (Power(2, MaxRetries - 1) - Power(2, attempt - 1))
    ensures ApiCall(script, attempt).requests - RateLimitCount(ApiCall(script, attempt).pauses)
         <= MaxRetries - attempt + 1
    decreases |script|
  {
    PowerOfTwoBound(attempt - 1);
    if script != [] {
      var d := Decide(script[0].response, script[0].now, attempt);
      var o := ApiCall(script, attempt);
      match d
      case Succeed(_) =>
      case Fail(_) =>
      case RateLimitWait(ms, a) =>
        RetryBudget(script[1..], a);
        var rest := ApiCall(script[1..], a);
        assert o.pauses == [RateLimitPause(ms)] + rest.pauses;
        assert o.pauses[1..] == rest.pauses;
      case BackoffRetry(ms, a) =>
        RetryBudget(script[1..], a);
        var rest := ApiCall(script[1..], a);
        assert o.pauses == [BackoffPause(ms)] + rest.pauses;
        assert o.pauses[1..] == rest.pauses;
        assert Power(2, a - 1) == 2 * Power(2, attempt - 1);
    }
  }

  lemma PowerOfTwoBound(k: nat)
    requires k <= 4
    ensures Power(2, k) <= 16
  {
    assert Power(2, 1) == 2 && Power(2, 2) == 4 && Power(2, 3) == 8 && Power(2, 4) == 16;
  }

  /** A call started at attempt 1 backs off at most four times, for at most
      1500 + 3000 + 6000 + 12000 = 22500 ms in total, and ignoring the
      requests that ran into the rate limit it sends at most five requests. */
  lemma FirstAttemptBudget(script: seq<Exchange>)
    ensures BackoffCount(ApiCall(script, 1).pauses) <= 4
    ensures TotalBackoff(ApiCall(script, 1).pauses) <= 22500
    ensures ApiCall(script, 1).requests - RateLimitCount(ApiCall(script, 1).pauses) <= 5
  {
    RetryBudget(script, 1);
    assert Power(2, 4) == 16;
  }

  /** A server that keeps answering with a retriable status exhausts the
      attempts: the call fails with the status and body of the last answer,
      after 6 - attempt requests and 5 - attempt backoff pauses. */
  lemma {:induction false} PersistentFailureExhaustsRetries(script: seq<Exchange>, attempt: int)
    requires 1 <= attempt <= MaxRetries
    requires |script| >= MaxRetries - attempt + 1
    requires forall i :: 0 <= i <= MaxRetries - attempt ==>
      (script[i].response.status >= 500 || script[i].response.status == 429)
    ensures ApiCall(script, attempt).result
         == Some(Err(HttpError(script[MaxRetries - attempt].response.status,
                               script[MaxRetries - attempt].response.body)))
    ensures ApiCall(script, attempt).requests == MaxRetries - attempt + 1
    ensures BackoffCount(ApiCall(script, attempt).pauses) == MaxRetries - attempt
    decreases MaxRetries - attempt
  {
    if attempt < MaxRetries {
      PersistentFailureExhaustsRetries(script[1..], attempt + 1);
      var o := ApiCall(script, attempt);
      var rest := ApiCall(script[1..], attempt + 1);
      assert o.pauses == [BackoffPause(BackoffDelay(attempt))] + rest.pauses;
      assert o.pauses[1..] == rest.pauses;
    }
  }

  /** Rate-limit waits do not use up attempts: after any number of
      rate-limited answers (more than five included), a success still
      succeeds, with one rate-limit pause per rate-limited answer. */
  lemma {:induction false} RateLimitsDoNotConsumeAttempts(script: seq<Exchange>, attempt: int, k: nat)
    requires attempt >= 1
    requires k < |script|
    requires forall i :: 0 <= i < k ==>
      script[i].response.status == 403
      && script[i].response.rateLimitRemaining == Some("0")
      && script[i].response.rateLimitReset.Some?
    requires IsOk(script[k].response.status)
    ensures ApiCall(script, attempt).result.Some?
    ensures ApiCall(script, attempt).result.value.Ok?
    ensures ApiCall(script, attempt).requests == k + 1
    ensures RateLimitCount(ApiCall(script, attempt).pauses) == k
    decreases k
  {
    if k > 0 {
      RateLimitsDoNotConsumeAttempts(script[1..], attempt, k - 1);
      var o := ApiCall(script, attempt);
      var rest := ApiCall(script[1..], attempt);
      assert o.pauses[1..] == rest.pauses;
    }
  }

  /** The message of an HTTP error names its status. */
  lemma ErrorMessageNamesStatus(status: int, body: string)
    ensures Contains(ErrorMessage(HttpError(status, body)), IntToString(status))
  {
    ContainsMiddle("GitHub API Error: ", IntToString(status), " - " + body);
    assert "GitHub API Error: " + IntToString(status) + " - " + body
        == "GitHub API Error: " + IntToString(status) + (" - " + body);
  }

  // ---------------------------------------------------------------------------
  // getFileContent
  // ---------------------------------------------------------------------------

  /** The fields of a contents-API answer that `getFileContent` reads;
      `content` is `None` when the answer has no content field. */
  datatype ContentsBody = ContentsBody(content: Option<Base64>, sha: Sha, path: string, name: string)

  /** What `getFileContent` returns when it does not throw, without the
      `name` it passes through from the answer, which no caller reads. */
  datatype FileInfo = FileInfo(content: Content, sha: Sha, path: string)

  /** `getFileContent` given the outcome of its one `apiCall`: a failure whose
      message contains "404" is `null`, any other failure is thrown again, an
      answer with missing or empty content is `null`, and otherwise the
      decoded content is returned with the sha and path. */
  function FileContentResult(call: Result<ContentsBody, ApiError>): (f: Result<Option<FileInfo>, ApiError>)
    ensures call.Err? ==> (f == Ok(None) <==> Contains(ErrorMessage(call.error), "404"))
    ensures call.Err? && !Contains(ErrorMessage(call.error), "404") ==> f == Err(call.error)
    ensures call.Ok? ==> f.Ok?
    ensures call.Ok? ==>
      (f.value.Some? <==> call.value.content.Some? && !Base64IsEmpty(call.value.content.value))
    ensures f.Ok? && f.value.Some? ==>
      call.Ok? && call.value.content.Some?
      && f.value.value == FileInfo(DecodeBase64(call.value.content.value), call.value.sha, call.value.path)
  {
    match call
    case Err(e) => if Contains(ErrorMessage(e), "404") then Ok(None) else Err(e)
    case Ok(body) =>
      if body.content.Some? && !Base64IsEmpty(body.content.value) then
        Ok(Some(FileInfo(DecodeBase64(body.content.value), body.sha, body.path)))
      else
        Ok(None)
  }

  /** A 404 answer means the file is absent, not an error. */
  lemma NotFoundIsNull(body: string)
    ensures FileContentResult(Err(HttpError(404, body))) == Ok(None)
  {
    ErrorMessageNamesStatus(404, body);
    assert IntToString(404) == "404";
  }

  /** A 500 answer is thrown on to the caller, provided its body text does
      not contain a '4' (which could spell "404"). */
  lemma ServerErrorPropagates(body: string)
    requires '4' !in body
    ensures FileContentResult(Err(HttpError(500, body))) == Err(HttpError(500, body))
  {
    assert NatToString(50) == NatToString(5) + [DigitChar(0)];
    assert IntToString(500) == NatToString(50) + [DigitChar(0)];
    assert IntToString(500) == "500";
    var m := ErrorMessage(HttpError(500, body));
    assert m == "GitHub API Error: " + "500" + " - " + body;
    assert '4' !in "GitHub API Error: " + "500" + " - ";
    assert '4' !in m;
    NoLeadingCharNoContains(m, "404");
  }

  lemma {:induction false} NoLeadingCharNoContains(s: string, sub: string)
    requires sub != [] && sub[0] !in s
    ensures !Contains(s, sub)
    decreases |s|
  {
    if s != [] {
      assert s[1..] == s[1..];
      assert forall x :: x in s[1..] ==> x in s;
      NoLeadingCharNoContains(s[1..], sub);
    }
  }

  /** As written, the "404" test reads the whole message, so a server error
      whose body text mentions 404 is also taken to mean "no such file". */
  lemma ServerErrorMentioning404IsNull(status: int, body: string)
    requires Contains(body, "404")
    ensures FileContentResult(Err(HttpError(status, body))) == Ok(None)
  {
    var pre := "GitHub API Error: " + IntToString(status) + " - ";
    assert ErrorMessage(HttpError(status, body)) == pre + body;
    ContainsAfterPrefix(pre, body, "404");
  }

  lemma {:induction false} ContainsAfterPrefix(pre: string, s: string, sub: string)
    requires Contains(s, sub)
    ensures Contains(pre + s, sub)
    decreases |pre|
  {
    if pre != [] {
      assert (pre + s)[1..] == pre[1..] + s;
      ContainsAfterPrefix(pre[1..], s, sub);
    } else {
      assert pre + s == s;
    }
  }

  // ---------------------------------------------------------------------------
  // Request bodies
  // ---------------------------------------------------------------------------

  /** The JSON body of a contents-API PUT. */
  datatype PutBody = PutBody(message: string, content: Base64, sha: Option<Sha>)

  /** `createOrUpdateFile`'s body: the message, the base64 content, and the
      sha only when one was passed. */
  function PutRequestBody(content: Content, message: string, sha: Option<Sha>): (b: PutBody)
    ensures DecodeBase64(b.content) == content
    ensures b.message == message
    ensures b.sha.Some? <==> sha.Some?
    ensures sha.Some? ==> b.sha == sha
  {
    PutBody(message, EncodeBase64(content), sha)
  }

  /** `isBinaryContent`: everything that is not a string, and every string
      holding a NUL character. */
  function IsBinaryContent(v: JsValue): bool {
    if !v.Str? then true else '\0' in v.s
  }

  /** The binary test applied to a file's text. `JSON.stringify` escapes
      control characters, so the text of an index document is never binary. */
  function ContentIsBinary(c: Content): bool {
    match c
    case Text(s) => IsBinaryContent(Str(s))
    case IndexJson(_) => false
  }

  /** The payload of a blob-creation request. */
  datatype BlobPayload = Verbatim(content: Content) | Base64Text(encoded: Base64)

  datatype BlobBody = BlobBody(payload: BlobPayload, encoding: string)

  /** The blob request for one file: binary content goes as base64 with
      encoding "base64", anything else verbatim with encoding "utf-8"; both
      carry the file's content. */
  function BlobRequestBody(c: Content): (b: BlobBody)
    ensures ContentIsBinary(c) ==> b == BlobBody(Base64Text(EncodeBase64(c)), "base64")
    ensures !ContentIsBinary(c) ==> b == BlobBody(Verbatim(c), "utf-8")
    ensures BlobContent(b) == c
  {
    if ContentIsBinary(c) then BlobBody(Base64Text(EncodeBase64(c)), "base64")
    else BlobBody(Verbatim(c), "utf-8")
  }

  /** The content GitHub stores for a blob request. */
  function BlobContent(b: BlobBody): Content {
    match b.payload
    case Verbatim(c) => c
    case Base64Text(e) => DecodeBase64(e)
  }
}
