/** Requests to providers: which failures are retried, how often, and after what waits. */
module HttpRetry {
  import opened Prelude
  import opened Text

  datatype Code =
    | TIMEOUT | UNAVAILABLE | AUTHENTICATION | VALIDATION | REJECTION | NOT_FOUND | RATE_LIMIT | CONFIGURATION | UNKNOWN

  /** A JavaScript error. An absent status is 0, which the code treats as no status; an absent string is empty. */
  datatype Failure =
    | Integration(code: Code, statusCode: int)
    | App(message: string, appCode: string, statusCode: int)
    | Raw(name: string, message: string, errno: string, status: int)

  // ---- classification ----

  predicate RetryableStatus(status: int) {
    status == 408 || status == 429 || status == 502 || status == 503 || status == 504
  }

  /** `IntegrationError.isRetryable`. */
  predicate IntegrationRetryable(code: Code, statusCode: int) {
    if code in {VALIDATION, AUTHENTICATION, CONFIGURATION, NOT_FOUND, REJECTION} then false
    else if 400 <= statusCode < 500 && statusCode != 408 && statusCode != 429 then false
    else code == TIMEOUT || code == UNAVAILABLE || statusCode == 429 || statusCode == 408 || statusCode >= 500
  }

  predicate RetryableError(e: Failure) {
    match e
    case Integration(code, statusCode) => IntegrationRetryable(code, statusCode)
    case App(message, appCode, statusCode) =>
      Contains(Lower(message), "timeout") || appCode == "ECONNREFUSED" || appCode == "ENOTFOUND"
      || (statusCode != 0 && RetryableStatus(statusCode))
    case Raw(name, message, errno, status) =>
      Contains(Lower(message), "timeout") || name == "AbortError" || errno == "ECONNREFUSED" || errno == "ENOTFOUND"
      || (status != 0 && RetryableStatus(status))
  }

  function StatusCodeOf(status: int): Code {
    if status == 408 || status == 504 then TIMEOUT
    else if status == 429 then RATE_LIMIT
    else if status == 401 || status == 403 then AUTHENTICATION
    else if status == 404 then NOT_FOUND
    else if status == 400 || status == 422 then VALIDATION
    else if status >= 500 then UNAVAILABLE
    else REJECTION
  }

  predicate TimeoutLike(name: string, message: string, errno: string) {
    name == "AbortError" || Contains(Lower(message), "abort") || Contains(Lower(message), "timeout")
        || errno == "ETIMEDOUT"
  }

  predicate NetworkLike(message: string, errno: string) {
    errno == "ECONNREFUSED" || errno == "ENOTFOUND" || Contains(message, "fetch failed") || Contains(message, "Network")
  }

  /** `normalizeProviderError`: the application's own errors pass through. An empty message reads "Provider error". */
  function Normalize(e: Failure): Failure {
    match e
    case Integration(_, _) => e
    case App(_, _, _) => e
    case Raw(name, message, errno, status) =>
      var msg := if message == "" then "Provider error" else message;
      if TimeoutLike(name, msg, errno) then Integration(TIMEOUT, 504)
      else if NetworkLike(msg, errno) then Integration(UNAVAILABLE, 502)
      else if status != 0 then Integration(StatusCodeOf(status), if 400 <= status < 600 then status else 502)
      else Integration(UNKNOWN, 502)
  }

  /** The error for a response that is not ok. */
  function StatusError(status: int): Failure {
    Integration(if status == 429 then RATE_LIMIT
                else if status == 404 then NOT_FOUND
                else if status == 401 || status == 403 then AUTHENTICATION
                else if status >= 500 then UNAVAILABLE
                else REJECTION, status)
  }

  // ---- one attempt ----

  datatype Attempt = Responded(status: int) | Threw(error: Failure)

  /** `fetchWithTimeout`: a response passes through, an abort becomes a timeout, other errors are normalised. */
  function Fetched(a: Attempt): Attempt {
    match a
    case Responded(_) => a
    case Threw(e) => if e.Raw? && e.name == "AbortError" then Threw(Integration(TIMEOUT, 504)) else Threw(Normalize(e))
  }

  predicate Successful(status: int) {
    200 <= status < 300
  }

  /** The attempt is worth another one. */
  predicate Retries(a: Attempt) {
    match Fetched(a)
    case Responded(status) => !Successful(status) && (RetryableStatus(status) || RetryableError(StatusError(status)))
    case Threw(e) => RetryableError(Normalize(e))
  }

  datatype Outcome = Returned(status: int) | Thrown(error: Failure) | ThrownNull

  /** What the caller sees when this attempt is the last. */
  function Final(a: Attempt): Outcome {
    match Fetched(a)
    case Responded(status) => if Successful(status) then Returned(status) else Thrown(StatusError(status))
    case Threw(e) => Thrown(Normalize(e))
  }

  function Triangle(n: nat): nat {
    if n == 0 then 0 else Triangle(n - 1) + n
  }

  lemma {:induction false} TriangleIs(n: nat)
    ensures 2 * Triangle(n) == n * (n + 1)
  {
    if n > 0 {
      TriangleIs(n - 1);
    }
  }

  lemma NextWait(delay: int, n: nat)
    requires n >= 1
    ensures delay * Triangle(n) == delay * Triangle(n - 1) + delay * n
  {
  }

  lemma TotalWait(delay: int, n: nat)
    ensures 2 * (delay * Triangle(n)) == delay * ((n + 1) * n)
  {
    TriangleIs(n);
    assert 2 * (delay * Triangle(n)) == delay * (2 * Triangle(n));
  }

  /** `attempts(k)` is what the k-th request would meet. A call that is not idempotent is sent once and never waits. An
    * idempotent one is sent up to the first attempt that is not worth retrying, or retries + 1 times; the last attempt
    * is reported, and the waits between are delay, 2 * delay, and so on. With less than no retries nothing is sent and
    * the null `lastError` is thrown. */
  method RequestWithRetry(attempts: nat -> Attempt, retries: int, retryDelayMs: int, idempotent: bool)
    returns (outcome: Outcome, sent: nat, waited: int, retryCount: nat)
    ensures !idempotent ==> sent == 1 && waited == 0 && retryCount == 0
    ensures idempotent && retries >= 0 ==> 1 <= sent <= retries + 1 && (sent == retries + 1 || !Retries(attempts(sent)))
    ensures idempotent && retries < 0 ==> outcome == ThrownNull && sent == 0 && waited == 0 && retryCount == 0
    ensures sent > 0 ==>
              && (forall k | 1 <= k < sent :: Retries(attempts(k)))
              && outcome == Final(attempts(sent))
              && 2 * waited == retryDelayMs * (sent * (sent - 1)) && retryCount == sent - 1
  {
    var lastError: Option<Failure> := None;
    var maxAttempts := if idempotent then retries + 1 else 1;
    sent, waited, retryCount := 0, 0, 0;
    var attempt: nat := 1;
    while attempt <= maxAttempts
      invariant sent == retryCount == attempt - 1
      invariant waited == retryDelayMs * Triangle(attempt - 1)
      invariant 1 <= attempt && (attempt > 1 ==> attempt <= maxAttempts)
      invariant forall k | 1 <= k < attempt :: Retries(attempts(k))
      invariant maxAttempts <= 0 ==> lastError.None?
      decreases maxAttempts - attempt
    {
      var thrown: Failure;
      sent := sent + 1;
      NextWait(retryDelayMs, attempt);
      TotalWait(retryDelayMs, attempt - 1);
      // try
      match Fetched(attempts(attempt)) {
        case Responded(status) =>
          if Successful(status) {
            return Returned(status), sent, waited, retryCount;
          }
          if RetryableStatus(status) && attempt < maxAttempts {
            waited := waited + retryDelayMs * attempt;
            retryCount, attempt := retryCount + 1, attempt + 1;
            continue;
          }
          var err := StatusError(status);
          if RetryableError(err) && idempotent && attempt < maxAttempts {
            waited := waited + retryDelayMs * attempt;
            retryCount, attempt := retryCount + 1, attempt + 1;
            continue;
          }
          thrown := err;
          // the catch below never retries what was thrown here
          assert !RetryableError(Normalize(err)) || !idempotent || attempt >= maxAttempts;
        case Threw(e) =>
          thrown := e;
      }
      // catch
      var normal := Normalize(thrown);
      lastError := Some(normal);
      if !RetryableError(normal) || !idempotent || attempt >= maxAttempts {
        return Thrown(normal), sent, waited, retryCount;
      }
      waited := waited + retryDelayMs * attempt;
      retryCount, attempt := retryCount + 1, attempt + 1;
    }
    return if lastError.Some? then Thrown(lastError.value) else ThrownNull, sent, waited, retryCount;
  }

  // ---- what is retried ----

  /** Two different tests look at a response; together they retry exactly 408, 429 and every status from 500. */
  lemma RetriedStatuses(status: int)
    ensures Retries(Responded(status)) <==> status == 408 || status == 429 || status >= 500
  {
  }

  /** Of the errors `fetch` throws, everything is retried but a status that says the request itself is at fault. */
  lemma RetriedErrors(name: string, message: string, errno: string, status: int)
    ensures var msg := if message == "" then "Provider error" else message;
            Retries(Threw(Raw(name, message, errno, status)))
            <==> TimeoutLike(name, msg, errno) || NetworkLike(msg, errno)
                 || status == 0 || status == 408 || status == 429 || status >= 500
  {
  }

  /** Of the provider errors those are retried whose code does not blame the request and whose status says that the
    * provider was busy, slow or broken; without such a status, a timeout or an outage. Other errors of the application
    * are retried for five statuses, two error codes, and a message that speaks of a timeout. */
  lemma RetriedOwnErrors(code: Code, status: int, message: string, appCode: string)
    ensures Retries(Threw(Integration(code, status)))
            <==> && (code.TIMEOUT? || code.UNAVAILABLE? || code.RATE_LIMIT? || code.UNKNOWN?)
                 && (status >= 500 || status == 429 || status == 408
                     || (status < 400 && (code.TIMEOUT? || code.UNAVAILABLE?)))
    ensures Retries(Threw(App(message, appCode, status)))
            <==> status in {408, 429, 502, 503, 504} || appCode in {"ECONNREFUSED", "ENOTFOUND"}
                 || Contains(Lower(message), "timeout")
  {
  }

  /** The error that a response becomes. */
  lemma ResponsesBecome(status: int)
    ensures 200 <= status < 300 ==> Final(Responded(status)) == Returned(status)
    ensures status < 200 || status >= 300 ==>
              && Final(Responded(status)).Thrown? && Final(Responded(status)).error.Integration?
              && Final(Responded(status)).error.statusCode == status
    ensures Final(Responded(429)).error.code == RATE_LIMIT && Final(Responded(404)).error.code == NOT_FOUND
    ensures Final(Responded(401)).error.code == Final(Responded(403)).error.code == AUTHENTICATION
    ensures status >= 500 ==> Final(Responded(status)).error.code == UNAVAILABLE
    ensures status < 200 || (300 <= status < 500 && status !in {401, 403, 404, 429}) ==>
              Final(Responded(status)).error.code == REJECTION
  {
  }

  /** What a thrown error becomes when its name, its number or a word in its message, in any case, tells a timeout, or a
    * word tells an outage. */
  lemma ThrownErrorsBecome(name: string, before: string, word: string, after: string, errno: string, status: int)
    ensures Final(Threw(Raw("AbortError", word, errno, status))) == Thrown(Integration(TIMEOUT, 504))
    ensures Final(Threw(Raw(name, word, "ETIMEDOUT", status))) == Thrown(Integration(TIMEOUT, 504))
    ensures Lower(word) == "timeout" || Lower(word) == "abort" ==>
              Final(Threw(Raw(name, before + word + after, errno, status))) == Thrown(Integration(TIMEOUT, 504))
    ensures errno == "ECONNREFUSED" || errno == "ENOTFOUND" || word == "fetch failed" || word == "Network" ==>
              Final(Threw(Raw(name, before + word + after, errno, status)))
                in {Thrown(Integration(TIMEOUT, 504)), Thrown(Integration(UNAVAILABLE, 502))}
  {
    Holds(before, word, after);
  }

  /** What an error with neither becomes: its status decides, and statuses that are no HTTP errors read 502. */
  lemma StatusesBecome(name: string, message: string, errno: string, status: int)
    requires name != "AbortError" && errno !in {"ETIMEDOUT", "ECONNREFUSED", "ENOTFOUND"}
    requires var msg := if message == "" then "Provider error" else message;
             && !Contains(Lower(msg), "abort") && !Contains(Lower(msg), "timeout")
             && !Contains(msg, "fetch failed") && !Contains(msg, "Network")
    ensures Final(Threw(Raw(name, message, errno, status))).Thrown?
    ensures var e := Final(Threw(Raw(name, message, errno, status))).error;
            && e.Integration?
            && e.statusCode == (if 400 <= status < 600 then status else 502)
            && (e.code == UNKNOWN <==> status == 0)
            && (e.code == TIMEOUT <==> status in {408, 504})
            && (e.code == RATE_LIMIT <==> status == 429)
            && (e.code == AUTHENTICATION <==> status in {401, 403})
            && (e.code == NOT_FOUND <==> status == 404)
            && (e.code == VALIDATION <==> status in {400, 422})
            && (e.code == UNAVAILABLE <==> status >= 500 && status != 504)
            && e.code != CONFIGURATION
  {
  }

  /** What reaches the caller is already normalised: a response, or one of the application's own errors. */
  lemma FinalIsNormal(a: Attempt)
    ensures !Final(a).ThrownNull?
    ensures Final(a).Thrown? ==> !Final(a).error.Raw? && Normalize(Final(a).error) == Final(a).error
    ensures Final(a).Returned? <==> a.Responded? && Successful(a.status)
  {
  }
}
