/** The decisions the DrChrono API client makes around its HTTP calls (src/api.py): the
    retry loop for HTTP 429, the narrowing of patient search results, the per-run caches,
    the pagination of a patient's documents, duplicate detection and the classification
    of an upload. The server's answers are inputs, not requests this model makes. */
module Api {
  import opened Wrappers
  import opened Text
  import opened Types

  // ---------------------------------------------------------------------------
  // Retrying on HTTP 429 (_request_with_retry)
  // ---------------------------------------------------------------------------

  const MaxRetries: nat := 3
  const BackoffBase: nat := 2
  const BackoffMax: real := 30.0
  /** A Retry-After beyond this many seconds is taken for the hourly application limit. */
  const AppLimitSeconds: real := 60.0

  /** A Retry-After header as `float()` reads it. */
  datatype RetryAfter = Seconds(value: real) | Unreadable

  /** The parts of an HTTP response the client looks at. */
  datatype Response = Response(status: int, retryAfter: Option<RetryAfter>, body: string)

  datatype RateLimitError = RateLimitError(message: string, retryAfter: Option<real>, isAppLimit: bool)

  const ExhaustedMessage: string :=
    "DrChrono API rate limit exceeded (HTTP 429). All retries exhausted."
  const AppLimitMessage: string :=
    "DrChrono application rate limit reached (500 requests/hour). Please wait until the top of the hour and try again."

  /** Why a request gave no response. */
  datatype RetryFailure =
    | Limited(error: RateLimitError)
      /** `float()` of a Retry-After that is not a number raises ValueError */
    | HeaderNotNumber
      /** `time.sleep` of a negative duration raises ValueError */
    | NegativeSleep

  function Pow2(k: nat): (r: nat)
    ensures r >= 1
  {
    if k == 0 then 1 else 2 * Pow2(k - 1)
  }

  function Min(a: real, b: real): (m: real)
    ensures m <= a && m <= b && (m == a || m == b)
  {
    if a <= b then a else b
  }

  /** The exponential backoff for an attempt: 2, 4, 8, ... seconds. */
  function Backoff(attempt: nat): real {
    (BackoffBase * Pow2(attempt)) as real
  }

  /** The wait before jitter: the Retry-After seconds when the header reads as a number,
      the exponential backoff otherwise, clamped to BackoffMax. */
  function ClampedWait(h: Option<RetryAfter>, attempt: nat): (w: real)
    ensures w <= BackoffMax
    ensures h.Some? && h.value.Seconds? ==> w == Min(h.value.value, BackoffMax)
    ensures !(h.Some? && h.value.Seconds?) ==> w == Min(Backoff(attempt), BackoffMax) && w > 0.0
  {
    match h
    case Some(Seconds(v)) => Min(v, BackoffMax)
    case _ => Min(Backoff(attempt), BackoffMax)
  }

  /** `is_app_limit`: a Retry-After that reads as more than 60 seconds. */
  predicate IsAppLimit(h: Option<RetryAfter>) {
    h.Some? && h.value.Seconds? && h.value.value > AppLimitSeconds
  }

  /** The error raised once the retries are spent, for the last response's header. */
  function LimitError(h: Option<RetryAfter>): (e: RateLimitError)
    ensures e.isAppLimit <==> IsAppLimit(h)
    ensures e.message == if IsAppLimit(h) then AppLimitMessage else ExhaustedMessage
    ensures e.retryAfter.Some? <==> h.Some? && h.value.Seconds?
    ensures e.retryAfter.Some? ==> e.retryAfter.value == h.value.value
  {
    RateLimitError(
      if IsAppLimit(h) then AppLimitMessage else ExhaustedMessage,
      if h.Some? && h.value.Seconds? then Some(h.value.value) else None,
      IsAppLimit(h))
  }

  /** What one attempt leads to. */
  datatype Step = Return | Give(failure: RetryFailure) | Sleep(seconds: real)

  /** One pass of the loop: a response other than 429 is returned; a 429 on the last
      attempt raises RateLimitError; any other 429 sleeps for the clamped wait plus
      jitter. A Retry-After that is not a number counts as absent: the fallback the
      source's try/except evidently intends. */
  function Decide(r: Response, attempt: nat, jitter: real): (s: Step)
    requires attempt <= MaxRetries
    ensures s.Sleep? ==> attempt < MaxRetries && s.seconds >= 0.0
    ensures s.Sleep? && jitter < 1.0 ==> s.seconds < BackoffMax + 1.0
    ensures s == Return <==> r.status != 429
  {
    if r.status != 429 then Return
    else if attempt == MaxRetries then Give(Limited(LimitError(r.retryAfter)))
    else
      var w := ClampedWait(r.retryAfter, attempt) + jitter;
      if w < 0.0 then Give(NegativeSleep) else Sleep(w)
  }

  /** The pass as written: src/api.py:68 calls `float()` on the header outside the
      try/except, so a 429 with an unreadable Retry-After raises ValueError. */
  function DecideAsWritten(r: Response, attempt: nat, jitter: real): (s: Step)
    requires attempt <= MaxRetries
    ensures r.retryAfter != Some(Unreadable) ==> s == Decide(r, attempt, jitter)
  {
    if r.status == 429 && r.retryAfter == Some(Unreadable) then Give(HeaderNotNumber)
    else Decide(r, attempt, jitter)
  }

  /** The discrepancy: a 429 whose Retry-After is not a number raises, where the
      fallback to exponential backoff was meant. */
  lemma {:induction false} UnreadableHeaderRaises(attempt: nat, jitter: real)
    requires attempt < MaxRetries && 0.0 <= jitter < 1.0
    ensures DecideAsWritten(Response(429, Some(Unreadable), ""), attempt, jitter) == Give(HeaderNotNumber)
    ensures Decide(Response(429, Some(Unreadable), ""), attempt, jitter) ==
      Sleep(Min(Backoff(attempt), BackoffMax) + jitter)
  {
  }

  /** With the fallback, an unreadable Retry-After behaves exactly like no header. */
  lemma {:induction false} UnreadableHeaderIsAbsent(r: Response, attempt: nat, jitter: real)
    requires attempt <= MaxRetries && r.retryAfter == Some(Unreadable)
    ensures Decide(r, attempt, jitter) == Decide(r.(retryAfter := None), attempt, jitter)
  {
  }

  datatype RetryOutcome = Answered(response: Response) | Failed(failure: RetryFailure)

  /** The outcome of the loop, the durations it slept and the requests it sent. */
  datatype RetryRun = RetryRun(outcome: RetryOutcome, sleeps: seq<real>, requests: nat)

  /** One pass of the loop, as written when `asWritten` holds and with the intended
      fallback otherwise. */
  function Pass(asWritten: bool, r: Response, attempt: nat, jitter: real): (s: Step)
    requires attempt <= MaxRetries
    ensures s == Return <==> r.status != 429
    ensures s.Sleep? ==> s == Decide(r, attempt, jitter)
    ensures !asWritten || r.retryAfter != Some(Unreadable) ==> s == Decide(r, attempt, jitter)
    ensures asWritten && r.status == 429 && r.retryAfter == Some(Unreadable) ==> s == Give(HeaderNotNumber)
  {
    if asWritten then DecideAsWritten(r, attempt, jitter) else Decide(r, attempt, jitter)
  }

  /** The run from `attempt` on, given the server's responses and the jitter drawn for
      each attempt. */
  function RetryFrom(responses: seq<Response>, jitters: seq<real>, attempt: nat, asWritten: bool): (run: RetryRun)
    requires attempt <= MaxRetries && |responses| > MaxRetries && |jitters| > MaxRetries
    ensures run.requests == |run.sleeps| + 1
    ensures attempt + run.requests <= MaxRetries + 1
    decreases MaxRetries - attempt
  {
    match Pass(asWritten, responses[attempt], attempt, jitters[attempt])
    case Return => RetryRun(Answered(responses[attempt]), [], 1)
    case Give(f) => RetryRun(Failed(f), [], 1)
    case Sleep(w) =>
      var rest := RetryFrom(responses, jitters, attempt + 1, asWritten);
      RetryRun(rest.outcome, [w] + rest.sleeps, rest.requests + 1)
  }

  predicate JittersInRange(jitters: seq<real>) {
    forall i :: 0 <= i < |jitters| ==> 0.0 <= jitters[i] < 1.0
  }

  /** A 429 whose wait cannot come out negative: the Retry-After is not a negative number. */
  predicate NoNegativeHeader(r: Response) {
    !(r.retryAfter.Some? && r.retryAfter.value.Seconds? && r.retryAfter.value.value < 0.0)
  }

  /** One pass of the loop body of _request_with_retry, in the source's order of
      tests: a response other than 429 is returned; as written, an unreadable
      Retry-After raises at the second `float()`; the last attempt raises
      RateLimitError; a negative wait makes `time.sleep` raise; otherwise it sleeps. */
  method Attempt(resp: Response, attempt: nat, jitter: real, asWritten: bool) returns (step: Step)
    requires attempt <= MaxRetries
    ensures step == Pass(asWritten, resp, attempt, jitter)
  {
    if resp.status != 429 {
      return Return;
    }
    var wait := ClampedWait(resp.retryAfter, attempt) + jitter;
    if asWritten && resp.retryAfter == Some(Unreadable) {
      return Give(HeaderNotNumber);
    }
    if attempt == MaxRetries {
      return Give(Limited(LimitError(resp.retryAfter)));
    }
    if wait < 0.0 {
      return Give(NegativeSleep);
    }
    return Sleep(wait);
  }

  /** _request_with_retry: at most MaxRetries + 1 requests, sleeping between them. With
      `asWritten` the header is converted again outside the try/except (line 68). */
  method RequestWithRetry(responses: seq<Response>, jitters: seq<real>, asWritten: bool) returns (run: RetryRun)
    requires |responses| > MaxRetries && |jitters| > MaxRetries
    ensures run == RetryFrom(responses, jitters, 0, asWritten)
  {
    var sleeps: seq<real> := [];
    var attempt: nat := 0;
    while attempt <= MaxRetries
      invariant attempt <= MaxRetries
      invariant RetryFrom(responses, jitters, 0, asWritten) ==
        After(sleeps, attempt, RetryFrom(responses, jitters, attempt, asWritten))
      decreases MaxRetries - attempt
    {
      var resp := responses[attempt];
      var step := Attempt(resp, attempt, jitters[attempt], asWritten);
      match step
      case Return =>
        return RetryRun(Answered(resp), sleeps, attempt + 1);
      case Give(f) =>
        return RetryRun(Failed(f), sleeps, attempt + 1);
      case Sleep(wait) =>
        AfterSleep(sleeps, attempt, wait, RetryFrom(responses, jitters, attempt + 1, asWritten));
        sleeps := sleeps + [wait];
        attempt := attempt + 1;
    }
    assert false;
  }

  /** A run that had already slept `sleeps` over `attempt` requests before `rest`. */
  function After(sleeps: seq<real>, attempt: nat, rest: RetryRun): RetryRun {
    RetryRun(rest.outcome, sleeps + rest.sleeps, attempt + rest.requests)
  }

  lemma AfterSleep(sleeps: seq<real>, attempt: nat, wait: real, rest: RetryRun)
    ensures After(sleeps, attempt, RetryRun(rest.outcome, [wait] + rest.sleeps, rest.requests + 1)) ==
      After(sleeps + [wait], attempt + 1, rest)
  {
    assert sleeps + ([wait] + rest.sleeps) == (sleeps + [wait]) + rest.sleeps;
  }

  /** A response other than 429 on the first request is returned at once: one
      request, no sleep. */
  lemma {:induction false} RetryFirstAnswer(responses: seq<Response>, jitters: seq<real>, asWritten: bool)
    requires |responses| > MaxRetries && |jitters| > MaxRetries
    requires responses[0].status != 429
    ensures RetryFrom(responses, jitters, 0, asWritten) == RetryRun(Answered(responses[0]), [], 1)
  {
  }

  /** An answered run returns the first response that is not a 429; every response
      before it was a 429. */
  lemma {:induction false} RetryAnswered(responses: seq<Response>, jitters: seq<real>, attempt: nat, asWritten: bool)
    requires attempt <= MaxRetries && |responses| > MaxRetries && |jitters| > MaxRetries
    requires RetryFrom(responses, jitters, attempt, asWritten).outcome.Answered?
    ensures RetryFrom(responses, jitters, attempt, asWritten).outcome.response ==
      responses[attempt + RetryFrom(responses, jitters, attempt, asWritten).requests - 1]
    ensures RetryFrom(responses, jitters, attempt, asWritten).outcome.response.status != 429
    ensures forall k :: attempt <= k < attempt + RetryFrom(responses, jitters, attempt, asWritten).requests - 1 ==>
      responses[k].status == 429
    decreases MaxRetries - attempt
  {
    RetryFromUnfold(responses, jitters, attempt, asWritten);
    var run := RetryFrom(responses, jitters, attempt, asWritten);
    if responses[attempt].status == 429 {
      assert Pass(asWritten, responses[attempt], attempt, jitters[attempt]).Sleep?;
      var rest := RetryFrom(responses, jitters, attempt + 1, asWritten);
      assert run.outcome == rest.outcome && run.requests == rest.requests + 1;
      RetryAnswered(responses, jitters, attempt + 1, asWritten);
    } else {
      assert run == RetryRun(Answered(responses[attempt]), [], 1);
    }
  }

  /** Every sleep lies in [0, BackoffMax + 1) when the jitter lies in [0, 1). */
  lemma {:induction false} RetrySleepsBounded(responses: seq<Response>, jitters: seq<real>, attempt: nat, asWritten: bool)
    requires attempt <= MaxRetries && |responses| > MaxRetries && |jitters| > MaxRetries
    requires JittersInRange(jitters)
    ensures forall k :: 0 <= k < |RetryFrom(responses, jitters, attempt, asWritten).sleeps| ==>
      0.0 <= RetryFrom(responses, jitters, attempt, asWritten).sleeps[k] < BackoffMax + 1.0
    decreases MaxRetries - attempt
  {
    var run := RetryFrom(responses, jitters, attempt, asWritten);
    match Pass(asWritten, responses[attempt], attempt, jitters[attempt])
    case Return =>
    case Give(_) =>
    case Sleep(w) =>
      var next := attempt + 1;
      RetrySleepsBounded(responses, jitters, next, asWritten);
      assert run.sleeps == [w] + RetryFrom(responses, jitters, next, asWritten).sleeps;
  }

  /** RetryFrom one level down: an answer or a failure ends the run, a sleep is
      followed by the run from the next attempt. */
  lemma RetryFromUnfold(responses: seq<Response>, jitters: seq<real>, attempt: nat, asWritten: bool)
    requires attempt <= MaxRetries && |responses| > MaxRetries && |jitters| > MaxRetries
    ensures var s := Pass(asWritten, responses[attempt], attempt, jitters[attempt]);
      var run := RetryFrom(responses, jitters, attempt, asWritten);
      && (s == Return ==> run == RetryRun(Answered(responses[attempt]), [], 1))
      && (s.Give? ==> run == RetryRun(Failed(s.failure), [], 1))
      && (s.Sleep? ==>
            && attempt < MaxRetries
            && var rest := RetryFrom(responses, jitters, attempt + 1, asWritten);
               run == RetryRun(rest.outcome, [s.seconds] + rest.sleeps, rest.requests + 1))
  {
  }

  /** A run in which every attempt before the last sleeps ends with what the last one
      gives, after MaxRetries + 1 - attempt requests. */
  lemma {:induction false} RetrySleepsToLast(responses: seq<Response>, jitters: seq<real>, attempt: nat, asWritten: bool)
    requires attempt <= MaxRetries && |responses| > MaxRetries && |jitters| > MaxRetries
    requires forall k :: attempt <= k < MaxRetries ==> Pass(asWritten, responses[k], k, jitters[k]).Sleep?
    requires Pass(asWritten, responses[MaxRetries], MaxRetries, jitters[MaxRetries]).Give?
    ensures var run := RetryFrom(responses, jitters, attempt, asWritten);
      && run.outcome == Failed(Pass(asWritten, responses[MaxRetries], MaxRetries, jitters[MaxRetries]).failure)
      && run.requests == MaxRetries + 1 - attempt
    decreases MaxRetries - attempt
  {
    RetryFromUnfold(responses, jitters, attempt, asWritten);
    if attempt < MaxRetries {
      assert Pass(asWritten, responses[attempt], attempt, jitters[attempt]).Sleep?;
      RetrySleepsToLast(responses, jitters, attempt + 1, asWritten);
    }
  }

  /** One pass of that run: a 429 whose wait is not negative sleeps, and on the last
      attempt raises RateLimitError for its own header. */
  lemma PersistentPass(r: Response, attempt: nat, jitter: real, asWritten: bool)
    requires attempt <= MaxRetries && r.status == 429 && NoNegativeHeader(r) && 0.0 <= jitter < 1.0
    requires asWritten ==> r.retryAfter != Some(Unreadable)
    ensures attempt < MaxRetries ==> Pass(asWritten, r, attempt, jitter).Sleep?
    ensures attempt == MaxRetries ==> Pass(asWritten, r, attempt, jitter) == Give(Limited(LimitError(r.retryAfter)))
  {
    assert ClampedWait(r.retryAfter, attempt) >= 0.0;
  }

  /** A server that answers 429 to every request, with waits that are never negative,
      gets MaxRetries + 1 requests and MaxRetries sleeps, and the error reports the last
      response's Retry-After. As written this needs every Retry-After to be readable. */
  lemma {:induction false} RetryPersistentLimit(responses: seq<Response>, jitters: seq<real>, attempt: nat, asWritten: bool)
    requires attempt <= MaxRetries && |responses| > MaxRetries && |jitters| > MaxRetries
    requires JittersInRange(jitters)
    requires forall k :: 0 <= k < |responses| ==> responses[k].status == 429 && NoNegativeHeader(responses[k])
    requires asWritten ==> forall k :: 0 <= k < |responses| ==> responses[k].retryAfter != Some(Unreadable)
    ensures RetryFrom(responses, jitters, attempt, asWritten).outcome == Failed(Limited(LimitError(responses[MaxRetries].retryAfter)))
    ensures RetryFrom(responses, jitters, attempt, asWritten).requests == MaxRetries + 1 - attempt
    ensures |RetryFrom(responses, jitters, attempt, asWritten).sleeps| == MaxRetries - attempt
  {
    forall k | attempt <= k <= MaxRetries
      ensures k < MaxRetries ==> Pass(asWritten, responses[k], k, jitters[k]).Sleep?
      ensures k == MaxRetries ==>
        Pass(asWritten, responses[k], k, jitters[k]) == Give(Limited(LimitError(responses[k].retryAfter)))
    {
      PersistentPass(responses[k], k, jitters[k], asWritten);
    }
    RetrySleepsToLast(responses, jitters, attempt, asWritten);
  }

  /** As written, the first unreadable Retry-After of a run of 429s ends the run with
      ValueError: request `a` is the last one sent. */
  lemma {:induction false} RetryUnreadableRaises(responses: seq<Response>, jitters: seq<real>, attempt: nat, a: nat)
    requires attempt <= a <= MaxRetries && |responses| > MaxRetries && |jitters| > MaxRetries
    requires JittersInRange(jitters)
    requires forall k :: attempt <= k < a ==>
      responses[k].status == 429 && NoNegativeHeader(responses[k]) && responses[k].retryAfter != Some(Unreadable)
    requires responses[a].status == 429 && responses[a].retryAfter == Some(Unreadable)
    ensures RetryFrom(responses, jitters, attempt, true).outcome == Failed(HeaderNotNumber)
    ensures RetryFrom(responses, jitters, attempt, true).requests == a + 1 - attempt
    decreases a - attempt
  {
    if attempt < a {
      var next := attempt + 1;
      RetryUnreadableRaises(responses, jitters, next, a);
    }
  }

  /** With the intended fallback no run ends in ValueError from the header. */
  lemma {:induction false} RetryNeverHeaderNotNumber(responses: seq<Response>, jitters: seq<real>, attempt: nat)
    requires attempt <= MaxRetries && |responses| > MaxRetries && |jitters| > MaxRetries
    ensures RetryFrom(responses, jitters, attempt, false).outcome != Failed(HeaderNotNumber)
    decreases MaxRetries - attempt
  {
    if Decide(responses[attempt], attempt, jitters[attempt]).Sleep? {
      var next := attempt + 1;
      RetryNeverHeaderNotNumber(responses, jitters, next);
    }
  }

  /** Where no Retry-After is unreadable, the code as written and the intended loop give
      the same run. */
  lemma {:induction false} RetryAsWrittenAgrees(responses: seq<Response>, jitters: seq<real>, attempt: nat)
    requires attempt <= MaxRetries && |responses| > MaxRetries && |jitters| > MaxRetries
    requires forall k :: 0 <= k < |responses| ==> responses[k].retryAfter != Some(Unreadable)
    ensures RetryFrom(responses, jitters, attempt, true) == RetryFrom(responses, jitters, attempt, false)
    decreases MaxRetries - attempt
  {
    if Decide(responses[attempt], attempt, jitters[attempt]).Sleep? {
      var next := attempt + 1;
      RetryAsWrittenAgrees(responses, jitters, next);
    }
  }

  // ---------------------------------------------------------------------------
  // What a call into the API gives back
  // ---------------------------------------------------------------------------

  /** The exceptions the callers tell apart: RateLimitError, the requests library's
      RequestException (raise_for_status and transport errors), and anything else. */
  datatype ApiError =
    | RateLimit(error: RateLimitError)
    | RequestFailed(message: string)
    | Unexpected(message: string)

  /** A call either returns a value or raises. */
  datatype Called<+T> = Returned(value: T) | Threw(error: ApiError)

  // ---------------------------------------------------------------------------
  // Narrowing the patient search results (find_patient)
  // ---------------------------------------------------------------------------

  /** The elements of s that `keep` accepts, in their order. */
  function Filter(s: seq<PatientRecord>, keep: PatientRecord -> bool): (r: seq<PatientRecord>)
    ensures |r| <= |s|
    ensures forall i :: 0 <= i < |r| ==> r[i] in s && keep(r[i])
    ensures forall p :: p in s && keep(p) ==> p in r
    ensures multiset(r) <= multiset(s)
  {
    if s == [] then []
    else
      var rest := Filter(s[1..], keep);
      assert s == [s[0]] + s[1..];
      if keep(s[0]) then [s[0]] + rest else rest
  }

  /** `x or ""` for an optional argument. */
  function OrEmpty(x: Option<string>): string {
    x.GetOr("")
  }

  /** A Python string is truthy when it is present and non-empty. */
  predicate Truthy(x: Option<string>) {
    x.Some? && x.value != ""
  }

  /** `p.get(k) or ""`: the text, and "" for a missing key or null. */
  function TextOrEmpty(x: JsonText): string {
    if x.Text? then x.text else ""
  }

  /** `f"{p.get(k, default)}"`: the default for a missing key, "None" for null. */
  function Shown(x: JsonText, default: string): string {
    match x
    case Absent => default
    case Null => "None"
    case Text(t) => t
  }

  /** `p.get(k, "").upper()`: None where the value is null and `.upper()` raises. */
  function UpperOf(x: JsonText): Option<string> {
    match x
    case Absent => Some("")
    case Null => None
    case Text(t) => Some(Upper(t))
  }

  /** The AttributeError of `None.upper()`. */
  const NoneUpperMessage: string := "'NoneType' object has no attribute 'upper'"

  predicate MiddleNameFits(p: PatientRecord, middleInitial: string) {
    StartsWith(Upper(TextOrEmpty(p.middleName)), Upper(middleInitial))
  }

  /** The exact-name test of one candidate raises: its last name is null, or its last
      name matches and its first name is null (`and` stops at a mismatch). */
  predicate NameTestRaises(p: PatientRecord, lastName: string, firstName: string) {
    p.lastName == Null || (UpperOf(p.lastName) == Some(Upper(lastName)) && p.firstName == Null)
  }

  predicate SameName(p: PatientRecord, lastName: string, firstName: string) {
    UpperOf(p.lastName) == Some(Upper(lastName)) && UpperOf(p.firstName) == Some(Upper(firstName))
  }

  predicate BornOn(p: PatientRecord, dob: string) {
    p.dateOfBirth == Text(dob)
  }

  /** One narrowing stage: run only while more than one candidate remains, and kept
      only when it leaves at least one. */
  function NarrowBy(s: seq<PatientRecord>, active: bool, keep: PatientRecord -> bool): (r: seq<PatientRecord>)
    ensures multiset(r) <= multiset(s)
    ensures r == [] <==> s == []
    ensures !active || |s| <= 1 ==> r == s
    ensures r == s || (active && |s| > 1 && r == Filter(s, keep) && r != [])
  {
    if active && |s| > 1 then
      var f := Filter(s, keep);
      if f != [] then f else s
    else s
  }

  function ByMiddleInitial(s: seq<PatientRecord>, middleInitial: Option<string>): seq<PatientRecord> {
    NarrowBy(s, Truthy(middleInitial), p => MiddleNameFits(p, OrEmpty(middleInitial)))
  }

  function SameNameAs(lastName: string, firstName: string): PatientRecord -> bool {
    p => SameName(p, lastName, firstName)
  }

  /** The exact-name stage; None where the comprehension raises AttributeError. */
  function ByName(s: seq<PatientRecord>, lastName: string, firstName: string): Option<seq<PatientRecord>> {
    if |s| > 1 && exists i :: 0 <= i < |s| && NameTestRaises(s[i], lastName, firstName) then None
    else Some(NarrowBy(s, true, SameNameAs(lastName, firstName)))
  }

  function ByDob(s: seq<PatientRecord>, dob: Option<string>): seq<PatientRecord> {
    NarrowBy(s, Truthy(dob), p => BornOn(p, OrEmpty(dob)))
  }

  /** The three stages in order: middle-initial prefix, exact case-insensitive name,
      date of birth. The survivors are server results, there are some exactly when the
      server returned some, a single result is never narrowed away, and only a list of
      several can raise. */
  function Narrow(s: seq<PatientRecord>, lastName: string, firstName: string,
                  middleInitial: Option<string>, dob: Option<string>): (r: Option<seq<PatientRecord>>)
    ensures r.Some? ==> multiset(r.value) <= multiset(s)
    ensures r.Some? ==> (r.value == [] <==> s == [])
    ensures |s| <= 1 ==> r == Some(s)
    ensures r.None? ==> |s| > 1
  {
    var byMiddle := ByMiddleInitial(s, middleInitial);
    match ByName(byMiddle, lastName, firstName)
    case None => None
    case Some(byName) =>
      var byDob := ByDob(byName, dob);
      assert multiset(byDob) <= multiset(byName) <= multiset(byMiddle) <= multiset(s);
      Some(byDob)
  }

  /** Among several candidates, when one has the exact name and the test raises for
      none, exactly those with the exact name are kept. */
  lemma {:induction false} ByNameExact(s: seq<PatientRecord>, lastName: string, firstName: string)
    requires |s| > 1
    requires exists i :: 0 <= i < |s| && SameName(s[i], lastName, firstName)
    ensures ByName(s, lastName, firstName).Some? ==>
      forall i :: 0 <= i < |ByName(s, lastName, firstName).value| ==>
        SameName(ByName(s, lastName, firstName).value[i], lastName, firstName)
    ensures ByName(s, lastName, firstName).Some? ==>
      forall p :: p in s && SameName(p, lastName, firstName) ==> p in ByName(s, lastName, firstName).value
  {
    var keep := SameNameAs(lastName, firstName);
    var f := Filter(s, keep);
    var i :| 0 <= i < |s| && SameName(s[i], lastName, firstName);
    assert s[i] in f by {
      assert keep(s[i]);
    }
    if ByName(s, lastName, firstName).Some? {
      assert ByName(s, lastName, firstName).value == f;
      forall k | 0 <= k < |f| ensures SameName(f[k], lastName, firstName) {
        assert keep(f[k]);
      }
    }
  }

  /** How a candidate is described in a multiple-match detail; its date of birth, or
      "N/A" when the key is missing, appears in it. */
  function Describe(p: PatientRecord): (r: string)
    ensures exists j :: OccursAt(r, Shown(p.dateOfBirth, "N/A"), j)
  {
    var name := Strip(Shown(p.firstName, "") + " " + TextOrEmpty(p.middleName) + " " + Shown(p.lastName, ""));
    var lead := name + " (DOB: ";
    var dob := Shown(p.dateOfBirth, "N/A");
    var tail := ", ID: " + IntToString(p.id) + ")";
    SpliceAt(lead, dob, tail);
    lead + dob + tail
  }

  function DescribeAll(s: seq<PatientRecord>): (r: seq<string>)
    ensures |r| == |s| && forall i :: 0 <= i < |s| ==> r[i] == Describe(s[i])
  {
    if s == [] then [] else [Describe(s[0])] + DescribeAll(s[1..])
  }

  /** The lookup result for the narrowed candidates: none, exactly one, or several. */
  function Classify(s: seq<PatientRecord>): (r: PatientLookupResult)
    ensures r == NotFound <==> s == []
    ensures r.Found? <==> |s| == 1
    ensures r.Found? ==> r.patientId == s[0].id && r.doctorId == s[0].doctor
    ensures r.MultipleMatches? <==> |s| > 1
  {
    if |s| == 0 then NotFound
    else if |s| > 1 then MultipleMatches(Join(DescribeAll(s), "; "))
    else Found(s[0].id, s[0].doctor)
  }

  /** The lookup of find_patient for a server result list: NotFound exactly when the
      server found no one, a single server result is the patient found whatever the
      filters say, a patient found is a server result, and only among several
      candidates can `None.upper()` raise. */
  function Lookup(s: seq<PatientRecord>, lastName: string, firstName: string,
                  middleInitial: Option<string>, dob: Option<string>): (r: Called<PatientLookupResult>)
    ensures r == Returned(NotFound) <==> s == []
    ensures |s| == 1 ==> r == Returned(Found(s[0].id, s[0].doctor))
    ensures r.Returned? && r.value.Found? ==> exists p :: p in s && r.value == Found(p.id, p.doctor)
    ensures r.Threw? ==> r.error == Unexpected(NoneUpperMessage) && |s| > 1
  {
    match Narrow(s, lastName, firstName, middleInitial, dob)
    case None => Threw(Unexpected(NoneUpperMessage))
    case Some(n) =>
      assert |n| == 1 ==> n[0] in multiset(n);
      Returned(Classify(n))
  }

  /** Among several candidates left by the middle-initial stage, one whose last name is
      null makes the lookup raise. */
  lemma {:induction false} LookupRaisesOnNullName(s: seq<PatientRecord>, lastName: string, firstName: string,
                                                  middleInitial: Option<string>, dob: Option<string>, k: nat)
    requires |ByMiddleInitial(s, middleInitial)| > 1 && k < |ByMiddleInitial(s, middleInitial)|
    requires ByMiddleInitial(s, middleInitial)[k].lastName == Null
    ensures Lookup(s, lastName, firstName, middleInitial, dob) == Threw(Unexpected(NoneUpperMessage))
  {
    assert NameTestRaises(ByMiddleInitial(s, middleInitial)[k], lastName, firstName);
  }

  /** Without null names among the server results the lookup never raises. */
  lemma {:induction false} LookupWithoutNullNames(s: seq<PatientRecord>, lastName: string, firstName: string,
                                                  middleInitial: Option<string>, dob: Option<string>)
    requires forall i :: 0 <= i < |s| ==> s[i].lastName != Null && s[i].firstName != Null
    ensures Lookup(s, lastName, firstName, middleInitial, dob).Returned?
  {
    var byMiddle := ByMiddleInitial(s, middleInitial);
    forall i | 0 <= i < |byMiddle|
      ensures !NameTestRaises(byMiddle[i], lastName, firstName)
    {
      assert byMiddle[i] in multiset(byMiddle);
      assert byMiddle[i] in s;
    }
  }

  /** Each candidate's date of birth, as the f-string shows it, appears in the
      multiple-match detail. */
  lemma {:induction false} MultipleMatchesShowDob(s: seq<PatientRecord>, k: nat)
    requires |s| > 1 && k < |s|
    ensures exists i :: OccursAt(Classify(s).detail, Shown(s[k].dateOfBirth, "N/A"), i)
  {
    var descs := DescribeAll(s);
    var t := Shown(s[k].dateOfBirth, "N/A");
    JoinContainsParts(descs, "; ", k);
    var i: nat :| OccursAt(Join(descs, "; "), descs[k], i);
    var j: nat :| OccursAt(descs[k], t, j);
    OccursInside(Join(descs, "; "), descs[k], i, j, t);
    assert Classify(s).detail == Join(descs, "; ");
    assert OccursAt(Classify(s).detail, t, i + j);
  }

  lemma {:induction false} SpliceAt(a: string, b: string, c: string)
    ensures OccursAt(a + b + c, b, |a|)
  {
    assert (a + b + c)[|a|..|a| + |b|] == b;
  }

  /** A text occurring inside a part occurs in the whole. */
  lemma {:induction false} OccursInside(whole: string, part: string, i: nat, j: nat, t: string)
    requires OccursAt(whole, part, i) && OccursAt(part, t, j)
    ensures OccursAt(whole, t, i + j)
  {
    forall x | 0 <= x < |t| ensures whole[i + j + x] == t[x] {
      assert whole[i..i + |part|][j + x] == part[j + x];
      assert part[j..j + |t|][x] == part[j + x];
    }
    assert whole[i + j..i + j + |t|] == t;
  }

  // ---------------------------------------------------------------------------
  // The per-run caches
  // ---------------------------------------------------------------------------

  /** `cache_key` of find_patient: lower-cased names and middle initial, and the date
      of birth, joined with "|". */
  function CacheKey(lastName: string, firstName: string, middleInitial: Option<string>, dob: Option<string>): string {
    Join([Lower(lastName), Lower(firstName), Lower(OrEmpty(middleInitial)), OrEmpty(dob)], "|")
  }

  /** Without "|" in any part, the key splits back into its parts, so different
      lower-cased lookups never share a cache entry. */
  lemma {:induction false} CacheKeyParts(lastName: string, firstName: string, middleInitial: Option<string>, dob: Option<string>)
    requires '|' !in lastName && '|' !in firstName && '|' !in OrEmpty(middleInitial) && '|' !in OrEmpty(dob)
    ensures Split(CacheKey(lastName, firstName, middleInitial, dob), '|') ==
      [Lower(lastName), Lower(firstName), Lower(OrEmpty(middleInitial)), OrEmpty(dob)]
  {
    var parts := [Lower(lastName), Lower(firstName), Lower(OrEmpty(middleInitial)), OrEmpty(dob)];
    LowerKeepsBar(lastName);
    LowerKeepsBar(firstName);
    LowerKeepsBar(OrEmpty(middleInitial));
    assert forall k :: 0 <= k < |parts| ==> '|' !in parts[k];
    SplitJoin(parts, '|');
  }

  lemma {:induction false} LowerKeepsBar(s: string)
    requires '|' !in s
    ensures '|' !in Lower(s)
  {
    forall i | 0 <= i < |s|
      ensures Lower(s)[i] != '|'
    {
      assert s[i] != '|';
    }
  }

  /** Lookups that differ only in letter case share a cache entry. */
  lemma {:induction false} CacheKeyIgnoresCase(l1: string, f1: string, m1: Option<string>,
                                               l2: string, f2: string, m2: Option<string>, dob: Option<string>)
    requires Lower(l1) == Lower(l2) && Lower(f1) == Lower(f2) && Lower(OrEmpty(m1)) == Lower(OrEmpty(m2))
    ensures CacheKey(l1, f1, m1, dob) == CacheKey(l2, f2, m2, dob)
  {
  }

  /** `dict.setdefault(k, v)`: the map after it; an existing entry is kept. */
  function SetDefault<K, V>(m: map<K, V>, k: K, v: V): (r: map<K, V>)
    ensures k in r && r[k] == (if k in m then m[k] else v)
    ensures forall j :: j in r && j != k ==> j in m && r[j] == m[j]
    ensures forall j :: j in m ==> j in r
  {
    if k in m then m else m[k := v]
  }

  /** With two fills of the same key the first one stays. */
  lemma {:induction false} SetDefaultFirstWins<K, V>(m: map<K, V>, k: K, a: V, b: V)
    requires k !in m
    ensures SetDefault(SetDefault(m, k, a), k, b) == m[k := a]
  {
  }

  /** A page of a patient's documents: its documents and the `next` link. */
  datatype Page = Page(documents: seq<Document>, next: Option<string>)

  /** A document's `metatags` as the server sends it: missing, null or "" (all read as
      "[]"), a JSON text with its decoding when that is a list, or a list. */
  datatype TagsField = NoTags | TagsText(decoded: Option<seq<string>>) | TagsList(tags: seq<string>)

  datatype Document = Document(date: Option<string>, description: Option<string>, metatags: TagsField)

  /** `while url`: the loop goes on while `next` is present and non-empty. */
  predicate HasNext(p: Page) {
    Truthy(p.next)
  }

  /** The pages fetched from answer i on, until a page has no next link or a request
      raises; None when the answers end before that. */
  function Collect(answers: seq<Called<Page>>, i: nat): Option<Called<seq<Document>>>
    requires i <= |answers|
    decreases |answers| - i
  {
    if i == |answers| then None
    else match answers[i]
      case Threw(e) => Some(Threw(e))
      case Returned(page) =>
        if !HasNext(page) then Some(Returned(page.documents))
        else match Collect(answers, i + 1)
          case None => None
          case Some(Threw(e)) => Some(Threw(e))
          case Some(Returned(rest)) => Some(Returned(page.documents + rest))
  }

  /** The server's chain of next links ends (or a request raises) within the answers. */
  predicate ChainEnds(answers: seq<Called<Page>>, i: nat)
    requires i <= |answers|
  {
    Collect(answers, i).Some?
  }

  /** The documents of pages i to k, in order. */
  function Concat(answers: seq<Called<Page>>, i: nat, k: nat): seq<Document>
    requires i <= k <= |answers|
    requires forall j :: i <= j < k ==> answers[j].Returned?
    decreases k - i
  {
    if i == k then [] else answers[i].value.documents + Concat(answers, i + 1, k)
  }

  /** Collecting gives the in-order concatenation of the pages up to the first one
      without a next link, when no request raises before it. */
  lemma {:induction false} CollectConcatenates(answers: seq<Called<Page>>, i: nat, k: nat)
    requires i <= k < |answers|
    requires forall j :: i <= j <= k ==> answers[j].Returned?
    requires forall j :: i <= j < k ==> HasNext(answers[j].value)
    requires !HasNext(answers[k].value)
    ensures Collect(answers, i) == Some(Returned(Concat(answers, i, k + 1)))
    decreases k - i
  {
    if i < k {
      var next := i + 1;
      CollectConcatenates(answers, next, k);
    } else {
      var page := answers[k].value;
      assert answers[k] == Returned(page);
      assert Concat(answers, k + 1, k + 1) == [];
      assert Concat(answers, k, k + 1) == page.documents;
    }
  }

  /** `metatag in tags` after decoding: malformed JSON counts as no tags. */
  function TagsOf(t: TagsField): seq<string> {
    match t
    case NoTags => []
    case TagsText(d) => d.GetOr([])
    case TagsList(tags) => tags
  }

  /** A document duplicates the upload: same date, same description, and the tag. */
  predicate SameDocument(d: Document, date: string, description: string, metatag: string) {
    d.date == Some(date) && d.description == Some(description) && metatag in TagsOf(d.metatags)
  }

  predicate HasDuplicate(docs: seq<Document>, date: string, description: string, metatag: string) {
    exists i :: 0 <= i < |docs| && SameDocument(docs[i], date, description, metatag)
  }

  /** The loop of is_duplicate over the patient's documents, returning at the first
      that matches. */
  method FindDuplicate(docs: seq<Document>, date: string, description: string, metatag: string) returns (found: bool)
    ensures found <==> HasDuplicate(docs, date, description, metatag)
  {
    var i := 0;
    while i < |docs|
      invariant 0 <= i <= |docs|
      invariant forall j :: 0 <= j < i ==> !SameDocument(docs[j], date, description, metatag)
    {
      var doc := docs[i];
      if doc.date != Some(date) {
        i := i + 1;
        continue;
      }
      if doc.description != Some(description) {
        i := i + 1;
        continue;
      }
      if metatag in TagsOf(doc.metatags) {
        return true;
      }
      i := i + 1;
    }
    return false;
  }

  /** upload_document: 201 is a success with the returned id, anything else a failure
      whose detail is "<status>: <body>". */
  function ClassifyUpload(status: int, documentId: Option<int>, body: string): (r: UploadResult)
    ensures r.UploadSucceeded? <==> status == 201
    ensures r.UploadSucceeded? ==> r.documentId == documentId
    ensures r.UploadRejected? ==>
      StartsWith(r.detail, IntToString(status) + ": ") && r.detail[|IntToString(status)| + 2..] == body
  {
    if status == 201 then UploadSucceeded(documentId)
    else UploadRejected(IntToString(status) + ": " + body)
  }

  /** The client's per-run caches: patient lookups by cache key and document lists by
      patient id. */
  class ApiCache {
    var patients: map<string, PatientLookupResult>
    var documents: map<int, seq<Document>>

    constructor()
      ensures patients == map[] && documents == map[]
    {
      patients := map[];
      documents := map[];
    }

    /** find_patient: a cached key is answered without a request; otherwise the
        server's answer is narrowed and classified, and the result stored unless an
        entry appeared meanwhile. A raised error, the server's or the narrowing's,
        stores nothing. */
    method FindPatient(lastName: string, firstName: string, middleInitial: Option<string>, dob: Option<string>,
                       answer: Called<seq<PatientRecord>>)
      returns (r: Called<PatientLookupResult>, requested: bool)
      modifies this
      ensures documents == old(documents)
      ensures CacheKey(lastName, firstName, middleInitial, dob) in old(patients) ==>
        !requested && r == Returned(old(patients)[CacheKey(lastName, firstName, middleInitial, dob)]) &&
        patients == old(patients)
      ensures CacheKey(lastName, firstName, middleInitial, dob) !in old(patients) ==> requested
      ensures CacheKey(lastName, firstName, middleInitial, dob) !in old(patients) && answer.Threw? ==>
        r == Threw(answer.error) && patients == old(patients)
      ensures CacheKey(lastName, firstName, middleInitial, dob) !in old(patients) && answer.Returned? ==>
        r == Lookup(answer.value, lastName, firstName, middleInitial, dob) &&
        patients == if r.Returned? then SetDefault(old(patients), CacheKey(lastName, firstName, middleInitial, dob), r.value)
                    else old(patients)
    {
      var key := CacheKey(lastName, firstName, middleInitial, dob);
      if key in patients {
        return Returned(patients[key]), false;
      }
      requested := true;
      if answer.Threw? {
        return Threw(answer.error), requested;
      }
      r := Lookup(answer.value, lastName, firstName, middleInitial, dob);
      if r.Returned? {
        patients := SetDefault(patients, key, r.value);
      }
    }

    /** get_patient_documents: a cached patient is answered without a request;
        otherwise pages are fetched following next links and the list stored unless
        an entry appeared meanwhile. A raised error stores nothing. */
    method GetPatientDocuments(patientId: int, answers: seq<Called<Page>>)
      returns (r: Called<seq<Document>>, requests: nat)
      requires ChainEnds(answers, 0)
      modifies this
      ensures patients == old(patients)
      ensures patientId in old(documents) ==>
        requests == 0 && r == Returned(old(documents)[patientId]) && documents == old(documents)
      ensures patientId !in old(documents) ==> r == Collect(answers, 0).value && 1 <= requests <= |answers|
      ensures patientId !in old(documents) && r.Threw? ==> documents == old(documents)
      ensures patientId !in old(documents) && r.Returned? ==>
        documents == SetDefault(old(documents), patientId, r.value)
    {
      if patientId in documents {
        return Returned(documents[patientId]), 0;
      }
      var collected: seq<Document> := [];
      PrependNothing(Collect(answers, 0));
      var i := 0;
      var more := true;
      while more
        invariant 0 <= i < |answers|
        invariant patients == old(patients) && documents == old(documents)
        invariant more ==> ChainEnds(answers, i) && Collect(answers, 0) == Prepend(collected, Collect(answers, i))
        invariant !more ==> Collect(answers, 0) == Some(Returned(collected)) && i + 1 <= |answers|
        decreases |answers| - i, more
      {
        match answers[i]
        case Threw(e) =>
          requests := i + 1;
          return Threw(e), requests;
        case Returned(page) =>
          if HasNext(page) {
            CollectStep(answers, i);
            PrependTwice(collected, page.documents, Collect(answers, i + 1));
            collected := collected + page.documents;
            i := i + 1;
          } else {
            collected := collected + page.documents;
            more := false;
          }
      }
      requests := i + 1;
      documents := SetDefault(documents, patientId, collected);
      r := Returned(collected);
    }

    /** is_duplicate: the patient's documents (cached or fetched), then the search. */
    method IsDuplicate(patientId: int, date: string, description: string, metatag: string, answers: seq<Called<Page>>)
      returns (r: Called<bool>)
      requires ChainEnds(answers, 0)
      modifies this
      ensures patients == old(patients)
      ensures patientId in old(documents) ==>
        r == Returned(HasDuplicate(old(documents)[patientId], date, description, metatag))
      ensures patientId !in old(documents) ==>
        match Collect(answers, 0).value
        case Threw(e) => r == Threw(e)
        case Returned(docs) => r == Returned(HasDuplicate(docs, date, description, metatag))
    {
      var docs, _ := GetPatientDocuments(patientId, answers);
      if docs.Threw? {
        return Threw(docs.error);
      }
      var found := FindDuplicate(docs.value, date, description, metatag);
      r := Returned(found);
    }
  }

  /** Documents already collected in front of what is still to come. */
  function Prepend(front: seq<Document>, c: Option<Called<seq<Document>>>): Option<Called<seq<Document>>> {
    match c
    case None => None
    case Some(Threw(e)) => Some(Threw(e))
    case Some(Returned(rest)) => Some(Returned(front + rest))
  }

  lemma PrependNothing(c: Option<Called<seq<Document>>>)
    ensures Prepend([], c) == c
  {
    if c.Some? && c.value.Returned? {
      assert [] + c.value.value == c.value.value;
    }
  }

  lemma PrependTwice(a: seq<Document>, b: seq<Document>, c: Option<Called<seq<Document>>>)
    ensures Prepend(a, Prepend(b, c)) == Prepend(a + b, c)
  {
    if c.Some? && c.value.Returned? {
      assert a + (b + c.value.value) == (a + b) + c.value.value;
    }
  }

  /** A page with a next link puts its documents in front of the rest. */
  lemma CollectStep(answers: seq<Called<Page>>, i: nat)
    requires i < |answers| && answers[i].Returned? && HasNext(answers[i].value)
    ensures i + 1 <= |answers|
    ensures Collect(answers, i) == Prepend(answers[i].value.documents, Collect(answers, i + 1))
  {
  }
}
