/**
 * `ResilientHttpClient`: a GET with retries, exponential backoff and a
 * circuit breaker that opens after five consecutive failed calls.
 *
 * The network is a parameter: `replies(i)` is what attempt `i` of the call
 * gets back. The sleeps are recorded as the list of delays, and the clock
 * readings are parameters: `now` when the breaker is consulted, `failedAt`
 * when a failed call is booked.
 */
module Http {
  import opened Wrappers

  /** What one attempt gets back: a response with its status, or a transport error. */
  datatype Reply = Response(status: int, text: string) | NetworkError

  /** The two ways `get` raises `ConnectionError`. */
  datatype Failure =
    | CircuitOpen(until: int)         // the breaker refused the call
    | FetchFailed(last: Option<Reply>) // every attempt failed; the last failing reply, if any

  /** `raise_for_status` lets a reply through only when its status is 2xx. */
  predicate IsSuccess(status: int) {
    200 <= status < 300
  }

  /** A 4xx other than 429 is not retried. */
  predicate StopsRetrying(status: int) {
    400 <= status < 500 && status != 429
  }

  /** A reply that ends the retry loop: a success or a status that is not retried. */
  predicate Decisive(r: Reply) {
    r.Response? && (IsSuccess(r.status) || StopsRetrying(r.status))
  }

  /** Five minutes, in the seconds the clock counts. */
  const OpenSeconds := 300

  /** The number of consecutive failed calls that opens the breaker. */
  const FailureThreshold := 5

  function Pow2(n: nat): (r: nat)
    ensures r >= 1
  {
    if n == 0 then 1 else 2 * Pow2(n - 1)
  }

  /** The sleeps before the first `n` retries: `retry_delay * 2**attempt` for attempts 0 .. n-1. */
  function Backoffs(retryDelay: real, n: nat): (r: seq<real>)
    ensures |r| == n
  {
    if n == 0 then [] else Backoffs(retryDelay, n - 1) + [retryDelay * Pow2(n - 1) as real]
  }

  lemma {:induction false} BackoffsAt(retryDelay: real, n: nat)
    ensures forall i :: 0 <= i < n ==> Backoffs(retryDelay, n)[i] == retryDelay * Pow2(i) as real
  {
    if n > 0 {
      BackoffsAt(retryDelay, n - 1);
      assert forall i :: 0 <= i < n - 1 ==> Backoffs(retryDelay, n)[i] == Backoffs(retryDelay, n - 1)[i];
    }
  }

  /** Each sleep is twice the one before it. */
  lemma BackoffsDouble(retryDelay: real, n: nat)
    ensures forall i :: 0 <= i < n - 1 ==> Backoffs(retryDelay, n)[i + 1] == 2.0 * Backoffs(retryDelay, n)[i]
  {
    BackoffsAt(retryDelay, n);
    forall i | 0 <= i < n - 1
      ensures Backoffs(retryDelay, n)[i + 1] == 2.0 * Backoffs(retryDelay, n)[i]
    {
      var x := Pow2(i) as real;
      assert Pow2(i + 1) as real == 2.0 * x;
      assert retryDelay * (2.0 * x) == 2.0 * (retryDelay * x);
    }
  }

  /**
   * The first attempt at or after `from` that is either past the limit or
   * gets a decisive reply.
   */
  function FirstDecisive(replies: nat -> Reply, from: nat, limit: int): (j: nat)
    ensures from <= j
    ensures j < limit ==> Decisive(replies(j))
    ensures j > from ==> j <= limit
    ensures forall i :: from <= i < j ==> !Decisive(replies(i))
    decreases limit - from
  {
    if from >= limit || Decisive(replies(from)) then from else FirstDecisive(replies, from + 1, limit)
  }

  lemma {:induction false} FirstDecisiveIs(replies: nat -> Reply, from: nat, limit: int, j: nat)
    requires from <= j < limit && Decisive(replies(j))
    requires forall i :: from <= i < j ==> !Decisive(replies(i))
    ensures FirstDecisive(replies, from, limit) == j
    decreases j - from
  {
    if from < j {
      FirstDecisiveIs(replies, from + 1, limit, j);
    }
  }

  /** What the retry loop of one call produces, with the breaker closed. */
  datatype Attempts = Attempts(text: Result<string, Option<Reply>>, delays: seq<real>, made: nat)

  /**
   * The retry loop: attempts run until the first decisive reply or until
   * `max_retries` attempts are spent; a sleep separates each attempt from
   * the next one, and none follows a decisive reply or the last attempt.
   */
  function Retry(replies: nat -> Reply, maxRetries: int, retryDelay: real): (r: Attempts)
    ensures r.made <= if maxRetries < 0 then 0 else maxRetries
    ensures r.made == 0 ==> r.text == Err(None)
    ensures |r.delays| == if r.made == 0 then 0 else r.made - 1
  {
    var j := FirstDecisive(replies, 0, maxRetries);
    if j < maxRetries then
      var reply := replies(j);
      Attempts(if IsSuccess(reply.status) then Ok(reply.text) else Err(Some(reply)), Backoffs(retryDelay, j), j + 1)
    else if maxRetries <= 0 then
      Attempts(Err(None), [], 0)
    else
      Attempts(Err(Some(replies(maxRetries - 1))), Backoffs(retryDelay, maxRetries - 1), maxRetries)
  }

  /** The breaker's state: `_consecutive_failures` and `_circuit_open_until`. */
  datatype Breaker = Breaker(failures: nat, openUntil: Option<int>)

  /** The breaker refuses calls while the clock is strictly before its open-until time. */
  predicate IsOpen(b: Breaker, now: int) {
    b.openUntil.Some? && now < b.openUntil.value
  }

  /** Everything one call to `get` produces. */
  datatype Outcome = Outcome(result: Result<string, Failure>, delays: seq<real>, attempts: nat, breaker: Breaker)

  /** One call to `get`: the breaker check, the retry loop, then the breaker's bookkeeping. */
  function Call(b: Breaker, maxRetries: int, retryDelay: real, now: int, failedAt: int, replies: nat -> Reply): Outcome {
    if IsOpen(b, now) then
      Outcome(Err(CircuitOpen(b.openUntil.value)), [], 0, b)
    else
      var r := Retry(replies, maxRetries, retryDelay);
      if r.text.Ok? then
        Outcome(Ok(r.text.value), r.delays, r.made, Breaker(0, None))
      else
        var failures := b.failures + 1;
        Outcome(Err(FetchFailed(r.text.error)), r.delays, r.made,
          Breaker(failures, if failures >= FailureThreshold then Some(failedAt + OpenSeconds) else b.openUntil))
  }

  class HttpClient {
    const maxRetries: int
    const retryDelay: real
    var consecutiveFailures: nat
    var circuitOpenUntil: Option<int>

    function State(): Breaker
      reads this
    {
      Breaker(consecutiveFailures, circuitOpenUntil)
    }

    constructor(maxRetries: int, retryDelay: real)
      ensures this.maxRetries == maxRetries && this.retryDelay == retryDelay
      ensures State() == Breaker(0, None)
    {
      this.maxRetries := maxRetries;
      this.retryDelay := retryDelay;
      consecutiveFailures := 0;
      circuitOpenUntil := None;
    }

    /** `get`: returns the body, the sleeps taken and the number of requests made. */
    method Get(now: int, failedAt: int, replies: nat -> Reply)
      returns (result: Result<string, Failure>, delays: seq<real>, attempts: nat)
      modifies this
      ensures Outcome(result, delays, attempts, State())
           == Call(old(State()), maxRetries, retryDelay, now, failedAt, replies)
    {
      if circuitOpenUntil.Some? && now < circuitOpenUntil.value {
        return Err(CircuitOpen(circuitOpenUntil.value)), [], 0;
      }
      ghost var start := State();
      var last: Option<Reply> := None;
      delays, attempts := [], 0;
      var attempt := 0;
      while attempt < maxRetries
        invariant 0 <= attempt && (attempt <= maxRetries || attempt == 0)
        invariant attempts == attempt
        invariant State() == start
        invariant forall i :: 0 <= i < attempt ==> !Decisive(replies(i))
        invariant delays == Backoffs(retryDelay, if 0 < attempt == maxRetries then attempt - 1 else attempt)
        invariant last == if attempt == 0 then None else Some(replies(attempt - 1))
        decreases maxRetries - attempt
      {
        var reply := replies(attempt);
        attempts := attempts + 1;
        if reply.Response? && IsSuccess(reply.status) {
          FirstDecisiveIs(replies, 0, maxRetries, attempt);
          consecutiveFailures, circuitOpenUntil := 0, None;
          return Ok(reply.text), delays, attempts;
        }
        last := Some(reply);
        if reply.Response? && StopsRetrying(reply.status) {
          FirstDecisiveIs(replies, 0, maxRetries, attempt);
          break;
        }
        if attempt < maxRetries - 1 {
          delays := delays + [retryDelay * Pow2(attempt) as real];
          assert delays == Backoffs(retryDelay, attempt + 1);
        }
        attempt := attempt + 1;
      }
      consecutiveFailures := consecutiveFailures + 1;
      if consecutiveFailures >= FailureThreshold {
        circuitOpenUntil := Some(failedAt + OpenSeconds);
      }
      result := Err(FetchFailed(last));
    }
  }

  /* ---------- properties of one call ---------- */

  /** While the breaker is open no request is made, nothing is slept and nothing changes. */
  lemma OpenCircuitRefuses(b: Breaker, maxRetries: int, retryDelay: real, now: int, failedAt: int, replies: nat -> Reply)
    requires IsOpen(b, now)
    ensures var o := Call(b, maxRetries, retryDelay, now, failedAt, replies);
      o.result == Err(CircuitOpen(b.openUntil.value)) && o.attempts == 0 && o.delays == [] && o.breaker == b
  {
  }

  /** With the breaker closed the call makes at least one request, and at most `max_retries`. */
  lemma ClosedCircuitAttempts(b: Breaker, maxRetries: int, retryDelay: real, now: int, failedAt: int, replies: nat -> Reply)
    requires !IsOpen(b, now) && maxRetries >= 1
    ensures 1 <= Call(b, maxRetries, retryDelay, now, failedAt, replies).attempts <= maxRetries
  {
    var j := FirstDecisive(replies, 0, maxRetries);
  }

  /**
   * The call succeeds exactly when some attempt within the budget gets a
   * 2xx reply before any reply that is not retried; it then returns that
   * reply's body and resets the breaker.
   */
  lemma SuccessResets(b: Breaker, maxRetries: int, retryDelay: real, now: int, failedAt: int, replies: nat -> Reply, j: nat)
    requires !IsOpen(b, now)
    requires j < maxRetries && replies(j).Response? && IsSuccess(replies(j).status)
    requires forall i :: 0 <= i < j ==> !Decisive(replies(i))
    ensures var o := Call(b, maxRetries, retryDelay, now, failedAt, replies);
      o.result == Ok(replies(j).text) && o.breaker == Breaker(0, None) && o.attempts == j + 1
  {
    FirstDecisiveIs(replies, 0, maxRetries, j);
  }

  /** A successful call had a 2xx reply, after only retryable failures, and leaves the breaker reset. */
  lemma SuccessMeansReply(b: Breaker, maxRetries: int, retryDelay: real, now: int, failedAt: int, replies: nat -> Reply)
    requires Call(b, maxRetries, retryDelay, now, failedAt, replies).result.Ok?
    ensures var o := Call(b, maxRetries, retryDelay, now, failedAt, replies);
      var j := o.attempts - 1;
      && 0 <= j < maxRetries
      && replies(j).Response? && IsSuccess(replies(j).status) && o.result.value == replies(j).text
      && (forall i :: 0 <= i < j ==> !Decisive(replies(i)))
      && o.breaker == Breaker(0, None)
  {
  }

  /** A 4xx other than 429 ends the call at once: no further request, no further sleep. */
  lemma ClientErrorStops(b: Breaker, maxRetries: int, retryDelay: real, now: int, failedAt: int, replies: nat -> Reply, j: nat)
    requires !IsOpen(b, now)
    requires j < maxRetries && replies(j).Response? && StopsRetrying(replies(j).status)
    requires forall i :: 0 <= i < j ==> !Decisive(replies(i))
    ensures var o := Call(b, maxRetries, retryDelay, now, failedAt, replies);
      o.result == Err(FetchFailed(Some(replies(j)))) && o.attempts == j + 1 && o.delays == Backoffs(retryDelay, j)
  {
    FirstDecisiveIs(replies, 0, maxRetries, j);
  }

  /** When no reply is decisive every attempt is spent, with a sleep between each two. */
  lemma AllRetriesSpent(b: Breaker, maxRetries: int, retryDelay: real, now: int, failedAt: int, replies: nat -> Reply)
    requires !IsOpen(b, now) && maxRetries >= 1
    requires forall i :: 0 <= i < maxRetries ==> !Decisive(replies(i))
    ensures var o := Call(b, maxRetries, retryDelay, now, failedAt, replies);
      o.result == Err(FetchFailed(Some(replies(maxRetries - 1))))
      && o.attempts == maxRetries && o.delays == Backoffs(retryDelay, maxRetries - 1)
  {
  }

  /**
   * The sleeps of any call double from `retry_delay`, and there is one fewer
   * sleep than requests: none follows the last request.
   */
  lemma DelaysDouble(b: Breaker, maxRetries: int, retryDelay: real, now: int, failedAt: int, replies: nat -> Reply)
    ensures var o := Call(b, maxRetries, retryDelay, now, failedAt, replies);
      && |o.delays| == (if o.attempts == 0 then 0 else o.attempts - 1)
      && (forall i :: 0 <= i < |o.delays| ==> o.delays[i] == retryDelay * Pow2(i) as real)
  {
    if !IsOpen(b, now) {
      var r := Retry(replies, maxRetries, retryDelay);
      RetryBackoffs(replies, maxRetries, retryDelay);
      BackoffsAt(retryDelay, |r.delays|);
    }
  }

  lemma RetryBackoffs(replies: nat -> Reply, maxRetries: int, retryDelay: real)
    ensures Retry(replies, maxRetries, retryDelay).delays
         == Backoffs(retryDelay, |Retry(replies, maxRetries, retryDelay).delays|)
  {
  }

  /**
   * A failed call with the breaker closed counts one more consecutive
   * failure; from the fifth on it opens the breaker for five minutes from
   * the time of the failure, and before that it leaves the open-until time alone.
   */
  lemma FailureCounts(b: Breaker, maxRetries: int, retryDelay: real, now: int, failedAt: int, replies: nat -> Reply)
    requires !IsOpen(b, now)
    requires Call(b, maxRetries, retryDelay, now, failedAt, replies).result.Err?
    ensures var o := Call(b, maxRetries, retryDelay, now, failedAt, replies);
      && o.result.error.FetchFailed?
      && o.breaker.failures == b.failures + 1
      && (b.failures + 1 >= FailureThreshold ==> o.breaker.openUntil == Some(failedAt + OpenSeconds))
      && (b.failures + 1 < FailureThreshold ==> o.breaker.openUntil == b.openUntil)
  {
  }

  /** A call that fails and opens the breaker refuses every call made before the five minutes are up. */
  lemma OpenedBreakerRefuses(b: Breaker, maxRetries: int, retryDelay: real, now: int, failedAt: int, replies: nat -> Reply, later: int)
    requires !IsOpen(b, now) && b.failures + 1 >= FailureThreshold
    requires Call(b, maxRetries, retryDelay, now, failedAt, replies).result.Err?
    requires later < failedAt + OpenSeconds
    ensures IsOpen(Call(b, maxRetries, retryDelay, now, failedAt, replies).breaker, later)
  {
  }
}
