/**
 * The HTTP client `generalRequest` (main.js:53-97): up to `retryCount` attempts, a growing pause
 * between them, the first successful body returned and the last failure rethrown. Building the
 * request (headers, query string, JSON body) and the transport are outside the model; each attempt
 * is reduced to its outcome, supplied by `fetch`.
 */
module Http {
  import opened Values

  /** What one attempt came to: a 2xx response whose body parsed, or an error (transport, status or JSON). */
  datatype Attempt = Response(body: Json) | Failure(error: string)

  /** How a call ended: resolved with a body, rejected with an error, or resolved with `undefined` (no attempt made). */
  datatype Outcome = Returned(body: Json) | Threw(error: string) | Undefined

  /** The pause after the k-th failed attempt is k times this many milliseconds. */
  const BackoffStepMs: nat := 2000

  /**
   * The retry loop. `fetch(k)` is the outcome of attempt number k (from 0); `attempts` is how many
   * attempts were made and `waits` the pauses taken between them, in milliseconds.
   */
  method GeneralRequest(fetch: nat -> Attempt, retryCount: int) returns (outcome: Outcome, attempts: nat, waits: seq<nat>)
    ensures retryCount <= 0 ==> outcome == Undefined && attempts == 0
    ensures retryCount > 0 ==> 1 <= attempts <= retryCount
    ensures forall k :: 0 <= k < attempts - 1 ==> fetch(k).Failure?
    ensures attempts > 0 && fetch(attempts - 1).Response? ==> outcome == Returned(fetch(attempts - 1).body)
    ensures attempts > 0 && fetch(attempts - 1).Failure? ==> attempts == retryCount && outcome == Threw(fetch(attempts - 1).error)
    ensures |waits| == if attempts == 0 then 0 else attempts - 1
    ensures forall k :: 0 <= k < |waits| ==> waits[k] == BackoffStepMs * (k + 1)
  {
    var attempt: nat := 0;
    waits := [];
    while attempt < retryCount
      invariant attempt > 0 ==> attempt < retryCount
      invariant forall k :: 0 <= k < attempt ==> fetch(k).Failure?
      invariant |waits| == attempt
      invariant forall k :: 0 <= k < |waits| ==> waits[k] == BackoffStepMs * (k + 1)
      decreases retryCount - attempt
    {
      match fetch(attempt)
      case Response(body) =>
        return Returned(body), attempt + 1, waits;
      case Failure(error) =>
        attempt := attempt + 1;
        if attempt >= retryCount {
          return Threw(error), attempt, waits;
        }
        waits := waits + [BackoffStepMs * attempt];
    }
    return Undefined, 0, [];
  }
}
