/**
 The retry loop both endpoints use: up to five attempts, a ten-second sleep
 after every attempt whose status is not 200, and no further attempt once one
 succeeds. Whatever response the last attempt got is used afterwards, even a
 failed one.
 */
module Retries {
  import opened Events

  const MaxAttempts: nat := 5
  const RetryPause: nat := 10
  const StatusOk: int := 200

  /** How many attempts were made and the requests and sleeps they produced. */
  datatype Retried = Retried(attempts: nat, trace: seq<Event>)

  /** The requests and sleeps of attempts `k`, `k + 1`, ... given the status each attempt receives. */
  function RetryFrom(request: Event, status: nat -> int, k: nat): (o: Retried)
    requires k < MaxAttempts
    ensures k < o.attempts <= MaxAttempts
    ensures forall j :: k <= j < o.attempts - 1 ==> status(j) != StatusOk
    ensures status(o.attempts - 1) == StatusOk || o.attempts == MaxAttempts
    ensures |o.trace| == 2 * (o.attempts - k) - (if status(o.attempts - 1) == StatusOk then 1 else 0)
    ensures forall i :: 0 <= i < |o.trace| ==> o.trace[i] == if i % 2 == 0 then request else Pause(RetryPause)
    decreases MaxAttempts - k
  {
    if status(k) == StatusOk then Retried(k + 1, [request])
    else if k == MaxAttempts - 1 then Retried(k + 1, [request, Pause(RetryPause)])
    else
      var rest := RetryFrom(request, status, k + 1);
      Retried(rest.attempts, [request, Pause(RetryPause)] + rest.trace)
  }

  /**
   Runs the retry loop against an endpoint whose `j`-th attempt gets status
   `status(j)`. The response used afterwards is that of attempt `attempts - 1`:
   the first 200 among the first five attempts if there is one, else the fifth.
   The trace alternates request and sleep, with no sleep after a success.
   */
  function Retry(request: Event, status: nat -> int): (o: Retried)
    ensures 1 <= o.attempts <= MaxAttempts
    ensures forall j :: 0 <= j < o.attempts - 1 ==> status(j) != StatusOk
    ensures status(o.attempts - 1) == StatusOk <==> exists j :: 0 <= j < MaxAttempts && status(j) == StatusOk
    ensures status(o.attempts - 1) != StatusOk ==> o.attempts == MaxAttempts
    ensures |o.trace| == 2 * o.attempts - (if status(o.attempts - 1) == StatusOk then 1 else 0)
    ensures forall i :: 0 <= i < |o.trace| ==> o.trace[i] == if i % 2 == 0 then request else Pause(RetryPause)
  {
    RetryFrom(request, status, 0)
  }

}
