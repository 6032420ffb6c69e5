/**
 * The bounded retry policy `withRetry` of the upgradeable-token deploy script.
 * What `fn` does on each call is an input: `attempt(k)` is its outcome on the
 * call made while the retry counter reads `k`. The timer is reduced to a
 * `Sleep` event, so the model records which calls and waits happen, in order.
 */
module Retry {
  import opened Wrappers

  /** A thrown error; `code` is `None` when the error object has no `code`. */
  datatype Failure = Failure(code: Option<string>, message: string)

  datatype Attempt<T> = Returned(value: T) | Threw(error: Failure)

  datatype Event = Call(retryCount: int) | Sleep(ms: int)

  datatype Trace<T> = Trace(result: Result<T, Failure>, events: seq<Event>)

  /** Only a connection reset is retried. */
  predicate Retryable(f: Failure) {
    f.code == Some("ECONNRESET")
  }

  /** How many times `fn` ran. */
  function Calls<T>(t: Trace<T>): int {
    (|t.events| + 1) / 2
  }

  /** How many further calls the counter still allows. */
  function RetriesLeft(retries: int, retryCount: int): nat {
    if retryCount <= retries then retries - retryCount + 1 else 0
  }

  /** `withRetry(fn, retries, delayMs, retryCount)`: call `fn`; on a connection
      reset while `retryCount <= retries`, wait `delayMs` and recurse with the
      counter one higher; any other error, or a reset once the counter is past
      `retries`, is rethrown. The trace alternates calls and waits, starting and
      ending with a call; every call but the last threw a reset, and the last
      call decides the outcome. */
  function WithRetry<T>(attempt: int -> Attempt<T>, retries: int, delayMs: int, retryCount: int): (t: Trace<T>)
    ensures |t.events| % 2 == 1
    ensures Calls(t) <= RetriesLeft(retries, retryCount) + 1
    ensures forall i :: 0 <= i < |t.events| && i % 2 == 0 ==> t.events[i] == Call(retryCount + i / 2)
    ensures forall i :: 0 <= i < |t.events| && i % 2 == 1 ==> t.events[i] == Sleep(delayMs)
    ensures forall k :: retryCount <= k < retryCount + Calls(t) - 1 ==>
      attempt(k).Threw? && Retryable(attempt(k).error)
    ensures
      var last := retryCount + Calls(t) - 1;
      match attempt(last)
      case Returned(v) => t.result == Ok(v)
      case Threw(e) => t.result == Err(e) && (!Retryable(e) || last > retries)
    decreases RetriesLeft(retries, retryCount)
  {
    match attempt(retryCount)
    case Returned(v) => Trace(Ok(v), [Call(retryCount)])
    case Threw(e) =>
      if Retryable(e) && retryCount <= retries then
        var rest := WithRetry(attempt, retries, delayMs, retryCount + 1);
        var events := [Call(retryCount), Sleep(delayMs)] + rest.events;
        PrependRetry(retryCount, delayMs, rest.events);
        assert Calls(Trace(rest.result, events)) == Calls(rest) + 1;
        Trace(rest.result, events)
      else
        Trace(Err(e), [Call(retryCount)])
  }

  /** A call and a wait in front of a well-formed trace of the next counter
      value give a well-formed trace of this one. */
  lemma PrependRetry(retryCount: int, delayMs: int, es: seq<Event>)
    requires |es| % 2 == 1
    requires forall i :: 0 <= i < |es| && i % 2 == 0 ==> es[i] == Call(retryCount + 1 + i / 2)
    requires forall i :: 0 <= i < |es| && i % 2 == 1 ==> es[i] == Sleep(delayMs)
    ensures
      var all := [Call(retryCount), Sleep(delayMs)] + es;
      && |all| % 2 == 1
      && (forall i :: 0 <= i < |all| && i % 2 == 0 ==> all[i] == Call(retryCount + i / 2))
      && (forall i :: 0 <= i < |all| && i % 2 == 1 ==> all[i] == Sleep(delayMs))
  {
    var all := [Call(retryCount), Sleep(delayMs)] + es;
    forall i | 0 <= i < |all| && i % 2 == 0
      ensures all[i] == Call(retryCount + i / 2)
    {
      if i >= 2 {
        assert all[i] == es[i - 2];
        assert (i - 2) % 2 == 0 && (i - 2) / 2 == i / 2 - 1;
      }
    }
    forall i | 0 <= i < |all| && i % 2 == 1
      ensures all[i] == Sleep(delayMs)
    {
      if i >= 2 {
        assert all[i] == es[i - 2];
        assert (i - 2) % 2 == 1;
      }
    }
  }

  /** The call sites use the default counter start. */
  function WithRetryFromStart<T>(attempt: int -> Attempt<T>, retries: int, delayMs: int): (t: Trace<T>)
    ensures 1 <= Calls(t) <= (if retries >= 0 then retries + 1 else 1)
    ensures Calls(t) - 1 == |t.events| / 2
  {
    WithRetry(attempt, retries, delayMs, 1)
  }

  /** When every call up to the last allowed one resets the connection, exactly
      `retries + 1` calls are made and the last call's error is thrown. */
  lemma ExhaustedRetries<T>(attempt: int -> Attempt<T>, retries: nat, delayMs: int)
    requires forall k :: 1 <= k <= retries + 1 ==> attempt(k).Threw? && Retryable(attempt(k).error)
    ensures Calls(WithRetry(attempt, retries, delayMs, 1)) == retries + 1
    ensures WithRetry(attempt, retries, delayMs, 1).result == Err(attempt(retries + 1).error)
  {
  }

  /** An error other than a connection reset on the first call is thrown at
      once, with no wait and no second call. */
  lemma NonRetryableRethrown<T>(attempt: int -> Attempt<T>, retries: int, delayMs: int)
    requires attempt(1).Threw? && !Retryable(attempt(1).error)
    ensures WithRetry(attempt, retries, delayMs, 1) == Trace(Err(attempt(1).error), [Call(1)])
  {
  }

  /** The first call that returns, when every earlier one reset the connection
      within the budget, ends the run with its value after exactly that many calls. */
  lemma {:induction false} FirstSuccessWins<T>(attempt: int -> Attempt<T>, retries: int, delayMs: int, retryCount: int, k: int)
    requires retryCount <= k <= retries + 1
    requires forall j :: retryCount <= j < k ==> attempt(j).Threw? && Retryable(attempt(j).error)
    requires attempt(k).Returned?
    ensures WithRetry(attempt, retries, delayMs, retryCount).result == Ok(attempt(k).value)
    ensures Calls(WithRetry(attempt, retries, delayMs, retryCount)) == k - retryCount + 1
    decreases k - retryCount
  {
    if retryCount < k {
      FirstSuccessWins(attempt, retries, delayMs, retryCount + 1, k);
    }
  }
}
