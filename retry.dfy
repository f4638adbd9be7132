/** The `__retry__` decorator of utils/functions.py: call the wrapped function
    until one call returns, at most `max_attempts` times. */
module Retry {
  import opened Outcomes

  /** How many calls the loop `while attempts < max_attempts` allows. */
  function Budget(maxAttempts: int): nat
  {
    if maxAttempts < 0 then 0 else maxAttempts
  }

  /** A call ends the loop: it returned, or it raised something that
      `except Exception` does not catch (a `BaseException` such as
      `KeyboardInterrupt` or `SystemExit`). */
  predicate Settles<V, E>(o: Outcome<V, E>, isException: E -> bool)
  {
    o.Returned? || !isException(o.error)
  }

  /** The index of the first of the calls `0 .. n - 1` that ends the loop,
      if any. */
  function FirstSettled<V, E>(attempt: nat -> Outcome<V, E>, isException: E -> bool, n: nat): (r: Option<nat>)
    ensures r.Some? ==> r.value < n && Settles(attempt(r.value), isException)
    ensures r.Some? ==> forall j :: 0 <= j < r.value ==> attempt(j).Raised? && isException(attempt(j).error)
    ensures r.None? <==> forall j :: 0 <= j < n ==> attempt(j).Raised? && isException(attempt(j).error)
  {
    if n == 0 then None
    else match FirstSettled(attempt, isException, n - 1)
      case Some(i) => Some(i)
      case None => if Settles(attempt(n - 1), isException) then Some(n - 1) else None
  }

  /** `attempt(j)` is what the `j`-th call (counting from 0) of the wrapped
      function does, and `isException(e)` tells whether the raised `e` is an
      `Exception`. The wrapper returns `v` when a call returned `v`,
      re-raises at once what `except Exception` does not catch, and returns
      Python's implicit `None` when every attempt raised an `Exception`. */
  method Retry<V, E>(maxAttempts: int, attempt: nat -> Outcome<V, E>, isException: E -> bool)
    returns (result: Outcome<Option<V>, E>, calls: nat)
    ensures calls <= Budget(maxAttempts)
    ensures forall j :: 0 <= j < calls - 1 ==> attempt(j).Raised? && isException(attempt(j).error)
    ensures match FirstSettled(attempt, isException, Budget(maxAttempts))
      case Some(k) => calls == k + 1 &&
        result == if attempt(k).Returned? then Returned(Some(attempt(k).value)) else Raised(attempt(k).error)
      case None => calls == Budget(maxAttempts) && result == Returned(None)
  {
    var attempts := 0;
    calls := 0;
    while attempts < maxAttempts
      invariant 0 <= attempts == calls <= Budget(maxAttempts)
      invariant forall j :: 0 <= j < calls ==> attempt(j).Raised? && isException(attempt(j).error)
    {
      var outcome := attempt(attempts);
      calls := calls + 1;
      if outcome.Returned? {
        return Returned(Some(outcome.value)), calls;
      }
      if !isException(outcome.error) {
        return Raised(outcome.error), calls;
      }
      attempts := attempts + 1;
    }
    result := Returned(None);
  }
}
