/** The `Timer` class (src/scottbrian_utils/timer.py): a timeout chosen from
    `timeout` and `default_timeout` when the timer is made, the remaining
    time it reports and whether it has expired. The clock is the `now`
    parameter (seconds, as `time.time()` returns them); an `int` or `float`
    argument is a `real`. */
module Timers {
  import opened Optional

  /** The floor of the remaining time the `timeout` property reports. */
  const MinRemaining: real := 0.0001

  /** Python truthiness of an optional number: `None` and zero are false. */
  predicate Truthy(t: Option<real>)
  {
    t.Some? && t.value != 0.0
  }

  /** The timeout `__init__` stores, as written: a truthy non-positive
      `timeout` means no timeout; otherwise `timeout or default_timeout`. */
  function StoredTimeout(timeout: Option<real>, defaultTimeout: Option<real>): Option<real>
  {
    if Truthy(timeout) && timeout.value <= 0.0 then None
    else if Truthy(timeout) then timeout
    else defaultTimeout
  }

  /** The stored timeout with a negative default treated like a negative
      timeout, i.e. as no timeout at all. */
  function StoredTimeoutIntended(timeout: Option<real>, defaultTimeout: Option<real>): (r: Option<real>)
    ensures Truthy(r) ==> r.value > 0.0
  {
    var t := StoredTimeout(timeout, defaultTimeout);
    if t.Some? && t.value < 0.0 then None else t
  }

  /** `is_expired` after `elapsed` seconds. */
  predicate Expired(stored: Option<real>, elapsed: real)
  {
    Truthy(stored) && stored.value < elapsed
  }

  /** The `timeout` property after `elapsed` seconds: `None` without a
      timeout, otherwise `max(0.0001, timeout - elapsed)`. */
  function Remaining(stored: Option<real>, elapsed: real): (r: Option<real>)
    ensures r.Some? <==> Truthy(stored)
    ensures r.Some? ==> r.value >= MinRemaining && r.value >= stored.value - elapsed
    ensures r.Some? ==> r.value == MinRemaining || r.value == stored.value - elapsed
  {
    if Truthy(stored) then
      Some(if stored.value - elapsed > MinRemaining then stored.value - elapsed else MinRemaining)
    else None
  }

  /** A positive `timeout` is used and the default ignored. */
  lemma PositiveTimeoutUsed(t: real, defaultTimeout: Option<real>)
    requires t > 0.0
    ensures StoredTimeout(Some(t), defaultTimeout) == Some(t)
    ensures StoredTimeoutIntended(Some(t), defaultTimeout) == Some(t)
  {
  }

  /** A negative `timeout` means no timeout, whatever the default. */
  lemma NegativeTimeoutNeverExpires(t: real, defaultTimeout: Option<real>, elapsed: real)
    requires t < 0.0
    ensures StoredTimeout(Some(t), defaultTimeout) == None
    ensures !Expired(StoredTimeoutIntended(Some(t), defaultTimeout), elapsed)
  {
  }

  /** A `timeout` of `None` or zero falls back to the default. */
  lemma FallsBackToDefault(timeout: Option<real>, defaultTimeout: Option<real>)
    requires !Truthy(timeout)
    ensures StoredTimeout(timeout, defaultTimeout) == defaultTimeout
  {
  }

  /** Only a negative default tells the two readings apart. */
  lemma IntendedDiffersOnlyOnNegativeDefault(timeout: Option<real>, defaultTimeout: Option<real>)
    ensures StoredTimeoutIntended(timeout, defaultTimeout) != StoredTimeout(timeout, defaultTimeout)
      <==> !Truthy(timeout) && defaultTimeout.Some? && defaultTimeout.value < 0.0
  {
  }

  /** As written, a negative default timeout has expired as soon as it is
      checked: `Timer(default_timeout=-1)` reports expired at once. */
  lemma NegativeDefaultExpiresAsWritten()
    ensures StoredTimeout(None, Some(-1.0)) == Some(-1.0)
    ensures Expired(StoredTimeout(None, Some(-1.0)), 0.0)
  {
  }

  /** With the intended reading no timer whose `timeout` and default are
      both absent, zero or negative ever expires. */
  lemma NonPositiveNeverExpires(timeout: Option<real>, defaultTimeout: Option<real>, elapsed: real)
    requires timeout.None? || timeout.value <= 0.0
    requires defaultTimeout.None? || defaultTimeout.value <= 0.0
    ensures !Expired(StoredTimeoutIntended(timeout, defaultTimeout), elapsed)
  {
  }

  /** An expired timer reports the floor as its remaining time. */
  lemma ExpiredMeansFloor(stored: Option<real>, elapsed: real)
    requires Expired(stored, elapsed)
    ensures Remaining(stored, elapsed) == Some(MinRemaining)
  {
  }

  /** Before its positive timeout has passed by more than the floor, a
      timer reports exactly the time left. */
  lemma RemainingIsTimeLeft(stored: Option<real>, elapsed: real)
    requires Truthy(stored) && stored.value - elapsed >= MinRemaining
    ensures Remaining(stored, elapsed) == Some(stored.value - elapsed)
    ensures !Expired(stored, elapsed)
  {
  }

  class Timer {
    var startTime: real
    var storedTimeout: Option<real>

    /** `Timer(timeout, default_timeout)` made at time `now`. */
    constructor(timeout: Option<real>, defaultTimeout: Option<real>, now: real)
      ensures startTime == now
      ensures storedTimeout == StoredTimeoutIntended(timeout, defaultTimeout)
    {
      startTime := now;
      storedTimeout := StoredTimeoutIntended(timeout, defaultTimeout);
    }

    /** The `timeout` property at time `now`. */
    function Timeout(now: real): (r: Option<real>)
      reads this
      ensures r == Remaining(storedTimeout, now - startTime)
      ensures r.Some? ==> r.value >= MinRemaining
    {
      Remaining(storedTimeout, now - startTime)
    }

    /** `is_expired` at time `now`. */
    function IsExpired(now: real): (r: bool)
      reads this
      ensures r <==> Truthy(storedTimeout) && startTime + storedTimeout.value < now
    {
      Expired(storedTimeout, now - startTime)
    }
  }
}
