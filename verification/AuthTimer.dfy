/** The timer of a generated authorization: waits that do not fit in 32 bits of milliseconds are cut into
    chunks. */
module AuthTimer {

  const MILLI_PER_SECOND := 1000
  /** The full seconds that can be expressed in 32 bits worth of milliseconds. */
  const MAX_SECS := 0xffff_ffff / MILLI_PER_SECOND

  /** SecurityComputeAuthorizationTimeout: the delay in milliseconds and the new secondsRemaining. */
  function ComputeTimeout(seconds: nat): (r: (nat, nat))
    ensures r.0 + MILLI_PER_SECOND * r.1 == MILLI_PER_SECOND * seconds
    ensures r.0 < 0x1_0000_0000
    ensures seconds > 0 ==> r.0 > 0 && r.1 < seconds
  {
    if seconds > MAX_SECS then (MAX_SECS * MILLI_PER_SECOND, seconds - MAX_SECS)
    else (seconds * MILLI_PER_SECOND, 0)
  }

  /** `k` is seconds / MAX_SECS, rounded up. */
  predicate IsCeil(k: nat, seconds: nat) {
    (k - 1) * MAX_SECS < seconds <= k * MAX_SECS
  }

  /** The time that passes until the authorization is deleted, with a timer that waits as long as it is
      asked to. */
  function TotalWait(seconds: nat): nat
    decreases seconds
  {
    if seconds == 0 then 0
    else
      var (delay, rest) := ComputeTimeout(seconds);
      delay + TotalWait(rest)
  }

  /** The number of times the timer fires. */
  function Fires(seconds: nat): nat
    decreases seconds
  {
    if seconds == 0 then 0 else 1 + Fires(ComputeTimeout(seconds).1)
  }

  lemma {:induction false} FiresIsCeil(seconds: nat)
    ensures IsCeil(Fires(seconds), seconds)
    decreases seconds
  {
    if seconds > MAX_SECS {
      FiresIsCeil(seconds - MAX_SECS);
    } else if seconds > 0 {
      assert Fires(0) == 0;
    }
  }

  /** The chunks add up to the timeout. */
  lemma {:induction false} WaitsExactly(seconds: nat)
    ensures TotalWait(seconds) == MILLI_PER_SECOND * seconds
    decreases seconds
  {
    if seconds > 0 {
      WaitsExactly(ComputeTimeout(seconds).1);
    }
  }

  /** The same time with TimerSet of the os layer, which compares signed 32-bit numbers: a delay of 2^31 or more
      seems to lie in the past. Then the callback is called at once, and the timer is queued for a time
      that has passed, whatever delay the callback returns. */
  function ActualWait(seconds: nat): nat
    decreases seconds
  {
    if seconds == 0 then 0
    else
      var (delay, rest) := ComputeTimeout(seconds);
      if delay < 0x8000_0000 then delay + ActualWait(rest)
      else if rest == 0 then 0
      else ActualWait(ComputeTimeout(rest).1)
  }

  lemma {:induction false} NeverWaitsLonger(seconds: nat)
    ensures ActualWait(seconds) <= MILLI_PER_SECOND * seconds
    decreases seconds
  {
    if seconds > 0 {
      var (delay, rest) := ComputeTimeout(seconds);
      NeverWaitsLonger(rest);
      if rest > 0 {
        NeverWaitsLonger(ComputeTimeout(rest).1);
      }
    }
  }

  /** With that timer the full timeout is waited exactly if it is shorter than 2^31 milliseconds. */
  lemma WaitsInFullExactlyWhen(seconds: nat)
    ensures ActualWait(seconds) == MILLI_PER_SECOND * seconds <==> MILLI_PER_SECOND * seconds < 0x8000_0000
  {
    if seconds > 0 {
      var (delay, rest) := ComputeTimeout(seconds);
      NeverWaitsLonger(rest);
      if rest > 0 {
        NeverWaitsLonger(ComputeTimeout(rest).1);
      }
      assert rest == 0 ==> ActualWait(rest) == 0;
    }
  }

  /** A timeout of 2147484 seconds, one second too long, is not waited at all. */
  lemma LongTimeoutNotWaited()
    ensures ActualWait(2147484) == 0
    ensures TotalWait(2147484) == 2147484000
  {
    WaitsExactly(2147484);
    assert ComputeTimeout(2147484) == (2147484000, 0);
  }

  /** An authorization that nobody uses, from the start of its timer to its deletion: `delays` are the values
      handed to the timer service. */
  method WaitOut(timeout: nat) returns (delays: seq<nat>, total: nat)
    requires 0 < timeout < 0x1_0000_0000
    ensures total == MILLI_PER_SECOND * timeout
    ensures IsCeil(|delays|, timeout)
    ensures forall i :: 0 <= i < |delays| ==> 0 < delays[i] < 0x1_0000_0000
  {
    var (delay, secondsRemaining) := ComputeTimeout(timeout);
    delays, total := [delay], delay;
    FiresIsCeil(timeout);
    while secondsRemaining != 0
      invariant total + MILLI_PER_SECOND * secondsRemaining == MILLI_PER_SECOND * timeout
      invariant |delays| + Fires(secondsRemaining) == Fires(timeout)
      invariant forall i :: 0 <= i < |delays| ==> 0 < delays[i] < 0x1_0000_0000
    {
      var next := ComputeTimeout(secondsRemaining);
      delay, secondsRemaining := next.0, next.1;
      delays, total := delays + [delay], total + delay;
    }
  }
}
