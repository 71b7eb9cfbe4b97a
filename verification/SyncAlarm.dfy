/** What an alarm does when it goes off: the test value is moved by delta until the test is false. */
module SyncAlarm {
  import opened Options
  import opened SyncValues

  /** The test value after `k` additions, before any 64-bit limit. */
  function Moved(test: int, delta: int, k: nat): int {
    test + k * delta
  }

  /** The re-initialised trigger is still true: its counter stands at `now` and did not move. */
  predicate StillTrue(check: TestType, test: int, now: Int64) {
    Fits(test) && Holds(check, test, now, now)
  }

  /** `k` additions are made: every earlier one stays in range and leaves the test true, and the
      `k`-th either leaves the range or makes the test false. */
  ghost predicate IsAdvance(check: TestType, test: Int64, delta: Int64, now: Int64, k: nat) {
    && k >= 1
    && (forall j: nat :: 1 <= j < k ==> StillTrue(check, Moved(test, delta, j), now))
    && !StillTrue(check, Moved(test, delta, k), now)
  }

  /** There is only one such count, so IsAdvance fixes the outcome. */
  lemma AdvanceUnique(check: TestType, test: Int64, delta: Int64, now: Int64, k: nat, m: nat)
    requires IsAdvance(check, test, delta, now, k) && IsAdvance(check, test, delta, now, m)
    ensures k == m
  {
  }

  /** The count in closed form, for a delta that moves the test value away from the counter. */
  function Jumps(check: TestType, test: Int64, delta: Int64, now: Int64): (k: nat)
    requires delta != 0
  {
    match check
    case PositiveComparison => if delta > 0 && now >= test then (now - test) / delta + 1 else 1
    case NegativeComparison => if delta < 0 && now <= test then (test - now) / -(delta as int) + 1 else 1
    case _ => 1
  }

  /** The sign rule of the protocol: positive tests go with non-negative deltas. */
  predicate SignAgrees(check: TestType, delta: Int64) {
    match check
    case PositiveComparison => delta >= 0
    case PositiveTransition => delta >= 0
    case NegativeComparison => delta <= 0
    case NegativeTransition => delta <= 0
    case UnknownTest(_) => true
  }

  lemma DivisionStep(d: nat, p: int, j: nat)
    requires p > 0 && j <= d / p
    ensures 0 <= j * p <= d < (d / p + 1) * p <= d + p
  {
    assert d == (d / p) * p + d % p;
    assert (d / p + 1) * p == (d / p) * p + p;
    MulMono(0, j, p);
    MulMono(j, d / p, p);
  }

  lemma MulMono(a: int, b: int, p: int)
    requires a <= b && p >= 0
    ensures a * p <= b * p
  {
  }

  lemma PositiveAdvance(test: Int64, delta: Int64, now: Int64, k: nat)
    requires delta > 0 && test <= now && k == (now - test) / delta + 1
    ensures IsAdvance(PositiveComparison, test, delta, now, k)
    ensures now < Moved(test, delta, k) <= now + delta
  {
    forall j: nat | 1 <= j < k
      ensures StillTrue(PositiveComparison, Moved(test, delta, j), now)
    {
      DivisionStep(now - test, delta, j);
    }
    DivisionStep(now - test, delta, 0);
  }

  lemma NegativeAdvance(test: Int64, delta: Int64, now: Int64, k: nat)
    requires delta < 0 && test >= now && k == (test - now) / -(delta as int) + 1
    ensures IsAdvance(NegativeComparison, test, delta, now, k)
    ensures now + delta <= Moved(test, delta, k) < now
  {
    var p := -(delta as int);
    forall j: nat | 1 <= j < k
      ensures StillTrue(NegativeComparison, Moved(test, delta, j), now)
    {
      DivisionStep(test - now, p, j);
      Negated(j, delta);
    }
    DivisionStep(test - now, p, 0);
    Negated(k, delta);
  }

  lemma Negated(k: nat, delta: int)
    ensures k * delta == -(k * -delta)
  {
  }

  /** A true comparison trigger with a non-zero delta of the right sign moves by exactly
      test + k * delta for the least k >= 1 that makes the test false; the sum may be out of
      range. */
  lemma ComparisonAdvance(check: TestType, test: Int64, delta: Int64, now: Int64)
    requires IsComparison(check) && delta != 0 && SignAgrees(check, delta)
    requires Holds(check, test, now, now)
    ensures var k := Jumps(check, test, delta, now);
            && IsAdvance(check, test, delta, now, k)
            && (if check.PositiveComparison? then now < Moved(test, delta, k) <= now + delta
                else now + delta <= Moved(test, delta, k) < now)
  {
    var k := Jumps(check, test, delta, now);
    if check.PositiveComparison? {
      PositiveAdvance(test, delta, now, k);
    } else {
      NegativeAdvance(test, delta, now, k);
    }
  }

  /** Transition alarms move by exactly one delta, whatever its sign. */
  lemma TransitionAdvance(check: TestType, test: Int64, delta: Int64, now: Int64)
    requires !IsComparison(check)
    ensures IsAdvance(check, test, delta, now, 1)
  {
    assert !StillTrue(check, Moved(test, delta, 1), now);
  }

  /** A delta of the wrong sign moves a true comparison trigger until it leaves the range. */
  lemma WrongSignAdvance(check: TestType, test: Int64, delta: Int64, now: Int64, k: nat)
    requires IsComparison(check) && !SignAgrees(check, delta)
    requires Holds(check, test, now, now)
    requires IsAdvance(check, test, delta, now, k)
    ensures !Fits(Moved(test, delta, k))
  {
    if delta > 0 {
      MulMono(0, k, delta);
    } else {
      MulMono(0, k, -(delta as int));
      assert k * delta == -(k * -(delta as int));
    }
  }

  /** The test value an alarm ends with; None is the overflow that makes it Inactive. */
  function AdvanceResult(check: TestType, test: Int64, delta: Int64, now: Int64): Option<Int64> {
    if delta == 0 then
      Some(test)
    else if IsComparison(check) && !SignAgrees(check, delta) then
      None
    else
      var moved := Moved(test, delta, Jumps(check, test, delta, now));
      if Fits(moved) then Some(moved) else None
  }

  /** The closed form is what the repeated addition arrives at, from any true trigger. */
  lemma AdvanceResultCorrect(check: TestType, test: Int64, delta: Int64, now: Int64, k: nat)
    requires IsComparison(check) ==> Holds(check, test, now, now)
    requires IsAdvance(check, test, delta, now, k)
    ensures AdvanceResult(check, test, delta, now)
            == if Fits(Moved(test, delta, k)) then Some(Moved(test, delta, k)) else None
  {
    if !IsComparison(check) {
      TransitionAdvance(check, test, delta, now);
      AdvanceUnique(check, test, delta, now, 1, k);
    } else if !SignAgrees(check, delta) {
      WrongSignAdvance(check, test, delta, now, k);
    } else if delta != 0 {
      ComparisonAdvance(check, test, delta, now);
      AdvanceUnique(check, test, delta, now, Jumps(check, test, delta, now), k);
    } else {
      assert Moved(test, delta, k) == test;
    }
  }

  /** The repeated addition stops exactly when delta is non-zero or the test is already false. */
  lemma {:induction false} AdvanceStops(check: TestType, test: Int64, delta: Int64, now: Int64)
    ensures (exists k: nat :: IsAdvance(check, test, delta, now, k))
            <==> delta != 0 || !Holds(check, test, now, now)
  {
    if delta == 0 {
      forall k: nat
        ensures Moved(test, delta, k) == test
      {
      }
      if !Holds(check, test, now, now) {
        assert IsAdvance(check, test, delta, now, 1);
      }
    } else {
      var k := AdvanceFrom(check, test, delta, now, 1);
    }
  }

  lemma {:induction false} AdvanceFrom(check: TestType, test: Int64, delta: Int64, now: Int64, i: nat)
    returns (k: nat)
    requires delta != 0 && i >= 1
    requires forall j: nat :: 1 <= j < i ==> StillTrue(check, Moved(test, delta, j), now)
    ensures IsAdvance(check, test, delta, now, k)
    decreases if delta > 0 then MAX_VALUE - Moved(test, delta, i) else Moved(test, delta, i) - MIN_VALUE
  {
    if !StillTrue(check, Moved(test, delta, i), now) {
      k := i;
    } else {
      assert Moved(test, delta, i + 1) == Moved(test, delta, i) + delta;
      k := AdvanceFrom(check, test, delta, now, i + 1);
    }
  }

  /** The source's do-while loop. It returns the sum it stopped at and the overflow flag. */
  method AdvanceLoop(check: TestType, test: Int64, delta: Int64, now: Int64)
    returns (moved: Int64, overflow: bool)
    requires delta != 0 || !Holds(check, test, now, now)
    ensures exists k: nat ::
      && IsAdvance(check, test, delta, now, k)
      && overflow == !Fits(Moved(test, delta, k))
      && (!overflow ==> moved == Moved(test, delta, k))
  {
    var sum := Add(test, delta);
    moved, overflow := sum.0, sum.1;
    ghost var k: nat := 1;
    assert Moved(test, delta, 1) == test + delta;
    while !overflow && Holds(check, moved, now, now)
      invariant k >= 1
      invariant forall j: nat :: 1 <= j < k ==> StillTrue(check, Moved(test, delta, j), now)
      invariant overflow == !Fits(Moved(test, delta, k))
      invariant !overflow ==> moved == Moved(test, delta, k)
      decreases !overflow, if delta > 0 then MAX_VALUE - moved else moved - MIN_VALUE
    {
      assert delta == 0 ==> Moved(test, delta, k) == test;
      assert Moved(test, delta, k + 1) == Moved(test, delta, k) + delta;
      sum := Add(moved, delta);
      moved, overflow := sum.0, sum.1;
      k := k + 1;
    }
  }
}
