/** The interval around a system counter's value inside which nothing can fire. */
module SyncBrackets {
  import opened Options
  import opened SyncValues
  import opened SyncModel

  /** The trigger is not skipped because of the counter's type. */
  predicate Seen(ct: CounterType, tt: TestType) {
    match tt
    case PositiveComparison => ct != NeverIncreases
    case NegativeComparison => ct != NeverDecreases
    case NegativeTransition => ct != NeverIncreases
    case PositiveTransition => ct != NeverDecreases
    case UnknownTest(_) => false
  }

  /** A test value this trigger wants to be told about when the counter rises to it. */
  predicate Above(v: Int64, t: Trigger) {
    v < t.testValue || (t.testType.PositiveTransition? && v == t.testValue)
  }

  /** The same when the counter falls to it. */
  predicate Below(v: Int64, t: Trigger) {
    v > t.testValue || (t.testType.NegativeTransition? && v == t.testValue)
  }

  /** bracket_greater before any trigger is XSyncMaxValue; bracket_less is XSyncMinValue. */
  function GreaterOr(g: Option<Int64>): Int64 {
    match g case None => MAX_VALUE case Some(x) => x
  }

  function LessOr(l: Option<Int64>): Int64 {
    match l case None => MIN_VALUE case Some(x) => x
  }

  /** `greater` is the least seen test value above `v`, NULL when there is none below the top. */
  ghost predicate TightGreater(ct: CounterType, v: Int64, ts: seq<Trigger>, greater: Option<Int64>) {
    && (forall t :: t in ts && Seen(ct, t.testType) && Above(v, t) ==> GreaterOr(greater) <= t.testValue)
    && (greater.Some? ==>
          && greater.value < MAX_VALUE
          && exists t :: t in ts && Seen(ct, t.testType) && Above(v, t) && t.testValue == greater.value)
  }

  ghost predicate TightLess(ct: CounterType, v: Int64, ts: seq<Trigger>, less: Option<Int64>) {
    && (forall t :: t in ts && Seen(ct, t.testType) && Below(v, t) ==> LessOr(less) >= t.testValue)
    && (less.Some? ==>
          && less.value > MIN_VALUE
          && exists t :: t in ts && Seen(ct, t.testType) && Below(v, t) && t.testValue == less.value)
  }

  /** The brackets of a trigger list, as a function of the list. */
  function Greater(ct: CounterType, v: Int64, ts: seq<Trigger>): (g: Option<Int64>)
    ensures TightGreater(ct, v, ts, g)
  {
    if ts == [] then None
    else
      var t, rest := ts[|ts| - 1], ts[..|ts| - 1];
      var g := Greater(ct, v, rest);
      assert ts == rest + [t];
      assert forall x :: x in ts <==> x in rest || x == t;
      if Seen(ct, t.testType) && Above(v, t) && t.testValue < GreaterOr(g) then Some(t.testValue) else g
  }

  function Less(ct: CounterType, v: Int64, ts: seq<Trigger>): (l: Option<Int64>)
    ensures TightLess(ct, v, ts, l)
  {
    if ts == [] then None
    else
      var t, rest := ts[|ts| - 1], ts[..|ts| - 1];
      var l := Less(ct, v, rest);
      assert ts == rest + [t];
      assert forall x :: x in ts <==> x in rest || x == t;
      if Seen(ct, t.testType) && Below(v, t) && t.testValue > LessOr(l) then Some(t.testValue) else l
  }

  /** Tight brackets are unique, so the order of the list does not matter. */
  lemma TightIsUnique(ct: CounterType, v: Int64, ts: seq<Trigger>, l: Option<Int64>, g: Option<Int64>)
    requires TightGreater(ct, v, ts, g) && TightLess(ct, v, ts, l)
    ensures g == Greater(ct, v, ts) && l == Less(ct, v, ts)
  {
  }

  /** The trigger has to be told when the counter, which stands at `v`, rises to its test value. A comparison or a
      transition that the type of the counter is taken to rule out is passed over. */
  predicate TellsRising(ct: CounterType, v: Int64, t: Trigger) {
    match t.testType
    case PositiveComparison => !ct.NeverIncreases? && t.testValue > v
    case NegativeComparison => !ct.NeverDecreases? && t.testValue > v
    case NegativeTransition => !ct.NeverIncreases? && t.testValue > v
    case PositiveTransition => !ct.NeverDecreases? && t.testValue >= v
    case UnknownTest(_) => false
  }

  predicate TellsFalling(ct: CounterType, v: Int64, t: Trigger) {
    match t.testType
    case PositiveComparison => !ct.NeverIncreases? && t.testValue < v
    case NegativeComparison => !ct.NeverDecreases? && t.testValue < v
    case NegativeTransition => !ct.NeverIncreases? && t.testValue <= v
    case PositiveTransition => !ct.NeverDecreases? && t.testValue < v
    case UnknownTest(_) => false
  }

  /** The upper bracket is the least of these test values, without the top of the 64-bit range. */
  lemma GreaterIs(ct: CounterType, v: Int64, ts: seq<Trigger>, x: Int64)
    ensures Greater(ct, v, ts) == Some(x)
            <==> x < MAX_VALUE && (exists t :: t in ts && TellsRising(ct, v, t) && t.testValue == x)
                 && forall t :: t in ts && TellsRising(ct, v, t) ==> x <= t.testValue
  {
    var g := Greater(ct, v, ts);
    forall t ensures TellsRising(ct, v, t) <==> Seen(ct, t.testType) && Above(v, t) { }
    if x < MAX_VALUE && (exists t :: t in ts && TellsRising(ct, v, t) && t.testValue == x)
       && forall t :: t in ts && TellsRising(ct, v, t) ==> x <= t.testValue
    {
      assert GreaterOr(g) <= x;
    }
  }

  /** The lower bracket is the greatest of those, without the bottom. */
  lemma LessIs(ct: CounterType, v: Int64, ts: seq<Trigger>, x: Int64)
    ensures Less(ct, v, ts) == Some(x)
            <==> x > MIN_VALUE && (exists t :: t in ts && TellsFalling(ct, v, t) && t.testValue == x)
                 && forall t :: t in ts && TellsFalling(ct, v, t) ==> x >= t.testValue
  {
    var l := Less(ct, v, ts);
    forall t ensures TellsFalling(ct, v, t) <==> Seen(ct, t.testType) && Below(v, t) { }
    if x > MIN_VALUE && (exists t :: t in ts && TellsFalling(ct, v, t) && t.testValue == x)
       && forall t :: t in ts && TellsFalling(ct, v, t) ==> x >= t.testValue
    {
      assert LessOr(l) >= x;
    }
  }

  /** SyncComputeBracketValues, seen from outside: a NeverChanges counter keeps its brackets. */
  function Recomputed(si: SysInfo, v: Int64, ts: seq<Trigger>): SysInfo {
    if si.counterType.NeverChanges? then si
    else SysInfo(si.counterType, Less(si.counterType, v, ts), Greater(si.counterType, v, ts))
  }

  /** The loop of SyncComputeBracketValues over the triggers of the list. */
  method ComputeBracketValues(si: SysInfo, v: Int64, ts: seq<Trigger>) returns (r: SysInfo)
    ensures r == Recomputed(si, v, ts)
  {
    var ct := si.counterType;
    if ct == NeverChanges {
      return si;
    }
    var bracketGreater, bracketLess: Int64 := MAX_VALUE, MIN_VALUE;
    var newGreater, newLess: Option<Int64> := None, None;
    var i := 0;
    while i != |ts|
      invariant 0 <= i <= |ts|
      invariant newGreater == Greater(ct, v, ts[..i]) && bracketGreater == GreaterOr(newGreater)
      invariant newLess == Less(ct, v, ts[..i]) && bracketLess == LessOr(newLess)
    {
      var t := ts[i];
      var test := t.testValue;
      assert ts[..i + 1][..i] == ts[..i];
      if t.testType == PositiveComparison && ct != NeverIncreases {
        if v < test && test < bracketGreater {
          bracketGreater, newGreater := test, Some(test);
        } else if v > test && test > bracketLess {
          bracketLess, newLess := test, Some(test);
        }
      } else if t.testType == NegativeComparison && ct != NeverDecreases {
        if v > test && test > bracketLess {
          bracketLess, newLess := test, Some(test);
        } else if v < test && test < bracketGreater {
          bracketGreater, newGreater := test, Some(test);
        }
      } else if t.testType == NegativeTransition && ct != NeverIncreases {
        if v >= test && test > bracketLess {
          bracketLess, newLess := test, Some(test);
        } else if v < test && test < bracketGreater {
          bracketGreater, newGreater := test, Some(test);
        }
      } else if t.testType == PositiveTransition && ct != NeverDecreases {
        if v <= test && test < bracketGreater {
          bracketGreater, newGreater := test, Some(test);
        } else if v > test && test > bracketLess {
          bracketLess, newLess := test, Some(test);
        }
      }
      i := i + 1;
    }
    assert ts[..|ts|] == ts;
    r := SysInfo(ct, newLess, newGreater);
  }

  // ----- what the brackets promise

  /** The counter's value stays strictly inside the brackets. */
  predicate Inside(less: Option<Int64>, greater: Option<Int64>, v: Int64) {
    LessOr(less) < v < GreaterOr(greater)
  }

  ghost predicate AllInside(less: Option<Int64>, greater: Option<Int64>, vs: seq<Int64>) {
    forall i :: 0 <= i < |vs| ==> Inside(less, greater, vs[i])
  }

  /** The value before step `i` of the chain. */
  function Before(v: Int64, vs: seq<Int64>, i: nat): Int64
    requires i < |vs|
  {
    if i == 0 then v else vs[i - 1]
  }

  /** Step `i` of the chain of values `v, vs[0], vs[1], ...` makes this trigger go off although it
      was not already a true comparison when the brackets were computed. */
  predicate GoesOff(t: Trigger, v: Int64, vs: seq<Int64>, i: nat)
    requires i < |vs|
  {
    && Holds(t.check, t.testValue, Before(v, vs, i), vs[i])
    && !(IsComparison(t.check) && Holds(t.check, t.testValue, v, v))
  }

  /** The bracket theorem: for an Unrestricted counter, along any chain of values strictly inside
      the brackets computed at `v`, no transition trigger ever becomes true and no comparison
      trigger that was false at `v` becomes true. */
  lemma BracketShortcut(v: Int64, ts: seq<Trigger>, vs: seq<Int64>)
    requires forall t :: t in ts ==> Agrees(t)
    requires AllInside(Less(Unrestricted, v, ts), Greater(Unrestricted, v, ts), vs)
    ensures forall t, i: nat :: t in ts && i < |vs| ==> !GoesOff(t, v, vs, i)
  {
    forall t, i: nat | t in ts && i < |vs|
      ensures !GoesOff(t, v, vs, i)
    {
      StaysOnItsSide(Unrestricted, v, ts, vs, t, i);
    }
  }

  /** A trigger that the counter's type does not hide cannot be crossed inside the brackets. */
  lemma StaysOnItsSide(ct: CounterType, v: Int64, ts: seq<Trigger>, vs: seq<Int64>, t: Trigger, i: nat)
    requires t in ts && Agrees(t) && (Seen(ct, t.testType) || t.testType.UnknownTest?) && i < |vs|
    requires AllInside(Less(ct, v, ts), Greater(ct, v, ts), vs)
    ensures !GoesOff(t, v, vs, i)
  {
    assert Inside(Less(ct, v, ts), Greater(ct, v, ts), vs[i]);
    if i > 0 {
      assert Inside(Less(ct, v, ts), Greater(ct, v, ts), vs[i - 1]);
    }
    if t.testType.UnknownTest? {
    } else if Above(v, t) {
      assert vs[i] < t.testValue;
    } else if Below(v, t) {
      assert vs[i] > t.testValue;
    }
  }

  /** A move this type of counter can make. */
  predicate Allowed(ct: CounterType, prev: Int64, now: Int64) {
    match ct
    case NeverChanges => now == prev
    case NeverIncreases => now <= prev
    case NeverDecreases => now >= prev
    case Unrestricted => true
  }

  /** A transition trigger the type guards drop although its test value can still be crossed, and
      no trigger they let through has a test value at which the counter stops before. */
  predicate Lost(ct: CounterType, v: Int64, ts: seq<Trigger>, t: Trigger) {
    match ct
    case NeverDecreases =>
      && t.testType.PositiveTransition? && v < t.testValue < MAX_VALUE
      && forall s :: s in ts && Seen(ct, s.testType) ==> !(v < s.testValue <= t.testValue)
    case NeverIncreases =>
      && t.testType.NegativeTransition? && v > t.testValue > MIN_VALUE
      && forall s :: s in ts && Seen(ct, s.testType) ==> !(v > s.testValue >= t.testValue)
    case _ => false
  }

  ghost predicate AllowedChain(ct: CounterType, v: Int64, vs: seq<Int64>) {
    forall i: nat :: i < |vs| ==> Allowed(ct, Before(v, vs, i), vs[i])
  }

  lemma {:induction false} ChainAllowed(ct: CounterType, v: Int64, vs: seq<Int64>, i: nat)
    requires AllowedChain(ct, v, vs) && i < |vs|
    ensures Allowed(ct, v, vs[i])
  {
    if i > 0 {
      ChainAllowed(ct, v, vs, i - 1);
    }
    assert Allowed(ct, Before(v, vs, i), vs[i]);
  }

  lemma NotLostStays(ct: CounterType, v: Int64, ts: seq<Trigger>, vs: seq<Int64>, t: Trigger, i: nat)
    requires t in ts && Agrees(t) && !Lost(ct, v, ts, t) && i < |vs|
    requires AllowedChain(ct, v, vs) && AllInside(Less(ct, v, ts), Greater(ct, v, ts), vs)
    ensures !GoesOff(t, v, vs, i)
  {
    if Seen(ct, t.testType) || t.testType.UnknownTest? {
      StaysOnItsSide(ct, v, ts, vs, t, i);
    } else {
      assert Inside(Less(ct, v, ts), Greater(ct, v, ts), vs[i]);
      ChainAllowed(ct, v, vs, i);
      if i > 0 {
        ChainAllowed(ct, v, vs, i - 1);
      }
    }
  }

  /** The chain shows a trigger that the brackets miss. */
  ghost predicate Misses(ct: CounterType, v: Int64, ts: seq<Trigger>, vs: seq<Int64>, t: Trigger, i: nat) {
    && t in ts && i < |vs|
    && AllowedChain(ct, v, vs)
    && AllInside(Less(ct, v, ts), Greater(ct, v, ts), vs)
    && GoesOff(t, v, vs, i)
  }

  /** Whatever the counter's type, the shortcut is right exactly when no trigger on the list is
      lost: the type guards of the two transition branches test for the wrong direction. */
  lemma ShortcutExactlyWhen(ct: CounterType, v: Int64, ts: seq<Trigger>)
    requires forall t :: t in ts ==> Agrees(t)
    ensures (exists vs, t, i: nat :: Misses(ct, v, ts, vs, t, i))
            <==> (exists t :: t in ts && Lost(ct, v, ts, t))
  {
    forall vs, t, i: nat | t in ts && !Lost(ct, v, ts, t)
      ensures !Misses(ct, v, ts, vs, t, i)
    {
      if i < |vs| && AllowedChain(ct, v, vs) && AllInside(Less(ct, v, ts), Greater(ct, v, ts), vs) {
        NotLostStays(ct, v, ts, vs, t, i);
      }
    }
    forall t | t in ts && Lost(ct, v, ts, t)
      ensures Misses(ct, v, ts, [t.testValue], t, 0)
    {
      LostGoesOff(ct, v, ts, t);
    }
  }

  lemma LostGoesOff(ct: CounterType, v: Int64, ts: seq<Trigger>, t: Trigger)
    requires t in ts && Agrees(t) && Lost(ct, v, ts, t)
    ensures Allowed(ct, v, t.testValue)
    ensures Inside(Less(ct, v, ts), Greater(ct, v, ts), t.testValue)
    ensures GoesOff(t, v, [t.testValue], 0)
  {
  }

  /** The server-time counter never decreases, so it loses a positive transition. */
  lemma ServerTimeLosesTransition()
    ensures var t := Trigger(Some(0), PositiveTransition, PositiveTransition, Absolute, 10, 10);
            && Greater(NeverDecreases, 5, [t]) == None
            && Inside(Less(NeverDecreases, 5, [t]), Greater(NeverDecreases, 5, [t]), 10)
            && GoesOff(t, 5, [10], 0)
  {
  }
}
