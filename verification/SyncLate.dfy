/** Requests that come too late, and one that looks as if it did: concrete inputs. */
module SyncLate {
  import opened Options
  import opened SyncValues
  import opened SyncModel
  import opened SyncBrackets
  import opened SyncChange
  import opened SyncServer
  import opened SyncTriggers
  import opened SyncRequests
  import opened SyncRun
  import opened SyncIdle
  import opened SyncStore
  import opened SyncWatch
  import opened SyncAlarmWatch
  import opened SyncLoss
  import SyncAlarm

  /** The wakeup sends nothing although a full check would send something. */
  ghost predicate MissesEvent(st: State, c: nat, w: Wakeup) {
    Idle(st, c) && WokenUp(st, c, w).log == st.log && CheckedAlways(st, c, w).log != st.log
  }

  lemma MissLoses(st: State, c: nat, w: Wakeup)
    requires MissesEvent(st, c, w)
    ensures !LosesNothing(st, c) && !Ready(st, c)
  {
    if Ready(st, c) {
      WakeupRefines(st, st, c, w);
    }
    var ws := [w];
    assert ws[1..] == [];
    assert WakeupRun(st, c, ws) == WakeupRun(WokenUp(st, c, w), c, []);
    assert CheckedRun(st, c, ws) == CheckedRun(CheckedAlways(st, c, w), c, []);
  }

  /** The first value the wakeup looks at. */
  function FirstLook(w: Wakeup): Int64 {
    if w.reset then 0 else w.idle
  }

  lemma MissesWhen(st: State, c: nat, w: Wakeup, a: nat)
    requires Idle(st, c) && a in st.alarms && st.alarms[a].state == Active
    requires OfAlarm(a) in st.counters[c].triggers && GoesTrue(st, c, FirstLook(w), OfAlarm(a))
    requires var si := st.counters[c].system.value;
             !Crosses(si.less, si.greater, FirstLook(w)) && !Crosses(si.less, si.greater, w.idle)
    ensures MissesEvent(st, c, w)
  {
    Heard(st, c, FirstLook(w), st.counters[c].triggers, OfAlarm(a));
    assert |AfterChange(st, c, FirstLook(w)).log| > |st.log|;
    if w.reset && w.idle != 0 {
      assert |AfterChange(AfterChange(st, c, 0), c, w.idle).log| >= |AfterChange(st, c, 0).log|;
    }
  }

  /** A clock that shows this value. */
  function Shows(now: Int64): nat -> Int64 {
    c => now
  }

  /** The idle-time counter at 900, and an alarm at 1000. */
  function IdleAt900(check: TestType): State {
    State(map[0 := Counter(900, Some(SysInfo(Unrestricted, None, Some(1000))), [OfAlarm(1)], false)],
          map[1 := Alarm(Trigger(Some(0), check, check, Absolute, 1000, 1000), 0, Active)], map[], [])
  }

  lemma ReadyAt900(check: TestType)
    requires check.PositiveComparison? || check.PositiveTransition? || check.NegativeTransition?
    ensures Running(IdleAt900(check)) && Ready(IdleAt900(check), 0)
  {
    var st := IdleAt900(check);
    assert SoundList(st, 0, [OfAlarm(1)]);
  }

  // ----- queries

  lemma QueryStored(st: State, c: nat, now: Int64)
    requires Running(st) && Idle(st, c)
    ensures QueryEffect(st, c, Shows(now)) == Stored(st, c, now)
            && Running(Stored(st, c, now)) && Idle(Stored(st, c, now), c)
  {
    SilentRunning(st, Stored(st, c, now));
  }

  lemma QueryRunning(check: TestType, now: Int64)
    requires check.PositiveComparison? || check.PositiveTransition? || check.NegativeTransition?
    ensures var r := QueryEffect(IdleAt900(check), 0, Shows(now));
            && Running(r) && Idle(r, 0) && r == Stored(IdleAt900(check), 0, now)
            && Stays(IdleAt900(check), QueryCounter(0, Shows(now)), r, 0)
  {
    var st := IdleAt900(check);
    ReadyAt900(check);
    QueryStored(st, 0, now);
    OwnStays(st, QueryCounter(0, Shows(now)), Stored(st, 0, now), 0);
  }

  /** A transition comes true in silence: the idle time goes from 900 to 1000, but it is a query that finds it there.
      A wakeup would have sent the event; after the query none does. */
  lemma QueryPassesTransition(w: Wakeup)
    requires !w.reset && w.idle >= 1000
    ensures var st, r := IdleAt900(PositiveTransition), QueryEffect(IdleAt900(PositiveTransition), 0, Shows(1000));
            && LosesNothing(st, 0) && !Timely(st, QueryCounter(0, Shows(1000)), 0)
            && WokenUp(st, 0, w).log != [] && WokenUp(r, 0, w).log == []
  {
    var st, r := IdleAt900(PositiveTransition), Stored(IdleAt900(PositiveTransition), 0, 1000);
    ReadyAt900(PositiveTransition);
    ReadyExactly(st, 0);
    QueryRunning(PositiveTransition, 1000);
    assert OfAlarm(1) in st.counters[0].triggers && CanAct(st, OfAlarm(1)) && GoesTrue(st, 0, 1000, OfAlarm(1));
    Heard(st, 0, w.idle, [OfAlarm(1)], OfAlarm(1));
    NoEvents(r, 0, w.idle, [OfAlarm(1)]);
  }

  /** A transition is armed in silence: the alarm waits for the idle time to fall below 1000, a query finds 1001, and
      the user's return is not noticed. */
  lemma QueryTooLate()
    ensures var st, r := IdleAt900(NegativeTransition), QueryEffect(IdleAt900(NegativeTransition), 0, Shows(1001));
            LosesNothing(st, 0) && !Timely(st, QueryCounter(0, Shows(1001)), 0) && MissesEvent(r, 0, Wakeup(5, true))
  {
    var st, r := IdleAt900(NegativeTransition), Stored(IdleAt900(NegativeTransition), 0, 1001);
    ReadyAt900(NegativeTransition);
    ReadyExactly(st, 0);
    QueryRunning(NegativeTransition, 1001);
    MissesWhen(r, 0, Wakeup(5, true), 1);
    MissLoses(r, 0, Wakeup(5, true));
  }

  lemma QueryTimely(now: Int64)
    ensures Timely(IdleAt900(PositiveComparison), QueryCounter(0, Shows(now)), 0)
  {
  }

  lemma QueryHarmless()
    ensures LosesNothing(QueryEffect(IdleAt900(PositiveComparison), 0, Shows(1001)), 0)
  {
    ReadyAt900(PositiveComparison);
    QueryRunning(PositiveComparison, 1001);
    QueryTimely(1001);
    ReadyExactly(QueryEffect(IdleAt900(PositiveComparison), 0, Shows(1001)), 0);
  }

  /** A comparison that a query finds true is not lost: 1000 still stops the counter, and the next wakeup sends the
      event. */
  lemma QueryInTime(w: Wakeup)
    requires !w.reset && w.idle >= 1000
    ensures var st, r := IdleAt900(PositiveComparison), QueryEffect(IdleAt900(PositiveComparison), 0, Shows(1001));
            && Timely(st, QueryCounter(0, Shows(1001)), 0) && LosesNothing(r, 0) && Idle(r, 0)
            && WokenUp(r, 0, w).log != []
  {
    QueryTimely(1001);
    QueryHarmless();
    Heard(Stored(IdleAt900(PositiveComparison), 0, 1001), 0, w.idle, [OfAlarm(1)], OfAlarm(1));
  }

  // ----- a second alarm on the same counter

  function SecondAlarm(value: Int64): Attributes {
    NO_ATTRIBUTES.(counter := Some(Some(0)), value := Some(value))
  }

  /** The state when the second alarm has been set up, before it is looked at. */
  function WithSecond(check: TestType, value: Int64, now: Int64): State {
    AttributesAfter(IdleAt900(check).(alarms := IdleAt900(check).alarms[2 := NEW_ALARM]), 2, SecondAlarm(value),
                    Shows(now), true)
  }

  const NO_SECOND := Trigger(Some(0), PositiveComparison, PositiveComparison, Absolute, 0, 0)

  /** Both alarms are on the list, the second one Active, and the brackets are those of the value `now`. */
  ghost predicate TwoAlarms(r: State, check: TestType, value: Int64, now: Int64) {
    && Idle(r, 0) && FreshBrackets(r, 0) && r.counters[0].value == now
    && (forall t :: t in r.counters[0].triggers <==> t == OfAlarm(1) || t == OfAlarm(2))
    && 1 in r.alarms && r.alarms[1] == IdleAt900(check).alarms[1]
    && 2 in r.alarms && r.alarms[2] == Alarm(NO_SECOND.(waitValue := value, testValue := value), 1, Active)
    && r.log == []
  }

  lemma SecondAccepted(counters: map<nat, Counter>, value: Int64, now: Int64)
    requires 0 in counters
    ensures ChangeStatus(counters, NEW_ALARM, SecondAlarm(value), Shows(now), true) == Success
    ensures AlarmLeft(counters, NEW_ALARM, SecondAlarm(value), Shows(now), true)
            == Alarm(NO_SECOND.(waitValue := value, testValue := value), 1, Active)
  {
  }

  lemma SecondSetUp(check: TestType, value: Int64, now: Int64)
    requires check.PositiveComparison? || check.PositiveTransition? || check.NegativeTransition?
    ensures TwoAlarms(WithSecond(check, value, now), check, value, now)
    ensures Running(WithSecond(check, value, now))
  {
    var st := IdleAt900(check);
    var mid := st.(alarms := st.alarms[2 := NEW_ALARM]);
    ReadyAt900(check);
    NewAlarmRunning(st, 2);
    SecondAccepted(mid.counters, value, now);
    NewOutcome(st, 2, SecondAlarm(value), Shows(now), true, 0);
    AcceptedRunning(mid, 2, SecondAlarm(value), Shows(now), true);
    AttributesKeep(mid, 2, SecondAlarm(value), Shows(now), true);
    SecondListed(st, WithSecond(check, value, now));
  }

  lemma SecondListed(st: State, r: State)
    requires OnlyAlarm(st, r, 2) && Steady(st) && Idle(st, 0)
             && st.counters[0].triggers == [OfAlarm(1)] && 1 in st.alarms
    ensures Idle(r, 0) && 1 in r.alarms && r.alarms[1] == st.alarms[1]
    ensures forall t :: t != OfAlarm(2) ==> (t in r.counters[0].triggers <==> t == OfAlarm(1))
  {
    OtherTriggers(st, r, 2, 0);
    assert 1 in st.alarms - {2} && (st.alarms - {2})[1] == (r.alarms - {2})[1];
    forall t | t != OfAlarm(2) ensures t in r.counters[0].triggers <==> t == OfAlarm(1) {
      assert t in st.counters[0].triggers <==> t == OfAlarm(1);
    }
  }

  /** The request, with the second alarm looked at. */
  lemma SecondCreated(check: TestType, value: Int64, now: Int64)
    requires check.PositiveComparison? || check.PositiveTransition? || check.NegativeTransition?
    ensures var r1, r := WithSecond(check, value, now),
                        CreatedAlarm(IdleAt900(check), 2, SecondAlarm(value), Shows(now), true);
            && TwoAlarms(r1, check, value, now) && r == Checked(r1, 2, false) && Running(r)
  {
    var r1 := WithSecond(check, value, now);
    SecondSetUp(check, value, now);
    SecondAccepted(IdleAt900(check).counters, value, now);
    CheckedKeeps(r1, 2, false);
    AlarmRunning(r1, Checked(r1, 2, false), 2);
  }

  /** What is not ready afterwards was too late. */
  lemma UnreadyLate(st: State, r: Request, st': State, c: nat)
    requires Running(st) && Running(st') && Ready(st, c) && r.CreateAlarm? && st' == AlarmAfter(st, r) && !Ready(st', c)
    ensures !Timely(st, r, c)
  {
    CreateStays(st, r, st', c);
  }

  lemma CreateIs(st: State, a: nat, attrs: Attributes, clock: nat -> Int64, memory: bool)
    requires a !in st.alarms
    ensures AlarmAfter(st, CreateAlarm(a, attrs, clock, memory)) == CreatedAlarm(st, a, attrs, clock, memory)
  {
  }

  lemma SecondTooLate(check: TestType, value: Int64, now: Int64, r: State)
    requires check.PositiveComparison? || check.PositiveTransition? || check.NegativeTransition?
    requires r == CreatedAlarm(IdleAt900(check), 2, SecondAlarm(value), Shows(now), true) && Running(r) && !Ready(r, 0)
    ensures !Timely(IdleAt900(check), CreateAlarm(2, SecondAlarm(value), Shows(now), true), 0)
  {
    ReadyAt900(check);
    CreateIs(IdleAt900(check), 2, SecondAlarm(value), Shows(now), true);
    UnreadyLate(IdleAt900(check), CreateAlarm(2, SecondAlarm(value), Shows(now), true), r, 0);
  }

  /** No trigger of the list stops the counter on its way to `u`. */
  lemma NotStopped(st: State, c: nat, u: IdleTime)
    requires Idle(st, c) && FreshBrackets(st, c)
    requires forall t :: t in st.counters[c].triggers ==> !Stops(st.counters[c].value, u, TrigOf(st, t))
    ensures !Crosses(st.counters[c].system.value.less, st.counters[c].system.value.greater, u)
  {
    var cnt := st.counters[c];
    DataOf(st, cnt.triggers);
    FreshSilent(TrigData(st, cnt.triggers), cnt.value, u);
  }

  lemma SilentBefore5000(r: State, w: Wakeup)
    requires TwoAlarms(r, PositiveTransition, 5000, 1050) && !w.reset && 1050 <= w.idle < 5000
    ensures Checked(r, 2, false) == r && WokenUp(r, 0, w).log == []
  {
    NotStopped(r, 0, w.idle);
  }

  lemma CrossedLate(st: State, r: Request, c: nat, q: Int64, t: TrigId)
    requires Idle(st, c) && StoredBy(st, r, c) == Some(q) && t in st.counters[c].triggers
    requires CanAct(st, t) && GoesTrue(st, c, q, t) && !IsComparison(TrigOf(st, t).check)
    ensures !Timely(st, r, c)
  {
  }

  /** Every wakeup finds the transition. */
  lemma HeardAt900(w: Wakeup)
    requires !w.reset && w.idle >= 1000
    ensures WokenUp(IdleAt900(PositiveTransition), 0, w).log != []
  {
    Heard(IdleAt900(PositiveTransition), 0, w.idle, [OfAlarm(1)], OfAlarm(1));
  }

  lemma SecondLate()
    ensures !Timely(IdleAt900(PositiveTransition), CreateAlarm(2, SecondAlarm(5000), Shows(1050), true), 0)
  {
    CrossedLate(IdleAt900(PositiveTransition), CreateAlarm(2, SecondAlarm(5000), Shows(1050), true), 0, 1050,
                OfAlarm(1));
  }

  /** The same transition comes true in silence when another client creates an alarm: no wakeup before its alarm sends
      anything, although each would have without the request. */
  lemma CreatePassesTransition(w: Wakeup)
    requires !w.reset && 1050 <= w.idle < 5000
    ensures var st := IdleAt900(PositiveTransition);
            var r := CreatedAlarm(st, 2, SecondAlarm(5000), Shows(1050), true);
            && LosesNothing(st, 0) && !Timely(st, CreateAlarm(2, SecondAlarm(5000), Shows(1050), true), 0)
            && WokenUp(st, 0, w).log != [] && Idle(r, 0) && WokenUp(r, 0, w).log == []
  {
    var st := IdleAt900(PositiveTransition);
    ReadyAt900(PositiveTransition);
    ReadyExactly(st, 0);
    SecondCreated(PositiveTransition, 5000, 1050);
    SilentBefore5000(WithSecond(PositiveTransition, 5000, 1050), w);
    SecondLate();
    HeardAt900(w);
  }

  lemma FirstMissed(r: State)
    requires TwoAlarms(r, PositiveComparison, 5000, 1001)
    ensures Checked(r, 2, false) == r && MissesEvent(r, 0, Wakeup(1002, false))
  {
    NotStopped(r, 0, 1002);
    MissesWhen(r, 0, Wakeup(1002, false), 1);
  }

  /** A second alarm is created when the idle time is past the first one, which has not gone off yet: the brackets
      no longer know of it. */
  lemma CreateTooLate()
    ensures var st := IdleAt900(PositiveComparison);
            var r := CreatedAlarm(st, 2, SecondAlarm(5000), Shows(1001), true);
            && !Timely(st, CreateAlarm(2, SecondAlarm(5000), Shows(1001), true), 0)
            && MissesEvent(r, 0, Wakeup(1002, false))
  {
    SecondCreated(PositiveComparison, 5000, 1001);
    FirstMissed(WithSecond(PositiveComparison, 5000, 1001));
    MissLoses(WithSecond(PositiveComparison, 5000, 1001), 0, Wakeup(1002, false));
    SecondTooLate(PositiveComparison, 5000, 1001, WithSecond(PositiveComparison, 5000, 1001));
  }

  /** The second alarm goes off at once: its test value is 1051 then. */
  lemma SecondFires(r: State)
    requires TwoAlarms(r, NegativeTransition, 1020, 1050)
    ensures var r2 := Checked(r, 2, false);
            r2.counters == r.counters && 2 in r2.alarms && r2.alarms[2].state == Active
            && r2.alarms[2].trigger == NO_SECOND.(waitValue := 1020, testValue := 1051)
  {
    assert SyncAlarm.Jumps(PositiveComparison, 1020, 1, 1050) == 31;
  }

  lemma SecondMissed(r: State)
    requires TwoAlarms(r, NegativeTransition, 1020, 1050)
    ensures MissesEvent(Checked(r, 2, false), 0, Wakeup(1100, false))
  {
    NotStopped(r, 0, 1100);
    SecondFires(r);
    MissesWhen(Checked(r, 2, false), 0, Wakeup(1100, false), 2);
  }

  /** An alarm goes off as soon as it is created; its next test value is in no bracket. */
  lemma RearmedTooLate()
    ensures var st := IdleAt900(NegativeTransition);
            var r := CreatedAlarm(st, 2, SecondAlarm(1020), Shows(1050), true);
            && !Timely(st, CreateAlarm(2, SecondAlarm(1020), Shows(1050), true), 0)
            && MissesEvent(r, 0, Wakeup(1100, false))
  {
    SecondCreated(NegativeTransition, 1020, 1050);
    SecondMissed(WithSecond(NegativeTransition, 1020, 1050));
    MissLoses(Checked(WithSecond(NegativeTransition, 1020, 1050), 2, false), 0, Wakeup(1100, false));
    SecondTooLate(NegativeTransition, 1020, 1050, Checked(WithSecond(NegativeTransition, 1020, 1050), 2, false));
  }

  // ----- a request that stores nothing

  function AlarmAt(value: Int64): Alarm {
    Alarm(Trigger(Some(0), PositiveComparison, PositiveComparison, Absolute, value, value), 0, Active)
  }

  /** Two alarms, at 1000 and at 5000; a query has just found the idle time at 1001. */
  const AT_1001 :=
    State(map[0 := Counter(1001, Some(SysInfo(Unrestricted, None, Some(1000))), [OfAlarm(2), OfAlarm(1)], false)],
          map[1 := AlarmAt(1000), 2 := AlarmAt(5000)], map[], [])

  lemma RunningAt1001()
    ensures Running(AT_1001)
  {
    assert SoundList(AT_1001, 0, [OfAlarm(2), OfAlarm(1)]);
  }

  lemma ReadyAt1001()
    ensures Running(AT_1001) && Ready(AT_1001, 0)
  {
    RunningAt1001();
    ReadyParts(AT_1001, 0, None);
  }

  lemma SecondTakenOff()
    ensures var r := DestroyedAlarm(AT_1001, 2);
            0 in r.counters
            && r.counters[0] == Counter(1001, Some(SysInfo(Unrestricted, Some(1000), None)), [OfAlarm(1)], false)
            && 1 in r.alarms && r.alarms[1] == AT_1001.alarms[1]
  {
    assert Survivors([OfAlarm(1)], {OfAlarm(2)}) == [OfAlarm(1)];
    assert [OfAlarm(2), OfAlarm(1)][1..] == [OfAlarm(1)];
    assert Survivors([OfAlarm(2), OfAlarm(1)], {OfAlarm(2)}) == [OfAlarm(1)];
  }

  lemma NoneLostAt1001()
    ensures LosesNothing(AT_1001, 0)
  {
    ReadyAt1001();
    ReadyExactly(AT_1001, 0);
  }

  lemma DestroyLate()
    ensures !Timely(AT_1001, DestroyAlarm(2), 0)
  {
    NotCovered();
  }

  lemma DestroyMisses()
    ensures MissesEvent(DestroyedAlarm(AT_1001, 2), 0, Wakeup(1002, false))
  {
    SecondTakenOff();
    ForgottenMissed(DestroyedAlarm(AT_1001, 2));
  }

  /** The second alarm is destroyed: the brackets are computed again at 1001, and the first one is forgotten. */
  lemma DestroyTooLate()
    ensures LosesNothing(AT_1001, 0) && !Timely(AT_1001, DestroyAlarm(2), 0)
    ensures MissesEvent(DestroyedAlarm(AT_1001, 2), 0, Wakeup(1002, false))
  {
    NoneLostAt1001();
    DestroyLate();
    DestroyMisses();
  }

  lemma ForgottenMissed(r: State)
    requires 0 in r.counters && 1 in r.alarms && r.alarms[1] == AT_1001.alarms[1]
    requires r.counters[0] == Counter(1001, Some(SysInfo(Unrestricted, Some(1000), None)), [OfAlarm(1)], false)
    ensures MissesEvent(r, 0, Wakeup(1002, false))
  {
    MissesWhen(r, 0, Wakeup(1002, false), 1);
  }

  lemma NotCovered()
    ensures !LeftInTime(AT_1001, 0, {OfAlarm(2)})
  {
    assert Silent(AT_1001, 0, {OfAlarm(2)}, {}, 1001, 1001);
    assert !Covered(AT_1001, 0, {OfAlarm(2)}, {}, 1001, TrigOf(AT_1001, OfAlarm(1)));
    assert OfAlarm(1) in AT_1001.counters[0].triggers;
  }
}
