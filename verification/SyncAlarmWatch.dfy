/** Alarm requests between the wakeups of the idle-time counter: which of them leave every trigger guarded. */
module SyncAlarmWatch {
  import opened Options
  import opened SyncValues
  import opened SyncModel
  import opened SyncBrackets
  import opened SyncChange
  import opened SyncServer
  import opened SyncTriggers
  import opened SyncAwait
  import opened SyncRequests
  import opened SyncRun
  import opened SyncIdle
  import opened SyncStore
  import opened SyncWatch

  // ----- the other triggers

  lemma OtherTrigger(st: State, r: State, a: nat, t: TrigId)
    requires OnlyAlarm(st, r, a) && t != OfAlarm(a)
    ensures KeptTrigger(st, r, t)
  {
    if t.OfAlarm? {
      assert t.alarm in st.alarms - {a} <==> t.alarm in r.alarms - {a};
      if t.alarm in st.alarms {
        assert (st.alarms - {a})[t.alarm] == (r.alarms - {a})[t.alarm];
      }
    }
  }

  lemma OtherTriggers(st: State, r: State, a: nat, c: nat)
    requires OnlyAlarm(st, r, a) && c in st.counters
    ensures c in r.counters
    ensures forall t :: t != OfAlarm(a) ==> KeptTrigger(st, r, t)
    ensures forall t :: t != OfAlarm(a) ==> (t in r.counters[c].triggers <==> t in st.counters[c].triggers)
    ensures Idle(st, c) && NoneDying(st) ==> Idle(r, c)
  {
    forall t | t != OfAlarm(a)
      ensures KeptTrigger(st, r, t) && (t in r.counters[c].triggers <==> t in st.counters[c].triggers)
    {
      OtherTrigger(st, r, a, t);
      OthersOnList(st, r, a, c, t);
    }
    assert CounterKept(st.counters[c], r.counters[c], OfAlarm(a));
  }

  // ----- what SyncChangeAlarmAttributes does to one counter

  /** The counter is the one that the alarm is to name, and SyncInitTrigger asks it. */
  predicate Asks(al: Alarm, attrs: Attributes, c: nat) {
    !Early(al, attrs) && NamedCounter(al.trigger, ChangesOf(attrs)) == Some(c)
  }

  /** The alarm is about to leave every counter but the one it is to name. */
  predicate Leaves(counters: map<nat, Counter>, al: Alarm, attrs: Attributes) {
    var named := NamedCounter(al.trigger, ChangesOf(attrs));
    !Early(al, attrs) && (named.Some? ==> named.value in counters)
  }

  /** A counter, once `cnt`: it was asked and found to be at `now`, or it was left by the alarm `a`, or it is as it
      was. */
  ghost predicate Outcome(st: State, cnt: Counter, r: State, c: nat, a: nat, asks: bool, leaves: bool,
                          ok: bool, now: Int64) {
    && c in r.counters
    && var asked := Queried(cnt, now);
       if asks && ok then FreshBrackets(r, c) && r.counters[c].value == asked.value
            && OfAlarm(a) in r.counters[c].triggers
       else if asks then r.counters[c] == asked
       else r.counters[c] == if leaves then Withdrawn(st, cnt, {OfAlarm(a)}) else cnt
  }

  lemma InitOutcome(st: State, a: nat, ch: Changes, clock: nat -> Int64, memory: bool, c: nat)
    requires Steady(st) && a in st.alarms && c in st.counters && OnItsList(st, OfAlarm(a))
    ensures var t, named := OfAlarm(a), NamedCounter(TrigOf(st, OfAlarm(a)), ch);
            Outcome(st, st.counters[c], InitAfter(st, t, ch, clock, memory), c, a,
                    named == Some(c), named.Some? ==> named.value in st.counters,
                    InitStatus(st.counters, TrigOf(st, t), ch, clock, memory) == Success, clock(c))
  {
    var t := OfAlarm(a);
    var r, tr, cnt := InitAfter(st, t, ch, clock, memory), TrigOf(st, t), st.counters[c];
    InitCounters(st, t, ch, clock, memory, c);
    var named, status := NamedCounter(tr, ch), InitStatus(st.counters, tr, ch, clock, memory);
    if named == Some(c) && status == Success {
      var asked := Queried(cnt, clock(c));
      BracketedFresh(r, r, c, if tr.counter != named then asked.(triggers := [t] + asked.triggers) else asked);
      InitPlaces(st, t, ch, clock, memory);
    } else if named != Some(c) && tr.counter != Some(c) {
      NotElsewhere(st, t, c);
    }
  }

  lemma OutcomeActivated(st: State, cnt: Counter, r: State, c: nat, a: nat, asks: bool, leaves: bool,
                         ok: bool, now: Int64)
    requires Outcome(st, cnt, r, c, a, asks, leaves, ok, now) && a in r.alarms
    ensures Outcome(st, cnt, r.(alarms := r.alarms[a := r.alarms[a].(state := Active)]), c, a, asks, leaves, ok, now)
  {
    if FreshBrackets(r, c) {
      FreshStays(r, r.(alarms := r.alarms[a := r.alarms[a].(state := Active)]), c);
    }
  }

  lemma WithdrawnStays(st: State, mid: State, cnt: Counter, a: nat)
    requires mid.awaits == st.awaits && a in st.alarms && a in mid.alarms && mid.alarms == st.alarms[a := mid.alarms[a]]
    ensures Withdrawn(mid, cnt, {OfAlarm(a)}) == Withdrawn(st, cnt, {OfAlarm(a)})
  {
    BracketedAgree(mid, st, cnt.(triggers := Survivors(cnt.triggers, {OfAlarm(a)})));
  }

  lemma AttributesOutcome(st: State, a: nat, attrs: Attributes, clock: nat -> Int64, memory: bool, c: nat)
    requires Steady(st) && a in st.alarms && c in st.counters && OnItsList(st, OfAlarm(a))
    ensures Outcome(st, st.counters[c], AttributesAfter(st, a, attrs, clock, memory), c, a,
                    Asks(st.alarms[a], attrs, c), Leaves(st.counters, st.alarms[a], attrs),
                    ChangeStatus(st.counters, st.alarms[a], attrs, clock, memory) == Success, clock(c))
  {
    var al := st.alarms[a];
    if !Early(al, attrs) {
      var mid := st.(alarms := st.alarms[a := Written(al, attrs)]);
      StoredSteady(st, a, Written(al, attrs), st.log);
      InitOutcome(mid, a, ChangesOf(attrs), clock, memory, c);
      WithdrawnStays(st, mid, st.counters[c], a);
      var r := InitAfter(mid, OfAlarm(a), ChangesOf(attrs), clock, memory);
      if a in r.alarms {
        OutcomeActivated(st, st.counters[c], r, c, a, Asks(al, attrs, c), Leaves(st.counters, al, attrs),
                         ChangeStatus(st.counters, al, attrs, clock, memory) == Success, clock(c));
      }
    }
  }

  // ----- the alarm itself

  /** The trigger that the attributes ask for, with its counter found at `q`. */
  function Renewed(al: Alarm, attrs: Attributes, c: nat, q: Int64): Trigger {
    var t := Written(al, attrs).trigger;
    t.(counter := Some(c), check := t.testType,
       testValue := if attrs.valueType.None? && attrs.value.None? then t.testValue
                    else if t.valueType == Absolute then t.waitValue else Wrap(q + t.waitValue))
  }

  /** The types are known, but the sum that is to be the test value leaves the range. */
  predicate Overflows(al: Alarm, attrs: Attributes, q: Int64) {
    var t := Written(al, attrs).trigger;
    && !(attrs.valueType.Some? && t.valueType.UnknownValueType?) && !(attrs.testType.Some? && t.testType.UnknownTest?)
    && (attrs.valueType.Some? || attrs.value.Some?) && t.valueType != Absolute && !Fits(q + t.waitValue)
  }

  predicate SameTest(s: Trigger, t: Trigger) {
    s.check == t.check && s.testValue == t.testValue
  }

  /** An alarm that is accepted has the trigger asked for. One that is refused has it only if the sum overflowed, and
      keeps its test otherwise. */
  lemma LeftIs(counters: map<nat, Counter>, al: Alarm, attrs: Attributes, clock: nat -> Int64, memory: bool, c: nat)
    requires Asks(al, attrs, c) && c in counters && counters[c].system.Some? && Agrees(al.trigger)
    ensures var left, tr := AlarmLeft(counters, al, attrs, clock, memory), Renewed(al, attrs, c, clock(c));
            if ChangeStatus(counters, al, attrs, clock, memory) == Success
            then left == Alarm(tr, Or(attrs.delta, al.delta), Active)
            else left.state == al.state
                 && (al.trigger.counter == Some(c) ==>
                       SameTest(left.trigger, if Overflows(al, attrs, clock(c)) then tr else al.trigger))
  {
    if Fits(clock(c) + Written(al, attrs).trigger.waitValue) {
      WrapExact(clock(c) + Written(al, attrs).trigger.waitValue);
    }
  }

  /** An accepted alarm that is true at once goes off; if it stays Active, its next test value is covered by the
      brackets, which have been computed from its first one. */
  ghost predicate FiredCovered(st: State, c: nat, a: nat, al: Alarm, q: Int64)
    requires c in st.counters
  {
    Holds(al.trigger.check, al.trigger.testValue, q, q) ==>
      var fired := AlarmFired(al, q);
      fired.state == Active ==> Covered(st, c, {OfAlarm(a)}, {al.trigger}, q, fired.trigger)
  }

  /** The counter is asked: an accepted request has the brackets computed at the answer, from the triggers of the list
      and the one asked for. A refused one leaves the brackets as they are; the alarm, if it is on the list, has a
      new test if the sum overflowed. */
  ghost predicate AskedCovered(st: State, c: nat, a: nat, al: Alarm, attrs: Attributes, clock: nat -> Int64,
                               memory: bool)
    requires Idle(st, c)
  {
    var q, own, si := clock(c), OfAlarm(a), st.counters[c].system.value;
    var tr := Renewed(al, attrs, c, q);
    if ChangeStatus(st.counters, al, attrs, clock, memory) == Success then
      AllCovered(st, c, {own}, {tr}, q) && FiredCovered(st, c, a, Alarm(tr, Or(attrs.delta, al.delta), Active), q)
    else if own in st.counters[c].triggers && Overflows(al, attrs, q) then
      NoneSlips(st, c, q, Some(own)) && (al.state == Active ==> Guarded(tr, q, si.less, si.greater))
    else NoneSlips(st, c, q, None)
  }

  /** The alarm `a`, which was `al`, is created or changed. */
  ghost predicate AlarmCovered(st: State, c: nat, a: nat, al: Alarm, attrs: Attributes, clock: nat -> Int64,
                               memory: bool)
    requires Idle(st, c)
  {
    if Asks(al, attrs, c) then AskedCovered(st, c, a, al, attrs, clock, memory)
    else Leaves(st.counters, al, attrs) ==> LeftInTime(st, c, {OfAlarm(a)})
  }

  // ----- the counter has stored a value

  lemma StoredUnlisted(st: State, r: State, a: nat, c: nat, q: Int64)
    requires Running(st) && Ready(st, c) && Running(r) && OnlyAlarm(st, r, a)
    requires r.counters[c] == st.counters[c].(value := q) && OfAlarm(a) !in st.counters[c].triggers
    ensures Ready(r, c) <==> NoneSlips(st, c, q, None)
  {
    OtherTriggers(st, r, a, c);
    ReadyParts(st, c, None);
    StoredGuards(st, r, c, q, None);
    ReadyParts(r, c, None);
  }

  lemma OtherSlips(st: State, r: State, a: nat, c: nat, q: Int64)
    requires Running(st) && Ready(st, c) && OnlyAlarm(st, r, a) && r.counters[c] == st.counters[c].(value := q)
    ensures Idle(r, c) && (OthersGuarded(r, c, Some(OfAlarm(a))) <==> NoneSlips(st, c, q, Some(OfAlarm(a))))
  {
    OtherTriggers(st, r, a, c);
    ReadyParts(st, c, Some(OfAlarm(a)));
    StoredGuards(st, r, c, q, Some(OfAlarm(a)));
  }

  lemma OneMeans(r: State, a: nat, c: nat, tr: Trigger)
    requires Idle(r, c) && a in r.alarms && SameTest(r.alarms[a].trigger, tr)
    ensures var cnt := r.counters[c];
            OneGuarded(r, c, Some(OfAlarm(a)))
            <==> (OfAlarm(a) in cnt.triggers && r.alarms[a].state == Active ==>
                    Guarded(tr, cnt.value, cnt.system.value.less, cnt.system.value.greater))
  {
    assert TrigOf(r, OfAlarm(a)) == r.alarms[a].trigger;
  }

  /** The alarm is on the list, with the test of `tr`. */
  lemma StoredListed(st: State, r: State, a: nat, c: nat, q: Int64, tr: Trigger)
    requires Running(st) && Ready(st, c) && Running(r) && OnlyAlarm(st, r, a)
    requires r.counters[c] == st.counters[c].(value := q) && OfAlarm(a) in st.counters[c].triggers
    requires a in st.alarms && a in r.alarms && r.alarms[a].state == st.alarms[a].state
             && SameTest(r.alarms[a].trigger, tr)
    ensures var si := st.counters[c].system.value;
            Ready(r, c) <==> NoneSlips(st, c, q, Some(OfAlarm(a)))
                             && (st.alarms[a].state == Active ==> Guarded(tr, q, si.less, si.greater))
  {
    OtherSlips(st, r, a, c, q);
    OneMeans(r, a, c, tr);
    ReadyParts(r, c, Some(OfAlarm(a)));
  }

  /** If it keeps its test, it is one of the triggers that may slip back. */
  lemma OneMoreSlips(st: State, a: nat, c: nat, q: Int64)
    requires Ready(st, c) && OfAlarm(a) in st.counters[c].triggers && a in st.alarms
    ensures var si := st.counters[c].system.value;
            NoneSlips(st, c, q, None) <==> NoneSlips(st, c, q, Some(OfAlarm(a)))
                                           && (st.alarms[a].state == Active ==>
                                                  Guarded(st.alarms[a].trigger, q, si.less, si.greater))
  {
    var cnt, tr := st.counters[c], st.alarms[a].trigger;
    assert TrigOf(st, OfAlarm(a)) == tr;
    if st.alarms[a].state == Active {
      SlipsExactly(tr, cnt.value, q, cnt.system.value.less, cnt.system.value.greater);
    }
  }

  // ----- the brackets have been computed at the value asked for

  lemma RenewedData(st: State, r: State, a: nat, c: nat, tr: Trigger)
    requires Running(st) && OnlyAlarm(st, r, a) && Idle(st, c) && c in r.counters
    requires a in r.alarms && r.alarms[a].trigger == tr && OfAlarm(a) in r.counters[c].triggers
    ensures SameData(st, r, c, {OfAlarm(a)}, {tr})
  {
    OtherTriggers(st, r, a, c);
    assert TrigOf(r, OfAlarm(a)) == tr;
  }

  /** The alarm as it is when it has been looked at. */
  lemma OneChecked(r: State, a: nat, c: nat, noneFires: bool)
    requires Running(r) && Idle(r, c) && OfAlarm(a) in r.counters[c].triggers && a in r.alarms
             && r.alarms[a].state == Active
    ensures var al, q, si := r.alarms[a], r.counters[c].value, r.counters[c].system.value;
            var now := if Holds(al.trigger.check, al.trigger.testValue, q, q) then AlarmFired(al, q) else al;
            && Idle(Checked(r, a, noneFires), c)
            && (OneGuarded(Checked(r, a, noneFires), c, Some(OfAlarm(a)))
                <==> (now.state == Active ==> Guarded(now.trigger, q, si.less, si.greater)))
  {
    assert SoundList(r, c, r.counters[c].triggers);
    assert TrigOf(r, OfAlarm(a)) == r.alarms[a].trigger;
  }

  lemma NowGuarded(st: State, r: State, a: nat, c: nat)
    requires c in st.counters && Idle(r, c) && Orderly(r, c) && FreshBrackets(r, c)
    requires OfAlarm(a) in r.counters[c].triggers && a in r.alarms && r.alarms[a].state == Active
    requires SameData(st, r, c, {OfAlarm(a)}, {r.alarms[a].trigger})
    ensures var al, q, si := r.alarms[a], r.counters[c].value, r.counters[c].system.value;
            var now := if Holds(al.trigger.check, al.trigger.testValue, q, q) then AlarmFired(al, q) else al;
            (now.state == Active ==> Guarded(now.trigger, q, si.less, si.greater)) <==> FiredCovered(st, c, a, al, q)
  {
    var al, q := r.alarms[a], r.counters[c].value;
    if Holds(al.trigger.check, al.trigger.testValue, q, q) {
      GuardedCovered(st, r, c, {OfAlarm(a)}, {al.trigger}, AlarmFired(al, q).trigger);
    } else {
      assert TrigOf(r, OfAlarm(a)) == al.trigger;
      FreshFalse(r, c, OfAlarm(a));
    }
  }

  /** The alarm is guarded when it has been looked at. */
  lemma FiredGuarded(st: State, r: State, a: nat, c: nat, noneFires: bool)
    requires Running(st) && Idle(st, c) && Running(r) && Idle(r, c) && FreshBrackets(r, c) && OnlyAlarm(st, r, a)
    requires OfAlarm(a) in r.counters[c].triggers && a in r.alarms && r.alarms[a].state == Active
    ensures Idle(Checked(r, a, noneFires), c)
    ensures OneGuarded(Checked(r, a, noneFires), c, Some(OfAlarm(a)))
            <==> FiredCovered(st, c, a, r.alarms[a], r.counters[c].value)
  {
    OneChecked(r, a, c, noneFires);
    RunningOrderly(r, c);
    RenewedData(st, r, a, c, r.alarms[a].trigger);
    NowGuarded(st, r, a, c);
  }

  lemma CheckedOthers(r: State, a: nat, c: nat, noneFires: bool)
    requires Running(r) && Idle(r, c) && a in r.alarms && (!noneFires ==> r.alarms[a].trigger.counter.Some?)
    ensures var r2 := Checked(r, a, noneFires);
            r2.counters == r.counters
            && (OthersGuarded(r2, c, Some(OfAlarm(a))) <==> OthersGuarded(r, c, Some(OfAlarm(a))))
  {
    var r2 := Checked(r, a, noneFires);
    CheckedKeeps(r, a, noneFires);
    OtherTriggers(r, r2, a, c);
    SameGuards(r, r2, c, Some(OfAlarm(a)));
  }

  /** An accepted alarm on the list of `c`, set up in the state `r`. */
  lemma AskedReady(st: State, r: State, a: nat, c: nat, noneFires: bool)
    requires Running(st) && Idle(st, c) && Running(r) && Idle(r, c) && FreshBrackets(r, c) && OnlyAlarm(st, r, a)
    requires OfAlarm(a) in r.counters[c].triggers && a in r.alarms && r.alarms[a].state == Active
    requires (!noneFires ==> r.alarms[a].trigger.counter.Some?) && Running(Checked(r, a, noneFires))
    ensures var r2, al, q := Checked(r, a, noneFires), r.alarms[a], r.counters[c].value;
            && Idle(r2, c) && r2.counters[c].value == q
            && (Ready(r2, c) <==> AllCovered(st, c, {OfAlarm(a)}, {al.trigger}, q) && FiredCovered(st, c, a, al, q))
  {
    var but := Some(OfAlarm(a));
    FiredGuarded(st, r, a, c, noneFires);
    CheckedOthers(r, a, c, noneFires);
    AskedOthers(st, r, a, c);
    ReadyParts(Checked(r, a, noneFires), c, but);
  }

  lemma NoOtherNew(st: State, r: State, a: nat, c: nat)
    requires OnlyAlarm(st, r, a) && c in st.counters
    ensures c in r.counters
    ensures forall t :: t in r.counters[c].triggers && (t !in st.counters[c].triggers || t in {OfAlarm(a)}) ==>
              t == OfAlarm(a)
  {
    OtherTriggers(st, r, a, c);
  }

  lemma AskedOthers(st: State, r: State, a: nat, c: nat)
    requires Running(st) && Idle(st, c) && Running(r) && Idle(r, c) && FreshBrackets(r, c) && OnlyAlarm(st, r, a)
    requires OfAlarm(a) in r.counters[c].triggers && a in r.alarms
    ensures OthersGuarded(r, c, Some(OfAlarm(a)))
            <==> AllCovered(st, c, {OfAlarm(a)}, {r.alarms[a].trigger}, r.counters[c].value)
  {
    RenewedData(st, r, a, c, r.alarms[a].trigger);
    NoOtherNew(st, r, a, c);
    RebracketedGuards(st, r, c, {OfAlarm(a)}, {r.alarms[a].trigger}, Some(OfAlarm(a)));
  }

  // ----- the alarm has left

  lemma LeavingReady(st: State, r: State, a: nat, c: nat)
    requires Running(st) && Ready(st, c) && Running(r) && OnlyAlarm(st, r, a)
    requires r.counters[c] == Withdrawn(st, st.counters[c], {OfAlarm(a)})
    ensures Idle(r, c) && r.counters[c].value == st.counters[c].value
    ensures Ready(r, c) <==> LeftInTime(st, c, {OfAlarm(a)})
  {
    OtherTriggers(st, r, a, c);
    WithdrawnReady(st, r, c, {OfAlarm(a)});
  }

  /** Neither asked nor left: an alarm that stays on the list keeps its test. */
  lemma UntouchedReady(st: State, r: State, a: nat, c: nat)
    requires Running(st) && Ready(st, c) && Running(r) && OnlyAlarm(st, r, a) && r.counters[c] == st.counters[c]
    requires a in st.alarms && a in r.alarms && r.alarms[a].state == st.alarms[a].state
    requires OfAlarm(a) in st.counters[c].triggers ==> SameTest(r.alarms[a].trigger, st.alarms[a].trigger)
    ensures Ready(r, c)
  {
    OtherGuards(st, r, a, c);
    OneStays(st, r, a, c);
    ReadyParts(r, c, Some(OfAlarm(a)));
  }

  lemma OneStays(st: State, r: State, a: nat, c: nat)
    requires Idle(st, c) && Idle(r, c) && r.counters[c] == st.counters[c] && OneGuarded(st, c, Some(OfAlarm(a)))
    requires a in st.alarms && a in r.alarms && r.alarms[a].state == st.alarms[a].state
    requires OfAlarm(a) in st.counters[c].triggers ==> SameTest(r.alarms[a].trigger, st.alarms[a].trigger)
    ensures OneGuarded(r, c, Some(OfAlarm(a)))
  {
    OneMeans(st, a, c, st.alarms[a].trigger);
    OneMeans(r, a, c, r.alarms[a].trigger);
  }

  lemma OtherGuards(st: State, r: State, a: nat, c: nat)
    requires Running(st) && Ready(st, c) && OnlyAlarm(st, r, a) && r.counters[c] == st.counters[c]
    ensures Idle(r, c) && OthersGuarded(r, c, Some(OfAlarm(a))) && OneGuarded(st, c, Some(OfAlarm(a)))
  {
    OtherTriggers(st, r, a, c);
    ReadyParts(st, c, Some(OfAlarm(a)));
    SameGuards(st, r, c, Some(OfAlarm(a)));
  }

  // ----- ChangeAlarm requests

  lemma RefusedAskedReady(st: State, a: nat, attrs: Attributes, clock: nat -> Int64, memory: bool, c: nat)
    requires Running(st) && Ready(st, c) && a in st.alarms && Running(AttributesAfter(st, a, attrs, clock, memory))
    requires Asks(st.alarms[a], attrs, c) && ChangeStatus(st.counters, st.alarms[a], attrs, clock, memory) != Success
    ensures var r := AttributesAfter(st, a, attrs, clock, memory);
            && Idle(r, c) && r.counters[c].value == clock(c)
            && (Ready(r, c) <==> AskedCovered(st, c, a, st.alarms[a], attrs, clock, memory))
  {
    var r, al, q := AttributesAfter(st, a, attrs, clock, memory), st.alarms[a], clock(c);
    assert TidyAlarm(st, a);
    AttributesKeep(st, a, attrs, clock, memory);
    AttributesOutcome(st, a, attrs, clock, memory, c);
    AlarmIsLeft(st, a, attrs, clock, memory);
    LeftIs(st.counters, al, attrs, clock, memory, c);
    if OfAlarm(a) in st.counters[c].triggers {
      assert SoundList(st, c, st.counters[c].triggers);
      StoredListed(st, r, a, c, q, if Overflows(al, attrs, q) then Renewed(al, attrs, c, q) else al.trigger);
      OneMoreSlips(st, a, c, q);
    } else {
      StoredUnlisted(st, r, a, c, q);
    }
  }

  lemma RefusedUnaskedReady(st: State, a: nat, attrs: Attributes, clock: nat -> Int64, memory: bool, c: nat)
    requires Running(st) && Ready(st, c) && a in st.alarms && Running(AttributesAfter(st, a, attrs, clock, memory))
    requires !Asks(st.alarms[a], attrs, c) && ChangeStatus(st.counters, st.alarms[a], attrs, clock, memory) != Success
    ensures var r := AttributesAfter(st, a, attrs, clock, memory);
            && Idle(r, c) && r.counters[c].value == st.counters[c].value
            && (Ready(r, c) <==> AlarmCovered(st, c, a, st.alarms[a], attrs, clock, memory))
  {
    var r, al := AttributesAfter(st, a, attrs, clock, memory), st.alarms[a];
    assert TidyAlarm(st, a);
    AttributesKeep(st, a, attrs, clock, memory);
    AttributesOutcome(st, a, attrs, clock, memory, c);
    AlarmIsLeft(st, a, attrs, clock, memory);
    if Leaves(st.counters, al, attrs) {
      LeavingReady(st, r, a, c);
    } else {
      UntouchedReady(st, r, a, c);
    }
  }

  /** An accepted request, before the alarm is looked at. */
  lemma AcceptedRunning(st: State, a: nat, attrs: Attributes, clock: nat -> Int64, memory: bool)
    requires Running(st) && a in st.alarms && ChangeStatus(st.counters, st.alarms[a], attrs, clock, memory) == Success
    ensures var r := AttributesAfter(st, a, attrs, clock, memory);
            Running(r) && OnlyAlarm(st, r, a) && a in r.alarms
            && r.alarms[a] == AlarmLeft(st.counters, st.alarms[a], attrs, clock, memory)
  {
    assert TidyAlarm(st, a);
    AttributesKeep(st, a, attrs, clock, memory);
    AlarmIsLeft(st, a, attrs, clock, memory);
    TidyAfter(st, a, attrs, clock, memory);
    AlarmRunning(st, AttributesAfter(st, a, attrs, clock, memory), a);
  }

  lemma AcceptedAskedReady(st: State, a: nat, attrs: Attributes, clock: nat -> Int64, memory: bool, c: nat)
    requires Running(st) && Ready(st, c) && a in st.alarms && Running(ChangedAlarm(st, a, attrs, clock, memory))
    requires Asks(st.alarms[a], attrs, c) && ChangeStatus(st.counters, st.alarms[a], attrs, clock, memory) == Success
    ensures var r := ChangedAlarm(st, a, attrs, clock, memory);
            && Idle(r, c) && r.counters[c].value == clock(c)
            && (Ready(r, c) <==> AskedCovered(st, c, a, st.alarms[a], attrs, clock, memory))
  {
    assert TidyAlarm(st, a);
    AcceptedRunning(st, a, attrs, clock, memory);
    AttributesOutcome(st, a, attrs, clock, memory, c);
    LeftIs(st.counters, st.alarms[a], attrs, clock, memory, c);
    OtherTriggers(st, AttributesAfter(st, a, attrs, clock, memory), a, c);
    AskedReady(st, AttributesAfter(st, a, attrs, clock, memory), a, c, true);
  }

  /** An accepted alarm that has gone elsewhere. */
  lemma CheckedAway(st: State, r: State, a: nat, c: nat, noneFires: bool)
    requires Running(st) && Ready(st, c) && Running(r) && OnlyAlarm(st, r, a) && a in r.alarms
    requires (!noneFires ==> r.alarms[a].trigger.counter.Some?) && Running(Checked(r, a, noneFires))
    requires r.counters[c] == Withdrawn(st, st.counters[c], {OfAlarm(a)})
    ensures var r2 := Checked(r, a, noneFires);
            Idle(r2, c) && r2.counters[c].value == st.counters[c].value
            && (Ready(r2, c) <==> LeftInTime(st, c, {OfAlarm(a)}))
  {
    var r2 := Checked(r, a, noneFires);
    OtherTriggers(st, r, a, c);
    CheckedOthers(r, a, c, noneFires);
    CheckedKeeps(r, a, noneFires);
    OnlyAlarmTwice(st, r, r2, a);
    LeavingReady(st, r2, a, c);
  }

  lemma AcceptedUnaskedReady(st: State, a: nat, attrs: Attributes, clock: nat -> Int64, memory: bool, c: nat)
    requires Running(st) && Ready(st, c) && a in st.alarms && Running(ChangedAlarm(st, a, attrs, clock, memory))
    requires !Asks(st.alarms[a], attrs, c) && ChangeStatus(st.counters, st.alarms[a], attrs, clock, memory) == Success
    ensures var r := ChangedAlarm(st, a, attrs, clock, memory);
            && Idle(r, c) && r.counters[c].value == st.counters[c].value
            && (Ready(r, c) <==> AlarmCovered(st, c, a, st.alarms[a], attrs, clock, memory))
  {
    assert TidyAlarm(st, a);
    AcceptedRunning(st, a, attrs, clock, memory);
    AttributesOutcome(st, a, attrs, clock, memory, c);
    CheckedAway(st, AttributesAfter(st, a, attrs, clock, memory), a, c, true);
  }

  lemma ChangeReady(st: State, a: nat, attrs: Attributes, clock: nat -> Int64, memory: bool, c: nat)
    requires Running(st) && Ready(st, c) && a in st.alarms && Running(ChangedAlarm(st, a, attrs, clock, memory))
    ensures var r, al := ChangedAlarm(st, a, attrs, clock, memory), st.alarms[a];
            && Idle(r, c) && r.counters[c].value == (if Asks(al, attrs, c) then clock(c) else st.counters[c].value)
            && (Ready(r, c) <==> AlarmCovered(st, c, a, al, attrs, clock, memory))
  {
    if ChangeStatus(st.counters, st.alarms[a], attrs, clock, memory) == Success {
      if Asks(st.alarms[a], attrs, c) {
        AcceptedAskedReady(st, a, attrs, clock, memory, c);
      } else {
        AcceptedUnaskedReady(st, a, attrs, clock, memory, c);
      }
    } else {
      if Asks(st.alarms[a], attrs, c) {
        RefusedAskedReady(st, a, attrs, clock, memory, c);
      } else {
        RefusedUnaskedReady(st, a, attrs, clock, memory, c);
      }
    }
  }

  // ----- CreateAlarm requests

  /** An alarm that is not there yet, as CreateAlarm sets it up. */
  lemma NewAlarmRunning(st: State, a: nat)
    requires Running(st) && a !in st.alarms
    ensures var r := st.(alarms := st.alarms[a := NEW_ALARM]);
            Running(r) && OnlyAlarm(st, r, a) && OnNoList(st, OfAlarm(a))
  {
    var r := st.(alarms := st.alarms[a := NEW_ALARM]);
    NotCreated(st, a);
    StoredNew(st, a, NEW_ALARM, st.log);
    OnlyAlarmTidyAll(st, r, a);
    AlarmRunning(st, r, a);
  }

  /** What is done to `c` before it is known whether the new alarm is accepted. */
  lemma NewOutcome(st: State, a: nat, attrs: Attributes, clock: nat -> Int64, memory: bool, c: nat)
    requires Running(st) && Idle(st, c) && a !in st.alarms
    ensures var r := AttributesAfter(st.(alarms := st.alarms[a := NEW_ALARM]), a, attrs, clock, memory);
            && OnlyAlarm(st, r, a) && a in r.alarms && c in r.counters && OfAlarm(a) !in st.counters[c].triggers
            && Outcome(st, st.counters[c], r, c, a, Asks(NEW_ALARM, attrs, c), false,
                       ChangeStatus(st.counters, NEW_ALARM, attrs, clock, memory) == Success, clock(c))
  {
    var mid := st.(alarms := st.alarms[a := NEW_ALARM]);
    NewAlarmRunning(st, a);
    AttributesKeep(mid, a, attrs, clock, memory);
    AttributesOutcome(mid, a, attrs, clock, memory, c);
    OnlyAlarmTwice(st, mid, AttributesAfter(mid, a, attrs, clock, memory), a);
  }

  /** A refused new alarm is on no list, so it can be taken away. */
  lemma RefusedNewAlarm(st: State, a: nat, attrs: Attributes, clock: nat -> Int64, memory: bool)
    requires Running(st) && a !in st.alarms && ChangeStatus(st.counters, NEW_ALARM, attrs, clock, memory) != Success
    ensures var r1 := AttributesAfter(st.(alarms := st.alarms[a := NEW_ALARM]), a, attrs, clock, memory);
            var r := CreatedAlarm(st, a, attrs, clock, memory);
            r.counters == r1.counters && OnlyAlarm(st, r, a)
  {
    var mid := st.(alarms := st.alarms[a := NEW_ALARM]);
    NewAlarmRunning(st, a);
    var r1 := AttributesAfter(mid, a, attrs, clock, memory);
    AttributesKeep(mid, a, attrs, clock, memory);
    RefusedOnNoList(mid, a, attrs, clock, memory);
    StoredNew(r1, a, NEW_ALARM, r1.log);
    OnlyAlarmTwice(st, mid, r1, a);
    OnlyAlarmTwice(st, r1, r1.(alarms := r1.alarms - {a}), a);
  }

  lemma RefusedNewReady(st: State, a: nat, attrs: Attributes, clock: nat -> Int64, memory: bool, c: nat)
    requires Running(st) && Ready(st, c) && a !in st.alarms && Running(CreatedAlarm(st, a, attrs, clock, memory))
    requires ChangeStatus(st.counters, NEW_ALARM, attrs, clock, memory) != Success
    ensures var r := CreatedAlarm(st, a, attrs, clock, memory);
            && Idle(r, c)
            && r.counters[c].value == (if Asks(NEW_ALARM, attrs, c) then clock(c) else st.counters[c].value)
            && (Ready(r, c) <==> AlarmCovered(st, c, a, NEW_ALARM, attrs, clock, memory))
  {
    var r := CreatedAlarm(st, a, attrs, clock, memory);
    NewOutcome(st, a, attrs, clock, memory, c);
    RefusedNewAlarm(st, a, attrs, clock, memory);
    OtherTriggers(st, r, a, c);
    if Asks(NEW_ALARM, attrs, c) {
      StoredUnlisted(st, r, a, c, clock(c));
    } else {
      LeavingReady(st, r, a, c);
    }
  }

  /** An alarm created without a counter is on no list. */
  lemma WithoutCounterReady(st: State, r: State, a: nat, c: nat)
    requires Running(st) && Ready(st, c) && OnlyAlarm(st, r, a) && r.counters[c] == st.counters[c] && a in r.alarms
    requires Steady(r) && OfAlarm(a) !in st.counters[c].triggers
    requires Running(r.(alarms := r.alarms[a := r.alarms[a].(state := Inactive)]))
    ensures var r2 := r.(alarms := r.alarms[a := r.alarms[a].(state := Inactive)]);
            Ready(r2, c) && r2.counters[c] == st.counters[c]
  {
    var r2 := r.(alarms := r.alarms[a := r.alarms[a].(state := Inactive)]);
    StoredSteady(r, a, r2.alarms[a], r.log);
    OnlyAlarmTwice(st, r, r2, a);
    LeavingReady(st, r2, a, c);
  }

  lemma AcceptedNewReady(st: State, a: nat, attrs: Attributes, clock: nat -> Int64, memory: bool, c: nat)
    requires Running(st) && Ready(st, c) && a !in st.alarms && Running(CreatedAlarm(st, a, attrs, clock, memory))
    requires ChangeStatus(st.counters, NEW_ALARM, attrs, clock, memory) == Success
    ensures var r := CreatedAlarm(st, a, attrs, clock, memory);
            && Idle(r, c)
            && r.counters[c].value == (if Asks(NEW_ALARM, attrs, c) then clock(c) else st.counters[c].value)
            && (Ready(r, c) <==> AlarmCovered(st, c, a, NEW_ALARM, attrs, clock, memory))
  {
    var mid := st.(alarms := st.alarms[a := NEW_ALARM]);
    var r := AttributesAfter(mid, a, attrs, clock, memory);
    NewAlarmRunning(st, a);
    AcceptedRunning(mid, a, attrs, clock, memory);
    NewOutcome(st, a, attrs, clock, memory, c);
    OtherTriggers(st, r, a, c);
    if Asks(NEW_ALARM, attrs, c) {
      LeftIs(st.counters, NEW_ALARM, attrs, clock, memory, c);
      AskedReady(st, r, a, c, false);
    } else if r.alarms[a].trigger.counter.Some? {
      CheckedAway(st, r, a, c, false);
    } else {
      WithoutCounterReady(st, r, a, c);
    }
  }

  lemma CreateReady(st: State, a: nat, attrs: Attributes, clock: nat -> Int64, memory: bool, c: nat)
    requires Running(st) && Ready(st, c) && a !in st.alarms && Running(CreatedAlarm(st, a, attrs, clock, memory))
    ensures var r := CreatedAlarm(st, a, attrs, clock, memory);
            && Idle(r, c)
            && r.counters[c].value == (if Asks(NEW_ALARM, attrs, c) then clock(c) else st.counters[c].value)
            && (Ready(r, c) <==> AlarmCovered(st, c, a, NEW_ALARM, attrs, clock, memory))
  {
    if ChangeStatus(st.counters, NEW_ALARM, attrs, clock, memory) == Success {
      AcceptedNewReady(st, a, attrs, clock, memory, c);
    } else {
      RefusedNewReady(st, a, attrs, clock, memory, c);
    }
  }

  // ----- DestroyAlarm requests

  lemma DestroyedOutcome(st: State, a: nat, c: nat)
    requires Running(st) && Idle(st, c) && a in st.alarms
    ensures var r := DestroyedAlarm(st, a);
            c in r.counters && r.counters[c] == Withdrawn(st, st.counters[c], {OfAlarm(a)})
  {
    var al := st.alarms[a];
    var v := CounterOf(al.trigger, st.counters).value;
    var mid := st.(alarms := st.alarms[a := al.(state := Destroyed)],
                   log := st.log + [AlarmNotify(a, v, al.trigger.testValue, Destroyed)]);
    assert TidyAlarm(st, a) && SoundList(st, c, st.counters[c].triggers);
    assert TrigOf(mid, OfAlarm(a)) == al.trigger;
    WithdrawnStays(st, mid, st.counters[c], a);
  }

  lemma DestroyReady(st: State, a: nat, c: nat)
    requires Running(st) && Ready(st, c) && a in st.alarms && Running(DestroyedAlarm(st, a))
    requires OnlyAlarm(st, DestroyedAlarm(st, a), a)
    ensures var r := DestroyedAlarm(st, a);
            && Idle(r, c) && r.counters[c].value == st.counters[c].value
            && (Ready(r, c) <==> LeftInTime(st, c, {OfAlarm(a)}))
  {
    DestroyedOutcome(st, a, c);
    LeavingReady(st, DestroyedAlarm(st, a), a, c);
  }
}
