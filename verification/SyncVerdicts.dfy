/** Which alarm and await requests are answered with Success, which error the others get, and what each one makes of the
    alarm or the await: told from the request and the state before it. */
module SyncVerdicts {
  import opened Options
  import opened SyncValues
  import opened SyncModel
  import opened SyncChange
  import opened SyncTriggers
  import opened SyncAwait
  import opened SyncRequests
  import SyncAlarm
  import SyncDestroy
  import SyncIdle
  import SyncNotify
  import SyncRun

  /** The value that a request finds at a counter: a system counter answers with its clock. */
  function Found(counters: map<nat, Counter>, c: Option<nat>, clock: nat -> Int64): Int64 {
    if c.None? || c.value !in counters then 0
    else if counters[c.value].system.Some? then clock(c.value) else counters[c.value].value
  }

  /** The trigger is true at the value `v` of its counter, which stays as it is. */
  predicate TrueAt(t: Trigger, v: Int64) {
    Holds(t.check, t.testValue, v, v)
  }

  // ----- CreateAlarm and ChangeAlarm

  /** The alarm once the request has been carried out: what is given replaces what was there. */
  function CounterAsked(al: Alarm, attrs: Attributes): Option<nat> {
    if attrs.counter.Some? then attrs.counter.value else al.trigger.counter
  }

  function ValueTypeAsked(al: Alarm, attrs: Attributes): ValueType {
    if attrs.valueType.Some? then attrs.valueType.value else al.trigger.valueType
  }

  function ValueAsked(al: Alarm, attrs: Attributes): Int64 {
    if attrs.value.Some? then attrs.value.value else al.trigger.waitValue
  }

  function TestAsked(al: Alarm, attrs: Attributes): TestType {
    if attrs.testType.Some? then attrs.testType.value else al.trigger.testType
  }

  function DeltaAsked(al: Alarm, attrs: Attributes): Int64 {
    if attrs.delta.Some? then attrs.delta.value else al.delta
  }

  /** A positive test with a delta that is less than 0, or a negative test with one that is greater. */
  predicate WrongWay(al: Alarm, attrs: Attributes) {
    var test, delta := TestAsked(al, attrs), DeltaAsked(al, attrs);
    || ((test.PositiveTransition? || test.PositiveComparison?) && delta < 0)
    || ((test.NegativeTransition? || test.NegativeComparison?) && delta > 0)
  }

  /** A test value is computed, and it is computed from the value of the counter. */
  predicate FromCounter(al: Alarm, attrs: Attributes) {
    (attrs.valueType.Some? || attrs.value.Some?) && ValueTypeAsked(al, attrs) != Absolute
  }

  /** The attributes are looked at one by one, and then the sign of delta. */
  lemma EarlyVerdict(counters: map<nat, Counter>, al: Alarm, attrs: Attributes, clock: nat -> Int64, memory: bool)
    ensures var status := ChangeStatus(counters, al, attrs, clock, memory);
            if attrs.events == Some(NotBoolean) then status == BadValue
            else if attrs.events == Some(NoMemory) then status == BadAlloc
            else if attrs.unknown then status == BadValue
            else if (attrs.delta.Some? || attrs.testType.Some?) && WrongWay(al, attrs) then status == BadMatch
            else status == InitStatus(counters, Written(al, attrs).trigger, ChangesOf(attrs), clock, memory)
  {
  }

  /** The rest is for SyncInitTrigger to find. */
  lemma LateVerdict(counters: map<nat, Counter>, al: Alarm, attrs: Attributes, clock: nat -> Int64, memory: bool)
    ensures var status := InitStatus(counters, Written(al, attrs).trigger, ChangesOf(attrs), clock, memory);
            var c := CounterAsked(al, attrs);
            if c.Some? && c.value !in counters then status == BadCounter
            else if attrs.valueType.Some? && attrs.valueType.value.UnknownValueType? then status == BadValue
            else if attrs.testType.Some? && attrs.testType.value.UnknownTest? then status == BadValue
            else if FromCounter(al, attrs) && c.None? then status == BadMatch
            else if FromCounter(al, attrs)
                    && !(MIN_VALUE <= Found(counters, c, clock) + ValueAsked(al, attrs) <= MAX_VALUE)
                 then status == BadValue
            else if c.Some? && c != al.trigger.counter && !memory then status == BadAlloc
            else status == Success
  {
  }

  /** The first complaint about a request decides; without one it is accepted. */
  lemma AlarmVerdict(counters: map<nat, Counter>, al: Alarm, attrs: Attributes, clock: nat -> Int64, memory: bool)
    ensures var status, c := ChangeStatus(counters, al, attrs, clock, memory), CounterAsked(al, attrs);
            if attrs.events == Some(NotBoolean) then status == BadValue
            else if attrs.events == Some(NoMemory) then status == BadAlloc
            else if attrs.unknown then status == BadValue
            else if (attrs.delta.Some? || attrs.testType.Some?) && WrongWay(al, attrs) then status == BadMatch
            else if c.Some? && c.value !in counters then status == BadCounter
            else if attrs.valueType.Some? && attrs.valueType.value.UnknownValueType? then status == BadValue
            else if attrs.testType.Some? && attrs.testType.value.UnknownTest? then status == BadValue
            else if FromCounter(al, attrs) && c.None? then status == BadMatch
            else if FromCounter(al, attrs)
                    && !(MIN_VALUE <= Found(counters, c, clock) + ValueAsked(al, attrs) <= MAX_VALUE)
                 then status == BadValue
            else if c.Some? && c != al.trigger.counter && !memory then status == BadAlloc
            else status == Success
  {
    EarlyVerdict(counters, al, attrs, clock, memory);
    LateVerdict(counters, al, attrs, clock, memory);
  }

  /** So exactly these requests are accepted. */
  lemma AlarmAccepted(counters: map<nat, Counter>, al: Alarm, attrs: Attributes, clock: nat -> Int64, memory: bool)
    ensures var c := CounterAsked(al, attrs);
            ChangeStatus(counters, al, attrs, clock, memory) == Success
            <==>
            && (attrs.events.Some? ==> attrs.events.value.Selected?) && !attrs.unknown
            && (attrs.delta.Some? || attrs.testType.Some? ==> !WrongWay(al, attrs))
            && (c.Some? ==> c.value in counters)
            && (attrs.valueType.Some? ==> !attrs.valueType.value.UnknownValueType?)
            && (attrs.testType.Some? ==> !attrs.testType.value.UnknownTest?)
            && (FromCounter(al, attrs) ==>
                  c.Some? && MIN_VALUE <= Found(counters, c, clock) + ValueAsked(al, attrs) <= MAX_VALUE)
            && (c.Some? && c != al.trigger.counter ==> memory)
  {
    AlarmVerdict(counters, al, attrs, clock, memory);
  }

  /** What an accepted request makes of the alarm: it is Active, with what was given and a test value to match. */
  predicate Granted(counters: map<nat, Counter>, al: Alarm, attrs: Attributes, clock: nat -> Int64, al': Alarm) {
    var c, t, t' := CounterAsked(al, attrs), al.trigger, al'.trigger;
    && al'.state == Active && al'.delta == DeltaAsked(al, attrs)
    && t'.counter == c && t'.valueType == ValueTypeAsked(al, attrs)
    && t'.waitValue == ValueAsked(al, attrs) && t'.testType == TestAsked(al, attrs)
    && t'.check == (if attrs.testType.Some? then attrs.testType.value else t.check)
    && t'.testValue == if attrs.valueType.None? && attrs.value.None? then t.testValue
                       else if t'.valueType == Absolute then t'.waitValue
                       else Found(counters, c, clock) + t'.waitValue
  }

  /** Nothing is wrong with the attributes themselves, and the counter is there. */
  predicate CounterTaken(counters: map<nat, Counter>, al: Alarm, attrs: Attributes) {
    var c := CounterAsked(al, attrs);
    && (attrs.events.Some? ==> attrs.events.value.Selected?) && !attrs.unknown
    && !((attrs.delta.Some? || attrs.testType.Some?) && WrongWay(al, attrs))
    && (c.Some? ==> c.value in counters)
  }

  predicate TypesKnown(attrs: Attributes) {
    && !(attrs.valueType.Some? && attrs.valueType.value.UnknownValueType?)
    && !(attrs.testType.Some? && attrs.testType.value.UnknownTest?)
  }

  /** What a refused request leaves of it. What was given has been written down. But the counter is only taken if it
      exists and nothing was wrong before, and the test and the test value only change if the types are known too; a sum
      that is out of range is kept modulo 2^64. */
  predicate Spoilt(counters: map<nat, Counter>, al: Alarm, attrs: Attributes, clock: nat -> Int64, al': Alarm) {
    var c, t, t' := CounterAsked(al, attrs), al.trigger, al'.trigger;
    && al'.state == al.state && al'.delta == DeltaAsked(al, attrs)
    && t'.valueType == ValueTypeAsked(al, attrs)
    && t'.waitValue == ValueAsked(al, attrs) && t'.testType == TestAsked(al, attrs)
    && t'.counter == (if CounterTaken(counters, al, attrs) then c else t.counter)
    && if !CounterTaken(counters, al, attrs) || !TypesKnown(attrs)
       then t'.check == t.check && t'.testValue == t.testValue
       else t'.check == (if attrs.testType.Some? then attrs.testType.value else t.check)
            && TestValueSpoilt(t, attrs, Found(counters, c, clock), t')
  }

  predicate TestValueSpoilt(t: Trigger, attrs: Attributes, v: Int64, t': Trigger) {
    if attrs.valueType.None? && attrs.value.None? then t'.testValue == t.testValue
    else if t'.valueType == Absolute then t'.testValue == t'.waitValue
    else if t'.counter.None? then t'.testValue == t.testValue
    else (t'.testValue - v - t'.waitValue) % 0x1_0000_0000_0000_0000 == 0
  }

  lemma WrapMeans(n: int)
    ensures Fits(n) ==> Wrap(n) == n
    ensures (Wrap(n) - n) % 0x1_0000_0000_0000_0000 == 0
  {
    var m := 0x1_0000_0000_0000_0000;
    var x := n - MIN_VALUE;
    assert x == x / m * m + x % m;
    assert Wrap(n) - n == -(x / m) * m;
  }

  lemma GrantedLeft(counters: map<nat, Counter>, al: Alarm, attrs: Attributes, clock: nat -> Int64, memory: bool)
    requires ChangeStatus(counters, al, attrs, clock, memory) == Success
    ensures Granted(counters, al, attrs, clock, AlarmLeft(counters, al, attrs, clock, memory))
  {
    WrapMeans(Found(counters, CounterAsked(al, attrs), clock) + ValueAsked(al, attrs));
  }

  lemma EarlyMeans(counters: map<nat, Counter>, al: Alarm, attrs: Attributes, clock: nat -> Int64, memory: bool)
    ensures CounterTaken(counters, al, attrs)
            <==> !Early(al, attrs) && ChangeStatus(counters, al, attrs, clock, memory) != BadCounter
  {
  }

  lemma FieldsSpoilt(tr: Trigger, attrs: Attributes, v: Int64)
    requires TypesKnown(attrs)
    ensures var r := FieldsOf(tr, ChangesOf(attrs), v);
            (attrs.testType.Some? ==> attrs.testType.value == tr.testType) &&
            (attrs.valueType.Some? ==> attrs.valueType.value == tr.valueType)
            ==> TestValueSpoilt(tr, attrs, v, r)
                && r.check == if attrs.testType.Some? then attrs.testType.value else tr.check
  {
    var sum: int := v + tr.waitValue;
    WrapMeans(sum);
    assert Wrap(sum) - v - tr.waitValue == Wrap(sum) - sum;
  }

  lemma SpoiltLeft(counters: map<nat, Counter>, al: Alarm, attrs: Attributes, clock: nat -> Int64, memory: bool)
    requires ChangeStatus(counters, al, attrs, clock, memory) != Success
    ensures Spoilt(counters, al, attrs, clock, AlarmLeft(counters, al, attrs, clock, memory))
  {
    EarlyMeans(counters, al, attrs, clock, memory);
    var c := CounterAsked(al, attrs);
    if CounterTaken(counters, al, attrs) && TypesKnown(attrs) {
      FieldsSpoilt(Written(al, attrs).trigger.(counter := c), attrs, Found(counters, c, clock));
    }
  }

  /** What becomes of an alarm that has been accepted as `al`, and what is told of it: it is looked at once, at the
      value of its counter. `noneFires` tells whether an alarm without a counter goes off. */
  ghost predicate LookedAt(al: Alarm, a: nat, v: Int64, noneFires: bool, al': Alarm, told: seq<Event>) {
    var t := al.trigger;
    if t.counter.None? then
      al' == al.(state := Inactive)
      && told == if noneFires then [AlarmNotify(a, 0, t.testValue, Inactive)] else []
    else if TrueAt(t, v) then
      SyncNotify.WentOff(al, v, al') && told == [AlarmNotify(a, v, t.testValue, al'.state)]
    else al' == al && told == []
  }

  lemma LooksOnce(st: State, a: nat, noneFires: bool)
    requires Steady(st) && a in st.alarms && TidyAlarm(st, a) && st.alarms[a].state == Active
    requires noneFires || st.alarms[a].trigger.counter.Some?
    ensures var r := Checked(st, a, noneFires);
            && a in r.alarms && st.log <= r.log
            && LookedAt(st.alarms[a], a, CounterOf(st.alarms[a].trigger, st.counters).value, noneFires, r.alarms[a],
                        r.log[|st.log|..])
  {
    var al := st.alarms[a];
    var v := CounterOf(al.trigger, st.counters).value;
    if al.trigger.counter.Some? && Holds(al.trigger.check, al.trigger.testValue, v, v) {
      SyncNotify.FiredWentOff(al, v);
    }
  }

  /** The counter of an accepted alarm stands at the value the request found. */
  lemma StandsAt(st: State, a: nat, attrs: Attributes, clock: nat -> Int64, memory: bool)
    requires Steady(st) && Tidy(st) && a in st.alarms
    requires ChangeStatus(st.counters, st.alarms[a], attrs, clock, memory) == Success
    ensures var r, c := AttributesAfter(st, a, attrs, clock, memory), CounterAsked(st.alarms[a], attrs);
            c.Some? ==> c.value in r.counters && r.counters[c.value].value == Found(st.counters, c, clock)
  {
    var c := CounterAsked(st.alarms[a], attrs);
    if c.Some? {
      var mid := st.(alarms := st.alarms[a := Written(st.alarms[a], attrs)]);
      InitCounters(mid, OfAlarm(a), ChangesOf(attrs), clock, memory, c.value);
    }
  }

  /** The alarm of an accepted request, before it is looked at. */
  lemma GrantedFirst(st: State, a: nat, attrs: Attributes, clock: nat -> Int64, memory: bool)
    requires Steady(st) && Tidy(st) && a in st.alarms
    requires ChangeStatus(st.counters, st.alarms[a], attrs, clock, memory) == Success
    ensures var mid := AttributesAfter(st, a, attrs, clock, memory);
            && Steady(mid) && a in mid.alarms && TidyAlarm(mid, a) && mid.log == st.log
            && Granted(st.counters, st.alarms[a], attrs, clock, mid.alarms[a])
            && (mid.alarms[a].trigger.counter.Some? ==>
                  CounterOf(mid.alarms[a].trigger, mid.counters).value
                  == Found(st.counters, CounterAsked(st.alarms[a], attrs), clock))
  {
    assert TidyAlarm(st, a);
    AttributesKeep(st, a, attrs, clock, memory);
    AlarmIsLeft(st, a, attrs, clock, memory);
    GrantedLeft(st.counters, st.alarms[a], attrs, clock, memory);
    TidyAfter(st, a, attrs, clock, memory);
    StandsAt(st, a, attrs, clock, memory);
  }

  /** A trigger that changes its counter leaves the list it was on and becomes the first of its new one; otherwise it
      stays where it is. */
  function ListWith(list: seq<TrigId>, t: TrigId, d: nat, was: Option<nat>, now: Option<nat>): seq<TrigId> {
    if was == now then list else if now == Some(d) then [t] + list
    else if was == Some(d) then Survivors(list, {t}) else list
  }

  lemma GrantedList(st: State, a: nat, attrs: Attributes, clock: nat -> Int64, memory: bool, d: nat)
    requires a in st.alarms && d in st.counters
    requires ChangeStatus(st.counters, st.alarms[a], attrs, clock, memory) == Success
    ensures var r := AttributesAfter(st, a, attrs, clock, memory);
            && d in r.counters
            && r.counters[d].triggers == ListWith(st.counters[d].triggers, OfAlarm(a), d, st.alarms[a].trigger.counter,
                                                  CounterAsked(st.alarms[a], attrs))
  {
    var mid := st.(alarms := st.alarms[a := Written(st.alarms[a], attrs)]);
    InitCounters(mid, OfAlarm(a), ChangesOf(attrs), clock, memory, d);
  }

  /** The lists after an accepted ChangeAlarm. */
  lemma ListedFirst(st: State, a: nat, attrs: Attributes, clock: nat -> Int64, memory: bool, d: nat)
    requires Steady(st) && Tidy(st) && a in st.alarms && d in st.counters
    requires ChangeStatus(st.counters, st.alarms[a], attrs, clock, memory) == Success
    ensures var r := ChangedAlarm(st, a, attrs, clock, memory);
            && d in r.counters
            && r.counters[d].triggers == ListWith(st.counters[d].triggers, OfAlarm(a), d, st.alarms[a].trigger.counter,
                                                  CounterAsked(st.alarms[a], attrs))
  {
    GrantedList(st, a, attrs, clock, memory, d);
  }

  /** An accepted ChangeAlarm. */
  lemma ChangeGrants(st: State, a: nat, attrs: Attributes, clock: nat -> Int64, memory: bool) returns (al: Alarm)
    requires Steady(st) && Tidy(st) && a in st.alarms
    requires ChangeStatus(st.counters, st.alarms[a], attrs, clock, memory) == Success
    ensures Granted(st.counters, st.alarms[a], attrs, clock, al)
    ensures var r, v := ChangedAlarm(st, a, attrs, clock, memory),
                        Found(st.counters, CounterAsked(st.alarms[a], attrs), clock);
            a in r.alarms && st.log <= r.log && LookedAt(al, a, v, true, r.alarms[a], r.log[|st.log|..])
  {
    var mid := AttributesAfter(st, a, attrs, clock, memory);
    GrantedFirst(st, a, attrs, clock, memory);
    al := mid.alarms[a];
    LooksOnce(mid, a, true);
  }

  /** A refused ChangeAlarm tells nobody anything. */
  lemma ChangeRefuses(st: State, a: nat, attrs: Attributes, clock: nat -> Int64, memory: bool)
    requires Steady(st) && Tidy(st) && a in st.alarms
    requires ChangeStatus(st.counters, st.alarms[a], attrs, clock, memory) != Success
    ensures var r := ChangedAlarm(st, a, attrs, clock, memory);
            a in r.alarms && r.log == st.log && Spoilt(st.counters, st.alarms[a], attrs, clock, r.alarms[a])
  {
    assert TidyAlarm(st, a);
    AttributesKeep(st, a, attrs, clock, memory);
    AlarmIsLeft(st, a, attrs, clock, memory);
    SpoiltLeft(st.counters, st.alarms[a], attrs, clock, memory);
  }

  /** What an alarm is before CreateAlarm looks at the attributes: no counter, Absolute 0, PositiveComparison,
      delta 1. */
  lemma NewAlarmIs()
    ensures var t := NEW_ALARM.trigger;
            && t.counter == None && t.valueType == Absolute && t.waitValue == 0 && t.testValue == 0
            && t.testType == PositiveComparison && t.check == PositiveComparison
            && NEW_ALARM.delta == 1 && NEW_ALARM.state == Inactive
  {
  }

  /** An accepted CreateAlarm. */
  lemma CreateGrants(st: State, a: nat, attrs: Attributes, clock: nat -> Int64, memory: bool) returns (al: Alarm)
    requires Steady(st) && Tidy(st) && a !in st.alarms
    requires ChangeStatus(st.counters, NEW_ALARM, attrs, clock, memory) == Success
    ensures Granted(st.counters, NEW_ALARM, attrs, clock, al)
    ensures var r, v := CreatedAlarm(st, a, attrs, clock, memory),
                        Found(st.counters, CounterAsked(NEW_ALARM, attrs), clock);
            a in r.alarms && st.log <= r.log && LookedAt(al, a, v, false, r.alarms[a], r.log[|st.log|..])
  {
    var st0 := st.(alarms := st.alarms[a := NEW_ALARM]);
    NewIsTidy(st, a);
    var mid := AttributesAfter(st0, a, attrs, clock, memory);
    GrantedFirst(st0, a, attrs, clock, memory);
    al := mid.alarms[a];
    if al.trigger.counter.Some? {
      LooksOnce(mid, a, false);
    }
  }

  lemma NewIsTidy(st: State, a: nat)
    requires Steady(st) && Tidy(st) && a !in st.alarms
    ensures var st0 := st.(alarms := st.alarms[a := NEW_ALARM]); Steady(st0) && Tidy(st0)
  {
    NotCreated(st, a);
    StoredNew(st, a, NEW_ALARM, st.log);
    OnlyAlarmTidyAll(st, st.(alarms := st.alarms[a := NEW_ALARM]), a);
  }

  /** DestroyAlarm tells of the alarm once more, with the state Destroyed, and of nothing else. */
  lemma DestroyTells(st: State, a: nat)
    requires Steady(st) && Tidy(st) && a in st.alarms
    ensures var c := st.alarms[a].trigger.counter;
            && (c.Some? ==> c.value in st.counters)
            && DestroyedAlarm(st, a).log
               == st.log + [AlarmNotify(a, if c.Some? then st.counters[c.value].value else 0,
                                        st.alarms[a].trigger.testValue, Destroyed)]
            && DestroyedAlarm(st, a).alarms == st.alarms - {a}
  {
    assert TidyAlarm(st, a);
  }

  // ----- Await

  /** The first complaint about a condition decides. */
  lemma ConditionVerdict(counters: map<nat, Counter>, item: WaitCondition, clock: nat -> Int64, room: bool)
    ensures var status, c := ItemStatus(counters, item, clock, room), item.counter;
            if c.None? || c.value !in counters then status == BadCounter
            else if item.valueType != Absolute && item.valueType != Relative then status == BadValue
            else if item.testType.UnknownTest? then status == BadValue
            else if item.valueType == Relative
                    && !(MIN_VALUE <= Found(counters, c, clock) + item.waitValue <= MAX_VALUE) then status == BadValue
            else if !room then status == BadAlloc
            else status == Success
  {
  }

  /** The first `n` conditions are accepted. */
  predicate AllGood(counters: map<nat, Counter>, items: seq<WaitCondition>, n: nat, clock: nat -> Int64,
                    room: nat -> bool)
    requires n <= |items|
  {
    forall i :: 0 <= i < n ==> ItemStatus(counters, items[i], clock, room(i)) == Success
  }

  /** A request without conditions is refused. Otherwise the first condition that is refused decides. */
  lemma AwaitVerdict(counters: map<nat, Counter>, items: seq<WaitCondition>, clock: nat -> Int64, room: nat -> bool)
    ensures var status := AwaitStatus(counters, items, clock, room);
            && (items == [] ==> status == BadValue)
            && (items != [] && AllGood(counters, items, |items|, clock, room) ==> status == Success)
            && (forall i :: 0 <= i < |items| && AllGood(counters, items, i, clock, room)
                            && ItemStatus(counters, items[i], clock, room(i)) != Success ==>
                  status == ItemStatus(counters, items[i], clock, room(i)))
  {
  }

  /** The condition is registered as asked, at the value `v` of its counter. */
  predicate Registers(item: WaitCondition, v: Int64, cond: Await) {
    var t := cond.trigger;
    && cond.threshold == item.threshold && t.counter == item.counter && t.check == item.testType
    && t.testType == item.testType && t.valueType == item.valueType && t.waitValue == item.waitValue
    && t.testValue == if item.valueType == Absolute then item.waitValue else v + item.waitValue
  }

  /** The conditions of an accepted request, and what is seen of their counters. */
  ghost predicate AllRegister(counters: map<nat, Counter>, items: seq<WaitCondition>, clock: nat -> Int64,
                              conds: seq<Await>, seen: seq<SyncNotify.Sight>)
  {
    && |conds| == |items| && |seen| == |items|
    && forall i :: 0 <= i < |items| ==>
         var v := Found(counters, items[i].counter, clock);
         && items[i].counter.Some? && Registers(items[i], v, conds[i])
         && seen[i] == SyncNotify.Sight(items[i].counter.value, v, false)
  }

  /** The client sleeps with its conditions registered, unless one is true already: then it is told what it is owed and
      is woken at once, and nothing stays. */
  ghost predicate SleepsOrWakes(st: State, st': State, w: nat, u: AwaitUnion, seen: seq<SyncNotify.Sight>)
    requires |seen| == |u.conds|
  {
    if exists i :: 0 <= i < |seen| && TrueAt(u.conds[i].trigger, seen[i].value)
    then st'.awaits == st.awaits
         && exists group :: st'.log == st.log + [Ignore(u.client)] + group && SyncNotify.GroupOf(u, seen, group)
    else st'.awaits == st.awaits[w := u] && st'.log == st.log + [Ignore(u.client)]
  }

  lemma RegisteredAs(counters: map<nat, Counter>, item: WaitCondition, clock: nat -> Int64, room: bool, cond: Await)
    requires ItemStatus(counters, item, clock, room) == Success && AsAsked(cond, item, counters, clock)
    ensures Registers(item, Found(counters, item.counter, clock), cond)
  {
    WrapMeans(Found(counters, item.counter, clock) + item.waitValue);
  }

  lemma BuiltAt(st: State, mid: State, client: nat, w: nat, items: seq<WaitCondition>, clock: nat -> Int64,
                room: bool, i: nat)
    requires Building(st, mid, client, w, items, |items|, clock) && i < |items|
    requires ItemStatus(st.counters, items[i], clock, room) == Success
    ensures var c, v := items[i].counter, Found(st.counters, items[i].counter, clock);
            && c.Some? && Registers(items[i], v, mid.awaits[w].conds[i])
            && c.value in mid.counters && mid.counters[c.value].value == v && !mid.counters[c.value].dying
  {
    RegisteredAs(st.counters, items[i], clock, room, mid.awaits[w].conds[i]);
    assert AskedCounter(st, mid, items, |items|, None, clock, items[i].counter.value);
  }

  function SightOf(counters: map<nat, Counter>, item: WaitCondition, clock: nat -> Int64): SyncNotify.Sight {
    SyncNotify.Sight(if item.counter.Some? then item.counter.value else 0, Found(counters, item.counter, clock), false)
  }

  lemma BuiltAs(st: State, mid: State, client: nat, w: nat, items: seq<WaitCondition>, clock: nat -> Int64,
                room: nat -> bool)
    returns (seen: seq<SyncNotify.Sight>)
    requires Building(st, mid, client, w, items, |items|, clock)
    requires AwaitStatus(st.counters, items, clock, room) == Success
    ensures AllRegister(st.counters, items, clock, mid.awaits[w].conds, seen)
    ensures SyncNotify.SeenIn(mid.awaits[w], mid.counters, seen)
  {
    seen := seq(|items|, i requires 0 <= i < |items| => SightOf(st.counters, items[i], clock));
    forall i: nat | i < |items|
      ensures var c, v := items[i].counter, Found(st.counters, items[i].counter, clock);
              && c.Some? && Registers(items[i], v, mid.awaits[w].conds[i])
              && c.value in mid.counters && seen[i] == SyncNotify.Sight(c.value, v, false)
              && mid.counters[c.value].value == v && !mid.counters[c.value].dying
    {
      BuiltAt(st, mid, client, w, items, clock, room(i), i);
    }
  }

  lemma TrueAsSeen(mid: State, w: nat, seen: seq<SyncNotify.Sight>)
    requires w in mid.awaits && SyncNotify.SeenIn(mid.awaits[w], mid.counters, seen)
    ensures SomeTrue(mid, w)
            <==> exists i :: 0 <= i < |seen| && TrueAt(mid.awaits[w].conds[i].trigger, seen[i].value)
  {
    var conds := mid.awaits[w].conds;
    forall i | 0 <= i < |conds|
      ensures TrueNow(mid, conds[i]) <==> TrueAt(conds[i].trigger, seen[i].value)
    {
    }
  }

  lemma SleepsOrWakesAs(st: State, mid: State, st': State, client: nat, w: nat, seen: seq<SyncNotify.Sight>)
    requires w !in st.awaits && w in mid.awaits && mid.awaits - {w} == st.awaits && mid.awaits[w].client == client
    requires Blocked(st, mid, st', client, w) && SyncNotify.SeenIn(mid.awaits[w], mid.counters, seen)
    ensures SleepsOrWakes(st, st', w, mid.awaits[w], seen)
  {
    TrueAsSeen(mid, w, seen);
    if SomeTrue(mid, w) {
      SyncNotify.GroupSent(mid.awaits[w], mid.counters, seen);
      assert st'.log == st.log + [Ignore(client)] + AwaitEvents(mid.awaits[w], mid.counters);
    } else {
      assert mid.awaits == st.awaits[w := mid.awaits[w]];
    }
  }

  /** An accepted Await. */
  lemma AwaitGrants(st: State, st': State, client: nat, w: nat, items: seq<WaitCondition>, clock: nat -> Int64,
                    room: nat -> bool) returns (u: AwaitUnion, seen: seq<SyncNotify.Sight>)
    requires Steady(st) && w !in st.awaits && AwaitDone(st, st', client, w, items, clock, room)
    requires AwaitStatus(st.counters, items, clock, room) == Success
    ensures u.client == client && AllRegister(st.counters, items, clock, u.conds, seen)
    ensures SleepsOrWakes(st, st', w, u, seen)
  {
    var mid :| Building(st, mid, client, w, items, |items|, clock) && mid.log == st.log
             && Blocked(st, mid, st', client, w);
    seen := BuiltAs(st, mid, client, w, items, clock, room);
    u := mid.awaits[w];
    SleepsOrWakesAs(st, mid, st', client, w, seen);
  }

  // ----- the counters of clients

  /** `now` is still the client's counter, and it stands at `v`. */
  predicate ClientsOwn(now: map<nat, Counter>, c: nat, v: int) {
    c in now && now[c].system.None? && now[c].value == v
  }

  lemma ChangedStands(st: State, c: nat, v: Int64, d: nat)
    requires c in st.counters && d in st.counters && st.counters[d].system.None?
    ensures ClientsOwn(AfterChange(st, c, v).counters, d, if d == c then v else st.counters[d].value)
  {
    WithdrawnKeeps(st, st.counters[d], TriggersOf(st, UnblockedBy(st, c, v, st.counters[c].triggers)));
  }

  lemma DestroyedStands(st: State, c: nat, d: nat)
    requires c in st.counters && d in st.counters && st.counters[d].system.None?
    ensures var r := SyncDestroy.AfterDestroy(st, c);
            if d == c then d !in r.counters else ClientsOwn(r.counters, d, st.counters[d].value)
  {
    WithdrawnKeeps(st, st.counters[d], TriggersOf(st, SyncDestroy.ReleasedBy(st, st.counters[c].triggers)));
  }

  lemma ReleasedStands(st: State, w: nat, d: nat)
    requires d in st.counters && st.counters[d].system.None?
    ensures ClientsOwn(Release(st, {w}).counters, d, st.counters[d].value)
  {
    WithdrawnKeeps(st, st.counters[d], TriggersOf(st, {w}));
  }

  lemma CheckedStands(st: State, c: nat, idle: Int64, less: Option<Int64>, greater: Option<Int64>, d: nat)
    requires SyncIdle.Idle(st, c) && d in st.counters && st.counters[d].system.None?
    ensures ClientsOwn(SyncIdle.CheckedBrackets(st, c, idle, less, greater).counters, d, st.counters[d].value)
  {
    ChangedStands(st, c, idle, d);
  }

  lemma WokenStands(st: State, c: nat, w: SyncIdle.Wakeup, d: nat)
    requires SyncRun.Running(st) && SyncIdle.Idle(st, c) && d in st.counters && st.counters[d].system.None?
    ensures ClientsOwn(SyncIdle.WokenUp(st, c, w).counters, d, st.counters[d].value)
  {
    var si := st.counters[c].system.value;
    if !(si.less.None? && si.greater.None?) {
      CheckedStands(st, c, w.idle, si.less, si.greater, d);
      if w.reset && w.idle != 0 {
        SyncRun.CheckedRunning(st, c, 0, si.less, si.greater);
        var st1 := SyncIdle.CheckedBrackets(st, c, 0, si.less, si.greater);
        CheckedStands(st, c, 0, si.less, si.greater, d);
        var si1 := st1.counters[c].system.value;
        CheckedStands(st1, c, w.idle, si1.less, si1.greater, d);
      }
    }
  }

  lemma AlarmStands(st: State, r: SyncRun.Request, st': State, d: nat)
    requires SyncRun.Effect(st, r, st') && d in st.counters && st.counters[d].system.None?
    requires r.CreateAlarm? || r.ChangeAlarm? || r.DestroyAlarm?
    ensures ClientsOwn(st'.counters, d, st.counters[d].value)
  {
    if OnlyAlarm(st, st', r.alarm) {
      assert CounterKept(st.counters[d], st'.counters[d], OfAlarm(r.alarm));
    }
  }

  lemma AwaitStands(st: State, st': State, client: nat, w: nat, items: seq<WaitCondition>, clock: nat -> Int64,
                    room: nat -> bool, d: nat)
    requires AwaitDone(st, st', client, w, items, clock, room) && d in st.counters && st.counters[d].system.None?
    ensures ClientsOwn(st'.counters, d, st.counters[d].value)
  {
    var n := FirstRefused(st.counters, items, clock, room, 0);
    assert AskedCounter(st, st', items, n, if n < |items| then items[n].counter else None, clock, d);
  }

  /** Requests about alarms and awaits, and a look at the idle time, leave a client's counter alone. */
  lemma OthersStand(st: State, r: SyncRun.Request, st': State, d: nat)
    requires SyncRun.Running(st) && SyncRun.Effect(st, r, st') && d in st.counters && st.counters[d].system.None?
    requires !r.CreateCounter? && !r.SetCounter? && !r.ChangeCounter? && !r.DestroyCounter?
    ensures ClientsOwn(st'.counters, d, st.counters[d].value)
  {
    match r {
      case AwaitRequest(client, id, items, clock, room) =>
        if id !in st.awaits {
          AwaitStands(st, st', client, id, items, clock, room, d);
        }
      case DropAwait(w) => ReleasedStands(st, w, d);
      case IdleWakeup(c, w) =>
        if SyncIdle.Idle(st, c) {
          WokenStands(st, c, w, d);
        }
      case QueryCounter(_, _) =>
      case _ => AlarmStands(st, r, st', d);
    }
  }

  lemma SetStands(st: State, c: nat, v: Int64, d: nat)
    requires d in st.counters && st.counters[d].system.None?
    ensures ClientsOwn(SyncRun.SetEffect(st, c, v).counters, d, if c == d then v else st.counters[d].value)
  {
    if c in st.counters {
      ChangedStands(st, c, v, d);
    }
  }

  lemma AddStands(st: State, c: nat, amount: Int64, d: nat)
    requires d in st.counters && st.counters[d].system.None?
    ensures var sum := st.counters[d].value + amount;
            ClientsOwn(SyncRun.AddEffect(st, c, amount).counters, d,
                       if c == d && MIN_VALUE <= sum <= MAX_VALUE then sum else st.counters[d].value)
  {
    if c in st.counters && Fits(st.counters[c].value + amount) {
      ChangedStands(st, c, st.counters[c].value + amount, d);
    }
  }

  lemma DestroyStands(st: State, c: nat, d: nat)
    requires d in st.counters && st.counters[d].system.None?
    ensures var r := SyncRun.DestroyEffect(st, c);
            if c == d then d !in r.counters else ClientsOwn(r.counters, d, st.counters[d].value)
  {
    if c in st.counters {
      DestroyedStands(st, c, d);
    }
  }

  /** A client's counter stands at what it was created with or last set to, plus what was added and did fit. Only
      DestroyCounter ends it. */
  lemma CounterStands(st: State, r: SyncRun.Request, st': State, d: nat)
    requires SyncRun.Running(st) && SyncRun.Effect(st, r, st') && d in st.counters && st.counters[d].system.None?
    ensures match r
            case SetCounter(c, v) => ClientsOwn(st'.counters, d, if c == d then v else st.counters[d].value)
            case ChangeCounter(c, amount) =>
              var sum := st.counters[d].value + amount;
              ClientsOwn(st'.counters, d,
                         if c == d && MIN_VALUE <= sum <= MAX_VALUE then sum else st.counters[d].value)
            case DestroyCounter(c) =>
              if c == d then d !in st'.counters else ClientsOwn(st'.counters, d, st.counters[d].value)
            case _ => ClientsOwn(st'.counters, d, st.counters[d].value)
  {
    match r {
      case CreateCounter(_, _, _) =>
      case SetCounter(c, v) => SetStands(st, c, v, d);
      case ChangeCounter(c, amount) => AddStands(st, c, amount, d);
      case DestroyCounter(c) => DestroyStands(st, c, d);
      case _ => OthersStand(st, r, st', d);
    }
  }

  /** A new counter has the value given and no trigger. A counter that is queried is brought up to date, and keeps its
      triggers. A client cannot set, change or destroy a counter that is not there or that the system keeps. */
  lemma CounterComes(st: State, r: SyncRun.Request, st': State, d: nat)
    requires SyncRun.Effect(st, r, st')
    ensures r.CreateCounter? && d !in st.counters && r.counter == d ==>
              && d in st'.counters && st'.counters[d].value == r.value && st'.counters[d].triggers == []
              && (st'.counters[d].system.None? <==> r.system.None?)
    ensures r.QueryCounter? && d in st.counters && r.counter == d ==>
              && d in st'.counters && st'.counters[d].value == Found(st.counters, Some(d), r.clock)
              && st'.counters[d].triggers == st.counters[d].triggers && st'.log == st.log
    ensures r.SetCounter? || r.ChangeCounter? || r.DestroyCounter? ==>
              (r.counter !in st.counters || st.counters[r.counter].system.Some? ==> st' == st)
  {
  }

  /** A client that goes away while it is blocked takes its conditions off all the lists; nobody is told anything. */
  lemma DropIsSilent(st: State, r: SyncRun.Request, st': State, d: nat)
    requires SyncRun.Running(st) && r.DropAwait? && SyncRun.Effect(st, r, st') && d in st.counters
    ensures st'.log == st.log && st'.alarms == st.alarms && st'.awaits == st.awaits - {r.id}
    ensures d in st'.counters && st'.counters[d].value == st.counters[d].value
    ensures forall t :: t in st'.counters[d].triggers
              <==> t in st.counters[d].triggers && !(t.OfAwait? && t.await == r.id)
  {
    assert SoundList(st, d, st.counters[d].triggers);
    if r.id in st.awaits {
      WithdrawnKeeps(st, st.counters[d], TriggersOf(st, {r.id}));
    } else {
      assert st.awaits - {r.id} == st.awaits;
    }
  }
}
