/** The alarm requests: what an alarm is left with when a request is accepted, and when it is refused. */
module SyncRequests {
  import opened Options
  import opened SyncValues
  import opened SyncModel
  import opened SyncChange
  import opened SyncServer
  import opened SyncTriggers
  import opened SyncAwait
  import SyncAlarm

  /** The Events attribute: a selection that is made, one that finds no memory, or a value that is neither
      True nor False. */
  datatype EventChoice = Selected | NoMemory | NotBoolean

  /** The attributes given in a CreateAlarm or ChangeAlarm request. `unknown` tells whether the mask has a bit
      above Events. */
  datatype Attributes = Attributes(
    counter: Option<Option<nat>>,
    valueType: Option<ValueType>,
    value: Option<Int64>,
    testType: Option<TestType>,
    delta: Option<Int64>,
    events: Option<EventChoice>,
    unknown: bool)

  function Or<T>(o: Option<T>, otherwise: T): T {
    match o case Some(x) => x case None => otherwise
  }

  /** The fields are written first; they are checked only afterwards. */
  function Written(al: Alarm, attrs: Attributes): Alarm {
    var t := al.trigger;
    al.(delta := Or(attrs.delta, al.delta),
        trigger := t.(valueType := Or(attrs.valueType, t.valueType),
                      waitValue := Or(attrs.value, t.waitValue),
                      testType := Or(attrs.testType, t.testType)))
  }

  function ChangesOf(attrs: Attributes): Changes {
    Changes(attrs.counter, attrs.valueType.Some?, attrs.value.Some?, attrs.testType.Some?)
  }

  /** The Match check is made only when one of its two attributes is given. */
  predicate SignRefused(al: Alarm, attrs: Attributes) {
    (attrs.delta.Some? || attrs.testType.Some?)
    && !SyncAlarm.SignAgrees(Written(al, attrs).trigger.testType, Written(al, attrs).delta)
  }

  /** The attributes are taken from the lowest bit up: when Events or an unknown bit is refused, all the fields
      have been written. */
  function LoopStatus(attrs: Attributes): Status {
    if attrs.events == Some(NotBoolean) then BadValue
    else if attrs.events == Some(NoMemory) then BadAlloc
    else if attrs.unknown then BadValue
    else Success
  }

  /** The request is refused before SyncInitTrigger. */
  predicate Early(al: Alarm, attrs: Attributes) {
    LoopStatus(attrs) != Success || SignRefused(al, attrs)
  }

  function ChangeStatus(counters: map<nat, Counter>, al: Alarm, attrs: Attributes, clock: nat -> Int64,
                        memory: bool): Status {
    if LoopStatus(attrs) != Success then LoopStatus(attrs)
    else if SignRefused(al, attrs) then BadMatch
    else InitStatus(counters, Written(al, attrs).trigger, ChangesOf(attrs), clock, memory)
  }

  /** The alarm that SyncChangeAlarmAttributes leaves. */
  function AlarmLeft(counters: map<nat, Counter>, al: Alarm, attrs: Attributes, clock: nat -> Int64,
                     memory: bool): Alarm {
    var al', c := Written(al, attrs), NamedCounter(al.trigger, ChangesOf(attrs));
    var status := ChangeStatus(counters, al, attrs, clock, memory);
    if Early(al, attrs) || status == BadCounter then al'
    else al'.(trigger := FieldsOf(al'.trigger.(counter := c), ChangesOf(attrs), WorkValue(counters, c, clock)),
              state := if status == Success then Active else al.state)
  }

  /** The state that it leaves. */
  function AttributesAfter(st: State, a: nat, attrs: Attributes, clock: nat -> Int64, memory: bool): State
    requires a in st.alarms
  {
    var mid := st.(alarms := st.alarms[a := Written(st.alarms[a], attrs)]);
    if Early(st.alarms[a], attrs) then mid
    else
      var r := InitAfter(mid, OfAlarm(a), ChangesOf(attrs), clock, memory);
      if ChangeStatus(st.counters, st.alarms[a], attrs, clock, memory) == Success && a in r.alarms
      then r.(alarms := r.alarms[a := r.alarms[a].(state := Active)]) else r
  }

  /** An alarm whose CheckTrigger function and delta fit its test type, and which is on the list of
      the counter it names. */
  ghost predicate TidyAlarm(st: State, a: nat)
    requires a in st.alarms
  {
    var al := st.alarms[a];
    && Agrees(al.trigger) && !al.trigger.check.UnknownTest?
    && SyncAlarm.SignAgrees(al.trigger.check, al.delta)
    && al.state != Destroyed && OnItsList(st, OfAlarm(a))
  }

  ghost predicate Tidy(st: State) {
    forall a :: a in st.alarms ==> TidyAlarm(st, a)
  }

  /** A refused ChangeAlarm leaves the extension tidy exactly in this case, which can be told before
      the request: the written test type is in force, the written delta fits it, and the trigger was not
      moved to another counter before the error. */
  predicate Harmless(counters: map<nat, Counter>, al: Alarm, attrs: Attributes, clock: nat -> Int64, memory: bool) {
    var al' := Written(al, attrs);
    var c := NamedCounter(al.trigger, ChangesOf(attrs));
    if Early(al, attrs) || ChangeStatus(counters, al, attrs, clock, memory) == BadCounter
    then al'.trigger.testType == al.trigger.check && SyncAlarm.SignAgrees(al.trigger.check, al'.delta)
    else (TakesEffect(al', attrs) || al'.trigger.testType == al.trigger.check) && (c == al.trigger.counter || c.None?)
  }

  /** SyncInitTrigger gets as far as choosing the CheckTrigger function, which it does after a look at the
      value type. */
  predicate TakesEffect(al: Alarm, attrs: Attributes) {
    && attrs.testType.Some? && !al.trigger.testType.UnknownTest?
    && !(attrs.valueType.Some? && al.trigger.valueType.UnknownValueType?)
  }

  // ----- what one alarm's request leaves alone

  /** Only the alarm `a`, its place on the lists, and the values and brackets of system counters have
      changed; the log may have grown. */
  ghost predicate OnlyAlarm(st: State, st': State, a: nat) {
    && st'.awaits == st.awaits
    && st'.alarms - {a} == st.alarms - {a}
    && st'.counters.Keys == st.counters.Keys
    && forall d :: d in st.counters ==> CounterKept(st.counters[d], st'.counters[d], OfAlarm(a))
  }

  lemma OthersOnList(st: State, st': State, a: nat, d: nat, x: TrigId)
    requires OnlyAlarm(st, st', a) && d in st.counters && x != OfAlarm(a)
    ensures x in st.counters[d].triggers <==> x in st'.counters[d].triggers
  {
    assert x in st.counters[d].triggers <==> x in Survivors(st.counters[d].triggers, {OfAlarm(a)});
    assert x in st'.counters[d].triggers <==> x in Survivors(st'.counters[d].triggers, {OfAlarm(a)});
  }

  lemma OnlyAlarmRegistered(st: State, st': State, a: nat)
    requires Registered(st) && OnlyAlarm(st, st', a)
    ensures Registered(st')
  {
    forall w | w in st'.awaits ensures RegisteredAwait(st', w) {
      assert RegisteredAwait(st, w);
      forall i | 0 <= i < |st'.awaits[w].conds|
        ensures var c := st'.awaits[w].conds[i].trigger.counter;
                && c.Some? && c.value in st'.counters
                && (!st'.counters[c.value].dying ==> OfAwait(w, i) in st'.counters[c.value].triggers)
      {
        OthersOnList(st, st', a, st'.awaits[w].conds[i].trigger.counter.value, OfAwait(w, i));
      }
    }
  }

  lemma OnlyAlarmTidy(st: State, st': State, a: nat, b: nat)
    requires OnlyAlarm(st, st', a) && b != a && b in st.alarms && TidyAlarm(st, b)
    ensures b in st'.alarms && TidyAlarm(st', b)
  {
    assert b in st.alarms - {a};
    assert st'.alarms[b] == (st'.alarms - {a})[b] == (st.alarms - {a})[b];
    if st.alarms[b].trigger.counter.Some? {
      OthersOnList(st, st', a, st.alarms[b].trigger.counter.value, OfAlarm(b));
    }
  }

  lemma OnlyAlarmTidyAll(st: State, st': State, a: nat)
    requires OnlyAlarm(st, st', a)
    requires forall b :: b in st.alarms && b != a ==> TidyAlarm(st, b)
    ensures Tidy(st') <==> (a in st'.alarms ==> TidyAlarm(st', a))
  {
    forall b | b in st'.alarms && b != a ensures TidyAlarm(st', b) {
      assert b in st'.alarms - {a};
      OnlyAlarmTidy(st, st', a, b);
    }
  }

  lemma TriggerIsAlarm(st: State, mid: State, st': State, a: nat)
    requires OnlyTrigger(mid, st', OfAlarm(a))
    requires mid.counters == st.counters && mid.awaits == st.awaits && mid.alarms - {a} == st.alarms - {a}
    ensures OnlyAlarm(st, st', a)
  {
    assert st'.alarms - {a} == mid.alarms - {a};
    forall d | d in st.counters ensures CounterKept(st.counters[d], st'.counters[d], OfAlarm(a)) {
      assert CounterKept(mid.counters[d], st'.counters[d], OfAlarm(a));
    }
  }

  /** Storing into an alarm without moving it keeps the lists sound. */
  lemma StoredSteady(st: State, a: nat, al: Alarm, log: seq<Event>)
    requires Steady(st) && a in st.alarms && al.trigger.counter == st.alarms[a].trigger.counter
    ensures var r := st.(alarms := st.alarms[a := al], log := log);
            Steady(r) && OnlyAlarm(st, r, a) && SameLists(st, r)
  {
    var r := st.(alarms := st.alarms[a := al], log := log);
    forall d | d in r.counters ensures SoundList(r, d, r.counters[d].triggers) {
      assert SoundList(st, d, st.counters[d].triggers);
    }
    assert r.alarms - {a} == st.alarms - {a};
    OnlyAlarmRegistered(st, r, a);
  }

  lemma OnlyAlarmTwice(st: State, mid: State, st': State, a: nat)
    requires OnlyAlarm(st, mid, a) && OnlyAlarm(mid, st', a)
    ensures OnlyAlarm(st, st', a)
  {
    forall d | d in st.counters ensures CounterKept(st.counters[d], st'.counters[d], OfAlarm(a)) {
      assert CounterKept(st.counters[d], mid.counters[d], OfAlarm(a));
      assert CounterKept(mid.counters[d], st'.counters[d], OfAlarm(a));
    }
  }

  // ----- SyncChangeAlarmAttributes

  lemma AlarmIsLeft(st: State, a: nat, attrs: Attributes, clock: nat -> Int64, memory: bool)
    requires Steady(st) && a in st.alarms
    requires st.alarms[a].trigger.counter.Some? ==> st.alarms[a].trigger.counter.value in st.counters
    ensures var r := AttributesAfter(st, a, attrs, clock, memory);
            a in r.alarms && r.alarms[a] == AlarmLeft(st.counters, st.alarms[a], attrs, clock, memory)
  {
    if !Early(st.alarms[a], attrs) {
      var mid := st.(alarms := st.alarms[a := Written(st.alarms[a], attrs)]);
      StoredSteady(st, a, Written(st.alarms[a], attrs), st.log);
      InitFields(mid, OfAlarm(a), ChangesOf(attrs), clock, memory);
      InitKeeps(mid, OfAlarm(a), ChangesOf(attrs), clock, memory);
      OnlyItsTrigger(mid, InitAfter(mid, OfAlarm(a), ChangesOf(attrs), clock, memory), a);
    }
  }

  lemma OnlyItsTrigger(st: State, r: State, a: nat)
    requires OnlyTrigger(st, r, OfAlarm(a))
    ensures r.awaits == st.awaits && r.log == st.log && a in st.alarms && a in r.alarms
    ensures r.alarms == st.alarms[a := st.alarms[a].(trigger := r.alarms[a].trigger)]
  {
  }

  /** SyncChangeAlarmAttributes. */
  method ChangeAttributes(s: Server, a: nat, attrs: Attributes, clock: nat -> Int64,
                          memory: bool) returns (status: Status)
    requires Steady(s.St()) && a in s.alarms
    requires s.alarms[a].trigger.counter.Some? ==> s.alarms[a].trigger.counter.value in s.counters
    modifies s
    ensures status == ChangeStatus(old(s.counters), old(s.alarms)[a], attrs, clock, memory)
    ensures s.St() == AttributesAfter(old(s.St()), a, attrs, clock, memory)
    ensures Steady(s.St()) && OnlyAlarm(old(s.St()), s.St(), a) && s.log == old(s.log) && a in s.alarms
  {
    ghost var st := s.St();
    AttributesKeep(st, a, attrs, clock, memory);
    var al := Written(s.alarms[a], attrs);
    StoredSteady(st, a, al, st.log);
    s.alarms := s.alarms[a := al];
    if LoopStatus(attrs) != Success {
      return LoopStatus(attrs);
    }
    if (attrs.delta.Some? || attrs.testType.Some?) && !SyncAlarm.SignAgrees(al.trigger.testType, al.delta) {
      return BadMatch;
    }
    status := InitTrigger(s, OfAlarm(a), ChangesOf(attrs), clock, memory);
    if status == Success {
      s.alarms := s.alarms[a := s.alarms[a].(state := Active)];
    }
  }

  lemma AttributesKeep(st: State, a: nat, attrs: Attributes, clock: nat -> Int64, memory: bool)
    requires Steady(st) && a in st.alarms
    requires st.alarms[a].trigger.counter.Some? ==> st.alarms[a].trigger.counter.value in st.counters
    ensures var r := AttributesAfter(st, a, attrs, clock, memory);
            Steady(r) && OnlyAlarm(st, r, a) && r.log == st.log && a in r.alarms
  {
    var al := Written(st.alarms[a], attrs);
    StoredSteady(st, a, al, st.log);
    if !Early(st.alarms[a], attrs) {
      var mid := st.(alarms := st.alarms[a := al]);
      var st1 := InitAfter(mid, OfAlarm(a), ChangesOf(attrs), clock, memory);
      InitKeeps(mid, OfAlarm(a), ChangesOf(attrs), clock, memory);
      OnlyItsTrigger(mid, st1, a);
      TriggerIsAlarm(st, mid, st1, a);
      OnlyAlarmRegistered(st, st1, a);
      var r := st1.(alarms := st1.alarms[a := st1.alarms[a].(state := Active)]);
      StoredSteady(st1, a, r.alarms[a], st1.log);
      OnlyAlarmTwice(st, st1, r, a);
    }
  }

  // ----- when the extension stays tidy

  lemma SignHolds(al: Alarm, attrs: Attributes)
    requires Agrees(al.trigger) && SyncAlarm.SignAgrees(al.trigger.check, al.delta) && !SignRefused(al, attrs)
    ensures SyncAlarm.SignAgrees(Written(al, attrs).trigger.testType, Written(al, attrs).delta)
  {
  }

  /** The request's effect on the fields of the alarm. */
  lemma FieldsTidyAfter(counters: map<nat, Counter>, al: Alarm, attrs: Attributes, clock: nat -> Int64, memory: bool)
    requires Agrees(al.trigger) && !al.trigger.check.UnknownTest? && SyncAlarm.SignAgrees(al.trigger.check, al.delta)
    requires al.state != Destroyed
    ensures var al', status := AlarmLeft(counters, al, attrs, clock, memory),
                               ChangeStatus(counters, al, attrs, clock, memory);
            var tidy := Agrees(al'.trigger) && !al'.trigger.check.UnknownTest?
                        && SyncAlarm.SignAgrees(al'.trigger.check, al'.delta)
                        && al'.state != Destroyed;
            && (status == Success ==> tidy)
            && (status != Success && (Early(al, attrs) || status == BadCounter) ==>
                  (tidy <==> Harmless(counters, al, attrs, clock, memory)))
            && (status != Success && !(Early(al, attrs) || status == BadCounter) ==>
                  (tidy <==>
                     TakesEffect(Written(al, attrs), attrs) || Written(al, attrs).trigger.testType == al.trigger.check))
  {
    if !Early(al, attrs) {
      SignHolds(al, attrs);
    }
  }

  /** Its effect on the list the alarm is on. */
  lemma ListTidyAfter(st: State, a: nat, attrs: Attributes, clock: nat -> Int64, memory: bool)
    requires Steady(st) && a in st.alarms && OnItsList(st, OfAlarm(a))
    ensures var r, al := AttributesAfter(st, a, attrs, clock, memory), st.alarms[a];
            var c, status := NamedCounter(al.trigger, ChangesOf(attrs)),
                ChangeStatus(st.counters, al, attrs, clock, memory);
            OnItsList(r, OfAlarm(a))
            <==> Early(al, attrs) || status == BadCounter || status == Success || c == al.trigger.counter || c.None?
  {
    var al := st.alarms[a];
    if !Early(al, attrs) {
      var mid := st.(alarms := st.alarms[a := Written(al, attrs)]);
      StoredSteady(st, a, Written(al, attrs), st.log);
      InitRegisters(mid, OfAlarm(a), ChangesOf(attrs), clock, memory);
      StateNoMatter(InitAfter(mid, OfAlarm(a), ChangesOf(attrs), clock, memory), a);
    }
  }

  lemma StateNoMatter(st: State, a: nat)
    ensures a in st.alarms ==>
              OnItsList(st.(alarms := st.alarms[a := st.alarms[a].(state := Active)]), OfAlarm(a))
              == OnItsList(st, OfAlarm(a))
  {
  }

  /** An accepted request leaves the extension tidy; a refused one exactly if it was harmless. */
  lemma TidyAfter(st: State, a: nat, attrs: Attributes, clock: nat -> Int64, memory: bool)
    requires Steady(st) && a in st.alarms && Tidy(st)
    ensures Tidy(AttributesAfter(st, a, attrs, clock, memory))
            <==> ChangeStatus(st.counters, st.alarms[a], attrs, clock, memory) == Success
                 || Harmless(st.counters, st.alarms[a], attrs, clock, memory)
  {
    var r := AttributesAfter(st, a, attrs, clock, memory);
    assert TidyAlarm(st, a);
    AttributesKeep(st, a, attrs, clock, memory);
    OnlyAlarmTidyAll(st, r, a);
    AlarmIsLeft(st, a, attrs, clock, memory);
    FieldsTidyAfter(st.counters, st.alarms[a], attrs, clock, memory);
    ListTidyAfter(st, a, attrs, clock, memory);
  }

  // ----- requests that are not harmless

  const PLAIN_ALARM := Alarm(Trigger(None, PositiveComparison, PositiveComparison, Absolute, 0, 0), 0, Inactive)

  const NO_ATTRIBUTES := Attributes(None, None, None, None, None, None, false)

  /** A counter, and an alarm that does not name it. */
  const PLAIN_STATE := State(map[7 := Counter(0, None, [], false)], map[1 := PLAIN_ALARM], map[], [])

  /** A new counter is taken although the value type is then found to be wrong: the alarm names a counter on
      whose list it is not. */
  lemma RefusedChangeUnregisters()
    ensures var attrs := NO_ATTRIBUTES.(counter := Some(Some(7)), valueType := Some(UnknownValueType(2)));
            var r := AttributesAfter(PLAIN_STATE, 1, attrs, c => 0, true);
            && Tidy(PLAIN_STATE) && ChangeStatus(PLAIN_STATE.counters, PLAIN_ALARM, attrs, c => 0, true) == BadValue
            && 1 in r.alarms && r.alarms[1].trigger.counter == Some(7) && OnNoList(r, OfAlarm(1)) && !TidyAlarm(r, 1)
  {
  }

  /** A wrong Events value, or an unknown bit, is found when the test type or the delta has been written. */
  lemma RefusedEventsUntidy()
    ensures var attrs := NO_ATTRIBUTES.(testType := Some(NegativeComparison), events := Some(NotBoolean));
            var r := AttributesAfter(PLAIN_STATE, 1, attrs, c => 0, true);
            && ChangeStatus(PLAIN_STATE.counters, PLAIN_ALARM, attrs, c => 0, true) == BadValue
            && 1 in r.alarms && r.alarms[1].trigger.testType == NegativeComparison
            && r.alarms[1].trigger.check == PositiveComparison && !TidyAlarm(r, 1)
    ensures var attrs := NO_ATTRIBUTES.(delta := Some(-5), unknown := true);
            var r := AttributesAfter(PLAIN_STATE, 1, attrs, c => 0, true);
            && ChangeStatus(PLAIN_STATE.counters, PLAIN_ALARM, attrs, c => 0, true) == BadValue
            && 1 in r.alarms && r.alarms[1].delta == -5
            && r.alarms[1].trigger.check == PositiveComparison && !TidyAlarm(r, 1)
  {
  }

  // ----- firing an alarm

  lemma FiresKeeps(st: State, a: nat)
    requires Steady(st) && a in st.alarms
    ensures Steady(AlarmFires(st, a)) && OnlyAlarm(st, AlarmFires(st, a), a) && SameLists(st, AlarmFires(st, a))
    ensures TidyAlarm(st, a) ==> TidyAlarm(AlarmFires(st, a), a)
  {
    var r := AlarmFires(st, a);
    StoredSteady(st, a, r.alarms[a], r.log);
    assert st.alarms[a := st.alarms[a]] == st.alarms;
  }

  lemma TidyGoesOff(st: State, a: nat)
    requires NoneDying(st) && a in st.alarms && TidyAlarm(st, a)
    requires var t := st.alarms[a].trigger;
             t.counter.Some? ==> var v := st.counters[t.counter.value].value; Holds(t.check, t.testValue, v, v)
    ensures CanGoOff(st, a)
  {
  }

  /** The alarm is not left true at the value of its counter. */
  predicate Quiet(st: State, a: nat)
    requires a in st.alarms
  {
    var al := st.alarms[a];
    && (al.trigger.counter.None? ==> al.state != Active)
    && (al.trigger.counter.Some? ==> Settled(al, CounterOf(al.trigger, st.counters).value))
  }

  lemma FiresQuiet(st: State, a: nat)
    requires CanGoOff(st, a)
    ensures Quiet(AlarmFires(st, a), a)
  {
    var al := st.alarms[a];
    if al.state == Active && al.trigger.counter.Some? {
      FiredSettles(al, CounterOf(al.trigger, st.counters).value);
    }
  }

  /** The check made when an alarm has been created or changed: `noneFires` tells whether an alarm
      without a counter goes off. */
  function Checked(st: State, a: nat, noneFires: bool): State
    requires a in st.alarms
  {
    var t := st.alarms[a].trigger;
    var v := CounterOf(t, st.counters).value;
    if (if t.counter.Some? then Check(t, v, v) else noneFires) then AlarmFires(st, a) else st
  }

  lemma CheckedKeeps(st: State, a: nat, noneFires: bool)
    requires Steady(st) && Tidy(st) && a in st.alarms && (!noneFires ==> st.alarms[a].trigger.counter.Some?)
    ensures var r := Checked(st, a, noneFires);
            Steady(r) && Tidy(r) && a in r.alarms && OnlyAlarm(st, r, a) && SameLists(st, r) && Quiet(r, a)
  {
    assert TidyAlarm(st, a);
    FiresKeeps(st, a);
    StoredSteady(st, a, st.alarms[a], st.log);
    assert st.alarms[a := st.alarms[a]] == st.alarms;
    var r := Checked(st, a, noneFires);
    OnlyAlarmTidyAll(st, r, a);
    if r == AlarmFires(st, a) && st.alarms[a].state == Active {
      FiresQuiet(st, a);
    }
  }

  method CheckAlarm(s: Server, a: nat, noneFires: bool)
    requires Steady(s.St()) && Tidy(s.St()) && a in s.alarms
    modifies s
    ensures s.St() == Checked(old(s.St()), a, noneFires)
  {
    assert TidyAlarm(s.St(), a);
    var t := s.alarms[a].trigger;
    var fires := noneFires;
    if t.counter.Some? {
      var v := s.counters[t.counter.value].value;
      fires := Check(t, v, v);
    }
    if fires {
      TidyGoesOff(s.St(), a);
      s.AlarmTriggerFired(a);
    }
  }

  /** The state after ProcSyncChangeAlarm. */
  function ChangedAlarm(st: State, a: nat, attrs: Attributes, clock: nat -> Int64, memory: bool): State
    requires a in st.alarms
  {
    var r := AttributesAfter(st, a, attrs, clock, memory);
    if ChangeStatus(st.counters, st.alarms[a], attrs, clock, memory) == Success && a in r.alarms
    then Checked(r, a, true) else r
  }

  /** ProcSyncChangeAlarm: afterwards an accepted alarm is Inactive or false at its counter's value. */
  method ProcChangeAlarm(s: Server, a: nat, attrs: Attributes, clock: nat -> Int64,
                         memory: bool) returns (status: Status)
    requires Steady(s.St()) && Tidy(s.St()) && a in s.alarms
    modifies s
    ensures status == ChangeStatus(old(s.counters), old(s.alarms)[a], attrs, clock, memory)
    ensures s.St() == ChangedAlarm(old(s.St()), a, attrs, clock, memory)
    ensures Steady(s.St()) && OnlyAlarm(old(s.St()), s.St(), a) && a in s.alarms
    ensures status == Success ==> Tidy(s.St()) && Quiet(s.St(), a)
    ensures status != Success ==>
              s.log == old(s.log)
              && (Tidy(s.St()) <==> Harmless(old(s.counters), old(s.alarms)[a], attrs, clock, memory))
  {
    ghost var st := s.St();
    assert TidyAlarm(st, a);
    TidyAfter(st, a, attrs, clock, memory);
    status := ChangeAttributes(s, a, attrs, clock, memory);
    ghost var st1 := s.St();
    if status == Success {
      CheckedKeeps(st1, a, true);
      CheckAlarm(s, a, true);
      OnlyAlarmTwice(st, st1, s.St(), a);
    }
  }

  // ----- alarms whose firing does not end

  /** The work of an alarm that goes off at `now` ends: its test value is not moved at all, or moved until the test
      is false. */
  ghost predicate FiringEnds(al: Alarm, now: Int64) {
    || (al.delta == 0 && IsComparison(al.trigger.testType))
    || exists k: nat :: SyncAlarm.IsAdvance(al.trigger.check, al.trigger.testValue, al.delta, now, k)
  }

  lemma AdvancesMeans(al: Alarm)
    ensures Advances(al) <==> forall now: Int64 :: FiringEnds(al, now)
  {
    forall now: Int64
      ensures FiringEnds(al, now)
              <==> || (al.delta == 0 && IsComparison(al.trigger.testType)) || al.delta != 0
                   || !Holds(al.trigger.check, al.trigger.testValue, now, now)
    {
      SyncAlarm.AdvanceStops(al.trigger.check, al.trigger.testValue, al.delta, now);
    }
    assert FiringEnds(al, al.trigger.testValue) ==> Advances(al);
  }

  /** A request leaves an alarm whose firing may not end exactly if delta 0 is stored together with a test type that
      is no comparison, and the comparison in force stays in force. */
  lemma LoopsExactlyWhen(counters: map<nat, Counter>, al: Alarm, attrs: Attributes, clock: nat -> Int64, memory: bool)
    requires Agrees(al.trigger)
    ensures var al', status := Written(al, attrs), ChangeStatus(counters, al, attrs, clock, memory);
            (exists now: Int64 :: !FiringEnds(AlarmLeft(counters, al, attrs, clock, memory), now))
            <==> && al'.delta == 0 && !IsComparison(al'.trigger.testType) && IsComparison(al.trigger.check)
                 && (Early(al, attrs) || status == BadCounter || !TakesEffect(al', attrs))
  {
    AdvancesMeans(AlarmLeft(counters, al, attrs, clock, memory));
  }

  /** An unknown test type with delta 0: the request is refused, and the alarm then never stops going off. */
  lemma RefusedChangeLoops()
    ensures var attrs := NO_ATTRIBUTES.(testType := Some(UnknownTest(7)));
            && ChangeStatus(PLAIN_STATE.counters, PLAIN_ALARM, attrs, c => 0, true) == BadValue
            && !FiringEnds(AlarmLeft(PLAIN_STATE.counters, PLAIN_ALARM, attrs, c => 0, true), 0)
  {
    SyncAlarm.AdvanceStops(PositiveComparison, 0, 0, 0);
  }

  // ----- creating and destroying alarms

  const NEW_ALARM := Alarm(Trigger(None, PositiveComparison, PositiveComparison, Absolute, 0, 0), 1, Inactive)

  /** An alarm on no list can come and go. */
  lemma StoredNew(st: State, a: nat, al: Alarm, log: seq<Event>)
    requires Steady(st) && OnNoList(st, OfAlarm(a))
    ensures Steady(st.(alarms := st.alarms[a := al], log := log)) && Steady(st.(alarms := st.alarms - {a}, log := log))
    ensures OnlyAlarm(st, st.(alarms := st.alarms[a := al], log := log), a)
    ensures OnlyAlarm(st, st.(alarms := st.alarms - {a}, log := log), a)
  {
    var x, y := st.(alarms := st.alarms[a := al], log := log), st.(alarms := st.alarms - {a}, log := log);
    forall d | d in st.counters
      ensures SoundList(x, d, x.counters[d].triggers) && SoundList(y, d, y.counters[d].triggers)
    {
      assert SoundList(st, d, st.counters[d].triggers);
    }
    assert x.alarms - {a} == st.alarms - {a} == y.alarms - {a};
    OnlyAlarmRegistered(st, x, a);
    OnlyAlarmRegistered(st, y, a);
  }

  lemma NotCreated(st: State, a: nat)
    requires Sound(st) && NoneDying(st) && a !in st.alarms
    ensures OnNoList(st, OfAlarm(a))
  {
    forall d | d in st.counters ensures OfAlarm(a) !in st.counters[d].triggers {
      NotListed(st, OfAlarm(a), d);
    }
  }

  /** A refused new alarm is on no list. */
  lemma RefusedOnNoList(st: State, a: nat, attrs: Attributes, clock: nat -> Int64, memory: bool)
    requires Steady(st) && OnNoList(st, OfAlarm(a)) && a in st.alarms && st.alarms[a].trigger.counter.None?
    requires ChangeStatus(st.counters, st.alarms[a], attrs, clock, memory) != Success
    ensures OnNoList(AttributesAfter(st, a, attrs, clock, memory), OfAlarm(a))
  {
    if !Early(st.alarms[a], attrs) {
      var mid := st.(alarms := st.alarms[a := Written(st.alarms[a], attrs)]);
      StoredSteady(st, a, Written(st.alarms[a], attrs), st.log);
      InitPlaces(mid, OfAlarm(a), ChangesOf(attrs), clock, memory);
      InitKeys(mid, OfAlarm(a), ChangesOf(attrs), clock, memory);
    }
  }

  lemma BackAgain(st: State, st': State, a: nat)
    requires a !in st.alarms && OnlyAlarm(st, st', a)
    requires OnNoList(st, OfAlarm(a)) && OnNoList(st', OfAlarm(a)) && NoneDying(st)
    ensures Unchanged(st, st'.(alarms := st'.alarms - {a}))
  {
    assert st'.alarms - {a} == st.alarms - {a} == st.alarms;
    forall d | d in st.counters
      ensures st'.counters[d].triggers == st.counters[d].triggers
    {
      assert CounterKept(st.counters[d], st'.counters[d], OfAlarm(a));
      SurvivorsAll(st.counters[d].triggers, {OfAlarm(a)});
      SurvivorsAll(st'.counters[d].triggers, {OfAlarm(a)});
    }
  }

  /** The state after ProcSyncCreateAlarm. An alarm created without a counter is Inactive and does not go off. */
  function CreatedAlarm(st: State, a: nat, attrs: Attributes, clock: nat -> Int64, memory: bool): State {
    var r := AttributesAfter(st.(alarms := st.alarms[a := NEW_ALARM]), a, attrs, clock, memory);
    if ChangeStatus(st.counters, NEW_ALARM, attrs, clock, memory) != Success || a !in r.alarms
    then r.(alarms := r.alarms - {a})
    else if r.alarms[a].trigger.counter.None? then r.(alarms := r.alarms[a := r.alarms[a].(state := Inactive)])
    else Checked(r, a, false)
  }

  /** ProcSyncCreateAlarm: a refused alarm leaves nothing behind. */
  method ProcCreateAlarm(s: Server, a: nat, attrs: Attributes, clock: nat -> Int64,
                         memory: bool) returns (status: Status)
    requires Steady(s.St()) && Tidy(s.St()) && a !in s.alarms
    modifies s
    ensures status == ChangeStatus(old(s.counters), NEW_ALARM, attrs, clock, memory)
    ensures s.St() == CreatedAlarm(old(s.St()), a, attrs, clock, memory)
    ensures Steady(s.St()) && Tidy(s.St())
    ensures status != Success ==> Unchanged(old(s.St()), s.St()) && s.log == old(s.log)
    ensures status == Success ==> a in s.alarms && OnlyAlarm(old(s.St()), s.St(), a) && Quiet(s.St(), a)
  {
    ghost var st := s.St();
    NotCreated(st, a);
    StoredNew(st, a, NEW_ALARM, st.log);
    s.alarms := s.alarms[a := NEW_ALARM];
    ghost var mid := s.St();
    OnlyAlarmTidyAll(st, mid, a);
    status := ChangeAttributes(s, a, attrs, clock, memory);
    ghost var st1 := s.St();
    OnlyAlarmTwice(st, mid, st1, a);
    if status != Success {
      RefusedOnNoList(mid, a, attrs, clock, memory);
      StoredNew(st1, a, NEW_ALARM, st1.log);
      BackAgain(st, st1, a);
      s.alarms := s.alarms - {a};
      OnlyAlarmTidyAll(st, s.St(), a);
      return;
    }
    TidyAfter(mid, a, attrs, clock, memory);
    FinishCreate(s, a, st);
  }

  /** An alarm created without a counter is Inactive and does not go off. */
  method FinishCreate(s: Server, a: nat, ghost st: State)
    requires Steady(s.St()) && Tidy(s.St()) && a in s.alarms && OnlyAlarm(st, s.St(), a)
    modifies s
    ensures var st1 := old(s.St());
            s.St() == if st1.alarms[a].trigger.counter.None?
                      then st1.(alarms := st1.alarms[a := st1.alarms[a].(state := Inactive)])
                      else Checked(st1, a, false)
    ensures Steady(s.St()) && Tidy(s.St()) && a in s.alarms && OnlyAlarm(st, s.St(), a) && Quiet(s.St(), a)
  {
    ghost var st1 := s.St();
    assert TidyAlarm(st1, a);
    if s.alarms[a].trigger.counter.None? {
      StoredSteady(st1, a, st1.alarms[a].(state := Inactive), st1.log);
      s.alarms := s.alarms[a := s.alarms[a].(state := Inactive)];
      OnlyAlarmTidyAll(st1, s.St(), a);
    } else {
      CheckedKeeps(st1, a, false);
      CheckAlarm(s, a, false);
    }
    OnlyAlarmTwice(st, st1, s.St(), a);
  }

  /** The state after ProcSyncDestroyAlarm, with FreeAlarm: the last event has the state Destroyed. */
  function DestroyedAlarm(st: State, a: nat): State
    requires a in st.alarms
  {
    var al := st.alarms[a];
    var v := CounterOf(al.trigger, st.counters).value;
    var cut := Deleted(st.(alarms := st.alarms[a := al.(state := Destroyed)],
                           log := st.log + [AlarmNotify(a, v, al.trigger.testValue, Destroyed)]), OfAlarm(a));
    cut.(alarms := cut.alarms - {a})
  }

  /** ProcSyncDestroyAlarm. */
  method ProcDestroyAlarm(s: Server, a: nat)
    requires Steady(s.St()) && Tidy(s.St()) && a in s.alarms
    modifies s
    ensures s.St() == DestroyedAlarm(old(s.St()), a)
    ensures Steady(s.St()) && Tidy(s.St())
    ensures a !in s.alarms && OnlyAlarm(old(s.St()), s.St(), a) && OnNoList(s.St(), OfAlarm(a))
  {
    ghost var st := s.St();
    assert TidyAlarm(st, a);
    var al := s.alarms[a].(state := Destroyed);
    var v := if al.trigger.counter.Some? then s.counters[al.trigger.counter.value].value else 0;
    StoredSteady(st, a, al, st.log + [AlarmNotify(a, v, al.trigger.testValue, Destroyed)]);
    s.alarms := s.alarms[a := al];
    s.log := s.log + [AlarmNotify(a, v, al.trigger.testValue, Destroyed)];
    ghost var mid := s.St();
    SoundAt(mid, OfAlarm(a));
    DeletedKeeps(mid, OfAlarm(a));
    s.DeleteTrigger(OfAlarm(a));
    ghost var cut := s.St();
    TriggerIsAlarm(mid, mid, cut, a);
    OnlyAlarmRegistered(mid, cut, a);
    StoredNew(cut, a, NEW_ALARM, cut.log);
    s.alarms := s.alarms - {a};
    OnlyAlarmTwice(st, mid, cut, a);
    OnlyAlarmTwice(st, cut, s.St(), a);
    OnlyAlarmTidyAll(st, s.St(), a);
  }
}
