/** The objects of the SYNC extension: counters, alarms, awaits and the triggers inside them. */
module SyncModel {
  import opened Options
  import opened SyncValues
  import SyncAlarm

  datatype ValueType = Absolute | Relative | UnknownValueType(code: nat)

  /** A trigger names at most one counter. `check` is the CheckTrigger function it carries; it is
      set from test_type by SyncInitTrigger and can lag behind it. */
  datatype Trigger = Trigger(
    counter: Option<nat>,
    check: TestType,
    testType: TestType,
    valueType: ValueType,
    waitValue: Int64,
    testValue: Int64)

  datatype AlarmState = Active | Inactive | Destroyed

  datatype Alarm = Alarm(trigger: Trigger, delta: Int64, state: AlarmState)

  /** One wait condition of an Await request. */
  datatype Await = Await(trigger: Trigger, threshold: Int64)

  /** The conditions of one Await request; their number is num_waitconditions. */
  datatype AwaitUnion = AwaitUnion(client: nat, conds: seq<Await>)

  /** Where a trigger lives. The trigger is the first member of its alarm or await, so this is
      also its address. */
  datatype TrigId = OfAlarm(alarm: nat) | OfAwait(await: nat, cond: nat)

  datatype CounterType = NeverChanges | NeverIncreases | NeverDecreases | Unrestricted

  /** `less` and `greater` are the pointers last handed to BracketValues: None is NULL. */
  datatype SysInfo = SysInfo(counterType: CounterType, less: Option<Int64>, greater: Option<Int64>)

  datatype Counter = Counter(value: Int64, system: Option<SysInfo>, triggers: seq<TrigId>, dying: bool)

  datatype Entry = Entry(counter: nat, waitValue: Int64, counterValue: Int64, count: nat, destroyed: bool)

  datatype Event =
    | AlarmNotify(alarm: nat, counterValue: Int64, alarmValue: Int64, state: AlarmState)
    | CounterNotify(client: nat, entries: seq<Entry>)
    | Ignore(client: nat)
    | Attend(client: nat)

  datatype State = State(
    counters: map<nat, Counter>,
    alarms: map<nat, Alarm>,
    awaits: map<nat, AwaitUnion>,
    log: seq<Event>)

  // ----- triggers and lists

  predicate Exists(st: State, t: TrigId) {
    match t
    case OfAlarm(a) => a in st.alarms
    case OfAwait(w, i) => w in st.awaits && i < |st.awaits[w].conds|
  }

  const NO_TRIGGER := Trigger(None, PositiveComparison, PositiveComparison, Absolute, 0, 0)

  /** The contents of an existing trigger. */
  function TrigOf(st: State, t: TrigId): Trigger {
    if !Exists(st, t) then NO_TRIGGER
    else
      match t
      case OfAlarm(a) => st.alarms[a].trigger
      case OfAwait(w, i) => st.awaits[w].conds[i].trigger
  }

  ghost predicate NoDuplicates<T(!new)>(s: seq<T>) {
    forall i, j :: 0 <= i < j < |s| ==> s[i] != s[j]
  }

  /** What is left of a trigger list when the triggers in `gone` are taken off it. */
  function Survivors(list: seq<TrigId>, gone: set<TrigId>): (r: seq<TrigId>)
    ensures forall t :: t in r <==> t in list && t !in gone
  {
    if list == [] then []
    else
      var rest := Survivors(list[1..], gone);
      assert list == [list[0]] + list[1..];
      if list[0] in gone then rest else [list[0]] + rest
  }

  lemma {:induction false} SurvivorsNoDuplicates(list: seq<TrigId>, gone: set<TrigId>)
    requires NoDuplicates(list)
    ensures NoDuplicates(Survivors(list, gone))
  {
    if list != [] {
      assert list[0] !in list[1..];
      SurvivorsNoDuplicates(list[1..], gone);
    }
  }

  lemma {:induction false} SurvivorsAll(list: seq<TrigId>, gone: set<TrigId>)
    requires forall t :: t in list ==> t !in gone
    ensures Survivors(list, gone) == list
  {
    if list != [] {
      SurvivorsAll(list[1..], gone);
    }
  }

  lemma {:induction false} SurvivorsTwice(list: seq<TrigId>, g: set<TrigId>, h: set<TrigId>)
    ensures Survivors(Survivors(list, g), h) == Survivors(list, g + h)
  {
    if list != [] {
      SurvivorsTwice(list[1..], g, h);
      var rest := Survivors(list[1..], g);
      if list[0] !in g {
        assert ([list[0]] + rest)[1..] == rest;
      }
    }
  }

  lemma SurvivorsCons(t: TrigId, rest: seq<TrigId>, gone: set<TrigId>)
    ensures Survivors([t] + rest, gone) == (if t in gone then [] else [t]) + Survivors(rest, gone)
  {
    assert ([t] + rest)[1..] == rest;
  }

  lemma {:induction false} SurvivorsConcat(a: seq<TrigId>, b: seq<TrigId>, gone: set<TrigId>)
    ensures Survivors(a + b, gone) == Survivors(a, gone) + Survivors(b, gone)
  {
    if a == [] {
      assert a + b == b;
    } else {
      var t, rest := a[0], a[1..];
      SurvivorsConcat(rest, b, gone);
      assert a == [t] + rest && a + b == [t] + (rest + b);
      SurvivorsCons(t, rest, gone);
      SurvivorsCons(t, rest + b, gone);
    }
  }

  lemma {:induction false} SurvivorsAgree(list: seq<TrigId>, g: set<TrigId>, h: set<TrigId>)
    requires forall t :: t in list ==> (t in g <==> t in h)
    ensures Survivors(list, g) == Survivors(list, h)
  {
    if list != [] {
      SurvivorsAgree(list[1..], g, h);
    }
  }

  // ----- firing

  /** A comparison alarm with delta 0 goes off once and becomes Inactive. Any other alarm has its test value
      moved; if that leaves the 64-bit range, the test value stays and the alarm becomes Inactive. */
  function AlarmFired(al: Alarm, now: Int64): Alarm {
    if al.state != Active then al
    else if al.delta == 0 && IsComparison(al.trigger.testType) then al.(state := Inactive)
    else
      match SyncAlarm.AdvanceResult(al.trigger.check, al.trigger.testValue, al.delta, now)
      case None => al.(state := Inactive)
      case Some(x) => al.(trigger := al.trigger.(testValue := x))
  }

  /** The event carries the new state and the old test value. */
  function AlarmEvents(a: nat, al: Alarm, now: Int64): seq<Event> {
    if al.state != Active then []
    else [AlarmNotify(a, now, al.trigger.testValue, AlarmFired(al, now).state)]
  }

  /** The repeated addition of an alarm that goes off comes to an end. */
  predicate Advances(al: Alarm) {
    al.delta != 0 || IsComparison(al.trigger.testType) || !IsComparison(al.trigger.check)
  }

  /** CheckTrigger: a trigger without a counter is always true. */
  predicate Check(t: Trigger, prev: Int64, now: Int64) {
    t.counter.None? || Holds(t.check, t.testValue, prev, now)
  }

  predicate Agrees(t: Trigger) {
    t.check == t.testType
  }

  // ----- counter notifications of an await

  const NO_COUNTER := Counter(0, None, [], false)

  /** The counter an await's trigger names. */
  function CounterOf(t: Trigger, counters: map<nat, Counter>): Counter {
    if t.counter.Some? && t.counter.value in counters then counters[t.counter.value] else NO_COUNTER
  }

  /** A CounterNotify event is due for this condition. */
  predicate Due(aw: Await, counters: map<nat, Counter>) {
    var c := CounterOf(aw.trigger, counters);
    var diff := c.value - aw.trigger.testValue;
    || c.dying
    || (Fits(diff)
        && match aw.trigger.testType
           case PositiveComparison => diff >= aw.threshold
           case PositiveTransition => diff >= aw.threshold
           case NegativeComparison => diff <= aw.threshold
           case NegativeTransition => diff <= aw.threshold
           case UnknownTest(_) => false)
  }

  /** The conditions among the first `n` for which an event is due, in request order. */
  function DueConditions(conds: seq<Await>, n: nat, counters: map<nat, Counter>): (r: seq<nat>)
    requires n <= |conds|
    ensures |r| <= n
    ensures forall i: nat :: i in r <==> i < n && Due(conds[i], counters)
    ensures forall i, j :: 0 <= i < j < |r| ==> r[i] < r[j]
  {
    if n == 0 then []
    else
      var r := DueConditions(conds, n - 1, counters);
      assert forall i :: 0 <= i < |r| ==> r[i] in r;
      if Due(conds[n - 1], counters) then r + [n - 1] else r
  }

  function EntryOf(t: Trigger, counters: map<nat, Counter>, count: nat): Entry {
    var c := CounterOf(t, counters);
    Entry(if t.counter.Some? then t.counter.value else 0, t.testValue, c.value, count, c.dying)
  }

  /** The events are numbered downwards to 0. */
  function Entries(conds: seq<Await>, due: seq<nat>, counters: map<nat, Counter>): seq<Entry>
    requires forall i :: 0 <= i < |due| ==> due[i] < |conds|
  {
    seq(|due|, i requires 0 <= i < |due| => EntryOf(conds[due[i]].trigger, counters, |due| - i - 1))
  }

  /** All that one released await sends: at most one group of events, then one unblocking. */
  function AwaitEvents(u: AwaitUnion, counters: map<nat, Counter>): seq<Event> {
    var due := DueConditions(u.conds, |u.conds|, counters);
    assert forall i :: 0 <= i < |due| ==> due[i] in due;
    (if due == [] then [] else [CounterNotify(u.client, Entries(u.conds, due, counters))])
    + [Attend(u.client)]
  }
}
