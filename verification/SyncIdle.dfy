/** The idle-time counter skips its triggers while the idle time stays inside the brackets. Over any
    run of wakeups this shortcut is indistinguishable from checking every trigger every time. */
module SyncIdle {
  import opened Options
  import opened SyncValues
  import opened SyncModel
  import opened SyncBrackets
  import opened SyncChange

  /** Firing this trigger would have an effect: an alarm that is not Active ignores it. */
  predicate CanAct(st: State, t: TrigId) {
    && Exists(st, t)
    && (t.OfAlarm? ==> st.alarms[t.alarm].state == Active)
  }

  /** The idle time is a CARD32 number of milliseconds. */
  const IDLE_END := 0x1_0000_0000

  type IdleTime = n: Int64 | 0 <= n < IDLE_END

  /** The least idle time above the lower bracket, and the greatest one below the upper bracket. */
  function Low(less: Option<Int64>): int {
    match less case None => 0 case Some(x) => if x >= 0 then x + 1 else 0
  }

  function High(greater: Option<Int64>): int {
    match greater case None => IDLE_END - 1 case Some(x) => if x < IDLE_END then x - 1 else IDLE_END - 1
  }

  /** The counter stands at `v`: no run of idle times that stay between the brackets makes the trigger go off. */
  predicate Guarded(t: Trigger, v: Int64, less: Option<Int64>, greater: Option<Int64>) {
    var lo, hi := Low(less), High(greater);
    lo > hi
    || match t.check
       case PositiveComparison => hi < t.testValue
       case NegativeComparison => t.testValue < lo
       case PositiveTransition => hi < t.testValue || (t.testValue <= lo && t.testValue <= v)
       case NegativeTransition => t.testValue < lo || (hi <= t.testValue && v <= t.testValue)
       case UnknownTest(_) => true
  }

  predicate Idle(st: State, c: nat) {
    && c in st.counters && !st.counters[c].dying
    && st.counters[c].system.Some? && st.counters[c].system.value.counterType == Unrestricted
  }

  ghost predicate AllGuarded(st: State, c: nat)
    requires Idle(st, c)
  {
    var cnt := st.counters[c];
    forall t :: t in cnt.triggers && CanAct(st, t) ==>
      Guarded(TrigOf(st, t), cnt.value, cnt.system.value.less, cnt.system.value.greater)
  }

  /** The triggers of `c` carry the CheckTrigger function of their test type, and their alarms come
      to an end when they go off. */
  ghost predicate Orderly(st: State, c: nat)
    requires c in st.counters
  {
    forall t :: t in st.counters[c].triggers ==>
      Agrees(TrigOf(st, t)) && (t.OfAlarm? && t.alarm in st.alarms ==> Advances(st.alarms[t.alarm]))
  }

  ghost predicate Ready(st: State, c: nat) {
    Valid(st) && Idle(st, c) && Orderly(st, c) && AllGuarded(st, c)
  }

  // ----- brackets computed at the present value

  /** The brackets of `c` are those of its present value and triggers. */
  ghost predicate FreshBrackets(st: State, c: nat) {
    c in st.counters && st.counters[c] == Bracketed(st, st.counters[c])
  }

  lemma BracketedFresh(st: State, r: State, c: nat, cnt: Counter)
    requires c in r.counters && r.counters[c] == Bracketed(st, cnt)
    requires forall t :: t in cnt.triggers ==> TrigOf(st, t) == TrigOf(r, t)
    ensures FreshBrackets(r, c) && r.counters[c].value == cnt.value && r.counters[c].triggers == cnt.triggers
  {
    BracketedAgree(st, r, cnt);
    assert TrigData(r, cnt.triggers) == TrigData(r, r.counters[c].triggers);
  }

  lemma FreshStays(st: State, r: State, c: nat)
    requires FreshBrackets(st, c) && c in r.counters && r.counters[c] == st.counters[c]
    requires forall t :: t in st.counters[c].triggers ==> TrigOf(st, t) == TrigOf(r, t)
    ensures FreshBrackets(r, c)
  {
    BracketedAgree(st, r, st.counters[c]);
  }

  // ----- the handler

  /** The test IdleTimeCheckBrackets makes; NULL brackets are never crossed. */
  predicate Crosses(less: Option<Int64>, greater: Option<Int64>, idle: Int64) {
    (greater.Some? && idle >= greater.value) || (less.Some? && idle <= less.value)
  }

  ghost function CheckedBrackets(st: State, c: nat, idle: Int64, less: Option<Int64>, greater: Option<Int64>): State
    requires c in st.counters
  {
    if Crosses(less, greater, idle) then AfterChange(st, c, idle)
    else st.(counters := WithValue(st.counters, c, idle))
  }

  datatype Wakeup = Wakeup(idle: IdleTime, reset: bool)

  /** IdleTimeWakeupHandler. After an input event the idle time has been 0, which is looked at first. */
  ghost function WokenUp(st: State, c: nat, w: Wakeup): State
    requires Idle(st, c)
  {
    var si := st.counters[c].system.value;
    if si.less.None? && si.greater.None? then st
    else
      var st1 := if w.reset && w.idle != 0 then CheckedBrackets(st, c, 0, si.less, si.greater) else st;
      var si1 := CounterAt(st1, c).system;
      if si1.None? then st1
      else CheckedBrackets(st1, c, w.idle, si1.value.less, si1.value.greater)
  }

  function CounterAt(st: State, c: nat): Counter {
    if c in st.counters then st.counters[c] else NO_COUNTER
  }

  /** The same without any shortcut: every trigger is checked for every value. */
  ghost function CheckedAlways(st: State, c: nat, w: Wakeup): State
    requires c in st.counters
  {
    var st1 := if w.reset && w.idle != 0 then AfterChange(st, c, 0) else st;
    AfterChange(st1, c, w.idle)
  }

  // ----- nothing acts inside the brackets

  lemma SilentRange(less: Option<Int64>, greater: Option<Int64>, idle: IdleTime)
    ensures !Crosses(less, greater, idle) <==> Low(less) <= idle <= High(greater)
  {
  }

  lemma GuardHolds(t: Trigger, v: Int64, less: Option<Int64>, greater: Option<Int64>, idle: IdleTime)
    requires Guarded(t, v, less, greater) && !Crosses(less, greater, idle)
    ensures !Holds(t.check, t.testValue, v, idle)
    ensures Guarded(t, idle, less, greater)
  {
    SilentRange(less, greater, idle);
  }

  /** None of the triggers of `c` acts when the counter goes to `v`. */
  ghost predicate NothingActs(st: State, c: nat, v: Int64)
    requires c in st.counters
  {
    forall t :: t in st.counters[c].triggers && CanAct(st, t) ==> !GoesTrue(st, c, v, t)
  }

  lemma {:induction false} NoEvents(st: State, c: nat, v: Int64, list: seq<TrigId>)
    requires c in st.counters
    requires forall t :: t in list && CanAct(st, t) ==> !GoesTrue(st, c, v, t)
    ensures EventsAlong(st, c, v, list) == []
  {
    if list != [] {
      var walked, t := list[..|list| - 1], list[|list| - 1];
      forall x | x in walked ensures x in list { }
      NoEvents(st, c, v, walked);
      assert t in list;
    }
  }

  lemma NobodyUnblocked(st: State, c: nat, v: Int64, list: seq<TrigId>)
    requires c in st.counters && SoundList(st, c, list) && list == st.counters[c].triggers && NothingActs(st, c, v)
    ensures UnblockedBy(st, c, v, list) == {}
  {
    forall w, i | w in st.awaits && OfAwait(w, i) in list ensures !GoesTrue(st, c, v, OfAwait(w, i)) {
    }
  }

  /** When nothing acts, a full check only stores the value and computes the brackets again. */
  lemma QuietChange(st: State, c: nat, v: Int64)
    requires Valid(st) && c in st.counters && !st.counters[c].dying && NothingActs(st, c, v)
    ensures AfterChange(st, c, v)
      == var mid := st.(counters := WithValue(st.counters, c, v));
         mid.(counters := mid.counters[c := Bracketed(mid, mid.counters[c])])
  {
    var list := st.counters[c].triggers;
    assert SoundList(st, c, list);
    NoEvents(st, c, v, list);
    var out := UnblockedBy(st, c, v, list);
    NobodyUnblocked(st, c, v, list);
    NothingReleased(st, c, v);
    NoAlarmMoves(st, c, v, list);
    assert st.awaits - {} == st.awaits;
    assert st.log + [] == st.log;
  }

  lemma NothingReleased(st: State, c: nat, v: Int64)
    requires c in st.counters && !st.counters[c].dying
    ensures TriggersOf(st, {}) == {}
    ensures CountersAfter(st, c, v, {}) == WithValue(st.counters, c, v)
  {
    SurvivorsAll(st.counters[c].triggers, {});
    assert TriggersOf(st, {}) == {};
  }

  lemma NoAlarmMoves(st: State, c: nat, v: Int64, list: seq<TrigId>)
    requires c in st.counters && list == st.counters[c].triggers && SoundList(st, c, list) && NothingActs(st, c, v)
    ensures AlarmsAfter(st, c, v, list) == st.alarms
  {
  }

  // ----- the brackets are fresh after a full check

  lemma ChangeKeepsTriggers(st: State, c: nat, v: Int64, t: TrigId)
    requires Valid(st) && c in st.counters && !st.counters[c].dying
    requires t in AfterChange(st, c, v).counters[c].triggers
    ensures t in st.counters[c].triggers && Exists(st, t)
    ensures t.OfAwait? ==> TrigOf(AfterChange(st, c, v), t) == TrigOf(st, t) && !GoesTrue(st, c, v, t)
  {
    var r := AfterChange(st, c, v);
    assert SoundList(st, c, st.counters[c].triggers);
    ChangeKeepsValid(st, c, v);
    ChangeKeepsLists(st, c, v);
    assert SoundList(r, c, r.counters[c].triggers);
  }

  lemma ChangeKeepsOrder(st: State, c: nat, v: Int64)
    requires Valid(st) && Idle(st, c) && Orderly(st, c)
    ensures Idle(AfterChange(st, c, v), c) && Orderly(AfterChange(st, c, v), c)
  {
    var r := AfterChange(st, c, v);
    forall t | t in r.counters[c].triggers
      ensures Agrees(TrigOf(r, t)) && (t.OfAlarm? && t.alarm in r.alarms ==> Advances(r.alarms[t.alarm]))
    {
      TriggerKeepsOrder(st, c, v, t);
    }
  }

  lemma TriggerKeepsOrder(st: State, c: nat, v: Int64, t: TrigId)
    requires Valid(st) && Idle(st, c) && Orderly(st, c)
    requires t in AfterChange(st, c, v).counters[c].triggers
    ensures var r := AfterChange(st, c, v);
            Agrees(TrigOf(r, t)) && (t.OfAlarm? && t.alarm in r.alarms ==> Advances(r.alarms[t.alarm]))
  {
    ChangeKeepsTriggers(st, c, v, t);
    if t.OfAlarm? {
      FiredKeepsOrder(st.alarms[t.alarm], v);
      var al := AlarmsAfter(st, c, v, st.counters[c].triggers)[t.alarm];
      assert al == st.alarms[t.alarm] || al == AlarmFired(st.alarms[t.alarm], v);
      assert TrigOf(AfterChange(st, c, v), t) == al.trigger;
    }
  }

  lemma FiredKeepsOrder(al: Alarm, v: Int64)
    ensures Agrees(AlarmFired(al, v).trigger) == Agrees(al.trigger)
    ensures Advances(AlarmFired(al, v)) == Advances(al)
  {
  }

  /** A trigger that is false at `v` is guarded by the brackets computed at `v`. */
  lemma FreshGuard(v: Int64, ts: seq<Trigger>, t: Trigger)
    requires t in ts && Agrees(t) && !Holds(t.check, t.testValue, v, v)
    ensures Guarded(t, v, Less(Unrestricted, v, ts), Greater(Unrestricted, v, ts))
  {
  }

  lemma ChangeSettles(st: State, c: nat, v: Int64, t: TrigId)
    requires Valid(st) && Idle(st, c) && Orderly(st, c)
    requires t in AfterChange(st, c, v).counters[c].triggers && CanAct(AfterChange(st, c, v), t)
    ensures var tr := TrigOf(AfterChange(st, c, v), t); !Holds(tr.check, tr.testValue, v, v)
  {
    ChangeKeepsTriggers(st, c, v, t);
    if t.OfAlarm? {
      AlarmsSettle(st, c, v, t.alarm);
    } else {
      assert SoundList(st, c, st.counters[c].triggers);
    }
  }

  /** After any full check of an Unrestricted counter, every trigger that can act is guarded. */
  lemma ChangeGuards(st: State, c: nat, v: Int64)
    requires Valid(st) && Idle(st, c) && Orderly(st, c)
    ensures Ready(AfterChange(st, c, v), c)
  {
    var r := AfterChange(st, c, v);
    ChangeKeepsValid(st, c, v);
    ChangeKeepsOrder(st, c, v);
    var list := r.counters[c].triggers;
    var ts := TrigData(r, list);
    forall t | t in list && CanAct(r, t)
      ensures Guarded(TrigOf(r, t), v, Less(Unrestricted, v, ts), Greater(Unrestricted, v, ts))
    {
      var i :| 0 <= i < |list| && list[i] == t;
      assert ts[i] == TrigOf(r, t);
      ChangeSettles(st, c, v, t);
      FreshGuard(v, ts, TrigOf(r, t));
    }
    DataIndependent(st, c, v);
  }

  lemma DataIndependent(st: State, c: nat, v: Int64)
    requires Idle(st, c)
    ensures var r := AfterChange(st, c, v);
            var ts := TrigData(r, r.counters[c].triggers);
            && r.counters[c].value == v
            && r.counters[c].system == Some(SysInfo(Unrestricted, Less(Unrestricted, v, ts),
                                                            Greater(Unrestricted, v, ts)))
  {
    var r := AfterChange(st, c, v);
    var list := st.counters[c].triggers;
    var out := UnblockedBy(st, c, v, list);
    var r0 := State(CountersAfter(st, c, v, TriggersOf(st, out)), AlarmsAfter(st, c, v, list),
                    st.awaits - out, st.log + EventsAlong(st, c, v, list));
    assert TrigData(r0, r.counters[c].triggers) == TrigData(r, r.counters[c].triggers);
  }

  // ----- the refinement

  /** The same state up to the brackets of `c`. */
  ghost predicate Alike(a: State, b: State, c: nat) {
    && a.alarms == b.alarms && a.awaits == b.awaits && a.log == b.log
    && a.counters.Keys == b.counters.Keys && c in a.counters
    && (forall d :: d in a.counters && d != c ==> a.counters[d] == b.counters[d])
    && SameButBrackets(a.counters[c], b.counters[c])
  }

  lemma AlikeChange(a: State, b: State, c: nat, v: Int64)
    requires Alike(a, b, c)
    ensures AfterChange(a, c, v) == AfterChange(b, c, v)
  {
    var list := a.counters[c].triggers;
    assert a == b.(counters := a.counters);
    assert a.counters == b.counters[c := a.counters[c]];
    AlikeEvents(a, b, c, v, list);
    assert UnblockedBy(a, c, v, list) == UnblockedBy(b, c, v, list);
    assert AlarmsAfter(a, c, v, list) == AlarmsAfter(b, c, v, list);
    var out := UnblockedBy(a, c, v, list);
    assert TriggersOf(a, out) == TriggersOf(b, out);
    AlikeCounters(a, b, c, v, out);
  }

  ghost function Core(st: State, c: nat, v: Int64, out: set<nat>): State
    requires c in st.counters
  {
    var list := st.counters[c].triggers;
    State(CountersAfter(st, c, v, TriggersOf(st, out)), AlarmsAfter(st, c, v, list),
          st.awaits - out, st.log + EventsAlong(st, c, v, list))
  }

  lemma AlikeOthers(a: State, b: State, c: nat, v: Int64, gone: set<TrigId>)
    requires Alike(a, b, c)
    ensures forall d :: d in a.counters && d != c ==> CountersAfter(a, c, v, gone)[d] == CountersAfter(b, c, v, gone)[d]
  {
    forall d | d in a.counters && d != c
      ensures CountersAfter(a, c, v, gone)[d] == CountersAfter(b, c, v, gone)[d]
    {
      WithdrawnTriggersAgree(a, b, a.counters[d], gone);
    }
  }

  lemma AlikeCounters(a: State, b: State, c: nat, v: Int64, out: set<nat>)
    requires Alike(a, b, c) && TriggersOf(a, out) == TriggersOf(b, out)
    requires AlarmsAfter(a, c, v, a.counters[c].triggers) == AlarmsAfter(b, c, v, a.counters[c].triggers)
    ensures var x, y := Core(a, c, v, out), Core(b, c, v, out);
            x.counters[c := Bracketed(x, x.counters[c])] == y.counters[c := Bracketed(y, y.counters[c])]
  {
    var x, y := Core(a, c, v, out), Core(b, c, v, out);
    AlikeOthers(a, b, c, v, TriggersOf(a, out));
    AlikeHere(a, b, c, v, TriggersOf(a, out));
    AlikeSelf(x, y, c);
    MapsAgree(x.counters, y.counters, c, Bracketed(x, x.counters[c]));
  }

  lemma MapsAgree(m: map<nat, Counter>, n: map<nat, Counter>, c: nat, cnt: Counter)
    requires m.Keys == n.Keys && forall d :: d in m && d != c ==> m[d] == n[d]
    ensures m[c := cnt] == n[c := cnt]
  {
  }

  lemma AlikeHere(a: State, b: State, c: nat, v: Int64, gone: set<TrigId>)
    requires Alike(a, b, c)
    ensures CountersAfter(a, c, v, gone).Keys == CountersAfter(b, c, v, gone).Keys == a.counters.Keys
    ensures SameButBrackets(CountersAfter(a, c, v, gone)[c], CountersAfter(b, c, v, gone)[c])
  {
  }

  lemma AlikeSelf(x: State, y: State, c: nat)
    requires c in x.counters && c in y.counters && SameButBrackets(x.counters[c], y.counters[c])
    requires x.alarms == y.alarms && x.awaits == y.awaits
    ensures Bracketed(x, x.counters[c]) == Bracketed(y, y.counters[c])
  {
    BracketsForgotten(x, x.counters[c], y.counters[c]);
    BracketedAgree(x, y, y.counters[c]);
  }

  lemma WithdrawnTriggersAgree(a: State, b: State, cnt: Counter, gone: set<TrigId>)
    requires a.alarms == b.alarms && a.awaits == b.awaits
    ensures Withdrawn(a, cnt, gone) == Withdrawn(b, cnt, gone)
  {
    BracketedAgree(a, b, cnt.(triggers := Survivors(cnt.triggers, gone)));
  }

  lemma {:induction false} AlikeEvents(a: State, b: State, c: nat, v: Int64, list: seq<TrigId>)
    requires Alike(a, b, c)
    ensures EventsAlong(a, c, v, list) == EventsAlong(b, c, v, list)
  {
    if list != [] {
      var walked, t := list[..|list| - 1], list[|list| - 1];
      AlikeEvents(a, b, c, v, walked);
      if t.OfAwait? && Exists(a, t) {
        AwaitEventsAgree(a.awaits[t.await], WithValue(a.counters, c, v), WithValue(b.counters, c, v));
      }
    }
  }

  /** The events of an await depend on the values of the counters and on which of them is dying. */
  lemma AwaitEventsAgree(u: AwaitUnion, m: map<nat, Counter>, n: map<nat, Counter>)
    requires m.Keys == n.Keys
    requires forall c :: c in m ==> m[c].value == n[c].value && m[c].dying == n[c].dying
    ensures AwaitEvents(u, m) == AwaitEvents(u, n)
  {
    DueAgree(u.conds, |u.conds|, m, n);
    var due := DueConditions(u.conds, |u.conds|, m);
    assert forall i :: 0 <= i < |due| ==> due[i] in due;
    assert Entries(u.conds, due, m) == Entries(u.conds, due, n);
  }

  lemma {:induction false} DueAgree(conds: seq<Await>, k: nat, m: map<nat, Counter>, n: map<nat, Counter>)
    requires k <= |conds| && m.Keys == n.Keys
    requires forall c :: c in m ==> m[c].value == n[c].value && m[c].dying == n[c].dying
    ensures DueConditions(conds, k, m) == DueConditions(conds, k, n)
  {
    if k > 0 {
      DueAgree(conds, k - 1, m, n);
    }
  }

  /** One look at the brackets, against one full check. */
  lemma CheckRefines(a: State, b: State, c: nat, idle: IdleTime)
    requires Ready(a, c) && Alike(a, b, c)
    ensures var si := a.counters[c].system.value;
            var a', b' := CheckedBrackets(a, c, idle, si.less, si.greater), AfterChange(b, c, idle);
            Ready(a', c) && Alike(a', b', c)
  {
    var si := a.counters[c].system.value;
    AlikeChange(a, b, c, idle);
    if Crosses(si.less, si.greater, idle) {
      ChangeGuards(a, c, idle);
    } else {
      SkipRefines(a, c, idle);
    }
  }

  /** A check that is skipped would only have computed the brackets again. */
  lemma SkipRefines(a: State, c: nat, idle: IdleTime)
    requires Ready(a, c)
    requires !Crosses(a.counters[c].system.value.less, a.counters[c].system.value.greater, idle)
    ensures var mid := a.(counters := WithValue(a.counters, c, idle));
            Ready(mid, c) && Alike(mid, AfterChange(a, c, idle), c)
  {
    SilentIsQuiet(a, c, idle);
    QuietChange(a, c, idle);
    var mid := a.(counters := WithValue(a.counters, c, idle));
    assert TrigData(mid, mid.counters[c].triggers) == TrigData(a, a.counters[c].triggers);
    ValueKeepsReady(a, c, idle);
  }

  lemma SilentIsQuiet(st: State, c: nat, idle: IdleTime)
    requires Ready(st, c)
    requires !Crosses(st.counters[c].system.value.less, st.counters[c].system.value.greater, idle)
    ensures NothingActs(st, c, idle)
    ensures AllGuarded(st.(counters := WithValue(st.counters, c, idle)), c)
  {
    var cnt := st.counters[c];
    var mid := st.(counters := WithValue(st.counters, c, idle));
    assert SoundList(st, c, cnt.triggers);
    forall t | t in cnt.triggers && CanAct(st, t)
      ensures !GoesTrue(st, c, idle, t)
      ensures Guarded(TrigOf(mid, t), idle, cnt.system.value.less, cnt.system.value.greater)
    {
      GuardHolds(TrigOf(st, t), cnt.value, cnt.system.value.less, cnt.system.value.greater, idle);
    }
  }

  lemma ValueKeepsValid(st: State, c: nat, v: Int64)
    requires Valid(st) && c in st.counters
    ensures Valid(st.(counters := WithValue(st.counters, c, v)))
  {
    var mid := st.(counters := WithValue(st.counters, c, v));
    forall d | d in mid.counters && !mid.counters[d].dying
      ensures SoundList(mid, d, mid.counters[d].triggers)
    {
      assert SoundList(st, d, st.counters[d].triggers);
    }
    forall w | w in mid.awaits ensures RegisteredAwait(mid, w) {
      assert RegisteredAwait(st, w);
    }
  }

  lemma ValueKeepsReady(st: State, c: nat, v: Int64)
    requires Valid(st) && Idle(st, c) && Orderly(st, c)
    requires AllGuarded(st.(counters := WithValue(st.counters, c, v)), c)
    ensures Ready(st.(counters := WithValue(st.counters, c, v)), c)
  {
    ValueKeepsValid(st, c, v);
  }

  // ----- whole runs

  predicate NoBrackets(st: State, c: nat)
    requires Idle(st, c)
  {
    st.counters[c].system.value.less.None? && st.counters[c].system.value.greater.None?
  }

  /** Everything a client can observe agrees: alarms, awaits, trigger lists, the other counters and the log of all
      events sent. The value of `c` may differ only if no bracket is armed; it is an idle time in `b` then. */
  ghost predicate Indistinguishable(a: State, b: State, c: nat)
    requires Idle(a, c)
  {
    && a.alarms == b.alarms && a.awaits == b.awaits && a.log == b.log
    && a.counters.Keys == b.counters.Keys
    && (forall d :: d in a.counters && d != c ==> a.counters[d] == b.counters[d])
    && SameButBrackets(a.counters[c].(value := b.counters[c].value), b.counters[c])
    && (a.counters[c].value == b.counters[c].value || (NoBrackets(a, c) && 0 <= b.counters[c].value < IDLE_END))
  }

  /** Without brackets no trigger of the counter can ever act, wherever the counter stood. */
  lemma NoBracketsNothingActs(a: State, b: State, c: nat, idle: IdleTime)
    requires Ready(a, c) && NoBrackets(a, c) && Indistinguishable(a, b, c)
    ensures NothingActs(b, c, idle)
  {
    assert SoundList(a, c, a.counters[c].triggers);
    forall t | t in b.counters[c].triggers && CanAct(b, t)
      ensures !GoesTrue(b, c, idle, t)
    {
      assert CanAct(a, t) && TrigOf(a, t) == TrigOf(b, t);
    }
  }

  lemma IndistinguishableValid(a: State, b: State, c: nat)
    requires Valid(a) && Idle(a, c) && Indistinguishable(a, b, c)
    ensures Valid(b)
  {
    forall d | d in b.counters && !b.counters[d].dying
      ensures SoundList(b, d, b.counters[d].triggers)
    {
      assert SoundList(a, d, a.counters[d].triggers);
    }
    forall w | w in b.awaits ensures RegisteredAwait(b, w) {
      assert RegisteredAwait(a, w);
    }
  }

  /** A full check that finds nothing to do leaves everything but the value and brackets of `c`. */
  lemma QuietStep(a: State, b: State, c: nat, idle: IdleTime)
    requires Ready(a, c) && NoBrackets(a, c) && Indistinguishable(a, b, c)
    ensures Indistinguishable(a, AfterChange(b, c, idle), c)
  {
    IndistinguishableValid(a, b, c);
    NoBracketsNothingActs(a, b, c, idle);
    QuietChange(b, c, idle);
  }

  /** One wakeup of the handler, against the version without a shortcut. */
  lemma WakeupRefines(a: State, b: State, c: nat, w: Wakeup)
    requires Ready(a, c) && Indistinguishable(a, b, c)
    ensures Ready(WokenUp(a, c, w), c)
    ensures Indistinguishable(WokenUp(a, c, w), CheckedAlways(b, c, w), c)
  {
    if NoBrackets(a, c) {
      if w.reset && w.idle != 0 {
        QuietStep(a, b, c, 0);
        QuietStep(a, AfterChange(b, c, 0), c, w.idle);
      } else {
        QuietStep(a, b, c, w.idle);
      }
    } else {
      var si := a.counters[c].system.value;
      if w.reset && w.idle != 0 {
        CheckRefines(a, b, c, 0);
        CheckRefines(CheckedBrackets(a, c, 0, si.less, si.greater), AfterChange(b, c, 0), c, w.idle);
      } else {
        CheckRefines(a, b, c, w.idle);
      }
    }
  }

  ghost function WakeupRun(st: State, c: nat, ws: seq<Wakeup>): State
    decreases |ws|
  {
    if ws == [] || !Idle(st, c) then st else WakeupRun(WokenUp(st, c, ws[0]), c, ws[1..])
  }

  ghost function CheckedRun(st: State, c: nat, ws: seq<Wakeup>): State
    decreases |ws|
  {
    if ws == [] || c !in st.counters then st else CheckedRun(CheckedAlways(st, c, ws[0]), c, ws[1..])
  }

  /** The idle-time shortcut loses nothing: over any run of wakeups, the handler that skips the
      triggers inside the brackets sends the same events and leaves the same alarms, awaits and
      lists as one that checks every trigger for every idle time. */
  lemma {:induction false} ShortcutLosesNothing(a: State, b: State, c: nat, ws: seq<Wakeup>)
    requires Ready(a, c) && Indistinguishable(a, b, c)
    ensures Ready(WakeupRun(a, c, ws), c)
    ensures Indistinguishable(WakeupRun(a, c, ws), CheckedRun(b, c, ws), c)
    decreases |ws|
  {
    if ws != [] {
      WakeupRefines(a, b, c, ws[0]);
      ShortcutLosesNothing(WokenUp(a, c, ws[0]), CheckedAlways(b, c, ws[0]), c, ws[1..]);
    }
  }

  // ----- and only a state in which every trigger is guarded loses nothing

  /** Whatever wakeups follow, the same events are sent as with full checks. */
  ghost predicate LosesNothing(st: State, c: nat) {
    forall ws :: WakeupRun(st, c, ws).log == CheckedRun(st, c, ws).log
  }

  lemma {:induction false} Heard(st: State, c: nat, v: Int64, list: seq<TrigId>, t: TrigId)
    requires c in st.counters && t in list && CanAct(st, t) && GoesTrue(st, c, v, t)
    ensures EventsAlong(st, c, v, list) != []
  {
    var walked, last := list[..|list| - 1], list[|list| - 1];
    assert list == walked + [last];
    if last != t {
      Heard(st, c, v, walked, t);
    }
  }

  /** A wakeup inside the brackets. */
  function Quietly(u: IdleTime): Wakeup {
    Wakeup(u, false)
  }

  lemma SilentWakeup(st: State, c: nat, u: IdleTime)
    requires Idle(st, c) && !Crosses(st.counters[c].system.value.less, st.counters[c].system.value.greater, u)
    ensures var r := WokenUp(st, c, Quietly(u));
            r.log == st.log && Idle(r, c) && r.counters[c].system == st.counters[c].system
  {
  }

  lemma OneLook(st: State, c: nat, u: IdleTime, t: TrigId)
    requires Idle(st, c) && !Crosses(st.counters[c].system.value.less, st.counters[c].system.value.greater, u)
    requires t in st.counters[c].triggers && CanAct(st, t) && GoesTrue(st, c, u, t)
    ensures !LosesNothing(st, c)
  {
    var ws := [Quietly(u)];
    SilentWakeup(st, c, u);
    Heard(st, c, u, st.counters[c].triggers, t);
    assert ws[1..] == [];
    assert WakeupRun(st, c, ws) == WakeupRun(WokenUp(st, c, ws[0]), c, []);
    assert CheckedRun(st, c, ws) == CheckedRun(CheckedAlways(st, c, ws[0]), c, []);
    assert |CheckedRun(st, c, ws).log| > |st.log|;
  }

  /** When nothing acts at `u`, the trigger is still there. */
  lemma StillThere(st: State, c: nat, u: Int64, x: Int64, t: TrigId)
    requires Valid(st) && Idle(st, c) && NothingActs(st, c, u)
    requires t in st.counters[c].triggers && CanAct(st, t) && Check(TrigOf(st, t), u, x)
    ensures var mid := AfterChange(st, c, u);
            && mid.log == st.log && c in mid.counters && t in mid.counters[c].triggers && CanAct(mid, t)
            && GoesTrue(mid, c, x, t)
  {
    QuietChange(st, c, u);
  }

  lemma ChecksTwice(st: State, c: nat, u: IdleTime, x: IdleTime, t: TrigId)
    requires Valid(st) && Idle(st, c) && NothingActs(st, c, u)
    requires t in st.counters[c].triggers && CanAct(st, t) && Check(TrigOf(st, t), u, x)
    ensures c in CheckedAlways(st, c, Quietly(u)).counters
    ensures |CheckedAlways(CheckedAlways(st, c, Quietly(u)), c, Quietly(x)).log| > |st.log|
  {
    var mid := AfterChange(st, c, u);
    StillThere(st, c, u, x, t);
    Heard(mid, c, x, mid.counters[c].triggers, t);
  }

  lemma SilentTwice(st: State, c: nat, u: IdleTime, x: IdleTime)
    requires Idle(st, c)
    requires !Crosses(st.counters[c].system.value.less, st.counters[c].system.value.greater, u)
    requires !Crosses(st.counters[c].system.value.less, st.counters[c].system.value.greater, x)
    ensures Idle(WokenUp(st, c, Quietly(u)), c)
    ensures WokenUp(WokenUp(st, c, Quietly(u)), c, Quietly(x)).log == st.log
  {
    SilentWakeup(st, c, u);
    SilentWakeup(WokenUp(st, c, Quietly(u)), c, x);
  }

  /** The counter goes to `u` and then to `x`, both inside the brackets. */
  lemma TwoLooks(st: State, c: nat, u: IdleTime, x: IdleTime, t: TrigId)
    requires Valid(st) && Idle(st, c)
    requires !Crosses(st.counters[c].system.value.less, st.counters[c].system.value.greater, u)
    requires !Crosses(st.counters[c].system.value.less, st.counters[c].system.value.greater, x)
    requires t in st.counters[c].triggers && CanAct(st, t) && Check(TrigOf(st, t), u, x)
    ensures !LosesNothing(st, c)
  {
    if NothingActs(st, c, u) {
      SilentTwice(st, c, u, x);
      ChecksTwice(st, c, u, x, t);
      TwoRuns(st, c, Quietly(u), Quietly(x));
      LogsDiffer(st, c, [Quietly(u), Quietly(x)]);
    } else {
      var s :| s in st.counters[c].triggers && CanAct(st, s) && GoesTrue(st, c, u, s);
      OneLook(st, c, u, s);
    }
  }

  lemma LogsDiffer(st: State, c: nat, ws: seq<Wakeup>)
    requires |WakeupRun(st, c, ws).log| < |CheckedRun(st, c, ws).log|
    ensures !LosesNothing(st, c)
  {
  }

  lemma TwoRuns(st: State, c: nat, w: Wakeup, x: Wakeup)
    requires Idle(st, c) && Idle(WokenUp(st, c, w), c) && c in CheckedAlways(st, c, w).counters
    ensures WakeupRun(st, c, [w, x]) == WokenUp(WokenUp(st, c, w), c, x)
    ensures CheckedRun(st, c, [w, x]) == CheckedAlways(CheckedAlways(st, c, w), c, x)
  {
    var ws := [w, x];
    assert ws[1..] == [x] && [x][1..] == [];
    assert WakeupRun(WokenUp(st, c, w), c, [x]) == WakeupRun(WokenUp(WokenUp(st, c, w), c, x), c, []);
    assert CheckedRun(CheckedAlways(st, c, w), c, [x])
        == CheckedRun(CheckedAlways(CheckedAlways(st, c, w), c, x), c, []);
  }

  /** A trigger that is not guarded goes off at one or two idle times inside the brackets. */
  lemma UnguardedLoses(st: State, c: nat, t: TrigId)
    requires Valid(st) && Idle(st, c) && t in st.counters[c].triggers && CanAct(st, t)
    requires var cnt := st.counters[c];
             !Guarded(TrigOf(st, t), cnt.value, cnt.system.value.less, cnt.system.value.greater)
    ensures !LosesNothing(st, c)
  {
    var cnt, tr := st.counters[c], TrigOf(st, t);
    var lo: IdleTime, hi: IdleTime := Low(cnt.system.value.less), High(cnt.system.value.greater);
    SilentRange(cnt.system.value.less, cnt.system.value.greater, lo);
    SilentRange(cnt.system.value.less, cnt.system.value.greater, hi);
    match tr.check {
      case PositiveComparison => OneLook(st, c, hi, t);
      case NegativeComparison => OneLook(st, c, lo, t);
      case PositiveTransition =>
        if cnt.value < tr.testValue {
          OneLook(st, c, hi, t);
        } else {
          TwoLooks(st, c, lo, hi, t);
        }
      case NegativeTransition =>
        if cnt.value > tr.testValue {
          OneLook(st, c, lo, t);
        } else {
          TwoLooks(st, c, hi, lo, t);
        }
    }
  }

  /** Guarding every trigger is exactly what it takes to lose nothing, whatever wakeups follow. */
  lemma GuardedExactly(st: State, c: nat)
    requires Valid(st) && Idle(st, c) && Orderly(st, c)
    ensures AllGuarded(st, c) <==> LosesNothing(st, c)
  {
    if AllGuarded(st, c) {
      forall ws ensures WakeupRun(st, c, ws).log == CheckedRun(st, c, ws).log {
        ShortcutLosesNothing(st, st, c, ws);
        assert Indistinguishable(WakeupRun(st, c, ws), CheckedRun(st, c, ws), c);
      }
    } else {
      var t :| t in st.counters[c].triggers && CanAct(st, t)
               && !Guarded(TrigOf(st, t), st.counters[c].value, st.counters[c].system.value.less,
                           st.counters[c].system.value.greater);
      UnguardedLoses(st, c, t);
    }
  }

  // ----- the ends of the value range

  /** One move in silence, away from a value at which the brackets were computed: it makes a trigger go off exactly
      when it lands on an end of the value range that is the trigger's test value, which arms no bracket. The
      idle time, a CARD32, never gets there. */
  lemma MissedExactlyWhen(v: Int64, ts: seq<Trigger>, t: Trigger, u: Int64)
    requires t in ts && Agrees(t)
    requires !Crosses(Less(Unrestricted, v, ts), Greater(Unrestricted, v, ts), u)
    ensures GoesOff(t, v, [u], 0)
      <==> || (u == t.testValue == MAX_VALUE && v < MAX_VALUE
               && (t.check.PositiveComparison? || t.check.PositiveTransition?))
           || (u == t.testValue == MIN_VALUE && v > MIN_VALUE
               && (t.check.NegativeComparison? || t.check.NegativeTransition?))
  {
  }

  lemma LastValueMissed()
    ensures var t := Trigger(Some(0), PositiveComparison, PositiveComparison, Absolute, MAX_VALUE, MAX_VALUE);
            !Crosses(Less(Unrestricted, 0, [t]), Greater(Unrestricted, 0, [t]), MAX_VALUE)
            && GoesOff(t, 0, [MAX_VALUE], 0)
  {
  }
}
