/** Setting a trigger up: SyncInitTrigger and what it leaves alone. */
module SyncTriggers {
  import opened Options
  import opened SyncValues
  import opened SyncModel
  import opened SyncChange
  import opened SyncServer

  datatype Status = Success | BadCounter | BadValue | BadMatch | BadAlloc

  /** The part of the attribute mask that concerns a trigger. `counter` is the counter attribute, with
      None inside for the XID None. */
  datatype Changes = Changes(counter: Option<Option<nat>>, valueType: bool, value: bool, testType: bool)

  function WithTrigger(st: State, t: TrigId, tr: Trigger): State
    requires Exists(st, t)
  {
    match t
    case OfAlarm(a) => st.(alarms := st.alarms[a := st.alarms[a].(trigger := tr)])
    case OfAwait(w, i) =>
      var u := st.awaits[w];
      st.(awaits := st.awaits[w := u.(conds := u.conds[i := u.conds[i].(trigger := tr)])])
  }

  lemma WithTriggerAt(st: State, t: TrigId, tr: Trigger)
    requires Exists(st, t)
    ensures forall x :: Exists(WithTrigger(st, t, tr), x) == Exists(st, x)
    ensures forall x :: Exists(st, x) ==>
              TrigOf(WithTrigger(st, t, tr), x) == if x == t then tr else TrigOf(st, x)
  {
  }

  predicate Ordinary(cnt: Counter) {
    cnt.system.None?
  }

  /** The counter keeps everything but its own `t`, its brackets and, for a system counter, its value. */
  ghost predicate CounterKept(was: Counter, now: Counter, t: TrigId) {
    && now.dying == was.dying
    && Survivors(now.triggers, {t}) == Survivors(was.triggers, {t})
    && now.system.Some? == was.system.Some?
    && (was.system.Some? ==> now.system.value.counterType == was.system.value.counterType)
    && (Ordinary(was) ==> now.value == was.value)
  }

  /** Only the trigger `t`, its place on the lists, and the values and brackets of system counters
      have changed. */
  ghost predicate OnlyTrigger(st: State, st': State, t: TrigId) {
    && st'.log == st.log
    && Exists(st, t) && Exists(st', t)
    && WithTrigger(st, t, TrigOf(st', t)).alarms == st'.alarms
    && WithTrigger(st, t, TrigOf(st', t)).awaits == st'.awaits
    && st'.counters.Keys == st.counters.Keys
    && forall d :: d in st.counters ==> CounterKept(st.counters[d], st'.counters[d], t)
  }

  ghost predicate OnNoList(st: State, t: TrigId) {
    forall d :: d in st.counters ==> t !in st.counters[d].triggers
  }

  ghost predicate SameLists(st: State, st': State) {
    && st.counters.Keys == st'.counters.Keys
    && forall d :: d in st.counters ==> st'.counters[d].triggers == st.counters[d].triggers
  }

  ghost predicate NoneDying(st: State) {
    forall d :: d in st.counters ==> !st.counters[d].dying
  }

  ghost predicate Steady(st: State) {
    Valid(st) && NoneDying(st)
  }

  // ----- the steps

  lemma WrittenSame(st: State, t: TrigId)
    requires Exists(st, t)
    ensures WithTrigger(st, t, TrigOf(st, t)) == st
  {
    match t {
      case OfAlarm(a) =>
        assert st.alarms[a := st.alarms[a]] == st.alarms;
      case OfAwait(w, i) =>
        var u := st.awaits[w];
        assert u.conds[i := u.conds[i]] == u.conds;
        assert st.awaits[w := u] == st.awaits;
    }
  }

  lemma OnlySelf(st: State, t: TrigId)
    requires Exists(st, t)
    ensures OnlyTrigger(st, st, t)
  {
    WrittenSame(st, t);
  }

  lemma BracketedKeeps(st: State, cnt: Counter)
    ensures var b := Bracketed(st, cnt);
            b.value == cnt.value && b.triggers == cnt.triggers && b.dying == cnt.dying
            && b.system.Some? == cnt.system.Some?
            && (b.system.Some? ==> b.system.value.counterType == cnt.system.value.counterType)
  {
  }

  /** Writing a field of the trigger other than its counter, or any field while it is on no list. */
  lemma WrittenKeeps(st: State, cur: State, t: TrigId, tr: Trigger)
    requires OnlyTrigger(st, cur, t) && Sound(cur) && NoneDying(cur)
    requires tr.counter == TrigOf(cur, t).counter || OnNoList(cur, t)
    ensures var r := WithTrigger(cur, t, tr);
            OnlyTrigger(st, r, t) && Sound(r) && NoneDying(r) && SameLists(cur, r) && TrigOf(r, t) == tr
  {
    var r := WithTrigger(cur, t, tr);
    WithTriggerAt(cur, t, tr);
    forall d | d in r.counters ensures SoundList(r, d, r.counters[d].triggers) {
      assert SoundList(cur, d, cur.counters[d].triggers);
    }
    WrittenTwice(st, cur, t, tr);
  }

  lemma WrittenTwice(st: State, cur: State, t: TrigId, tr: Trigger)
    requires OnlyTrigger(st, cur, t)
    ensures var r := WithTrigger(cur, t, tr); OnlyTrigger(st, r, t)
  {
    var r := WithTrigger(cur, t, tr);
    match t {
      case OfAlarm(a) =>
        assert r.alarms == st.alarms[a := st.alarms[a].(trigger := tr)];
      case OfAwait(w, i) =>
        var u, v := st.awaits[w], cur.awaits[w];
        assert v.conds == u.conds[i := u.conds[i].(trigger := TrigOf(cur, t))];
        assert v.conds[i := v.conds[i].(trigger := tr)] == u.conds[i := u.conds[i].(trigger := tr)];
        assert r.awaits == st.awaits[w := u.(conds := u.conds[i := u.conds[i].(trigger := tr)])];
    }
  }

  /** Changing one counter: a system counter's value, its brackets, or `t` on its list. */
  lemma CounterChanged(st: State, cur: State, t: TrigId, c: nat, cnt: Counter)
    requires OnlyTrigger(st, cur, t) && Sound(cur) && NoneDying(cur) && c in cur.counters
    requires CounterKept(cur.counters[c], cnt, t)
    requires NoDuplicates(cnt.triggers)
    requires t in cnt.triggers ==> TrigOf(cur, t).counter == Some(c)
    ensures var r := cur.(counters := cur.counters[c := cnt]);
            OnlyTrigger(st, r, t) && Sound(r) && NoneDying(r) && TrigOf(r, t) == TrigOf(cur, t)
  {
    OthersSound(cur, t, c, cnt);
    KeptOn(st, cur, t, c, cnt);
  }

  lemma KeptOn(st: State, cur: State, t: TrigId, c: nat, cnt: Counter)
    requires OnlyTrigger(st, cur, t) && c in cur.counters && CounterKept(cur.counters[c], cnt, t)
    ensures OnlyTrigger(st, cur.(counters := cur.counters[c := cnt]), t)
  {
    var r := cur.(counters := cur.counters[c := cnt]);
    KeptTwice(st.counters[c], cur.counters[c], cnt, t);
    assert r.counters.Keys == cur.counters.Keys;
    assert TrigOf(r, t) == TrigOf(cur, t);
  }

  lemma KeptTwice(x: Counter, y: Counter, z: Counter, t: TrigId)
    requires CounterKept(x, y, t) && CounterKept(y, z, t)
    ensures CounterKept(x, z, t)
  {
  }

  lemma OthersSound(cur: State, t: TrigId, c: nat, cnt: Counter)
    requires Sound(cur) && NoneDying(cur) && c in cur.counters
    requires CounterKept(cur.counters[c], cnt, t) && NoDuplicates(cnt.triggers)
    requires t in cnt.triggers ==> Exists(cur, t) && TrigOf(cur, t).counter == Some(c)
    ensures Sound(cur.(counters := cur.counters[c := cnt]))
  {
    var r := cur.(counters := cur.counters[c := cnt]);
    ListChanged(cur, t, c, cnt);
    forall d | d in r.counters && d != c ensures SoundList(r, d, r.counters[d].triggers) {
      assert SoundList(cur, d, cur.counters[d].triggers);
    }
  }

  lemma ListChanged(cur: State, t: TrigId, c: nat, cnt: Counter)
    requires Sound(cur) && NoneDying(cur) && c in cur.counters
    requires CounterKept(cur.counters[c], cnt, t) && NoDuplicates(cnt.triggers)
    requires t in cnt.triggers ==> Exists(cur, t) && TrigOf(cur, t).counter == Some(c)
    ensures SoundList(cur.(counters := cur.counters[c := cnt]), c, cnt.triggers)
  {
    assert SoundList(cur, c, cur.counters[c].triggers);
    forall x | x in cnt.triggers ensures Exists(cur, x) && TrigOf(cur, x).counter == Some(c) {
      if x != t {
        assert x in Survivors(cnt.triggers, {t});
      }
    }
  }

  lemma NotElsewhere(st: State, t: TrigId, d: nat)
    requires Sound(st) && NoneDying(st) && Exists(st, t) && d in st.counters
    requires TrigOf(st, t).counter != Some(d)
    ensures t !in st.counters[d].triggers
  {
    assert SoundList(st, d, st.counters[d].triggers);
  }

  /** Taking the trigger off its list. */
  lemma DeletedKeeps(st: State, t: TrigId)
    requires Sound(st) && NoneDying(st) && Exists(st, t)
    requires TrigOf(st, t).counter.Some? ==> TrigOf(st, t).counter.value in st.counters
    ensures OnlyTrigger(st, Deleted(st, t), t) && OnNoList(Deleted(st, t), t)
    ensures Sound(Deleted(st, t)) && NoneDying(Deleted(st, t)) && TrigOf(Deleted(st, t), t) == TrigOf(st, t)
  {
    OnlySelf(st, t);
    forall d | d in st.counters && TrigOf(st, t).counter != Some(d)
      ensures t !in st.counters[d].triggers
    {
      NotElsewhere(st, t, d);
    }
    if TrigOf(st, t).counter.Some? {
      var c := TrigOf(st, t).counter.value;
      var list := st.counters[c].triggers;
      BracketedKeeps(st, st.counters[c].(triggers := Survivors(list, {t})));
      SurvivorsTwice(list, {t}, {t});
      assert {t} + {t} == {t};
      assert SoundList(st, c, list);
      SurvivorsNoDuplicates(list, {t});
      CounterChanged(st, st, t, c, Bracketed(st, st.counters[c].(triggers := Survivors(list, {t}))));
    }
  }

  // ----- SyncInitTrigger

  /** The counter the trigger names once the counter attribute has been looked at. */
  function NamedCounter(tr: Trigger, ch: Changes): Option<nat> {
    if ch.counter.Some? then ch.counter.value else tr.counter
  }

  /** A counter that has been asked for its current value: a system counter stores the answer. */
  function Queried(cnt: Counter, now: Int64): Counter {
    if cnt.system.Some? then cnt.(value := now) else cnt
  }

  /** The errors found while the fields are set, given the value of the trigger's counter. */
  function FieldStatus(tr: Trigger, ch: Changes, v: Int64): Status {
    if ch.valueType && tr.valueType.UnknownValueType? then BadValue
    else if ch.testType && tr.testType.UnknownTest? then BadValue
    else if (ch.valueType || ch.value) && tr.valueType != Absolute && tr.counter.None? then BadMatch
    else if (ch.valueType || ch.value) && tr.valueType != Absolute && !Fits(v + tr.waitValue) then BadValue
    else Success
  }

  /** The value SyncInitTrigger works with, if there is a counter. */
  function WorkValue(counters: map<nat, Counter>, c: Option<nat>, clock: nat -> Int64): Int64 {
    if c.Some? && c.value in counters then Queried(counters[c.value], clock(c.value)).value else 0
  }

  /** The errors of SyncInitTrigger, in the order they are found. */
  function InitStatus(counters: map<nat, Counter>, tr: Trigger, ch: Changes, clock: nat -> Int64,
                      memory: bool): Status {
    var c := NamedCounter(tr, ch);
    if c.Some? && c.value !in counters then BadCounter
    else
      var status := FieldStatus(tr.(counter := c), ch, WorkValue(counters, c, clock));
      if status == Success && c.Some? && c != tr.counter && !memory then BadAlloc else status
  }

  /** The fields a trigger is left with. The value type and the test type are looked at first; the test value
      is written before an overflow is noticed. */
  function FieldsOf(tr: Trigger, ch: Changes, v: Int64): Trigger {
    if (ch.valueType && tr.valueType.UnknownValueType?) || (ch.testType && tr.testType.UnknownTest?) then tr
    else
      var r := if ch.testType then tr.(check := tr.testType) else tr;
      if !(ch.valueType || ch.value) then r
      else if tr.valueType == Absolute then r.(testValue := tr.waitValue)
      else if tr.counter.None? then r
      else r.(testValue := Wrap(v + tr.waitValue))
  }

  /** The counter with the trigger on its list and its brackets computed again. */
  function Placed(st: State, cnt: Counter, t: TrigId, isNew: bool): Counter {
    Bracketed(st, if isNew then cnt.(triggers := [t] + cnt.triggers) else cnt)
  }

  function ValueAt(st: State, c: Option<nat>): Int64 {
    if c.Some? && c.value in st.counters then st.counters[c.value].value else 0
  }

  // The parts of SyncInitTrigger. The counter attribute: the trigger leaves its old counter's list at once.

  function Taken(st: State, t: TrigId, c: Option<nat>): State
    requires Exists(st, t)
  {
    if c == TrigOf(st, t).counter then st
    else WithTrigger(Deleted(st, t), t, TrigOf(st, t).(counter := c))
  }

  /** A system counter is asked for its current value. */
  function AskedFor(st: State, c: Option<nat>, clock: nat -> Int64): State {
    if c.Some? && c.value in st.counters
    then st.(counters := st.counters[c.value := Queried(st.counters[c.value], clock(c.value))]) else st
  }

  function Filled(st: State, t: TrigId, ch: Changes): State
    requires Exists(st, t)
  {
    WithTrigger(st, t, FieldsOf(TrigOf(st, t), ch, ValueAt(st, TrigOf(st, t).counter)))
  }

  function Listed(st: State, t: TrigId, isNew: bool): State {
    var c := TrigOf(st, t).counter;
    if c.Some? && c.value in st.counters
    then st.(counters := st.counters[c.value := Placed(st, st.counters[c.value], t, isNew)]) else st
  }

  function FinishStatus(st: State, t: TrigId, ch: Changes, isNew: bool, clock: nat -> Int64, memory: bool): Status {
    var tr := TrigOf(st, t);
    var status := FieldStatus(tr, ch, ValueAt(AskedFor(st, tr.counter, clock), tr.counter));
    if status == Success && isNew && tr.counter.Some? && !memory then BadAlloc else status
  }

  function Finished(st: State, t: TrigId, ch: Changes, isNew: bool, clock: nat -> Int64, memory: bool): State
    requires Exists(st, t)
  {
    var r := Filled(AskedFor(st, TrigOf(st, t).counter, clock), t, ch);
    if FinishStatus(st, t, ch, isNew, clock, memory) == Success then Listed(r, t, isNew) else r
  }

  /** The state after SyncInitTrigger. A counter that does not exist changes nothing at all. */
  function InitAfter(st: State, t: TrigId, ch: Changes, clock: nat -> Int64, memory: bool): State
    requires Exists(st, t)
  {
    var c := NamedCounter(TrigOf(st, t), ch);
    if c.Some? && c.value !in st.counters then st
    else Finished(Taken(st, t, c), t, ch, c != TrigOf(st, t).counter, clock, memory)
  }

  method SetTrigger(s: Server, t: TrigId, tr: Trigger)
    requires Exists(s.St(), t)
    modifies s`alarms, s`awaits
    ensures s.St() == WithTrigger(old(s.St()), t, tr)
  {
    match t {
      case OfAlarm(a) =>
        s.alarms := s.alarms[a := s.alarms[a].(trigger := tr)];
      case OfAwait(w, i) =>
        var u := s.awaits[w];
        s.awaits := s.awaits[w := u.(conds := u.conds[i := u.conds[i].(trigger := tr)])];
    }
  }

  /** SyncAddTriggerToSyncObject: a trigger already on the list is left where it is. */
  method AddTrigger(s: Server, t: TrigId, memory: bool) returns (status: Status)
    requires Sound(s.St()) && NoneDying(s.St()) && Exists(s.St(), t)
    requires var c := TrigOf(s.St(), t).counter; c.Some? ==> c.value in s.counters
    modifies s`counters
    ensures var st, st', c := old(s.St()), s.St(), TrigOf(old(s.St()), t).counter;
            if c.None? then status == Success && st' == st
            else if t in st.counters[c.value].triggers then status == Success && st' == st
            else if !memory then status == BadAlloc && st' == st
            else status == Success
                 && var cnt := st.counters[c.value];
                    st' == st.(counters := st.counters[c.value := Bracketed(st, cnt.(triggers := [t] + cnt.triggers))])
  {
    ghost var st := s.St();
    var c := s.TriggerAt(t).counter;
    if c == None {
      return Success;
    }
    var cnt := s.counters[c.value];
    var i := 0;
    while i < |cnt.triggers|
      invariant 0 <= i <= |cnt.triggers| && t !in cnt.triggers[..i] && s.St() == st
    {
      if cnt.triggers[i] == t {
        return Success;
      }
      i := i + 1;
    }
    assert cnt.triggers[..i] == cnt.triggers;
    if !memory {
      return BadAlloc;
    }
    assert SoundList(st, c.value, cnt.triggers);
    var longer := cnt.(triggers := [t] + cnt.triggers);
    s.counters := s.counters[c.value := longer];
    s.ComputeBrackets(c.value);
    BracketedAgree(st, st.(counters := st.counters[c.value := longer]), longer);
    status := Success;
  }

  // ----- the lists stay sound

  /** What has been done to everything else when the counter attribute is past. A trigger that changes its
      counter is on no list; any other trigger has stayed where it was. */
  ghost predicate Moving(st: State, cur: State, t: TrigId, isNew: bool) {
    && OnlyTrigger(st, cur, t) && Sound(cur) && NoneDying(cur)
    && (if isNew then OnNoList(cur, t) else SameLists(st, cur))
  }

  lemma TakenMoves(st: State, t: TrigId, c: Option<nat>)
    requires Sound(st) && NoneDying(st) && Exists(st, t)
    requires var k := TrigOf(st, t).counter; k.Some? ==> k.value in st.counters
    ensures var r := Taken(st, t, c);
            Moving(st, r, t, c != TrigOf(st, t).counter) && TrigOf(r, t) == TrigOf(st, t).(counter := c)
            && r.counters.Keys == st.counters.Keys
  {
    if c == TrigOf(st, t).counter {
      OnlySelf(st, t);
    } else {
      DeletedKeeps(st, t);
      WrittenKeeps(st, Deleted(st, t), t, TrigOf(st, t).(counter := c));
    }
  }

  lemma AskedMoves(st: State, cur: State, t: TrigId, isNew: bool, c: Option<nat>, clock: nat -> Int64)
    requires Moving(st, cur, t, isNew)
    ensures var r := AskedFor(cur, c, clock);
            Moving(st, r, t, isNew) && TrigOf(r, t) == TrigOf(cur, t) && r.counters.Keys == cur.counters.Keys
  {
    if c.Some? && c.value in cur.counters {
      ListStays(st, cur, t, isNew, c.value, Queried(cur.counters[c.value], clock(c.value)));
    }
  }

  lemma ListStays(st: State, cur: State, t: TrigId, isNew: bool, c: nat, cnt: Counter)
    requires Moving(st, cur, t, isNew) && c in cur.counters && CounterKept(cur.counters[c], cnt, t)
    requires cnt.triggers == cur.counters[c].triggers
    ensures var r := cur.(counters := cur.counters[c := cnt]);
            Moving(st, r, t, isNew) && TrigOf(r, t) == TrigOf(cur, t)
  {
    ListAt(cur, t, c);
    CounterChanged(st, cur, t, c, cnt);
    PlacesStay(st, cur, t, c, cnt);
  }

  lemma PlacesStay(st: State, cur: State, t: TrigId, c: nat, cnt: Counter)
    requires c in cur.counters && cnt.triggers == cur.counters[c].triggers
    ensures var r := cur.(counters := cur.counters[c := cnt]);
            (OnNoList(cur, t) ==> OnNoList(r, t)) && (SameLists(st, cur) ==> SameLists(st, r))
  {
  }

  lemma ListAt(cur: State, t: TrigId, c: nat)
    requires Sound(cur) && NoneDying(cur) && c in cur.counters
    ensures NoDuplicates(cur.counters[c].triggers)
    ensures t in cur.counters[c].triggers ==> TrigOf(cur, t).counter == Some(c)
  {
    assert SoundList(cur, c, cur.counters[c].triggers);
  }

  lemma FilledMoves(st: State, cur: State, t: TrigId, isNew: bool, ch: Changes)
    requires Moving(st, cur, t, isNew)
    ensures var r := Filled(cur, t, ch);
            Moving(st, r, t, isNew) && TrigOf(r, t).counter == TrigOf(cur, t).counter && r.counters == cur.counters
  {
    WrittenKeeps(st, cur, t, FieldsOf(TrigOf(cur, t), ch, ValueAt(cur, TrigOf(cur, t).counter)));
  }

  lemma ListedKeeps(st: State, cur: State, t: TrigId, isNew: bool)
    requires Moving(st, cur, t, isNew)
    ensures var r := Listed(cur, t, isNew);
            OnlyTrigger(st, r, t) && Sound(r) && NoneDying(r) && TrigOf(r, t) == TrigOf(cur, t)
  {
    var c := TrigOf(cur, t).counter;
    if c.Some? && c.value in cur.counters {
      PlacedKept(cur, cur.counters[c.value], t, isNew);
      ListAt(cur, t, c.value);
      CounterChanged(st, cur, t, c.value, Placed(cur, cur.counters[c.value], t, isNew));
    }
  }

  lemma PlacedKept(st: State, cnt: Counter, t: TrigId, isNew: bool)
    ensures CounterKept(cnt, Placed(st, cnt, t, isNew), t)
    ensures Placed(st, cnt, t, isNew).triggers == if isNew then [t] + cnt.triggers else cnt.triggers
  {
    BracketedKeeps(st, if isNew then cnt.(triggers := [t] + cnt.triggers) else cnt);
    SurvivorsCons(t, cnt.triggers, {t});
  }

  lemma FinishedKeeps(st: State, cur: State, t: TrigId, ch: Changes, isNew: bool, clock: nat -> Int64, memory: bool)
    requires Moving(st, cur, t, isNew)
    ensures var r := Finished(cur, t, ch, isNew, clock, memory); OnlyTrigger(st, r, t) && Sound(r) && NoneDying(r)
  {
    var asked := AskedFor(cur, TrigOf(cur, t).counter, clock);
    AskedMoves(st, cur, t, isNew, TrigOf(cur, t).counter, clock);
    FilledMoves(st, asked, t, isNew, ch);
    ListedKeeps(st, Filled(asked, t, ch), t, isNew);
  }

  /** Whatever the outcome of SyncInitTrigger, the lists stay sound and only this trigger moves. */
  lemma InitKeeps(st: State, t: TrigId, ch: Changes, clock: nat -> Int64, memory: bool)
    requires Sound(st) && NoneDying(st) && Exists(st, t)
    requires var c := TrigOf(st, t).counter; c.Some? ==> c.value in st.counters
    ensures var r := InitAfter(st, t, ch, clock, memory); OnlyTrigger(st, r, t) && Sound(r) && NoneDying(r)
  {
    OnlySelf(st, t);
    var c := NamedCounter(TrigOf(st, t), ch);
    if !(c.Some? && c.value !in st.counters) {
      TakenMoves(st, t, c);
      FinishedKeeps(st, Taken(st, t, c), t, ch, c != TrigOf(st, t).counter, clock, memory);
    }
  }

  // ----- the code

  /** The counter attribute. */
  method TakeCounter(s: Server, t: TrigId, ch: Changes) returns (ok: bool, isNew: bool)
    requires Sound(s.St()) && NoneDying(s.St()) && Exists(s.St(), t)
    requires var c := TrigOf(s.St(), t).counter; c.Some? ==> c.value in s.counters
    modifies s`counters, s`alarms, s`awaits
    ensures var st, c := old(s.St()), NamedCounter(TrigOf(old(s.St()), t), ch);
            && ok == (c.Some? ==> c.value in st.counters)
            && isNew == (ok && c != TrigOf(st, t).counter)
            && s.St() == if ok then Taken(st, t, c) else st
  {
    var tr := s.TriggerAt(t);
    var pSync := NamedCounter(tr, ch);
    if pSync.Some? && pSync.value !in s.counters {
      return false, false;
    }
    isNew := pSync != tr.counter;
    ok := true;
    if isNew {
      SoundAt(s.St(), t);
      s.DeleteTrigger(t);
      SetTrigger(s, t, tr.(counter := pSync));
    }
  }

  lemma SoundAt(st: State, t: TrigId)
    requires Sound(st) && NoneDying(st) && Exists(st, t)
    ensures var c := TrigOf(st, t).counter;
            c.Some? && c.value in st.counters ==> SoundList(st, c.value, st.counters[c.value].triggers)
  {
  }

  method QueryValue(s: Server, c: Option<nat>, clock: nat -> Int64)
    requires c.Some? ==> c.value in s.counters
    modifies s`counters
    ensures s.St() == AskedFor(old(s.St()), c, clock)
  {
    if c.Some? {
      var cnt := s.counters[c.value];
      if cnt.system.Some? {
        s.counters := s.counters[c.value := cnt.(value := clock(c.value))];
      }
    }
  }

  method NewFields(tr: Trigger, ch: Changes, v: Int64) returns (status: Status, r: Trigger)
    ensures status == FieldStatus(tr, ch, v) && r == FieldsOf(tr, ch, v)
  {
    r := tr;
    status := Success;
    if ch.valueType && tr.valueType.UnknownValueType? {
      return BadValue, r;
    }
    if ch.testType {
      if tr.testType.UnknownTest? {
        return BadValue, r;
      }
      r := r.(check := tr.testType);
    }
    if ch.valueType || ch.value {
      if tr.valueType == Absolute {
        r := r.(testValue := tr.waitValue);
      } else {
        if tr.counter.None? {
          return BadMatch, r;
        }
        var sum := Add(v, tr.waitValue);
        r := r.(testValue := sum.0);
        if sum.1 {
          return BadValue, r;
        }
      }
    }
  }

  /** The middle part of SyncInitTrigger: value type, test type, test value. */
  method SetFields(s: Server, t: TrigId, ch: Changes) returns (status: Status)
    requires Exists(s.St(), t)
    requires var c := TrigOf(s.St(), t).counter; c.Some? ==> c.value in s.counters
    modifies s`alarms, s`awaits
    ensures var st, tr := old(s.St()), TrigOf(old(s.St()), t);
            status == FieldStatus(tr, ch, ValueAt(st, tr.counter)) && s.St() == Filled(st, t, ch)
  {
    var tr := s.TriggerAt(t);
    var v: Int64 := 0;
    if tr.counter.Some? {
      v := s.counters[tr.counter.value].value;
    }
    var r;
    status, r := NewFields(tr, ch, v);
    SetTrigger(s, t, r);
  }

  /** The last part of SyncInitTrigger: nothing can go wrong but memory, so the trigger goes on the
      list of its new counter, or the brackets of its old one are computed again. */
  method Register(s: Server, t: TrigId, isNew: bool, memory: bool) returns (status: Status)
    requires Sound(s.St()) && NoneDying(s.St()) && Exists(s.St(), t) && (isNew ==> OnNoList(s.St(), t))
    requires var c := TrigOf(s.St(), t).counter; c.Some? ==> c.value in s.counters
    modifies s`counters
    ensures var st, c := old(s.St()), TrigOf(old(s.St()), t).counter;
            && status == (if isNew && c.Some? && !memory then BadAlloc else Success)
            && s.St() == if status == BadAlloc then st else Listed(st, t, isNew)
  {
    var c := s.TriggerAt(t).counter;
    if isNew {
      status := AddTrigger(s, t, memory);
    } else {
      status := Success;
      if c.Some? {
        assert forall x :: x in s.counters[c.value].triggers ==> Exists(s.St(), x) by {
          assert SoundList(s.St(), c.value, s.counters[c.value].triggers);
        }
        s.ComputeBrackets(c.value);
      }
    }
  }

  /** SyncInitTrigger once the counter is known: the rest of the attributes. */
  method FinishInit(s: Server, t: TrigId, ch: Changes, isNew: bool, clock: nat -> Int64, memory: bool, ghost st: State)
    returns (status: Status)
    requires Moving(st, s.St(), t, isNew)
    requires var c := TrigOf(s.St(), t).counter; c.Some? ==> c.value in s.counters
    modifies s`counters, s`alarms, s`awaits
    ensures status == FinishStatus(old(s.St()), t, ch, isNew, clock, memory)
    ensures s.St() == Finished(old(s.St()), t, ch, isNew, clock, memory)
  {
    var c := s.TriggerAt(t).counter;
    AskedMoves(st, s.St(), t, isNew, c, clock);
    QueryValue(s, c, clock);
    FilledMoves(st, s.St(), t, isNew, ch);
    status := SetFields(s, t, ch);
    if status == Success {
      status := Register(s, t, isNew, memory);
    }
  }

  /** The counter's value is seen to be the same whether its list has been changed or not. */
  lemma StatusKnown(st: State, t: TrigId, ch: Changes, clock: nat -> Int64, memory: bool)
    requires Exists(st, t)
    requires var c := NamedCounter(TrigOf(st, t), ch); c.Some? ==> c.value in st.counters
    ensures var c := NamedCounter(TrigOf(st, t), ch);
            FinishStatus(Taken(st, t, c), t, ch, c != TrigOf(st, t).counter, clock, memory)
            == InitStatus(st.counters, TrigOf(st, t), ch, clock, memory)
  {
    var c := NamedCounter(TrigOf(st, t), ch);
    TakenTrigger(st, t, c);
    if c.Some? {
      TakenCounter(st, t, c, c.value);
    }
  }

  lemma TakenCounter(st: State, t: TrigId, c: Option<nat>, d: nat)
    requires Exists(st, t) && d in st.counters
    ensures Taken(st, t, c).counters.Keys == st.counters.Keys
    ensures Taken(st, t, c).counters[d]
            == if c != TrigOf(st, t).counter && TrigOf(st, t).counter == Some(d)
               then Bracketed(st, st.counters[d].(triggers := Survivors(st.counters[d].triggers, {t})))
               else st.counters[d]
  {
  }

  /** SyncInitTrigger. */
  method InitTrigger(s: Server, t: TrigId, ch: Changes, clock: nat -> Int64, memory: bool) returns (status: Status)
    requires Sound(s.St()) && NoneDying(s.St()) && Exists(s.St(), t)
    requires var c := TrigOf(s.St(), t).counter; c.Some? ==> c.value in s.counters
    modifies s`counters, s`alarms, s`awaits
    ensures status == InitStatus(old(s.counters), TrigOf(old(s.St()), t), ch, clock, memory)
    ensures s.St() == InitAfter(old(s.St()), t, ch, clock, memory)
    ensures OnlyTrigger(old(s.St()), s.St(), t) && Sound(s.St()) && NoneDying(s.St())
  {
    ghost var st := s.St();
    InitKeeps(st, t, ch, clock, memory);
    var ok, isNew := TakeCounter(s, t, ch);
    if !ok {
      return BadCounter;
    }
    TakenMoves(st, t, NamedCounter(TrigOf(st, t), ch));
    StatusKnown(st, t, ch, clock, memory);
    status := FinishInit(s, t, ch, isNew, clock, memory, st);
  }

  // ----- what it means

  lemma TriggerFinished(st: State, t: TrigId, ch: Changes, isNew: bool, clock: nat -> Int64, memory: bool)
    requires Exists(st, t)
    ensures var tr, r := TrigOf(st, t), Finished(st, t, ch, isNew, clock, memory);
            && TrigOf(r, t) == FieldsOf(tr, ch, ValueAt(AskedFor(st, tr.counter, clock), tr.counter))
            && TrigOf(r, t).counter == tr.counter
  {
    var asked := AskedFor(st, TrigOf(st, t).counter, clock);
    WithTriggerAt(asked, t, FieldsOf(TrigOf(st, t), ch, ValueAt(asked, TrigOf(st, t).counter)));
  }

  lemma CounterFinished(st: State, t: TrigId, ch: Changes, isNew: bool, clock: nat -> Int64, memory: bool, d: nat)
    requires Exists(st, t) && d in st.counters
    ensures var r := Finished(st, t, ch, isNew, clock, memory);
            && r.counters.Keys == st.counters.Keys
            && r.counters[d] ==
                 if TrigOf(st, t).counter != Some(d) then st.counters[d]
                 else
                   var asked := Queried(st.counters[d], clock(d));
                   if FinishStatus(st, t, ch, isNew, clock, memory) == Success
                   then Placed(r, asked, t, isNew) else asked
  {
    TriggerFinished(st, t, ch, isNew, clock, memory);
    var asked := AskedFor(st, TrigOf(st, t).counter, clock);
    var filled := Filled(asked, t, ch);
    assert filled.counters == asked.counters;
    if TrigOf(st, t).counter == Some(d) {
      var cnt := asked.counters[d];
      BracketedAgree(filled, Finished(st, t, ch, isNew, clock, memory),
                     if isNew then cnt.(triggers := [t] + cnt.triggers) else cnt);
    }
  }

  /** Each counter afterwards. The one asked for has been asked for its value. On success the trigger is on its
      list and its brackets are computed again, at that value; the counter that the trigger leaves has its
      brackets computed at the value it had; no other counter has changed. */
  lemma InitCounters(st: State, t: TrigId, ch: Changes, clock: nat -> Int64, memory: bool, d: nat)
    requires Exists(st, t) && d in st.counters
    ensures var r, own, cnt := InitAfter(st, t, ch, clock, memory), TrigOf(st, t).counter, st.counters[d];
            var c, status := NamedCounter(TrigOf(st, t), ch), InitStatus(st.counters, TrigOf(st, t), ch, clock, memory);
            && r.counters.Keys == st.counters.Keys
            && r.counters[d] ==
                 if status == BadCounter then cnt
                 else if c == Some(d) then
                   var asked := Queried(cnt, clock(d));
                   if status == Success then Placed(r, asked, t, own != c) else asked
                 else if own == Some(d) then Bracketed(st, cnt.(triggers := Survivors(cnt.triggers, {t})))
                 else cnt
  {
    var c := NamedCounter(TrigOf(st, t), ch);
    if !(c.Some? && c.value !in st.counters) {
      TakenCounter(st, t, c, d);
      TakenTrigger(st, t, c);
      StatusKnown(st, t, ch, clock, memory);
      CounterFinished(Taken(st, t, c), t, ch, c != TrigOf(st, t).counter, clock, memory, d);
    }
  }

  lemma TakenTrigger(st: State, t: TrigId, c: Option<nat>)
    requires Exists(st, t)
    ensures Exists(Taken(st, t, c), t) && TrigOf(Taken(st, t, c), t) == TrigOf(st, t).(counter := c)
  {
    WithTriggerAt(Deleted(st, t), t, TrigOf(st, t).(counter := c));
    assert TrigOf(st, t).(counter := TrigOf(st, t).counter) == TrigOf(st, t);
  }

  /** The trigger afterwards. */
  lemma InitFields(st: State, t: TrigId, ch: Changes, clock: nat -> Int64, memory: bool)
    requires Exists(st, t)
    ensures var tr, c := TrigOf(st, t), NamedCounter(TrigOf(st, t), ch);
            TrigOf(InitAfter(st, t, ch, clock, memory), t)
            == if InitStatus(st.counters, tr, ch, clock, memory) == BadCounter then tr
               else FieldsOf(tr.(counter := c), ch, WorkValue(st.counters, c, clock))
  {
    var c := NamedCounter(TrigOf(st, t), ch);
    if !(c.Some? && c.value !in st.counters) {
      TakenTrigger(st, t, c);
      if c.Some? {
        TakenCounter(st, t, c, c.value);
      }
      TriggerFinished(Taken(st, t, c), t, ch, c != TrigOf(st, t).counter, clock, memory);
    }
  }

  /** Where the trigger is afterwards. One that keeps its counter stays where it was; one that takes a new
      counter is registered with it on success, and is on no list otherwise. */
  lemma InitPlaces(st: State, t: TrigId, ch: Changes, clock: nat -> Int64, memory: bool)
    requires Sound(st) && NoneDying(st) && Exists(st, t)
    ensures var st', tr := InitAfter(st, t, ch, clock, memory), TrigOf(st, t);
            var c, status := NamedCounter(tr, ch), InitStatus(st.counters, tr, ch, clock, memory);
            if status == BadCounter || c == tr.counter then SameLists(st, st')
            else if status == Success && c.Some? then c.value in st'.counters && t in st'.counters[c.value].triggers
            else OnNoList(st', t)
  {
    var st', tr := InitAfter(st, t, ch, clock, memory), TrigOf(st, t);
    var c, status := NamedCounter(tr, ch), InitStatus(st.counters, tr, ch, clock, memory);
    if c.Some? && c.value in st.counters {
      InitCounters(st, t, ch, clock, memory, c.value);
    }
    forall d | d in st.counters
      ensures d in st'.counters
      ensures status == BadCounter || c == tr.counter ==> st'.counters[d].triggers == st.counters[d].triggers
      ensures c != tr.counter && !(status == Success && c.Some?) && status != BadCounter ==>
              t !in st'.counters[d].triggers
    {
      InitCounters(st, t, ch, clock, memory, d);
      BracketedKeeps(st', Queried(st.counters[d], clock(d)));
      BracketedKeeps(st, st.counters[d].(triggers := Survivors(st.counters[d].triggers, {t})));
      if tr.counter != Some(d) {
        NotElsewhere(st, t, d);
      }
    }
    InitKeys(st, t, ch, clock, memory);
  }

  /** The trigger is on the list of the counter it names. */
  ghost predicate OnItsList(st: State, t: TrigId) {
    var c := TrigOf(st, t).counter;
    c.Some? ==> c.value in st.counters && t in st.counters[c.value].triggers
  }

  /** A trigger that was on its counter's list is so afterwards, unless a new counter was taken before the error. */
  lemma InitRegisters(st: State, t: TrigId, ch: Changes, clock: nat -> Int64, memory: bool)
    requires Sound(st) && NoneDying(st) && Exists(st, t) && OnItsList(st, t)
    ensures var r, tr := InitAfter(st, t, ch, clock, memory), TrigOf(st, t);
            var c, status := NamedCounter(tr, ch), InitStatus(st.counters, tr, ch, clock, memory);
            OnItsList(r, t) <==> status == BadCounter || status == Success || c == tr.counter || c.None?
  {
    InitPlaces(st, t, ch, clock, memory);
    InitKeys(st, t, ch, clock, memory);
    InitNames(st, t, ch, clock, memory);
  }

  lemma InitNames(st: State, t: TrigId, ch: Changes, clock: nat -> Int64, memory: bool)
    requires Exists(st, t)
    ensures var tr, c := TrigOf(st, t), NamedCounter(TrigOf(st, t), ch);
            TrigOf(InitAfter(st, t, ch, clock, memory), t).counter
            == if InitStatus(st.counters, tr, ch, clock, memory) == BadCounter then tr.counter else c
  {
    InitFields(st, t, ch, clock, memory);
    var c := NamedCounter(TrigOf(st, t), ch);
    FieldsMean(TrigOf(st, t).(counter := c), ch, WorkValue(st.counters, c, clock));
  }

  lemma InitKeys(st: State, t: TrigId, ch: Changes, clock: nat -> Int64, memory: bool)
    requires Exists(st, t)
    ensures InitAfter(st, t, ch, clock, memory).counters.Keys == st.counters.Keys
  {
    if d :| d in st.counters {
      InitCounters(st, t, ch, clock, memory, d);
    }
  }

  /** The trigger of an accepted request has the CheckTrigger function of its test type if one was asked for, and
      its test value is the value waited for. */
  lemma InitSets(st: State, t: TrigId, ch: Changes, clock: nat -> Int64, memory: bool)
    requires Exists(st, t)
    ensures var tr, tr' := TrigOf(st, t), TrigOf(InitAfter(st, t, ch, clock, memory), t);
            var c, status := NamedCounter(tr, ch), InitStatus(st.counters, tr, ch, clock, memory);
            status == Success ==>
              && tr'.(check := tr.check, testValue := tr.testValue) == tr.(counter := c)
              && (ch.testType ==> tr'.check == tr.testType) && (!ch.testType ==> tr'.check == tr.check)
              && tr'.testValue == if !(ch.valueType || ch.value) then tr.testValue
                                  else if tr.valueType == Absolute then tr.waitValue
                                  else WorkValue(st.counters, c, clock) + tr.waitValue
  {
    InitFields(st, t, ch, clock, memory);
    var tr, c := TrigOf(st, t), NamedCounter(TrigOf(st, t), ch);
    FieldsMean(tr.(counter := c), ch, WorkValue(st.counters, c, clock));
  }

  lemma FieldsMean(tr: Trigger, ch: Changes, v: Int64)
    ensures var r := FieldsOf(tr, ch, v);
            && r.(check := tr.check, testValue := tr.testValue) == tr
            && (FieldStatus(tr, ch, v) == Success ==>
                  && (ch.testType ==> r.check == tr.testType) && (!ch.testType ==> r.check == tr.check)
                  && r.testValue == if !(ch.valueType || ch.value) then tr.testValue
                                    else if tr.valueType == Absolute then tr.waitValue else v + tr.waitValue)
  {
    if Fits(v + tr.waitValue) {
      WrapExact(v + tr.waitValue);
    }
  }
}
