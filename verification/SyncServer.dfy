/** The SYNC extension at work: counters, alarms and awaits change in place, request by request. */
module SyncServer {
  import opened Options
  import opened SyncValues
  import opened SyncModel
  import opened SyncBrackets
  import opened SyncChange
  import SyncAlarm
  import SyncDestroy
  import SyncIdle

  lemma {:induction false} UnlinkOne(list: seq<TrigId>, i: nat)
    requires NoDuplicates(list) && i < |list|
    ensures Survivors(list, {list[i]}) == list[..i] + list[i + 1..]
  {
    if i == 0 {
      assert forall j :: 0 <= j < |list[1..]| ==> list[1..][j] == list[j + 1] != list[0];
      SurvivorsAll(list[1..], {list[0]});
    } else {
      UnlinkOne(list[1..], i - 1);
      assert list[..i] + list[i + 1..] == [list[0]] + (list[1..][..i - 1] + list[1..][i..]);
    }
  }

  lemma SlideOn(list: seq<TrigId>, i: nat)
    requires i < |list|
    ensures list == list[..i] + list[i..] && list[..i] + [list[i]] == list[..i + 1]
    ensures list[i..] != [] && list[i..][0] == list[i]
  {
  }

  /** The scan that takes a trigger off a list; a trigger that is not there changes nothing. */
  method Unlink(list: seq<TrigId>, t: TrigId) returns (r: seq<TrigId>)
    requires NoDuplicates(list)
    ensures r == Survivors(list, {t})
  {
    var i := 0;
    while i < |list|
      invariant 0 <= i <= |list|
      invariant t !in list[..i]
    {
      if list[i] == t {
        UnlinkOne(list, i);
        return list[..i] + list[i + 1..];
      }
      i := i + 1;
    }
    assert list[..i] == list;
    SurvivorsAll(list, {t});
    r := list;
  }

  function First(list: seq<TrigId>): Option<TrigId> {
    if list == [] then None else Some(list[0])
  }

  /** The successor of a trigger that is on the list. */
  function Next(list: seq<TrigId>, t: TrigId): Option<TrigId>
    requires t in list
  {
    if list[0] == t then First(list[1..]) else Next(list[1..], t)
  }

  lemma {:induction false} NextInSplit(a: seq<TrigId>, t: TrigId, b: seq<TrigId>)
    requires t !in a
    ensures t in a + [t] + b && Next(a + [t] + b, t) == First(b)
  {
    var s := a + [t] + b;
    assert s[|a|] == t;
    if a == [] {
      assert s[1..] == b;
    } else {
      NextInSplit(a[1..], t, b);
      assert s[1..] == a[1..] + [t] + b;
    }
  }

  /** The walk's successor, read off a list whose tail is still to be walked. */
  lemma NextOfRest(kept: seq<TrigId>, rest: seq<TrigId>)
    requires rest != [] && NoDuplicates(kept + rest)
    ensures rest[0] in kept + rest && Next(kept + rest, rest[0]) == First(rest[1..])
  {
    NotInBoth(kept, rest, rest[0]);
    NextInSplit(kept, rest[0], rest[1..]);
    assert kept + rest == kept + [rest[0]] + rest[1..];
  }

  /** SyncDeleteTriggerFromSyncObject as a change of state. */
  function Deleted(st: State, t: TrigId): State {
    var c := TrigOf(st, t).counter;
    if c.None? || c.value !in st.counters then st
    else
      var cnt := st.counters[c.value];
      st.(counters := st.counters[c.value := Bracketed(st, cnt.(triggers := Survivors(cnt.triggers, {t})))])
  }

  /** The first `n` conditions of an await. */
  function FirstConds(w: nat, n: nat): (r: set<TrigId>)
    ensures forall t :: t in r <==> t.OfAwait? && t.await == w && t.cond < n
  {
    if n == 0 then {} else FirstConds(w, n - 1) + {OfAwait(w, n - 1)}
  }

  /** The state in the middle of FreeAwait: the first `n` conditions have been withdrawn. */
  ghost predicate Freeing(st: State, w: nat, n: nat, cur: State)
    requires w in st.awaits && n <= |st.awaits[w].conds|
  {
    var gone := FirstConds(w, n);
    && cur.alarms == st.alarms && cur.awaits == st.awaits && cur.log == st.log
    && cur.counters.Keys == st.counters.Keys
    && forall d :: d in st.counters ==> cur.counters[d] == Withdrawn(st, st.counters[d], gone)
  }

  lemma FreeStart(st: State, w: nat)
    requires w in st.awaits
    ensures Freeing(st, w, 0, st)
  {
  }

  /** One more condition is withdrawn; a dying counter is left alone. */
  lemma FreeStep(st: State, w: nat, n: nat, cur: State)
    requires Valid(st) && w in st.awaits && n < |st.awaits[w].conds|
    requires Freeing(st, w, n, cur)
    ensures var c := st.awaits[w].conds[n].trigger.counter;
            && c.Some? && c.value in cur.counters
            && (if cur.counters[c.value].dying then Freeing(st, w, n + 1, cur)
                else NoDuplicates(cur.counters[c.value].triggers)
                     && Freeing(st, w, n + 1, Deleted(cur, OfAwait(w, n))))
  {
    var t := OfAwait(w, n);
    var gone := FirstConds(w, n);
    assert FirstConds(w, n + 1) == gone + {t};
    assert RegisteredAwait(st, w);
    var c := st.awaits[w].conds[n].trigger.counter.value;
    forall d | d in st.counters && (d != c || st.counters[c].dying)
      ensures Withdrawn(st, st.counters[d], gone + {t}) == Withdrawn(st, st.counters[d], gone)
    {
      NotOnOthers(st, t, d, gone);
    }
    if !st.counters[c].dying {
      FreeLive(st, w, n, cur, c);
    }
  }

  lemma FreeLive(st: State, w: nat, n: nat, cur: State, c: nat)
    requires Valid(st) && w in st.awaits && n < |st.awaits[w].conds| && Live(st, c)
    requires st.awaits[w].conds[n].trigger.counter == Some(c)
    requires cur.alarms == st.alarms && cur.awaits == st.awaits && c in cur.counters
    requires cur.counters[c] == Withdrawn(st, st.counters[c], FirstConds(w, n))
    ensures var t := OfAwait(w, n);
            NoDuplicates(cur.counters[c].triggers)
            && Deleted(cur, t).counters[c] == Withdrawn(st, st.counters[c], FirstConds(w, n) + {t})
  {
    var t := OfAwait(w, n);
    var gone := FirstConds(w, n);
    WithdrawnKeeps(st, st.counters[c], gone);
    assert SoundList(st, c, st.counters[c].triggers);
    SurvivorsNoDuplicates(st.counters[c].triggers, gone);
    WithdrawnTwice(st, cur, st.counters[c], gone, {t});
  }

  lemma NotOnOthers(st: State, t: TrigId, d: nat, gone: set<TrigId>)
    requires Sound(st) && d in st.counters
    requires TrigOf(st, t).counter != Some(d) || st.counters[d].dying
    ensures Withdrawn(st, st.counters[d], gone + {t}) == Withdrawn(st, st.counters[d], gone)
  {
    if !st.counters[d].dying {
      assert SoundList(st, d, st.counters[d].triggers);
      SurvivorsAgree(st.counters[d].triggers, gone, gone + {t});
    }
  }

  lemma FreeEnd(st: State, w: nat, cur: State)
    requires w in st.awaits && Freeing(st, w, |st.awaits[w].conds|, cur)
    ensures cur.(awaits := cur.awaits - {w}) == Release(st, {w})
  {
    var gone := FirstConds(w, |st.awaits[w].conds|);
    assert gone == TriggersOf(st, {w});
  }

  /** SyncAlarmTriggerFired as a change of state. */
  function AlarmFires(st: State, a: nat): State
    requires a in st.alarms
  {
    var al := st.alarms[a];
    if al.state != Active then st
    else if al.trigger.counter.None? then
      st.(alarms := st.alarms[a := al.(state := Inactive)],
          log := st.log + [AlarmNotify(a, 0, al.trigger.testValue, Inactive)])
    else
      var v := CounterOf(al.trigger, st.counters).value;
      st.(alarms := st.alarms[a := AlarmFired(al, v)], log := st.log + AlarmEvents(a, al, v))
  }

  /** SyncAwaitTriggerFired as a change of state. */
  function AwaitFires(st: State, w: nat): State
    requires w in st.awaits
  {
    Release(st, {w}).(log := st.log + AwaitEvents(st.awaits[w], st.counters))
  }

  ghost predicate CanGoOff(st: State, a: nat) {
    && a in st.alarms
    && Advances(st.alarms[a])
    && var t := st.alarms[a].trigger;
       t.counter.Some? ==>
         && t.counter.value in st.counters
         && (IsComparison(t.check) ==>
               Holds(t.check, t.testValue, st.counters[t.counter.value].value, st.counters[t.counter.value].value))
  }

  class Server {
    var counters: map<nat, Counter>
    var alarms: map<nat, Alarm>
    var awaits: map<nat, AwaitUnion>
    var log: seq<Event>

    ghost function St(): State
      reads this
    {
      State(counters, alarms, awaits, log)
    }

    constructor ()
      ensures St() == State(map[], map[], map[], []) && Valid(St())
    {
      counters, alarms, awaits, log := map[], map[], map[], [];
    }

    function TriggerAt(t: TrigId): Trigger
      reads this
      requires t.OfAlarm? ==> t.alarm in alarms
      requires t.OfAwait? ==> t.await in awaits && t.cond < |awaits[t.await].conds|
      ensures TriggerAt(t) == TrigOf(St(), t)
    {
      match t
      case OfAlarm(a) => alarms[a].trigger
      case OfAwait(w, i) => awaits[w].conds[i].trigger
    }

    /** SyncUpdateCounter */
    method UpdateCounter(c: nat, v: Int64) returns (oldval: Int64)
      requires c in counters
      modifies this`counters
      ensures St() == old(St()).(counters := WithValue(old(counters), c, v))
      ensures oldval == old(counters[c].value)
    {
      oldval := counters[c].value;
      counters := counters[c := counters[c].(value := v)];
    }

    /** SyncComputeBracketValues; a counter without system information has no brackets. */
    method ComputeBrackets(c: nat)
      requires c in counters && forall t :: t in counters[c].triggers ==> Exists(St(), t)
      modifies this`counters
      ensures St() == old(St()).(counters := old(counters)[c := Bracketed(old(St()), old(counters)[c])])
    {
      var cnt := counters[c];
      if cnt.system.Some? {
        var ts: seq<Trigger> := [];
        var i := 0;
        while i < |cnt.triggers|
          invariant 0 <= i <= |cnt.triggers|
          invariant ts == TrigData(St(), cnt.triggers[..i])
          invariant St() == old(St())
        {
          assert cnt.triggers[i] in cnt.triggers;
          ts := ts + [TriggerAt(cnt.triggers[i])];
          i := i + 1;
        }
        assert cnt.triggers[..i] == cnt.triggers;
        var si := ComputeBracketValues(cnt.system.value, cnt.value, ts);
        counters := counters[c := cnt.(system := Some(si))];
      }
    }

    /** SyncDeleteTriggerFromSyncObject */
    method DeleteTrigger(t: TrigId)
      requires Exists(St(), t)
      requires var c := TrigOf(St(), t).counter; c.Some? ==> Live(St(), c.value)
      requires var c := TrigOf(St(), t).counter; c.Some? ==> SoundList(St(), c.value, counters[c.value].triggers)
      modifies this`counters
      ensures St() == Deleted(old(St()), t)
    {
      var c := TriggerAt(t).counter;
      if c == None {
        return;
      }
      var cnt := counters[c.value];
      var rest := Unlink(cnt.triggers, t);
      counters := counters[c.value := cnt.(triggers := rest)];
      ComputeBrackets(c.value);
      BracketedAgree(old(St()), old(St()).(counters := old(counters)[c.value := cnt.(triggers := rest)]),
                     cnt.(triggers := rest));
    }

    /** One condition leaves its counter's list, unless that counter is being freed. */
    method FreeOne(ghost st: State, w: nat, i: nat)
      requires Valid(st) && w in st.awaits && i < |st.awaits[w].conds|
      requires Freeing(st, w, i, St())
      modifies this`counters
      ensures Freeing(st, w, i + 1, St())
    {
      FreeStep(st, w, i, St());
      var c := awaits[w].conds[i].trigger.counter;
      if !counters[c.value].dying {
        FreeingSound(st, w, i, St(), c.value);
        DeleteTrigger(OfAwait(w, i));
      }
    }

    /** Every condition leaves its counter's list. */
    method FreeConditions(ghost st: State, w: nat, n: nat)
      requires Valid(st) && st == St() && w in st.awaits && n == |st.awaits[w].conds|
      modifies this`counters
      ensures Freeing(st, w, n, St())
    {
      FreeStart(st, w);
      var i := 0;
      while i != n
        invariant 0 <= i <= n
        invariant Freeing(st, w, i, St())
      {
        FreeOne(st, w, i);
        i := i + 1;
      }
    }

    /** FreeAwait: when every condition has left its counter's list, the await is freed. */
    method FreeAwait(w: nat)
      requires Valid(St()) && w in awaits
      modifies this`counters, this`awaits
      ensures St() == Release(old(St()), {w})
    {
      FreeConditions(St(), w, |awaits[w].conds|);
      FreeEnd(old(St()), w, St());
      awaits := awaits - {w};
    }

    /** SyncAlarmTriggerFired */
    method AlarmTriggerFired(a: nat)
      requires CanGoOff(St(), a)
      modifies this`alarms, this`log
      ensures St() == AlarmFires(old(St()), a)
    {
      var al := alarms[a];
      if al.state != Active {
        return;
      }
      var state := Active;
      if al.trigger.counter.None? || (al.delta == 0 && IsComparison(al.trigger.testType)) {
        state := Inactive;
      }
      var newTest := al.trigger.testValue;
      var v: Int64 := 0;
      if al.trigger.counter.Some? {
        v := counters[al.trigger.counter.value].value;
      }
      if state == Active {
        var moved, overflow := SyncAlarm.AdvanceLoop(al.trigger.check, al.trigger.testValue, al.delta, v);
        ghost var k :| && SyncAlarm.IsAdvance(al.trigger.check, al.trigger.testValue, al.delta, v, k)
                       && overflow == !Fits(SyncAlarm.Moved(al.trigger.testValue, al.delta, k))
                       && (!overflow ==> moved == SyncAlarm.Moved(al.trigger.testValue, al.delta, k));
        SyncAlarm.AdvanceResultCorrect(al.trigger.check, al.trigger.testValue, al.delta, v, k);
        newTest := moved;
        if overflow {
          newTest := al.trigger.testValue;
          state := Inactive;
        }
      }
      log := log + [AlarmNotify(a, v, al.trigger.testValue, state)];
      alarms := alarms[a := al.(state := state, trigger := al.trigger.(testValue := newTest))];
    }

    /** Whether an event is due for a condition: its counter is going, or its threshold is passed. */
    method IsDue(aw: Await) returns (due: bool)
      requires aw.trigger.counter.Some? && aw.trigger.counter.value in counters
      ensures due == Due(aw, counters)
    {
      var c := counters[aw.trigger.counter.value];
      if c.dying {
        return true;
      }
      var diff := Subtract(c.value, aw.trigger.testValue);
      if diff.1 {
        return false;
      }
      WrapExact(c.value - aw.trigger.testValue);
      var tt := aw.trigger.testType;
      due := ((tt == PositiveComparison || tt == PositiveTransition) && diff.0 >= aw.threshold)
             || ((tt == NegativeComparison || tt == NegativeTransition) && diff.0 <= aw.threshold);
    }

    /** The conditions of a released await for which an event is due. */
    method CollectDue(u: AwaitUnion) returns (due: seq<nat>)
      requires forall i :: 0 <= i < |u.conds| ==>
                 u.conds[i].trigger.counter.Some? && u.conds[i].trigger.counter.value in counters
      ensures due == DueConditions(u.conds, |u.conds|, counters)
    {
      due := [];
      var i := 0;
      while i < |u.conds|
        invariant 0 <= i <= |u.conds|
        invariant due == DueConditions(u.conds, i, counters)
      {
        var now := IsDue(u.conds[i]);
        if now {
          due := due + [i];
        }
        i := i + 1;
      }
    }

    /** SyncAwaitTriggerFired */
    method AwaitTriggerFired(w: nat)
      requires Valid(St()) && w in awaits
      modifies this`counters, this`awaits, this`log
      ensures St() == AwaitFires(old(St()), w)
    {
      var u := awaits[w];
      CondsKnown(St(), w);
      var due := CollectDue(u);
      SendCounterNotify(u, due);
      log := log + [Attend(u.client)];
      LogKeepsValid(old(St()), St());
      LogKeepsRelease(old(St()), St(), {w});
      FreeAwait(w);
    }

    /** SyncSendCounterNotifyEvents: the events remaining are counted down. */
    method SendCounterNotify(u: AwaitUnion, due: seq<nat>)
      requires due == DueConditions(u.conds, |u.conds|, counters)
      requires forall i :: 0 <= i < |u.conds| ==>
                 u.conds[i].trigger.counter.Some? && u.conds[i].trigger.counter.value in counters
      modifies this`log
      ensures log + [Attend(u.client)] == old(log) + AwaitEvents(u, counters)
    {
      assert forall i :: 0 <= i < |due| ==> due[i] in due;
      if due == [] {
        return;
      }
      var events := CollectEntries(u, due);
      log := log + [CounterNotify(u.client, events)];
      assert log + [Attend(u.client)] == old(log) + ([CounterNotify(u.client, events)] + [Attend(u.client)]);
    }

    /** The loop that fills the events in. */
    method CollectEntries(u: AwaitUnion, due: seq<nat>) returns (events: seq<Entry>)
      requires forall i :: 0 <= i < |due| ==> due[i] < |u.conds|
      requires forall i :: 0 <= i < |u.conds| ==>
                 u.conds[i].trigger.counter.Some? && u.conds[i].trigger.counter.value in counters
      ensures events == Entries(u.conds, due, counters)
    {
      events := [];
      var i: nat := 0;
      while i != |due|
        invariant i <= |due| && |events| == i
        invariant forall j :: 0 <= j < i ==> events[j] == EntryOf(u.conds[due[j]].trigger, counters, |due| - j - 1)
      {
        var t := u.conds[due[i]].trigger;
        var c := counters[t.counter.value];
        events := events + [Entry(t.counter.value, t.testValue, c.value, |due| - i - 1, c.dying)];
        i := i + 1;
      }
    }

    /** The TriggerFired function of a trigger. */
    method Fire(t: TrigId)
      requires Valid(St()) && Exists(St(), t)
      requires t.OfAlarm? ==> CanGoOff(St(), t.alarm)
      modifies this
      ensures St() == if t.OfAlarm? then AlarmFires(old(St()), t.alarm) else AwaitFires(old(St()), t.await)
    {
      match t {
        case OfAlarm(a) => AlarmTriggerFired(a);
        case OfAwait(w, i) => AwaitTriggerFired(w);
      }
    }

    /** CheckTrigger, then TriggerFired. */
    method CheckAndFire(ghost st: State, c: nat, v: Int64, oldval: Int64,
                        ghost walked: seq<TrigId>, ghost rest: seq<TrigId>, t: TrigId)
      requires Valid(st) && Live(st, c) && NamesOnce(st, c) && oldval == st.counters[c].value
      requires forall a :: OfAlarm(a) in st.counters[c].triggers ==> Advances(st.alarms[a])
      requires st.counters[c].triggers == walked + rest && t in rest
      requires Walked(st, c, v, walked, St())
      requires Exists(St(), t) && TrigOf(St(), t) == TrigOf(st, t) && Exists(st, t)
      modifies this
      ensures Walked(st, c, v, walked + [t], St())
    {
      if Check(TriggerAt(t), oldval, v) {
        WalkedValid(st, c, v, walked, rest, St(), t);
        ghost var cur := St();
        Fire(t);
        FiredStep(st, c, v, walked, rest, cur, t, St());
      } else {
        WalkPast(st, c, v, walked, t, St());
      }
    }

    /** The body of the walk. The successor in the list is read before the trigger fires, because
        firing an await frees its triggers. */
    method WalkOne(ghost st: State, c: nat, v: Int64, oldval: Int64,
                   ghost walked: seq<TrigId>, ghost rest: seq<TrigId>, t: TrigId)
      returns (pnext: Option<TrigId>)
      requires Valid(st) && Live(st, c) && NamesOnce(st, c) && oldval == st.counters[c].value
      requires forall a :: OfAlarm(a) in st.counters[c].triggers ==> Advances(st.alarms[a])
      requires rest != [] && st.counters[c].triggers == walked + rest && t == rest[0]
      requires Walked(st, c, v, walked, St())
      modifies this
      ensures pnext == First(rest[1..])
      ensures Walked(st, c, v, walked + [t], St())
    {
      OnTheWalk(st, c, v, walked, rest, St());
      pnext := Next(counters[c].triggers, t);
      CheckAndFire(st, c, v, oldval, walked, rest, t);
    }

    /** The loop of SyncChangeCounter. */
    method WalkTriggers(ghost st: State, c: nat, v: Int64, oldval: Int64)
      requires Valid(st) && Live(st, c) && NamesOnce(st, c) && oldval == st.counters[c].value
      requires forall a :: OfAlarm(a) in st.counters[c].triggers ==> Advances(st.alarms[a])
      requires St() == st.(counters := WithValue(st.counters, c, v))
      modifies this
      ensures Walked(st, c, v, st.counters[c].triggers, St())
    {
      WalkStart(st, c, v);
      ghost var list := st.counters[c].triggers;
      ghost var walked, rest: seq<TrigId> := [], list;
      var ptl := First(counters[c].triggers);
      while ptl.Some?
        invariant list == walked + rest && ptl == First(rest)
        invariant Walked(st, c, v, walked, St())
        decreases |rest|
      {
        ghost var t := rest[0];
        ptl := WalkOne(st, c, v, oldval, walked, rest, ptl.value);
        SplitMoves(walked, rest);
        walked, rest := walked + [t], rest[1..];
      }
      assert walked == list;
    }

    /** SyncChangeCounter */
    method ChangeCounter(c: nat, v: Int64)
      requires Valid(St()) && Live(St(), c) && NamesOnce(St(), c)
      requires forall a :: OfAlarm(a) in counters[c].triggers ==> Advances(alarms[a])
      modifies this
      ensures St() == AfterChange(old(St()), c, v)
    {
      ghost var st := St();
      var oldval := UpdateCounter(c, v);
      WalkTriggers(st, c, v, oldval);
      WalkedSound(st, c, v, st.counters[c].triggers, [], St());
      WalkOver(st, c, v, St());
      if counters[c].system.Some? {
        ComputeBrackets(c);
      }
    }

    /** SyncAlarmCounterDestroyed */
    method AlarmCounterDestroyed(a: nat)
      requires a in alarms && alarms[a].trigger.counter.Some? && alarms[a].trigger.counter.value in counters
      modifies this`alarms, this`log
      ensures St() == old(St()).(alarms := old(alarms)[a := SyncDestroy.AlarmDropped(old(alarms)[a])],
                                 log := old(log) + [AlarmNotify(a, counters[old(alarms)[a].trigger.counter.value].value,
                                                                old(alarms)[a].trigger.testValue, Inactive)])
    {
      var al := alarms[a].(state := Inactive);
      log := log + [AlarmNotify(a, counters[al.trigger.counter.value].value, al.trigger.testValue, al.state)];
      alarms := alarms[a := al.(trigger := al.trigger.(counter := None))];
    }

    /** The CounterDestroyed function of one trigger of the dying counter. */
    method Tell(ghost st: State, c: nat, ghost walked: seq<TrigId>, ghost rest: seq<TrigId>, t: TrigId)
      requires Valid(st) && Live(st, c) && NamesOnce(st, c)
      requires st.counters[c].triggers == walked + rest && rest != [] && t == rest[0]
      requires SyncDestroy.Told(st, c, walked, St())
      modifies this
      ensures SyncDestroy.Told(st, c, walked + [t], St())
    {
      TellReady(st, c, walked, rest, St());
      ghost var cur := St();
      match t {
        case OfAlarm(a) => AlarmCounterDestroyed(a);
        case OfAwait(w, i) => AwaitTriggerFired(w);
      }
      ToldStep(st, c, walked, rest, cur, St());
    }

    /** The triggers of the dying counter are told, in the order of its list. */
    method TellAll(ghost st: State, c: nat, list: seq<TrigId>)
      requires Valid(st) && Live(st, c) && NamesOnce(st, c) && list == st.counters[c].triggers
      requires SyncDestroy.Told(st, c, [], St())
      modifies this
      ensures SyncDestroy.Told(st, c, list, St())
    {
      var i := 0;
      while i < |list|
        invariant 0 <= i <= |list|
        invariant SyncDestroy.Told(st, c, list[..i], St())
      {
        SlideOn(list, i);
        Tell(st, c, list[..i], list[i..], list[i]);
        i := i + 1;
      }
      assert list[..i] == list;
    }

    /** FreeCounter. The list is left alone while the triggers are told; then it is freed whole. */
    method FreeCounter(c: nat)
      requires Valid(St()) && Live(St(), c) && NamesOnce(St(), c)
      modifies this
      ensures St() == SyncDestroy.AfterDestroy(old(St()), c)
    {
      ghost var st := St();
      var list := counters[c].triggers;
      counters := counters[c := counters[c].(dying := true)];
      SyncDestroy.TellStart(st, c);
      TellAll(st, c, list);
      SyncDestroy.TellEnd(st, c, St());
      counters := counters - {c};
    }
  }

  lemma FreeingSound(st: State, w: nat, n: nat, cur: State, c: nat)
    requires Valid(st) && w in st.awaits && n <= |st.awaits[w].conds|
    requires Freeing(st, w, n, cur) && Live(cur, c)
    ensures SoundList(cur, c, cur.counters[c].triggers)
  {
    var gone := FirstConds(w, n);
    WithdrawnKeeps(st, st.counters[c], gone);
    assert SoundList(st, c, st.counters[c].triggers);
    SurvivorsNoDuplicates(st.counters[c].triggers, gone);
  }

  lemma LogKeepsValid(st: State, st': State)
    requires Valid(st) && st' == st.(log := st'.log)
    ensures Valid(st')
  {
    forall c | Live(st', c) ensures SoundList(st', c, st'.counters[c].triggers) {
      assert SoundList(st, c, st.counters[c].triggers);
    }
    forall w | w in st'.awaits ensures RegisteredAwait(st', w) {
      assert RegisteredAwait(st, w);
    }
  }

  lemma WalkedKeeps(st: State, c: nat, v: Int64, walked: seq<TrigId>, cur: State)
    requires Live(st, c) && Walked(st, c, v, walked, cur)
    ensures KeepsLists(st, cur, UnblockedBy(st, c, v, walked))
  {
    var out := UnblockedBy(st, c, v, walked);
    forall d | d in st.counters && d != c
      ensures var r := Withdrawn(st, st.counters[d], TriggersOf(st, out));
              && r.dying == st.counters[d].dying
              && (!st.counters[d].dying ==> r.triggers == Survivors(st.counters[d].triggers, TriggersOf(st, out)))
    {
      WithdrawnKeeps(st, st.counters[d], TriggersOf(st, out));
    }
  }

  lemma WalkedSound(st: State, c: nat, v: Int64, walked: seq<TrigId>, rest: seq<TrigId>, cur: State)
    requires Valid(st) && Live(st, c) && Walked(st, c, v, walked, cur)
    ensures Valid(cur) && Live(cur, c) && SoundList(cur, c, cur.counters[c].triggers)
  {
    WalkedKeeps(st, c, v, walked, cur);
    KeepsSound(st, cur, UnblockedBy(st, c, v, walked));
  }

  /** A trigger about to fire can fire. */
  lemma WalkedValid(st: State, c: nat, v: Int64, walked: seq<TrigId>, rest: seq<TrigId>, cur: State, t: TrigId)
    requires Valid(st) && Live(st, c) && NamesOnce(st, c)
    requires st.counters[c].triggers == walked + rest && t in rest && Walked(st, c, v, walked, cur)
    requires forall a :: OfAlarm(a) in st.counters[c].triggers ==> Advances(st.alarms[a])
    requires GoesTrue(st, c, v, t)
    ensures Valid(cur) && Exists(cur, t)
            && (t.OfAlarm? ==> CanGoOff(cur, t.alarm) && cur.alarms[t.alarm] == st.alarms[t.alarm])
  {
    WalkedSound(st, c, v, walked, rest, cur);
    NextIsIntact(st, c, v, walked, rest, cur, t);
    assert t in walked + rest;
    assert SoundList(st, c, walked + rest);
  }

  lemma FiredStep(st: State, c: nat, v: Int64, walked: seq<TrigId>, rest: seq<TrigId>, cur: State, t: TrigId,
                  cur': State)
    requires Valid(st) && Live(st, c) && NamesOnce(st, c)
    requires st.counters[c].triggers == walked + rest && t in rest && Walked(st, c, v, walked, cur)
    requires Exists(cur, t) && GoesTrue(st, c, v, t)
    requires cur' == if t.OfAlarm? then AlarmFires(cur, t.alarm) else AwaitFires(cur, t.await)
    ensures Walked(st, c, v, walked + [t], cur')
  {
    NextIsIntact(st, c, v, walked, rest, cur, t);
    assert t in walked + rest;
    assert SoundList(st, c, walked + rest);
    forall x | x in walked ensures x in st.counters[c].triggers {
      assert x in walked + rest;
    }
    match t {
      case OfAlarm(a) =>
        assert cur.alarms[a] == st.alarms[a];
        assert cur.alarms[a := st.alarms[a]] == cur.alarms;
        assert cur.log + [] == cur.log;
        WalkAlarm(st, c, v, walked, a, cur, cur');
      case OfAwait(w, i) =>
        WalkedKeepsValues(st, c, v, walked, cur);
        SyncIdle.AwaitEventsAgree(st.awaits[w], WithValue(st.counters, c, v), cur.counters);
        WalkAwait(st, c, v, walked, w, i, cur, cur');
    }
  }

  lemma WalkedKeepsValues(st: State, c: nat, v: Int64, walked: seq<TrigId>, cur: State)
    requires Live(st, c) && Walked(st, c, v, walked, cur)
    ensures cur.counters.Keys == st.counters.Keys
    ensures forall d :: d in st.counters ==>
              var was := WithValue(st.counters, c, v)[d];
              was.value == cur.counters[d].value && was.dying == cur.counters[d].dying
  {
    forall d | d in st.counters && d != c
      ensures cur.counters[d].value == st.counters[d].value && cur.counters[d].dying == st.counters[d].dying
    {
      WithdrawnKeeps(st, st.counters[d], TriggersOf(st, UnblockedBy(st, c, v, walked)));
    }
  }

  lemma LogKeepsRelease(st: State, st': State, ws: set<nat>)
    requires st' == st.(log := st'.log)
    ensures Release(st', ws) == Release(st, ws).(log := st'.log)
  {
    var gone := TriggersOf(st, ws);
    assert TriggersOf(st', ws) == gone;
    forall d | d in st.counters
      ensures Withdrawn(st', st.counters[d], gone) == Withdrawn(st, st.counters[d], gone)
    {
      SyncIdle.WithdrawnTriggersAgree(st, st', st.counters[d], gone);
    }
  }

  lemma WalkOver(st: State, c: nat, v: Int64, cur: State)
    requires c in st.counters && Walked(st, c, v, st.counters[c].triggers, cur)
    ensures c in cur.counters
    ensures cur.(counters := cur.counters[c := Bracketed(cur, cur.counters[c])]) == AfterChange(st, c, v)
    ensures cur.counters[c].system.None? ==> cur == AfterChange(st, c, v)
  {
    WalkEnd(st, c, v, cur);
    if cur.counters[c].system.None? {
      assert cur.counters[c := cur.counters[c]] == cur.counters;
    }
  }

  lemma SplitMoves(walked: seq<TrigId>, rest: seq<TrigId>)
    requires rest != []
    ensures walked + rest == (walked + [rest[0]]) + rest[1..]
  {
  }

  lemma CondsKnown(st: State, w: nat)
    requires Registered(st) && w in st.awaits
    ensures forall i :: 0 <= i < |st.awaits[w].conds| ==>
              st.awaits[w].conds[i].trigger.counter.Some? && st.awaits[w].conds[i].trigger.counter.value in st.counters
  {
    assert RegisteredAwait(st, w);
  }

  /** Where the walk stands: the next trigger is alive and on the list, and so is its successor. */
  lemma OnTheWalk(st: State, c: nat, v: Int64, walked: seq<TrigId>, rest: seq<TrigId>, cur: State)
    requires Valid(st) && Live(st, c) && NamesOnce(st, c) && rest != []
    requires st.counters[c].triggers == walked + rest && Walked(st, c, v, walked, cur)
    ensures var t, list := rest[0], cur.counters[c].triggers;
            && Exists(cur, t) && TrigOf(cur, t) == TrigOf(st, t) && Exists(st, t)
            && t in list && Next(list, t) == First(rest[1..])
  {
    RestIntact(st, c, v, walked, rest, cur);
    NextIsIntact(st, c, v, walked, rest, cur, rest[0]);
    WalkedSound(st, c, v, walked, rest, cur);
    NextOfRest(Survivors(walked, TriggersOf(st, UnblockedBy(st, c, v, walked))), rest);
    OnList(st, c, rest[0], walked, rest);
  }

  lemma OnList(st: State, c: nat, t: TrigId, walked: seq<TrigId>, rest: seq<TrigId>)
    requires Sound(st) && Live(st, c) && st.counters[c].triggers == walked + rest && t in rest
    ensures Exists(st, t)
  {
    assert t in walked + rest;
    assert SoundList(st, c, walked + rest);
  }

  lemma TellReady(st: State, c: nat, walked: seq<TrigId>, rest: seq<TrigId>, cur: State)
    requires Valid(st) && Live(st, c) && NamesOnce(st, c)
    requires st.counters[c].triggers == walked + rest && rest != []
    requires SyncDestroy.Told(st, c, walked, cur)
    ensures Valid(cur) && Exists(cur, rest[0]) && Exists(st, rest[0])
    ensures TrigOf(cur, rest[0]) == TrigOf(st, rest[0]) && TrigOf(st, rest[0]).counter == Some(c)
  {
    forall x | x in walked ensures x in st.counters[c].triggers {
      assert x in walked + rest;
    }
    SyncDestroy.ToldValid(st, c, walked, cur);
    SyncDestroy.NextIsThere(st, c, walked, rest, cur, rest[0]);
    OnList(st, c, rest[0], walked, rest);
    assert SoundList(st, c, walked + rest);
    assert rest[0] in walked + rest;
  }

  lemma ToldStep(st: State, c: nat, walked: seq<TrigId>, rest: seq<TrigId>, cur: State, cur': State)
    requires Valid(st) && Live(st, c) && NamesOnce(st, c)
    requires st.counters[c].triggers == walked + rest && rest != []
    requires SyncDestroy.Told(st, c, walked, cur) && Exists(cur, rest[0])
    requires match rest[0]
             case OfAlarm(a) =>
               cur' == cur.(alarms := cur.alarms[a := SyncDestroy.AlarmDropped(cur.alarms[a])],
                            log := cur.log + [AlarmNotify(a, cur.counters[c].value,
                                                           cur.alarms[a].trigger.testValue, Inactive)])
             case OfAwait(w, i) => cur' == AwaitFires(cur, w)
    ensures SyncDestroy.Told(st, c, walked + [rest[0]], cur')
  {
    TellReady(st, c, walked, rest, cur);
    forall x | x in walked ensures x in st.counters[c].triggers {
      assert x in walked + rest;
    }
    match rest[0] {
      case OfAlarm(a) =>
        assert rest[0] !in walked by { SoundSplit(st, c, walked, rest); }
        assert cur.alarms[a] == st.alarms[a];
        SyncDestroy.TellAlarm(st, c, walked, a, cur, cur');
      case OfAwait(w, i) =>
        ToldKeepsValues(st, c, walked, cur);
        SyncIdle.AwaitEventsAgree(st.awaits[w], SyncDestroy.Dying(st.counters, c), cur.counters);
        SyncDestroy.TellAwait(st, c, walked, w, i, cur, cur');
    }
  }

  lemma SoundSplit(st: State, c: nat, walked: seq<TrigId>, rest: seq<TrigId>)
    requires Sound(st) && Live(st, c) && st.counters[c].triggers == walked + rest && rest != []
    ensures rest[0] !in walked
  {
    assert SoundList(st, c, walked + rest);
    NotInBoth(walked, rest, rest[0]);
  }

  lemma ToldKeepsValues(st: State, c: nat, walked: seq<TrigId>, cur: State)
    requires Live(st, c) && SyncDestroy.Told(st, c, walked, cur)
    ensures cur.counters.Keys == st.counters.Keys
    ensures forall d :: d in st.counters ==>
              var was := SyncDestroy.Dying(st.counters, c)[d];
              was.value == cur.counters[d].value && was.dying == cur.counters[d].dying
  {
    forall d | d in st.counters && d != c
      ensures cur.counters[d].value == st.counters[d].value && cur.counters[d].dying == st.counters[d].dying
    {
      WithdrawnKeeps(st, st.counters[d], TriggersOf(st, SyncDestroy.ReleasedBy(st, walked)));
    }
  }
}
