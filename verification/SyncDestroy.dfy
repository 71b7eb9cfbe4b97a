/** What destroying a counter does to the whole extension, and the walk that gets there. */
module SyncDestroy {
  import opened Options
  import opened SyncModel
  import opened SyncChange

  /** An alarm that lost its counter. */
  function AlarmDropped(al: Alarm): Alarm {
    al.(state := Inactive, trigger := al.trigger.(counter := None))
  }

  function Dying(counters: map<nat, Counter>, c: nat): map<nat, Counter>
    requires c in counters
  {
    counters[c := counters[c].(dying := true)]
  }

  ghost function ReleasedBy(st: State, walked: seq<TrigId>): set<nat> {
    set w | w in st.awaits && exists i :: OfAwait(w, i) in walked
  }

  ghost function AlarmsDropped(st: State, walked: seq<TrigId>): map<nat, Alarm> {
    map a | a in st.alarms :: if OfAlarm(a) in walked then AlarmDropped(st.alarms[a]) else st.alarms[a]
  }

  /** What one trigger sends when its counter is destroyed. */
  function LossOf(st: State, c: nat, t: TrigId): seq<Event>
    requires c in st.counters
  {
    if !Exists(st, t) then []
    else
      match t
      case OfAlarm(a) => [AlarmNotify(a, st.counters[c].value, st.alarms[a].trigger.testValue, Inactive)]
      case OfAwait(w, i) => AwaitEvents(st.awaits[w], Dying(st.counters, c))
  }

  function LossAlong(st: State, c: nat, walked: seq<TrigId>): seq<Event>
    requires c in st.counters
  {
    if walked == [] then []
    else
      var n := |walked| - 1;
      LossAlong(st, c, walked[..n]) + LossOf(st, c, walked[n])
  }

  /** The state after FreeCounter. */
  ghost function AfterDestroy(st: State, c: nat): State
    requires c in st.counters
  {
    var list := st.counters[c].triggers;
    var out := ReleasedBy(st, list);
    State(map d | d in st.counters && d != c :: Withdrawn(st, st.counters[d], TriggersOf(st, out)),
          AlarmsDropped(st, list),
          st.awaits - out,
          st.log + LossAlong(st, c, list))
  }

  /** `cur` is the state when the prefix `walked` of the list of the dying counter has been walked;
      that list itself is left alone. */
  ghost predicate Told(st: State, c: nat, walked: seq<TrigId>, cur: State)
    requires c in st.counters
  {
    && Elsewhere(st, c, ReleasedBy(st, walked), AlarmsDropped(st, walked), cur)
    && cur.log == st.log + LossAlong(st, c, walked)
    && cur.counters[c] == st.counters[c].(dying := true)
  }

  lemma TellStart(st: State, c: nat)
    requires c in st.counters
    ensures Told(st, c, [], st.(counters := Dying(st.counters, c)))
  {
    assert ReleasedBy(st, []) == {};
    assert TriggersOf(st, {}) == {};
    assert AlarmsDropped(st, []) == st.alarms;
    assert st.awaits - {} == st.awaits;
  }

  lemma LogGrows(st: State, c: nat, walked: seq<TrigId>, t: TrigId)
    requires c in st.counters
    ensures LossAlong(st, c, walked + [t]) == LossAlong(st, c, walked) + LossOf(st, c, t)
    ensures st.log + LossAlong(st, c, walked + [t]) == (st.log + LossAlong(st, c, walked)) + LossOf(st, c, t)
  {
    assert (walked + [t])[..|walked|] == walked;
  }

  lemma SnocReleased(st: State, walked: seq<TrigId>, t: TrigId)
    requires Exists(st, t)
    ensures ReleasedBy(st, walked + [t]) == ReleasedBy(st, walked) + if t.OfAwait? then {t.await} else {}
  {
    forall w | w in ReleasedBy(st, walked) ensures w in ReleasedBy(st, walked + [t]) {
      var i :| OfAwait(w, i) in walked;
      assert OfAwait(w, i) in walked + [t];
    }
    assert t in walked + [t];
  }

  lemma SnocDropped(st: State, walked: seq<TrigId>, t: TrigId)
    requires Exists(st, t)
    ensures AlarmsDropped(st, walked + [t])
      == if t.OfAlarm? then AlarmsDropped(st, walked)[t.alarm := AlarmDropped(st.alarms[t.alarm])]
         else AlarmsDropped(st, walked)
  {
  }

  lemma TellAlarm(st: State, c: nat, walked: seq<TrigId>, a: nat, cur: State, cur': State)
    requires c in st.counters && a in st.alarms
    requires Told(st, c, walked, cur)
    requires cur' == cur.(alarms := cur.alarms[a := AlarmDropped(st.alarms[a])],
                          log := cur.log + LossOf(st, c, OfAlarm(a)))
    ensures Told(st, c, walked + [OfAlarm(a)], cur')
  {
    LogGrows(st, c, walked, OfAlarm(a));
    SnocReleased(st, walked, OfAlarm(a));
    SnocDropped(st, walked, OfAlarm(a));
    assert ReleasedBy(st, walked + [OfAlarm(a)]) == ReleasedBy(st, walked);
  }

  lemma TellAwait(st: State, c: nat, walked: seq<TrigId>, w: nat, i: nat, cur: State, cur': State)
    requires Valid(st) && Live(st, c) && Exists(st, OfAwait(w, i))
    requires Told(st, c, walked, cur) && w in cur.awaits
    requires forall t :: t in walked ==> t in st.counters[c].triggers
    requires cur' == Release(cur, {w}).(log := cur.log + AwaitEvents(st.awaits[w], Dying(st.counters, c)))
    ensures Told(st, c, walked + [OfAwait(w, i)], cur')
  {
    LogGrows(st, c, walked, OfAwait(w, i));
    SnocReleased(st, walked, OfAwait(w, i));
    SnocDropped(st, walked, OfAwait(w, i));
    DroppedKept(st, c, walked);
    TellRelease(st, c, ReleasedBy(st, walked), AlarmsDropped(st, walked), cur, w);
  }

  lemma DroppedKept(st: State, c: nat, walked: seq<TrigId>)
    requires Valid(st) && Live(st, c)
    requires forall t :: t in walked ==> t in st.counters[c].triggers
    ensures OthersKept(st, c, AlarmsDropped(st, walked))
  {
    assert SoundList(st, c, st.counters[c].triggers);
  }

  lemma TellRelease(st: State, c: nat, out: set<nat>, alarms: map<nat, Alarm>, cur: State, w: nat)
    requires Valid(st) && Live(st, c)
    requires Elsewhere(st, c, out, alarms, cur) && OthersKept(st, c, alarms)
    requires w in cur.awaits && cur.counters[c].dying
    ensures forall log :: Elsewhere(st, c, out + {w}, alarms, Release(cur, {w}).(log := log))
    ensures Release(cur, {w}).counters[c] == cur.counters[c]
  {
    forall d | d in st.counters && d != c
      ensures Release(cur, {w}).counters[d] == Withdrawn(st, st.counters[d], TriggersOf(st, out + {w}))
    {
      ReleaseOther(st, c, out, alarms, cur, w, d);
    }
  }

  /** A trigger on another counter that is not released keeps its counter during the walk. */
  lemma ElsewhereKept(st: State, c: nat, out: set<nat>, alarms: map<nat, Alarm>, cur: State, d: nat, t: TrigId)
    requires Valid(st) && Elsewhere(st, c, out, alarms, cur) && OthersKept(st, c, alarms)
    requires Live(st, d) && d != c && t in st.counters[d].triggers && t !in TriggersOf(st, out)
    ensures Exists(cur, t) && TrigOf(cur, t).counter == Some(d)
  {
    assert SoundList(st, d, st.counters[d].triggers);
  }

  lemma ElsewhereSound(st: State, c: nat, out: set<nat>, alarms: map<nat, Alarm>, cur: State, d: nat)
    requires Valid(st) && Elsewhere(st, c, out, alarms, cur) && OthersKept(st, c, alarms)
    requires d in st.counters && d != c
    ensures cur.counters[d].dying == st.counters[d].dying
    ensures Live(st, d) ==> SoundList(cur, d, cur.counters[d].triggers)
  {
    var gone := TriggersOf(st, out);
    WithdrawnKeeps(st, st.counters[d], gone);
    if Live(st, d) {
      assert SoundList(st, d, st.counters[d].triggers);
      SurvivorsNoDuplicates(st.counters[d].triggers, gone);
      forall t | t in Survivors(st.counters[d].triggers, gone)
        ensures Exists(cur, t) && TrigOf(cur, t).counter == Some(d)
      {
        ElsewhereKept(st, c, out, alarms, cur, d, t);
      }
    }
  }

  /** The list invariant holds at every moment of the walk. */
  lemma ToldValid(st: State, c: nat, walked: seq<TrigId>, cur: State)
    requires Valid(st) && Live(st, c) && Told(st, c, walked, cur)
    requires forall t :: t in walked ==> t in st.counters[c].triggers
    ensures Valid(cur)
  {
    DroppedKept(st, c, walked);
    var out, alarms := ReleasedBy(st, walked), AlarmsDropped(st, walked);
    forall d | d in st.counters && d != c
      ensures cur.counters[d].dying == st.counters[d].dying
      ensures Live(cur, d) ==> SoundList(cur, d, cur.counters[d].triggers)
    {
      ElsewhereSound(st, c, out, alarms, cur, d);
    }
    forall w | w in cur.awaits ensures RegisteredAwait(cur, w) {
      ToldRegistered(st, c, walked, cur, w);
    }
  }

  lemma ToldRegistered(st: State, c: nat, walked: seq<TrigId>, cur: State, w: nat)
    requires Valid(st) && Live(st, c) && Told(st, c, walked, cur) && w in cur.awaits
    ensures RegisteredAwait(cur, w)
  {
    assert RegisteredAwait(st, w);
    forall i | 0 <= i < |cur.awaits[w].conds|
      ensures var k := cur.awaits[w].conds[i].trigger.counter;
              && k.Some? && k.value in cur.counters
              && (!cur.counters[k.value].dying ==> OfAwait(w, i) in cur.counters[k.value].triggers)
    {
      var k := cur.awaits[w].conds[i].trigger.counter.value;
      WithdrawnKeeps(st, st.counters[k], TriggersOf(st, ReleasedBy(st, walked)));
    }
  }

  /** The triggers not yet told are still there. */
  lemma NextIsThere(st: State, c: nat, walked: seq<TrigId>, rest: seq<TrigId>, cur: State, t: TrigId)
    requires Valid(st) && Live(st, c) && NamesOnce(st, c)
    requires st.counters[c].triggers == walked + rest && t in rest
    requires Told(st, c, walked, cur)
    ensures Exists(cur, t) && TrigOf(cur, t) == TrigOf(st, t)
  {
    assert SoundList(st, c, walked + rest);
    NotInBoth(walked, rest, t);
    assert t in walked + rest;
    forall x | x in walked ensures x in walked + rest {
    }
  }

  lemma TellEnd(st: State, c: nat, cur: State)
    requires c in st.counters && Told(st, c, st.counters[c].triggers, cur)
    ensures cur.(counters := cur.counters - {c}) == AfterDestroy(st, c)
  {
    assert (cur.counters - {c}).Keys == AfterDestroy(st, c).counters.Keys;
  }

  // ----- what the statement says

  /** A trigger on another counter that is not released keeps its counter. */
  lemma KeptTrigger(st: State, c: nat, d: nat, t: TrigId)
    requires Valid(st) && Live(st, c) && Live(st, d) && d != c
    requires t in st.counters[d].triggers && t !in TriggersOf(st, ReleasedBy(st, st.counters[c].triggers))
    ensures Exists(AfterDestroy(st, c), t) && TrigOf(AfterDestroy(st, c), t).counter == Some(d)
  {
    assert SoundList(st, c, st.counters[c].triggers);
    assert SoundList(st, d, st.counters[d].triggers);
  }

  lemma DestroyKeepsSound(st: State, c: nat, d: nat)
    requires Valid(st) && Live(st, c) && Live(st, d) && d != c
    ensures SoundList(AfterDestroy(st, c), d, AfterDestroy(st, c).counters[d].triggers)
  {
    var gone := TriggersOf(st, ReleasedBy(st, st.counters[c].triggers));
    var list := st.counters[d].triggers;
    WithdrawnKeeps(st, st.counters[d], gone);
    assert SoundList(st, d, list);
    SurvivorsNoDuplicates(list, gone);
    forall t | t in Survivors(list, gone)
      ensures Exists(AfterDestroy(st, c), t) && TrigOf(AfterDestroy(st, c), t).counter == Some(d)
    {
      KeptTrigger(st, c, d, t);
    }
  }

  lemma DestroyKeepsRegistered(st: State, c: nat, w: nat)
    requires Valid(st) && Live(st, c) && w in AfterDestroy(st, c).awaits
    ensures RegisteredAwait(AfterDestroy(st, c), w)
  {
    var r := AfterDestroy(st, c);
    var gone := TriggersOf(st, ReleasedBy(st, st.counters[c].triggers));
    assert RegisteredAwait(st, w);
    forall i | 0 <= i < |r.awaits[w].conds|
      ensures var k := r.awaits[w].conds[i].trigger.counter;
              && k.Some? && k.value in r.counters
              && (!r.counters[k.value].dying ==> OfAwait(w, i) in r.counters[k.value].triggers)
    {
      WithdrawnKeeps(st, st.counters[r.awaits[w].conds[i].trigger.counter.value], gone);
    }
  }

  /** The list invariant survives: no trigger of a released await is left on any surviving counter,
      and no alarm of its list names the destroyed one. */
  lemma DestroyKeepsValid(st: State, c: nat)
    requires Valid(st) && Live(st, c)
    ensures Valid(AfterDestroy(st, c))
  {
    var r := AfterDestroy(st, c);
    forall d | Live(r, d) ensures SoundList(r, d, r.counters[d].triggers) {
      WithdrawnKeeps(st, st.counters[d], TriggersOf(st, ReleasedBy(st, st.counters[c].triggers)));
      DestroyKeepsSound(st, c, d);
    }
    forall w | w in r.awaits ensures RegisteredAwait(r, w) {
      DestroyKeepsRegistered(st, c, w);
    }
  }

  /** Exactly the awaits that name the counter are released, and exactly its alarms are dropped. */
  lemma DestroyedExactly(st: State, c: nat, w: nat, a: nat)
    requires Valid(st) && Live(st, c)
    ensures var r := AfterDestroy(st, c);
            && (w in st.awaits ==>
                  if exists i :: 0 <= i < |st.awaits[w].conds| && st.awaits[w].conds[i].trigger.counter == Some(c)
                  then w !in r.awaits
                       && forall d, i :: d in r.counters && !r.counters[d].dying ==>
                            OfAwait(w, i) !in r.counters[d].triggers
                  else w in r.awaits && r.awaits[w] == st.awaits[w])
            && (a in st.alarms && OfAlarm(a) in st.counters[c].triggers ==>
                  r.alarms[a].state == Inactive && r.alarms[a].trigger.counter == None)
            && (a in st.alarms && st.alarms[a].trigger.counter != Some(c) ==> r.alarms[a] == st.alarms[a])
  {
    var r := AfterDestroy(st, c);
    var list := st.counters[c].triggers;
    assert SoundList(st, c, list);
    DestroyKeepsValid(st, c);
    if w in st.awaits {
      assert RegisteredAwait(st, w);
      forall i: nat | i < |st.awaits[w].conds| && st.awaits[w].conds[i].trigger.counter == Some(c)
        ensures OfAwait(w, i) in list
      {
      }
      if w !in r.awaits {
        forall d, i | d in r.counters && !r.counters[d].dying
          ensures OfAwait(w, i) !in r.counters[d].triggers
        {
          assert SoundList(r, d, r.counters[d].triggers);
        }
      }
    }
  }

  /** Every released await unblocks its client exactly once. */
  lemma {:induction false} LossAttends(st: State, c: nat, list: seq<TrigId>, client: nat)
    requires c in st.counters && OnePerAwait(list)
    requires forall t :: t in list ==> Exists(st, t)
    ensures Attends(LossAlong(st, c, list), client) == |OfClient(st, ReleasedBy(st, list), client)|
  {
    if list == [] {
      assert OfClient(st, ReleasedBy(st, []), client) == {};
    } else {
      var walked, t := list[..|list| - 1], list[|list| - 1];
      assert list == walked + [t];
      forall x | x in walked ensures x in list { }
      LossAttends(st, c, walked, client);
      LogGrows(st, c, walked, t);
      LossStep(st, c, walked, t, client);
      AttendsConcat(LossAlong(st, c, walked), LossOf(st, c, t), client);
    }
  }

  lemma LossStep(st: State, c: nat, walked: seq<TrigId>, t: TrigId, client: nat)
    requires c in st.counters && Exists(st, t)
    requires t.OfAwait? ==> forall i :: OfAwait(t.await, i) !in walked
    ensures Attends(LossOf(st, c, t), client) + |OfClient(st, ReleasedBy(st, walked), client)|
      == |OfClient(st, ReleasedBy(st, walked + [t]), client)|
  {
    SnocReleased(st, walked, t);
    var before, after := ReleasedBy(st, walked), ReleasedBy(st, walked + [t]);
    if t.OfAwait? {
      AwaitAttendsOnce(st.awaits[t.await], Dying(st.counters, c), client);
      assert t.await !in before;
      OneMoreOfClient(st, before, t.await, client);
    } else {
      assert before == after;
    }
  }

  lemma DestroyUnblocksOnce(st: State, c: nat, client: nat)
    requires Valid(st) && Live(st, c) && NamesOnce(st, c)
    ensures Attends(AfterDestroy(st, c).log, client)
      == Attends(st.log, client)
         + |set w | w in st.awaits && w !in AfterDestroy(st, c).awaits && st.awaits[w].client == client|
  {
    var list := st.counters[c].triggers;
    assert SoundList(st, c, list);
    ListOnePerAwait(st, c, list);
    LossAttends(st, c, list, client);
    AttendsConcat(st.log, LossAlong(st, c, list), client);
    assert (set w | w in st.awaits && w !in AfterDestroy(st, c).awaits && st.awaits[w].client == client)
      == OfClient(st, ReleasedBy(st, list), client);
  }
}
