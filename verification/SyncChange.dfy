/** What changing a counter does to the whole extension, stated without any order of events, and
    the lemmas that take a walk along the trigger list to that statement. */
module SyncChange {
  import opened Options
  import opened SyncValues
  import opened SyncModel
  import opened SyncBrackets
  import SyncAlarm

  // ----- the trigger lists

  ghost predicate SoundList(st: State, c: nat, list: seq<TrigId>) {
    && NoDuplicates(list)
    && forall t :: t in list ==> Exists(st, t) && TrigOf(st, t).counter == Some(c)
  }

  /** A trigger is on a list at most once, and only on the list of the counter it names: so it is on
      at most one list. */
  ghost predicate Sound(st: State) {
    forall c :: c in st.counters && !st.counters[c].dying ==> SoundList(st, c, st.counters[c].triggers)
  }

  ghost predicate RegisteredAwait(st: State, w: nat)
    requires w in st.awaits
  {
    forall i :: 0 <= i < |st.awaits[w].conds| ==>
      var c := st.awaits[w].conds[i].trigger.counter;
      && c.Some? && c.value in st.counters
      && (!st.counters[c.value].dying ==> OfAwait(w, i) in st.counters[c.value].triggers)
  }

  /** Every condition of a pending await is on the list of the counter it names. */
  ghost predicate Registered(st: State) {
    forall w :: w in st.awaits ==> RegisteredAwait(st, w)
  }

  ghost predicate Valid(st: State) {
    Sound(st) && Registered(st)
  }

  function TrigData(st: State, list: seq<TrigId>): (r: seq<Trigger>)
    ensures |r| == |list| && forall i :: 0 <= i < |r| ==> r[i] == TrigOf(st, list[i])
  {
    seq(|list|, i requires 0 <= i < |list| => TrigOf(st, list[i]))
  }

  /** The counter with its brackets computed again; without system information there are none. */
  function Bracketed(st: State, cnt: Counter): Counter
  {
    match cnt.system
    case None => cnt
    case Some(si) => cnt.(system := Some(Recomputed(si, cnt.value, TrigData(st, cnt.triggers))))
  }

  /** A counter that loses the triggers in `gone`. A dying counter keeps its list, and a list that
      loses nothing keeps its brackets. */
  function Withdrawn(st: State, cnt: Counter, gone: set<TrigId>): Counter
  {
    if cnt.dying || (forall t :: t in cnt.triggers ==> t !in gone) then cnt
    else Bracketed(st, cnt.(triggers := Survivors(cnt.triggers, gone)))
  }

  function TriggersOf(st: State, ws: set<nat>): set<TrigId> {
    set w, i | w in ws && w in st.awaits && 0 <= i < |st.awaits[w].conds| :: OfAwait(w, i)
  }

  /** Some awaits are freed: their triggers leave every list and they leave the resource table. */
  function Release(st: State, ws: set<nat>): State {
    var gone := TriggersOf(st, ws);
    st.(counters := map d | d in st.counters :: Withdrawn(st, st.counters[d], gone),
        awaits := st.awaits - ws)
  }

  lemma BracketedAgree(st: State, st': State, cnt: Counter)
    requires forall t :: t in cnt.triggers ==> TrigOf(st, t) == TrigOf(st', t)
    ensures Bracketed(st, cnt) == Bracketed(st', cnt)
  {
    forall i | 0 <= i < |cnt.triggers|
      ensures TrigOf(st, cnt.triggers[i]) == TrigOf(st', cnt.triggers[i])
    {
      assert cnt.triggers[i] in cnt.triggers;
    }
    assert TrigData(st, cnt.triggers) == TrigData(st', cnt.triggers);
  }

  lemma BracketedTwice(st: State, st': State, cnt: Counter, list: seq<TrigId>)
    ensures Bracketed(st', Bracketed(st, cnt).(triggers := list)) == Bracketed(st', cnt.(triggers := list))
  {
  }

  predicate Loses(cnt: Counter, gone: set<TrigId>) {
    !cnt.dying && exists t :: t in cnt.triggers && t in gone
  }

  lemma WithdrawnSecond(st: State, st': State, cnt: Counter, g: set<TrigId>, h: set<TrigId>)
    requires Loses(cnt, g)
    requires forall t :: t in cnt.triggers && t !in g ==> TrigOf(st, t) == TrigOf(st', t)
    ensures Withdrawn(st', Withdrawn(st, cnt, g), h) == Withdrawn(st, cnt, g + h)
  {
    var list := Survivors(cnt.triggers, g);
    SurvivorsTwice(cnt.triggers, g, h);
    assert Withdrawn(st, cnt, g) == Bracketed(st, cnt.(triggers := list));
    assert Loses(cnt, g + h);
    if forall t :: t in list ==> t !in h {
      SurvivorsAll(list, h);
    } else {
      BracketedTwice(st, st', cnt.(triggers := list), Survivors(list, h));
      BracketedAgree(st, st', cnt.(triggers := Survivors(list, h)));
    }
  }

  /** Withdrawing in two steps is withdrawing at once: only the last list decides the brackets. */
  lemma WithdrawnTwice(st: State, st': State, cnt: Counter, g: set<TrigId>, h: set<TrigId>)
    requires !cnt.dying ==> forall t :: t in cnt.triggers && t !in g ==> TrigOf(st, t) == TrigOf(st', t)
    ensures Withdrawn(st', Withdrawn(st, cnt, g), h) == Withdrawn(st, cnt, g + h)
  {
    if Loses(cnt, g) {
      WithdrawnSecond(st, st', cnt, g, h);
    } else if !cnt.dying {
      SurvivorsAgree(cnt.triggers, h, g + h);
      BracketedAgree(st, st', cnt.(triggers := Survivors(cnt.triggers, h)));
    }
  }

  // ----- the effect of a new value

  /** The trigger is true when the counter `c` goes to `v`. */
  predicate GoesTrue(st: State, c: nat, v: Int64, t: TrigId)
    requires c in st.counters
  {
    Check(TrigOf(st, t), st.counters[c].value, v)
  }

  /** The awaits with a true condition among `walked`. */
  ghost function UnblockedBy(st: State, c: nat, v: Int64, walked: seq<TrigId>): set<nat>
    requires c in st.counters
  {
    set w | w in st.awaits && exists i :: OfAwait(w, i) in walked && GoesTrue(st, c, v, OfAwait(w, i))
  }

  ghost function AlarmsAfter(st: State, c: nat, v: Int64, walked: seq<TrigId>): map<nat, Alarm>
    requires c in st.counters
  {
    map a | a in st.alarms ::
      if OfAlarm(a) in walked && GoesTrue(st, c, v, OfAlarm(a)) then AlarmFired(st.alarms[a], v)
      else st.alarms[a]
  }

  function WithValue(counters: map<nat, Counter>, c: nat, v: Int64): map<nat, Counter>
    requires c in counters
  {
    counters[c := counters[c].(value := v)]
  }

  /** What one trigger sends when the counter goes to `v`. */
  function EventsOf(st: State, c: nat, v: Int64, t: TrigId): seq<Event>
    requires c in st.counters
  {
    if !Exists(st, t) || !GoesTrue(st, c, v, t) then []
    else
      match t
      case OfAlarm(a) => AlarmEvents(a, st.alarms[a], v)
      case OfAwait(w, i) => AwaitEvents(st.awaits[w], WithValue(st.counters, c, v))
  }

  function EventsAlong(st: State, c: nat, v: Int64, walked: seq<TrigId>): seq<Event>
    requires c in st.counters
  {
    if walked == [] then []
    else
      var n := |walked| - 1;
      EventsAlong(st, c, v, walked[..n]) + EventsOf(st, c, v, walked[n])
  }

  ghost predicate Live(st: State, c: nat) {
    c in st.counters && !st.counters[c].dying
  }

  /** The counters without `gone`; the new value of `c` is in place, its brackets are old. */
  ghost function CountersAfter(st: State, c: nat, v: Int64, gone: set<TrigId>): map<nat, Counter>
    requires c in st.counters
  {
    map d | d in st.counters ::
      if d == c then st.counters[c].(value := v, triggers := Survivors(st.counters[c].triggers, gone))
      else Withdrawn(st, st.counters[d], gone)
  }

  /** The state after the counter `c` was changed to `v`. */
  ghost function AfterChange(st: State, c: nat, v: Int64): State
    requires c in st.counters
  {
    var list := st.counters[c].triggers;
    var out := UnblockedBy(st, c, v, list);
    var r := State(CountersAfter(st, c, v, TriggersOf(st, out)),
                   AlarmsAfter(st, c, v, list),
                   st.awaits - out,
                   st.log + EventsAlong(st, c, v, list));
    r.(counters := r.counters[c := Bracketed(r, r.counters[c])])
  }

  // ----- the walk

  /** Away from `c`, `cur` differs from `st` by the release of `out` and by these alarms. */
  ghost predicate Elsewhere(st: State, c: nat, out: set<nat>, alarms: map<nat, Alarm>, cur: State) {
    && cur.awaits == st.awaits - out
    && cur.alarms == alarms
    && cur.counters.Keys == st.counters.Keys
    && (forall d :: d in st.counters && d != c ==>
          cur.counters[d] == Withdrawn(st, st.counters[d], TriggersOf(st, out)))
  }

  /** Besides, the log has grown and `c` has its new value. The brackets of `c` itself are not fixed
      until the walk is over. */
  ghost predicate Reached(st: State, c: nat, v: Int64, out: set<nat>, alarms: map<nat, Alarm>,
                          log: seq<Event>, cur: State)
    requires c in st.counters
  {
    && Elsewhere(st, c, out, alarms, cur)
    && cur.log == log
    && SameButBrackets(cur.counters[c],
         st.counters[c].(value := v, triggers := Survivors(st.counters[c].triggers, TriggersOf(st, out))))
  }

  /** `cur` is the state when the prefix `walked` of the list of `c` has been walked. */
  ghost predicate Walked(st: State, c: nat, v: Int64, walked: seq<TrigId>, cur: State)
    requires c in st.counters
  {
    Reached(st, c, v, UnblockedBy(st, c, v, walked), AlarmsAfter(st, c, v, walked),
            st.log + EventsAlong(st, c, v, walked), cur)
  }

  predicate SameButBrackets(a: Counter, b: Counter) {
    && a.value == b.value && a.triggers == b.triggers && a.dying == b.dying
    && a.system.Some? == b.system.Some?
    && (a.system.Some? ==> a.system.value.counterType == b.system.value.counterType)
    && (a.system.Some? && a.system.value.counterType == NeverChanges ==> a.system == b.system)
  }

  /** No await names the counter twice. */
  ghost predicate NamesOnce(st: State, c: nat) {
    forall w :: w in st.awaits ==>
      forall i, j :: 0 <= i < j < |st.awaits[w].conds| ==>
        !(st.awaits[w].conds[i].trigger.counter == Some(c) && st.awaits[w].conds[j].trigger.counter == Some(c))
  }

  /** A trigger not yet walked does not belong to an await released so far. */
  lemma NextNotReleased(st: State, c: nat, v: Int64, walked: seq<TrigId>, rest: seq<TrigId>, t: TrigId)
    requires Valid(st) && Live(st, c) && NamesOnce(st, c)
    requires st.counters[c].triggers == walked + rest && t in rest
    ensures Exists(st, t) && t !in walked && t !in TriggersOf(st, UnblockedBy(st, c, v, walked))
  {
    assert SoundList(st, c, walked + rest);
    NotInBoth(walked, rest, t);
    assert t in walked + rest;
    forall x | x in walked ensures x in walked + rest {
    }
  }

  /** A trigger not yet walked is still there, unchanged, and still on the list. */
  lemma NextIsIntact(st: State, c: nat, v: Int64, walked: seq<TrigId>, rest: seq<TrigId>, cur: State, t: TrigId)
    requires Valid(st) && Live(st, c) && NamesOnce(st, c)
    requires st.counters[c].triggers == walked + rest && t in rest
    requires Walked(st, c, v, walked, cur)
    ensures Exists(cur, t) && TrigOf(cur, t) == TrigOf(st, t)
    ensures t !in walked && t !in TriggersOf(st, UnblockedBy(st, c, v, walked))
  {
    NextNotReleased(st, c, v, walked, rest, t);
  }

  lemma NotInBoth(a: seq<TrigId>, b: seq<TrigId>, t: TrigId)
    requires NoDuplicates(a + b) && t in b
    ensures t !in a
  {
    var j :| 0 <= j < |b| && b[j] == t;
    forall i | 0 <= i < |a| ensures a[i] != t {
      assert (a + b)[i] != (a + b)[|a| + j];
    }
  }

  lemma RestIntact(st: State, c: nat, v: Int64, walked: seq<TrigId>, rest: seq<TrigId>, cur: State)
    requires Valid(st) && Live(st, c) && NamesOnce(st, c)
    requires st.counters[c].triggers == walked + rest
    requires Walked(st, c, v, walked, cur)
    ensures cur.counters[c].triggers
            == Survivors(walked, TriggersOf(st, UnblockedBy(st, c, v, walked))) + rest
  {
    var gone := TriggersOf(st, UnblockedBy(st, c, v, walked));
    forall t | t in rest ensures t !in gone {
      NextIsIntact(st, c, v, walked, rest, cur, t);
    }
    SurvivorsConcat(walked, rest, gone);
    SurvivorsAll(rest, gone);
  }

  lemma WalkStart(st: State, c: nat, v: Int64)
    requires c in st.counters
    ensures Walked(st, c, v, [], st.(counters := WithValue(st.counters, c, v)))
  {
    assert UnblockedBy(st, c, v, []) == {};
    assert TriggersOf(st, {}) == {};
    SurvivorsAll(st.counters[c].triggers, {});
    assert st.awaits - {} == st.awaits;
    assert AlarmsAfter(st, c, v, []) == st.alarms;
  }

  lemma Snoc(st: State, c: nat, v: Int64, walked: seq<TrigId>, t: TrigId)
    requires c in st.counters
    ensures EventsAlong(st, c, v, walked + [t]) == EventsAlong(st, c, v, walked) + EventsOf(st, c, v, t)
  {
    assert (walked + [t])[..|walked|] == walked;
  }

  lemma SnocUnblocked(st: State, c: nat, v: Int64, walked: seq<TrigId>, t: TrigId)
    requires c in st.counters && Exists(st, t)
    ensures UnblockedBy(st, c, v, walked + [t]) == UnblockedBy(st, c, v, walked)
              + if t.OfAwait? && GoesTrue(st, c, v, t) then {t.await} else {}
  {
    var before, after := UnblockedBy(st, c, v, walked), UnblockedBy(st, c, v, walked + [t]);
    forall w | w in before ensures w in after {
      var i :| OfAwait(w, i) in walked && GoesTrue(st, c, v, OfAwait(w, i));
      assert OfAwait(w, i) in walked + [t];
    }
    assert t in walked + [t];
  }

  lemma SnocAlarms(st: State, c: nat, v: Int64, walked: seq<TrigId>, t: TrigId)
    requires c in st.counters && Exists(st, t)
    ensures AlarmsAfter(st, c, v, walked + [t])
      == if t.OfAlarm? && GoesTrue(st, c, v, t)
         then AlarmsAfter(st, c, v, walked)[t.alarm := AlarmFired(st.alarms[t.alarm], v)]
         else AlarmsAfter(st, c, v, walked)
  {
  }

  lemma LogGrows(st: State, c: nat, v: Int64, walked: seq<TrigId>, t: TrigId)
    requires c in st.counters
    ensures st.log + EventsAlong(st, c, v, walked + [t])
      == (st.log + EventsAlong(st, c, v, walked)) + EventsOf(st, c, v, t)
  {
    Snoc(st, c, v, walked, t);
  }

  /** A trigger that is not true changes nothing. */
  lemma WalkPast(st: State, c: nat, v: Int64, walked: seq<TrigId>, t: TrigId, cur: State)
    requires c in st.counters && Exists(st, t)
    requires Walked(st, c, v, walked, cur)
    requires !GoesTrue(st, c, v, t)
    ensures Walked(st, c, v, walked + [t], cur)
  {
    LogGrows(st, c, v, walked, t);
    SnocUnblocked(st, c, v, walked, t);
    SnocAlarms(st, c, v, walked, t);
    assert UnblockedBy(st, c, v, walked + [t]) == UnblockedBy(st, c, v, walked);
  }

  /** An alarm that goes off changes itself and the log. */
  lemma WalkAlarm(st: State, c: nat, v: Int64, walked: seq<TrigId>, a: nat, cur: State, cur': State)
    requires c in st.counters && a in st.alarms
    requires Walked(st, c, v, walked, cur)
    requires GoesTrue(st, c, v, OfAlarm(a))
    requires cur' == cur.(alarms := cur.alarms[a := AlarmFired(st.alarms[a], v)],
                          log := cur.log + AlarmEvents(a, st.alarms[a], v))
    ensures Walked(st, c, v, walked + [OfAlarm(a)], cur')
  {
    LogGrows(st, c, v, walked, OfAlarm(a));
    SnocUnblocked(st, c, v, walked, OfAlarm(a));
    SnocAlarms(st, c, v, walked, OfAlarm(a));
    assert UnblockedBy(st, c, v, walked + [OfAlarm(a)]) == UnblockedBy(st, c, v, walked);
  }

  lemma TriggersOfUnion(st: State, g: set<nat>, h: set<nat>)
    ensures TriggersOf(st, g + h) == TriggersOf(st, g) + TriggersOf(st, h)
  {
  }

  /** The release of one more await, as seen from one counter's list. */
  lemma ReleaseOther(st: State, c: nat, out: set<nat>, alarms: map<nat, Alarm>, cur: State, w: nat, d: nat)
    requires Valid(st)
    requires Elsewhere(st, c, out, alarms, cur) && OthersKept(st, c, alarms)
    requires w in cur.awaits && d in st.counters && d != c
    ensures Release(cur, {w}).counters[d] == Withdrawn(st, st.counters[d], TriggersOf(st, out + {w}))
  {
    TriggersOfUnion(st, out, {w});
    assert TriggersOf(cur, {w}) == TriggersOf(st, {w});
    OthersIntact(st, c, out, alarms, cur, d);
    WithdrawnTwice(st, cur, st.counters[d], TriggersOf(st, out), TriggersOf(st, {w}));
  }

  lemma ReleaseSelf(st: State, c: nat, v: Int64, out: set<nat>, alarms: map<nat, Alarm>,
                    log: seq<Event>, cur: State, w: nat)
    requires Valid(st) && Live(st, c)
    requires Reached(st, c, v, out, alarms, log, cur)
    requires w in cur.awaits
    ensures SameButBrackets(Release(cur, {w}).counters[c],
              st.counters[c].(value := v,
                              triggers := Survivors(st.counters[c].triggers, TriggersOf(st, out + {w}))))
  {
    TriggersOfUnion(st, out, {w});
    assert TriggersOf(cur, {w}) == TriggersOf(st, {w});
    SurvivorsTwice(st.counters[c].triggers, TriggersOf(st, out), TriggersOf(st, {w}));
    WithdrawnList(cur, c, TriggersOf(st, {w}));
  }

  /** An await whose condition became true is released from every list. */
  lemma WalkAwait(st: State, c: nat, v: Int64, walked: seq<TrigId>, w: nat, i: nat, cur: State, cur': State)
    requires Valid(st) && Live(st, c) && Exists(st, OfAwait(w, i))
    requires Walked(st, c, v, walked, cur)
    requires w in cur.awaits && GoesTrue(st, c, v, OfAwait(w, i))
    requires forall t :: t in walked ==> t in st.counters[c].triggers
    requires cur' == Release(cur, {w}).(log := cur.log + AwaitEvents(st.awaits[w], WithValue(st.counters, c, v)))
    ensures Walked(st, c, v, walked + [OfAwait(w, i)], cur')
  {
    var t := OfAwait(w, i);
    LogGrows(st, c, v, walked, t);
    SnocUnblocked(st, c, v, walked, t);
    SnocAlarms(st, c, v, walked, t);
    var out := UnblockedBy(st, c, v, walked);
    var alarms := AlarmsAfter(st, c, v, walked);
    KeptByWalk(st, c, v, walked);
    WalkRelease(st, c, v, out, alarms, cur, w);
  }

  lemma WalkRelease(st: State, c: nat, v: Int64, out: set<nat>, alarms: map<nat, Alarm>, cur: State, w: nat)
    requires Valid(st) && Live(st, c)
    requires Reached(st, c, v, out, alarms, cur.log, cur) && OthersKept(st, c, alarms)
    requires w in cur.awaits
    ensures forall log :: Reached(st, c, v, out + {w}, alarms, log, Release(cur, {w}).(log := log))
  {
    forall d | d in st.counters && d != c
      ensures Release(cur, {w}).counters[d] == Withdrawn(st, st.counters[d], TriggersOf(st, out + {w}))
    {
      ReleaseOther(st, c, out, alarms, cur, w, d);
    }
    ReleaseSelf(st, c, v, out, alarms, cur.log, cur, w);
  }

  lemma WithdrawnList(cur: State, c: nat, h: set<TrigId>)
    requires Live(cur, c)
    ensures SameButBrackets(Withdrawn(cur, cur.counters[c], h),
                            cur.counters[c].(triggers := Survivors(cur.counters[c].triggers, h)))
  {
    if forall t :: t in cur.counters[c].triggers ==> t !in h {
      SurvivorsAll(cur.counters[c].triggers, h);
    }
  }

  /** The alarms of other counters are as they were. */
  ghost predicate OthersKept(st: State, c: nat, alarms: map<nat, Alarm>) {
    && alarms.Keys == st.alarms.Keys
    && forall a :: a in st.alarms && st.alarms[a].trigger.counter != Some(c) ==> alarms[a] == st.alarms[a]
  }

  lemma KeptByWalk(st: State, c: nat, v: Int64, walked: seq<TrigId>)
    requires Valid(st) && Live(st, c)
    requires forall t :: t in walked ==> t in st.counters[c].triggers
    ensures OthersKept(st, c, AlarmsAfter(st, c, v, walked))
  {
    assert SoundList(st, c, st.counters[c].triggers);
  }

  /** The triggers on another counter's list keep their contents during the walk. */
  lemma OthersIntact(st: State, c: nat, out: set<nat>, alarms: map<nat, Alarm>, cur: State, d: nat)
    requires Valid(st)
    requires Elsewhere(st, c, out, alarms, cur) && OthersKept(st, c, alarms)
    requires d in st.counters && d != c
    ensures !st.counters[d].dying ==>
              forall t :: t in st.counters[d].triggers && t !in TriggersOf(st, out) ==>
                TrigOf(st, t) == TrigOf(cur, t)
  {
    if !st.counters[d].dying {
      assert SoundList(st, d, st.counters[d].triggers);
    }
  }

  /** When the whole list is walked and the brackets are computed, the statement is reached. */
  lemma WalkEnd(st: State, c: nat, v: Int64, cur: State)
    requires c in st.counters
    requires Walked(st, c, v, st.counters[c].triggers, cur)
    ensures cur.(counters := cur.counters[c := Bracketed(cur, cur.counters[c])]) == AfterChange(st, c, v)
  {
    var list := st.counters[c].triggers;
    var out := UnblockedBy(st, c, v, list);
    var counters := CountersAfter(st, c, v, TriggersOf(st, out));
    var r := State(counters, cur.alarms, cur.awaits, cur.log);
    BracketedAgree(cur, r, cur.counters[c]);
    BracketsForgotten(r, cur.counters[c], counters[c]);
    assert cur.counters[c := Bracketed(r, counters[c])] == counters[c := Bracketed(r, counters[c])];
  }

  lemma BracketsForgotten(st: State, a: Counter, b: Counter)
    requires SameButBrackets(a, b)
    ensures Bracketed(st, a) == Bracketed(st, b)
  {
  }

  // ----- what the statement says

  /** `r` keeps the lists of `st` except for the awaits in `out`. */
  ghost predicate KeepsLists(st: State, r: State, out: set<nat>) {
    && r.awaits == st.awaits - out
    && r.counters.Keys == st.counters.Keys
    && (forall d :: d in st.counters ==>
          && r.counters[d].dying == st.counters[d].dying
          && (!st.counters[d].dying ==>
                r.counters[d].triggers == Survivors(st.counters[d].triggers, TriggersOf(st, out))))
    && r.alarms.Keys == st.alarms.Keys
    && (forall a :: a in st.alarms ==> r.alarms[a].trigger.counter == st.alarms[a].trigger.counter)
  }

  lemma KeepsSound(st: State, r: State, out: set<nat>)
    requires Valid(st) && KeepsLists(st, r, out)
    ensures Valid(r)
  {
    forall d | d in r.counters && !r.counters[d].dying
      ensures SoundList(r, d, r.counters[d].triggers)
    {
      assert SoundList(st, d, st.counters[d].triggers);
      SurvivorsNoDuplicates(st.counters[d].triggers, TriggersOf(st, out));
    }
    forall w | w in r.awaits
      ensures RegisteredAwait(r, w)
    {
      assert RegisteredAwait(st, w);
    }
  }

  lemma WithdrawnKeeps(st: State, cnt: Counter, gone: set<TrigId>)
    ensures var r := Withdrawn(st, cnt, gone);
            && r.dying == cnt.dying && r.value == cnt.value && r.system.Some? == cnt.system.Some?
            && (!cnt.dying ==> r.triggers == Survivors(cnt.triggers, gone))
  {
    if forall t :: t in cnt.triggers ==> t !in gone {
      SurvivorsAll(cnt.triggers, gone);
    }
  }

  lemma ChangeKeepsLists(st: State, c: nat, v: Int64)
    requires Live(st, c)
    ensures KeepsLists(st, AfterChange(st, c, v), UnblockedBy(st, c, v, st.counters[c].triggers))
  {
    var out := UnblockedBy(st, c, v, st.counters[c].triggers);
    var r := AfterChange(st, c, v);
    forall d | d in st.counters
      ensures && r.counters[d].dying == st.counters[d].dying
              && (!st.counters[d].dying ==>
                    r.counters[d].triggers == Survivors(st.counters[d].triggers, TriggersOf(st, out)))
    {
      ChangeKeepsList(st, c, v, d);
    }
    ChangeKeepsNames(st, c, v);
    assert r.counters.Keys == st.counters.Keys;
  }

  lemma ChangeKeepsList(st: State, c: nat, v: Int64, d: nat)
    requires Live(st, c) && d in st.counters
    ensures var r, gone := AfterChange(st, c, v), TriggersOf(st, UnblockedBy(st, c, v, st.counters[c].triggers));
            && d in r.counters && r.counters[d].dying == st.counters[d].dying
            && (!st.counters[d].dying ==> r.counters[d].triggers == Survivors(st.counters[d].triggers, gone))
  {
    WithdrawnKeeps(st, st.counters[d], TriggersOf(st, UnblockedBy(st, c, v, st.counters[c].triggers)));
  }

  lemma ChangeKeepsNames(st: State, c: nat, v: Int64)
    requires c in st.counters
    ensures var r := AfterChange(st, c, v);
            r.alarms.Keys == st.alarms.Keys
            && forall a :: a in st.alarms ==> r.alarms[a].trigger.counter == st.alarms[a].trigger.counter
  {
  }

  /** The list invariant survives every change of a counter. */
  lemma ChangeKeepsValid(st: State, c: nat, v: Int64)
    requires Valid(st) && Live(st, c)
    ensures Valid(AfterChange(st, c, v))
  {
    ChangeKeepsLists(st, c, v);
    KeepsSound(st, AfterChange(st, c, v), UnblockedBy(st, c, v, st.counters[c].triggers));
  }

  /** Condition `i` of await `w` names `c` and becomes true when `c` goes to `v`. */
  predicate Satisfied(st: State, c: nat, v: Int64, w: nat, i: nat)
    requires c in st.counters
  {
    && w in st.awaits && i < |st.awaits[w].conds|
    && st.awaits[w].conds[i].trigger.counter == Some(c)
    && Holds(st.awaits[w].conds[i].trigger.check, st.awaits[w].conds[i].trigger.testValue, st.counters[c].value, v)
  }

  /** Exactly the awaits with a satisfied condition are gone afterwards, with all their conditions
      off every list; every other await is untouched. */
  lemma ReleasedExactly(st: State, c: nat, v: Int64, w: nat)
    requires Valid(st) && Live(st, c) && w in st.awaits
    ensures var r := AfterChange(st, c, v);
            if exists i :: Satisfied(st, c, v, w, i)
            then w !in r.awaits
                 && (forall d, i :: d in r.counters && !r.counters[d].dying ==>
                          OfAwait(w, i) !in r.counters[d].triggers)
            else w in r.awaits && r.awaits[w] == st.awaits[w]
                 && (forall d, i :: d in st.counters && !st.counters[d].dying
                                  && OfAwait(w, i) in st.counters[d].triggers
                       ==> OfAwait(w, i) in r.counters[d].triggers)
  {
    var list := st.counters[c].triggers;
    UnblockedMeaning(st, c, v, w);
    ChangeKeepsLists(st, c, v);
    ChangeKeepsValid(st, c, v);
    var r := AfterChange(st, c, v);
    if w !in r.awaits {
      forall d, i | d in r.counters && !r.counters[d].dying
        ensures OfAwait(w, i) !in r.counters[d].triggers
      {
        assert SoundList(r, d, r.counters[d].triggers);
      }
    }
  }

  lemma UnblockedMeaning(st: State, c: nat, v: Int64, w: nat)
    requires Valid(st) && Live(st, c) && w in st.awaits
    ensures w in UnblockedBy(st, c, v, st.counters[c].triggers) <==> exists i :: Satisfied(st, c, v, w, i)
  {
    var list := st.counters[c].triggers;
    assert SoundList(st, c, list) && RegisteredAwait(st, w);
    forall i | OfAwait(w, i) in list && GoesTrue(st, c, v, OfAwait(w, i))
      ensures Satisfied(st, c, v, w, i)
    {
    }
    forall i: nat | Satisfied(st, c, v, w, i)
      ensures OfAwait(w, i) in list && GoesTrue(st, c, v, OfAwait(w, i))
    {
      assert st.awaits[w].conds[i].trigger.counter == Some(c);
    }
  }

  /** The alarm would not go off again while the counter stands at `v`. */
  predicate Settled(al: Alarm, v: Int64) {
    al.state == Active ==> !Holds(al.trigger.check, al.trigger.testValue, v, v)
  }

  /** An alarm that goes off ends Inactive or false; and it stays on its counter. */
  lemma FiredSettles(al: Alarm, v: Int64)
    requires Advances(al) && (IsComparison(al.trigger.check) ==> Holds(al.trigger.check, al.trigger.testValue, v, v))
    ensures Settled(AlarmFired(al, v), v)
    ensures AlarmFired(al, v).trigger.counter == al.trigger.counter
  {
    var t := al.trigger;
    if al.state == Active && al.delta != 0 && IsComparison(t.check) && SyncAlarm.SignAgrees(t.check, al.delta) {
      SyncAlarm.ComparisonAdvance(t.check, t.testValue, al.delta, v);
    }
  }

  /** Every alarm left on `c` is Inactive or false at `v`; every other alarm is untouched. */
  lemma AlarmsSettle(st: State, c: nat, v: Int64, a: nat)
    requires Valid(st) && Live(st, c) && a in st.alarms
    requires OfAlarm(a) in st.counters[c].triggers ==> Advances(st.alarms[a])
    ensures var r := AfterChange(st, c, v);
            && a in r.alarms
            && (if OfAlarm(a) in r.counters[c].triggers then Settled(r.alarms[a], v)
                else r.alarms[a] == st.alarms[a])
  {
    ChangeKeepsLists(st, c, v);
    assert SoundList(st, c, st.counters[c].triggers);
    if OfAlarm(a) in st.counters[c].triggers && GoesTrue(st, c, v, OfAlarm(a)) {
      FiredSettles(st.alarms[a], v);
    }
  }

  function Attends(log: seq<Event>, client: nat): nat {
    if log == [] then 0
    else (if log[0] == Attend(client) then 1 else 0) + Attends(log[1..], client)
  }

  lemma {:induction false} AttendsConcat(a: seq<Event>, b: seq<Event>, client: nat)
    ensures Attends(a + b, client) == Attends(a, client) + Attends(b, client)
  {
    if a == [] {
      assert a + b == b;
    } else {
      assert (a + b)[1..] == a[1..] + b;
      AttendsConcat(a[1..], b, client);
    }
  }

  ghost function OfClient(st: State, ws: set<nat>, client: nat): set<nat> {
    set w | w in ws && w in st.awaits && st.awaits[w].client == client
  }

  lemma AwaitAttendsOnce(u: AwaitUnion, counters: map<nat, Counter>, client: nat)
    ensures Attends(AwaitEvents(u, counters), client) == if u.client == client then 1 else 0
  {
    var due := DueConditions(u.conds, |u.conds|, counters);
    assert forall i :: 0 <= i < |due| ==> due[i] in due;
    var head: seq<Event> := if due == [] then [] else [CounterNotify(u.client, Entries(u.conds, due, counters))];
    AttendsConcat(head, [Attend(u.client)], client);
  }

  /** One more trigger unblocks its client once if it is a true await not met before. */
  lemma OneMoreOfClient(st: State, before: set<nat>, w: nat, client: nat)
    requires w in st.awaits && w !in before
    ensures |OfClient(st, before + {w}, client)|
            == |OfClient(st, before, client)| + if st.awaits[w].client == client then 1 else 0
  {
    assert OfClient(st, before + {w}, client)
      == OfClient(st, before, client) + if st.awaits[w].client == client then {w} else {};
  }

  lemma AttendsStep(st: State, c: nat, v: Int64, walked: seq<TrigId>, t: TrigId, client: nat)
    requires c in st.counters && Exists(st, t)
    requires t.OfAwait? ==> forall i :: OfAwait(t.await, i) !in walked
    ensures Attends(EventsOf(st, c, v, t), client)
            + |OfClient(st, UnblockedBy(st, c, v, walked), client)|
      == |OfClient(st, UnblockedBy(st, c, v, walked + [t]), client)|
  {
    SnocUnblocked(st, c, v, walked, t);
    var before, after := UnblockedBy(st, c, v, walked), UnblockedBy(st, c, v, walked + [t]);
    if t.OfAwait? && GoesTrue(st, c, v, t) {
      var w := t.await;
      assert w !in before;
      AwaitAttendsOnce(st.awaits[w], WithValue(st.counters, c, v), client);
      OneMoreOfClient(st, before, w, client);
    } else {
      assert before == after;
      if t.OfAlarm? {
        AlarmAttends(t.alarm, st.alarms[t.alarm], v, client);
      }
    }
  }

  /** No two entries of the list belong to the same await. */
  ghost predicate OnePerAwait(list: seq<TrigId>) {
    forall i, j :: 0 <= i < j < |list| && list[i].OfAwait? && list[j].OfAwait? ==> list[i].await != list[j].await
  }

  /** Each released await unblocks its client exactly once, and nothing else does. */
  lemma {:induction false} AttendsAlong(st: State, c: nat, v: Int64, list: seq<TrigId>, client: nat)
    requires c in st.counters && OnePerAwait(list)
    requires forall t :: t in list ==> Exists(st, t)
    ensures Attends(EventsAlong(st, c, v, list), client)
      == |OfClient(st, UnblockedBy(st, c, v, list), client)|
  {
    if list == [] {
      assert OfClient(st, UnblockedBy(st, c, v, []), client) == {};
    } else {
      var walked, t := list[..|list| - 1], list[|list| - 1];
      assert list == walked + [t];
      forall x | x in walked ensures x in list { }
      AttendsAlong(st, c, v, walked, client);
      Snoc(st, c, v, walked, t);
      AttendsConcat(EventsAlong(st, c, v, walked), EventsOf(st, c, v, t), client);
      AttendsStep(st, c, v, walked, t, client);
    }
  }

  lemma ListOnePerAwait(st: State, c: nat, list: seq<TrigId>)
    requires NamesOnce(st, c) && SoundList(st, c, list)
    ensures OnePerAwait(list)
  {
    forall i, j | 0 <= i < j < |list| && list[i].OfAwait? && list[j].OfAwait?
      ensures list[i].await != list[j].await
    {
      assert list[i] in list && list[j] in list && list[i] != list[j];
    }
  }

  lemma AlarmAttends(a: nat, al: Alarm, v: Int64, client: nat)
    ensures Attends(AlarmEvents(a, al, v), client) == 0
  {
  }

  /** Over the whole change: the client of every released await is unblocked once per await. */
  lemma UnblockedExactlyOnce(st: State, c: nat, v: Int64, client: nat)
    requires Valid(st) && Live(st, c) && NamesOnce(st, c)
    ensures Attends(AfterChange(st, c, v).log, client)
      == Attends(st.log, client)
         + |set w | w in st.awaits && w !in AfterChange(st, c, v).awaits && st.awaits[w].client == client|
  {
    var list := st.counters[c].triggers;
    assert SoundList(st, c, list);
    ListOnePerAwait(st, c, list);
    AttendsAlong(st, c, v, list, client);
    AttendsConcat(st.log, EventsAlong(st, c, v, list), client);
    assert (set w | w in st.awaits && w !in AfterChange(st, c, v).awaits && st.awaits[w].client == client)
      == OfClient(st, UnblockedBy(st, c, v, list), client);
  }
}
