/** The Await request: conditions are registered one by one, and withdrawn again if one is refused. */
module SyncAwait {
  import opened Options
  import opened SyncValues
  import opened SyncModel
  import opened SyncChange
  import opened SyncServer
  import opened SyncTriggers
  import SyncIdle

  datatype WaitCondition = WaitCondition(
    counter: Option<nat>,
    valueType: ValueType,
    waitValue: Int64,
    testType: TestType,
    threshold: Int64)

  function Unregistered(item: WaitCondition): Await {
    Await(Trigger(None, PositiveComparison, item.testType, item.valueType, item.waitValue, 0), item.threshold)
  }

  function Asked(item: WaitCondition): Changes {
    Changes(Some(item.counter), true, true, true)
  }

  /** The trigger of an accepted condition whose counter was found to stand at `v`. */
  function WaitTrigger(item: WaitCondition, v: Int64): Trigger {
    Trigger(item.counter, item.testType, item.testType, item.valueType, item.waitValue,
            if item.valueType == Absolute then item.waitValue else Wrap(v + item.waitValue))
  }

  /** The condition is registered as the client asked for it, against the value its counter answered. */
  predicate AsAsked(cond: Await, item: WaitCondition, counters: map<nat, Counter>, clock: nat -> Int64) {
    item.counter.Some?
    && cond == Await(WaitTrigger(item, WorkValue(counters, item.counter, clock)), item.threshold)
  }

  /** Everything but the await `w` is as it was, except what a look at a system counter changes. */
  ghost predicate OnlyAwait(st: State, cur: State, w: nat) {
    && w !in st.awaits && w in cur.awaits && cur.awaits - {w} == st.awaits
    && cur.alarms == st.alarms && cur.counters.Keys == st.counters.Keys
    && forall d :: d in st.counters ==>
         && Survivors(cur.counters[d].triggers, TriggersOf(cur, {w})) == st.counters[d].triggers
         && cur.counters[d].system.Some? == st.counters[d].system.Some?
         && (Ordinary(st.counters[d]) ==> cur.counters[d].value == st.counters[d].value)
  }

  /** As if the request had not been made. */
  ghost predicate Unchanged(st: State, cur: State) {
    && cur.awaits == st.awaits && cur.alarms == st.alarms && SameLists(st, cur)
    && forall d :: d in st.counters && Ordinary(st.counters[d]) ==> cur.counters[d] == st.counters[d]
  }

  // ----- which conditions are accepted, and which counters are asked

  /** The errors of one condition. */
  function ItemStatus(counters: map<nat, Counter>, item: WaitCondition, clock: nat -> Int64, room: bool): Status {
    if item.counter.None? then BadCounter
    else InitStatus(counters, Unregistered(item).trigger, Asked(item), clock, room)
  }

  /** From condition `i` on, the first one that is refused, or the number of conditions. */
  function FirstRefused(counters: map<nat, Counter>, items: seq<WaitCondition>, clock: nat -> Int64, room: nat -> bool,
                        i: nat): (n: nat)
    requires i <= |items|
    ensures i <= n <= |items|
    ensures forall j :: i <= j < n ==> ItemStatus(counters, items[j], clock, room(j)) == Success
    ensures n < |items| ==> ItemStatus(counters, items[n], clock, room(n)) != Success
    decreases |items| - i
  {
    if i < |items| && ItemStatus(counters, items[i], clock, room(i)) == Success
    then FirstRefused(counters, items, clock, room, i + 1) else i
  }

  function AwaitStatus(counters: map<nat, Counter>, items: seq<WaitCondition>, clock: nat -> Int64,
                       room: nat -> bool): Status {
    var n := FirstRefused(counters, items, clock, room, 0);
    if items == [] then BadValue else if n == |items| then Success else ItemStatus(counters, items[n], clock, room(n))
  }

  predicate SameKind(was: Counter, now: Counter) {
    && now.dying == was.dying && now.system.Some? == was.system.Some?
    && (was.system.Some? ==> now.system.value.counterType == was.system.value.counterType)
  }

  predicate Names(items: seq<WaitCondition>, n: nat, d: nat)
    requires n <= |items|
  {
    exists i :: 0 <= i < n && items[i].counter == Some(d)
  }

  /** A counter named by one of the first `n` conditions has been asked, and its brackets are those of the answer;
      `last` has been asked by a condition that was refused; no other counter has changed. */
  ghost predicate AskedCounter(st: State, cur: State, items: seq<WaitCondition>, n: nat, last: Option<nat>,
                               clock: nat -> Int64, d: nat)
    requires n <= |items| && d in st.counters
  {
    && d in cur.counters
    && var asked := Queried(st.counters[d], clock(d));
       if Names(items, n, d)
       then SyncIdle.FreshBrackets(cur, d) && cur.counters[d].value == asked.value
            && SameKind(st.counters[d], cur.counters[d])
       else if last == Some(d) then cur.counters[d] == asked
       else cur.counters[d] == st.counters[d]
  }

  ghost predicate AskedCounters(st: State, cur: State, items: seq<WaitCondition>, n: nat, last: Option<nat>,
                                clock: nat -> Int64)
    requires n <= |items|
  {
    forall d :: d in st.counters ==> AskedCounter(st, cur, items, n, last, clock, d)
  }

  ghost predicate Building(st: State, cur: State, client: nat, w: nat, items: seq<WaitCondition>, n: nat,
                           clock: nat -> Int64)
    requires n <= |items|
  {
    && Steady(cur) && OnlyAwait(st, cur, w) && AskedCounters(st, cur, items, n, None, clock)
    && cur.awaits[w].client == client && |cur.awaits[w].conds| == n
    && forall i :: 0 <= i < n ==> AsAsked(cur.awaits[w].conds[i], items[i], st.counters, clock)
  }

  lemma NotListed(st: State, t: TrigId, d: nat)
    requires Sound(st) && NoneDying(st) && !Exists(st, t) && d in st.counters
    ensures t !in st.counters[d].triggers
  {
    assert SoundList(st, d, st.counters[d].triggers);
  }

  /** The await with no conditions yet. */
  lemma BuildStart(st: State, client: nat, w: nat, items: seq<WaitCondition>, clock: nat -> Int64)
    requires Steady(st) && w !in st.awaits
    ensures Building(st, st.(awaits := st.awaits[w := AwaitUnion(client, [])]), client, w, items, 0, clock)
  {
    var cur := st.(awaits := st.awaits[w := AwaitUnion(client, [])]);
    assert cur.awaits - {w} == st.awaits;
    assert TriggersOf(cur, {w}) == {};
    forall d | d in st.counters
      ensures SoundList(cur, d, cur.counters[d].triggers)
      ensures Survivors(cur.counters[d].triggers, {}) == st.counters[d].triggers
    {
      assert SoundList(st, d, st.counters[d].triggers);
      SurvivorsAll(st.counters[d].triggers, {});
    }
    forall x | x in cur.awaits ensures RegisteredAwait(cur, x) {
      if x != w {
        assert RegisteredAwait(st, x);
      }
    }
  }

  /** The storage of the next condition, not yet counted. */
  function Extended(st: State, w: nat, aw: Await): State
    requires w in st.awaits
  {
    st.(awaits := st.awaits[w := st.awaits[w].(conds := st.awaits[w].conds + [aw])])
  }

  lemma ExtendedSound(st: State, w: nat, aw: Await)
    requires Sound(st) && NoneDying(st) && w in st.awaits
    ensures var r := Extended(st, w, aw);
            Sound(r) && NoneDying(r) && Exists(r, OfAwait(w, |st.awaits[w].conds|))
            && TrigOf(r, OfAwait(w, |st.awaits[w].conds|)) == aw.trigger
  {
    var r := Extended(st, w, aw);
    forall d | d in r.counters ensures SoundList(r, d, r.counters[d].triggers) {
      assert SoundList(st, d, st.counters[d].triggers);
    }
  }

  /** What OnlyTrigger says of one list. */
  lemma ListWithout(st: State, st': State, t: TrigId, d: nat)
    requires OnlyTrigger(st, st', t) && d in st.counters
    ensures CounterKept(st.counters[d], st'.counters[d], t)
    ensures forall x :: x != t ==> (x in st.counters[d].triggers <==> x in st'.counters[d].triggers)
  {
    forall x | x != t
      ensures x in st.counters[d].triggers <==> x in st'.counters[d].triggers
    {
      assert x in st.counters[d].triggers <==> x in Survivors(st.counters[d].triggers, {t});
      assert x in st'.counters[d].triggers <==> x in Survivors(st'.counters[d].triggers, {t});
    }
  }

  lemma TriggersGrow(cur: State, st': State, w: nat)
    requires w in cur.awaits && w in st'.awaits && |st'.awaits[w].conds| == |cur.awaits[w].conds| + 1
    ensures TriggersOf(st', {w}) == {OfAwait(w, |cur.awaits[w].conds|)} + TriggersOf(cur, {w})
  {
  }

  /** The lists, as the other triggers see them, while a condition is added. */
  lemma BuildLists(st: State, cur: State, st': State, w: nat, d: nat, n: nat)
    requires Sound(cur) && NoneDying(cur) && OnlyAwait(st, cur, w) && d in st.counters
    requires |cur.awaits[w].conds| == n && w in st'.awaits && |st'.awaits[w].conds| == n + 1
    requires d in st'.counters && CounterKept(cur.counters[d], st'.counters[d], OfAwait(w, n))
    ensures Survivors(st'.counters[d].triggers, TriggersOf(st', {w})) == st.counters[d].triggers
  {
    var t := OfAwait(w, n);
    NotListed(cur, t, d);
    SurvivorsAll(cur.counters[d].triggers, {t});
    TriggersGrow(cur, st', w);
    SurvivorsTwice(st'.counters[d].triggers, {t}, TriggersOf(cur, {w}));
  }

  lemma BuildOnly(st: State, cur: State, st': State, w: nat, n: nat, aw: Await)
    requires Sound(cur) && NoneDying(cur) && OnlyAwait(st, cur, w) && |cur.awaits[w].conds| == n
    requires OnlyTrigger(Extended(cur, w, aw), st', OfAwait(w, n))
    ensures OnlyAwait(st, st', w)
  {
    var mid, t := Extended(cur, w, aw), OfAwait(w, n);
    AwaitsAfter(cur, mid, st', w, n, aw);
    forall d | d in st.counters
      ensures && Survivors(st'.counters[d].triggers, TriggersOf(st', {w})) == st.counters[d].triggers
              && st'.counters[d].system.Some? == st.counters[d].system.Some?
              && (Ordinary(st.counters[d]) ==> st'.counters[d].value == st.counters[d].value)
    {
      assert CounterKept(mid.counters[d], st'.counters[d], t);
      BuildLists(st, cur, st', w, d, n);
    }
    assert st'.awaits - {w} == cur.awaits - {w};
  }

  lemma BuildAsked(st: State, cur: State, st': State, w: nat, items: seq<WaitCondition>, n: nat, clock: nat -> Int64,
                   room: bool)
    requires n < |items| && w in cur.awaits && |cur.awaits[w].conds| == n && items[n].counter.Some?
    requires forall i :: 0 <= i < n ==> AsAsked(cur.awaits[w].conds[i], items[i], st.counters, clock)
    requires ItemStatus(cur.counters, items[n], clock, room) == Success
    requires WorkValue(cur.counters, items[n].counter, clock) == WorkValue(st.counters, items[n].counter, clock)
    requires var mid, t := Extended(cur, w, Unregistered(items[n])), OfAwait(w, n);
             OnlyTrigger(mid, st', t) && st' == InitAfter(mid, t, Asked(items[n]), clock, room)
    ensures w in st'.awaits && st'.awaits[w].client == cur.awaits[w].client && |st'.awaits[w].conds| == n + 1
    ensures forall i :: 0 <= i < n + 1 ==> AsAsked(st'.awaits[w].conds[i], items[i], st.counters, clock)
  {
    var mid := Extended(cur, w, Unregistered(items[n]));
    AwaitsAfter(cur, mid, st', w, n, Unregistered(items[n]));
    InitSets(mid, OfAwait(w, n), Asked(items[n]), clock, room);
    WaitMeans(items[n], WorkValue(cur.counters, items[n].counter, clock), TrigOf(st', OfAwait(w, n)));
  }

  lemma WaitMeans(item: WaitCondition, v: Int64, tr: Trigger)
    requires tr.(check := PositiveComparison, testValue := 0) == Unregistered(item).trigger.(counter := item.counter)
    requires tr.check == item.testType
    requires tr.testValue == if item.valueType == Absolute then item.waitValue else v + item.waitValue
    ensures tr == WaitTrigger(item, v)
  {
    if item.valueType != Absolute {
      WrapExact(v + item.waitValue);
    }
  }

  lemma MoreNamed(items: seq<WaitCondition>, n: nat, d: nat)
    requires n < |items|
    ensures Names(items, n + 1, d) <==> Names(items, n, d) || items[n].counter == Some(d)
  {
  }

  /** The value the conditions see does not depend on those registered before. */
  lemma AskedSees(st: State, cur: State, items: seq<WaitCondition>, n: nat, clock: nat -> Int64, c: nat)
    requires n <= |items| && c in st.counters && AskedCounter(st, cur, items, n, None, clock, c)
    requires (cur.counters[c].system.Some? == st.counters[c].system.Some?)
    ensures Queried(cur.counters[c], clock(c)).value == Queried(st.counters[c], clock(c)).value
    ensures if Names(items, n, c) then Queried(cur.counters[c], clock(c)) == cur.counters[c]
            else Queried(cur.counters[c], clock(c)) == Queried(st.counters[c], clock(c))
  {
  }

  /** What one more condition does to each counter: if it is accepted, `st'` has it on the list of its counter. */
  lemma AskedMore(st: State, cur: State, st': State, t: TrigId, items: seq<WaitCondition>, n: nat, clock: nat -> Int64,
                  ok: bool, d: nat)
    requires n < |items| && d in st.counters && AskedCounter(st, cur, items, n, None, clock, d)
    requires cur.counters[d].system.Some? == st.counters[d].system.Some? && items[n].counter.Some?
    requires forall x :: x in cur.counters[d].triggers ==> TrigOf(cur, x) == TrigOf(st', x)
    requires d in st'.counters
             && st'.counters[d] == if items[n].counter != Some(d) then cur.counters[d]
                                   else var asked := Queried(cur.counters[d], clock(d));
                                        if ok then Placed(st', asked, t, true) else asked
    ensures if ok then AskedCounter(st, st', items, n + 1, None, clock, d)
            else AskedCounter(st, st', items, n, items[n].counter, clock, d)
  {
    MoreNamed(items, n, d);
    AskedSees(st, cur, items, n, clock, d);
    if items[n].counter == Some(d) && ok {
      var asked := Queried(cur.counters[d], clock(d));
      SyncIdle.BracketedFresh(st', st', d, asked.(triggers := [t] + asked.triggers));
    } else if Names(items, n, d) {
      SyncIdle.FreshStays(cur, st', d);
    }
  }

  lemma AskedMoreAt(st: State, cur: State, w: nat, items: seq<WaitCondition>, n: nat, clock: nat -> Int64, room: bool,
                    d: nat)
    requires n < |items| && Steady(cur) && OnlyAwait(st, cur, w) && |cur.awaits[w].conds| == n && items[n].counter.Some?
    requires d in st.counters && AskedCounter(st, cur, items, n, None, clock, d)
    ensures var mid, t := Extended(cur, w, Unregistered(items[n])), OfAwait(w, n);
            var st' := InitAfter(mid, t, Asked(items[n]), clock, room);
            if ItemStatus(cur.counters, items[n], clock, room) == Success
            then AskedCounter(st, st', items, n + 1, None, clock, d)
            else AskedCounter(st, st', items, n, items[n].counter, clock, d)
  {
    var st' := InitAfter(Extended(cur, w, Unregistered(items[n])), OfAwait(w, n), Asked(items[n]), clock, room);
    ConditionAt(cur, w, items[n], n, clock, room, d);
    AskedMore(st, cur, st', OfAwait(w, n), items, n, clock,
              ItemStatus(cur.counters, items[n], clock, room) == Success, d);
  }

  /** One counter when a condition of an await has been initialised. */
  lemma ConditionAt(cur: State, w: nat, item: WaitCondition, n: nat, clock: nat -> Int64, room: bool, d: nat)
    requires Steady(cur) && w in cur.awaits && |cur.awaits[w].conds| == n && item.counter.Some? && d in cur.counters
    ensures var mid, t := Extended(cur, w, Unregistered(item)), OfAwait(w, n);
            var st' := InitAfter(mid, t, Asked(item), clock, room);
            && d in st'.counters
            && (forall x :: x in cur.counters[d].triggers ==> TrigOf(cur, x) == TrigOf(st', x))
            && st'.counters[d] == if item.counter != Some(d) then cur.counters[d]
                                  else var asked := Queried(cur.counters[d], clock(d));
                                       if ItemStatus(cur.counters, item, clock, room) == Success
                                       then Placed(st', asked, t, true) else asked
  {
    var mid, t := Extended(cur, w, Unregistered(item)), OfAwait(w, n);
    ExtendedSound(cur, w, Unregistered(item));
    InitCounters(mid, t, Asked(item), clock, room, d);
    InitKeeps(mid, t, Asked(item), clock, room);
    ContentsStay(cur, mid, InitAfter(mid, t, Asked(item), clock, room), w, n, Unregistered(item), d);
  }

  /** The triggers on the lists keep their contents while a condition is added. */
  lemma ContentsStay(cur: State, mid: State, st': State, w: nat, n: nat, aw: Await, d: nat)
    requires Sound(cur) && NoneDying(cur) && w in cur.awaits && |cur.awaits[w].conds| == n
             && mid == Extended(cur, w, aw)
    requires OnlyTrigger(mid, st', OfAwait(w, n)) && d in cur.counters
    ensures OfAwait(w, n) !in cur.counters[d].triggers
    ensures forall x :: x in cur.counters[d].triggers ==> TrigOf(cur, x) == TrigOf(st', x)
  {
    NotListed(cur, OfAwait(w, n), d);
    AwaitsAfter(cur, mid, st', w, n, aw);
  }

  /** The value that the next condition works with. */
  lemma WorkSeen(st: State, cur: State, client: nat, w: nat, items: seq<WaitCondition>, i: nat, clock: nat -> Int64)
    requires i < |items| && Building(st, cur, client, w, items, i, clock)
    ensures WorkValue(cur.counters, items[i].counter, clock) == WorkValue(st.counters, items[i].counter, clock)
  {
    if items[i].counter.Some? && items[i].counter.value in st.counters {
      assert AskedCounter(st, cur, items, i, None, clock, items[i].counter.value);
      AskedSees(st, cur, items, i, clock, items[i].counter.value);
    }
  }

  /** A condition accepted by SyncInitTrigger joins the await. */
  lemma BuildStep(st: State, cur: State, st': State, client: nat, w: nat, items: seq<WaitCondition>, n: nat,
                  clock: nat -> Int64, room: bool)
    requires n < |items| && Building(st, cur, client, w, items, n, clock)
    requires ItemStatus(cur.counters, items[n], clock, room) == Success
    requires var mid, t := Extended(cur, w, Unregistered(items[n])), OfAwait(w, n);
             OnlyTrigger(mid, st', t) && Sound(st') && NoneDying(st')
             && st' == InitAfter(mid, t, Asked(items[n]), clock, room)
    ensures Building(st, st', client, w, items, n + 1, clock)
  {
    var mid, t, aw := Extended(cur, w, Unregistered(items[n])), OfAwait(w, n), Unregistered(items[n]);
    BuildOnly(st, cur, st', w, n, aw);
    WorkSeen(st, cur, client, w, items, n, clock);
    BuildAsked(st, cur, st', w, items, n, clock, room);
    ExtendedSound(cur, w, aw);
    InitPlaces(mid, t, Asked(items[n]), clock, room);
    InitSets(mid, t, Asked(items[n]), clock, room);
    BuildRegistered(cur, mid, st', w, n, aw);
    forall d | d in st.counters ensures AskedCounter(st, st', items, n + 1, None, clock, d) {
      AskedMoreAt(st, cur, w, items, n, clock, room, d);
    }
  }

  lemma AwaitsAfter(cur: State, mid: State, st': State, w: nat, n: nat, aw: Await)
    requires w in cur.awaits && |cur.awaits[w].conds| == n && mid == Extended(cur, w, aw)
    requires OnlyTrigger(mid, st', OfAwait(w, n))
    ensures st'.alarms == cur.alarms && st'.awaits.Keys == cur.awaits.Keys
    ensures st'.awaits == cur.awaits[w := cur.awaits[w].(conds := cur.awaits[w].conds
                            + [aw.(trigger := TrigOf(st', OfAwait(w, n)))])]
  {
    var u := mid.awaits[w];
    assert u.conds[n := u.conds[n].(trigger := TrigOf(st', OfAwait(w, n)))]
      == cur.awaits[w].conds + [aw.(trigger := TrigOf(st', OfAwait(w, n)))];
  }

  lemma BuildRegistered(cur: State, mid: State, st': State, w: nat, n: nat, aw: Await)
    requires Steady(cur) && w in cur.awaits && |cur.awaits[w].conds| == n && mid == Extended(cur, w, aw)
    requires OnlyTrigger(mid, st', OfAwait(w, n))
    requires var c := TrigOf(st', OfAwait(w, n)).counter;
             c.Some? && c.value in st'.counters && OfAwait(w, n) in st'.counters[c.value].triggers
    ensures Registered(st')
  {
    AwaitsAfter(cur, mid, st', w, n, aw);
    forall x | x in st'.awaits ensures RegisteredAwait(st', x) {
      assert RegisteredAwait(cur, x);
      forall i | 0 <= i < |st'.awaits[x].conds|
        ensures var c := st'.awaits[x].conds[i].trigger.counter;
                && c.Some? && c.value in st'.counters
                && (!st'.counters[c.value].dying ==> OfAwait(x, i) in st'.counters[c.value].triggers)
      {
        if !(x == w && i == n) {
          assert cur.awaits[x].conds[i] == st'.awaits[x].conds[i];
          ListWithout(mid, st', OfAwait(w, n), st'.awaits[x].conds[i].trigger.counter.value);
        }
      }
    }
  }

  /** Freeing the await withdraws exactly the registered conditions: nothing is left of the request. */
  lemma Withdraws(st: State, cur: State, w: nat)
    requires OnlyAwait(st, cur, w) && NoneDying(st) && NoneDying(cur)
    ensures Unchanged(st, Release(cur, {w})) && NoneDying(Release(cur, {w}))
  {
    var r := Release(cur, {w});
    assert r.counters.Keys == st.counters.Keys;
    forall d | d in st.counters ensures GivenBack(st.counters[d], r.counters[d]) {
      WithdrawnAt(st, cur, w, d);
    }
  }

  predicate GivenBack(was: Counter, now: Counter) {
    now.triggers == was.triggers && !now.dying && (Ordinary(was) ==> now == was)
  }

  lemma WithdrawnAt(st: State, cur: State, w: nat, d: nat)
    requires OnlyAwait(st, cur, w) && NoneDying(st) && NoneDying(cur) && d in st.counters
    ensures d in cur.counters && GivenBack(st.counters[d], Release(cur, {w}).counters[d])
  {
    WithdrawnKeeps(cur, cur.counters[d], TriggersOf(cur, {w}));
  }

  /** Withdrawing the await leaves the counters asked as they are, but for their lists. */
  lemma AskedReleased(st: State, cur: State, items: seq<WaitCondition>, n: nat, last: Option<nat>, clock: nat -> Int64,
                      w: nat, d: nat)
    requires Steady(st) && Steady(cur) && OnlyAwait(st, cur, w) && n <= |items| && d in st.counters
    requires AskedCounter(st, cur, items, n, last, clock, d)
    ensures AskedCounter(st, Release(cur, {w}), items, n, last, clock, d)
  {
    var r, gone := Release(cur, {w}), TriggersOf(cur, {w});
    ReleaseAt(cur, w, d);
    if Loses(cur.counters[d], gone) {
      NotNamedLoses(st, cur, items, n, last, clock, w, d);
      SyncIdle.BracketedFresh(cur, r, d, cur.counters[d].(triggers := Survivors(cur.counters[d].triggers, gone)));
    } else if Names(items, n, d) {
      SyncIdle.FreshStays(cur, r, d);
    }
  }

  /** One counter when an await is freed: the triggers left on its list keep their contents. */
  lemma ReleaseAt(cur: State, w: nat, d: nat)
    requires Steady(cur) && d in cur.counters
    ensures var r, gone := Release(cur, {w}), TriggersOf(cur, {w});
            && d in r.counters
            && r.counters[d] == (if Loses(cur.counters[d], gone)
                                 then Bracketed(cur,
                                                cur.counters[d].(triggers := Survivors(cur.counters[d].triggers, gone)))
                                 else cur.counters[d])
            && forall x :: x in cur.counters[d].triggers && x !in gone ==> TrigOf(cur, x) == TrigOf(r, x)
  {
    ReleaseContents(cur, w, d);
  }

  lemma ReleaseContents(cur: State, w: nat, d: nat)
    requires Steady(cur) && d in cur.counters
    ensures forall x :: x in cur.counters[d].triggers && x !in TriggersOf(cur, {w}) ==>
              TrigOf(cur, x) == TrigOf(Release(cur, {w}), x)
  {
    assert SoundList(cur, d, cur.counters[d].triggers);
  }

  /** A counter with a condition of the await on its list was named by one. */
  lemma NotNamedLoses(st: State, cur: State, items: seq<WaitCondition>, n: nat, last: Option<nat>, clock: nat -> Int64,
                      w: nat, d: nat)
    requires Steady(st) && OnlyAwait(st, cur, w) && n <= |items| && d in st.counters
    requires AskedCounter(st, cur, items, n, last, clock, d) && Loses(cur.counters[d], TriggersOf(cur, {w}))
    ensures Names(items, n, d)
  {
    assert Survivors(cur.counters[d].triggers, TriggersOf(cur, {w})) == st.counters[d].triggers;
  }

  /** A refused condition is not counted, so freeing the await does not visit it. */
  lemma RefusedStep(st: State, cur: State, st': State, client: nat, w: nat, items: seq<WaitCondition>, n: nat,
                    clock: nat -> Int64, room: bool)
    requires n < |items| && Building(st, cur, client, w, items, n, clock)
    requires items[n].counter.Some? && ItemStatus(cur.counters, items[n], clock, room) != Success
    requires var mid, t := Extended(cur, w, Unregistered(items[n])), OfAwait(w, n);
             OnlyTrigger(mid, st', t) && Sound(st') && NoneDying(st')
             && st' == InitAfter(mid, t, Asked(items[n]), clock, room)
    ensures w in st'.awaits && |st'.awaits[w].conds| == n + 1
    ensures var r := Shortened(st', w, n);
            Steady(r) && OnlyAwait(st, r, w) && AskedCounters(st, r, items, n, items[n].counter, clock)
  {
    var mid, t, aw := Extended(cur, w, Unregistered(items[n])), OfAwait(w, n), Unregistered(items[n]);
    AwaitsAfter(cur, mid, st', w, n, aw);
    var r := Shortened(st', w, n);
    ShortenedBack(cur, mid, st', w, n, aw);
    ExtendedSound(cur, w, aw);
    InitPlaces(mid, t, Asked(items[n]), clock, room);
    forall d | d in st.counters
      ensures r.counters[d].triggers == cur.counters[d].triggers
      ensures CounterKept(cur.counters[d], r.counters[d], t)
    {
      assert CounterKept(mid.counters[d], st'.counters[d], t);
      NotListed(cur, t, d);
      SurvivorsAll(cur.counters[d].triggers, {t});
      SurvivorsAll(st'.counters[d].triggers, {t});
    }
    SameListsSteady(cur, r);
    forall d | d in st.counters ensures AskedCounter(st, r, items, n, items[n].counter, clock, d) {
      AskedMoreAt(st, cur, w, items, n, clock, room, d);
      ShortenedAsked(st, cur, mid, st', w, items, n, aw, clock, d);
    }
  }

  /** The await without the condition that was refused. */
  function Shortened(st: State, w: nat, n: nat): State
    requires w in st.awaits && n <= |st.awaits[w].conds|
  {
    st.(awaits := st.awaits[w := st.awaits[w].(conds := st.awaits[w].conds[..n])])
  }

  lemma ShortenedBack(cur: State, mid: State, st': State, w: nat, n: nat, aw: Await)
    requires w in cur.awaits && |cur.awaits[w].conds| == n && mid == Extended(cur, w, aw)
    requires OnlyTrigger(mid, st', OfAwait(w, n))
    ensures w in st'.awaits && |st'.awaits[w].conds| == n + 1
    ensures Shortened(st', w, n).awaits == cur.awaits && Shortened(st', w, n).alarms == cur.alarms
    ensures TriggersOf(Shortened(st', w, n), {w}) == TriggersOf(cur, {w})
  {
    AwaitsAfter(cur, mid, st', w, n, aw);
    assert st'.awaits[w].conds[..n] == cur.awaits[w].conds;
  }

  lemma ShortenedAsked(st: State, cur: State, mid: State, st': State, w: nat, items: seq<WaitCondition>, n: nat,
                       aw: Await,
                       clock: nat -> Int64, d: nat)
    requires Steady(cur) && w in cur.awaits && |cur.awaits[w].conds| == n && mid == Extended(cur, w, aw)
    requires OnlyTrigger(mid, st', OfAwait(w, n)) && w in st'.awaits && |st'.awaits[w].conds| == n + 1
    requires n < |items| && d in st.counters && d in cur.counters && d in st'.counters
    requires st'.counters[d].triggers == cur.counters[d].triggers
    requires AskedCounter(st, st', items, n, items[n].counter, clock, d)
    ensures AskedCounter(st, Shortened(st', w, n), items, n, items[n].counter, clock, d)
  {
    ContentsStay(cur, mid, st', w, n, aw, d);
    ShortenedBack(cur, mid, st', w, n, aw);
    if Names(items, n, d) {
      forall x | x in st'.counters[d].triggers ensures TrigOf(st', x) == TrigOf(Shortened(st', w, n), x) {
        assert TrigOf(cur, x) == TrigOf(Shortened(st', w, n), x);
      }
      SyncIdle.FreshStays(st', Shortened(st', w, n), d);
    }
  }

  lemma SameListsSteady(st: State, r: State)
    requires Steady(st) && SameLists(st, r) && r.awaits == st.awaits && r.alarms == st.alarms && NoneDying(r)
    ensures Steady(r)
  {
    forall d | d in r.counters ensures SoundList(r, d, r.counters[d].triggers) {
      assert SoundList(st, d, st.counters[d].triggers);
    }
    forall x | x in r.awaits ensures RegisteredAwait(r, x) {
      assert RegisteredAwait(st, x);
    }
  }

  /** The trigger is already true when the client blocks on it. */
  predicate TrueNow(st: State, cond: Await) {
    var v := CounterOf(cond.trigger, st.counters).value;
    Check(cond.trigger, v, v)
  }

  ghost predicate SomeTrue(st: State, w: nat)
    requires w in st.awaits
  {
    exists i :: 0 <= i < |st.awaits[w].conds| && TrueNow(st, st.awaits[w].conds[i])
  }

  /** From the state `mid` with all the conditions registered: one true condition is enough, everything is
      withdrawn and the client is unblocked. */
  ghost predicate Blocked(st: State, mid: State, st': State, client: nat, w: nat)
    requires w in mid.awaits
  {
    if SomeTrue(mid, w)
    then Unchanged(st, st') && st'.log == st.log + [Ignore(client)] + AwaitEvents(mid.awaits[w], mid.counters)
    else st' == mid.(log := st.log + [Ignore(client)])
  }

  /** The outcome of an accepted request. */
  ghost predicate Accepted(st: State, st': State, client: nat, w: nat, items: seq<WaitCondition>, clock: nat -> Int64) {
    exists mid ::
      Building(st, mid, client, w, items, |items|, clock) && mid.log == st.log && Blocked(st, mid, st', client, w)
  }

  /** One wait condition of the request. */
  method AddCondition(s: Server, client: nat, w: nat, items: seq<WaitCondition>, i: nat,
                      clock: nat -> Int64, memory: bool, ghost st: State)
    returns (status: Status)
    requires i < |items| && Building(st, s.St(), client, w, items, i, clock) && items[i].counter.Some?
    modifies s
    ensures s.log == old(s.log) && status == ItemStatus(old(s.counters), items[i], clock, memory)
    ensures if status == Success then Building(st, s.St(), client, w, items, i + 1, clock)
            else Steady(s.St()) && OnlyAwait(st, s.St(), w)
                 && AskedCounters(st, s.St(), items, i, items[i].counter, clock)
  {
    ghost var cur := s.St();
    var t := OfAwait(w, i);
    ExtendedSound(cur, w, Unregistered(items[i]));
    s.awaits := s.awaits[w := s.awaits[w].(conds := s.awaits[w].conds + [Unregistered(items[i])])];
    ghost var mid := s.St();
    status := InitTrigger(s, t, Asked(items[i]), clock, memory);
    if status == Success {
      BuildStep(st, cur, s.St(), client, w, items, i, clock, memory);
    } else {
      RefusedStep(st, cur, s.St(), client, w, items, i, clock, memory);
      s.awaits := s.awaits[w := s.awaits[w].(conds := s.awaits[w].conds[..i])];
    }
  }

  /** SyncAwaitEpilogue: the client is blocked, unless a condition is already true. Once is enough. */
  method Epilogue(s: Server, client: nat, w: nat)
    requires Steady(s.St()) && w in s.awaits
    modifies s
    ensures var mid := old(s.St());
            if SomeTrue(mid, w)
            then s.St() == Release(mid, {w}).(log := mid.log + [Ignore(client)]
                                              + AwaitEvents(mid.awaits[w], mid.counters))
            else s.St() == mid.(log := mid.log + [Ignore(client)])
  {
    ghost var mid := s.St();
    CondsKnown(mid, w);
    s.log := s.log + [Ignore(client)];
    LogKeepsValid(mid, s.St());
    LogKeepsRelease(mid, s.St(), {w});
    var conds := s.awaits[w].conds;
    var i := 0;
    while i < |conds|
      invariant 0 <= i <= |conds|
      invariant s.St() == mid.(log := mid.log + [Ignore(client)])
      invariant forall j :: 0 <= j < i ==> !TrueNow(mid, conds[j])
    {
      var v := s.counters[conds[i].trigger.counter.value].value;
      if Check(conds[i].trigger, v, v) {
        assert TrueNow(mid, conds[i]);
        s.AwaitTriggerFired(w);
        return;
      }
      i := i + 1;
    }
  }

  /** What ProcSyncAwait does. A counter named by a condition that was accepted has been asked, and its brackets are
      those of the answer; the counter of the condition that was refused has been asked. For the rest a
      refused request leaves nothing behind. */
  ghost predicate AwaitDone(st: State, st': State, client: nat, w: nat, items: seq<WaitCondition>, clock: nat -> Int64,
                            room: nat -> bool)
  {
    var n := FirstRefused(st.counters, items, clock, room, 0);
    && AskedCounters(st, st', items, n, if n < |items| then items[n].counter else None, clock)
    && if AwaitStatus(st.counters, items, clock, room) == Success then Accepted(st, st', client, w, items, clock)
       else Unchanged(st, st') && st'.log == st.log
  }

  /** The first `i` conditions have been accepted. */
  ghost predicate BuiltSoFar(st: State, cur: State, client: nat, w: nat, items: seq<WaitCondition>, i: nat,
                             clock: nat -> Int64, room: nat -> bool)
  {
    && i <= |items| && cur.log == st.log && Building(st, cur, client, w, items, i, clock)
    && FirstRefused(st.counters, items, clock, room, 0) == FirstRefused(st.counters, items, clock, room, i)
  }

  lemma ItemSeen(st: State, cur: State, client: nat, w: nat, items: seq<WaitCondition>, i: nat, clock: nat -> Int64,
                 room: bool)
    requires i < |items| && Building(st, cur, client, w, items, i, clock)
    ensures ItemStatus(cur.counters, items[i], clock, room) == ItemStatus(st.counters, items[i], clock, room)
  {
    WorkSeen(st, cur, client, w, items, i, clock);
    StatusSame(st.counters, cur.counters, Unregistered(items[i]).trigger, Asked(items[i]), clock, room);
  }

  lemma StatusSame(m: map<nat, Counter>, n: map<nat, Counter>, tr: Trigger, ch: Changes, clock: nat -> Int64,
                   memory: bool)
    requires var c := NamedCounter(tr, ch); c.Some? ==> (c.value in m <==> c.value in n)
    requires WorkValue(m, NamedCounter(tr, ch), clock) == WorkValue(n, NamedCounter(tr, ch), clock)
    ensures InitStatus(m, tr, ch, clock, memory) == InitStatus(n, tr, ch, clock, memory)
  {
  }

  /** ProcSyncAwait. */
  method ProcAwait(s: Server, client: nat, w: nat, items: seq<WaitCondition>, clock: nat -> Int64, room: nat -> bool)
    returns (status: Status)
    requires Steady(s.St()) && w !in s.awaits
    modifies s
    ensures Steady(s.St()) && status == AwaitStatus(old(s.counters), items, clock, room)
    ensures AwaitDone(old(s.St()), s.St(), client, w, items, clock, room)
  {
    ghost var st := s.St();
    if items == [] {
      return BadValue;
    }
    BuildStart(st, client, w, items, clock);
    s.awaits := s.awaits[w := AwaitUnion(client, [])];
    var i: nat := 0;
    while i != |items|
      invariant i <= |items| && BuiltSoFar(st, s.St(), client, w, items, i, clock, room)
    {
      ItemSeen(st, s.St(), client, w, items, i, clock, room(i));
      status := BadCounter;
      if items[i].counter.Some? {
        status := AddCondition(s, client, w, items, i, clock, room(i), st);
      } else {
        NothingAsked(st, s.St(), client, w, items, i, clock);
      }
      if status != Success {
        WithdrawAll(s, w, items, i, clock, st);
        return;
      }
      i := i + 1;
    }
    ghost var mid := s.St();
    Epilogue(s, client, w);
    AwaitAccepted(st, mid, s.St(), client, w, items, clock);
    status := Success;
  }

  lemma NothingAsked(st: State, cur: State, client: nat, w: nat, items: seq<WaitCondition>, i: nat, clock: nat -> Int64)
    requires i < |items| && Building(st, cur, client, w, items, i, clock) && items[i].counter.None?
    ensures AskedCounters(st, cur, items, i, items[i].counter, clock)
  {
    forall d | d in st.counters ensures AskedCounter(st, cur, items, i, items[i].counter, clock, d) {
      assert AskedCounter(st, cur, items, i, None, clock, d);
    }
  }

  /** The error exit of ProcSyncAwait. */
  method WithdrawAll(s: Server, w: nat, items: seq<WaitCondition>, n: nat, clock: nat -> Int64, ghost st: State)
    requires Steady(st) && Steady(s.St()) && OnlyAwait(st, s.St(), w)
    requires n < |items| && AskedCounters(st, s.St(), items, n, items[n].counter, clock)
    modifies s
    ensures Steady(s.St()) && Unchanged(st, s.St()) && s.log == old(s.log)
    ensures AskedCounters(st, s.St(), items, n, items[n].counter, clock)
  {
    Withdraws(st, s.St(), w);
    AskedAllReleased(st, s.St(), items, n, items[n].counter, clock, w);
    s.FreeAwait(w);
    SameListsSteady(st, s.St());
  }

  lemma AskedAllReleased(st: State, cur: State, items: seq<WaitCondition>, n: nat, last: Option<nat>,
                         clock: nat -> Int64, w: nat)
    requires Steady(st) && Steady(cur) && OnlyAwait(st, cur, w) && n <= |items|
    requires AskedCounters(st, cur, items, n, last, clock)
    ensures AskedCounters(st, Release(cur, {w}), items, n, last, clock)
  {
    forall d | d in st.counters ensures AskedCounter(st, Release(cur, {w}), items, n, last, clock, d) {
      AskedReleased(st, cur, items, n, last, clock, w, d);
    }
  }

  /** The log is no matter. */
  lemma AskedLogged(st: State, cur: State, r: State, items: seq<WaitCondition>, n: nat, last: Option<nat>,
                    clock: nat -> Int64)
    requires n <= |items| && AskedCounters(st, cur, items, n, last, clock) && r == cur.(log := r.log)
    ensures AskedCounters(st, r, items, n, last, clock)
  {
    forall d | d in st.counters ensures AskedCounter(st, r, items, n, last, clock, d) {
      assert AskedCounter(st, cur, items, n, last, clock, d);
      if Names(items, n, d) {
        SyncIdle.FreshStays(cur, r, d);
      }
    }
  }

  lemma AwaitAccepted(st: State, mid: State, st': State, client: nat, w: nat, items: seq<WaitCondition>,
                      clock: nat -> Int64)
    requires Steady(st) && Building(st, mid, client, w, items, |items|, clock) && mid.log == st.log
    requires if SomeTrue(mid, w)
             then st' == Release(mid, {w}).(log := mid.log + [Ignore(client)]
                                              + AwaitEvents(mid.awaits[w], mid.counters))
             else st' == mid.(log := mid.log + [Ignore(client)])
    ensures Steady(st') && Accepted(st, st', client, w, items, clock)
    ensures AskedCounters(st, st', items, |items|, None, clock)
  {
    if SomeTrue(mid, w) {
      Withdraws(st, mid, w);
      assert Unchanged(st, st');
      SameListsSteady(st, st');
      AskedAllReleased(st, mid, items, |items|, None, clock, w);
      AskedLogged(st, Release(mid, {w}), st', items, |items|, None, clock);
    } else {
      LogKeepsValid(mid, st');
      AskedLogged(st, mid, st', items, |items|, None, clock);
    }
  }
}
