/** The events that a change or the end of a counter sends: who gets them, and what they say. */
module SyncNotify {
  import opened Options
  import opened SyncValues
  import opened SyncModel
  import opened SyncChange
  import SyncAlarm
  import SyncDestroy

  // ----- the group of events of an await

  /** What an await sees of the counter that one of its conditions names. */
  datatype Sight = Sight(counter: nat, value: Int64, destroyed: bool)

  /** The counter has passed the test value by the threshold, in the direction of the test. */
  predicate Far(t: Trigger, threshold: Int64, value: Int64) {
    && MIN_VALUE <= value - t.testValue <= MAX_VALUE
    && (t.testType.PositiveComparison? || t.testType.PositiveTransition? ==> value >= t.testValue + threshold)
    && (t.testType.NegativeComparison? || t.testType.NegativeTransition? ==> value <= t.testValue + threshold)
    && !t.testType.UnknownTest?
  }

  /** The client has to be told about this condition. */
  predicate Owed(cond: Await, s: Sight) {
    s.destroyed || Far(cond.trigger, cond.threshold, s.value)
  }

  /** An entry of the events: the test value, the counter as it is, and how many entries follow. */
  predicate EntryFor(cond: Await, s: Sight, behind: nat, e: Entry) {
    && e.counter == s.counter && e.waitValue == cond.trigger.testValue && e.counterValue == s.value
    && e.destroyed == s.destroyed && e.count == behind
  }

  /** One CounterNotify with an entry for each of the conditions `which`, if there are any, then the unblocking. */
  ghost predicate Group(client: nat, conds: seq<Await>, seen: seq<Sight>, which: seq<nat>, events: seq<Event>)
    requires |seen| == |conds|
  {
    && (forall k :: 0 <= k < |which| ==> which[k] < |conds|)
    && (forall j, k :: 0 <= j < k < |which| ==> which[j] < which[k])
    && (forall i :: 0 <= i < |conds| ==> (i in which <==> Owed(conds[i], seen[i])))
    && if which == [] then events == [Attend(client)]
       else
         && |events| == 2 && events[0].CounterNotify? && events[0].client == client && events[1] == Attend(client)
         && |events[0].entries| == |which|
         && forall k :: 0 <= k < |which| ==>
              EntryFor(conds[which[k]], seen[which[k]], |which| - 1 - k, events[0].entries[k])
  }

  /** The events tell the client exactly what it is owed. */
  ghost predicate GroupOf(u: AwaitUnion, seen: seq<Sight>, events: seq<Event>) {
    |seen| == |u.conds| && exists which :: Group(u.client, u.conds, seen, which, events)
  }

  /** The counters of all the conditions are there, and this is what is seen of them. */
  ghost predicate SeenIn(u: AwaitUnion, counters: map<nat, Counter>, seen: seq<Sight>) {
    && |seen| == |u.conds|
    && forall i :: 0 <= i < |seen| ==>
         var c := u.conds[i].trigger.counter;
         && c.Some? && c.value in counters
         && seen[i] == Sight(c.value, counters[c.value].value, counters[c.value].dying)
  }

  lemma DueMeans(cond: Await, counters: map<nat, Counter>, s: Sight)
    requires var c := cond.trigger.counter;
             && c.Some? && c.value in counters && s == Sight(c.value, counters[c.value].value, counters[c.value].dying)
    ensures Due(cond, counters) <==> Owed(cond, s)
  {
  }

  lemma GroupSent(u: AwaitUnion, counters: map<nat, Counter>, seen: seq<Sight>)
    requires SeenIn(u, counters, seen)
    ensures GroupOf(u, seen, AwaitEvents(u, counters))
  {
    var which: seq<nat> := DueConditions(u.conds, |u.conds|, counters);
    forall i | 0 <= i < |u.conds| ensures i in which <==> Owed(u.conds[i], seen[i]) {
      DueMeans(u.conds[i], counters, seen[i]);
    }
    forall k | 0 <= k < |which| ensures which[k] < |u.conds| {
      assert which[k] in which;
    }
    assert Group(u.client, u.conds, seen, which, AwaitEvents(u, counters));
  }

  // ----- the events of a walk, trigger by trigger

  function Joined(parts: seq<seq<Event>>): seq<Event> {
    if parts == [] then [] else Joined(parts[..|parts| - 1]) + parts[|parts| - 1]
  }

  lemma {:induction false} JoinedSplit(a: seq<seq<Event>>, b: seq<seq<Event>>)
    ensures Joined(a + b) == Joined(a) + Joined(b)
  {
    if b == [] {
      assert a + b == a;
    } else {
      var front, last := b[..|b| - 1], b[|b| - 1];
      assert (a + b)[..|a + b| - 1] == a + front;
      JoinedSplit(a, front);
    }
  }

  /** The trigger of the list of `c` is true when `c` goes to `v`. */
  predicate Goes(st: State, c: nat, v: Int64, t: Trigger)
    requires c in st.counters
  {
    Holds(t.check, t.testValue, st.counters[c].value, v)
  }

  /** The sights of an await while `c` goes to `v`: the counter is at its new value already. */
  ghost predicate SeenAtChange(st: State, c: nat, v: Int64, u: AwaitUnion, seen: seq<Sight>)
    requires c in st.counters
  {
    && |seen| == |u.conds|
    && forall i :: 0 <= i < |seen| ==>
         var d := u.conds[i].trigger.counter;
         && d.Some? && d.value in st.counters
         && seen[i] == Sight(d.value, if d.value == c then v else st.counters[d.value].value,
                             st.counters[d.value].dying)
  }

  /** What one trigger of the list sends when `c` goes to `v` and `r` is the state afterwards: an Active alarm one
      event with its old test value and its new state, an await its group. */
  ghost predicate SentAtChange(st: State, c: nat, v: Int64, r: State, t: TrigId, part: seq<Event>)
    requires c in st.counters
  {
    match t
    case OfAlarm(a) =>
      && a in st.alarms && a in r.alarms
      && part == if st.alarms[a].state == Active && Goes(st, c, v, st.alarms[a].trigger)
                 then [AlarmNotify(a, v, st.alarms[a].trigger.testValue, r.alarms[a].state)] else []
    case OfAwait(w, i) =>
      && w in st.awaits && i < |st.awaits[w].conds|
      && if Goes(st, c, v, st.awaits[w].conds[i].trigger)
         then exists seen :: SeenAtChange(st, c, v, st.awaits[w], seen) && GroupOf(st.awaits[w], seen, part)
         else part == []
  }

  lemma {:induction false} AlongIsJoined(st: State, c: nat, v: Int64, list: seq<TrigId>, parts: seq<seq<Event>>)
    requires c in st.counters && |parts| == |list|
    requires forall i :: 0 <= i < |list| ==> parts[i] == EventsOf(st, c, v, list[i])
    ensures EventsAlong(st, c, v, list) == Joined(parts)
  {
    if list != [] {
      AlongIsJoined(st, c, v, list[..|list| - 1], parts[..|list| - 1]);
    }
  }

  lemma SightsAtChange(st: State, c: nat, v: Int64, w: nat) returns (seen: seq<Sight>)
    requires Valid(st) && c in st.counters && w in st.awaits
    ensures SeenAtChange(st, c, v, st.awaits[w], seen) && SeenIn(st.awaits[w], WithValue(st.counters, c, v), seen)
  {
    var conds, m := st.awaits[w].conds, WithValue(st.counters, c, v);
    assert RegisteredAwait(st, w);
    seen := seq(|conds|, i requires 0 <= i < |conds| =>
      var d := CounterOf(conds[i].trigger, m);
      Sight(if conds[i].trigger.counter.Some? then conds[i].trigger.counter.value else 0, d.value, d.dying));
  }

  lemma PartAtChange(st: State, c: nat, v: Int64, t: TrigId)
    requires Valid(st) && Live(st, c) && t in st.counters[c].triggers
    ensures SentAtChange(st, c, v, AfterChange(st, c, v), t, EventsOf(st, c, v, t))
  {
    assert SoundList(st, c, st.counters[c].triggers);
    if t.OfAwait? && GoesTrue(st, c, v, t) {
      var seen := SightsAtChange(st, c, v, t.await);
      GroupSent(st.awaits[t.await], WithValue(st.counters, c, v), seen);
    }
  }

  /** A change of a counter appends, in the order of its list, what each trigger has to send, and nothing else. */
  lemma ChangeSends(st: State, c: nat, v: Int64) returns (parts: seq<seq<Event>>)
    requires Valid(st) && Live(st, c)
    ensures var r, list := AfterChange(st, c, v), st.counters[c].triggers;
            && |parts| == |list| && r.log == st.log + Joined(parts)
            && forall i :: 0 <= i < |list| ==> SentAtChange(st, c, v, r, list[i], parts[i])
  {
    var list := st.counters[c].triggers;
    parts := seq(|list|, i requires 0 <= i < |list| => EventsOf(st, c, v, list[i]));
    AlongIsJoined(st, c, v, list, parts);
    forall i | 0 <= i < |list| ensures SentAtChange(st, c, v, AfterChange(st, c, v), list[i], parts[i]) {
      assert list[i] in list;
      PartAtChange(st, c, v, list[i]);
    }
  }

  lemma OneAmong(parts: seq<seq<Event>>, i: nat)
    requires i < |parts|
    ensures Joined(parts) == Joined(parts[..i]) + parts[i] + Joined(parts[i..][1..])
  {
    assert parts == parts[..i] + parts[i..];
    JoinedSplit(parts[..i], parts[i..]);
    FirstJoined(parts[i..]);
  }

  lemma FirstJoined(parts: seq<seq<Event>>)
    requires parts != []
    ensures Joined(parts) == parts[0] + Joined(parts[1..])
  {
    assert parts == [parts[0]] + parts[1..];
    JoinedSplit([parts[0]], parts[1..]);
    assert [parts[0]][..0] == [];
  }

  /** The place in the list of a condition that releases `w`. */
  lemma ReleasedAt(st: State, c: nat, v: Int64, w: nat) returns (i: nat)
    requires Valid(st) && Live(st, c) && w in st.awaits && w !in AfterChange(st, c, v).awaits
    ensures i < |st.counters[c].triggers| && st.counters[c].triggers[i].OfAwait?
    ensures Exists(st, st.counters[c].triggers[i]) && Goes(st, c, v, TrigOf(st, st.counters[c].triggers[i]))
    ensures st.counters[c].triggers[i].await == w
  {
    var list := st.counters[c].triggers;
    var j :| OfAwait(w, j) in list && GoesTrue(st, c, v, OfAwait(w, j));
    i :| 0 <= i < |list| && list[i] == OfAwait(w, j);
    assert SoundList(st, c, list);
  }

  lemma SentGroup(st: State, c: nat, v: Int64, r: State, t: TrigId, part: seq<Event>) returns (seen: seq<Sight>)
    requires c in st.counters && t.OfAwait? && Exists(st, t) && Goes(st, c, v, TrigOf(st, t))
    requires SentAtChange(st, c, v, r, t, part)
    ensures SeenAtChange(st, c, v, st.awaits[t.await], seen) && GroupOf(st.awaits[t.await], seen, part)
  {
    assert Goes(st, c, v, st.awaits[t.await].conds[t.cond].trigger);
    seen :| SeenAtChange(st, c, v, st.awaits[t.await], seen) && GroupOf(st.awaits[t.await], seen, part);
  }

  /** So an await that is released tells its client exactly what it is owed. */
  lemma ReleasedTold(st: State, c: nat, v: Int64, w: nat)
    returns (before: seq<Event>, group: seq<Event>, after: seq<Event>, seen: seq<Sight>)
    requires Valid(st) && Live(st, c) && w in st.awaits && w !in AfterChange(st, c, v).awaits
    ensures AfterChange(st, c, v).log == st.log + (before + group + after)
    ensures SeenAtChange(st, c, v, st.awaits[w], seen) && GroupOf(st.awaits[w], seen, group)
  {
    var parts := ChangeSends(st, c, v);
    var i := ReleasedAt(st, c, v, w);
    seen := SentGroup(st, c, v, AfterChange(st, c, v), st.counters[c].triggers[i], parts[i]);
    before, group, after := Joined(parts[..i]), parts[i], Joined(parts[i..][1..]);
    OneAmong(parts, i);
  }

  // ----- the events about one alarm

  /** The AlarmNotify events about alarm `a`, in order. */
  function NoticesOf(log: seq<Event>, a: nat): seq<Event> {
    if log == [] then []
    else
      var e := log[|log| - 1];
      NoticesOf(log[..|log| - 1], a) + if e.AlarmNotify? && e.alarm == a then [e] else []
  }

  lemma {:induction false} NoticesConcat(x: seq<Event>, y: seq<Event>, a: nat)
    ensures NoticesOf(x + y, a) == NoticesOf(x, a) + NoticesOf(y, a)
  {
    if y == [] {
      assert x + y == x;
    } else {
      assert (x + y)[..|x + y| - 1] == x + y[..|y| - 1];
      NoticesConcat(x, y[..|y| - 1], a);
    }
  }

  lemma OneNotice(e: Event, a: nat)
    ensures NoticesOf([e], a) == if e.AlarmNotify? && e.alarm == a then [e] else []
  {
    assert [e][..0] == [];
  }

  lemma NoNotices(u: AwaitUnion, counters: map<nat, Counter>, a: nat)
    ensures NoticesOf(AwaitEvents(u, counters), a) == []
  {
    var log := AwaitEvents(u, counters);
    OneNotice(Attend(u.client), a);
    if |log| == 2 {
      NoticesConcat([log[0]], [log[1]], a);
      OneNotice(log[0], a);
      assert log == [log[0]] + [log[1]];
    }
  }

  /** The event that alarm `a` is owed. */
  function NoticeOwed(st: State, c: nat, v: Int64, r: State, a: nat): seq<Event>
    requires c in st.counters
  {
    if a in st.alarms && a in r.alarms && st.alarms[a].state == Active && Goes(st, c, v, st.alarms[a].trigger)
    then [AlarmNotify(a, v, st.alarms[a].trigger.testValue, r.alarms[a].state)] else []
  }

  lemma NoticesOfOne(st: State, c: nat, v: Int64, t: TrigId, a: nat)
    requires Valid(st) && Live(st, c) && t in st.counters[c].triggers
    ensures NoticesOf(EventsOf(st, c, v, t), a)
            == if t == OfAlarm(a) then NoticeOwed(st, c, v, AfterChange(st, c, v), a) else []
  {
    PartAtChange(st, c, v, t);
    if t.OfAwait? && GoesTrue(st, c, v, t) {
      NoNotices(st.awaits[t.await], WithValue(st.counters, c, v), a);
    } else if t.OfAlarm? && EventsOf(st, c, v, t) != [] {
      OneNotice(EventsOf(st, c, v, t)[0], a);
    }
  }

  /** One more trigger. */
  lemma NoticesStep(st: State, c: nat, v: Int64, walked: seq<TrigId>, t: TrigId, a: nat)
    requires Valid(st) && Live(st, c) && t in st.counters[c].triggers
    ensures NoticesOf(EventsAlong(st, c, v, walked + [t]), a)
            == NoticesOf(EventsAlong(st, c, v, walked), a)
               + if t == OfAlarm(a) then NoticeOwed(st, c, v, AfterChange(st, c, v), a) else []
  {
    assert (walked + [t])[..|walked|] == walked;
    NoticesConcat(EventsAlong(st, c, v, walked), EventsOf(st, c, v, t), a);
    NoticesOfOne(st, c, v, t, a);
  }

  lemma {:induction false} NoticesAlong(st: State, c: nat, v: Int64, n: nat, a: nat)
    requires Valid(st) && Live(st, c) && n <= |st.counters[c].triggers|
    ensures var walked := st.counters[c].triggers[..n];
            NoticesOf(EventsAlong(st, c, v, walked), a)
            == if OfAlarm(a) in walked then NoticeOwed(st, c, v, AfterChange(st, c, v), a) else []
  {
    var list := st.counters[c].triggers;
    assert SoundList(st, c, list);
    if n > 0 {
      var m: nat := n - 1;
      assert list[..n] == list[..m] + [list[m]] && list[m] !in list[..m];
      NoticesAlong(st, c, v, m, a);
      NoticesStep(st, c, v, list[..m], list[m], a);
    }
  }

  /** An Active alarm of the list that goes true is notified once: with the value, the test value it had, and the state
      it has then. No other alarm is. */
  lemma ChangeNotifies(st: State, c: nat, v: Int64, a: nat)
    requires Valid(st) && Live(st, c)
    ensures var r := AfterChange(st, c, v);
            NoticesOf(r.log, a)
            == NoticesOf(st.log, a)
               + if a in st.alarms && OfAlarm(a) in st.counters[c].triggers && st.alarms[a].state == Active
                    && Goes(st, c, v, st.alarms[a].trigger) && a in r.alarms
                 then [AlarmNotify(a, v, st.alarms[a].trigger.testValue, r.alarms[a].state)] else []
  {
    var list := st.counters[c].triggers;
    assert list[..|list|] == list && SoundList(st, c, list);
    NoticesAlong(st, c, v, |list|, a);
    NoticesConcat(st.log, EventsAlong(st, c, v, list), a);
  }

  // ----- what an alarm becomes

  /** An alarm that has gone off at `v`. With delta 0 a comparison keeps its test value and is done; any other alarm has
      delta added until it is false, and is done if that leaves the 64-bit range. */
  ghost predicate WentOff(al: Alarm, v: Int64, al': Alarm) {
    var t := al.trigger;
    if al.delta == 0 && (t.testType.PositiveComparison? || t.testType.NegativeComparison?)
    then al' == al.(state := Inactive)
    else exists k: nat ::
           && SyncAlarm.IsAdvance(t.check, t.testValue, al.delta, v, k)
           && al' == if MIN_VALUE <= t.testValue + k * al.delta <= MAX_VALUE
                     then al.(trigger := t.(testValue := t.testValue + k * al.delta))
                     else al.(state := Inactive)
  }

  lemma FiredWentOff(al: Alarm, v: Int64)
    requires al.state == Active && Advances(al)
    requires IsComparison(al.trigger.check) ==> Holds(al.trigger.check, al.trigger.testValue, v, v)
    ensures WentOff(al, v, AlarmFired(al, v))
  {
    var t := al.trigger;
    if !(al.delta == 0 && IsComparison(t.testType)) {
      SyncAlarm.AdvanceStops(t.check, t.testValue, al.delta, v);
      var k: nat :| SyncAlarm.IsAdvance(t.check, t.testValue, al.delta, v, k);
      SyncAlarm.AdvanceResultCorrect(t.check, t.testValue, al.delta, v, k);
      assert SyncAlarm.Moved(t.testValue, al.delta, k) == t.testValue + k * al.delta;
    }
  }

  /** Exactly the Active alarms of the list that go true go off. */
  lemma ChangeFires(st: State, c: nat, v: Int64, a: nat)
    requires Valid(st) && Live(st, c) && a in st.alarms
    requires OfAlarm(a) in st.counters[c].triggers ==> Advances(st.alarms[a])
    ensures var r := AfterChange(st, c, v);
            && a in r.alarms
            && if OfAlarm(a) in st.counters[c].triggers && st.alarms[a].state == Active
                  && Goes(st, c, v, st.alarms[a].trigger)
               then WentOff(st.alarms[a], v, r.alarms[a]) else r.alarms[a] == st.alarms[a]
  {
    assert SoundList(st, c, st.counters[c].triggers);
    if OfAlarm(a) in st.counters[c].triggers && st.alarms[a].state == Active && GoesTrue(st, c, v, OfAlarm(a)) {
      FiredWentOff(st.alarms[a], v);
    }
  }

  // ----- a counter that is destroyed

  /** The sights of an await while `c` is being destroyed. */
  ghost predicate SeenAtDestroy(st: State, c: nat, u: AwaitUnion, seen: seq<Sight>) {
    && |seen| == |u.conds|
    && forall i :: 0 <= i < |seen| ==>
         var d := u.conds[i].trigger.counter;
         && d.Some? && d.value in st.counters
         && seen[i] == Sight(d.value, st.counters[d.value].value, d.value == c || st.counters[d.value].dying)
  }

  /** What one trigger of the list sends: every alarm one event that it is Inactive, every await its group. */
  ghost predicate SentAtDestroy(st: State, c: nat, t: TrigId, part: seq<Event>)
    requires c in st.counters
  {
    match t
    case OfAlarm(a) =>
      a in st.alarms && part == [AlarmNotify(a, st.counters[c].value, st.alarms[a].trigger.testValue, Inactive)]
    case OfAwait(w, _) =>
      w in st.awaits && exists seen :: SeenAtDestroy(st, c, st.awaits[w], seen) && GroupOf(st.awaits[w], seen, part)
  }

  lemma {:induction false} LossIsJoined(st: State, c: nat, list: seq<TrigId>, parts: seq<seq<Event>>)
    requires c in st.counters && |parts| == |list|
    requires forall i :: 0 <= i < |list| ==> parts[i] == SyncDestroy.LossOf(st, c, list[i])
    ensures SyncDestroy.LossAlong(st, c, list) == Joined(parts)
  {
    if list != [] {
      LossIsJoined(st, c, list[..|list| - 1], parts[..|list| - 1]);
    }
  }

  lemma SightsAtDestroy(st: State, c: nat, w: nat) returns (seen: seq<Sight>)
    requires Valid(st) && c in st.counters && w in st.awaits
    ensures SeenAtDestroy(st, c, st.awaits[w], seen) && SeenIn(st.awaits[w], SyncDestroy.Dying(st.counters, c), seen)
  {
    var conds, m := st.awaits[w].conds, SyncDestroy.Dying(st.counters, c);
    assert RegisteredAwait(st, w);
    seen := seq(|conds|, i requires 0 <= i < |conds| =>
      var d := CounterOf(conds[i].trigger, m);
      Sight(if conds[i].trigger.counter.Some? then conds[i].trigger.counter.value else 0, d.value, d.dying));
  }

  lemma PartAtDestroy(st: State, c: nat, t: TrigId)
    requires Valid(st) && Live(st, c) && t in st.counters[c].triggers
    ensures SentAtDestroy(st, c, t, SyncDestroy.LossOf(st, c, t))
  {
    assert SoundList(st, c, st.counters[c].triggers);
    if t.OfAwait? {
      var seen := SightsAtDestroy(st, c, t.await);
      GroupSent(st.awaits[t.await], SyncDestroy.Dying(st.counters, c), seen);
    }
  }

  /** The end of a counter appends, in the order of its list, what each trigger has to send, and nothing else. */
  lemma DestroySends(st: State, c: nat) returns (parts: seq<seq<Event>>)
    requires Valid(st) && Live(st, c)
    ensures var list := st.counters[c].triggers;
            && |parts| == |list| && SyncDestroy.AfterDestroy(st, c).log == st.log + Joined(parts)
            && forall i :: 0 <= i < |list| ==> SentAtDestroy(st, c, list[i], parts[i])
  {
    var list := st.counters[c].triggers;
    parts := seq(|list|, i requires 0 <= i < |list| => SyncDestroy.LossOf(st, c, list[i]));
    LossIsJoined(st, c, list, parts);
    forall i | 0 <= i < |list| ensures SentAtDestroy(st, c, list[i], parts[i]) {
      assert list[i] in list;
      PartAtDestroy(st, c, list[i]);
    }
  }

  lemma LossOfOne(st: State, c: nat, t: TrigId, a: nat)
    requires Valid(st) && Live(st, c) && t in st.counters[c].triggers
    ensures NoticesOf(SyncDestroy.LossOf(st, c, t), a)
            == if t == OfAlarm(a)
               then [AlarmNotify(a, st.counters[c].value, st.alarms[a].trigger.testValue, Inactive)] else []
  {
    PartAtDestroy(st, c, t);
    if t.OfAwait? {
      NoNotices(st.awaits[t.await], SyncDestroy.Dying(st.counters, c), a);
    } else {
      OneNotice(SyncDestroy.LossOf(st, c, t)[0], a);
    }
  }

  /** The event that tells alarm `a` of the loss. */
  function LossOwed(st: State, c: nat, a: nat): seq<Event>
    requires c in st.counters
  {
    if a in st.alarms then [AlarmNotify(a, st.counters[c].value, st.alarms[a].trigger.testValue, Inactive)] else []
  }

  lemma {:induction false} LossNotices(st: State, c: nat, n: nat, a: nat)
    requires Valid(st) && Live(st, c) && n <= |st.counters[c].triggers|
    ensures var walked := st.counters[c].triggers[..n];
            NoticesOf(SyncDestroy.LossAlong(st, c, walked), a)
            == if OfAlarm(a) in walked then LossOwed(st, c, a) else []
  {
    var list := st.counters[c].triggers;
    assert SoundList(st, c, list);
    if n > 0 {
      var m: nat := n - 1;
      assert list[..n][..m] == list[..m] && list[..n] == list[..m] + [list[m]];
      LossNotices(st, c, m, a);
      NoticesConcat(SyncDestroy.LossAlong(st, c, list[..m]), SyncDestroy.LossOf(st, c, list[m]), a);
      LossOfOne(st, c, list[m], a);
      assert list[m] !in list[..m];
    }
  }

  /** Each alarm of the list is told once that it is Inactive, and no other alarm is told anything. */
  lemma DestroyNotifies(st: State, c: nat, a: nat)
    requires Valid(st) && Live(st, c)
    ensures OfAlarm(a) in st.counters[c].triggers ==> a in st.alarms
    ensures NoticesOf(SyncDestroy.AfterDestroy(st, c).log, a)
            == NoticesOf(st.log, a)
               + if OfAlarm(a) in st.counters[c].triggers
                 then [AlarmNotify(a, st.counters[c].value, st.alarms[a].trigger.testValue, Inactive)] else []
  {
    var list := st.counters[c].triggers;
    assert list[..|list|] == list;
    LossNotices(st, c, |list|, a);
    NoticesConcat(st.log, SyncDestroy.LossAlong(st, c, list), a);
  }

  /** The alarms of the list lose their counter and are Inactive, and keep the rest. No other alarm changes. */
  lemma DestroyDrops(st: State, c: nat, a: nat)
    requires Valid(st) && Live(st, c) && a in st.alarms
    ensures var al, r := st.alarms[a], SyncDestroy.AfterDestroy(st, c);
            && a in r.alarms
            && r.alarms[a] == if OfAlarm(a) in st.counters[c].triggers
                              then al.(state := Inactive, trigger := al.trigger.(counter := None)) else al
  {
    assert SoundList(st, c, st.counters[c].triggers);
  }
}
