/** The server's main loop over SYNC requests: what holds in every state of every run. */
module SyncRun {
  import opened Options
  import opened SyncValues
  import opened SyncModel
  import opened SyncChange
  import opened SyncServer
  import opened SyncTriggers
  import opened SyncAwait
  import opened SyncRequests
  import SyncDestroy
  import SyncIdle

  // ----- the idle-time counter

  /** IdleTimeCheckBrackets. */
  method IdleTimeCheckBrackets(s: Server, c: nat, idle: Int64, less: Option<Int64>, greater: Option<Int64>)
    requires Steady(s.St()) && Tidy(s.St()) && c in s.counters && NamesOnce(s.St(), c)
    modifies s
    ensures s.St() == SyncIdle.CheckedBrackets(old(s.St()), c, idle, less, greater)
  {
    if (greater.Some? && idle >= greater.value) || (less.Some? && idle <= less.value) {
      TidyAdvances(s.St(), c);
      s.ChangeCounter(c, idle);
    } else {
      var oldval := s.UpdateCounter(c, idle);
    }
  }

  lemma TidyAdvances(st: State, c: nat)
    requires Tidy(st) && Valid(st) && Live(st, c)
    ensures forall a :: OfAlarm(a) in st.counters[c].triggers ==> a in st.alarms && Advances(st.alarms[a])
  {
    assert SoundList(st, c, st.counters[c].triggers);
    forall a | OfAlarm(a) in st.counters[c].triggers
      ensures a in st.alarms && Advances(st.alarms[a])
    {
      assert TidyAlarm(st, a);
    }
  }

  /** IdleTimeWakeupHandler: it does what SyncIdle proves to lose nothing. */
  method IdleTimeWakeupHandler(s: Server, c: nat, w: SyncIdle.Wakeup)
    requires Running(s.St()) && SyncIdle.Idle(s.St(), c)
    modifies s
    ensures s.St() == SyncIdle.WokenUp(old(s.St()), c, w)
    ensures Running(s.St())
  {
    var si := s.counters[c].system.value;
    if si.less.None? && si.greater.None? {
      return;
    }
    if w.reset && w.idle != 0 {
      CheckedRunning(s.St(), c, 0, si.less, si.greater);
      IdleTimeCheckBrackets(s, c, 0, si.less, si.greater);
      si := s.counters[c].system.value;
    }
    CheckedRunning(s.St(), c, w.idle, si.less, si.greater);
    IdleTimeCheckBrackets(s, c, w.idle, si.less, si.greater);
  }

  // ----- the invariant of a run

  /** Awaits name each counter at most once. */
  ghost predicate NamesAllOnce(st: State) {
    forall c :: NamesOnce(st, c)
  }

  /** The conditions of pending awaits carry the CheckTrigger functions of their test types. */
  ghost predicate AwaitsAgree(st: State) {
    forall w :: w in st.awaits ==> UnionAgrees(st.awaits[w])
  }

  predicate UnionAgrees(u: AwaitUnion) {
    forall i :: 0 <= i < |u.conds| ==> Agrees(u.conds[i].trigger)
  }

  ghost predicate Running(st: State) {
    Steady(st) && Tidy(st) && NamesAllOnce(st) && AwaitsAgree(st)
  }

  lemma FewerAwaits(st: State, r: State)
    requires NamesAllOnce(st) && AwaitsAgree(st)
    requires forall w :: w in r.awaits ==> w in st.awaits && r.awaits[w] == st.awaits[w]
    ensures NamesAllOnce(r) && AwaitsAgree(r)
  {
    forall c ensures NamesOnce(r, c) {
      assert NamesOnce(st, c);
    }
  }

  /** An alarm stays on its list, whatever awaits leave it. */
  lemma AlarmStays(st: State, r: State, out: set<nat>, a: nat)
    requires SyncChange.KeepsLists(st, r, out) && NoneDying(st) && a in st.alarms && TidyAlarm(st, a)
    ensures var c := st.alarms[a].trigger.counter;
            c.Some? ==> c.value in r.counters && OfAlarm(a) in r.counters[c.value].triggers
  {
  }

  /** An alarm that goes off keeps all but its test value and state. */
  lemma ChangeKeepsAlarm(st: State, c: nat, v: Int64, a: nat)
    requires c in st.counters && a in st.alarms && st.alarms[a].state != Destroyed
    ensures var al, al' := st.alarms[a], AlarmsAfter(st, c, v, st.counters[c].triggers)[a];
            && Agrees(al.trigger) == Agrees(al'.trigger) && al'.trigger.check == al.trigger.check
            && al'.trigger.counter == al.trigger.counter && al'.delta == al.delta && al'.state != Destroyed
  {
  }

  lemma ChangedTidy(st: State, c: nat, v: Int64, a: nat)
    requires Steady(st) && Tidy(st) && c in st.counters && a in st.alarms
    ensures a in AfterChange(st, c, v).alarms && TidyAlarm(AfterChange(st, c, v), a)
  {
    ChangeKeepsLists(st, c, v);
    AlarmStays(st, AfterChange(st, c, v), UnblockedBy(st, c, v, st.counters[c].triggers), a);
    ChangeKeepsAlarm(st, c, v, a);
  }

  lemma ChangedRunning(st: State, c: nat, v: Int64)
    requires Running(st) && c in st.counters
    ensures Running(AfterChange(st, c, v)) && c in AfterChange(st, c, v).counters
  {
    var r := AfterChange(st, c, v);
    ChangeKeepsValid(st, c, v);
    ChangeKeepsLists(st, c, v);
    FewerAwaits(st, r);
    forall a | a in r.alarms ensures TidyAlarm(r, a) {
      ChangedTidy(st, c, v, a);
    }
  }

  lemma SilentRunning(st: State, r: State)
    requires Running(st) && SameLists(st, r) && r.awaits == st.awaits && r.alarms == st.alarms && NoneDying(r)
    ensures Running(r)
  {
    SameListsSteady(st, r);
    FewerAwaits(st, r);
    forall a | a in r.alarms ensures TidyAlarm(r, a) {
      assert TidyAlarm(st, a);
    }
  }

  lemma CheckedRunning(st: State, c: nat, idle: Int64, less: Option<Int64>, greater: Option<Int64>)
    requires Running(st) && SyncIdle.Idle(st, c)
    ensures var r := SyncIdle.CheckedBrackets(st, c, idle, less, greater);
            Running(r) && SyncIdle.Idle(r, c)
    ensures NamesOnce(st, c)
  {
    if SyncIdle.Crosses(less, greater, idle) {
      ChangedRunning(st, c, idle);
    } else {
      SilentRunning(st, st.(counters := WithValue(st.counters, c, idle)));
    }
  }

  lemma DestroyedTidy(st: State, c: nat, a: nat)
    requires Steady(st) && Tidy(st) && c in st.counters && a in st.alarms
    ensures a in SyncDestroy.AfterDestroy(st, c).alarms && TidyAlarm(SyncDestroy.AfterDestroy(st, c), a)
  {
    assert TidyAlarm(st, a);
    var r := SyncDestroy.AfterDestroy(st, c);
    assert SoundList(st, c, st.counters[c].triggers);
    if st.alarms[a].trigger.counter.Some? {
      var d := st.alarms[a].trigger.counter.value;
      WithdrawnKeeps(st, st.counters[d], TriggersOf(st, SyncDestroy.ReleasedBy(st, st.counters[c].triggers)));
    }
  }

  lemma DestroyedRunning(st: State, c: nat)
    requires Running(st) && c in st.counters
    ensures Running(SyncDestroy.AfterDestroy(st, c))
  {
    var r := SyncDestroy.AfterDestroy(st, c);
    SyncDestroy.DestroyKeepsValid(st, c);
    FewerAwaits(st, r);
    forall d | d in r.counters ensures !r.counters[d].dying {
      WithdrawnKeeps(st, st.counters[d], TriggersOf(st, SyncDestroy.ReleasedBy(st, st.counters[c].triggers)));
    }
    forall a | a in r.alarms ensures TidyAlarm(r, a) {
      DestroyedTidy(st, c, a);
    }
  }

  lemma ReleaseKeepsLists(st: State, w: nat)
    ensures SyncChange.KeepsLists(st, Release(st, {w}), {w})
  {
    var r := Release(st, {w});
    forall d | d in st.counters
      ensures r.counters[d].dying == st.counters[d].dying
      ensures !st.counters[d].dying ==>
                r.counters[d].triggers == Survivors(st.counters[d].triggers, TriggersOf(st, {w}))
    {
      WithdrawnKeeps(st, st.counters[d], TriggersOf(st, {w}));
    }
    assert r.counters.Keys == st.counters.Keys;
  }

  lemma ReleasedRunning(st: State, w: nat)
    requires Running(st)
    ensures Running(Release(st, {w}))
  {
    var r := Release(st, {w});
    ReleaseKeepsLists(st, w);
    KeepsSound(st, r, {w});
    FewerAwaits(st, r);
    forall a | a in r.alarms ensures TidyAlarm(r, a) {
      assert TidyAlarm(st, a);
      AlarmStays(st, r, {w}, a);
    }
  }

  lemma AlarmRunning(st: State, r: State, a: nat)
    requires Running(st) && Steady(r) && Tidy(r) && OnlyAlarm(st, r, a)
    ensures Running(r)
  {
    FewerAwaits(st, r);
  }

  ghost predicate DistinctItems(items: seq<WaitCondition>) {
    forall i, j :: 0 <= i < j < |items| && items[i].counter.Some? ==> items[i].counter != items[j].counter
  }

  lemma AwaitNamesOnce(st: State, mid: State, client: nat, w: nat, items: seq<WaitCondition>, clock: nat -> Int64)
    requires NamesAllOnce(st) && AwaitsAgree(st)
    requires Building(st, mid, client, w, items, |items|, clock) && DistinctItems(items)
    ensures NamesAllOnce(mid) && AwaitsAgree(mid)
  {
    forall x | x in mid.awaits && x != w ensures x in st.awaits && mid.awaits[x] == st.awaits[x] {
      assert x in mid.awaits - {w};
      assert (mid.awaits - {w})[x] == mid.awaits[x];
    }
    forall c ensures NamesOnce(mid, c) {
      assert NamesOnce(st, c);
    }
    forall x | x in mid.awaits ensures UnionAgrees(mid.awaits[x]) {
      if x != w {
        assert UnionAgrees(st.awaits[x]);
      }
    }
  }

  lemma AwaitTidy(st: State, mid: State, client: nat, w: nat, items: seq<WaitCondition>, clock: nat -> Int64, a: nat)
    requires Steady(st) && Tidy(st) && Building(st, mid, client, w, items, |items|, clock) && a in st.alarms
    ensures a in mid.alarms && TidyAlarm(mid, a)
  {
    assert TidyAlarm(st, a);
    if st.alarms[a].trigger.counter.Some? {
      var d := st.alarms[a].trigger.counter.value;
      assert OfAlarm(a) in Survivors(mid.counters[d].triggers, TriggersOf(mid, {w}));
    }
  }

  lemma BuiltRunning(st: State, mid: State, client: nat, w: nat, items: seq<WaitCondition>, clock: nat -> Int64)
    requires Running(st) && Building(st, mid, client, w, items, |items|, clock) && DistinctItems(items)
    ensures Running(mid)
  {
    AwaitNamesOnce(st, mid, client, w, items, clock);
    forall a | a in mid.alarms ensures TidyAlarm(mid, a) {
      AwaitTidy(st, mid, client, w, items, clock, a);
    }
  }

  lemma AwaitRunning(st: State, r: State, client: nat, w: nat, items: seq<WaitCondition>, clock: nat -> Int64)
    requires Running(st) && Steady(r) && Accepted(st, r, client, w, items, clock) && DistinctItems(items)
    ensures Running(r)
  {
    var mid :| Building(st, mid, client, w, items, |items|, clock) && mid.log == st.log
             && Blocked(st, mid, r, client, w);
    BlockedRunning(st, mid, r, client, w, items, clock);
  }

  lemma BlockedRunning(st: State, mid: State, r: State, client: nat, w: nat, items: seq<WaitCondition>,
                       clock: nat -> Int64)
    requires Running(st) && Steady(r) && DistinctItems(items)
    requires Building(st, mid, client, w, items, |items|, clock) && Blocked(st, mid, r, client, w)
    ensures Running(r)
  {
    if SomeTrue(mid, w) {
      SilentRunning(st, r);
    } else {
      BuiltRunning(st, mid, client, w, items, clock);
      LogRunning(mid, r);
    }
  }

  lemma LogRunning(st: State, r: State)
    requires Running(st) && r == st.(log := r.log)
    ensures Running(r)
  {
    SilentRunning(st, r);
  }

  // ----- the requests

  datatype Request =
    | CreateCounter(counter: nat, value: Int64, system: Option<CounterType>)
    | SetCounter(counter: nat, value: Int64)
    | ChangeCounter(counter: nat, amount: Int64)
    | DestroyCounter(counter: nat)
    | AwaitRequest(client: nat, id: nat, items: seq<WaitCondition>, clock: nat -> Int64, room: nat -> bool)
    | CreateAlarm(alarm: nat, attrs: Attributes, clock: nat -> Int64, memory: bool)
    | ChangeAlarm(alarm: nat, attrs: Attributes, clock: nat -> Int64, memory: bool)
    | DestroyAlarm(alarm: nat)
    | QueryCounter(counter: nat, clock: nat -> Int64)
    | DropAwait(id: nat)
    | IdleWakeup(counter: nat, wakeup: SyncIdle.Wakeup)

  function NewCounter(v: Int64, system: Option<CounterType>): Counter {
    Counter(v, match system case None => None case Some(ct) => Some(SysInfo(ct, None, None)), [], false)
  }

  lemma NewCounterRunning(st: State, c: nat, cnt: Counter)
    requires Running(st) && c !in st.counters && cnt.triggers == [] && !cnt.dying
    ensures Running(st.(counters := st.counters[c := cnt]))
  {
    var r := st.(counters := st.counters[c := cnt]);
    FewerAwaits(st, r);
    forall d | d in r.counters ensures SoundList(r, d, r.counters[d].triggers) {
      if d != c {
        assert SoundList(st, d, st.counters[d].triggers);
      }
    }
    forall w | w in r.awaits ensures RegisteredAwait(r, w) {
      assert RegisteredAwait(st, w);
    }
    forall a | a in r.alarms ensures TidyAlarm(r, a) {
      assert TidyAlarm(st, a);
    }
  }

  predicate IsSystem(st: State, c: nat)
    requires c in st.counters
  {
    st.counters[c].system.Some?
  }

  /** The counter requests. A client may not change or destroy a system counter, and a sum that leaves the
      range is refused. */
  ghost function CreateEffect(st: State, c: nat, v: Int64, system: Option<CounterType>): State {
    if c in st.counters then st else st.(counters := st.counters[c := NewCounter(v, system)])
  }

  ghost function SetEffect(st: State, c: nat, v: Int64): State {
    if c !in st.counters || IsSystem(st, c) then st else SyncChange.AfterChange(st, c, v)
  }

  ghost function AddEffect(st: State, c: nat, amount: Int64): State {
    if c !in st.counters || IsSystem(st, c) || !Fits(st.counters[c].value + amount) then st
    else SyncChange.AfterChange(st, c, st.counters[c].value + amount)
  }

  ghost function DestroyEffect(st: State, c: nat): State {
    if c !in st.counters || IsSystem(st, c) then st else SyncDestroy.AfterDestroy(st, c)
  }

  /** A system counter that is queried stores the answer, and no trigger is looked at. */
  function QueryEffect(st: State, c: nat, clock: nat -> Int64): State {
    AskedFor(st, Some(c), clock)
  }

  /** A client that dies while it is blocked takes its await with it, and nothing is sent. */
  function DropEffect(st: State, w: nat): State {
    if w in st.awaits then Release(st, {w}) else st
  }

  /** The state after a request about alarms. */
  function AlarmAfter(st: State, r: Request): State {
    match r
    case CreateAlarm(a, attrs, clock, memory) =>
      if a in st.alarms then st else CreatedAlarm(st, a, attrs, clock, memory)
    case ChangeAlarm(a, attrs, clock, memory) =>
      if a in st.alarms then ChangedAlarm(st, a, attrs, clock, memory) else st
    case DestroyAlarm(a) => if a in st.alarms then DestroyedAlarm(st, a) else st
    case _ => st
  }

  /** What it means: a refused new alarm leaves nothing behind, an accepted one ends quiet, and a destroyed one is
      on no list; no other alarm or await is touched. */
  ghost predicate AlarmMeans(st: State, r: Request, st': State) {
    match r
    case CreateAlarm(a, attrs, clock, memory) =>
      a !in st.alarms ==>
        if ChangeStatus(st.counters, NEW_ALARM, attrs, clock, memory) == Success
        then a in st'.alarms && OnlyAlarm(st, st', a) && Quiet(st', a)
        else Unchanged(st, st') && st'.log == st.log
    case ChangeAlarm(a, attrs, clock, memory) =>
      a in st.alarms ==>
        a in st'.alarms && OnlyAlarm(st, st', a)
        && if ChangeStatus(st.counters, st.alarms[a], attrs, clock, memory) == Success then Quiet(st', a)
           else st'.log == st.log
    case DestroyAlarm(a) => a in st.alarms ==> a !in st'.alarms && OnlyAlarm(st, st', a) && OnNoList(st', OfAlarm(a))
    case _ => true
  }

  /** The state after any other request, and after a wakeup. */
  ghost function CounterAfter(st: State, r: Request): State {
    match r
    case CreateCounter(c, v, system) => CreateEffect(st, c, v, system)
    case SetCounter(c, v) => SetEffect(st, c, v)
    case ChangeCounter(c, amount) => AddEffect(st, c, amount)
    case DestroyCounter(c) => DestroyEffect(st, c)
    case QueryCounter(c, clock) => QueryEffect(st, c, clock)
    case DropAwait(w) => DropEffect(st, w)
    case IdleWakeup(c, w) => if SyncIdle.Idle(st, c) then SyncIdle.WokenUp(st, c, w) else st
    case _ => st
  }

  /** What a request does. */
  ghost predicate Effect(st: State, r: Request, st': State) {
    match r
    case AwaitRequest(client, id, items, clock, room) =>
      if id in st.awaits then st' == st else AwaitDone(st, st', client, id, items, clock, room)
    case CreateAlarm(_, _, _, _) => st' == AlarmAfter(st, r) && AlarmMeans(st, r, st')
    case ChangeAlarm(_, _, _, _) => st' == AlarmAfter(st, r) && AlarmMeans(st, r, st')
    case DestroyAlarm(_) => st' == AlarmAfter(st, r) && AlarmMeans(st, r, st')
    case _ => st' == CounterAfter(st, r)
  }

  /** ProcSyncCreateCounter and SyncCreateSystemCounter. */
  method ServeCreate(s: Server, c: nat, v: Int64, system: Option<CounterType>)
    requires Running(s.St())
    modifies s
    ensures Running(s.St()) && s.St() == CreateEffect(old(s.St()), c, v, system)
  {
    if c !in s.counters {
      NewCounterRunning(s.St(), c, NewCounter(v, system));
      s.counters := s.counters[c := NewCounter(v, system)];
    }
  }

  /** ProcSyncSetCounter */
  method ServeSet(s: Server, c: nat, v: Int64)
    requires Running(s.St())
    modifies s
    ensures Running(s.St()) && s.St() == SetEffect(old(s.St()), c, v)
  {
    if c in s.counters && s.counters[c].system.None? {
      TidyAdvances(s.St(), c);
      assert NamesOnce(s.St(), c);
      ChangedRunning(s.St(), c, v);
      s.ChangeCounter(c, v);
    }
  }

  /** ProcSyncChangeCounter */
  method ServeAdd(s: Server, c: nat, amount: Int64)
    requires Running(s.St())
    modifies s
    ensures Running(s.St()) && s.St() == AddEffect(old(s.St()), c, amount)
  {
    if c in s.counters && s.counters[c].system.None? {
      var sum := Add(s.counters[c].value, amount);
      if !sum.1 {
        WrapExact(s.counters[c].value + amount);
        AddIsSet(s.St(), c, amount, sum.0);
        ServeSet(s, c, sum.0);
      }
    }
  }

  lemma AddIsSet(st: State, c: nat, amount: Int64, v: Int64)
    requires c in st.counters && v == st.counters[c].value + amount
    ensures SetEffect(st, c, v) == AddEffect(st, c, amount)
  {
  }

  /** ProcSyncDestroyCounter */
  method ServeDestroy(s: Server, c: nat)
    requires Running(s.St())
    modifies s
    ensures Running(s.St()) && s.St() == DestroyEffect(old(s.St()), c)
  {
    if c in s.counters && s.counters[c].system.None? {
      DestroyedRunning(s.St(), c);
      s.FreeCounter(c);
    }
  }

  /** ProcSyncQueryCounter */
  method ServeQuery(s: Server, c: nat, clock: nat -> Int64)
    requires Running(s.St())
    modifies s
    ensures Running(s.St()) && s.St() == QueryEffect(old(s.St()), c, clock)
  {
    if c in s.counters {
      QueryValue(s, Some(c), clock);
      SilentRunning(old(s.St()), s.St());
    }
  }

  /** FreeAwait, when the client of the await goes away. */
  method ServeDrop(s: Server, w: nat)
    requires Running(s.St())
    modifies s
    ensures Running(s.St()) && s.St() == DropEffect(old(s.St()), w)
  {
    if w in s.awaits {
      ReleasedRunning(s.St(), w);
      s.FreeAwait(w);
    }
  }

  method ServeAwait(s: Server, r: Request)
    requires Running(s.St()) && r.AwaitRequest? && DistinctItems(r.items)
    modifies s
    ensures Running(s.St()) && Effect(old(s.St()), r, s.St())
  {
    if r.id !in s.awaits {
      ghost var st := s.St();
      var status := ProcAwait(s, r.client, r.id, r.items, r.clock, r.room);
      if status == Success {
        AwaitRunning(st, s.St(), r.client, r.id, r.items, r.clock);
      } else {
        SilentRunning(st, s.St());
      }
    }
  }

  /** The alarm requests. Only a refused ChangeAlarm that is not harmless ends the tidiness. */
  method ServeAlarm(s: Server, r: Request) returns (tidy: bool)
    requires Running(s.St()) && (r.CreateAlarm? || r.ChangeAlarm? || r.DestroyAlarm?)
    modifies s
    ensures Steady(s.St()) && (tidy ==> Running(s.St())) && Effect(old(s.St()), r, s.St())
    ensures tidy == !Untidy(old(s.St()), r)
  {
    ghost var st := s.St();
    tidy := true;
    if r.CreateAlarm? {
      if r.alarm !in s.alarms {
        var status := ProcCreateAlarm(s, r.alarm, r.attrs, r.clock, r.memory);
        if status == Success {
          AlarmRunning(st, s.St(), r.alarm);
        } else {
          SilentRunning(st, s.St());
        }
      }
    } else if r.alarm in s.alarms {
      if r.ChangeAlarm? {
        tidy := Harmless(s.counters, s.alarms[r.alarm], r.attrs, r.clock, r.memory);
        var status := ProcChangeAlarm(s, r.alarm, r.attrs, r.clock, r.memory);
        tidy := tidy || status == Success;
      } else {
        ProcDestroyAlarm(s, r.alarm);
      }
      if tidy {
        AlarmRunning(st, s.St(), r.alarm);
      }
    }
  }

  /** A refused ChangeAlarm that is not harmless. */
  ghost predicate Untidy(st: State, r: Request) {
    r.ChangeAlarm? && r.alarm in st.alarms
    && ChangeStatus(st.counters, st.alarms[r.alarm], r.attrs, r.clock, r.memory) != Success
    && !Harmless(st.counters, st.alarms[r.alarm], r.attrs, r.clock, r.memory)
  }

  method ServeIdle(s: Server, r: Request)
    requires Running(s.St()) && r.IdleWakeup?
    modifies s
    ensures Running(s.St()) && Effect(old(s.St()), r, s.St())
  {
    var c := r.counter;
    if c in s.counters && s.counters[c].system.Some? && s.counters[c].system.value.counterType == Unrestricted {
      IdleTimeWakeupHandler(s, c, r.wakeup);
    }
  }

  /** One request. */
  method Serve(s: Server, r: Request) returns (tidy: bool)
    requires Running(s.St())
    requires r.AwaitRequest? ==> DistinctItems(r.items)
    modifies s
    ensures Steady(s.St()) && (tidy ==> Running(s.St())) && Effect(old(s.St()), r, s.St())
    ensures tidy == !Untidy(old(s.St()), r)
  {
    tidy := true;
    match r {
      case CreateCounter(c, v, system) => ServeCreate(s, c, v, system);
      case SetCounter(c, v) => ServeSet(s, c, v);
      case ChangeCounter(c, amount) => ServeAdd(s, c, amount);
      case DestroyCounter(c) => ServeDestroy(s, c);
      case QueryCounter(c, clock) => ServeQuery(s, c, clock);
      case DropAwait(w) => ServeDrop(s, w);
      case AwaitRequest(_, _, _, _, _) => ServeAwait(s, r);
      case IdleWakeup(_, _) => ServeIdle(s, r);
      case _ => tidy := ServeAlarm(s, r);
    }
  }

  /** A run: the states between the requests. */
  ghost predicate RunOf(requests: seq<Request>, trace: seq<State>) {
    && 0 < |trace| <= |requests| + 1
    && trace[0] == State(map[], map[], map[], [])
    && forall i :: 0 <= i < |trace| - 1 ==> Effect(trace[i], requests[i], trace[i + 1])
  }

  /** The trigger-list invariant over all runs: however many requests are served, in whatever order,
      every trigger is on at most one list, at most once, and only on the list of the counter it
      names; every pending condition and every alarm is on the list it belongs to. The run is followed
      until a refused ChangeAlarm leaves an alarm untidy; the lists are sound even then. */
  method Run(requests: seq<Request>) returns (s: Server, ghost trace: seq<State>)
    requires forall r :: r in requests && r.AwaitRequest? ==> DistinctItems(r.items)
    ensures fresh(s) && RunOf(requests, trace) && s.St() == trace[|trace| - 1]
    ensures forall i :: 0 <= i < |trace| ==> Steady(trace[i])
    ensures forall i :: 0 <= i < |trace| - 1 ==> Running(trace[i])
    ensures (|trace| == |requests| + 1 && Running(s.St()))
            || (|trace| >= 2 && Untidy(trace[|trace| - 2], requests[|trace| - 2]))
  {
    s := new Server();
    var served := 0;
    trace := [s.St()];
    while served != |requests|
      invariant served <= |requests| && fresh(s) && Running(s.St())
      invariant |trace| == served + 1 && RunOf(requests, trace) && s.St() == trace[served]
      invariant forall i :: 0 <= i < |trace| ==> Running(trace[i])
    {
      assert requests[served] in requests;
      var tidy := Serve(s, requests[served]);
      ghost var before := trace;
      trace := trace + [s.St()];
      RunLonger(requests, before, s.St());
      if !tidy {
        return;
      }
      served := served + 1;
    }
  }

  lemma RunLonger(requests: seq<Request>, trace: seq<State>, st: State)
    requires RunOf(requests, trace) && |trace| <= |requests|
    requires Effect(trace[|trace| - 1], requests[|trace| - 1], st)
    ensures RunOf(requests, trace + [st])
  {
  }
}
