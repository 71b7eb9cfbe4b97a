/** Requests between the wakeups of the idle-time counter: which of them leave every trigger guarded. */
module SyncWatch {
  import opened Options
  import opened SyncValues
  import opened SyncModel
  import opened SyncBrackets
  import opened SyncChange
  import opened SyncServer
  import opened SyncTriggers
  import opened SyncAwait
  import opened SyncRequests
  import opened SyncRun
  import opened SyncIdle
  import opened SyncStore
  import SyncDestroy

  // ----- what keeps the triggers guarded

  lemma RunningOrderly(st: State, c: nat)
    requires Running(st) && c in st.counters
    ensures Orderly(st, c)
  {
    assert SoundList(st, c, st.counters[c].triggers);
    forall t | t in st.counters[c].triggers
      ensures Agrees(TrigOf(st, t)) && (t.OfAlarm? && t.alarm in st.alarms ==> Advances(st.alarms[t.alarm]))
    {
      match t {
        case OfAlarm(a) => assert TidyAlarm(st, a);
        case OfAwait(w, i) => assert UnionAgrees(st.awaits[w]);
      }
    }
  }

  /** The triggers of `c` that can act, but perhaps `but`, are guarded. */
  ghost predicate OthersGuarded(st: State, c: nat, but: Option<TrigId>)
    requires Idle(st, c)
  {
    var cnt := st.counters[c];
    forall t :: t in cnt.triggers && CanAct(st, t) && but != Some(t) ==>
      Guarded(TrigOf(st, t), cnt.value, cnt.system.value.less, cnt.system.value.greater)
  }

  /** This one, if it is on the list and can act, is guarded. */
  ghost predicate OneGuarded(st: State, c: nat, one: Option<TrigId>)
    requires Idle(st, c)
  {
    var cnt := st.counters[c];
    one.Some? && one.value in cnt.triggers && CanAct(st, one.value) ==>
      Guarded(TrigOf(st, one.value), cnt.value, cnt.system.value.less, cnt.system.value.greater)
  }

  lemma ReadyParts(st: State, c: nat, but: Option<TrigId>)
    requires Running(st) && Idle(st, c)
    ensures Ready(st, c) <==> OthersGuarded(st, c, but) && OneGuarded(st, c, but)
  {
    RunningOrderly(st, c);
  }

  lemma SameGuards(st: State, r: State, c: nat, but: Option<TrigId>)
    requires Idle(st, c) && c in r.counters && r.counters[c] == st.counters[c]
    requires forall t :: t in st.counters[c].triggers && but != Some(t) ==> KeptTrigger(st, r, t)
    ensures OthersGuarded(r, c, but) <==> OthersGuarded(st, c, but)
  {
    forall t | t in st.counters[c].triggers && but != Some(t)
      ensures CanAct(r, t) == CanAct(st, t) && TrigOf(r, t) == TrigOf(st, t)
    {
      assert KeptTrigger(st, r, t);
    }
  }

  lemma SameReady(st: State, r: State, c: nat)
    requires Ready(st, c) && Running(r) && c in r.counters && r.counters[c] == st.counters[c]
    requires forall t :: t in st.counters[c].triggers ==> KeptTrigger(st, r, t)
    ensures Ready(r, c)
  {
    SameGuards(st, r, c, None);
    ReadyParts(r, c, None);
  }

  /** The counter has stored `q`; `but` may have changed besides. */
  lemma StoredGuards(st: State, r: State, c: nat, q: Int64, but: Option<TrigId>)
    requires Idle(st, c) && OthersGuarded(st, c, but)
    requires c in r.counters && r.counters[c] == st.counters[c].(value := q)
    requires forall t :: t in st.counters[c].triggers && but != Some(t) ==> KeptTrigger(st, r, t)
    ensures OthersGuarded(r, c, but) <==> NoneSlips(st, c, q, but)
  {
    var cnt := st.counters[c];
    forall t | t in cnt.triggers && but != Some(t)
      ensures CanAct(r, t) == CanAct(st, t) && TrigOf(r, t) == TrigOf(st, t)
      ensures CanAct(st, t) ==>
                (Guarded(TrigOf(r, t), q, cnt.system.value.less, cnt.system.value.greater)
                 <==> !SlipsBack(TrigOf(st, t), cnt.value, q, cnt.system.value.less, cnt.system.value.greater))
    {
      assert KeptTrigger(st, r, t);
      if CanAct(st, t) {
        SlipsExactly(TrigOf(st, t), cnt.value, q, cnt.system.value.less, cnt.system.value.greater);
      }
    }
  }

  /** The brackets have been computed at the present value. `but` may have changed or be new on the list, and any
      other new trigger is not true. */
  lemma RebracketedGuards(st: State, r: State, c: nat, gone: set<TrigId>, more: set<Trigger>, but: Option<TrigId>)
    requires c in st.counters && Running(r) && Idle(r, c) && FreshBrackets(r, c) && SameData(st, r, c, gone, more)
    requires but.Some? ==> but.value in gone
    requires forall t :: (t in r.counters[c].triggers && (t !in st.counters[c].triggers || t in gone)
                          && but != Some(t)) ==>
               !Holds(TrigOf(r, t).check, TrigOf(r, t).testValue, r.counters[c].value, r.counters[c].value)
    ensures OthersGuarded(r, c, but) <==> AllCovered(st, c, gone, more, r.counters[c].value)
  {
    var cnt := r.counters[c];
    forall t | t in st.counters[c].triggers && t !in gone
      ensures t in cnt.triggers && CanAct(r, t) == CanAct(st, t)
      ensures Guarded(TrigOf(r, t), cnt.value, cnt.system.value.less, cnt.system.value.greater)
              <==> (IsComparison(TrigOf(st, t).check) ==> Covered(st, c, gone, more, cnt.value, TrigOf(st, t)))
    {
      KeptGuard(st, r, c, gone, more, t);
    }
    forall t | t in cnt.triggers && (t !in st.counters[c].triggers || t in gone) && but != Some(t)
      ensures Guarded(TrigOf(r, t), cnt.value, cnt.system.value.less, cnt.system.value.greater)
    {
      RunningOrderly(r, c);
      FreshFalse(r, c, t);
    }
  }

  lemma KeptGuard(st: State, r: State, c: nat, gone: set<TrigId>, more: set<Trigger>, t: TrigId)
    requires c in st.counters && Running(r) && Idle(r, c) && FreshBrackets(r, c) && SameData(st, r, c, gone, more)
    requires t in st.counters[c].triggers && t !in gone
    ensures t in r.counters[c].triggers && KeptTrigger(st, r, t)
    ensures var cnt := r.counters[c];
            Guarded(TrigOf(r, t), cnt.value, cnt.system.value.less, cnt.system.value.greater)
            <==> (IsComparison(TrigOf(st, t).check) ==> Covered(st, c, gone, more, cnt.value, TrigOf(st, t)))
  {
    assert KeptTrigger(st, r, t);
    if IsComparison(TrigOf(st, t).check) {
      GuardedCovered(st, r, c, gone, more, TrigOf(st, t));
    } else {
      RunningOrderly(r, c);
      FreshFalse(r, c, t);
    }
  }

  // ----- triggers that leave the list

  /** If a trigger of the list is among these, the brackets are computed again when they leave, at the value the counter
      has; then the comparisons that stay must still be covered. */
  ghost predicate LeftInTime(st: State, c: nat, gone: set<TrigId>)
    requires c in st.counters
  {
    Loses(st.counters[c], gone) ==> AllCovered(st, c, gone, {}, st.counters[c].value)
  }

  lemma WithdrawnReady(st: State, r: State, c: nat, gone: set<TrigId>)
    requires Ready(st, c) && Running(r) && c in r.counters
    requires r.counters[c] == Withdrawn(st, st.counters[c], gone)
    requires forall t :: t in st.counters[c].triggers && t !in gone ==> KeptTrigger(st, r, t)
    ensures r.counters[c].value == st.counters[c].value && Idle(r, c)
    ensures Ready(r, c) <==> LeftInTime(st, c, gone)
  {
    var cnt := st.counters[c];
    if Loses(cnt, gone) {
      var rest := cnt.(triggers := Survivors(cnt.triggers, gone));
      BracketedKeeps(st, rest);
      BracketedFresh(st, r, c, rest);
      assert SameData(st, r, c, gone, {});
      RebracketedGuards(st, r, c, gone, {}, None);
      ReadyParts(r, c, None);
    } else {
      SameReady(st, r, c);
    }
  }

  /** As far as `c` is concerned, some awaits have been freed. */
  ghost predicate OnlyFrees(st: State, r: State, c: nat, out: set<nat>) {
    && c in st.counters && c in r.counters && r.awaits == st.awaits - out
    && r.counters[c] == Withdrawn(st, st.counters[c], TriggersOf(st, out))
    && forall t :: t in st.counters[c].triggers && t !in TriggersOf(st, out) ==> KeptTrigger(st, r, t)
  }

  /** The triggers of the awaits that are not there any more. */
  ghost function Freed(st: State, r: State): set<TrigId> {
    TriggersOf(st, st.awaits.Keys - r.awaits.Keys)
  }

  lemma FreesReady(st: State, r: State, c: nat, out: set<nat>)
    requires Ready(st, c) && Running(r) && OnlyFrees(st, r, c, out)
    ensures r.counters[c].value == st.counters[c].value && Idle(r, c)
    ensures Ready(r, c) <==> LeftInTime(st, c, Freed(st, r))
  {
    assert Freed(st, r) == TriggersOf(st, out);
    WithdrawnReady(st, r, c, TriggersOf(st, out));
  }

  lemma FreesNone(st: State, r: State, c: nat)
    requires c in st.counters && c in r.counters && r.counters[c] == st.counters[c]
    requires r.awaits == st.awaits && r.alarms == st.alarms
    ensures OnlyFrees(st, r, c, {})
  {
    assert TriggersOf(st, {}) == {};
    assert st.awaits - {} == st.awaits;
  }

  lemma FreesTwice(st: State, mid: State, r: State, c: nat, out: set<nat>, next: set<nat>)
    requires OnlyFrees(st, mid, c, out) && OnlyFrees(mid, r, c, next)
    ensures OnlyFrees(st, r, c, out + next)
  {
    var gone, more := TriggersOf(st, out), TriggersOf(mid, next);
    assert TriggersOf(st, out + next) == gone + more;
    assert st.awaits - out - next == st.awaits - (out + next);
    forall t | t in st.counters[c].triggers && t !in gone ensures TrigOf(st, t) == TrigOf(mid, t) {
      assert KeptTrigger(st, mid, t);
    }
    WithdrawnTwice(st, mid, st.counters[c], gone, more);
    forall t | t in st.counters[c].triggers && t !in gone + more ensures KeptTrigger(st, r, t) {
      assert KeptTrigger(st, mid, t);
      WithdrawnKeeps(st, st.counters[c], gone);
      assert !st.counters[c].dying ==> t in mid.counters[c].triggers;
    }
  }

  // ----- requests about other counters, and their wakeups

  lemma OtherChangeKeeps(st: State, d: nat, v: Int64, c: nat, t: TrigId)
    requires Running(st) && d in st.counters && c in st.counters && d != c && t in st.counters[c].triggers
    requires t !in TriggersOf(st, UnblockedBy(st, d, v, st.counters[d].triggers))
    ensures KeptTrigger(st, AfterChange(st, d, v), t)
  {
    assert SoundList(st, c, st.counters[c].triggers) && SoundList(st, d, st.counters[d].triggers);
  }

  lemma OtherChangeFrees(st: State, d: nat, v: Int64, c: nat)
    requires Running(st) && d in st.counters && c in st.counters && d != c
    ensures OnlyFrees(st, AfterChange(st, d, v), c, UnblockedBy(st, d, v, st.counters[d].triggers))
  {
    var r, gone := AfterChange(st, d, v), TriggersOf(st, UnblockedBy(st, d, v, st.counters[d].triggers));
    forall t | t in st.counters[c].triggers && t !in gone ensures KeptTrigger(st, r, t) {
      OtherChangeKeeps(st, d, v, c, t);
    }
  }

  lemma OtherDestroyKeeps(st: State, d: nat, c: nat, t: TrigId)
    requires Running(st) && d in st.counters && c in st.counters && d != c && t in st.counters[c].triggers
    requires t !in TriggersOf(st, SyncDestroy.ReleasedBy(st, st.counters[d].triggers))
    ensures KeptTrigger(st, SyncDestroy.AfterDestroy(st, d), t)
  {
    assert SoundList(st, c, st.counters[c].triggers) && SoundList(st, d, st.counters[d].triggers);
  }

  lemma OtherDestroyFrees(st: State, d: nat, c: nat)
    requires Running(st) && d in st.counters && c in st.counters && d != c
    ensures OnlyFrees(st, SyncDestroy.AfterDestroy(st, d), c, SyncDestroy.ReleasedBy(st, st.counters[d].triggers))
  {
    var r, gone := SyncDestroy.AfterDestroy(st, d), TriggersOf(st, SyncDestroy.ReleasedBy(st, st.counters[d].triggers));
    forall t | t in st.counters[c].triggers && t !in gone ensures KeptTrigger(st, r, t) {
      OtherDestroyKeeps(st, d, c, t);
    }
  }

  lemma ReleaseFrees(st: State, w: nat, c: nat)
    requires c in st.counters
    ensures OnlyFrees(st, Release(st, {w}), c, {w})
  {
    forall t | t !in TriggersOf(st, {w}) ensures KeptTrigger(st, Release(st, {w}), t) {
    }
  }

  lemma OtherCheckFrees(st: State, d: nat, idle: Int64, less: Option<Int64>, greater: Option<Int64>, c: nat)
    returns (out: set<nat>)
    requires Running(st) && Idle(st, d) && c in st.counters && d != c
    ensures var r := CheckedBrackets(st, d, idle, less, greater); Running(r) && Idle(r, d) && OnlyFrees(st, r, c, out)
  {
    CheckedRunning(st, d, idle, less, greater);
    if Crosses(less, greater, idle) {
      out := UnblockedBy(st, d, idle, st.counters[d].triggers);
      OtherChangeFrees(st, d, idle, c);
    } else {
      out := {};
      FreesNone(st, CheckedBrackets(st, d, idle, less, greater), c);
    }
  }

  lemma OtherWakeupFrees(st: State, d: nat, w: Wakeup, c: nat) returns (out: set<nat>)
    requires Running(st) && Idle(st, d) && c in st.counters && d != c
    ensures OnlyFrees(st, WokenUp(st, d, w), c, out)
  {
    var si := st.counters[d].system.value;
    if si.less.None? && si.greater.None? {
      out := {};
      FreesNone(st, st, c);
    } else if w.reset && w.idle != 0 {
      out := OtherCheckFrees(st, d, 0, si.less, si.greater, c);
      var mid := CheckedBrackets(st, d, 0, si.less, si.greater);
      var si1 := mid.counters[d].system.value;
      var next := OtherCheckFrees(mid, d, w.idle, si1.less, si1.greater, c);
      FreesTwice(st, mid, WokenUp(st, d, w), c, out, next);
      out := out + next;
    } else {
      out := OtherCheckFrees(st, d, w.idle, si.less, si.greater, c);
    }
  }

  lemma SetFrees(st: State, d: nat, v: Int64, c: nat) returns (out: set<nat>)
    requires Running(st) && Idle(st, c)
    ensures OnlyFrees(st, SetEffect(st, d, v), c, out)
  {
    if d in st.counters && !IsSystem(st, d) {
      out := UnblockedBy(st, d, v, st.counters[d].triggers);
      OtherChangeFrees(st, d, v, c);
    } else {
      out := {};
      FreesNone(st, st, c);
    }
  }

  lemma FreesEqual(st: State, r: State, r': State, c: nat, out: set<nat>)
    requires OnlyFrees(st, r, c, out) && r == r'
    ensures OnlyFrees(st, r', c, out)
  {
  }

  lemma AddFrees(st: State, d: nat, amount: Int64, c: nat) returns (out: set<nat>)
    requires Running(st) && Idle(st, c)
    ensures OnlyFrees(st, AddEffect(st, d, amount), c, out)
  {
    if d in st.counters && Fits(st.counters[d].value + amount) {
      var v: Int64 := st.counters[d].value + amount;
      AddIsSet(st, d, amount, v);
      out := SetFrees(st, d, v, c);
      FreesEqual(st, SetEffect(st, d, v), AddEffect(st, d, amount), c, out);
    } else {
      out := {};
      FreesNone(st, st, c);
    }
  }

  lemma DestroyFrees(st: State, d: nat, c: nat) returns (out: set<nat>)
    requires Running(st) && Idle(st, c)
    ensures OnlyFrees(st, DestroyEffect(st, d), c, out)
  {
    if d in st.counters && !IsSystem(st, d) {
      out := SyncDestroy.ReleasedBy(st, st.counters[d].triggers);
      OtherDestroyFrees(st, d, c);
    } else {
      out := {};
      FreesNone(st, st, c);
    }
  }

  /** A request about other counters, or one of their wakeups, or the end of a client. */
  predicate AboutOthers(r: Request, c: nat) {
    match r
    case CreateCounter(_, _, _) => true
    case SetCounter(_, _) => true
    case ChangeCounter(_, _) => true
    case DestroyCounter(_) => true
    case DropAwait(_) => true
    case IdleWakeup(d, _) => d != c
    case _ => false
  }

  /** All that such a request does to `c` is to free awaits. */
  lemma AboutOthersFrees(st: State, r: Request, c: nat) returns (out: set<nat>)
    requires Running(st) && Idle(st, c) && AboutOthers(r, c)
    ensures OnlyFrees(st, CounterAfter(st, r), c, out)
  {
    out := {};
    match r {
      case CreateCounter(d, v, system) => FreesNone(st, CounterAfter(st, r), c);
      case SetCounter(d, v) => out := SetFrees(st, d, v, c);
      case ChangeCounter(d, amount) => out := AddFrees(st, d, amount, c);
      case DestroyCounter(d) => out := DestroyFrees(st, d, c);
      case DropAwait(w) =>
        if w in st.awaits {
          out := {w};
          ReleaseFrees(st, w, c);
        } else {
          FreesNone(st, st, c);
        }
      case IdleWakeup(d, w) =>
        if Idle(st, d) {
          out := OtherWakeupFrees(st, d, w, c);
        } else {
          FreesNone(st, st, c);
        }
    }
  }

  lemma AboutOthersReady(st: State, r: Request, st': State, c: nat)
    requires Running(st) && Running(st') && Ready(st, c) && AboutOthers(r, c) && st' == CounterAfter(st, r)
    ensures Idle(st', c) && st'.counters[c].value == st.counters[c].value
    ensures Ready(st', c) <==> LeftInTime(st, c, Freed(st, st'))
  {
    var out := AboutOthersFrees(st, r, c);
    FreesReady(st, st', c, out);
  }

  // ----- queries

  lemma QueryReady(st: State, r: State, d: nat, clock: nat -> Int64, c: nat)
    requires Running(st) && Ready(st, c) && r == QueryEffect(st, d, clock) && Running(r)
    ensures Idle(r, c) && r.counters[c].value == if d == c then clock(c) else st.counters[c].value
    ensures Ready(r, c) <==> (d == c ==> NoneSlips(st, c, clock(c), None))
  {
    if d == c {
      ReadyParts(r, c, None);
      ReadyParts(st, c, None);
      StoredGuards(st, r, c, clock(c), None);
    } else {
      SameReady(st, r, c);
    }
  }

  // ----- Await requests

  /** The condition is true as soon as its counter has been asked. */
  predicate TrueAtOnce(counters: map<nat, Counter>, item: WaitCondition, clock: nat -> Int64) {
    var v := WorkValue(counters, item.counter, clock);
    Holds(item.testType, WaitTrigger(item, v).testValue, v, v)
  }

  /** The request is accepted, and its client waits. */
  predicate Waits(counters: map<nat, Counter>, items: seq<WaitCondition>, clock: nat -> Int64, room: nat -> bool) {
    && AwaitStatus(counters, items, clock, room) == Success
    && forall i :: 0 <= i < |items| ==> !TrueAtOnce(counters, items[i], clock)
  }

  /** The triggers of the request for a counter that stands at `v`. */
  function WaitingOn(items: seq<WaitCondition>, c: nat, v: Int64): set<Trigger> {
    set i | 0 <= i < |items| && items[i].counter == Some(c) :: WaitTrigger(items[i], v)
  }

  /** The counter is asked for its value: by a condition that is accepted, or by the one that is refused. */
  predicate AwaitAsks(counters: map<nat, Counter>, items: seq<WaitCondition>, clock: nat -> Int64, room: nat -> bool,
                      c: nat) {
    var n := FirstRefused(counters, items, clock, room, 0);
    Names(items, n, c) || (n < |items| && items[n].counter == Some(c))
  }

  /** An accepted condition has the brackets computed at the value asked for, and a client that waits has its
      triggers on the list. */
  ghost predicate AwaitCovered(st: State, c: nat, items: seq<WaitCondition>, clock: nat -> Int64, room: nat -> bool)
    requires Idle(st, c)
  {
    if Names(items, FirstRefused(st.counters, items, clock, room, 0), c)
    then AllCovered(st, c, {}, if Waits(st.counters, items, clock, room) then WaitingOn(items, c, clock(c)) else {},
                    clock(c))
    else AwaitAsks(st.counters, items, clock, room, c) ==> NoneSlips(st, c, clock(c), None)
  }

  lemma ConditionNow(st: State, mid: State, client: nat, w: nat, items: seq<WaitCondition>, clock: nat -> Int64, i: nat)
    requires Running(st) && Building(st, mid, client, w, items, |items|, clock) && i < |items|
    ensures TrueNow(mid, mid.awaits[w].conds[i]) <==> TrueAtOnce(st.counters, items[i], clock)
  {
    assert AsAsked(mid.awaits[w].conds[i], items[i], st.counters, clock);
    assert RegisteredAwait(mid, w);
    var d := items[i].counter.value;
    assert AskedCounter(st, mid, items, |items|, None, clock, d);
  }

  lemma SomeTrueMeans(st: State, mid: State, client: nat, w: nat, items: seq<WaitCondition>, clock: nat -> Int64)
    requires Running(st) && Building(st, mid, client, w, items, |items|, clock)
    ensures SomeTrue(mid, w) <==> exists i :: 0 <= i < |items| && TrueAtOnce(st.counters, items[i], clock)
  {
    forall i | 0 <= i < |items|
      ensures TrueNow(mid, mid.awaits[w].conds[i]) <==> TrueAtOnce(st.counters, items[i], clock)
    {
      ConditionNow(st, mid, client, w, items, clock, i);
    }
  }

  /** The list is the same, and so are its triggers. */
  lemma UnchangedData(st: State, r: State, c: nat)
    requires Unchanged(st, r) && c in st.counters && c in r.counters
    ensures SameData(st, r, c, {}, {})
  {
    forall t ensures KeptTrigger(st, r, t) {
    }
  }

  lemma KeptWaiting(st: State, mid: State, client: nat, w: nat, items: seq<WaitCondition>, clock: nat -> Int64, c: nat,
                    t: TrigId)
    requires Running(st) && Building(st, mid, client, w, items, |items|, clock)
    requires c in st.counters && t in st.counters[c].triggers
    ensures c in mid.counters && t in mid.counters[c].triggers && KeptTrigger(st, mid, t)
  {
    assert SoundList(st, c, st.counters[c].triggers);
    assert t in Survivors(mid.counters[c].triggers, TriggersOf(mid, {w}));
    if t.OfAwait? {
      assert t.await in mid.awaits - {w};
      assert (mid.awaits - {w})[t.await] == mid.awaits[t.await];
    }
  }

  /** A trigger that is new on the list belongs to the request. */
  lemma NewWaiting(st: State, mid: State, client: nat, w: nat, items: seq<WaitCondition>, clock: nat -> Int64, c: nat,
                   t: TrigId)
    requires Running(st) && Building(st, mid, client, w, items, |items|, clock) && Idle(st, c) && c in mid.counters
    requires t in mid.counters[c].triggers && t !in st.counters[c].triggers
    ensures TrigOf(mid, t) in WaitingOn(items, c, clock(c))
    ensures t.OfAwait? && t.await == w && t.cond < |items| && TrigOf(mid, t) == mid.awaits[w].conds[t.cond].trigger
  {
    assert t in TriggersOf(mid, {w}) by {
      assert t in Survivors(mid.counters[c].triggers, TriggersOf(mid, {w})) <==> t in st.counters[c].triggers;
    }
    assert SoundList(mid, c, mid.counters[c].triggers);
    assert AsAsked(mid.awaits[w].conds[t.cond], items[t.cond], st.counters, clock);
    assert TrigOf(mid, t) == WaitTrigger(items[t.cond], clock(c));
  }

  lemma WaitingListed(st: State, mid: State, client: nat, w: nat, items: seq<WaitCondition>, clock: nat -> Int64,
                      c: nat, s: Trigger)
    requires Running(st) && Building(st, mid, client, w, items, |items|, clock) && Idle(st, c) && c in mid.counters
    requires s in WaitingOn(items, c, clock(c))
    ensures exists t :: t in mid.counters[c].triggers && TrigOf(mid, t) == s
  {
    var i :| 0 <= i < |items| && items[i].counter == Some(c) && WaitTrigger(items[i], clock(c)) == s;
    assert AsAsked(mid.awaits[w].conds[i], items[i], st.counters, clock);
    assert RegisteredAwait(mid, w);
    assert OfAwait(w, i) in mid.counters[c].triggers && TrigOf(mid, OfAwait(w, i)) == s;
  }

  lemma NewFalse(st: State, mid: State, client: nat, w: nat, items: seq<WaitCondition>, clock: nat -> Int64, c: nat,
                 t: TrigId)
    requires Running(st) && Building(st, mid, client, w, items, |items|, clock) && !SomeTrue(mid, w)
    requires Idle(st, c) && c in mid.counters && t in mid.counters[c].triggers && t !in st.counters[c].triggers
    ensures !Holds(TrigOf(mid, t).check, TrigOf(mid, t).testValue, mid.counters[c].value, mid.counters[c].value)
  {
    NewWaiting(st, mid, client, w, items, clock, c, t);
    assert SoundList(mid, c, mid.counters[c].triggers);
    assert !TrueNow(mid, mid.awaits[w].conds[t.cond]);
  }

  lemma WaitingData(st: State, mid: State, client: nat, w: nat, items: seq<WaitCondition>, clock: nat -> Int64, c: nat)
    requires Running(st) && Building(st, mid, client, w, items, |items|, clock)
    requires Idle(st, c) && c in mid.counters
    ensures SameData(st, mid, c, {}, WaitingOn(items, c, clock(c)))
  {
    forall t | t in st.counters[c].triggers ensures t in mid.counters[c].triggers && KeptTrigger(st, mid, t) {
      KeptWaiting(st, mid, client, w, items, clock, c, t);
    }
    forall s | s in WaitingOn(items, c, clock(c))
      ensures exists t :: t in mid.counters[c].triggers && TrigOf(mid, t) == s {
      WaitingListed(st, mid, client, w, items, clock, c, s);
    }
    forall t | t in mid.counters[c].triggers && t !in st.counters[c].triggers
      ensures TrigOf(mid, t) in WaitingOn(items, c, clock(c))
    {
      NewWaiting(st, mid, client, w, items, clock, c, t);
    }
  }

  /** The log is no matter. */
  lemma DataLogged(st: State, mid: State, r: State, c: nat, more: set<Trigger>)
    requires c in st.counters && c in mid.counters && SameData(st, mid, c, {}, more) && r == mid.(log := r.log)
    ensures SameData(st, r, c, {}, more)
  {
    forall t ensures TrigOf(r, t) == TrigOf(mid, t) && CanAct(r, t) == CanAct(mid, t) {
    }
    forall t | t in st.counters[c].triggers ensures KeptTrigger(st, r, t) {
      assert KeptTrigger(st, mid, t);
    }
  }

  /** The triggers that are new on the list are not true. */
  ghost predicate NewOnesFalse(st: State, r: State, c: nat)
    requires c in st.counters && c in r.counters
  {
    forall t :: t in r.counters[c].triggers && t !in st.counters[c].triggers ==>
      !Holds(TrigOf(r, t).check, TrigOf(r, t).testValue, r.counters[c].value, r.counters[c].value)
  }

  lemma NewWaitingFalse(st: State, mid: State, r: State, client: nat, w: nat, items: seq<WaitCondition>,
                        clock: nat -> Int64, c: nat)
    requires Running(st) && Building(st, mid, client, w, items, |items|, clock) && !SomeTrue(mid, w)
    requires r == mid.(log := r.log) && Idle(st, c) && c in r.counters
    ensures NewOnesFalse(st, r, c)
  {
    forall t | t in r.counters[c].triggers && t !in st.counters[c].triggers
      ensures !Holds(TrigOf(r, t).check, TrigOf(r, t).testValue, r.counters[c].value, r.counters[c].value)
    {
      NewFalse(st, mid, client, w, items, clock, c, t);
      assert TrigOf(r, t) == TrigOf(mid, t);
    }
  }

  lemma BlockedData(st: State, mid: State, r: State, client: nat, w: nat, items: seq<WaitCondition>,
                    clock: nat -> Int64, c: nat)
    requires Running(st) && Building(st, mid, client, w, items, |items|, clock) && Blocked(st, mid, r, client, w)
    requires Idle(st, c) && c in r.counters
    ensures SameData(st, r, c, {}, if SomeTrue(mid, w) then {} else WaitingOn(items, c, clock(c)))
    ensures NewOnesFalse(st, r, c)
  {
    if SomeTrue(mid, w) {
      UnchangedData(st, r, c);
    } else {
      WaitingData(st, mid, client, w, items, clock, c);
      DataLogged(st, mid, r, c, WaitingOn(items, c, clock(c)));
      NewWaitingFalse(st, mid, r, client, w, items, clock, c);
    }
  }

  /** The list after the request: as it was, or with the triggers of a client that waits. */
  lemma AwaitData(st: State, r: State, client: nat, w: nat, items: seq<WaitCondition>, clock: nat -> Int64,
                  room: nat -> bool, c: nat)
    requires Running(st) && AwaitDone(st, r, client, w, items, clock, room) && Idle(st, c) && c in r.counters
    ensures SameData(st, r, c, {}, if Waits(st.counters, items, clock, room) then WaitingOn(items, c, clock(c)) else {})
    ensures NewOnesFalse(st, r, c)
  {
    if AwaitStatus(st.counters, items, clock, room) == Success {
      var mid :| Building(st, mid, client, w, items, |items|, clock) && mid.log == st.log
               && Blocked(st, mid, r, client, w);
      SomeTrueMeans(st, mid, client, w, items, clock);
      BlockedData(st, mid, r, client, w, items, clock, c);
    } else {
      UnchangedData(st, r, c);
    }
  }

  lemma AwaitReady(st: State, r: State, client: nat, w: nat, items: seq<WaitCondition>, clock: nat -> Int64,
                   room: nat -> bool, c: nat)
    requires Running(st) && Running(r) && Ready(st, c) && w !in st.awaits
    requires AwaitDone(st, r, client, w, items, clock, room)
    ensures Idle(r, c)
    ensures r.counters[c].value == if AwaitAsks(st.counters, items, clock, room, c) then clock(c)
                                    else st.counters[c].value
    ensures Ready(r, c) <==> AwaitCovered(st, c, items, clock, room)
  {
    var n := FirstRefused(st.counters, items, clock, room, 0);
    assert AskedCounter(st, r, items, n, if n < |items| then items[n].counter else None, clock, c);
    var more := if Waits(st.counters, items, clock, room) then WaitingOn(items, c, clock(c)) else {};
    AwaitData(st, r, client, w, items, clock, room, c);
    if Names(items, n, c) {
      RebracketedGuards(st, r, c, {}, more, None);
      ReadyParts(r, c, None);
    } else {
      UnnamedReady(st, r, items, n, clock, more, c);
    }
  }

  /** No accepted condition names the counter. */
  lemma UnnamedReady(st: State, r: State, items: seq<WaitCondition>, n: nat, clock: nat -> Int64,
                     more: set<Trigger>, c: nat)
    requires Running(st) && Running(r) && Ready(st, c) && n <= |items| && !Names(items, n, c)
    requires AskedCounter(st, r, items, n, if n < |items| then items[n].counter else None, clock, c)
    requires SameData(st, r, c, {}, more)
    ensures var asked := n < |items| && items[n].counter == Some(c);
            && Idle(r, c) && r.counters[c].value == (if asked then clock(c) else st.counters[c].value)
            && (Ready(r, c) <==> (asked ==> NoneSlips(st, c, clock(c), None)))
  {
    if n < |items| && items[n].counter == Some(c) {
      ReadyParts(st, c, None);
      StoredGuards(st, r, c, clock(c), None);
      ReadyParts(r, c, None);
    } else {
      SameReady(st, r, c);
    }
  }
}
