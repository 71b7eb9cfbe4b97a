/** Which requests lose an event of the idle-time counter, and which runs of requests and wakeups lose none. */
module SyncLoss {
  import opened Options
  import opened SyncValues
  import opened SyncModel
  import opened SyncChange
  import opened SyncAwait
  import opened SyncRequests
  import opened SyncRun
  import opened SyncIdle
  import opened SyncStore
  import opened SyncWatch
  import opened SyncAlarmWatch

  // ----- what can be told before a request

  /** The value that the counter is found to have, and stores without a look at its triggers. */
  function StoredBy(st: State, r: Request, c: nat): Option<Int64> {
    match r
    case QueryCounter(d, clock) => if d == c then Some(clock(c)) else None
    case AwaitRequest(_, id, items, clock, room) =>
      if id !in st.awaits && AwaitAsks(st.counters, items, clock, room, c) then Some(clock(c)) else None
    case CreateAlarm(a, attrs, clock, _) =>
      if a !in st.alarms && Asks(NEW_ALARM, attrs, c) then Some(clock(c)) else None
    case ChangeAlarm(a, attrs, clock, _) =>
      if a in st.alarms && Asks(st.alarms[a], attrs, c) then Some(clock(c)) else None
    case _ => None
  }

  /** The brackets in force afterwards still stop the counter for every trigger that can act. */
  ghost predicate StillCovered(st: State, r: Request, c: nat)
    requires Idle(st, c)
  {
    match r
    case QueryCounter(d, clock) => d == c ==> NoneSlips(st, c, clock(c), None)
    case AwaitRequest(_, id, items, clock, room) => id in st.awaits || AwaitCovered(st, c, items, clock, room)
    case CreateAlarm(a, attrs, clock, memory) =>
      a in st.alarms || AlarmCovered(st, c, a, NEW_ALARM, attrs, clock, memory)
    case ChangeAlarm(a, attrs, clock, memory) =>
      a !in st.alarms || AlarmCovered(st, c, a, st.alarms[a], attrs, clock, memory)
    case DestroyAlarm(a) => a !in st.alarms || LeftInTime(st, c, {OfAlarm(a)})
    case _ => AboutOthers(r, c) ==> LeftInTime(st, c, Freed(st, CounterAfter(st, r)))
  }

  /** The request comes in time: it stores no value past a transition, and leaves every trigger covered. */
  ghost predicate Timely(st: State, r: Request, c: nat) {
    && Idle(st, c)
    && (StoredBy(st, r, c).Some? ==> NoneCrossed(st, c, StoredBy(st, r, c).value))
    && StillCovered(st, r, c)
  }

  // ----- what it is to lose an event

  predicate OwnWakeup(r: Request, c: nat) {
    r.IdleWakeup? && r.counter == c
  }

  /** An event is lost. Either at once: a wakeup of `c` does not send what a full check sends, or a value is stored
      after which a full check does not show what it would have shown. Or later: some wakeups will not send what full
      checks would. */
  ghost predicate LosesEvent(st: State, r: Request, st': State, c: nat) {
    && Idle(st, c) && Idle(st', c)
    && ((if OwnWakeup(r, c) then st'.log != CheckedAlways(st, c, r.wakeup).log
         else Spoils(st, c, st'.counters[c].value))
        || !LosesNothing(st', c))
  }

  /** The value stored is the one that can be told before, and every trigger stays guarded exactly if it stays
      covered. */
  ghost predicate Stays(st: State, r: Request, st': State, c: nat)
    requires Idle(st, c)
  {
    && Idle(st', c)
    && (!OwnWakeup(r, c) ==> st'.counters[c].value == Or(StoredBy(st, r, c), st.counters[c].value))
    && (Ready(st', c) <==> StillCovered(st, r, c))
  }

  lemma NothingDone(st: State, r: Request, c: nat)
    requires Ready(st, c) && StoredBy(st, r, c).None? && StillCovered(st, r, c)
    ensures Stays(st, r, st, c)
  {
  }

  lemma AwaitStays(st: State, r: Request, st': State, c: nat)
    requires Running(st) && Running(st') && Ready(st, c) && Effect(st, r, st') && r.AwaitRequest?
    ensures Stays(st, r, st', c)
  {
    if r.id in st.awaits {
      NothingDone(st, r, c);
    } else {
      AwaitReady(st, st', r.client, r.id, r.items, r.clock, r.room, c);
    }
  }

  lemma CreateStays(st: State, r: Request, st': State, c: nat)
    requires Running(st) && Running(st') && Ready(st, c) && st' == AlarmAfter(st, r) && r.CreateAlarm?
    ensures Stays(st, r, st', c)
  {
    if r.alarm in st.alarms {
      NothingDone(st, r, c);
    } else {
      CreateReady(st, r.alarm, r.attrs, r.clock, r.memory, c);
    }
  }

  lemma ChangeStays(st: State, r: Request, st': State, c: nat)
    requires Running(st) && Running(st') && Ready(st, c) && st' == AlarmAfter(st, r) && r.ChangeAlarm?
    ensures Stays(st, r, st', c)
  {
    if r.alarm in st.alarms {
      ChangeReady(st, r.alarm, r.attrs, r.clock, r.memory, c);
    } else {
      NothingDone(st, r, c);
    }
  }

  lemma DestroyStays(st: State, r: Request, st': State, c: nat)
    requires Running(st) && Running(st') && Ready(st, c) && Effect(st, r, st') && r.DestroyAlarm?
    ensures Stays(st, r, st', c)
  {
    if r.alarm in st.alarms {
      DestroyReady(st, r.alarm, c);
    } else {
      NothingDone(st, r, c);
    }
  }

  lemma OthersStay(st: State, r: Request, st': State, c: nat)
    requires Running(st) && Running(st') && Ready(st, c) && st' == CounterAfter(st, r) && AboutOthers(r, c)
    ensures Stays(st, r, st', c)
  {
    AboutOthersReady(st, r, st', c);
  }

  lemma OwnStays(st: State, r: Request, st': State, c: nat)
    requires Running(st) && Running(st') && Ready(st, c) && st' == CounterAfter(st, r)
    requires OwnWakeup(r, c) || r.QueryCounter?
    ensures Stays(st, r, st', c)
  {
    if r.QueryCounter? {
      QueryReady(st, st', r.counter, r.clock, c);
    } else {
      WakeupRefines(st, st, c, r.wakeup);
    }
  }

  lemma AlarmStays(st: State, r: Request, st': State, c: nat)
    requires Running(st) && Running(st') && Ready(st, c) && Effect(st, r, st')
    requires r.CreateAlarm? || r.ChangeAlarm? || r.DestroyAlarm?
    ensures Stays(st, r, st', c)
  {
    if r.CreateAlarm? {
      CreateStays(st, r, st', c);
    } else if r.ChangeAlarm? {
      ChangeStays(st, r, st', c);
    } else {
      DestroyStays(st, r, st', c);
    }
  }

  lemma StaysReady(st: State, r: Request, st': State, c: nat)
    requires Running(st) && Running(st') && Ready(st, c) && Effect(st, r, st')
    ensures Stays(st, r, st', c)
  {
    if r.CreateAlarm? || r.ChangeAlarm? || r.DestroyAlarm? {
      AlarmStays(st, r, st', c);
    } else if r.AwaitRequest? {
      AwaitStays(st, r, st', c);
    } else if AboutOthers(r, c) {
      OthersStay(st, r, st', c);
    } else {
      OwnStays(st, r, st', c);
    }
  }

  lemma RunningLive(st: State, c: nat)
    requires Running(st) && Idle(st, c)
    ensures Valid(st) && Live(st, c) && NamesOnce(st, c)
  {
  }

  /** A value that is the old one crosses nothing. */
  lemma OldValueCrossesNone(st: State, c: nat)
    requires Running(st) && Idle(st, c)
    ensures NoneCrossed(st, c, st.counters[c].value)
  {
    assert SoundList(st, c, st.counters[c].triggers);
  }

  lemma SpoilsWhen(st: State, r: Request, st': State, c: nat)
    requires Running(st) && Idle(st, c) && Idle(st', c)
    requires st'.counters[c].value == Or(StoredBy(st, r, c), st.counters[c].value)
    ensures Spoils(st, c, st'.counters[c].value)
            <==> StoredBy(st, r, c).Some? && !NoneCrossed(st, c, StoredBy(st, r, c).value)
  {
    RunningLive(st, c);
    SpoilsExactly(st, c, st'.counters[c].value);
    OldValueCrossesNone(st, c);
  }

  /** Being ready, in a state of a run, is losing nothing. */
  lemma ReadyExactly(st: State, c: nat)
    requires Running(st) && Idle(st, c)
    ensures Ready(st, c) <==> LosesNothing(st, c)
  {
    RunningOrderly(st, c);
    GuardedExactly(st, c);
  }

  lemma OwnWakeupLoses(st: State, r: Request, st': State, c: nat)
    requires Ready(st, c) && OwnWakeup(r, c) && st' == WokenUp(st, c, r.wakeup) && Idle(st', c)
    ensures LosesEvent(st, r, st', c) <==> !LosesNothing(st', c)
  {
    WakeupRefines(st, st, c, r.wakeup);
  }

  lemma OtherLoses(st: State, r: Request, st': State, c: nat)
    requires Running(st) && Idle(st, c) && !OwnWakeup(r, c) && Stays(st, r, st', c)
    requires Ready(st', c) <==> LosesNothing(st', c)
    ensures LosesEvent(st, r, st', c) <==> !Timely(st, r, c)
  {
    SpoilsWhen(st, r, st', c);
  }

  /** A request loses an event exactly if it does not come in time. */
  lemma LosesExactly(st: State, r: Request, st': State, c: nat)
    requires Running(st) && Running(st') && Idle(st, c) && LosesNothing(st, c) && Effect(st, r, st')
    ensures Idle(st', c)
    ensures LosesEvent(st, r, st', c) <==> !Timely(st, r, c)
    ensures Timely(st, r, c) ==> LosesNothing(st', c)
  {
    ReadyExactly(st, c);
    StaysReady(st, r, st', c);
    ReadyExactly(st', c);
    if OwnWakeup(r, c) {
      OwnWakeupLoses(st, r, st', c);
    } else {
      OtherLoses(st, r, st', c);
    }
  }

  /** A value at which nothing is true can be stored or checked: only the brackets differ. */
  lemma QuietStoreIsCheck(st: State, c: nat, q: Int64)
    requires Valid(st) && Idle(st, c) && NothingActs(st, c, q)
    ensures Alike(Stored(st, c, q), AfterChange(st, c, q), c)
  {
    QuietChange(st, c, q);
  }

  // ----- whole runs

  /** In the run, request `k` creates the Unrestricted system counter `c`, and the run has come to state `n`. */
  ghost predicate WatchedFrom(requests: seq<Request>, trace: seq<State>, c: nat, k: nat, n: nat) {
    && RunOf(requests, trace) && k < n < |trace|
    && (forall i :: k <= i <= n ==> Running(trace[i]))
    && requests[k].CreateCounter? && requests[k].counter == c && requests[k].system == Some(Unrestricted)
    && c !in trace[k].counters
  }

  /** Step `i` of the run loses an event. */
  ghost predicate LostAt(requests: seq<Request>, trace: seq<State>, c: nat, i: nat)
    requires i < |requests| && i + 1 < |trace|
  {
    LosesEvent(trace[i], requests[i], trace[i + 1], c)
  }

  ghost predicate TimelyAt(requests: seq<Request>, trace: seq<State>, c: nat, i: nat)
    requires i < |requests| && i < |trace|
  {
    Timely(trace[i], requests[i], c)
  }

  /** No step from the creation of the counter to state `n` loses an event. */
  ghost predicate NoneLost(requests: seq<Request>, trace: seq<State>, c: nat, k: nat, n: nat)
    requires n < |trace| && n <= |requests|
  {
    forall i :: k < i < n ==> !LostAt(requests, trace, c, i)
  }

  /** Every request on the way comes in time. */
  ghost predicate AllTimely(requests: seq<Request>, trace: seq<State>, c: nat, k: nat, n: nat)
    requires n < |trace| && n <= |requests|
  {
    forall i :: k < i < n ==> TimelyAt(requests, trace, c, i)
  }

  lemma FirstLosesNothing(requests: seq<Request>, trace: seq<State>, c: nat, k: nat, n: nat)
    requires WatchedFrom(requests, trace, c, k, n) && n == k + 1
    ensures Idle(trace[n], c) && LosesNothing(trace[n], c)
  {
    assert Effect(trace[k], requests[k], trace[k + 1]);
    ReadyExactly(trace[n], c);
  }

  lemma NextLoses(requests: seq<Request>, trace: seq<State>, c: nat, k: nat, i: nat)
    requires WatchedFrom(requests, trace, c, k, i + 1) && k < i && Idle(trace[i], c) && LosesNothing(trace[i], c)
    ensures Idle(trace[i + 1], c)
    ensures LostAt(requests, trace, c, i) <==> !TimelyAt(requests, trace, c, i)
    ensures TimelyAt(requests, trace, c, i) ==> LosesNothing(trace[i + 1], c)
  {
    assert Effect(trace[i], requests[i], trace[i + 1]);
    LosesExactly(trace[i], requests[i], trace[i + 1], c);
  }

  lemma WatchedBefore(requests: seq<Request>, trace: seq<State>, c: nat, k: nat, n: nat, m: nat)
    requires WatchedFrom(requests, trace, c, k, n) && k < m <= n
    ensures WatchedFrom(requests, trace, c, k, m)
  {
  }

  lemma TimelyBefore(requests: seq<Request>, trace: seq<State>, c: nat, k: nat, n: nat, m: nat)
    requires m <= n < |trace| && n <= |requests| && AllTimely(requests, trace, c, k, n)
    ensures AllTimely(requests, trace, c, k, m)
  {
  }

  lemma TimelyHere(requests: seq<Request>, trace: seq<State>, c: nat, k: nat, n: nat, i: nat)
    requires k < i < n < |trace| && n <= |requests| && AllTimely(requests, trace, c, k, n)
    ensures TimelyAt(requests, trace, c, i)
  {
  }

  lemma TimelyNext(requests: seq<Request>, trace: seq<State>, c: nat, k: nat, n: nat, m: nat)
    requires WatchedFrom(requests, trace, c, k, n) && m + 1 == n && k < m
             && Idle(trace[m], c) && LosesNothing(trace[m], c)
    requires TimelyAt(requests, trace, c, m)
    ensures Idle(trace[n], c) && LosesNothing(trace[n], c)
  {
    assert Effect(trace[m], requests[m], trace[m + 1]);
    LosesExactly(trace[m], requests[m], trace[n], c);
  }

  /** As long as every request comes in time, no wakeups that may follow lose an event. */
  lemma {:induction false} TimelyLosesNothing(requests: seq<Request>, trace: seq<State>, c: nat, k: nat, n: nat)
    requires WatchedFrom(requests, trace, c, k, n) && AllTimely(requests, trace, c, k, n)
    ensures Idle(trace[n], c) && LosesNothing(trace[n], c)
    decreases n
  {
    var m: nat := n - 1;
    if m == k {
      FirstLosesNothing(requests, trace, c, k, n);
    } else {
      WatchedBefore(requests, trace, c, k, n, m);
      TimelyBefore(requests, trace, c, k, n, m);
      TimelyLosesNothing(requests, trace, c, k, m);
      TimelyHere(requests, trace, c, k, n, m);
      TimelyNext(requests, trace, c, k, n, m);
    }
  }

  lemma LatestLoses(requests: seq<Request>, trace: seq<State>, c: nat, k: nat, n: nat, i: nat)
    requires WatchedFrom(requests, trace, c, k, n) && k < i < n && AllTimely(requests, trace, c, k, i)
    ensures LostAt(requests, trace, c, i) <==> !TimelyAt(requests, trace, c, i)
  {
    WatchedBefore(requests, trace, c, k, n, i);
    WatchedBefore(requests, trace, c, k, n, i + 1);
    TimelyLosesNothing(requests, trace, c, k, i);
    NextLoses(requests, trace, c, k, i);
  }

  lemma TimelyKeeps(requests: seq<Request>, trace: seq<State>, c: nat, k: nat, n: nat, i: nat)
    requires WatchedFrom(requests, trace, c, k, n) && AllTimely(requests, trace, c, k, n) && k < i < n
    ensures !LostAt(requests, trace, c, i)
  {
    TimelyBefore(requests, trace, c, k, n, i);
    LatestLoses(requests, trace, c, k, n, i);
    TimelyHere(requests, trace, c, k, n, i);
  }

  lemma OneMoreTimely(requests: seq<Request>, trace: seq<State>, c: nat, k: nat, n: nat, m: nat)
    requires m + 1 == n && n < |trace| && n <= |requests| && AllTimely(requests, trace, c, k, m)
    requires TimelyAt(requests, trace, c, m)
    ensures AllTimely(requests, trace, c, k, n)
  {
    forall i | k < i < n ensures TimelyAt(requests, trace, c, i) {
      if i != m {
        TimelyHere(requests, trace, c, k, m, i);
      }
    }
  }

  lemma NotLostHere(requests: seq<Request>, trace: seq<State>, c: nat, k: nat, n: nat, i: nat)
    requires k < i < n < |trace| && n <= |requests| && NoneLost(requests, trace, c, k, n)
    ensures !LostAt(requests, trace, c, i)
  {
  }

  lemma {:induction false} KeptTimely(requests: seq<Request>, trace: seq<State>, c: nat, k: nat, n: nat, i: nat)
    requires WatchedFrom(requests, trace, c, k, n) && NoneLost(requests, trace, c, k, n) && i <= n
    ensures AllTimely(requests, trace, c, k, i)
    decreases i
  {
    if i > k + 1 {
      var m: nat := i - 1;
      KeptTimely(requests, trace, c, k, n, m);
      LatestLoses(requests, trace, c, k, n, m);
      NotLostHere(requests, trace, c, k, n, m);
      OneMoreTimely(requests, trace, c, k, i, m);
    }
  }

  /** Over any run that mixes requests and wakeups: no step loses an event exactly if every request comes in time; and
      then no wakeups that may still follow lose one either. */
  lemma RunLosesNone(requests: seq<Request>, trace: seq<State>, c: nat, k: nat, n: nat)
    requires WatchedFrom(requests, trace, c, k, n)
    ensures NoneLost(requests, trace, c, k, n) <==> AllTimely(requests, trace, c, k, n)
    ensures AllTimely(requests, trace, c, k, n) ==> Idle(trace[n], c) && LosesNothing(trace[n], c)
  {
    if NoneLost(requests, trace, c, k, n) {
      KeptTimely(requests, trace, c, k, n, n);
    }
    if AllTimely(requests, trace, c, k, n) {
      TimelyLosesNothing(requests, trace, c, k, n);
      forall i | k < i < n ensures !LostAt(requests, trace, c, i) {
        TimelyKeeps(requests, trace, c, k, n, i);
      }
    }
  }

  lemma WakeupHere(st: State, r: Request, st': State, c: nat)
    requires Running(st) && Idle(st, c) && LosesNothing(st, c) && OwnWakeup(r, c) && Effect(st, r, st')
    ensures Idle(st', c) && Indistinguishable(st', CheckedAlways(st, c, r.wakeup), c)
  {
    ReadyExactly(st, c);
    WakeupRefines(st, st, c, r.wakeup);
  }

  /** Then every wakeup of the run has the effect of a full check of all triggers. */
  lemma TimelyRunsRefine(requests: seq<Request>, trace: seq<State>, c: nat, k: nat, n: nat, i: nat)
    requires WatchedFrom(requests, trace, c, k, n) && AllTimely(requests, trace, c, k, n)
    requires k < i < n && OwnWakeup(requests[i], c)
    ensures Idle(trace[i], c) && Idle(trace[i + 1], c)
    ensures Indistinguishable(trace[i + 1], CheckedAlways(trace[i], c, requests[i].wakeup), c)
  {
    WatchedBefore(requests, trace, c, k, n, i);
    TimelyBefore(requests, trace, c, k, n, i);
    TimelyLosesNothing(requests, trace, c, k, i);
    assert Effect(trace[i], requests[i], trace[i + 1]);
    WakeupHere(trace[i], requests[i], trace[i + 1], c);
  }
}
