# Protocol engines of the X server, in Dafny

This project models the stateful parts of the X server's protocol extensions and proves what they
promise. Code that changes state step by step is a class with methods, or a method over arrays, that
is proved against a specification function or a relation; what the extension promises is then a lemma
about that specification, over all inputs, all states or all runs.

- **SYNC** (`Sync*.dfy`): counters, alarms and awaits. A trigger sits on the list of the counter it
  names; changing a counter walks its list while the walk itself takes triggers off lists and moves
  alarm thresholds. `SyncValues` and `SyncAlarm` hold the 64-bit arithmetic and the alarm advance,
  `SyncBrackets` the brackets of system counters, `SyncModel` the state, `SyncChange`, `SyncDestroy`
  and `SyncIdle` the meaning of a change, of a destruction and of the idle-time shortcut, `SyncServer`
  the code itself, `SyncTriggers`, `SyncAwait` and `SyncRequests` the requests, `SyncRun` whole runs,
  `SyncNotify` who is told what when a counter changes or ends, `SyncVerdicts` which requests are accepted
  and what comes of them,
  `SyncStore`, `SyncWatch`, `SyncAlarmWatch` and `SyncLoss` which requests make the shortcut lose
  events, `SyncLate` inputs.
- **XF86Bigfont** (`BigFont.dfy`, with `Occurrences.dfy`): glyph metrics are de-duplicated with a
  chained hash table held in arrays of 16-bit indices, and sent so that the client gets them back.
- **Xinerama** (`Regions.dfy`, `Pixels.dfy`, `XineramaImage.dfy`, `XineramaReads.dfy`,
  `XineramaPoints.dfy`, `Masks.dfy`): one logical image is put together from several screens, byte
  counts are declared before they are met, and one point list is handed to every screen.
- **MIT-SCREEN-SAVER** (`Saver.dfy`): a mask and value list is rewritten to another one.
- **Hash table and X-Resource** (`HashTable.dfy`, `XResLayout.dfy`, `XRes.dfy`, `XResQuery.dfy`): a
  doubling hash table agrees with a map; the size response built with it describes its own layout.
- **SECURITY, MIT-SHM, ClientSleepUntil** (`AuthTimer.dfy`, `Security.dfy`, `Shm.dfy`,
  `SleepQueue.dfy`): reference counts that are a census, a timer in chunks, a sorted wake-up queue.

`Options.dfy` and `Cards.dfy` hold shared types. `dafny verify dfyconfig.toml` verifies everything.

## Where the code does not keep the promise

Seven promises do not hold for all inputs. Each has a concrete input and the exact condition.

- **Brackets of counters that only move one way.** The two transition branches of
  `SyncComputeBracketValues` skip counters of the wrong type: a positive transition on a counter that
  never decreases arms no bracket (`ServerTimeLosesTransition`). The shortcut is right exactly when no
  trigger of the list is lost in this way (`ShortcutExactlyWhen`); it is always right for counters that
  move both ways (`BracketShortcut`).
- **Brackets at the ends of the value range.** The idle-time handler also looks at the triggers when the
  value is equal to a bracket. From a value at which the brackets were computed, a move it passes over in
  silence sets a trigger off exactly if it lands on the least or greatest 64-bit value and that is the
  trigger's test value (`MissedExactlyWhen`, `LastValueMissed`). An idle time never gets there, so as long as
  the counter moves by wakeups only, nothing is lost after one full check (`ShortcutLosesNothing`).
- **Requests between the wakeups.** `QueryCounter` and `SyncInitTrigger` store the queried idle time without
  a look at the triggers, and the brackets are computed again, without one, when a trigger joins or leaves the
  list. An event is lost at once if a full check would have shown it for some value before the store and does
  not show it after it (`Spoils`), or later if some wakeups send less than full checks would (`LosesNothing`
  fails). The first happens exactly if a transition that can act goes true from the old value to the stored
  one, whatever the brackets (`SpoilsExactly`); the second exactly if a trigger that can act is not `Guarded`
  (`GuardedExactly`). Both can be told before the request, which is then `Timely`: the value stored crosses no
  transition and takes none back across its test value on a way the brackets do not stop; where
  the brackets are computed again, they stop the counter before every idle time at which a comparison of the
  list is true, or the new test value of an alarm that goes off at once. A request loses an event
  exactly if it is not timely (`LosesExactly`), and over a run that mixes requests and wakeups no step does
  exactly if all requests are timely (`RunLosesNone`). `QueryPassesTransition`, `CreatePassesTransition`,
  `QueryTooLate`, `CreateTooLate`, `RearmedTooLate` and `DestroyTooLate` are inputs that come too late;
  `QueryInTime` is a comparison found true that is not lost.
- **A refused ChangeAlarm.** The attribute loop writes the fields before it finds a wrong Events value or an
  unknown mask bit, and `SyncInitTrigger` takes the trigger off its list before it finds an error. The alarm is
  still consistent afterwards exactly if the request was harmless (`TidyAfter`). `RefusedChangeUnregisters`
  and `RefusedEventsUntidy` are inputs for which it is not. Lists are sound even then.
- **An alarm that never stops going off.** A refused ChangeAlarm can leave delta 0 and an unknown test type
  beside a comparison in force (`RefusedChangeLoops`): the repeated addition then does not end. A request
  leaves such an alarm exactly in the case of `LoopsExactlyWhen`.
- **By-ID queries about one client.** `ConstructResourceBytesByResource` compares the client number
  in a resource ID with the client ID of the request, not with its client number. A spec that
  names a resource by its ID is answered about its client exactly if the request names no client
  (`IdSpecAnswered`); `OwnResourceNotReported` is a request that is not answered.
- **Long authorization timeouts.** The chunks of the timer add up to the timeout for every value
  (`WaitsExactly`, `WaitOut`). But `TimerSet` compares signed 32-bit numbers, so with it the timeout is
  waited in full exactly if it is shorter than 2^31 milliseconds (`WaitsInFullExactlyWhen`); a timeout of
  2147484 seconds is not waited at all (`LongTimeoutNotWaited`).

## Model

| member | source | states |
|---|---|---|
| `SyncValues.TestsMean` | Xext/sync.c:239-303 | a comparison is true from its test value on, upwards or downwards; a transition is true when the comparison of its direction becomes true |
| `SyncAlarm.ComparisonAdvance` | Xext/sync.c:528-605 | a true comparison alarm with a non-zero delta of the right sign moves to test + k*delta for the least k >= 1 that makes it false, and lands within one delta of the counter |
| `SyncAlarm.TransitionAdvance` | Xext/sync.c:528-605 | a transition alarm moves by exactly one delta |
| `SyncAlarm.WrongSignAdvance` | Xext/sync.c:570-599 | with a delta of the wrong sign the repeated addition ends only by leaving the 64-bit range |
| `SyncAlarm.AdvanceStops` | Xext/sync.c:555-599 | the repeated addition stops if and only if delta is non-zero or the test is false |
| `SyncAlarm.AdvanceUnique` | Xext/sync.c:570-590 | there is only one number of steps after which it stops |
| `SyncAlarm.AdvanceResultCorrect` | Xext/sync.c:544-605 | the closed form is what the additions arrive at, or nothing when the sum leaves 64 bits |
| `SyncAlarm.AdvanceLoop` | Xext/sync.c:570-599 | the do-while loop returns the sum after exactly that number of additions and reports overflow exactly when it leaves the range |
| `SyncBrackets.ComputeBracketValues` | Xext/sync.c:1033-1126 | the loop computes the tightest test values on either side of the counter among the triggers its type guards let through |
| `SyncBrackets.TightIsUnique` | Xext/sync.c:1056-1118 | tight brackets are unique, so the order of the trigger list does not matter |
| `SyncBrackets.GreaterIs` | Xext/sync.c:1056-1118 | the upper bracket is the least test value, below the top of the range, that the counter rises to among the triggers of the four branches |
| `SyncBrackets.LessIs` | Xext/sync.c:1056-1118 | the lower bracket is the greatest test value, above the bottom of the range, that it falls to |
| `SyncBrackets.BracketShortcut` | Xext/sync.c:1033-1126 | Unrestricted counter: along any chain of values strictly inside the brackets no transition trigger becomes true and no comparison trigger false at the start becomes true |
| `SyncBrackets.ShortcutExactlyWhen` | Xext/sync.c:1085-1111 | for any counter type something can be missed if and only if some trigger of the list is lost by the type guards |
| `SyncBrackets.ServerTimeLosesTransition` | Xext/sync.c:1085-1086 | a positive transition on a counter that never decreases arms no bracket and is missed |
| `SyncServer.Server.ComputeBrackets` | Xext/sync.c:1033-1126 | a system counter gets the brackets of its present list and value |
| `SyncServer.Unlink` | Xext/sync.c:144-185 | the scan takes exactly the given trigger off the list |
| `SyncServer.Server.DeleteTrigger` | Xext/sync.c:144-185 | the trigger leaves the list of the counter it names and the brackets are computed again |
| `SyncServer.Server.FreeAwait` | Xext/sync.c:1184-1207 | every condition leaves its counter's list, except a dying counter's, and the await is gone |
| `SyncServer.Server.AlarmTriggerFired` | Xext/sync.c:528-605 | the alarm becomes what `ChangeFires` says, and one event with the test value it had and the state it then has is sent |
| `SyncServer.Server.IsDue` | Xext/sync.c:639-684 | an event is due if and only if the client is owed one, which `GroupSent` spells out |
| `SyncServer.Server.CollectDue` | Xext/sync.c:629-687 | the conditions with an event due, in request order |
| `SyncModel.DueConditions` | Xext/sync.c:629-687 | exactly the conditions with an event due, increasing; `GroupSent` says which those are |
| `SyncServer.Server.SendCounterNotify` | Xext/sync.c:471-510 | to a client that is there and with memory at hand: one event per due condition, with the number of events that follow it |
| `SyncServer.Server.CollectEntries` | Xext/sync.c:489-506 | the events in order of the conditions, numbered down to 0, with the values of the counters as they are |
| `SyncServer.Server.AwaitTriggerFired` | Xext/sync.c:612-700 | the events are sent, the client unblocked once and the await freed |
| `SyncNotify.GroupSent` | Xext/sync.c:612-700 | the events of an await have an entry for a condition if and only if its counter is going or, with a difference inside 64 bits, has reached test value + threshold in the direction of the test; each entry carries the test value, the value of the counter, the flag and the number of entries behind it; then the client is unblocked |
| `SyncServer.Server.WalkOne` | Xext/sync.c:721-726 | the successor read before firing is still the next trigger of the list afterwards |
| `SyncChange.NextIsIntact` | Xext/sync.c:721-726 | while the list is walked, the triggers not yet walked are untouched and still registered |
| `SyncServer.Server.WalkTriggers` | Xext/sync.c:719-727 | the walk fires exactly the triggers of the old list that became true |
| `SyncServer.Server.ChangeCounter` | Xext/sync.c:713-731 | the interleaved walk has the effect of one simultaneous change |
| `SyncChange.ChangeKeepsValid` | Xext/sync.c:713-731 | the trigger-list invariant survives every change of a counter |
| `SyncChange.ReleasedExactly` | Xext/sync.c:713-731 | the awaits with a satisfied condition, and only those, are gone from all counters' lists |
| `SyncChange.AlarmsSettle` | Xext/sync.c:713-731 | every alarm left on the counter is Inactive or, for comparisons, false at the new value; other alarms are untouched |
| `SyncChange.UnblockedExactlyOnce` | Xext/sync.c:612-700 | each client is unblocked exactly once per released await of its own |
| `SyncNotify.ChangeSends` | Xext/sync.c:713-731 | what a change appends to the log is, in list order, the event of each Active alarm that goes true and the group of each await released, and nothing else |
| `SyncNotify.ReleasedTold` | Xext/sync.c:612-700 | an await that is released tells its client exactly what it is owed, at the values the counters have then |
| `SyncNotify.ChangeNotifies` | Xext/sync.c:425-465 | an Active alarm of the list that goes true gets exactly one AlarmNotify, with the new counter value, the test value it had and the state it has afterwards; no other alarm gets one |
| `SyncNotify.ChangeFires` | Xext/sync.c:528-605 | exactly the Active alarms of the list that go true go off: a comparison with delta 0 keeps its test value and becomes Inactive, any other gets delta added until it is false or becomes Inactive at the end of the range |
| `SyncServer.Server.FreeCounter` | Xext/sync.c:1157-1178 | the interleaved walk over the dying counter's list has the effect of one simultaneous destruction |
| `SyncDestroy.DestroyKeepsValid` | Xext/sync.c:1157-1178 | the trigger-list invariant survives destruction: nothing of a released await is left on a surviving counter |
| `SyncDestroy.DestroyedExactly` | Xext/sync.c:1157-1178 | exactly the awaits that name the counter are released, and exactly its alarms are dropped |
| `SyncDestroy.DestroyUnblocksOnce` | Xext/sync.c:1157-1178 | each client is unblocked exactly once per released await of its own |
| `SyncNotify.DestroySends` | Xext/sync.c:1157-1178 | the end of a counter appends, in list order, one event for each alarm and the group of each await, where every condition on the counter has its entry, flagged as destroyed |
| `SyncNotify.DestroyNotifies` | Xext/sync.c:515-523 | each alarm of the list gets exactly one AlarmNotify, Inactive, with its test value; no other alarm gets one |
| `SyncNotify.DestroyDrops` | Xext/sync.c:515-523 | these alarms lose their counter and are Inactive, and keep the rest; no other alarm changes |
| `SyncIdle.ChangeGuards` | Xext/sync.c:713-731 | after a full check of an Unrestricted counter no trigger that can act goes off at idle times between the new brackets |
| `SyncIdle.WakeupRefines` | Xext/sync.c:2768-2800 | one wakeup with the shortcut is indistinguishable from one without |
| `SyncIdle.ShortcutLosesNothing` | Xext/sync.c:2757-2800 | from a full check on, over any run of wakeups alone, skipping the triggers inside the brackets sends the same events and leaves the same alarms, awaits and lists as checking every time |
| `SyncIdle.MissedExactlyWhen` | Xext/sync.c:2757-2766 | a silent move from a value at which the brackets were computed misses a trigger that was not true there if and only if it lands on an end of the range that is the test value |
| `SyncIdle.LastValueMissed` | Xext/sync.c:2757-2766 | an input at the end of the range |
| `SyncIdle.GuardedExactly` | Xext/sync.c:2757-2800 | the wakeups that may follow, whatever they are, log the same events as full checks if and only if every trigger that can act is guarded |
| `SyncStore.NoticedExactly` | Xext/sync.c:713-731 | a full check notifies an alarm of the list, or releases an await with a condition on it, if and only if the trigger can act and goes true |
| `SyncStore.SpoilsExactly` | Xext/sync.c:1662-1666 | a value stored without a look at the triggers takes an event away from a full check, at some value, if and only if a transition that can act goes true from the old value to the stored one |
| `SyncStore.SlipsExactly` | Xext/sync.c:1662-1666 | under brackets that stay, a guarded trigger is still guarded at the stored value if and only if it is no transition taken back across its test value with a silent way forward; a comparison always is |
| `SyncStore.SilentStoreHarmless` | Xext/sync.c:2757-2766 | an idle time at which no wakeup would have looked at the triggers can be stored without losing anything |
| `SyncStore.FreshSilent` | Xext/sync.c:1033-1126 | an idle time passes in silence between brackets just computed if and only if no trigger of the list stops the counter on the way there |
| `SyncStore.GuardedCovered` | Xext/sync.c:341-350 | brackets computed again guard a comparison if and only if the triggers they were computed from stop the counter before every idle time at which it is true |
| `SyncStore.PlainlyCovered` | Xext/sync.c:341-350 | at an idle time that is no transition's test value this means: if and only if no comparison is true already |
| `SyncTriggers.AddTrigger` | Xext/sync.c:187-222 | a trigger goes on the list once, and not at all if it is there or memory is short |
| `SyncTriggers.InitTrigger` | Xext/sync.c:315-419 | status and resulting state for every combination of attributes; only this trigger moves, lists stay sound |
| `SyncTriggers.InitCounters` | Xext/sync.c:315-419 | each counter afterwards: the one asked for has stored the queried value and, on success, lists the trigger and has its brackets computed at that value; the one left has its brackets computed at its old value; the others are unchanged |
| `SyncTriggers.InitPlaces` | Xext/sync.c:315-419 | a trigger that takes a new counter is on its list on success and on no list otherwise; one that keeps its counter stays where it was |
| `SyncTriggers.InitSets` | Xext/sync.c:352-404 | an accepted trigger has the CheckTrigger function of its test type and the test value asked for, absolute or relative to the queried value |
| `SyncTriggers.CounterChanged` | Xext/sync.c:144-222 | changing one counter's list for one trigger keeps all lists sound |
| `SyncAwait.ProcAwait` | Xext/sync.c:1568-1642 | the status is that of the first refused condition; lists, awaits and alarms are then as before, and only the counters asked so far have moved; on success every condition is registered once or the await is already released |
| `SyncAwait.AskedReleased` | Xext/sync.c:1568-1642 | withdrawing the conditions leaves the counters they named with the queried value and brackets computed at it |
| `SyncAwait.Withdraws` | Xext/sync.c:1625-1642 | the error exit takes off exactly the conditions registered so far |
| `SyncAwait.Epilogue` | Xext/sync.c:1533-1563 | the client sleeps, and is woken once if a condition is already true |
| `SyncVerdicts.ConditionVerdict` | Xext/sync.c:1595-1620 | the error of one condition, in the order of the checks, or Success |
| `SyncVerdicts.AwaitVerdict` | Xext/sync.c:1568-1642 | the first refused condition decides; without one, and with at least one condition, the request is accepted |
| `SyncVerdicts.AwaitGrants` | Xext/sync.c:1533-1563 | an accepted Await sleeps with its conditions registered as asked; if one is true at the value found, the client is told what it is owed and woken at once, and nothing stays |
| `SyncRequests.ChangeAttributes` | Xext/sync.c:796-888 | the state that each combination of attributes and errors leaves, Events and unknown mask bits included; `AlarmVerdict`, `GrantedLeft` and `SpoiltLeft` say which and what |
| `SyncVerdicts.AlarmVerdict` | Xext/sync.c:796-888 | the first complaint decides: Events, an unknown bit, a delta against the direction of the test, the counter, the value type, the test type, a relative value without a counter or out of range, memory; without one the answer is Success |
| `SyncVerdicts.AlarmAccepted` | Xext/sync.c:796-888 | a request is accepted if and only if none of these is wrong; delta 0 is legal with every test |
| `SyncVerdicts.GrantedLeft` | Xext/sync.c:796-888 | an accepted alarm is Active, has what was given and kept what was not, and a test value to match |
| `SyncVerdicts.SpoiltLeft` | Xext/sync.c:315-419 | what a refused request leaves in each field of the alarm |
| `SyncRequests.TidyAfter` | Xext/sync.c:796-888 | a request leaves the alarm consistent if and only if it was accepted or harmless |
| `SyncRequests.RefusedChangeUnregisters` | Xext/sync.c:315-419 | a refused request after which the alarm names a counter and is on no list |
| `SyncRequests.RefusedEventsUntidy` | Xext/sync.c:819-855 | two requests refused in the attribute loop, for a wrong Events value and for an unknown bit, after which test type or delta does not fit the CheckTrigger function |
| `SyncRequests.AdvancesMeans` | Xext/sync.c:544-590 | what an alarm needs so that the work of going off ends at every value of its counter, both ways |
| `SyncRequests.LoopsExactlyWhen` | Xext/sync.c:544-590 | a request leaves an alarm whose going off does not end if and only if delta 0 is written together with a test type that is no comparison while a comparison stays in force |
| `SyncRequests.RefusedChangeLoops` | Xext/sync.c:570-590 | a refused request with an unknown test type after which the addition of delta 0 never ends |
| `SyncRequests.ProcChangeAlarm` | Xext/sync.c:1772-1811 | an accepted alarm ends Inactive or false at its counter's value |
| `SyncVerdicts.ChangeGrants` | Xext/sync.c:1772-1811 | the alarm as granted is looked at once, at the value found: if true it goes off with one event, without a counter it becomes Inactive with one event, otherwise it stays as granted and nobody is told |
| `SyncVerdicts.ChangeRefuses` | Xext/sync.c:1772-1811 | a refused ChangeAlarm sends nothing and leaves the alarm as `SpoiltLeft` says |
| `SyncVerdicts.ListedFirst` | Xext/sync.c:315-419 | the trigger becomes the first of its new counter's list and leaves the old one; with the same counter no list changes |
| `SyncRequests.ProcCreateAlarm` | Xext/sync.c:1689-1767 | a refused alarm leaves nothing behind |
| `SyncVerdicts.CreateGrants` | Xext/sync.c:1689-1767 | the same for CreateAlarm, where an alarm without a counter becomes Inactive without an event |
| `SyncVerdicts.NewAlarmIs` | Xext/sync.c:1708-1731 | the defaults of a new alarm |
| `SyncRequests.ProcDestroyAlarm` | Xext/sync.c:1133-1151 | the alarm is on no list afterwards |
| `SyncVerdicts.DestroyTells` | Xext/sync.c:1133-1151 | the alarm is told of once more, with the state Destroyed, its test value and its counter's value |
| `SyncRun.IdleTimeCheckBrackets` | Xext/sync.c:2757-2766 | a full check if the idle time reaches a bracket, else only the value is stored |
| `SyncRun.IdleTimeWakeupHandler` | Xext/sync.c:2768-2800 | the two checks of a wakeup, and the invariant is kept |
| `SyncRun.ServeSet` | Xext/sync.c:1424-1447 | a counter of the client's own is changed; a system counter is not |
| `SyncRun.ServeAdd` | Xext/sync.c:1452-1482 | the sum is stored like a new value, and one that leaves 64 bits changes nothing |
| `SyncRun.ServeDestroy` | Xext/sync.c:1487-1507 | a counter of the client's own is destroyed; a system counter is not |
| `SyncRun.ServeQuery` | Xext/sync.c:1647-1680 | a system counter stores the value it is asked for and no trigger is looked at |
| `SyncRun.ServeDrop` | Xext/sync.c:1184-1207 | the await of a client that dies leaves the lists without an event, and the invariant is kept |
| `SyncRun.ServeAlarm` | Xext/sync.c:1689-1889 | the exact state after each alarm request and what it means for alarm and lists; the invariant is kept unless a ChangeAlarm is refused that was not harmless |
| `SyncVerdicts.CounterStands` | Xext/sync.c:1403-1507 | over every request a client's counter stands at what it was set to, plus what was added and did fit; only DestroyCounter ends it |
| `SyncVerdicts.CounterComes` | Xext/sync.c:1403-1680 | a new counter has the value given and no trigger; a query brings a system counter up to date and keeps its list; a client cannot set, change or destroy one that the system keeps |
| `SyncVerdicts.DropIsSilent` | Xext/sync.c:1184-1207 | a client that goes away takes its conditions off all lists, and nobody is told anything |
| `SyncRun.Serve` | Xext/sync.c:1403-1889 | every request, wakeup or end of a blocked client has its effect and keeps the invariant, unless it is a refused ChangeAlarm that was not harmless |
| `SyncRun.Run` | Xext/sync.c:144-222 | in every state of every run a trigger is on at most one list, at most once, and only on the list of the counter it names |
| `SyncWatch.AboutOthersReady` | Xext/sync.c:144-185 | a request about other counters, another counter's wakeup or a client's end leaves the counter's value, and its triggers guarded if and only if the awaits it frees leave the list in time |
| `SyncWatch.QueryReady` | Xext/sync.c:1647-1680 | QueryCounter stores the answer, and every trigger stays guarded if and only if none slips back |
| `SyncWatch.AwaitReady` | Xext/sync.c:1568-1642 | the same for Await: if an accepted condition names the counter, the comparisons of the list are covered by it and by the conditions of a client that waits; if only the refused condition does, nothing slips back |
| `SyncAlarmWatch.ChangeReady` | Xext/sync.c:1772-1811 | the same for ChangeAlarm, accepted or refused, for an alarm that joins, stays or leaves: in terms of the attributes and the old alarm |
| `SyncAlarmWatch.CreateReady` | Xext/sync.c:1689-1767 | the same for CreateAlarm |
| `SyncAlarmWatch.DestroyReady` | Xext/sync.c:1133-1151 | the same for DestroyAlarm, which stores nothing but has the brackets computed again |
| `SyncAlarmWatch.LeftIs` | Xext/sync.c:796-888 | the trigger asked for is what an accepted alarm has, and what a refused one has if the sum overflowed; otherwise a refused alarm keeps its test |
| `SyncLoss.StaysReady` | Xext/sync.c:1403-1889 | whatever the request, the value the counter has afterwards and whether every trigger is still guarded can be told before |
| `SyncLoss.LosesExactly` | Xext/sync.c:1403-1889 | from a state that loses nothing, a request or wakeup loses an event, at once or in some wakeups that follow, if and only if it is not timely |
| `SyncLoss.QuietStoreIsCheck` | Xext/sync.c:1662-1666 | a value at which nothing goes true can be stored or fully checked: only the brackets differ |
| `SyncLoss.RunLosesNone` | Xext/sync.c:1403-1889 | over any run of requests and wakeups, from the creation of the counter: no step loses an event if and only if every request is timely, and then no wakeups that may follow do |
| `SyncLoss.TimelyRunsRefine` | Xext/sync.c:2757-2800 | every wakeup of such a run sends the same events and leaves the same alarms, awaits and lists as a full check of every trigger |
| `SyncLate.QueryPassesTransition` | Xext/sync.c:1662-1666 | a query finds the idle time on a positive transition's test value; every wakeup at or past it would have sent the event, and none does |
| `SyncLate.CreatePassesTransition` | Xext/sync.c:341-350 | another alarm is created past a positive transition, and the wakeups before that alarm send nothing |
| `SyncLate.QueryInTime` | Xext/sync.c:1662-1666 | a query finds a comparison true: it is timely, nothing is lost, and the next wakeup past the test value sends the event |
| `SyncLate.QueryTooLate` | Xext/sync.c:1662-1666 | a negative transition armed by a query, and a wakeup that misses its event |
| `SyncLate.CreateTooLate` | Xext/sync.c:341-350 | another alarm created past a true comparison, and a wakeup that misses the comparison |
| `SyncLate.RearmedTooLate` | Xext/sync.c:1743-1764 | an alarm that goes off when it is created, and a wakeup that misses its next event |
| `SyncLate.DestroyTooLate` | Xext/sync.c:144-185 | another alarm destroyed when a comparison is true and not yet sent, and a wakeup that misses it |
| `Occurrences.HasFirst` | Xext/xf86bigfont.c:489-539 | every glyph has a first occurrence at or before it |
| `Occurrences.FirstsDiffer` | Xext/xf86bigfont.c:489-539 | first occurrences are pairwise different and in increasing order |
| `BigFont.CompressedKeepsPromise` | Xext/xf86bigfont.c:489-539 | the indices lead back to the metrics, and the unique entries are minimal |
| `BigFont.PromiseFixesEntries` | Xext/xf86bigfont.c:489-539 | a lossless and minimal selection with indices pointing back can only be the first occurrences |
| `BigFont.Table.Lookup` | Xext/xf86bigfont.c:495-505 | the chain walk finds the entry with equal metrics, or there is none |
| `BigFont.Table.Rehash` | Xext/xf86bigfont.c:507-527 | after growth every entry is chained from the bucket of its hash under the new modulus |
| `BigFont.Table.Insert` | Xext/xf86bigfont.c:528-538 | the new entry heads its chain; 0xffff is stored as an index only when no look-up follows |
| `BigFont.GrowthIsEnough` | Xext/xf86bigfont.c:507-516 | after every insertion the modulus is at least 2u-1 or n+1, and never more than n+1 |
| `BigFont.ChainIsBucket` | Xext/xf86bigfont.c:495-538 | following the links from a head meets exactly the entries of that bucket |
| `BigFont.ChainDescends` | Xext/xf86bigfont.c:495-538 | chains descend, so they are acyclic |
| `BigFont.ReachableOnce` | Xext/xf86bigfont.c:462-538 | every unique entry is met on the chain of its own bucket and on no other, once |
| `BigFont.Compress` | Xext/xf86bigfont.c:462-541 | for up to 0x10000 glyphs and any hash function the entries are the first occurrences and every index leads back; all accesses stay inside the arrays |
| `BigFont.EncodeBody` | Xext/xf86bigfont.c:616-634 | the reply body has the announced even length and decodes to the metrics, in either byte order; as bytes it is what `BytesCarry` says |
| `BigFont.DecodesBack` | Xext/xf86bigfont.c:544-551 | unique entries and indices together carry every glyph |
| `BigFont.BytesCarry` | Xext/xf86bigfont.c:311-320 | as bytes: twelve for each entry, six two-byte numbers in the order of xCharInfo, then the two-byte numbers of the entries, and no more than makes the length a multiple of four; read in the client's byte order they are the metrics of every glyph |
| `BigFont.QueryFont` | Xext/xf86bigfont.c:330-646 | the client finds exactly the metrics of the font in the bytes of the reply, in its own byte order, whatever the server's |
| `Pixels.BlitPixel` | Xext/panoramiX.c:1238-1262 | copying a run of pixels changes exactly those pixels |
| `Pixels.PixelBytes` | Xext/panoramiX.c:1238-1262 | a row is padded to the least number of 32-bit units, and pixel (r, c) is at r * pitch + c * bpp |
| `Regions.SubtractPoints` | Xext/panoramiX.c:1283-1285 | the difference of two regions, as a point set |
| `XineramaImage.CopyPiece` | Xext/panoramiX.c:1238-1262 | the row loop moves every pixel of a piece to its own row and column and no other |
| `XineramaImage.GrabBox` | Xext/panoramiX.c:1208-1262 | the pixels of a box come from the screen, all others stay |
| `XineramaImage.PieceTaken` | Xext/panoramiX.c:1180-1285 | what is fetched from a screen is what it is the first to hold, so pieces are disjoint |
| `XineramaImage.EarlyEnd` | Xext/panoramiX.c:1287-1290 | when the screens seen so far cover the box the others are not needed |
| `XineramaImage.GetImageData` | Xext/panoramiX.c:1141-1298 | every pixel of the box that lies on a screen is in its own slot with that screen's pixel, the others are unchanged; the box is where the client asked for it, which `ImageAsAsked` spells out |
| `XineramaImage.ImageAsAsked` | Xext/panoramiX.c:1158-1170 | for a window that has the same place in the plane on all screens, pixel (r, c) is what a screen that holds it shows at (left + c, top + r) of the window; for the root it is what such a screen shows of that point of the plane |
| `XineramaImage.OwnerHoldsPixel` | Xext/panoramiX.c:1158-1292 | a pixel is taken from a screen that holds it, and left alone if and only if none does |
| `XineramaImage.AssembledPicture` | Xext/panoramiX.c:1158-1292 | if overlapping screens agree, the buffer holds the logical image |
| `Masks.PlanesAreOnes` | Xext/panoramiXprocs.c:1967-1972 | the number of planes sent is the number of one bits of the mask within the depth |
| `Masks.PlanesDescend` | Xext/panoramiXprocs.c:2001-2034 | planes are sent from the highest down, none twice |
| `Masks.PlaneOccurs` | Xext/panoramiXprocs.c:2001-2034 | a plane is sent if and only if the mask asks for it |
| `XineramaReads.LinesPerBuf` | Xext/panoramiXprocs.c:1979-1989 | a chunk of more than one line fits the buffer |
| `XineramaReads.FetchLines` | Xext/panoramiXprocs.c:2010-2024 | a chunk of lines is written into the buffer, as many bytes as it has lines |
| `XineramaReads.SendPlane` | Xext/panoramiXprocs.c:2001-2034 | each line of a plane is sent once and in order, and every chunk lies inside the allocated buffer |
| `XineramaReads.SendPlanes` | Xext/panoramiXprocs.c:1967-2034 | exactly the declared number of bytes, plane by plane and line by line |
| `XineramaReads.LineSent` | Xext/panoramiXprocs.c:2001-2034 | byte k of line j of plane i is at (i * height + j) * widthBytes + k |
| `XineramaReads.SendPixels` | Xext/panoramiXprocs.c:1967-2000 | exactly the declared number of bytes, and the chunks together are the picture, from (x, y) of the window or the root on |
| `XineramaReads.WritePlanes` | Xext/shm.c:700-717 | the planes asked for go to consecutive windows, from the highest down |
| `XineramaReads.ShmGetPlanes` | Xext/shm.c:672-717 | access is refused if and only if the declared length does not fit; else there is one window for each plane asked for, one length apart, the highest plane first, and they end at offset + length, inside the segment |
| `XineramaPoints.SameFigure` | Xext/panoramiXprocs.c:1408-1438 | moving all points, or only the first of a relative list, denotes the figure moved by the screen origin modulo 2^16 |
| `XineramaPoints.DenotedIs` | Xext/panoramiXprocs.c:1408-1438 | what a list denotes: its own points, or the sums of its offsets modulo 2^16 |
| `XineramaPoints.ToAllScreens` | Xext/panoramiXprocs.c:1343-1373 | every screen is handed the original figure, whatever the previous one left in the buffer: for the root each point less the screen's origin modulo 2^16, for a window as it is |
| `XineramaPoints.Shift` | Xext/panoramiXprocs.c:1674-1704 | the point loop changes all points or only the first |
| `Saver.Attr.Take` | Xext/saver.c:880-1051 | one attribute is refused, kept with its value or held aside with its bit cleared |
| `Saver.VerdictMeans` | Xext/saver.c:880-1051 | the legal values of each attribute by bit number, and the error of the others |
| `Saver.StoredMeans` | Xext/saver.c:880-1051 | which values are held aside as resources, and what is stored of the rest: 1 for override-redirect, the low byte of the byte attributes |
| `Saver.AskedMeans` | Xext/saver.c:880-884 | override-redirect is always worked through; the value of a bit is the one at its rank |
| `Saver.AsideMeans` | Xext/saver.c:880-1051 | a resource is held in the field of its attribute and no other changes |
| `Saver.WalkStep` | Xext/saver.c:855-857 | the two cursors stay at the ranks of the lowest undecided bit |
| `Saver.SetAttributes` | Xext/saver.c:727-1067 | on success the stored mask and values are a valid encoding of the kept attributes, every cleared bit has its resource aside; otherwise the lowest refused attribute decides the error |
| `HashTable.Table.constructor` | Xext/hashtable.c:35-69 | an empty map |
| `HashTable.Table.Find` | Xext/hashtable.c:185-199 | the record the map has for the key, or none |
| `HashTable.Table.Add` | Xext/hashtable.c:120-164 | one entry more, or the very same table if memory is short; it doubles exactly if it then holds more than four records a bucket and has fewer than 2^11 buckets |
| `HashTable.Table.Remove` | Xext/hashtable.c:166-183 | one entry less |
| `HashTable.Table.DoubleSize` | Xext/hashtable.c:86-118 | every record sits in the bucket of its hash at the new width, and the map is the same |
| `HashTable.MoveFirst` | Xext/hashtable.c:102-110 | relinking one record keeps old and new buckets together equal to the map |
| `HashTable.NotHere` | Xext/hashtable.c:185-199 | a key that is not in its bucket is not in the table |
| `XResLayout.GroupGrows` | Xext/xres.c:755-803 | a new subresource gets a spec at the end and is counted in the value |
| `XResLayout.GroupCounts` | Xext/xres.c:795-801 | a subresource seen before is counted in its own spec |
| `XResLayout.CrossesComplete` | Xext/xres.c:755-803 | each different subresource has exactly one spec, whose use count is its multiplicity |
| `XResLayout.ResponseWellFormed` | Xext/xres.c:820-879 | each value is followed by exactly the specs it announces, and the values are counted |
| `XResLayout.ResponseSays` | Xext/xres.c:755-879 | every value has the ID, type, size and reference count of one of the resources and the number of its different subresources; every spec those of a subresource and the number of times it is enumerated |
| `XResLayout.DifferentSubs` | Xext/xres.c:755-803 | there is one spec for each different subresource |
| `XRes.Context.AddSubResourceSizeSpec` | Xext/xres.c:755-803 | the group, the table of places and the byte count grow together, or the request fails |
| `XRes.Context.AddResourceSizeValue` | Xext/xres.c:820-879 | while no allocation fails the response is the one for the first visit of every ID |
| `XResQuery.ConstructClientResourceBytes` | Xext/xres.c:931-948 | the resources of a client that some spec without an ID matches are visited |
| `XResQuery.ConstructResourceBytesByResource` | Xext/xres.c:965-985 | the resources that some spec with an ID matches are visited, among the clients the code consults |
| `XResQuery.ConstructResourceBytes` | Xext/xres.c:995-1030 | exactly the wanted resources are visited, or the client does not exist |
| `XResQuery.QueryResourceBytes` | Xext/xres.c:1033-1077 | on Success: well formed, resultBytes the sum of the fragment sizes, numSizes the number of values |
| `XResQuery.ReportsExactly` | Xext/xres.c:820-879 | an ID has a value in the response if and only if it is wanted, and only one |
| `XResQuery.WantedExactly` | Xext/xres.c:931-1030 | a resource is wanted if and only if a present client has it and a spec of its type asks for all resources of the clients looked at, or for this ID among the client that owns it |
| `XResQuery.ClientIdMeans` | include/resource.h:91-100 | the client number is the field of the ID above `offset` bits, whatever is above it |
| `XResQuery.IdSpecAnswered` | Xext/xres.c:965-985 | a spec by ID is answered about its client if and only if the request names no client |
| `XResQuery.OwnResourceNotReported` | Xext/xres.c:965-985 | a request about a client that names one of its resources by ID and gets no answer |
| `XResQuery.SwapResponse` | Xext/xres.c:723-739 | the walk guided by the counts converts every fragment exactly once, and every word of it is then in the other byte order |
| `XResQuery.SwappedReverses` | Xext/xres.c:697-720 | each of the six or five words of a fragment has its four bytes reversed |
| `XResQuery.SwaplTwice` | Xext/xres.c:697-720 | converting a word back gives the word |
| `AuthTimer.ComputeTimeout` | Xext/security.c:257-274 | a chunk fits 32 bits, and chunk and rest make up the whole |
| `AuthTimer.WaitsExactly` | Xext/security.c:257-332 | the chunks add up to 1000*timeout milliseconds |
| `AuthTimer.FiresIsCeil` | Xext/security.c:295-310 | the timer fires timeout/4294967 times, rounded up |
| `AuthTimer.WaitOut` | Xext/security.c:295-332 | the loop of timer calls waits exactly the timeout in that many chunks |
| `AuthTimer.WaitsInFullExactlyWhen` | os/WaitFor.c:425-475 | with the os layer's timer the timeout is waited in full if and only if it is shorter than 2^31 ms |
| `AuthTimer.LongTimeoutNotWaited` | os/WaitFor.c:425-475 | a timeout of 2147484 seconds is over at once |
| `Security.CountsRunning` | Xext/security.c:942-993 | the reference count is the number of running clients with the authorization |
| `Security.RunningKeepsCensus` | Xext/security.c:956-971 | the census survives a client that starts to run |
| `Security.ClosingKeepsCensus` | Xext/security.c:976-988 | the census survives a client that is retained or goes, also one that does both |
| `Security.DeletedKeepsCensus` | Xext/security.c:168-219 | the other counts survive the deletion of an authorization |
| `Security.DeleteStep` | Xext/security.c:203-212 | closing the clients of a deleted authorization one by one closes exactly those |
| `Security.Server.Run` | Xext/security.c:956-971 | the count goes up, the client is live and a pending timer is cancelled |
| `Security.RunningMeans` | Xext/security.c:956-973 | the client counts for its authorization and has its trust level; its timer does not run; everything else is as it was |
| `Security.NewAuthMeans` | Xext/security.c:503-529 | a new authorization has the timeout and trust level asked for, and its timer waits for the whole timeout |
| `Security.LeavingCounts` | Xext/security.c:976-988 | a client that leaves takes its own reference away, so the count is still that of the live clients, and the timer is pending if and only if none is left and there is a timeout |
| `Security.RearmedMeans` | Xext/security.c:295-310 | a timer that fires with something left is started again for all of it, and nothing else changes |
| `Security.Server.Close` | dix/dispatch.c:3362-3443 | a client that is retained stays, once, and is gone the second time |
| `Security.ClosingMeans` | dix/dispatch.c:3362-3443 | a client stays exactly if it asked to be retained and is not retained yet; it no longer counts, and after the last one the timer waits for the whole timeout |
| `Security.Server.Delete` | Xext/security.c:168-219 | exactly the clients with the authorization are closed down |
| `Security.DeletingMeans` | Xext/security.c:203-212 | each client of a deleted authorization is closed: retained if it asked for it and is not yet, gone otherwise; no other client is touched |
| `Security.Server.Generate` | Xext/security.c:515-529 | a new authorization is unused and its timer runs unless it has no timeout |
| `Security.Server.Expire` | Xext/security.c:295-310 | expiry deletes only an authorization without a live client, and closes no client that runs |
| `Security.Server.Step` | Xext/security.c:942-993 | each event has exactly its effect, and one that cannot happen has none |
| `Security.Serve` | Xext/security.c:942-993 | in every state of every run the census holds: counts are right, a timer is pending if and only if nobody uses the authorization and it has a timeout, and every client has the trust level of its authorization |
| `Security.EffectKeepsTrust` | Xext/security.c:951-973 | whatever happens, a client that counts for an authorization has its trust level, and one without is trusted |
| `Shm.Server.Attach` | Xext/shm.c:369-426 | the status of every case; a known descriptor has one reference more, a new one has one reference, the size of the memory and the access asked for, or nothing is left behind |
| `Shm.Server.AttachFd` | Xext/shm.c:1137-1196 | a descriptor of its own, or nothing is left behind |
| `Shm.Server.Detach` | Xext/shm.c:451-462 | the resource is gone and exactly one reference to its segment given up |
| `Shm.Server.DetachSegment` | Xext/shm.c:428-449 | the count goes down; with the last reference the memory is unmapped and the descriptor unlisted |
| `Shm.Server.CheckPixmap` | Xext/shm.c:1060-1103 | a shared pixmap is accepted if and only if its sizes are legal and it lies inside a writable segment; the first thing that is wrong decides the error |
| `Shm.Server.CreatePixmap` | Xext/shm.c:1044-1121 | a shared pixmap takes one reference to its segment; a refused one leaves nothing behind |
| `Shm.Server.DestroyPixmap` | Xext/shm.c:246-266 | the segment is given up with the last reference to the pixmap |
| `Shm.DetachedLast` | Xext/shm.c:435-448 | dropping a descriptor nobody holds keeps list, counts and unmaps right |
| `Shm.HeldExactlyWhile` | Xext/shm.c:383-449 | a segment is listed if and only if somebody holds it, and has been unmapped once if nobody does |
| `Shm.Server.Step` | Xext/shm.c:246-449 | each event has exactly its effect on descriptors, resources and pixmaps |
| `Shm.Server.Serve` | Xext/shm.c:246-449 | segments are conserved in every reachable state |
| `SleepQueue.OrderIsUnique` | Xext/sleepuntil.c:110-124 | order by revive time and arrival fixes the queue |
| `SleepQueue.Queue.ClientSleepUntil` | Xext/sleepuntil.c:75-126 | the request joins the ordered queue and the handlers are registered once, or it fails without a trace in the queue |
| `SleepQueue.Queue.Delete` | Xext/sleepuntil.c:135-154 | the request leaves the queue and is notified |
| `SleepQueue.Queue.WakeupHandler` | Xext/sleepuntil.c:188-209 | exactly the requests not later than now are removed and notified, each once and in queue order; handlers stay if and only if somebody sleeps |
| `SleepQueue.Queue.BlockHandler` | Xext/sleepuntil.c:156-186 | the same pass, and the server wakes up when the next request is due on the 32-bit clock, or when it would have anyway, if that is earlier, and at once if a request was freed |
| `SleepQueue.Queue.Step` | Xext/sleepuntil.c:75-209 | each event has its effect on the queue and on the notifications |
| `SleepQueue.DelayIsTimeLeft` | Xext/sleepuntil.c:184-185 | the 32-bit delay never exceeds the time left, and is exact if and only if that is below 2^32 ms |
| `SleepQueue.Queue.Serve` | Xext/sleepuntil.c:75-209 | over all runs: ordered, every accepted request pending or notified once, handlers registered while somebody sleeps |

## Left out

- Dispatch, request sizes, byte-swapped request entry points and reply writing: single branches without state.
- SYNC objects live in maps of one server object, keyed by their addresses, instead of one heap object
  each; the linked trigger lists are sequences in list order. Clocks and allocation outcomes are parameters.
- SYNC fences, client priorities, the SERVERTIME handlers and the idle-time block handler. Of the Events
  attribute only its outcome is modelled; who has selected alarm events is not.
- `SyncServer.Server.SendCounterNotify`: the source sends nothing to a client that is gone, or when the buffer for
  the events cannot be allocated; here the events are recorded always.
- `SyncServer.Server.ChangeCounter`: an await names each counter at most once, which the list walk relies on;
  `SyncRun.Run` takes Await requests of that kind.
- `SyncRun.Run`: is followed until a refused ChangeAlarm that was not harmless; later requests could meet an
  alarm that names a counter on whose list it is not, or one whose going off does not end.
- `SyncLoss.LosesExactly`: compares with full checks from the same state, one request at a time. The run as a whole is not
  compared with one in which every store was a full check: that one sends a true comparison's event at the store, with
  the value stored, where the code sends it at the next wakeup. `SyncLoss.QuietStoreIsCheck` is the case without one.
- `SyncBrackets.BracketShortcut`: holds for counters of type Unrestricted; `ShortcutExactlyWhen` covers the others.
- `BigFont.Compress`: the four windows of the one 4n+1 allocation are four arrays, and the hash is any
  function of the metrics; the shared-memory variant of the reply is not modelled.
- `XineramaImage.GetImageData`: whole-byte depths only. The depth-1 path shifts plain `char`, whose result
  depends on the platform. Regions are lists of boxes; the region library's particular decomposition is not modelled,
  and the drivers' GetImage leaves row padding alone.
- `XineramaPoints.ToAllScreens`: the wrapped drawing procedure is a parameter that may overwrite the buffer.
- `Saver.SetAttributes`: masks are sets of bit numbers; freeing the previous attributes and creating the
  window are not modelled.
- `HashTable.Table.Add`: the key must not be in the table, which is how its callers use it; ht_add does not
  look. Keys and data are values and not byte blocks, and ht_destroy is not modelled.
- `XRes.Context.AddResourceSizeValue`: the two hash tables are maps here, which is what `HashTable` proves them to
  be, and counts are unbounded where the code has 32 bits.
- `Security.Server.Generate`: the ID handed out by the os layer is one nobody uses; event selection, auditing and
  the access checks of the extension are not modelled, nor is the assertion in the timer callback.
- `Security.Server.Expire`: the timer service waits as long as it is asked to; `AuthTimer.WaitsInFullExactlyWhen` says
  when the os layer's does.
- `Shm.Server.Attach`: the calls into the kernel are parameters, addresses are numbered in the order of creation,
  and the Xinerama variant and bus-fault handling are not modelled.
- `SleepQueue.Queue.BlockHandler`: the current time is a parameter, so the month roll-over of its computation is
  not modelled; a notify function does not itself change the queue.
