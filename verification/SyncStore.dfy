/** Values that a system counter stores without a look at its triggers, and brackets that are computed again without
    one: which events are lost. */
module SyncStore {
  import opened Options
  import opened SyncValues
  import opened SyncModel
  import opened SyncBrackets
  import opened SyncChange
  import opened SyncIdle

  // ----- a value is stored

  /** The counter stores `q`, as it does when it is asked for its value. */
  function Stored(st: State, c: nat, q: Int64): State
    requires c in st.counters
  {
    st.(counters := WithValue(st.counters, c, q))
  }

  /** An alarm of this name is notified. */
  ghost predicate Tells(log: seq<Event>, a: nat) {
    exists e :: e in log && e.AlarmNotify? && e.alarm == a
  }

  /** A full check at `u` shows: the alarm is notified, or the await is released. */
  ghost predicate Noticed(st: State, c: nat, u: Int64, t: TrigId)
    requires c in st.counters
  {
    match t
    case OfAlarm(a) => Tells(EventsAlong(st, c, u, st.counters[c].triggers), a)
    case OfAwait(w, _) => w in st.awaits && w !in AfterChange(st, c, u).awaits
  }

  lemma TellsConcat(x: seq<Event>, y: seq<Event>, a: nat)
    ensures Tells(x + y, a) <==> Tells(x, a) || Tells(y, a)
  {
  }

  lemma OneTells(st: State, c: nat, u: Int64, t: TrigId, a: nat)
    requires c in st.counters
    ensures Tells(EventsOf(st, c, u, t), a) <==> t == OfAlarm(a) && CanAct(st, t) && GoesTrue(st, c, u, t)
  {
    if Exists(st, t) && GoesTrue(st, c, u, t) && t.OfAlarm? && CanAct(st, t) {
      var e := AlarmNotify(t.alarm, u, st.alarms[t.alarm].trigger.testValue, AlarmFired(st.alarms[t.alarm], u).state);
      assert e in EventsOf(st, c, u, t);
    }
  }

  lemma {:induction false} TellsAlong(st: State, c: nat, u: Int64, list: seq<TrigId>, a: nat)
    requires c in st.counters
    ensures Tells(EventsAlong(st, c, u, list), a)
            <==> OfAlarm(a) in list && CanAct(st, OfAlarm(a)) && GoesTrue(st, c, u, OfAlarm(a))
  {
    if list != [] {
      var walked, t := list[..|list| - 1], list[|list| - 1];
      assert list == walked + [t];
      TellsAlong(st, c, u, walked, a);
      TellsConcat(EventsAlong(st, c, u, walked), EventsOf(st, c, u, t), a);
      OneTells(st, c, u, t, a);
    }
  }

  /** What shows is that a trigger which can act goes true. */
  lemma NoticedExactly(st: State, c: nat, u: Int64, t: TrigId)
    requires Valid(st) && Live(st, c) && NamesOnce(st, c) && t in st.counters[c].triggers
    ensures Noticed(st, c, u, t) <==> CanAct(st, t) && GoesTrue(st, c, u, t)
  {
    var list := st.counters[c].triggers;
    assert SoundList(st, c, list);
    match t {
      case OfAlarm(a) => TellsAlong(st, c, u, list, a);
      case OfAwait(w, i) =>
        forall j: nat | OfAwait(w, j) in list ensures j == i {
          assert st.awaits[w].conds[j].trigger.counter == Some(c);
        }
    }
  }

  /** For some value a full check shows something that it does not show any more once `q` has been stored. */
  ghost predicate Spoils(st: State, c: nat, q: Int64)
    requires c in st.counters
  {
    exists u, t :: t in st.counters[c].triggers && Noticed(st, c, u, t) && !Noticed(Stored(st, c, q), c, u, t)
  }

  /** No transition that can act goes true from the counter's value to `q`. */
  ghost predicate NoneCrossed(st: State, c: nat, q: Int64)
    requires c in st.counters
  {
    forall t :: t in st.counters[c].triggers && CanAct(st, t) && GoesTrue(st, c, q, t) ==>
      IsComparison(TrigOf(st, t).check)
  }

  /** Storing a value spoils an event exactly if a transition goes true on the way: the edge is past. A comparison
      that is true there is still true later. */
  lemma SpoilsExactly(st: State, c: nat, q: Int64)
    requires Valid(st) && Live(st, c) && NamesOnce(st, c)
    ensures Spoils(st, c, q) <==> !NoneCrossed(st, c, q)
  {
    var r := Stored(st, c, q);
    ValueKeepsValid(st, c, q);
    assert SoundList(st, c, st.counters[c].triggers);
    forall u, t | t in st.counters[c].triggers
      ensures Noticed(st, c, u, t) <==> CanAct(st, t) && GoesTrue(st, c, u, t)
      ensures Noticed(r, c, u, t) <==> CanAct(st, t) && Check(TrigOf(st, t), q, u)
    {
      NoticedExactly(st, c, u, t);
      NoticedExactly(r, c, u, t);
      assert CanAct(r, t) == CanAct(st, t) && TrigOf(r, t) == TrigOf(st, t);
    }
    if !NoneCrossed(st, c, q) {
      var t :| t in st.counters[c].triggers && CanAct(st, t) && GoesTrue(st, c, q, t)
               && !IsComparison(TrigOf(st, t).check);
      assert Noticed(st, c, q, t) && !Noticed(r, c, q, t);
    }
  }

  /** The brackets in force do not stop the counter where the trigger, guarded when it stood at `v`, goes off now that
      it stands at `q`: the stored value is on the other side of the test value, and the way back is silent. */
  predicate SlipsBack(t: Trigger, v: Int64, q: Int64, less: Option<Int64>, greater: Option<Int64>) {
    var lo, hi := Low(less), High(greater);
    lo <= hi
    && match t.check
       case PositiveTransition => q < t.testValue <= v && t.testValue <= hi
       case NegativeTransition => v <= t.testValue < q && lo <= t.testValue
       case _ => false
  }

  lemma SlipsExactly(t: Trigger, v: Int64, q: Int64, less: Option<Int64>, greater: Option<Int64>)
    requires Guarded(t, v, less, greater)
    ensures Guarded(t, q, less, greater) <==> !SlipsBack(t, v, q, less, greater)
  {
  }

  /** No trigger of `c` that can act, but perhaps `but`, slips back. */
  ghost predicate NoneSlips(st: State, c: nat, q: Int64, but: Option<TrigId>)
    requires Idle(st, c)
  {
    var cnt := st.counters[c];
    forall t :: t in cnt.triggers && CanAct(st, t) && but != Some(t) ==>
      !SlipsBack(TrigOf(st, t), cnt.value, q, cnt.system.value.less, cnt.system.value.greater)
  }

  /** A value at which no wakeup would have looked at the triggers is stored without harm. */
  lemma SilentStoreHarmless(st: State, c: nat, q: IdleTime)
    requires Valid(st) && Idle(st, c) && AllGuarded(st, c)
    requires !Crosses(st.counters[c].system.value.less, st.counters[c].system.value.greater, q)
    ensures NoneCrossed(st, c, q) && NoneSlips(st, c, q, None)
  {
    var cnt := st.counters[c];
    assert SoundList(st, c, cnt.triggers);
    forall t | t in cnt.triggers && CanAct(st, t)
      ensures !GoesTrue(st, c, q, t)
      ensures !SlipsBack(TrigOf(st, t), cnt.value, q, cnt.system.value.less, cnt.system.value.greater)
    {
      GuardHolds(TrigOf(st, t), cnt.value, cnt.system.value.less, cnt.system.value.greater, q);
      SlipsExactly(TrigOf(st, t), cnt.value, q, cnt.system.value.less, cnt.system.value.greater);
    }
  }

  // ----- the brackets are computed again

  /** Brackets computed at `v` stop the counter for this trigger no later than at `u`. */
  predicate Stops(v: Int64, u: Int64, s: Trigger) {
    !s.testType.UnknownTest? && ((Above(v, s) && u >= s.testValue) || (Below(v, s) && u <= s.testValue))
  }

  lemma FreshSilent(ts: seq<Trigger>, v: Int64, u: IdleTime)
    ensures !Crosses(Less(Unrestricted, v, ts), Greater(Unrestricted, v, ts), u)
            <==> forall s :: s in ts ==> !Stops(v, u, s)
  {
    var l, g := Less(Unrestricted, v, ts), Greater(Unrestricted, v, ts);
    if g.Some? && u >= g.value {
      var s :| s in ts && Seen(Unrestricted, s.testType) && Above(v, s) && s.testValue == g.value;
      assert Stops(v, u, s);
    }
    if l.Some? && u <= l.value {
      var s :| s in ts && Seen(Unrestricted, s.testType) && Below(v, s) && s.testValue == l.value;
      assert Stops(v, u, s);
    }
    forall s | s in ts && Stops(v, u, s) ensures Crosses(l, g, u) {
      assert Seen(Unrestricted, s.testType);
    }
  }

  /** Of the triggers on the list, but those in `gone`, and of the triggers in `more`, none stops the counter. */
  ghost predicate Silent(st: State, c: nat, gone: set<TrigId>, more: set<Trigger>, v: Int64, u: Int64)
    requires c in st.counters
  {
    && (forall t :: t in st.counters[c].triggers && t !in gone ==> !Stops(v, u, TrigOf(st, t)))
    && (forall s :: s in more ==> !Stops(v, u, s))
  }

  /** Wherever the comparison is true, one of these triggers stops the counter. */
  ghost predicate Covered(st: State, c: nat, gone: set<TrigId>, more: set<Trigger>, v: Int64, tr: Trigger)
    requires c in st.counters
  {
    forall u: IdleTime :: Holds(tr.check, tr.testValue, u, u) ==> !Silent(st, c, gone, more, v, u)
  }

  ghost predicate AllCovered(st: State, c: nat, gone: set<TrigId>, more: set<Trigger>, v: Int64)
    requires c in st.counters
  {
    forall t :: t in st.counters[c].triggers && t !in gone && CanAct(st, t) && IsComparison(TrigOf(st, t).check) ==>
      Covered(st, c, gone, more, v, TrigOf(st, t))
  }

  /** The triggers on the list of `c` in `r`: those of `st` without `gone`, as they were, and those in `more`. */
  ghost predicate SameData(st: State, r: State, c: nat, gone: set<TrigId>, more: set<Trigger>)
    requires c in st.counters && c in r.counters
  {
    && (forall t :: t in st.counters[c].triggers && t !in gone ==> t in r.counters[c].triggers && KeptTrigger(st, r, t))
    && (forall s :: s in more ==> exists t :: t in r.counters[c].triggers && TrigOf(r, t) == s)
    && (forall t :: t in r.counters[c].triggers ==>
          (t in st.counters[c].triggers && t !in gone) || TrigOf(r, t) in more)
  }

  /** The trigger is what it was. */
  predicate KeptTrigger(st: State, r: State, t: TrigId) {
    CanAct(r, t) == CanAct(st, t) && TrigOf(r, t) == TrigOf(st, t)
  }

  /** The triggers on the list, with the contents they have in `r`. */
  lemma DataOf(r: State, list: seq<TrigId>)
    ensures forall t :: t in list ==> TrigOf(r, t) in TrigData(r, list)
    ensures forall s :: s in TrigData(r, list) ==> exists t :: t in list && TrigOf(r, t) == s
  {
    var ts := TrigData(r, list);
    forall t | t in list ensures TrigOf(r, t) in ts {
      var i :| 0 <= i < |list| && list[i] == t;
      assert ts[i] == TrigOf(r, t);
    }
    forall s | s in ts ensures exists t :: t in list && TrigOf(r, t) == s {
      var i :| 0 <= i < |ts| && ts[i] == s;
      assert list[i] in list && TrigOf(r, list[i]) == s;
    }
  }

  lemma SilentExactly(st: State, r: State, c: nat, gone: set<TrigId>, more: set<Trigger>, u: IdleTime)
    requires c in st.counters && Idle(r, c) && FreshBrackets(r, c) && SameData(st, r, c, gone, more)
    ensures !Crosses(r.counters[c].system.value.less, r.counters[c].system.value.greater, u)
            <==> Silent(st, c, gone, more, r.counters[c].value, u)
  {
    var cnt := r.counters[c];
    var ts := TrigData(r, cnt.triggers);
    DataOf(r, cnt.triggers);
    FreshSilent(ts, cnt.value, u);
    forall t | t in st.counters[c].triggers && t !in gone ensures TrigOf(st, t) in ts {
      assert KeptTrigger(st, r, t);
    }
    forall s | s in ts
      ensures s in more || exists t :: t in st.counters[c].triggers && t !in gone && TrigOf(st, t) == s
    {
      var t :| t in cnt.triggers && TrigOf(r, t) == s;
      if t in st.counters[c].triggers && t !in gone {
        assert KeptTrigger(st, r, t);
      }
    }
    forall s | s in more ensures s in ts {
      var t :| t in cnt.triggers && TrigOf(r, t) == s;
    }
  }

  /** A comparison is guarded exactly if it is nowhere true in silence. */
  lemma GuardedComparison(tr: Trigger, v: Int64, less: Option<Int64>, greater: Option<Int64>)
    requires IsComparison(tr.check)
    ensures Guarded(tr, v, less, greater)
            <==> forall u: IdleTime :: Holds(tr.check, tr.testValue, u, u) ==> Crosses(less, greater, u)
  {
    var lo, hi := Low(less), High(greater);
    forall u: IdleTime ensures !Crosses(less, greater, u) <==> lo <= u <= hi {
      SilentRange(less, greater, u);
    }
    if lo <= hi {
      var l: IdleTime, h: IdleTime := lo, hi;
      assert !Crosses(less, greater, l) && !Crosses(less, greater, h);
    }
  }

  /** After the brackets have been computed again. */
  lemma GuardedCovered(st: State, r: State, c: nat, gone: set<TrigId>, more: set<Trigger>, tr: Trigger)
    requires c in st.counters && Idle(r, c) && FreshBrackets(r, c) && SameData(st, r, c, gone, more)
             && IsComparison(tr.check)
    ensures Guarded(tr, r.counters[c].value, r.counters[c].system.value.less, r.counters[c].system.value.greater)
            <==> Covered(st, c, gone, more, r.counters[c].value, tr)
  {
    var cnt := r.counters[c];
    GuardedComparison(tr, cnt.value, cnt.system.value.less, cnt.system.value.greater);
    forall u: IdleTime
      ensures !Crosses(cnt.system.value.less, cnt.system.value.greater, u)
              <==> Silent(st, c, gone, more, cnt.value, u)
    {
      SilentExactly(st, r, c, gone, more, u);
    }
  }

  /** A trigger that is false at the value the brackets are computed at is guarded by them. */
  lemma FreshFalse(r: State, c: nat, t: TrigId)
    requires Idle(r, c) && Orderly(r, c) && FreshBrackets(r, c) && t in r.counters[c].triggers
    requires var cnt, tr := r.counters[c], TrigOf(r, t); !Holds(tr.check, tr.testValue, cnt.value, cnt.value)
    ensures var cnt := r.counters[c];
            Guarded(TrigOf(r, t), cnt.value, cnt.system.value.less, cnt.system.value.greater)
  {
    var cnt := r.counters[c];
    DataOf(r, cnt.triggers);
    FreshGuard(cnt.value, TrigData(r, cnt.triggers), TrigOf(r, t));
  }

  /** If the value is an idle time and no transition has it as its test value, the comparisons are covered exactly if
      none of them is true already. */
  lemma PlainlyCovered(st: State, c: nat, gone: set<TrigId>, v: IdleTime)
    requires c in st.counters
    requires forall t :: t in st.counters[c].triggers && t !in gone ==> Agrees(TrigOf(st, t))
    requires forall t :: t in st.counters[c].triggers && t !in gone && TrigOf(st, t).testValue == v ==>
               IsComparison(TrigOf(st, t).check) || TrigOf(st, t).check.UnknownTest?
    ensures AllCovered(st, c, gone, {}, v)
            <==> forall t :: t in st.counters[c].triggers && t !in gone
                   && CanAct(st, t) && IsComparison(TrigOf(st, t).check)
                   ==> !Holds(TrigOf(st, t).check, TrigOf(st, t).testValue, v, v)
  {
    assert Silent(st, c, gone, {}, v, v);
    forall t | t in st.counters[c].triggers && t !in gone && IsComparison(TrigOf(st, t).check)
      ensures Covered(st, c, gone, {}, v, TrigOf(st, t)) <==> !Holds(TrigOf(st, t).check, TrigOf(st, t).testValue, v, v)
    {
      PlainOne(st, c, gone, v, t);
    }
  }

  lemma PlainOne(st: State, c: nat, gone: set<TrigId>, v: IdleTime, t: TrigId)
    requires c in st.counters && t in st.counters[c].triggers && t !in gone
    requires Agrees(TrigOf(st, t)) && IsComparison(TrigOf(st, t).check) && Silent(st, c, gone, {}, v, v)
    ensures Covered(st, c, gone, {}, v, TrigOf(st, t)) <==> !Holds(TrigOf(st, t).check, TrigOf(st, t).testValue, v, v)
  {
    var tr := TrigOf(st, t);
    if !Holds(tr.check, tr.testValue, v, v) {
      forall u: IdleTime | Holds(tr.check, tr.testValue, u, u) ensures !Silent(st, c, gone, {}, v, u) {
        assert Stops(v, u, tr);
      }
    }
  }
}
