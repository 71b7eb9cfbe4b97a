/** The queue of sleeping clients: requests in the order of their revive times, and the block and wakeup
    handlers that serve it. */
module SleepQueue {
  import opened Options
  import opened Cards

  const TICKS := 0x1_0000_0000

  datatype TimeStamp = TimeStamp(months: nat, milliseconds: Card32)

  /** CompareTimeStamps(a, b) == LATER */
  predicate Later(a: TimeStamp, b: TimeStamp) {
    a.months > b.months || (a.months == b.months && a.milliseconds > b.milliseconds)
  }

  /** A record of the queue; `serial` numbers the calls in order of arrival. */
  datatype Request = Request(client: nat, revive: TimeStamp, serial: nat)

  // ----- the order of the queue

  predicate Before(a: Request, b: Request) {
    Later(b.revive, a.revive) || (b.revive == a.revive && a.serial < b.serial)
  }

  ghost predicate Ordered(q: seq<Request>) {
    forall i, j :: 0 <= i < j < |q| ==> Before(q[i], q[j])
  }

  lemma HeadOnce(q: seq<Request>)
    requires Ordered(q) && q != []
    ensures forall r :: r in q[1..] <==> r in q && r != q[0]
  {
    assert q == [q[0]] + q[1..];
    forall r | r in q[1..] ensures r != q[0] {
      var j :| 1 <= j < |q| && q[j] == r;
      assert Before(q[0], q[j]);
    }
  }

  lemma EmptyHasNone(q: seq<Request>)
    ensures q == [] <==> forall r :: r !in q
  {
    if q != [] {
      assert q[0] in q;
    }
  }

  /** The order leaves no choice: the same requests make the same queue. */
  lemma {:induction false} OrderIsUnique(p: seq<Request>, q: seq<Request>)
    requires Ordered(p) && Ordered(q) && forall r :: r in p <==> r in q
    ensures p == q
  {
    EmptyHasNone(p);
    EmptyHasNone(q);
    if p != [] {
      assert p[0] in q && q[0] in p;
      HeadOnce(p);
      HeadOnce(q);
      assert p[0] == q[0];
      OrderIsUnique(p[1..], q[1..]);
    }
  }

  lemma InsertedOrdered(q: seq<Request>, i: nat, r: Request)
    requires Ordered(q) && i <= |q|
    requires forall j :: 0 <= j < i ==> !Later(q[j].revive, r.revive)
    requires i < |q| ==> Later(q[i].revive, r.revive)
    requires forall j :: 0 <= j < |q| ==> q[j].serial < r.serial
    ensures Ordered(q[..i] + [r] + q[i..])
  {
    var p := q[..i] + [r] + q[i..];
    forall j | i <= j < |q| ensures Later(q[j].revive, r.revive) {
      if j > i {
        assert Before(q[i], q[j]);
      }
    }
    forall a, b | 0 <= a < b < |p| ensures Before(p[a], p[b]) {
      var x, y := if a < i then a else a - 1, if b < i then b else b - 1;
      assert a != i ==> p[a] == q[x];
      assert b != i ==> p[b] == q[y];
    }
  }

  /** A time as one number of milliseconds. */
  function Clock(t: TimeStamp): nat {
    t.months * TICKS + t.milliseconds
  }

  /** The unsigned 32-bit difference of the block handler. */
  function Delay(revive: TimeStamp, now: TimeStamp): nat {
    (revive.milliseconds - now.milliseconds) % TICKS
  }

  /** AdjustWaitForDelay: waiting gets no longer. */
  function Adjust(wait: Option<nat>, delay: nat): Option<nat> {
    if wait.Some? && wait.value <= delay then wait else Some(delay)
  }

  lemma ClockOrder(a: TimeStamp, b: TimeStamp)
    ensures Clock(a) > Clock(b) <==> Later(a, b)
  {
  }

  /** The delay is the time until the request is due, unless that is 2^32 milliseconds or more; it is
      never longer. */
  lemma DelayIsTimeLeft(revive: TimeStamp, now: TimeStamp)
    requires Later(revive, now)
    ensures 0 <= Delay(revive, now) <= Clock(revive) - Clock(now)
    ensures Delay(revive, now) == Clock(revive) - Clock(now) <==> Clock(revive) - Clock(now) < TICKS
  {
  }

  /** After `d` milliseconds the 32-bit clock shows the revive time. */
  predicate RevivesIn(d: nat, revive: TimeStamp, now: TimeStamp) {
    d < 0x1_0000_0000 && (now.milliseconds + d - revive.milliseconds) % 0x1_0000_0000 == 0
  }

  lemma DelayRevives(revive: TimeStamp, now: TimeStamp)
    ensures RevivesIn(Delay(revive, now), revive, now)
  {
    var x: int := revive.milliseconds - now.milliseconds;
    assert x == x / TICKS * TICKS + x % TICKS;
    assert now.milliseconds + Delay(revive, now) - revive.milliseconds == -(x / TICKS) * TICKS;
  }

  // ----- the pending and the notified requests

  /** Every accepted request is either pending or has been notified, and that only once. */
  ghost predicate Accounted(accepted: set<nat>, pending: seq<Request>, notified: seq<Request>) {
    && (forall i, j :: 0 <= i < j < |notified| ==> notified[i].serial != notified[j].serial)
    && (forall p, n :: p in pending && n in notified ==> p.serial != n.serial)
    && (forall p :: p in pending ==> p.serial in accepted)
    && (forall n :: n in notified ==> n.serial in accepted)
    && (forall s :: s in accepted ==>
          (exists p :: p in pending && p.serial == s) || (exists n :: n in notified && n.serial == s))
  }

  /** The queue is in order, and every request accepted is in it or has been notified. */
  ghost predicate Queued(pending: seq<Request>, accepted: set<nat>, notified: seq<Request>, calls: nat) {
    && Ordered(pending)
    && (forall r :: r in pending ==> r.serial < calls)
    && (forall s :: s in accepted ==> s < calls)
    && (forall a, b :: a in pending && b in pending && a.serial == b.serial ==> a == b)
    && Accounted(accepted, pending, notified)
  }

  lemma NowQueued(q: seq<Request>, i: nat, r: Request, accepted: set<nat>, notified: seq<Request>, calls: nat)
    requires Queued(q, accepted, notified, calls) && r.serial == calls && i <= |q|
    requires forall j :: 0 <= j < i ==> !Later(q[j].revive, r.revive)
    requires i < |q| ==> Later(q[i].revive, r.revive)
    ensures Queued(q[..i] + [r] + q[i..], accepted + {r.serial}, notified, calls + 1)
  {
    InsertedOrdered(q, i, r);
    InsertedMembers(q, i, r);
    Accepted(accepted, q, q[..i] + [r] + q[i..], notified, r);
  }

  lemma InsertedMembers(q: seq<Request>, i: nat, r: Request)
    requires i <= |q|
    ensures forall x :: x in q[..i] + [r] + q[i..] <==> x in q || x == r
  {
    assert q == q[..i] + q[i..];
  }

  lemma Accepted(accepted: set<nat>, q: seq<Request>, p: seq<Request>, notified: seq<Request>, r: Request)
    requires Accounted(accepted, q, notified) && r.serial !in accepted
    requires forall x :: x in p <==> x in q || x == r
    ensures Accounted(accepted + {r.serial}, p, notified)
  {
    forall s | s in accepted + {r.serial}
      ensures (exists x :: x in p && x.serial == s) || (exists n :: n in notified && n.serial == s)
    {
      if s == r.serial {
        assert r in p;
      } else if x :| x in q && x.serial == s {
        assert x in p;
      }
    }
  }

  lemma Notified(accepted: set<nat>, q: seq<Request>, p: seq<Request>, notified: seq<Request>, r: Request)
    requires Accounted(accepted, q, notified) && r in q
    requires forall x :: x in p <==> x in q && x != r
    requires forall x :: x in q && x != r ==> x.serial != r.serial
    ensures Accounted(accepted, p, notified + [r])
  {
    forall s | s in accepted
      ensures (exists x :: x in p && x.serial == s) || (exists n :: n in notified + [r] && n.serial == s)
    {
      if n :| n in notified && n.serial == s {
        assert n in notified + [r];
      } else {
        var x :| x in q && x.serial == s;
        assert x == r ==> r in notified + [r];
        assert x != r ==> x in p;
      }
    }
  }

  /** Once the first of the remaining requests is due later, so are all of them. */
  lemma LaterFrom(q: seq<Request>, k: nat, now: TimeStamp)
    requires Ordered(q) && k <= |q| && (k < |q| ==> Later(q[k].revive, now))
    ensures forall j :: k <= j < |q| ==> Later(q[j].revive, now)
  {
    forall j | k < j < |q| ensures Later(q[j].revive, now) {
      assert Before(q[k], q[j]);
    }
  }

  lemma Advance(log: seq<Request>, q: seq<Request>, k: nat)
    requires k < |q|
    ensures (log + q[..k]) + [q[k]] == log + q[..k + 1]
    ensures q[k..][1..] == q[k + 1..] && q[k..][0] == q[k]
  {
  }

  lemma RemovedOrdered(q: seq<Request>, i: nat)
    requires Ordered(q) && i < |q|
    ensures var p := q[..i] + q[i + 1..];
            Ordered(p) && forall x :: x in p <==> x in q && x != q[i]
  {
    var p := q[..i] + q[i + 1..];
    forall a, b | 0 <= a < b < |p| ensures Before(p[a], p[b]) {
      assert p[a] == q[if a < i then a else a + 1] && p[b] == q[if b < i then b else b + 1];
    }
    forall x | x in p ensures x in q && x != q[i] {
      var a :| 0 <= a < |p| && p[a] == x;
      var j := if a < i then a else a + 1;
      assert x == q[j];
      assert j < i ==> Before(q[j], q[i]);
      assert j > i ==> Before(q[i], q[j]);
    }
    forall x | x in q && x != q[i] ensures x in p {
      var j :| 0 <= j < |q| && q[j] == x;
      assert p[if j < i then j else j - 1] == x;
    }
  }

  /** If the handlers are registered, exactly the requests that are due have been notified, in order. */
  ghost predicate Served(q: seq<Request>, log: seq<Request>, now: TimeStamp, handlers: nat, q': seq<Request>,
                         log': seq<Request>) {
    if handlers == 0 then q' == q && log' == log
    else exists k: nat ::
           && k <= |q| && q' == q[k..] && log' == log + q[..k]
           && (forall j :: 0 <= j < k ==> !Later(q[j].revive, now))
           && (forall j :: k <= j < |q| ==> Later(q[j].revive, now))
  }

  datatype Event =
    | Sleeps(client: nat, revive: TimeStamp, typed: bool, available: bool, registrable: bool, addable: bool)
    | Wakes(now: TimeStamp)
    | Blocks(now: TimeStamp, wait: Option<nat>)
    | Frees(place: nat)
    | Resets

  class Queue {
    /** pPending */
    var pending: seq<Request>
    var sertafiedGeneration: nat
    var serverGeneration: nat
    var blockHandlerRegistered: bool
    /** How often the handlers stand in the server's list of handlers. */
    var handlers: nat
    var calls: nat
    /** The requests whose notifyFunc has been called, in order. */
    var notified: seq<Request>
    ghost var accepted: set<nat>

    /** Within a generation the handlers are registered once or not at all, and certainly once if somebody
        sleeps. */
    ghost predicate HandlersOk()
      reads this
    {
      && sertafiedGeneration <= serverGeneration
      && (handlers == if sertafiedGeneration == serverGeneration && blockHandlerRegistered then 1 else 0)
      && (pending != [] ==> handlers == 1)
    }

    ghost predicate QueueOk()
      reads this
    {
      Queued(pending, accepted, notified, calls)
    }

    ghost predicate Valid()
      reads this
    {
      QueueOk() && HandlersOk()
    }

    constructor ()
      ensures Valid() && pending == [] && notified == []
    {
      pending, notified, accepted, calls := [], [], {}, 0;
      sertafiedGeneration, serverGeneration, blockHandlerRegistered, handlers := 0, 1, false, 0;
    }

    /** The walk to the place of a new request: behind all those that are due no later. */
    method FindPlace(revive: TimeStamp) returns (i: nat)
      ensures i <= |pending|
      ensures forall j :: 0 <= j < i ==> !Later(pending[j].revive, revive)
      ensures i < |pending| ==> Later(pending[i].revive, revive)
    {
      i := 0;
      while i < |pending| && !Later(pending[i].revive, revive)
        invariant i <= |pending|
        invariant forall j :: 0 <= j < i ==> !Later(pending[j].revive, revive)
      {
        i := i + 1;
      }
    }

    /** A request that has all it needs is put in its place. */
    method Insert(r: Request)
      requires Valid() && handlers == 1 && r.serial == calls
      modifies this`pending, this`accepted, this`calls
      ensures Valid() && calls == old(calls) + 1 && accepted == old(accepted) + {r.serial}
      ensures forall x :: x in pending <==> x in old(pending) || x == r
    {
      var i := FindPlace(r.revive);
      NowQueued(pending, i, r, accepted, notified, calls);
      InsertedMembers(pending, i, r);
      pending := pending[..i] + [r] + pending[i..];
      accepted := accepted + {r.serial};
      calls := calls + 1;
    }

    /** ClientSleepUntil; the flags say whether the resource type, the record, the handlers and the resource
        can be had. */
    method ClientSleepUntil(client: nat, revive: TimeStamp, typed: bool, available: bool, registrable: bool,
                            addable: bool)
      returns (ok: bool)
      requires Valid()
      modifies this`pending, this`accepted, this`calls, this`sertafiedGeneration, this`blockHandlerRegistered,
               this`handlers
      ensures Valid()
      ensures ok ==> accepted == old(accepted) + {old(calls)}
                     && forall x :: x in pending <==> x in old(pending) || x == Request(client, revive, old(calls))
      ensures !ok ==> pending == old(pending) && accepted == old(accepted)
      ensures ok <==> available && addable
                      && (old(sertafiedGeneration) == serverGeneration || typed)
                      && ((old(sertafiedGeneration) == serverGeneration && old(blockHandlerRegistered)) || registrable)
    {
      if sertafiedGeneration != serverGeneration {
        if !typed {
          return false;
        }
        sertafiedGeneration := serverGeneration;
        blockHandlerRegistered := false;
      }
      if !available {
        return false;
      }
      if !blockHandlerRegistered {
        if !registrable {
          return false;
        }
        handlers := handlers + 1;
        blockHandlerRegistered := true;
      }
      if !addable {
        return false;
      }
      Insert(Request(client, revive, calls));
      ok := true;
    }

    /** SertafiedDelete, called when the resource of a queued request is freed. */
    method Delete(r: Request)
      requires Valid() && r in pending
      modifies this`pending, this`notified
      ensures Valid() && notified == old(notified) + [r]
      ensures forall x :: x in pending <==> x in old(pending) && x != r
      ensures old(pending)[0] == r ==> pending == old(pending)[1..]
    {
      var i := 0;
      while pending[i] != r
        invariant i < |pending| && r in pending[i..]
        decreases |pending| - i
      {
        i := i + 1;
      }
      ghost var q := pending;
      pending := pending[..i] + pending[i + 1..];
      RemovedOrdered(q, i);
      Notified(accepted, q, pending, notified, r);
      notified := notified + [r];
    }

    /** One pass over the queue: the requests due at `now` or before are freed, in the order of the queue. */
    method FreeDue(now: TimeStamp) returns (k: nat)
      requires Valid()
      modifies this`pending, this`notified
      ensures Valid()
      ensures k <= |old(pending)| && pending == old(pending)[k..] && notified == old(notified) + old(pending)[..k]
      ensures forall j :: 0 <= j < k ==> !Later(old(pending)[j].revive, now)
      ensures forall j :: k <= j < |old(pending)| ==> Later(old(pending)[j].revive, now)
    {
      ghost var q := pending;
      k := 0;
      while pending != [] && !Later(pending[0].revive, now)
        invariant Valid() && k <= |q| && pending == q[k..] && notified == old(notified) + q[..k]
        invariant forall j :: 0 <= j < k ==> !Later(q[j].revive, now)
        decreases |pending|
      {
        Delete(pending[0]);
        Advance(old(notified), q, k);
        k := k + 1;
      }
      LaterFrom(q, k, now);
    }

    /** SertafiedWakeupHandler */
    method WakeupHandler(now: TimeStamp) returns (k: nat)
      requires Valid() && handlers > 0
      modifies this`pending, this`notified, this`handlers, this`blockHandlerRegistered
      ensures Valid()
      ensures k <= |old(pending)| && pending == old(pending)[k..] && notified == old(notified) + old(pending)[..k]
      ensures forall j :: 0 <= j < k ==> !Later(old(pending)[j].revive, now)
      ensures forall j :: k <= j < |old(pending)| ==> Later(old(pending)[j].revive, now)
      ensures handlers == 1 <==> pending != []
    {
      k := FreeDue(now);
      if pending == [] {
        handlers := handlers - 1;
        blockHandlerRegistered := false;
      }
    }

    /** SertafiedBlockHandler: `wait` is the time the server would wait, None for ever. It is woken up in time for
        the first request that stays, but no earlier than that or than it would have been, and does not wait if a
        request was freed. */
    method BlockHandler(now: TimeStamp, wait: Option<nat>) returns (wait': Option<nat>, k: nat)
      requires Valid() && handlers > 0
      modifies this`pending, this`notified
      ensures Valid()
      ensures k <= |old(pending)| && pending == old(pending)[k..] && notified == old(notified) + old(pending)[..k]
      ensures forall j :: 0 <= j < k ==> !Later(old(pending)[j].revive, now)
      ensures forall j :: 0 <= j < |pending| ==> Later(pending[j].revive, now)
      ensures k > 0 ==> wait' == Some(0)
      ensures wait.Some? ==> wait'.Some? && wait'.value <= wait.value
      ensures forall j :: 0 <= j < |pending| ==>
                wait'.Some? && wait'.value <= Clock(pending[j].revive) - Clock(now)
      ensures pending == [] && k == 0 ==> wait' == wait
      ensures pending != [] && k == 0 ==>
                exists d :: RevivesIn(d, pending[0].revive, now)
                  && wait' == Some(if wait.Some? && wait.value <= d then wait.value else d)
    {
      wait', k := wait, 0;
      if pending == [] {
        return;
      }
      k := FreeDue(now);
      if k > 0 {
        wait' := Adjust(wait', 0);
      }
      if pending == [] {
        return;
      }
      FirstInTime(now);
      DelayRevives(pending[0].revive, now);
      wait' := Adjust(wait', Delay(pending[0].revive, now));
    }

    /** The delay until the first request is due is none too long for the others. */
    lemma FirstInTime(now: TimeStamp)
      requires Valid() && pending != [] && forall j :: 0 <= j < |pending| ==> Later(pending[j].revive, now)
      ensures forall j :: 0 <= j < |pending| ==> Delay(pending[0].revive, now) <= Clock(pending[j].revive) - Clock(now)
    {
      forall j | 0 <= j < |pending| ensures Delay(pending[0].revive, now) <= Clock(pending[j].revive) - Clock(now) {
        DelayIsTimeLeft(pending[0].revive, now);
        assert j > 0 ==> Before(pending[0], pending[j]);
        ClockOrder(pending[0].revive, pending[j].revive);
      }
    }

    /** The server starts a new generation: all resources are freed and all handlers forgotten. */
    method Reset()
      requires Valid()
      modifies this`pending, this`notified, this`serverGeneration, this`handlers
      ensures Valid() && pending == [] && handlers == 0 && serverGeneration == old(serverGeneration) + 1
    {
      while pending != []
        invariant Valid() && serverGeneration == old(serverGeneration)
        decreases |pending|
      {
        Delete(pending[0]);
      }
      serverGeneration, handlers := serverGeneration + 1, 0;
    }

    /** What an event does to the queue and to the log of notifications. */
    method Step(e: Event)
      requires Valid()
      modifies this
      ensures Valid()
      ensures match e
              case Sleeps(client, revive, _, _, _, _) =>
                && notified == old(notified)
                && if old(calls) in accepted
                   then forall x :: x in pending <==> x in old(pending) || x == Request(client, revive, old(calls))
                   else pending == old(pending)
              case Wakes(now) => Served(old(pending), old(notified), now, old(handlers), pending, notified)
              case Blocks(now, _) => Served(old(pending), old(notified), now, old(handlers), pending, notified)
              case Frees(i) =>
                if i < |old(pending)|
                then && notified == old(notified) + [old(pending)[i]]
                     && forall x :: x in pending <==> x in old(pending) && x != old(pending)[i]
                else notified == old(notified) && pending == old(pending)
              case Resets => pending == [] && handlers == 0 && serverGeneration == old(serverGeneration) + 1
    {
      match e
      case Sleeps(client, revive, typed, available, registrable, addable) =>
        var ok := ClientSleepUntil(client, revive, typed, available, registrable, addable);
      case Wakes(now) =>
        if handlers > 0 {
          var k := WakeupHandler(now);
        }
      case Blocks(now, wait) =>
        if handlers > 0 {
          var wait', k := BlockHandler(now, wait);
          assert forall j :: k <= j < |old(pending)| ==> old(pending)[j] == pending[j - k];
        }
      case Frees(i) =>
        if i < |pending| {
          Delete(pending[i]);
        }
      case Resets =>
        Reset();
    }

    /** In every reachable state the queue is ordered by revive time and arrival, every accepted request is
        pending or has been notified once, and the handlers are registered if somebody sleeps. */
    method Serve(events: seq<Event>)
      requires Valid()
      modifies this
      ensures Valid()
      ensures Ordered(pending) && Accounted(accepted, pending, notified)
      ensures pending != [] ==> handlers == 1
    {
      for i := 0 to |events|
        invariant Valid()
      {
        Step(events[i]);
      }
    }
  }
}
