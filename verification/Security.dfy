/** Generated authorizations of the SECURITY extension: reference counts and timers. */
module Security {
  import opened AuthTimer

  datatype Timer = NoTimer | Idle | Pending(delay: nat)

  datatype Auth = Auth(timeout: nat, trusted: bool, refcnt: nat, secondsRemaining: nat, timer: Timer)

  /** clientState; a client that is gone has left the table. */
  datatype Phase = Initial | Running | Retained

  /** `retain` stands for a close-down mode other than DestroyAll. */
  datatype Client = Client(phase: Phase, retain: bool, live: bool, trusted: bool, authId: nat)

  const NONE := 0

  // ----- the census

  /** The clients that count for an authorization. */
  ghost function Holders(clients: map<nat, Client>, id: nat): set<nat> {
    set c | c in clients && clients[c].live && clients[c].authId == id
  }

  /** An authorization with `n` live clients. Without a client and with a timeout its timer runs, and what
      is left to wait is no more than the timeout. */
  ghost predicate AuthOk(a: Auth, n: nat) {
    && a.refcnt == n
    && a.timeout < 0x1_0000_0000
    && (a.timer.Pending? <==> n == 0 && a.timeout != 0)
    && (a.timer.Pending? ==>
          0 < a.timer.delay < 0x1_0000_0000
          && a.timer.delay + MILLI_PER_SECOND * a.secondsRemaining <= MILLI_PER_SECOND * a.timeout)
  }

  /** A client that uses an existing authorization is live exactly while it runs. */
  ghost predicate ClientOk(c: Client, auths: map<nat, Auth>) {
    && (c.phase == Initial ==> !c.live && c.authId == NONE)
    && (c.authId in auths ==> (c.live <==> c.phase == Running))
  }

  ghost predicate Census(auths: map<nat, Auth>, clients: map<nat, Client>) {
    && NONE !in auths
    && (forall id :: id in auths ==> AuthOk(auths[id], |Holders(clients, id)|))
    && (forall c :: c in clients ==> ClientOk(clients[c], auths))
  }

  /** The census in other words: the count is the number of running clients with the authorization. */
  lemma CountsRunning(auths: map<nat, Auth>, clients: map<nat, Client>, id: nat)
    requires Census(auths, clients) && id in auths
    ensures auths[id].refcnt == |set c | c in clients && clients[c].phase == Running && clients[c].authId == id|
  {
    assert Holders(clients, id) == set c | c in clients && clients[c].phase == Running && clients[c].authId == id;
  }

  /** TimerSet, with a timer that waits as long as it is asked to: no delay, no timer. */
  function TimerSet(delay: nat): (t: Timer) {
    if delay == 0 then Idle else Pending(delay)
  }

  /** SecurityStartAuthorizationTimer */
  function StartTimer(a: Auth): Auth {
    var (delay, rest) := ComputeTimeout(a.timeout);
    a.(secondsRemaining := rest, timer := TimerSet(delay))
  }

  function Cancel(t: Timer): Timer {
    if t.Pending? then Idle else t
  }

  // ----- the steps on values

  /** SecurityClientState, case ClientStateRunning. */
  function AfterRunning(auths: map<nat, Auth>, clients: map<nat, Client>, c: nat, authId: nat)
    : (map<nat, Auth>, map<nat, Client>)
    requires c in clients
  {
    var client := clients[c].(phase := Running, authId := authId);
    if authId in auths then
      var a := auths[authId].(refcnt := auths[authId].refcnt + 1);
      (auths[authId := if a.refcnt == 1 then a.(timer := Cancel(a.timer)) else a],
       clients[c := client.(live := true, trusted := a.trusted)])
    else
      (auths, clients[c := client])
  }

  /** SecurityClientState, cases ClientStateGone and ClientStateRetained. */
  function AfterLeaving(auths: map<nat, Auth>, clients: map<nat, Client>, c: nat)
    : (map<nat, Auth>, map<nat, Client>)
    requires c in clients
  {
    var id := clients[c].authId;
    if id in auths && clients[c].live && auths[id].refcnt > 0 then
      var a := auths[id].(refcnt := auths[id].refcnt - 1);
      (auths[id := if a.refcnt == 0 then StartTimer(a) else a], clients[c := clients[c].(live := false)])
    else
      (auths, clients)
  }

  /** CloseDownClient: a client that is to be retained stays in the table, once. */
  predicate Leaves(client: Client) {
    client.phase == Retained || !client.retain
  }

  function AfterClose(auths: map<nat, Auth>, clients: map<nat, Client>, c: nat): (map<nat, Auth>, map<nat, Client>)
    requires c in clients
  {
    var (auths', clients') := AfterLeaving(auths, clients, c);
    (auths', if Leaves(clients[c]) then clients' - {c} else clients'[c := clients'[c].(phase := Retained)])
  }

  /** What becomes of the clients when the authorization `id` is deleted: those that use it are closed
      down, if they are among the first `n`. */
  ghost function AfterDelete(clients: map<nat, Client>, id: nat, n: nat): map<nat, Client> {
    map c | c in clients && !(c < n && clients[c].authId == id && Leaves(clients[c]))
      :: if c < n && clients[c].authId == id then clients[c].(phase := Retained) else clients[c]
  }

  /** ProcSecurityGenerateAuthorization: nobody uses the new authorization yet. */
  function NewAuth(timeout: nat, trusted: bool): Auth {
    var a := Auth(timeout, trusted, 0, 0, NoTimer);
    if timeout != 0 then StartTimer(a) else a
  }

  /** SecurityAuthorizationExpired when something is left to wait. */
  function Rearmed(a: Auth): Auth {
    var (delay, rest) := ComputeTimeout(a.secondsRemaining);
    a.(secondsRemaining := rest, timer := TimerSet(delay))
  }

  // ----- who holds what after a step

  lemma NotCounted(clients: map<nat, Client>, c: nat, client: Client, id: nat)
    requires !client.live && (c in clients ==> !clients[c].live)
    ensures Holders(clients[c := client], id) == Holders(clients, id)
  {
  }

  lemma Counted(clients: map<nat, Client>, c: nat, client: Client, id: nat)
    requires client.live && (c in clients ==> !clients[c].live)
    ensures Holders(clients[c := client], id) == Holders(clients, id) + if id == client.authId then {c} else {}
    ensures c !in Holders(clients, id)
  {
  }

  lemma Uncounted(clients: map<nat, Client>, c: nat, client: Client, id: nat)
    requires !client.live && c in clients && clients[c].live
    ensures Holders(clients[c := client], id) == Holders(clients, id) - {c}
    ensures c in Holders(clients, id) <==> id == clients[c].authId
  {
  }

  /** Neither leaving the table nor a new phase changes a count, for a client that does not count. */
  lemma ClosedUncounted(clients: map<nat, Client>, c: nat, id: nat)
    requires c in clients && (clients[c].live ==> clients[c].authId != id)
    ensures Holders(clients - {c}, id) == Holders(clients, id)
    ensures Holders(clients[c := clients[c].(phase := Retained)], id) == Holders(clients, id)
  {
  }

  lemma RunningCounts(auths: map<nat, Auth>, clients: map<nat, Client>, c: nat, authId: nat, id: nat)
    requires Census(auths, clients) && c in clients && clients[c].phase == Initial && id in auths
    ensures var (auths', clients') := AfterRunning(auths, clients, c, authId);
            AuthOk(auths'[id], |Holders(clients', id)|)
  {
    var (auths', clients') := AfterRunning(auths, clients, c, authId);
    assert ClientOk(clients[c], auths);
    if authId in auths {
      Counted(clients, c, clients'[c], id);
    } else {
      NotCounted(clients, c, clients'[c], id);
    }
  }

  lemma RunningKeepsCensus(auths: map<nat, Auth>, clients: map<nat, Client>, c: nat, authId: nat)
    requires Census(auths, clients) && c in clients && clients[c].phase == Initial
    ensures var (auths', clients') := AfterRunning(auths, clients, c, authId); Census(auths', clients')
  {
    forall id | id in auths
      ensures var (auths', clients') := AfterRunning(auths, clients, c, authId);
              AuthOk(auths'[id], |Holders(clients', id)|)
    {
      RunningCounts(auths, clients, c, authId, id);
    }
  }

  lemma LeavingCounts(auths: map<nat, Auth>, clients: map<nat, Client>, c: nat, id: nat)
    requires Census(auths, clients) && c in clients && id in auths
    ensures var (auths', clients') := AfterLeaving(auths, clients, c);
            AuthOk(auths'[id], |Holders(clients', id)|) && (clients'[c].live ==> clients[c].authId !in auths)
  {
    if clients[c].authId in auths && clients[c].live {
      var client := clients[c].(live := false);
      Uncounted(clients, c, client, id);
      Uncounted(clients, c, client, clients[c].authId);
      assert c in Holders(clients, clients[c].authId);
      assert |Holders(clients, clients[c].authId)| > 0;
    }
  }

  lemma ClosingKeepsCensus(auths: map<nat, Auth>, clients: map<nat, Client>, c: nat)
    requires Census(auths, clients) && c in clients
    ensures var (auths', clients') := AfterClose(auths, clients, c); Census(auths', clients')
  {
    var (auths', clients') := AfterLeaving(auths, clients, c);
    forall id | id in auths
      ensures AuthOk(auths'[id], |Holders(clients' - {c}, id)|)
      ensures AuthOk(auths'[id], |Holders(clients'[c := clients'[c].(phase := Retained)], id)|)
    {
      LeavingCounts(auths, clients, c, id);
      ClosedUncounted(clients', c, id);
    }
    LeavingClients(auths, clients, c);
  }

  lemma LeavingClients(auths: map<nat, Auth>, clients: map<nat, Client>, c: nat)
    requires Census(auths, clients) && c in clients
    ensures var (auths', clients') := AfterLeaving(auths, clients, c);
            auths'.Keys == auths.Keys && clients'.Keys == clients.Keys
            && (forall x :: x in clients && x != c ==> clients'[x] == clients[x])
            && clients'[c] == clients[c].(live := clients[c].live && clients[c].authId !in auths)
  {
    if clients[c].authId in auths && clients[c].live {
      assert c in Holders(clients, clients[c].authId);
      assert |Holders(clients, clients[c].authId)| > 0;
    }
  }

  /** Without the authorization `id` all the other counts stay right. */
  lemma DeletedKeepsCensus(auths: map<nat, Auth>, clients: map<nat, Client>, id: nat)
    requires Census(auths, clients)
    ensures Census(auths - {id}, clients)
  {
  }

  /** The next client in the loop of SecurityDeleteAuthorization, which can no longer look up `id`. */
  lemma DeleteStep(auths: map<nat, Auth>, clients: map<nat, Client>, id: nat, i: nat)
    requires id !in auths
    ensures var now := AfterDelete(clients, id, i);
            if i in now && now[i].authId == id
            then AfterClose(auths, now, i) == (auths, AfterDelete(clients, id, i + 1))
            else AfterDelete(clients, id, i + 1) == now
  {
    var now := AfterDelete(clients, id, i);
    if i in now && now[i].authId == id {
      assert AfterClose(auths, now, i).1 == AfterDelete(clients, id, i + 1);
    } else {
      assert AfterDelete(clients, id, i + 1) == now;
    }
  }

  // ----- what the steps mean

  /** The timer waits for the whole timeout; without a timeout nothing is waited for. */
  predicate StartedInFull(a: Auth) {
    if a.timeout == 0 then !a.timer.Pending?
    else a.timer.Pending? && 0 < a.timer.delay && a.timer.delay + 1000 * a.secondsRemaining == 1000 * a.timeout
  }

  /** A new authorization is as it was asked for. */
  lemma NewAuthMeans(timeout: nat, trusted: bool)
    ensures var a := NewAuth(timeout, trusted);
            a.timeout == timeout && a.trusted == trusted && a.refcnt == 0 && StartedInFull(a)
  {
  }

  /** A timer that has fired with something left to wait is started again for all of it, and nothing else changes. */
  lemma RearmedMeans(a: Auth)
    ensures var b := Rearmed(a);
            && b.timeout == a.timeout && b.trusted == a.trusted && b.refcnt == a.refcnt
            && (a.secondsRemaining > 0 ==>
                  b.timer.Pending? && 0 < b.timer.delay
                  && b.timer.delay + 1000 * b.secondsRemaining == 1000 * a.secondsRemaining)
  {
  }

  /** A client that runs with an authorization counts for it, gets its trust level, and stops its timer. Without one it
      keeps the trust it had. */
  lemma RunningMeans(auths: map<nat, Auth>, clients: map<nat, Client>, c: nat, id: nat)
    requires c in clients
    ensures var (auths', clients') := AfterRunning(auths, clients, c, id);
            && auths'.Keys == auths.Keys && clients'.Keys == clients.Keys
            && (forall x :: x in clients && x != c ==> clients'[x] == clients[x])
            && (forall x :: x in auths && x != id ==> auths'[x] == auths[x])
            && clients'[c].phase == Running && clients'[c].authId == id && clients'[c].retain == clients[c].retain
            && (id !in auths ==> clients'[c].live == clients[c].live && clients'[c].trusted == clients[c].trusted)
            && (id in auths ==>
                  && clients'[c].live && clients'[c].trusted == auths[id].trusted
                  && auths'[id].refcnt == auths[id].refcnt + 1
                  && auths'[id].timeout == auths[id].timeout && auths'[id].trusted == auths[id].trusted
                  && (auths[id].refcnt == 0 ==> !auths'[id].timer.Pending?)
                  && (auths[id].refcnt > 0 ==> auths'[id].timer == auths[id].timer))
  {
  }

  /** A client that is closed stays only if it asked to be retained and is not retained yet. It no longer counts for its
      authorization; if it was the last one, the timer is started in full. */
  lemma ClosingMeans(auths: map<nat, Auth>, clients: map<nat, Client>, c: nat)
    requires Census(auths, clients) && c in clients
    ensures var (auths', clients') := AfterClose(auths, clients, c);
            var id, counted := clients[c].authId, clients[c].authId in auths && clients[c].live;
            && auths'.Keys == auths.Keys
            && (forall x :: x in clients' ==> x in clients)
            && (forall x :: x in clients && x != c ==> x in clients' && clients'[x] == clients[x])
            && (c in clients' <==> clients[c].phase != Retained && clients[c].retain)
            && (c in clients' ==>
                  && clients'[c].phase == Retained && clients'[c].live == (clients[c].live && !counted)
                  && clients'[c].(phase := clients[c].phase, live := clients[c].live) == clients[c])
            && (forall x :: x in auths && !(x == id && counted) ==> auths'[x] == auths[x])
            && (counted ==>
                  && auths'[id].refcnt == auths[id].refcnt - 1
                  && auths'[id].timeout == auths[id].timeout && auths'[id].trusted == auths[id].trusted
                  && (auths'[id].refcnt == 0 ==> StartedInFull(auths'[id]))
                  && (auths'[id].refcnt > 0 ==> auths'[id] == auths[id].(refcnt := auths[id].refcnt - 1)))
  {
    if clients[c].authId in auths && clients[c].live {
      assert c in Holders(clients, clients[c].authId);
      assert |Holders(clients, clients[c].authId)| > 0;
    }
  }

  /** When an authorization is deleted, each of its clients is closed: those that asked to be retained and are not
      retained yet stay, the others are gone. No other client is touched. */
  lemma DeletingMeans(clients: map<nat, Client>, id: nat, n: nat)
    requires forall c :: c in clients ==> c < n
    ensures var left := AfterDelete(clients, id, n);
            && (forall c :: c in left ==> c in clients)
            && (forall c :: c in clients && clients[c].authId != id ==> c in left && left[c] == clients[c])
            && (forall c :: c in clients && clients[c].authId == id ==>
                  && (c in left <==> clients[c].phase != Retained && clients[c].retain)
                  && (c in left ==> left[c] == clients[c].(phase := Retained)))
  {
  }

  // ----- trust

  /** A client that counts for an authorization has its trust level; one that uses none, and is not retained, is
      trusted. */
  ghost predicate TrustKept(auths: map<nat, Auth>, clients: map<nat, Client>) {
    forall c :: c in clients ==>
      var client := clients[c];
      if client.authId in auths then client.live ==> client.trusted == auths[client.authId].trusted
      else client.phase != Retained ==> client.trusted
  }

  lemma RunningKeepsTrust(auths: map<nat, Auth>, clients: map<nat, Client>, c: nat, id: nat)
    requires Census(auths, clients) && TrustKept(auths, clients) && c in clients && clients[c].phase == Initial
    ensures var (auths', clients') := AfterRunning(auths, clients, c, id); TrustKept(auths', clients')
  {
    RunningMeans(auths, clients, c, id);
    assert ClientOk(clients[c], auths);
  }

  lemma ClosingKeepsTrust(auths: map<nat, Auth>, clients: map<nat, Client>, c: nat)
    requires Census(auths, clients) && TrustKept(auths, clients) && c in clients
    ensures var (auths', clients') := AfterClose(auths, clients, c); TrustKept(auths', clients')
  {
    ClosingMeans(auths, clients, c);
  }

  lemma DeletingKeepsTrust(auths: map<nat, Auth>, clients: map<nat, Client>, id: nat, n: nat)
    requires TrustKept(auths, clients) && forall c :: c in clients ==> c < n
    ensures TrustKept(auths - {id}, AfterDelete(clients, id, n))
  {
    DeletingMeans(clients, id, n);
  }

  // ----- runs

  datatype Event =
    | Connects(client: nat)
    | Runs(client: nat, authId: nat)
    | SetsMode(client: nat, retain: bool)
    | Closes(client: nat)
    | Generates(id: nat, timeout: nat, trusted: bool)
    | Expires(id: nat)
    | Revokes(id: nat)

  /** What can happen next. An authorization ID is handed out only while nobody uses it. */
  predicate CanHappen(e: Event, auths: map<nat, Auth>, clients: map<nat, Client>, maxClients: nat) {
    match e
    case Connects(c) => c !in clients && c < maxClients
    case Runs(c, _) => c in clients && clients[c].phase == Initial
    case SetsMode(c, _) => c in clients
    case Closes(c) => c in clients
    case Generates(id, timeout, _) =>
      id != NONE && id !in auths && timeout < 0x1_0000_0000 && forall c :: c in clients ==> clients[c].authId != id
    case Expires(id) => id in auths && auths[id].timer.Pending?
    case Revokes(id) => id in auths
  }

  /** What an event does. */
  ghost function Effect(e: Event, auths: map<nat, Auth>, clients: map<nat, Client>, maxClients: nat)
    : (map<nat, Auth>, map<nat, Client>)
  {
    if !CanHappen(e, auths, clients, maxClients) then (auths, clients)
    else
      match e
      case Connects(c) => (auths, clients[c := Client(Initial, false, false, true, NONE)])
      case Runs(c, authId) => AfterRunning(auths, clients, c, authId)
      case SetsMode(c, retain) => (auths, clients[c := clients[c].(retain := retain)])
      case Closes(c) => AfterClose(auths, clients, c)
      case Generates(id, timeout, trusted) => (auths[id := NewAuth(timeout, trusted)], clients)
      case Expires(id) =>
        if auths[id].secondsRemaining > 0 then (auths[id := Rearmed(auths[id])], clients)
        else (auths - {id}, AfterDelete(clients, id, maxClients))
      case Revokes(id) => (auths - {id}, AfterDelete(clients, id, maxClients))
  }

  /** A run from an empty server: the states between the events. */
  ghost predicate RunOf(events: seq<Event>, trace: seq<(map<nat, Auth>, map<nat, Client>)>, maxClients: nat) {
    && 0 < |trace| <= |events| + 1
    && trace[0] == (map[], map[])
    && forall i :: 0 <= i < |trace| - 1 ==> trace[i + 1] == Effect(events[i], trace[i].0, trace[i].1, maxClients)
  }

  lemma RunLonger(events: seq<Event>, trace: seq<(map<nat, Auth>, map<nat, Client>)>, maxClients: nat,
                  next: (map<nat, Auth>, map<nat, Client>))
    requires RunOf(events, trace, maxClients) && |trace| <= |events|
    requires next == Effect(events[|trace| - 1], trace[|trace| - 1].0, trace[|trace| - 1].1, maxClients)
    ensures RunOf(events, trace + [next], maxClients)
  {
  }

  /** Whatever happens, the trust levels stay those of the authorizations. */
  lemma EffectKeepsTrust(e: Event, auths: map<nat, Auth>, clients: map<nat, Client>, maxClients: nat)
    requires Census(auths, clients) && TrustKept(auths, clients) && forall c :: c in clients ==> c < maxClients
    ensures var (auths', clients') := Effect(e, auths, clients, maxClients); TrustKept(auths', clients')
  {
    if CanHappen(e, auths, clients, maxClients) {
      match e
      case Runs(c, id) => RunningKeepsTrust(auths, clients, c, id);
      case Closes(c) => ClosingKeepsTrust(auths, clients, c);
      case Expires(id) => DeletingKeepsTrust(auths, clients, id, maxClients);
      case Revokes(id) => DeletingKeepsTrust(auths, clients, id, maxClients);
      case _ =>
    }
  }

  class Server {
    var auths: map<nat, Auth>
    var clients: map<nat, Client>
    const maxClients: nat

    ghost predicate Valid()
      reads this
    {
      Census(auths, clients) && forall c :: c in clients ==> c < maxClients
    }

    constructor (maxClients: nat)
      ensures Valid() && auths == map[] && clients == map[] && this.maxClients == maxClients
    {
      auths, clients := map[], map[];
      this.maxClients := maxClients;
    }

    /** A connection is set up: the callback with ClientStateInitial. */
    method Connect(c: nat)
      requires Valid() && c !in clients && c < maxClients
      modifies this`clients
      ensures Valid() && clients == old(clients)[c := Client(Initial, false, false, true, NONE)]
    {
      ghost var before := clients;
      clients := clients[c := Client(Initial, false, false, true, NONE)];
      forall id | id in auths ensures Holders(clients, id) == Holders(before, id) {
        NotCounted(before, c, clients[c], id);
      }
    }

    /** The callback with ClientStateRunning; `authId` is the one the os layer found. */
    method Run(c: nat, authId: nat)
      requires Valid() && c in clients && clients[c].phase == Initial
      modifies this`auths, this`clients
      ensures Valid()
      ensures (auths, clients) == AfterRunning(old(auths), old(clients), c, authId)
    {
      RunningKeepsCensus(auths, clients, c, authId);
      var client := clients[c].(phase := Running, authId := authId);
      if authId in auths {
        var a := auths[authId];
        a := a.(refcnt := a.refcnt + 1);
        client := client.(live := true);
        if a.refcnt == 1 && a.timer != NoTimer {
          a := a.(timer := Cancel(a.timer));
        }
        client := client.(trusted := a.trusted);
        auths := auths[authId := a];
      }
      clients := clients[c := client];
    }

    /** The callback with ClientStateGone or ClientStateRetained. */
    method Leave(c: nat)
      requires Census(auths, clients) && c in clients
      modifies this`auths, this`clients
      ensures (auths, clients) == AfterLeaving(old(auths), old(clients), c)
    {
      LeavingClients(auths, clients, c);
      var id := clients[c].authId;
      if id in auths && clients[c].live {
        assert c in Holders(clients, id);
        assert |Holders(clients, id)| > 0;
        var a := auths[id];
        a := a.(refcnt := a.refcnt - 1);
        clients := clients[c := clients[c].(live := false)];
        if a.refcnt == 0 {
          a := StartTimer(a);
        }
        auths := auths[id := a];
      }
    }

    /** CloseDownClient */
    method Close(c: nat)
      requires Valid() && c in clients
      modifies this`auths, this`clients
      ensures Valid()
      ensures (auths, clients) == AfterClose(old(auths), old(clients), c)
    {
      ClosingKeepsCensus(auths, clients, c);
      LeavingClients(auths, clients, c);
      var leaves := clients[c].phase == Retained || !clients[c].retain;
      Leave(c);
      if leaves {
        clients := clients - {c};
      } else {
        clients := clients[c := clients[c].(phase := Retained)];
      }
    }

    /** FreeResource on an authorization, with SecurityDeleteAuthorization: its clients are closed down when it
        can no longer be looked up. */
    method Delete(id: nat)
      requires Valid() && id in auths
      modifies this`auths, this`clients
      ensures Valid()
      ensures auths == old(auths) - {id}
      ensures clients == AfterDelete(old(clients), id, maxClients)
    {
      DeletedKeepsCensus(auths, clients, id);
      auths := auths - {id};
      var i := 0;
      assert clients == AfterDelete(old(clients), id, 0);
      while i < maxClients
        invariant i <= maxClients && Valid() && auths == old(auths) - {id}
        invariant clients == AfterDelete(old(clients), id, i)
      {
        DeleteStep(auths, old(clients), id, i);
        if i in clients && clients[i].authId == id {
          Close(i);
        }
        i := i + 1;
      }
    }

    /** ProcSecurityGenerateAuthorization, once the os layer has handed out the new ID `id`. */
    method Generate(id: nat, timeout: nat, trusted: bool)
      requires Valid() && timeout < 0x1_0000_0000
      requires id != NONE && id !in auths && forall c :: c in clients ==> clients[c].authId != id
      modifies this`auths
      ensures Valid() && auths == old(auths)[id := NewAuth(timeout, trusted)]
    {
      assert Holders(clients, id) == {};
      var a := Auth(timeout, trusted, 0, 0, NoTimer);
      if a.timeout != 0 {
        a := StartTimer(a);
      }
      auths := auths[id := a];
    }

    /** SecurityAuthorizationExpired, called by a pending timer: the authorization is deleted when nothing
        is left to wait. Then no live client used it, and no client that runs is closed down. */
    method Expire(id: nat)
      requires Valid() && id in auths && auths[id].timer.Pending?
      modifies this`auths, this`clients
      ensures Valid()
      ensures Holders(old(clients), id) == {}
      ensures forall c :: c in old(clients) && old(clients)[c].phase != Retained ==>
                c in clients && clients[c] == old(clients)[c]
      ensures id in auths <==> old(auths)[id].secondsRemaining > 0
      ensures id in auths ==> clients == old(clients) && auths[id].timer.Pending?
                              && auths[id].timer.delay + MILLI_PER_SECOND * auths[id].secondsRemaining
                                 == MILLI_PER_SECOND * old(auths)[id].secondsRemaining
      ensures auths == if old(auths)[id].secondsRemaining > 0 then old(auths)[id := Rearmed(old(auths)[id])]
                       else old(auths) - {id}
      ensures clients == if old(auths)[id].secondsRemaining > 0 then old(clients)
                         else AfterDelete(old(clients), id, maxClients)
    {
      var a := auths[id];
      assert |Holders(clients, id)| == 0;
      forall c | c in clients && clients[c].phase != Retained ensures clients[c].authId != id {
        assert clients[c].live && clients[c].authId == id ==> c in Holders(clients, id);
      }
      if a.secondsRemaining > 0 {
        var (delay, rest) := ComputeTimeout(a.secondsRemaining);
        auths := auths[id := a.(secondsRemaining := rest, timer := TimerSet(delay))];
      } else {
        Delete(id);
      }
    }

    /** SetCloseDownMode */
    method SetMode(c: nat, retain: bool)
      requires Valid() && c in clients
      modifies this`clients
      ensures Valid() && clients == old(clients)[c := old(clients)[c].(retain := retain)]
    {
      ghost var before := clients;
      clients := clients[c := clients[c].(retain := retain)];
      forall id | id in auths ensures Holders(clients, id) == Holders(before, id) {
      }
    }

    method Step(e: Event)
      requires Valid()
      modifies this`auths, this`clients
      ensures Valid()
      ensures (auths, clients) == Effect(e, old(auths), old(clients), maxClients)
    {
      if !CanHappen(e, auths, clients, maxClients) {
        return;
      }
      match e
      case Connects(c) => Connect(c);
      case Runs(c, authId) => Run(c, authId);
      case SetsMode(c, retain) => SetMode(c, retain);
      case Closes(c) => Close(c);
      case Generates(id, timeout, trusted) => Generate(id, timeout, trusted);
      case Expires(id) => Expire(id);
      case Revokes(id) => Delete(id);
    }
  }

  /** In every reachable state each count is a census, only unused authorizations wait to expire, and every client has
      the trust level of its authorization. */
  method Serve(events: seq<Event>, maxClients: nat)
    returns (s: Server, ghost trace: seq<(map<nat, Auth>, map<nat, Client>)>)
    ensures RunOf(events, trace, maxClients) && |trace| == |events| + 1
    ensures fresh(s) && (s.auths, s.clients) == trace[|events|]
    ensures forall i :: 0 <= i < |trace| ==> Census(trace[i].0, trace[i].1) && TrustKept(trace[i].0, trace[i].1)
  {
    s := new Server(maxClients);
    trace := [(s.auths, s.clients)];
    var i := 0;
    while i != |events|
      invariant i <= |events| && fresh(s) && s.Valid() && s.maxClients == maxClients
      invariant |trace| == i + 1 && RunOf(events, trace, maxClients) && (s.auths, s.clients) == trace[i]
      invariant forall j :: 0 <= j < |trace| ==> Census(trace[j].0, trace[j].1) && TrustKept(trace[j].0, trace[j].1)
    {
      EffectKeepsTrust(events[i], s.auths, s.clients, maxClients);
      s.Step(events[i]);
      ghost var before := trace;
      trace := trace + [(s.auths, s.clients)];
      RunLonger(events, before, maxClients, (s.auths, s.clients));
      i := i + 1;
    }
  }
}
