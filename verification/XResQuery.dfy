/** The XRes extension: which resources a size query reports, and the conversion of its response for a client
    of the other byte order. */
module XResQuery {
  import opened XResLayout
  import opened XRes
  import opened Masks

  /** A request names a resource by its ID, or 0 for all; a type, or 0 for all. */
  datatype ResourceIdSpec = ResourceIdSpec(resource: nat, kind: nat)

  datatype Client = Absent | Present(resources: seq<Resource>)

  // ----- which resources are wanted

  predicate Matches(spec: ResourceIdSpec, r: Resource) {
    (spec.kind == 0 || spec.kind == r.kind) && (spec.resource == 0 || spec.resource == r.id)
  }

  /** CLIENT_ID: the client field of a 29-bit resource ID starts at bit `offset`. */
  function ClientId(id: nat, offset: nat): nat
    requires offset <= 29
  {
    (id / Pow2(offset)) % Pow2(29 - offset)
  }

  /** The resource of a spec is looked for among those of the client that owns its ID. */
  predicate Consulted(about: nat, clients: seq<Client>, offset: nat, s: ResourceIdSpec)
    requires offset <= 29
  {
    var cid := ClientId(s.resource, offset);
    s.resource != 0 && cid < |clients| && (about == 0 || cid == about) && clients[cid].Present?
  }

  ghost function Pool(clients: seq<Client>): set<Resource> {
    set c, r | 0 <= c < |clients| && clients[c].Present? && r in clients[c].resources :: r
  }

  ghost function Visited(visits: seq<Resource>): set<Resource> {
    set r | r in visits
  }

  /** The resources of a list that a spec matches. */
  ghost function Picked(rs: seq<Resource>, s: ResourceIdSpec): set<Resource> {
    set r | r in rs && Matches(s, r)
  }

  /** The resources of a client that some spec without an ID matches. */
  ghost function OfClient(rs: seq<Resource>, specs: seq<ResourceIdSpec>): set<Resource> {
    set r | r in rs && exists s :: s in specs && s.resource == 0 && Matches(s, r)
  }

  /** The resources that some spec with an ID matches. */
  ghost function ById(about: nat, clients: seq<Client>, offset: nat, specs: seq<ResourceIdSpec>): set<Resource>
    requires offset <= 29
  {
    set r | r in Pool(clients) && exists s :: s in specs && Consulted(about, clients, offset, s)
                                    && r in Picked(clients[ClientId(s.resource, offset)].resources, s)
  }

  /** What the clients `from..` contribute when no client is asked about. */
  ghost function OfClients(clients: seq<Client>, n: nat, specs: seq<ResourceIdSpec>): set<Resource>
    requires n <= |clients|
  {
    set r | r in Pool(clients) && exists c :: 0 <= c < n && clients[c].Present?
                                    && r in OfClient(clients[c].resources, specs)
  }

  ghost function Wanted(about: nat, clients: seq<Client>, offset: nat, specs: seq<ResourceIdSpec>): set<Resource>
    requires offset <= 29
  {
    ById(about, clients, offset, specs) +
    if about == 0 then OfClients(clients, |clients|, specs)
    else
      var c := ClientId(about, offset);
      if c < |clients| && clients[c].Present? then OfClient(clients[c].resources, specs) else {}
  }

  /** The client field of an ID, below which are `offset` bits and above which there may be others. */
  lemma ClientIdMeans(id: nat, high: nat, c: nat, low: nat, offset: nat)
    requires offset <= 29 && c < Pow2(29 - offset) && low < Pow2(offset)
    requires id == (high * Pow2(29 - offset) + c) * Pow2(offset) + low
    ensures ClientId(id, offset) == c
  {
    MiddlePart(id, high, c, low, Pow2(29 - offset), Pow2(offset));
  }

  lemma MiddlePart(id: nat, high: nat, c: nat, low: nat, m: nat, d: nat)
    requires c < m && low < d && id == (high * m + c) * d + low
    ensures id / d % m == c
  {
    LowPart(high * m + c, low, d);
    LowPart(high, c, m);
  }

  lemma LowPart(q: nat, r: nat, d: nat)
    requires r < d
    ensures (q * d + r) / d == q && (q * d + r) % d == r
  {
    RemainderIs(q * d + r, q, d, r);
    var x := q * d + r;
    assert x == x / d * d + r;
    StepUp(x / d, q, d);
    StepUp(q, x / d, d);
  }

  /** The resource belongs to client `c`, and some spec of its type asks for all resources of the clients that are
      looked at, or for this one by its ID. */
  ghost predicate AskedOf(about: nat, offset: nat, specs: seq<ResourceIdSpec>, c: nat, r: Resource)
    requires offset <= 29
  {
    exists s :: s in specs && (s.kind == 0 || s.kind == r.kind) &&
                if s.resource == 0 then about == 0 || c == ClientId(about, offset)
                else s.resource == r.id && c == ClientId(s.resource, offset) && (about == 0 || about == c)
  }

  /** Which resources are wanted. */
  lemma WantedExactly(about: nat, clients: seq<Client>, offset: nat, specs: seq<ResourceIdSpec>, r: Resource)
    requires offset <= 29
    ensures r in Wanted(about, clients, offset, specs)
            <==> exists c: nat :: c < |clients| && clients[c].Present? && r in clients[c].resources
                   && AskedOf(about, offset, specs, c, r)
  {
    if r in ById(about, clients, offset, specs) {
      var s :| s in specs && Consulted(about, clients, offset, s)
               && r in Picked(clients[ClientId(s.resource, offset)].resources, s);
      assert AskedOf(about, offset, specs, ClientId(s.resource, offset), r);
    }
    forall c: nat | c < |clients| && clients[c].Present? && r in clients[c].resources
                    && AskedOf(about, offset, specs, c, r)
      ensures r in Wanted(about, clients, offset, specs)
    {
      var s :| s in specs && (s.kind == 0 || s.kind == r.kind) &&
               if s.resource == 0 then about == 0 || c == ClientId(about, offset)
               else s.resource == r.id && c == ClientId(s.resource, offset) && (about == 0 || about == c);
      assert r in Pool(clients) && Matches(s, r);
      if s.resource == 0 {
        assert r in OfClient(clients[c].resources, specs);
      } else {
        assert r in Picked(clients[c].resources, s) && r in ById(about, clients, offset, specs);
      }
    }
  }

  // ----- the enumerations

  /** FindClientResourcesByType and FindAllClientResources with the callbacks for one spec. */
  method FindMatching(ctx: Context, rs: seq<Resource>, s: ResourceIdSpec)
    requires ctx.Valid()
    modifies ctx
    ensures ctx.Valid() && Visited(ctx.visits) == Visited(old(ctx.visits)) + Picked(rs, s)
  {
    var i := 0;
    while i < |rs|
      invariant i <= |rs| && ctx.Valid()
      invariant Visited(ctx.visits) == Visited(old(ctx.visits)) + Picked(rs[..i], s)
    {
      ghost var before := ctx.visits;
      if Matches(s, rs[i]) {
        ctx.AddResourceSizeValue(rs[i]);
        VisitOne(before, rs[i]);
      }
      PickOne(rs, i, s);
      i := i + 1;
    }
    assert rs[..i] == rs;
  }

  lemma VisitOne(visits: seq<Resource>, r: Resource)
    ensures Visited(visits + [r]) == Visited(visits) + {r}
  {
  }

  lemma PickOne(rs: seq<Resource>, i: nat, s: ResourceIdSpec)
    requires i < |rs|
    ensures Picked(rs[..i + 1], s) == Picked(rs[..i], s) + if Matches(s, rs[i]) then {rs[i]} else {}
  {
  }

  /** ConstructClientResourceBytes */
  method ConstructClientResourceBytes(ctx: Context, rs: seq<Resource>, specs: seq<ResourceIdSpec>)
    requires ctx.Valid()
    modifies ctx
    ensures ctx.Valid() && Visited(ctx.visits) == Visited(old(ctx.visits)) + OfClient(rs, specs)
  {
    var i := 0;
    while i < |specs|
      invariant i <= |specs| && ctx.Valid()
      invariant Visited(ctx.visits) == Visited(old(ctx.visits)) + OfClient(rs, specs[..i])
    {
      if specs[i].resource == 0 {
        FindMatching(ctx, rs, specs[i]);
      }
      MoreOfClient(rs, specs, i);
      i := i + 1;
    }
    assert specs[..i] == specs;
  }

  lemma MoreOfClient(rs: seq<Resource>, specs: seq<ResourceIdSpec>, i: nat)
    requires i < |specs|
    ensures OfClient(rs, specs[..i + 1])
            == OfClient(rs, specs[..i]) + if specs[i].resource == 0 then Picked(rs, specs[i]) else {}
  {
    assert specs[..i + 1] == specs[..i] + [specs[i]];
  }

  /** ConstructResourceBytesByResource */
  method ConstructResourceBytesByResource(ctx: Context, about: nat, clients: seq<Client>, offset: nat,
                                          specs: seq<ResourceIdSpec>)
    requires ctx.Valid() && offset <= 29
    modifies ctx
    ensures ctx.Valid() && Visited(ctx.visits) == Visited(old(ctx.visits)) + ById(about, clients, offset, specs)
  {
    var i := 0;
    while i < |specs|
      invariant i <= |specs| && ctx.Valid()
      invariant Visited(ctx.visits) == Visited(old(ctx.visits)) + ById(about, clients, offset, specs[..i])
    {
      if Consulted(about, clients, offset, specs[i]) {
        FindMatching(ctx, clients[ClientId(specs[i].resource, offset)].resources, specs[i]);
      }
      MoreById(about, clients, offset, specs, i);
      i := i + 1;
    }
    assert specs[..i] == specs;
  }

  lemma MoreById(about: nat, clients: seq<Client>, offset: nat, specs: seq<ResourceIdSpec>, i: nat)
    requires offset <= 29 && i < |specs|
    ensures ById(about, clients, offset, specs[..i + 1])
            == ById(about, clients, offset, specs[..i])
               + if Consulted(about, clients, offset, specs[i])
                 then Picked(clients[ClientId(specs[i].resource, offset)].resources, specs[i]) else {}
  {
    assert specs[..i + 1] == specs[..i] + [specs[i]];
  }

  lemma MoreClients(clients: seq<Client>, n: nat, specs: seq<ResourceIdSpec>)
    requires n < |clients|
    ensures OfClients(clients, n + 1, specs)
            == OfClients(clients, n, specs)
               + if clients[n].Present? then OfClient(clients[n].resources, specs) else {}
  {
  }

  /** The loop of ConstructResourceBytes over all the clients. */
  method ConstructForAll(ctx: Context, clients: seq<Client>, specs: seq<ResourceIdSpec>)
    requires ctx.Valid() && |clients| > 0 && clients[0].Present?
    modifies ctx
    ensures ctx.Valid()
    ensures Visited(ctx.visits) == Visited(old(ctx.visits)) + OfClients(clients, |clients|, specs)
  {
    ConstructClientResourceBytes(ctx, clients[0].resources, specs);
    var i := 0;
    while i < |clients|
      invariant i <= |clients| && ctx.Valid()
      invariant Visited(ctx.visits) == Visited(old(ctx.visits)) + OfClient(clients[0].resources, specs)
                                       + OfClients(clients, i, specs)
    {
      if clients[i].Present? {
        ConstructClientResourceBytes(ctx, clients[i].resources, specs);
      }
      MoreClients(clients, i, specs);
      i := i + 1;
    }
    assert OfClient(clients[0].resources, specs) <= OfClients(clients, |clients|, specs);
  }

  /** The client asked about does not exist. */
  predicate NoSuchClient(about: nat, clients: seq<Client>, offset: nat)
    requires offset <= 29
  {
    about != 0 && (ClientId(about, offset) >= |clients| || clients[ClientId(about, offset)].Absent?)
  }

  /** ConstructResourceBytes; client 0 is the server. */
  method ConstructResourceBytes(ctx: Context, about: nat, clients: seq<Client>, offset: nat, specs: seq<ResourceIdSpec>)
    returns (status: Status)
    requires ctx.Valid() && ctx.visits == []
    requires offset <= 29 && |clients| > 0 && clients[0].Present?
    modifies ctx
    ensures ctx.Valid()
    ensures status == if NoSuchClient(about, clients, offset) then BadValue else ctx.status
    ensures status != BadValue ==> Visited(ctx.visits) == Wanted(about, clients, offset, specs)
  {
    if about != 0 {
      var clientIdx := ClientId(about, offset);
      if clientIdx >= |clients| || clients[clientIdx].Absent? {
        return BadValue;
      }
      ConstructClientResourceBytes(ctx, clients[clientIdx].resources, specs);
      ConstructResourceBytesByResource(ctx, about, clients, offset, specs);
    } else {
      ConstructForAll(ctx, clients, specs);
      ConstructResourceBytesByResource(ctx, 0, clients, offset, specs);
    }
    status := ctx.status;
  }

  /** ProcXResQueryResourceBytes up to the writing of the reply. */
  method QueryResourceBytes(world: World, memory: nat -> bool, about: nat, clients: seq<Client>, offset: nat,
                            specs: seq<ResourceIdSpec>)
    returns (status: Status, response: seq<Fragment>, numSizes: nat, resultBytes: nat, ghost visits: seq<Resource>)
    requires offset <= 29 && |clients| > 0 && clients[0].Present?
    ensures status == BadValue <==> memory(0) && NoSuchClient(about, clients, offset)
    ensures (forall n :: memory(n)) ==> status != BadAlloc
    ensures status == Success ==>
              && Visited(visits) == Wanted(about, clients, offset, specs)
              && response == Response(world, Chosen(visits))
              && WellFormed(response)
              && numSizes == Values(response)
              && resultBytes == Bytes(response)
  {
    var ctx := new Context(world, memory);
    response, numSizes, resultBytes, visits := [], 0, 0, [];
    if ctx.status != Success {
      return BadAlloc, response, numSizes, resultBytes, visits;
    }
    status := ConstructResourceBytes(ctx, about, clients, offset, specs);
    if status == Success {
      visits := ctx.visits;
      response, numSizes, resultBytes := ctx.response, ctx.numSizes, ctx.resultBytes;
      ResponseWellFormed(world, Chosen(visits));
    }
  }

  // ----- what the answer promises

  /** Some value of the response is for the resource ID. */
  ghost predicate Names(response: seq<Fragment>, id: nat) {
    exists i :: 0 <= i < |response| && response[i].Value? && response[i].size.resource == id
  }

  /** No two values of the response are for the same resource ID. */
  ghost predicate NamesOnce(response: seq<Fragment>) {
    forall i, j :: 0 <= i < j < |response| && response[i].Value? && response[j].Value? ==>
      response[i].size.resource != response[j].size.resource
  }

  lemma NamesOfGroup(before: seq<Fragment>, g: seq<Fragment>)
    requires |g| > 0 && g[0].Value? && AllCross(g, 1, |g| - 1)
    ensures forall id :: Names(before + g, id) <==> Names(before, id) || id == g[0].size.resource
    ensures NamesOnce(before) && !Names(before, g[0].size.resource) ==> NamesOnce(before + g)
  {
    var all := before + g;
    assert forall i :: 0 <= i < |before| ==> all[i] == before[i];
    assert all[|before|] == g[0];
    assert forall i :: |before| < i < |all| ==> all[i] == g[i - |before|] && all[i].Cross?;
    forall id | Names(before, id) ensures Names(all, id) {
      var i :| 0 <= i < |before| && before[i].Value? && before[i].size.resource == id;
      assert all[i].Value?;
    }
  }

  /** The values of a response are those of its resources. */
  lemma {:induction false} ValuesAre(w: World, rs: seq<Resource>)
    ensures forall id :: Names(Response(w, rs), id) <==> id in Ids(rs)
    ensures (forall a, b :: 0 <= a < b < |rs| ==> rs[a].id != rs[b].id) ==> NamesOnce(Response(w, rs))
  {
    if rs != [] {
      var n := |rs| - 1;
      ValuesAre(w, rs[..n]);
      NamesOfGroup(Response(w, rs[..n]), Group(w, rs[n], w.subs(rs[n])));
      assert Ids(rs) == Ids(rs[..n]) + [rs[n].id];
    }
  }

  /** The resource IDs with a value in the response are those of the wanted resources, each once. */
  lemma ReportsExactly(w: World, visits: seq<Resource>)
    ensures NamesOnce(Response(w, Chosen(visits)))
    ensures forall id :: Names(Response(w, Chosen(visits)), id) <==> exists r :: r in Visited(visits) && r.id == id
  {
    ChosenOnce(visits);
    ChosenIds(visits);
    ValuesAre(w, Chosen(visits));
    VisitedIds(visits);
  }

  lemma VisitedIds(visits: seq<Resource>)
    ensures forall id :: id in Ids(visits) <==> exists r :: r in Visited(visits) && r.id == id
  {
    forall r | r in Visited(visits) ensures r.id in Ids(visits) {
      var k :| 0 <= k < |visits| && visits[k] == r;
      assert Ids(visits)[k] == r.id;
    }
    forall id | id in Ids(visits) ensures exists r :: r in Visited(visits) && r.id == id {
      var k :| 0 <= k < |visits| && Ids(visits)[k] == id;
      assert visits[k] in Visited(visits);
    }
  }

  lemma {:induction false} Pow2Monotone(a: nat, b: nat)
    requires a <= b
    ensures Pow2(a) <= Pow2(b)
  {
    if a < b {
      Pow2Monotone(a, b - 1);
    }
  }

  /** The code compares the client number of a spec's ID with the client ID of the request, not with its
      client number. So a spec that names a resource of an existing client by ID is answered about that
      client exactly if the request is about no client in particular. */
  lemma IdSpecAnswered(about: nat, clients: seq<Client>, offset: nat, s: ResourceIdSpec)
    requires 15 <= offset <= 29 && |clients| <= Pow2(29 - offset)
    requires s.resource != 0 && ClientId(s.resource, offset) < |clients|
    requires clients[ClientId(s.resource, offset)].Present?
    requires about == 0 || ClientId(about, offset) == ClientId(s.resource, offset)
    ensures Consulted(about, clients, offset, s) <==> about == 0
  {
    if about < Pow2(29 - offset) {
      SmallId(about, offset);
    }
  }

  /** With 256 clients: a request about client 3, by its client ID, that names client 3's own resource. */
  lemma OwnResourceNotReported()
    ensures var about, r := 3 * Pow2(21), Resource(1, 3 * Pow2(21) + 1, 7);
            var clients := [Present([]), Absent, Absent, Present([r])];
            var spec := ResourceIdSpec(r.id, 0);
            && ClientId(about, 21) == ClientId(spec.resource, 21) == 3 && Matches(spec, r)
            && !Consulted(about, clients, 21, spec)
            && r !in Wanted(about, clients, 21, [spec])
  {
  }

  /** A client number, taken for an ID, is an ID of the server. */
  lemma SmallId(id: nat, offset: nat)
    requires 15 <= offset <= 29 && id < Pow2(29 - offset)
    ensures ClientId(id, offset) == 0
  {
    Pow2Monotone(29 - offset, offset);
    assert id < Pow2(offset);
    DivSmall(id, Pow2(offset));
    DivSmall(0, Pow2(29 - offset));
  }

  lemma DivSmall(x: nat, d: nat)
    requires x < d
    ensures x / d == 0 && x % d == x
  {
  }

  // ----- the other byte order

  /** swapl on a 32-bit word. */
  function Swapl(x: nat): nat {
    var y := x / 0x100;
    var z := y / 0x100;
    (x % 0x100) * 0x100_0000 + (y % 0x100) * 0x1_0000 + (z % 0x100) * 0x100 + z / 0x100 % 0x100
  }

  lemma SwaplTwice(x: nat)
    requires x < 0x1_0000_0000
    ensures Swapl(Swapl(x)) == x
  {
    var a, y := x % 0x100, x / 0x100;
    var b, z := y % 0x100, y / 0x100;
    var c, d := z % 0x100, z / 0x100;
    SwaplBytes(a, b, c, d);
    SwaplBytes(d, c, b, a);
  }

  lemma SwaplBytes(a: nat, b: nat, c: nat, d: nat)
    requires a < 0x100 && b < 0x100 && c < 0x100 && d < 0x100
    ensures Swapl(d * 0x100_0000 + c * 0x1_0000 + b * 0x100 + a) == a * 0x100_0000 + b * 0x1_0000 + c * 0x100 + d
  {
    LowByte(d * 0x1_0000 + c * 0x100 + b, a);
    LowByte(d * 0x100 + c, b);
    LowByte(d, c);
  }

  lemma LowByte(q: nat, r: nat)
    requires r < 0x100
    ensures (q * 0x100 + r) / 0x100 == q && (q * 0x100 + r) % 0x100 == r
  {
  }

  /** The four bytes of `x`, in the other order. */
  predicate Reversed(x: nat, y: nat) {
    && y / 0x100_0000 == x % 0x100
    && y / 0x1_0000 % 0x100 == x / 0x100 % 0x100
    && y / 0x100 % 0x100 == x / 0x1_0000 % 0x100
    && y % 0x100 == x / 0x100_0000 % 0x100
  }

  lemma SwaplReverses(x: nat)
    ensures Reversed(x, Swapl(x))
  {
    var a, y := x % 0x100, x / 0x100;
    var b, z := y % 0x100, y / 0x100;
    var c, d := z % 0x100, z / 0x100 % 0x100;
    DivTwice(x, 0x100, 0x100);
    DivTwice(x, 0x1_0000, 0x100);
    Digits(a, b, c, d);
  }

  lemma DivTwice(x: nat, p: nat, q: nat)
    requires (p == 0x100 || p == 0x1_0000) && q == 0x100
    ensures x / p / q == x / (p * q)
  {
    if p == 0x100 {
      assert x / 0x100 / 0x100 == x / 0x1_0000;
    } else {
      assert x / 0x1_0000 / 0x100 == x / 0x100_0000;
    }
  }

  lemma Digits(a: nat, b: nat, c: nat, d: nat)
    requires a < 0x100 && b < 0x100 && c < 0x100 && d < 0x100
    ensures var y := a * 0x100_0000 + b * 0x1_0000 + c * 0x100 + d;
            && y / 0x100_0000 == a && y / 0x1_0000 % 0x100 == b && y / 0x100 % 0x100 == c && y % 0x100 == d
  {
    var y := a * 0x100_0000 + b * 0x1_0000 + c * 0x100 + d;
    LowByte(a * 0x1_0000 + b * 0x100 + c, d);
    LowByte(a * 0x100 + b, c);
    LowByte(a, b);
    DivTwice(y, 0x100, 0x100);
    DivTwice(y, 0x1_0000, 0x100);
  }

  /** Every word of the fragment has its bytes in the other order, and stays where it is. */
  predicate AllReversed(f: Fragment, g: Fragment) {
    && f.Value? == g.Value?
    && Reversed(f.size.resource, g.size.resource) && Reversed(f.size.kind, g.size.kind)
    && Reversed(f.size.bytes, g.size.bytes) && Reversed(f.size.refCount, g.size.refCount)
    && Reversed(f.size.useCount, g.size.useCount)
    && (f.Value? ==> Reversed(f.numCrossReferences, g.numCrossReferences))
  }

  lemma SwappedReverses(f: Fragment)
    ensures AllReversed(f, Swapped(f))
  {
    SwaplReverses(f.size.resource);
    SwaplReverses(f.size.kind);
    SwaplReverses(f.size.bytes);
    SwaplReverses(f.size.refCount);
    SwaplReverses(f.size.useCount);
    if f.Value? {
      SwaplReverses(f.numCrossReferences);
    }
  }

  function SwapSpec(s: SizeSpec): SizeSpec {
    SizeSpec(Swapl(s.resource), Swapl(s.kind), Swapl(s.bytes), Swapl(s.refCount), Swapl(s.useCount))
  }

  function Swapped(f: Fragment): Fragment {
    match f
    case Value(size, n) => Value(SwapSpec(size), Swapl(n))
    case Cross(size) => Cross(SwapSpec(size))
  }

  /** The specs announced by the value at `value` are converted, guided by its count. */
  method SwapSpecs(response: array<Fragment>, value: nat) returns (it: nat)
    requires value < response.Length && response[value].Value?
    requires AllCross(response[..], value + 1, response[value].numCrossReferences)
    modifies response
    ensures it == value + 1 + old(response[value]).numCrossReferences <= response.Length
    ensures forall i :: 0 <= i < response.Length ==>
              response[i] == if value < i < it then Swapped(old(response[i])) else old(response[i])
  {
    it := value + 1;
    var c := 0;
    while c < response[value].numCrossReferences
      invariant response[value] == old(response[value])
      invariant c <= response[value].numCrossReferences && it == value + 1 + c
      invariant forall i :: 0 <= i < response.Length ==>
                  response[i] == if value < i < it then Swapped(old(response[i])) else old(response[i])
    {
      assert old(response[..])[it].Cross?;
      response[it] := Cross(SwapSpec(response[it].size));
      it := it + 1;
      c := c + 1;
    }
  }

  /** SwapXResQueryResourceBytes: of a well-formed response, every fragment is converted exactly once,
      although the counts that guide the walk are themselves converted. */
  method SwapResponse(response: array<Fragment>)
    requires WellFormed(response[..])
    modifies response
    ensures forall i :: 0 <= i < response.Length ==> response[i] == Swapped(old(response[i]))
    ensures forall i :: 0 <= i < response.Length ==> AllReversed(old(response[i]), response[i])
  {
    var it := 0;
    while it < response.Length
      invariant it <= response.Length && WellFormedFrom(old(response[..]), it)
      invariant forall i :: 0 <= i < response.Length ==>
                  response[i] == if i < it then Swapped(old(response[i])) else old(response[i])
    {
      assert response[it] == old(response[..])[it];
      var value := it;
      it := SwapSpecs(response, value);
      response[value] := Value(SwapSpec(response[value].size), Swapl(response[value].numCrossReferences));
    }
    forall i | 0 <= i < response.Length ensures AllReversed(old(response[i]), response[i]) {
      SwappedReverses(old(response[i]));
    }
  }
}
