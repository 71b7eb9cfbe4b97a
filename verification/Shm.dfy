/** Shared-memory segments of the MIT-SHM extension: reference counts, the list of segments, and shared
    pixmaps. */
module Shm {
  import opened Options

  /** A segment descriptor; `shmid` is meant only for those that are not file descriptors. */
  datatype Desc = Desc(isFd: bool, shmid: int, refcnt: nat, writable: bool, size: nat)

  /** A pixmap; a shared one uses `bytes` bytes of its segment from `offset` on. */
  datatype Pixmap = Pixmap(refcnt: nat, shmdesc: Option<nat>, offset: nat, bytes: nat)

  datatype Status = Success | BadAccess | BadAlloc | BadValue | BadShmSeg | BadHook

  // ----- the census

  /** The segment resources and the shared pixmaps that hold a descriptor. */
  ghost function Resources(resources: map<nat, nat>, d: nat): set<nat> {
    set x | x in resources && resources[x] == d
  }

  ghost function Pixmaps(pixmaps: map<nat, Pixmap>, d: nat): set<nat> {
    set p | p in pixmaps && pixmaps[p].shmdesc == Some(d)
  }

  ghost function Holders(resources: map<nat, nat>, pixmaps: map<nat, Pixmap>, d: nat): nat {
    |Resources(resources, d)| + |Pixmaps(pixmaps, d)|
  }

  /** Every count is right, but that of `owed` is one too high. */
  ghost predicate Counts(descs: map<nat, Desc>, resources: map<nat, nat>, pixmaps: map<nat, Pixmap>,
                         owed: Option<nat>) {
    && (forall d :: d in descs ==>
          descs[d].refcnt > 0
          && descs[d].refcnt == Holders(resources, pixmaps, d) + if owed == Some(d) then 1 else 0)
    && (forall x :: x in resources ==> resources[x] in descs)
    && (owed.Some? ==> owed.value in descs)
  }

  /** A shared pixmap lies within a segment that exists. */
  ghost predicate PixmapOk(p: Pixmap, descs: map<nat, Desc>) {
    && p.refcnt > 0
    && (p.shmdesc.Some? ==>
          p.shmdesc.value in descs && descs[p.shmdesc.value].writable
          && p.offset + p.bytes <= descs[p.shmdesc.value].size)
  }

  /** Shmsegs lists each descriptor once. */
  ghost predicate Listed(shmsegs: seq<nat>, descs: map<nat, Desc>) {
    && (forall d :: d in shmsegs <==> d in descs)
    && (forall i, j :: 0 <= i < j < |shmsegs| ==> shmsegs[i] != shmsegs[j])
  }

  /** No two descriptors, other than those for file descriptors, are for the same shmid. */
  ghost predicate OnePerShmid(descs: map<nat, Desc>) {
    forall d, e :: d in descs && e in descs && !descs[d].isFd && !descs[e].isFd && descs[d].shmid == descs[e].shmid ==>
      d == e
  }

  /** Of the descriptors made so far, those that are gone have been unmapped once and the others not at all. */
  ghost predicate Unmapped(unmaps: multiset<nat>, descs: map<nat, Desc>, made: nat) {
    && (forall d :: d in descs ==> d < made)
    && (forall d: nat :: unmaps[d] == if d < made && d !in descs then 1 else 0)
  }

  ghost predicate Conserved(descs: map<nat, Desc>, shmsegs: seq<nat>, resources: map<nat, nat>,
                            pixmaps: map<nat, Pixmap>, unmaps: multiset<nat>, made: nat, owed: Option<nat>) {
    && Counts(descs, resources, pixmaps, owed)
    && (forall p :: p in pixmaps ==> PixmapOk(pixmaps[p], descs))
    && Listed(shmsegs, descs)
    && OnePerShmid(descs)
    && Unmapped(unmaps, descs, made)
  }

  /** What conservation says of one descriptor: it is listed exactly while somebody holds it, and once
      nobody does it has been unmapped, once. */
  lemma HeldExactlyWhile(descs: map<nat, Desc>, shmsegs: seq<nat>, resources: map<nat, nat>,
                         pixmaps: map<nat, Pixmap>, unmaps: multiset<nat>, made: nat, d: nat)
    requires Conserved(descs, shmsegs, resources, pixmaps, unmaps, made, None) && d < made
    ensures d in shmsegs <==> Holders(resources, pixmaps, d) > 0
    ensures unmaps[d] == if Holders(resources, pixmaps, d) > 0 then 0 else 1
  {
    if d !in descs {
      assert Resources(resources, d) == {};
      assert Pixmaps(pixmaps, d) == {};
    }
  }

  /** The descriptor for a shmid. */
  ghost predicate IsFor(descs: map<nat, Desc>, d: nat, shmid: int) {
    d in descs && !descs[d].isFd && descs[d].shmid == shmid
  }

  /** The outcome of an Attach request, by whether there is a descriptor for the shmid. */
  ghost predicate AttachOutcome(descs: map<nat, Desc>, shmid: int, readOnly: bool, mapped: bool, available: bool,
                                addable: bool, status: Status) {
    if d :| IsFor(descs, d, shmid) then
      status == if !readOnly && !descs[d].writable then BadAccess else if addable then Success else BadAlloc
    else
      status == if !available then BadAlloc else if !mapped then BadAccess else if addable then Success else BadAlloc
  }

  /** The descriptor `d` has been attached: a known one has one reference more, and a new one is at the next address,
      with one reference, the size of the memory, and writable unless only reading was asked for. */
  ghost predicate AttachedAs(was: map<nat, Desc>, made: nat, shmid: int, readOnly: bool, mapped: Option<nat>, d: nat,
                             now: map<nat, Desc>) {
    if IsFor(was, d, shmid) then now == was[d := was[d].(refcnt := was[d].refcnt + 1)]
    else && (forall e :: !IsFor(was, e, shmid)) && d == made && d !in was && mapped.Some?
         && now == was[d := Desc(false, shmid, 1, !readOnly, mapped.value)]
  }

  /** One reference to `d` has been given up, and nothing else has happened: with the last one the descriptor goes. */
  predicate GaveUp(was: map<nat, Desc>, d: nat, now: map<nat, Desc>)
    requires d in was
  {
    && (forall e :: e in now ==> e in was)
    && (forall e :: e in was && e != d ==> e in now && now[e] == was[e])
    && (d in now <==> was[d].refcnt > 1)
    && (d in now ==> now[d] == was[d].(refcnt := was[d].refcnt - 1))
  }

  lemma GivenUp(descs: map<nat, Desc>, d: nat)
    requires d in descs
    ensures GaveUp(descs, d, Dereferenced(descs, d))
  {
  }

  /** One reference less: the last one takes the descriptor with it. */
  function Dereferenced(descs: map<nat, Desc>, d: nat): map<nat, Desc>
    requires d in descs
  {
    if descs[d].refcnt <= 1 then descs - {d} else descs[d := descs[d].(refcnt := descs[d].refcnt - 1)]
  }

  lemma TakenBack(descs: map<nat, Desc>, d: nat, desc: Desc)
    ensures d in descs && descs[d].refcnt > 0 ==>
              Dereferenced(descs[d := descs[d].(refcnt := descs[d].refcnt + 1)], d) == descs
    ensures d !in descs && desc.refcnt == 1 ==> Dereferenced(descs[d := desc], d) == descs
  {
    if d in descs && descs[d].refcnt > 0 {
      assert descs[d := descs[d]] == descs;
    }
  }

  // ----- how the holders change

  lemma ResourceAddedFor(resources: map<nat, nat>, x: nat, d: nat, e: nat)
    requires x !in resources
    ensures |Resources(resources[x := d], e)| == |Resources(resources, e)| + if e == d then 1 else 0
  {
    assert Resources(resources[x := d], e) == Resources(resources, e) + if e == d then {x} else {};
  }

  lemma PixmapAddedFor(pixmaps: map<nat, Pixmap>, p: nat, pixmap: Pixmap, e: nat)
    requires p !in pixmaps
    ensures |Pixmaps(pixmaps[p := pixmap], e)| == |Pixmaps(pixmaps, e)| + if pixmap.shmdesc == Some(e) then 1 else 0
  {
    assert Pixmaps(pixmaps[p := pixmap], e) == Pixmaps(pixmaps, e) + if pixmap.shmdesc == Some(e) then {p} else {};
  }

  lemma PixmapCounted(pixmaps: map<nat, Pixmap>, p: nat, pixmap: Pixmap, e: nat)
    requires p in pixmaps && pixmap.shmdesc == pixmaps[p].shmdesc
    ensures Pixmaps(pixmaps[p := pixmap], e) == Pixmaps(pixmaps, e)
  {
  }

  // ----- how conservation is kept

  lemma Dropped(s: seq<nat>, i: nat)
    requires i < |s| && forall a, b :: 0 <= a < b < |s| ==> s[a] != s[b]
    ensures var rest := s[..i] + s[i + 1..];
            && (forall d :: d in rest <==> d in s && d != s[i])
            && (forall a, b :: 0 <= a < b < |rest| ==> rest[a] != rest[b])
  {
    var rest := s[..i] + s[i + 1..];
    forall d | d in s && d != s[i] ensures d in rest {
      var j :| 0 <= j < |s| && s[j] == d;
      assert rest[if j < i then j else j - 1] == d;
    }
    forall d | d in rest ensures d in s && d != s[i] {
      var j :| 0 <= j < |rest| && rest[j] == d;
      assert d == s[if j < i then j else j + 1];
    }
    forall a, b | 0 <= a < b < |rest| ensures rest[a] != rest[b] {
      assert rest[a] == s[if a < i then a else a + 1] && rest[b] == s[if b < i then b else b + 1];
    }
  }

  lemma MadeListed(descs: map<nat, Desc>, shmsegs: seq<nat>, d: nat, desc: Desc)
    requires Listed(shmsegs, descs) && d !in descs
    ensures Listed([d] + shmsegs, descs[d := desc])
  {
    forall i, j | 0 <= i < j < |[d] + shmsegs| ensures ([d] + shmsegs)[i] != ([d] + shmsegs)[j] {
      assert shmsegs[j - 1] in shmsegs;
    }
  }

  lemma MadeShmid(descs: map<nat, Desc>, d: nat, desc: Desc)
    requires OnePerShmid(descs) && d !in descs
    requires !desc.isFd ==> forall e :: e in descs && !descs[e].isFd ==> descs[e].shmid != desc.shmid
    ensures OnePerShmid(descs[d := desc])
  {
  }

  lemma MadeCounts(descs: map<nat, Desc>, resources: map<nat, nat>, pixmaps: map<nat, Pixmap>, d: nat, desc: Desc)
    requires Counts(descs, resources, pixmaps, None) && d !in descs && desc.refcnt == 1
    requires forall p :: p in pixmaps ==> PixmapOk(pixmaps[p], descs)
    ensures Counts(descs[d := desc], resources, pixmaps, Some(d))
  {
    assert Resources(resources, d) == {} && Pixmaps(pixmaps, d) == {};
  }

  /** A new descriptor is owed its first reference. */
  lemma Made(descs: map<nat, Desc>, shmsegs: seq<nat>, resources: map<nat, nat>,
             pixmaps: map<nat, Pixmap>, unmaps: multiset<nat>, made: nat, desc: Desc)
    requires Conserved(descs, shmsegs, resources, pixmaps, unmaps, made, None) && desc.refcnt == 1
    requires !desc.isFd ==> forall e :: e in descs && !descs[e].isFd ==> descs[e].shmid != desc.shmid
    ensures made !in descs
    ensures Conserved(descs[made := desc], [made] + shmsegs, resources, pixmaps, unmaps, made + 1, Some(made))
  {
    MadeListed(descs, shmsegs, made, desc);
    MadeShmid(descs, made, desc);
    MadeCounts(descs, resources, pixmaps, made, desc);
  }

  lemma Retained(descs: map<nat, Desc>, shmsegs: seq<nat>, resources: map<nat, nat>,
                 pixmaps: map<nat, Pixmap>, unmaps: multiset<nat>, made: nat, d: nat)
    requires Conserved(descs, shmsegs, resources, pixmaps, unmaps, made, None) && d in descs
    ensures Conserved(descs[d := descs[d].(refcnt := descs[d].refcnt + 1)], shmsegs, resources, pixmaps, unmaps, made,
                      Some(d))
  {
  }

  /** A resource takes over the reference that was owed. */
  lemma TakenByResource(descs: map<nat, Desc>, shmsegs: seq<nat>, resources: map<nat, nat>,
                        pixmaps: map<nat, Pixmap>, unmaps: multiset<nat>, made: nat, d: nat, x: nat)
    requires Conserved(descs, shmsegs, resources, pixmaps, unmaps, made, Some(d)) && x !in resources
    ensures Conserved(descs, shmsegs, resources[x := d], pixmaps, unmaps, made, None)
  {
    forall e { ResourceAddedFor(resources, x, d, e); }
  }

  /** A resource is gone and its reference is still counted. */
  lemma LeftByResource(descs: map<nat, Desc>, shmsegs: seq<nat>, resources: map<nat, nat>,
                       pixmaps: map<nat, Pixmap>, unmaps: multiset<nat>, made: nat, x: nat)
    requires Conserved(descs, shmsegs, resources, pixmaps, unmaps, made, None) && x in resources
    ensures Conserved(descs, shmsegs, resources - {x}, pixmaps, unmaps, made, Some(resources[x]))
  {
    assert (resources - {x})[x := resources[x]] == resources;
    forall e { ResourceAddedFor(resources - {x}, x, resources[x], e); }
  }

  lemma TakenByPixmap(descs: map<nat, Desc>, shmsegs: seq<nat>, resources: map<nat, nat>,
                      pixmaps: map<nat, Pixmap>, unmaps: multiset<nat>, made: nat, p: nat, pixmap: Pixmap)
    requires Conserved(descs, shmsegs, resources, pixmaps, unmaps, made, pixmap.shmdesc) && p !in pixmaps
    requires PixmapOk(pixmap, descs)
    ensures Conserved(descs, shmsegs, resources, pixmaps[p := pixmap], unmaps, made, None)
  {
    forall e { PixmapAddedFor(pixmaps, p, pixmap, e); }
  }

  lemma LeftByPixmap(descs: map<nat, Desc>, shmsegs: seq<nat>, resources: map<nat, nat>,
                     pixmaps: map<nat, Pixmap>, unmaps: multiset<nat>, made: nat, p: nat)
    requires Conserved(descs, shmsegs, resources, pixmaps, unmaps, made, None) && p in pixmaps
    ensures Conserved(descs, shmsegs, resources, pixmaps - {p}, unmaps, made, pixmaps[p].shmdesc)
  {
    assert (pixmaps - {p})[p := pixmaps[p]] == pixmaps;
    forall e { PixmapAddedFor(pixmaps - {p}, p, pixmaps[p], e); }
  }

  lemma PixmapShared(descs: map<nat, Desc>, shmsegs: seq<nat>, resources: map<nat, nat>,
                     pixmaps: map<nat, Pixmap>, unmaps: multiset<nat>, made: nat, p: nat, n: nat)
    requires Conserved(descs, shmsegs, resources, pixmaps, unmaps, made, None) && p in pixmaps && n > 0
    ensures Conserved(descs, shmsegs, resources, pixmaps[p := pixmaps[p].(refcnt := n)], unmaps, made, None)
  {
    forall e { PixmapCounted(pixmaps, p, pixmaps[p].(refcnt := n), e); }
  }

  lemma DetachedOne(descs: map<nat, Desc>, shmsegs: seq<nat>, resources: map<nat, nat>,
                    pixmaps: map<nat, Pixmap>, unmaps: multiset<nat>, made: nat, d: nat)
    requires Conserved(descs, shmsegs, resources, pixmaps, unmaps, made, Some(d)) && descs[d].refcnt > 1
    ensures Conserved(descs[d := descs[d].(refcnt := descs[d].refcnt - 1)], shmsegs, resources, pixmaps, unmaps, made,
                      None)
  {
  }

  lemma DetachedLast(descs: map<nat, Desc>, shmsegs: seq<nat>, resources: map<nat, nat>,
                     pixmaps: map<nat, Pixmap>, unmaps: multiset<nat>, made: nat, d: nat, i: nat)
    requires Conserved(descs, shmsegs, resources, pixmaps, unmaps, made, Some(d)) && descs[d].refcnt == 1
    requires i < |shmsegs| && shmsegs[i] == d
    ensures Conserved(descs - {d}, shmsegs[..i] + shmsegs[i + 1..], resources, pixmaps, unmaps + multiset{d},
                      made, None)
  {
    Dropped(shmsegs, i);
    assert |Resources(resources, d)| == 0 && |Pixmaps(pixmaps, d)| == 0;
    forall x | x in resources ensures resources[x] != d {
      assert resources[x] == d ==> x in Resources(resources, d);
    }
    forall p | p in pixmaps ensures pixmaps[p].shmdesc != Some(d) {
      assert pixmaps[p].shmdesc == Some(d) ==> p in Pixmaps(pixmaps, d);
    }
  }

  /** A reference that is taken and given up again leaves nothing behind. */
  lemma GivenBack(was: map<nat, Desc>, d: nat, held: map<nat, Desc>, now: map<nat, Desc>)
    requires d in was && was[d].refcnt > 0 && held == was[d := was[d].(refcnt := was[d].refcnt + 1)]
    requires GaveUp(held, d, now)
    ensures now == was
  {
    forall e ensures e in now <==> e in was {
    }
  }

  /** What is wrong with a request for a shared pixmap: the segment is unknown, the place is not aligned or lies
      outside, the segment is read-only, a size or the depth is 0, a size is too large, the depth is not a legal one, or
      the pixmap would reach beyond the segment. */
  function PixmapError(descs: map<nat, Desc>, resources: map<nat, nat>, x: nat, offset: nat, width: nat, height: nat,
                       depth: nat, legal: bool, bytes: nat): Status {
    if x !in resources || resources[x] !in descs then BadShmSeg
    else
      var desc := descs[resources[x]];
      if offset % 4 != 0 || offset > desc.size then BadValue
      else if !desc.writable then BadAccess
      else if width == 0 || height == 0 || depth == 0 then BadValue
      else if width > 32767 || height > 32767 then BadAlloc
      else if !legal then BadValue
      else if offset + bytes > desc.size then BadAccess
      else Success
  }

  // ----- runs

  datatype Event =
    | Attaches(x: nat, shmid: int, readOnly: bool, mapped: Option<nat>, available: bool, addable: bool)
    | AttachesFd(x: nat, readOnly: bool, size: nat, addable: bool)
    | Detaches(x: nat)
    | CreatesShared(p: nat, x: nat, offset: nat, width: nat, height: nat, depth: nat, legal: bool, bytes: nat,
                    created: bool, allowed: bool, addable: bool)
    | CreatesPlain(p: nat)
    | Refs(p: nat)
    | Destroys(p: nat)

  /** New resources get new IDs, and new pixmaps new addresses. */
  predicate CanHappen(e: Event, resources: map<nat, nat>, pixmaps: map<nat, Pixmap>) {
    match e
    case Attaches(x, _, _, _, _, _) => x !in resources
    case AttachesFd(x, _, _, _) => x !in resources
    case Detaches(_) => true
    case CreatesShared(p, _, _, _, _, _, _, _, _, _, _) => p !in pixmaps
    case CreatesPlain(p) => p !in pixmaps
    case Refs(p) => p in pixmaps
    case Destroys(p) => p in pixmaps
  }

  /** What an event does to the descriptors, the segment resources and the pixmaps. */
  ghost predicate Outcome(e: Event, status: Status, descs: map<nat, Desc>, resources: map<nat, nat>,
                          pixmaps: map<nat, Pixmap>, made: nat, descs': map<nat, Desc>, resources': map<nat, nat>,
                          pixmaps': map<nat, Pixmap>) {
    match e
    case Attaches(x, shmid, readOnly, mapped, available, addable) =>
      && pixmaps' == pixmaps
      && AttachOutcome(descs, shmid, readOnly, mapped.Some?, available, addable, status)
      && if status == Success
         then x in resources' && resources' == resources[x := resources'[x]]
              && AttachedAs(descs, made, shmid, readOnly, mapped, resources'[x], descs')
         else resources' == resources && descs' == descs
    case AttachesFd(x, readOnly, size, addable) =>
      && pixmaps' == pixmaps && status == (if addable then Success else BadAlloc)
      && if addable
         then resources' == resources[x := made] && descs' == descs[made := Desc(true, 0, 1, !readOnly, size)]
         else resources' == resources && descs' == descs
    case Detaches(x) =>
      && pixmaps' == pixmaps && resources' == resources - {x}
      && if x in resources then status == Success && resources[x] in descs && GaveUp(descs, resources[x], descs')
         else status == BadShmSeg && descs' == descs
    case CreatesShared(p, x, offset, width, height, depth, legal, bytes, created, allowed, addable) =>
      && resources' == resources
      && (status == Success <==>
            PixmapError(descs, resources, x, offset, width, height, depth, legal, bytes) == Success
            && created && allowed && addable)
      && if status == Success
         then && x in resources && resources[x] in descs
              && descs' == descs[resources[x] := descs[resources[x]].(refcnt := descs[resources[x]].refcnt + 1)]
              && pixmaps' == pixmaps[p := Pixmap(1, Some(resources[x]), offset, bytes)]
         else pixmaps' == pixmaps && descs' == descs
    case CreatesPlain(p) =>
      resources' == resources && descs' == descs && pixmaps' == pixmaps[p := Pixmap(1, None, 0, 0)]
    case Refs(p) =>
      && resources' == resources && descs' == descs && p in pixmaps
      && pixmaps' == pixmaps[p := pixmaps[p].(refcnt := pixmaps[p].refcnt + 1)]
    case Destroys(p) =>
      && resources' == resources && p in pixmaps
      && if pixmaps[p].refcnt > 1
         then pixmaps' == pixmaps[p := pixmaps[p].(refcnt := pixmaps[p].refcnt - 1)] && descs' == descs
         else pixmaps' == pixmaps - {p}
              && match pixmaps[p].shmdesc
                 case None => descs' == descs
                 case Some(d) => d in descs && GaveUp(descs, d, descs')
  }

  class Server {
    var descs: map<nat, Desc>
    var shmsegs: seq<nat>
    var resources: map<nat, nat>
    var pixmaps: map<nat, Pixmap>
    /** The address of the next descriptor. */
    var made: nat
    /** The descriptors whose memory has been unmapped. */
    var unmaps: multiset<nat>

    ghost predicate Owing(owed: Option<nat>)
      reads this
    {
      Conserved(descs, shmsegs, resources, pixmaps, unmaps, made, owed)
    }

    ghost predicate Valid()
      reads this
    {
      Owing(None)
    }

    constructor ()
      ensures Valid() && made == 0
    {
      descs, shmsegs, resources, pixmaps, made, unmaps := map[], [], map[], map[], 0, multiset{};
    }

    /** The walk of ShmDetachSegment to the place of a descriptor. */
    method Place(d: nat) returns (i: nat)
      requires d in shmsegs
      ensures i < |shmsegs| && shmsegs[i] == d
    {
      i := 0;
      while shmsegs[i] != d
        invariant i < |shmsegs| && d in shmsegs[i..]
        decreases |shmsegs| - i
      {
        i := i + 1;
      }
    }

    /** The end of ShmDetachSegment, without a reference left: the memory is unmapped and the descriptor freed. */
    method Unmap(d: nat)
      requires Owing(Some(d)) && descs[d].refcnt == 1
      modifies this`descs, this`shmsegs, this`unmaps
      ensures Valid() && descs == old(descs) - {d} && unmaps == old(unmaps) + multiset{d}
    {
      unmaps := unmaps + multiset{d};
      var i := Place(d);
      DetachedLast(descs, shmsegs, resources, pixmaps, old(unmaps), made, d, i);
      shmsegs := shmsegs[..i] + shmsegs[i + 1..];
      descs := descs - {d};
    }

    /** ShmDetachSegment with other references left. */
    method Release(d: nat)
      requires Owing(Some(d)) && descs[d].refcnt > 1
      modifies this`descs
      ensures Valid() && descs == old(descs)[d := old(descs)[d].(refcnt := old(descs)[d].refcnt - 1)]
    {
      DetachedOne(descs, shmsegs, resources, pixmaps, unmaps, made, d);
      descs := descs[d := descs[d].(refcnt := descs[d].refcnt - 1)];
    }

    /** ShmDetachSegment */
    method DetachSegment(d: nat)
      requires Owing(Some(d))
      modifies this`descs, this`shmsegs, this`unmaps
      ensures Valid()
      ensures old(descs)[d].refcnt == 1 ==> descs == old(descs) - {d} && unmaps == old(unmaps) + multiset{d}
      ensures old(descs)[d].refcnt > 1 ==>
                descs == old(descs)[d := old(descs)[d].(refcnt := old(descs)[d].refcnt - 1)] && unmaps == old(unmaps)
    {
      if descs[d].refcnt > 1 {
        Release(d);
      } else {
        Unmap(d);
      }
    }

    /** AddResource for a segment; on failure it calls the delete function of the resource type. */
    method AddSegment(x: nat, d: nat, available: bool) returns (status: Status)
      requires Owing(Some(d)) && x !in resources
      modifies this`descs, this`shmsegs, this`unmaps, this`resources
      ensures Valid()
      ensures status == if available then Success else BadAlloc
      ensures available ==> resources == old(resources)[x := d] && descs == old(descs) && shmsegs == old(shmsegs)
      ensures !available ==> resources == old(resources) && descs == Dereferenced(old(descs), d)
    {
      if !available {
        DetachSegment(d);
        return BadAlloc;
      }
      TakenByResource(descs, shmsegs, resources, pixmaps, unmaps, made, d, x);
      resources := resources[x := d];
      status := Success;
    }

    /** A new descriptor with one reference goes to the front of the list. */
    method NewDesc(desc: Desc) returns (d: nat)
      requires Valid() && desc.refcnt == 1
      requires !desc.isFd ==> forall e :: e in descs && !descs[e].isFd ==> descs[e].shmid != desc.shmid
      modifies this`descs, this`shmsegs, this`made
      ensures Owing(Some(d)) && d == old(made) && made == d + 1
      ensures descs == old(descs)[d := desc] && shmsegs == [d] + old(shmsegs)
    {
      d := made;
      Made(descs, shmsegs, resources, pixmaps, unmaps, made, desc);
      descs, shmsegs, made := descs[d := desc], [d] + shmsegs, made + 1;
    }

    /** The search of ProcShmAttach for a segment with the shmid. */
    method FindShmid(shmid: int) returns (d: Option<nat>)
      requires Listed(shmsegs, descs)
      ensures d.Some? ==> IsFor(descs, d.value, shmid)
      ensures d.None? ==> forall e :: !IsFor(descs, e, shmid)
    {
      var i := 0;
      while i < |shmsegs|
        invariant i <= |shmsegs|
        invariant forall j :: 0 <= j < i ==> descs[shmsegs[j]].isFd || descs[shmsegs[j]].shmid != shmid
      {
        if !descs[shmsegs[i]].isFd && descs[shmsegs[i]].shmid == shmid {
          return Some(shmsegs[i]);
        }
        i := i + 1;
      }
      forall e ensures !IsFor(descs, e, shmid) {
        if e in descs {
          var j :| 0 <= j < |shmsegs| && shmsegs[j] == e;
        }
      }
      d := None;
    }

    /** One more reference to a segment is taken. */
    method Retain(d: nat)
      requires Valid() && d in descs
      modifies this`descs
      ensures Owing(Some(d)) && descs == old(descs)[d := old(descs)[d].(refcnt := old(descs)[d].refcnt + 1)]
    {
      Retained(descs, shmsegs, resources, pixmaps, unmaps, made, d);
      descs := descs[d := descs[d].(refcnt := descs[d].refcnt + 1)];
    }

    /** One reference more and one less. */
    lemma HeldBack(d: nat)
      requires Valid() && d in descs
      ensures Dereferenced(descs[d := descs[d].(refcnt := descs[d].refcnt + 1)], d) == descs
    {
      TakenBack(descs, d, descs[d]);
    }

    /** One more reference is taken for the resource `x`, and given up again if the resource cannot be added. */
    method HoldFor(x: nat, d: nat, addable: bool) returns (status: Status)
      requires Valid() && x !in resources && d in descs
      modifies this`descs, this`shmsegs, this`unmaps, this`resources
      ensures Valid() && status == if addable then Success else BadAlloc
      ensures addable ==> resources == old(resources)[x := d]
                          && descs == old(descs)[d := old(descs)[d].(refcnt := old(descs)[d].refcnt + 1)]
      ensures !addable ==> resources == old(resources) && descs == old(descs)
    {
      HeldBack(d);
      Retain(d);
      status := AddSegment(x, d, addable);
    }

    /** ProcShmAttach for a segment that is known already. */
    method AttachKnown(x: nat, d: nat, readOnly: bool, addable: bool) returns (status: Status)
      requires Valid() && x !in resources && d in descs
      modifies this`descs, this`shmsegs, this`unmaps, this`resources
      ensures Valid()
      ensures status == if !readOnly && !old(descs)[d].writable then BadAccess
                else if addable then Success else BadAlloc
      ensures status == Success ==> resources == old(resources)[x := d]
                                    && descs == old(descs)[d := old(descs)[d].(refcnt := old(descs)[d].refcnt + 1)]
      ensures status != Success ==> resources == old(resources) && descs == old(descs)
    {
      if !readOnly && !descs[d].writable {
        return BadAccess;
      }
      status := HoldFor(x, d, addable);
    }

    /** A new descriptor is made for the resource. */
    method AttachNew(x: nat, desc: Desc, addable: bool) returns (status: Status)
      requires Valid() && x !in resources && desc.refcnt == 1
      requires !desc.isFd ==> forall e :: e in descs && !descs[e].isFd ==> descs[e].shmid != desc.shmid
      modifies this`descs, this`shmsegs, this`unmaps, this`resources, this`made
      ensures Valid() && status == if addable then Success else BadAlloc
      ensures old(made) !in old(descs)
      ensures addable ==> resources == old(resources)[x := old(made)] && descs == old(descs)[old(made) := desc]
      ensures !addable ==> resources == old(resources) && descs == old(descs)
    {
      ghost var was := descs;
      var d := NewDesc(desc);
      TakenBack(was, d, desc);
      status := AddSegment(x, d, addable);
    }

    /** ProcShmAttach for a segment that is not known yet. */
    method AttachUnknown(x: nat, shmid: int, readOnly: bool, mapped: Option<nat>, available: bool, addable: bool)
      returns (status: Status)
      requires Valid() && x !in resources && forall e :: !IsFor(descs, e, shmid)
      modifies this`descs, this`shmsegs, this`unmaps, this`resources, this`made
      ensures Valid()
      ensures status == if !available then BadAlloc else if mapped.None? then BadAccess
                        else if addable then Success else BadAlloc
      ensures status != Success ==> resources == old(resources) && descs == old(descs)
      ensures status == Success ==>
                && resources == old(resources)[x := old(made)]
                && AttachedAs(old(descs), old(made), shmid, readOnly, mapped, old(made), descs)
    {
      if !available {
        return BadAlloc;
      }
      if mapped.None? {
        return BadAccess;
      }
      forall e | e in descs && !descs[e].isFd ensures descs[e].shmid != shmid {
        assert !IsFor(descs, e, shmid);
      }
      status := AttachNew(x, Desc(false, shmid, 1, !readOnly, mapped.value), addable);
    }

    /** ProcShmAttach for a new resource ID; `mapped` is the size of the memory if it can be attached and the
        client may, and the flags say whether memory for the descriptor and the resource is there. */
    method Attach(x: nat, shmid: int, readOnly: bool, mapped: Option<nat>, available: bool, addable: bool)
      returns (status: Status)
      requires Valid() && x !in resources
      modifies this`descs, this`shmsegs, this`unmaps, this`resources, this`made
      ensures Valid()
      ensures AttachOutcome(old(descs), shmid, readOnly, mapped.Some?, available, addable, status)
      ensures status != Success ==> resources == old(resources) && descs == old(descs)
      ensures status == Success ==>
                x in resources && resources == old(resources)[x := resources[x]] && IsFor(descs, resources[x], shmid)
                && (readOnly || descs[resources[x]].writable)
                && AttachedAs(old(descs), old(made), shmid, readOnly, mapped, resources[x], descs)
    {
      var found := FindShmid(shmid);
      if found.Some? {
        status := AttachKnown(x, found.value, readOnly, addable);
      } else {
        status := AttachUnknown(x, shmid, readOnly, mapped, available, addable);
      }
    }

    /** ProcShmAttachFd and ProcShmCreateSegment for a new resource ID, once the memory is mapped. */
    method AttachFd(x: nat, readOnly: bool, size: nat, addable: bool) returns (status: Status)
      requires Valid() && x !in resources
      modifies this`descs, this`shmsegs, this`unmaps, this`resources, this`made
      ensures Valid()
      ensures status == if addable then Success else BadAlloc
      ensures old(made) !in old(descs)
      ensures addable ==> resources == old(resources)[x := old(made)]
                          && descs == old(descs)[old(made) := Desc(true, 0, 1, !readOnly, size)]
      ensures !addable ==> resources == old(resources) && descs == old(descs)
    {
      status := AttachNew(x, Desc(true, 0, 1, !readOnly, size), addable);
    }

    /** FreeResource on a segment: ProcShmDetach, and the end of its client. */
    method Detach(x: nat) returns (status: Status)
      requires Valid()
      modifies this`resources, this`descs, this`shmsegs, this`unmaps
      ensures Valid()
      ensures status == if x in old(resources) then Success else BadShmSeg
      ensures resources == old(resources) - {x}
      ensures x in old(resources) ==>
                old(resources)[x] in old(descs) && GaveUp(old(descs), old(resources)[x], descs)
      ensures x !in old(resources) ==> descs == old(descs)
    {
      if x !in resources {
        return BadShmSeg;
      }
      var d := resources[x];
      LeftByResource(descs, shmsegs, resources, pixmaps, unmaps, made, x);
      resources := resources - {x};
      DetachSegment(d);
      status := Success;
    }

    /** ShmDestroyPixmap: the last reference to a shared pixmap gives up its segment. */
    method DestroyPixmap(p: nat)
      requires Valid() && p in pixmaps
      modifies this`pixmaps, this`descs, this`shmsegs, this`unmaps
      ensures Valid()
      ensures pixmaps == if old(pixmaps)[p].refcnt == 1 then old(pixmaps) - {p}
                         else old(pixmaps)[p := old(pixmaps)[p].(refcnt := old(pixmaps)[p].refcnt - 1)]
      ensures old(pixmaps)[p].refcnt > 1 ==> descs == old(descs) && unmaps == old(unmaps)
      ensures old(pixmaps)[p].refcnt == 1 ==>
                match old(pixmaps)[p].shmdesc
                case None => descs == old(descs)
                case Some(d) => d in old(descs) && GaveUp(old(descs), d, descs)
    {
      var shmdesc := None;
      if pixmaps[p].refcnt == 1 {
        shmdesc := pixmaps[p].shmdesc;
        LeftByPixmap(descs, shmsegs, resources, pixmaps, unmaps, made, p);
        pixmaps := pixmaps - {p};
      } else {
        PixmapShared(descs, shmsegs, resources, pixmaps, unmaps, made, p, pixmaps[p].refcnt - 1);
        pixmaps := pixmaps[p := pixmaps[p].(refcnt := pixmaps[p].refcnt - 1)];
      }
      if shmdesc.Some? {
        DetachSegment(shmdesc.value);
      }
    }

    /** One more reference to a pixmap, from a window or a graphics context. */
    method RefPixmap(p: nat)
      requires Valid() && p in pixmaps
      modifies this`pixmaps
      ensures Valid() && pixmaps == old(pixmaps)[p := old(pixmaps)[p].(refcnt := old(pixmaps)[p].refcnt + 1)]
    {
      PixmapShared(descs, shmsegs, resources, pixmaps, unmaps, made, p, pixmaps[p].refcnt + 1);
      pixmaps := pixmaps[p := pixmaps[p].(refcnt := pixmaps[p].refcnt + 1)];
    }

    /** A pixmap is created; a shared one has taken its reference before. */
    method NewPixmap(p: nat, pixmap: Pixmap)
      requires Owing(pixmap.shmdesc) && p !in pixmaps && PixmapOk(pixmap, descs)
      modifies this`pixmaps
      ensures Valid() && pixmaps == old(pixmaps)[p := pixmap]
    {
      TakenByPixmap(descs, shmsegs, resources, pixmaps, unmaps, made, p, pixmap);
      pixmaps := pixmaps[p := pixmap];
    }

    /** The checks of ProcShmCreatePixmap, for a pixmap of `bytes` bytes whose depth is `legal`. */
    method CheckPixmap(x: nat, offset: nat, width: nat, height: nat, depth: nat, legal: bool, bytes: nat)
      returns (status: Status)
      requires Valid()
      ensures status == Success <==>
                x in resources && descs[resources[x]].writable
                && offset % 4 == 0 && offset + bytes <= descs[resources[x]].size
                && 0 < width <= 32767 && 0 < height <= 32767 && depth > 0 && legal
      ensures status == PixmapError(descs, resources, x, offset, width, height, depth, legal, bytes)
    {
      if x !in resources {
        return BadShmSeg;
      }
      var desc := descs[resources[x]];
      if offset % 4 != 0 || offset > desc.size {
        return BadValue;
      }
      if !desc.writable {
        return BadAccess;
      }
      if width == 0 || height == 0 || depth == 0 {
        return BadValue;
      }
      if width > 32767 || height > 32767 {
        return BadAlloc;
      }
      if !legal {
        return BadValue;
      }
      if offset + bytes > desc.size {
        return BadAccess;
      }
      status := Success;
    }

    /** A pixmap that nobody else holds is destroyed again. */
    method Discard(p: nat, ghost before: map<nat, Pixmap>)
      requires Valid() && p in pixmaps && p !in before && pixmaps == before[p := pixmaps[p]] && pixmaps[p].refcnt == 1
      modifies this`pixmaps, this`descs, this`shmsegs, this`unmaps
      ensures Valid() && pixmaps == before
      ensures match old(pixmaps)[p].shmdesc
              case None => descs == old(descs)
              case Some(d) => d in old(descs) && GaveUp(old(descs), d, descs)
    {
      DestroyPixmap(p);
      assert before[p := old(pixmaps)[p]] - {p} == before;
    }

    /** The new pixmap takes a reference to its segment. */
    method HoldSegment(p: nat, d: nat, offset: nat, bytes: nat)
      requires Valid() && p !in pixmaps && d in descs && descs[d].writable && offset + bytes <= descs[d].size
      modifies this`pixmaps, this`descs
      ensures Valid() && pixmaps == old(pixmaps)[p := Pixmap(1, Some(d), offset, bytes)]
      ensures descs == old(descs)[d := old(descs)[d].(refcnt := old(descs)[d].refcnt + 1)]
    {
      Retain(d);
      NewPixmap(p, Pixmap(1, Some(d), offset, bytes));
    }

    /** What ProcShmCreatePixmap does with a pixmap that has been created. */
    method KeepPixmap(p: nat, d: nat, offset: nat, bytes: nat, allowed: bool, addable: bool) returns (status: Status)
      requires Valid() && p !in pixmaps && d in descs && descs[d].writable && offset + bytes <= descs[d].size
      modifies this`pixmaps, this`descs, this`shmsegs, this`unmaps
      ensures Valid() && status == if !allowed then BadHook else if !addable then BadAlloc else Success
      ensures status == Success ==>
                && pixmaps == old(pixmaps)[p := Pixmap(1, Some(d), offset, bytes)]
                && descs == old(descs)[d := old(descs)[d].(refcnt := old(descs)[d].refcnt + 1)]
      ensures status != Success ==> pixmaps == old(pixmaps) && descs == old(descs)
    {
      if !allowed {
        NewPixmap(p, Pixmap(1, None, offset, bytes));
        Discard(p, old(pixmaps));
        return BadHook;
      }
      HoldSegment(p, d, offset, bytes);
      if !addable {
        ghost var held := descs;
        Discard(p, old(pixmaps));
        GivenBack(old(descs), d, held, descs);
        return BadAlloc;
      }
      status := Success;
    }

    /** ProcShmCreatePixmap; `p` is the address of the new pixmap, and the flags say whether it can be created,
        whether the access hook lets it pass, and whether its resource can be added. */
    method CreatePixmap(p: nat, x: nat, offset: nat, width: nat, height: nat, depth: nat, legal: bool, bytes: nat,
                        created: bool, allowed: bool, addable: bool)
      returns (status: Status)
      requires Valid() && p !in pixmaps
      modifies this`pixmaps, this`descs, this`shmsegs, this`unmaps
      ensures Valid() && resources == old(resources)
      ensures status == Success <==>
                x in resources && old(descs)[resources[x]].writable
                && offset % 4 == 0 && offset + bytes <= old(descs)[resources[x]].size
                && 0 < width <= 32767 && 0 < height <= 32767 && depth > 0 && legal
                && created && allowed && addable
      ensures status == Success ==>
                x in resources && pixmaps == old(pixmaps)[p := Pixmap(1, Some(resources[x]), offset, bytes)]
      ensures status == Success ==>
                var d := resources[x]; descs == old(descs)[d := old(descs)[d].(refcnt := old(descs)[d].refcnt + 1)]
      ensures status != Success ==> pixmaps == old(pixmaps) && descs == old(descs)
      ensures var error := PixmapError(old(descs), resources, x, offset, width, height, depth, legal, bytes);
              status == if error != Success then error else if !created then BadAlloc
                        else if !allowed then BadHook else if !addable then BadAlloc else Success
    {
      status := CheckPixmap(x, offset, width, height, depth, legal, bytes);
      if status != Success {
        return;
      }
      if !created {
        return BadAlloc;
      }
      status := KeepPixmap(p, resources[x], offset, bytes, allowed, addable);
    }

    /** What happens to a segment. */
    method StepSegment(e: Event) returns (status: Status)
      requires Valid() && CanHappen(e, resources, pixmaps) && (e.Attaches? || e.AttachesFd? || e.Detaches?)
      modifies this
      ensures Valid()
      ensures Outcome(e, status, old(descs), old(resources), old(pixmaps), old(made), descs, resources, pixmaps)
    {
      match e
      case Attaches(x, shmid, readOnly, mapped, available, addable) =>
        status := Attach(x, shmid, readOnly, mapped, available, addable);
      case AttachesFd(x, readOnly, size, addable) =>
        status := AttachFd(x, readOnly, size, addable);
      case Detaches(x) =>
        status := Detach(x);
    }

    /** What happens to a pixmap. */
    method StepPixmap(e: Event) returns (status: Status)
      requires Valid() && CanHappen(e, resources, pixmaps) && !e.Attaches? && !e.AttachesFd? && !e.Detaches?
      modifies this
      ensures Valid()
      ensures Outcome(e, status, old(descs), old(resources), old(pixmaps), old(made), descs, resources, pixmaps)
    {
      status := Success;
      match e
      case CreatesShared(p, x, offset, w, h, depth, legal, bytes, created, allowed, addable) =>
        status := CreatePixmap(p, x, offset, w, h, depth, legal, bytes, created, allowed, addable);
      case CreatesPlain(p) =>
        NewPixmap(p, Pixmap(1, None, 0, 0));
      case Refs(p) =>
        RefPixmap(p);
      case Destroys(p) =>
        DestroyPixmap(p);
    }

    method Step(e: Event) returns (status: Status)
      requires Valid() && CanHappen(e, resources, pixmaps)
      modifies this
      ensures Valid()
      ensures Outcome(e, status, old(descs), old(resources), old(pixmaps), old(made), descs, resources, pixmaps)
    {
      if e.Attaches? || e.AttachesFd? || e.Detaches? {
        status := StepSegment(e);
      } else {
        status := StepPixmap(e);
      }
    }

    /** In every reachable state a segment is listed exactly while somebody holds it, and has been unmapped once
        when nobody does any more. */
    method Serve(events: seq<Event>)
      requires Valid()
      modifies this
      ensures Valid()
      ensures forall d :: 0 <= d < made ==>
                (d in shmsegs <==> Holders(resources, pixmaps, d) > 0)
                && unmaps[d] == if Holders(resources, pixmaps, d) > 0 then 0 else 1
    {
      for i := 0 to |events|
        invariant Valid()
      {
        if CanHappen(events[i], resources, pixmaps) {
          var status := Step(events[i]);
        }
      }
      forall d | 0 <= d < made
        ensures (d in shmsegs <==> Holders(resources, pixmaps, d) > 0)
                && unmaps[d] == if Holders(resources, pixmaps, d) > 0 then 0 else 1
      {
        HeldExactlyWhile(descs, shmsegs, resources, pixmaps, unmaps, made, d);
      }
    }
  }
}
