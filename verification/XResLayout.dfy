/** The resource size response of the XRes extension: its layout as a list of fragments, and what it
    has to report. */
module XResLayout {
  import opened Occurrences

  /** A resource is found under an ID and a type; `ptr` is its address. */
  datatype Resource = Resource(ptr: nat, id: nat, kind: nat)

  datatype SizeSpec = SizeSpec(resource: nat, kind: nat, bytes: nat, refCount: nat, useCount: nat)

  /** One fragment holds an xXResResourceSizeValue or an xXResResourceSizeSpec. */
  datatype Fragment =
    | Value(size: SizeSpec, numCrossReferences: nat)
    | Cross(size: SizeSpec)

  /** The size function of a resource type and the enumeration of a resource's subresources. */
  datatype World = World(sizeFunc: Resource -> (nat, nat), subs: Resource -> seq<Resource>)

  /** The number of bytes of a fragment: six or five CARD32 fields. */
  function Size(f: Fragment): nat {
    if f.Value? then 24 else 20
  }

  function Bytes(response: seq<Fragment>): nat {
    if response == [] then 0 else Bytes(response[..|response| - 1]) + Size(response[|response| - 1])
  }

  lemma {:induction false} BytesOfSum(a: seq<Fragment>, b: seq<Fragment>)
    ensures Bytes(a + b) == Bytes(a) + Bytes(b)
  {
    if b == [] {
      assert a + b == a;
    } else {
      assert (a + b)[..|a + b| - 1] == a + b[..|b| - 1];
      BytesOfSum(a, b[..|b| - 1]);
    }
  }

  // ----- the layout

  /** `n` fragments from `at` on are specs. */
  ghost predicate AllCross(response: seq<Fragment>, at: nat, n: nat) {
    at + n <= |response| && forall i :: at <= i < at + n ==> response[i].Cross?
  }

  /** From `at` on, each value is followed by as many specs as it announces. */
  ghost predicate WellFormedFrom(response: seq<Fragment>, at: nat)
    decreases |response| - at
  {
    at == |response|
    || (at < |response|
        && response[at].Value?
        && AllCross(response, at + 1, response[at].numCrossReferences)
        && WellFormedFrom(response, at + 1 + response[at].numCrossReferences))
  }

  ghost predicate WellFormed(response: seq<Fragment>) {
    WellFormedFrom(response, 0)
  }

  /** The number of values of a response. */
  function Values(response: seq<Fragment>): nat {
    if response == [] then 0
    else Values(response[..|response| - 1]) + if response[|response| - 1].Value? then 1 else 0
  }

  // ----- what is to be reported

  function Ptrs(rs: seq<Resource>): (r: seq<nat>)
    ensures |r| == |rs|
  {
    seq(|rs|, i requires 0 <= i < |rs| => rs[i].ptr)
  }

  function Ids(rs: seq<Resource>): (r: seq<nat>)
    ensures |r| == |rs|
  {
    seq(|rs|, i requires 0 <= i < |rs| => rs[i].id)
  }

  /** The spec of one resource that is used `n` times. */
  function SpecOf(w: World, r: Resource, n: nat): SizeSpec {
    SizeSpec(r.id, r.kind, w.sizeFunc(r).0, w.sizeFunc(r).1, n)
  }

  /** One spec for each different subresource, in the order of first occurrence, with the number of times
      it occurs. */
  function Crosses(w: World, subs: seq<Resource>): (r: seq<Fragment>)
    ensures |r| == |FirstOccurrences(Ptrs(subs))|
  {
    var ptrs := Ptrs(subs);
    var firsts := FirstOccurrences(ptrs);
    seq(|firsts|, j requires 0 <= j < |firsts| =>
      Cross(SpecOf(w, subs[firsts[j]], multiset(ptrs)[ptrs[firsts[j]]])))
  }

  /** The fragments of one resource with the subresources `subs`. */
  function Group(w: World, r: Resource, subs: seq<Resource>): (g: seq<Fragment>)
    ensures |g| == 1 + |FirstOccurrences(Ptrs(subs))|
  {
    [Value(SpecOf(w, r, 1), |Crosses(w, subs)|)] + Crosses(w, subs)
  }

  /** The first of the visited resources for each ID. */
  function Chosen(visits: seq<Resource>): (r: seq<Resource>)
    ensures |r| == |FirstOccurrences(Ids(visits))|
  {
    var firsts := FirstOccurrences(Ids(visits));
    seq(|firsts|, j requires 0 <= j < |firsts| => visits[firsts[j]])
  }

  function Response(w: World, rs: seq<Resource>): seq<Fragment> {
    if rs == [] then []
    else
      var r := rs[|rs| - 1];
      Response(w, rs[..|rs| - 1]) + Group(w, r, w.subs(r))
  }

  // ----- how a group grows

  /** The value that heads a response part counts one more spec. */
  function Counted(response: seq<Fragment>, at: nat): seq<Fragment>
    requires at < |response| && response[at].Value?
  {
    response[at := Value(response[at].size, response[at].numCrossReferences + 1)]
  }

  /** A spec counts one more use. */
  function Used(response: seq<Fragment>, at: nat): seq<Fragment>
    requires at < |response| && response[at].Cross?
  {
    response[at := Cross(response[at].size.(useCount := response[at].size.useCount + 1))]
  }

  lemma CountedAfter(start: seq<Fragment>, g: seq<Fragment>, c: Fragment)
    requires |g| > 0 && g[0].Value?
    ensures (start + g + [c])[|start|].Value?
    ensures Counted(start + g + [c], |start|) == start + (Counted(g, 0) + [c])
  {
  }

  lemma UsedAfter(start: seq<Fragment>, g: seq<Fragment>, k: nat)
    requires k < |g| && g[k].Cross?
    ensures (start + g)[|start| + k].Cross?
    ensures Used(start + g, |start| + k) == start + Used(g, k)
  {
  }

  lemma PtrsGrow(subs: seq<Resource>, x: Resource)
    ensures Ptrs(subs + [x]) == Ptrs(subs) + [x.ptr]
  {
  }

  /** A new subresource gets a spec of its own at the end. */
  lemma GroupGrows(w: World, r: Resource, subs: seq<Resource>, x: Resource)
    requires x.ptr !in Ptrs(subs)
    ensures var g := Group(w, r, subs);
            FirstOccurrences(Ptrs(subs + [x])) == FirstOccurrences(Ptrs(subs)) + [|subs|]
            && Group(w, r, subs + [x]) == Counted(g, 0) + [Cross(SpecOf(w, x, 1))]
  {
    var ptrs, more := Ptrs(subs), Ptrs(subs + [x]);
    assert more == ptrs + [x.ptr];
    assert more[..|subs|] == ptrs;
    CrossesGrow(w, subs, x);
  }

  lemma CrossesGrow(w: World, subs: seq<Resource>, x: Resource)
    requires x.ptr !in Ptrs(subs)
    requires Ptrs(subs + [x]) == Ptrs(subs) + [x.ptr]
    requires FirstOccurrences(Ptrs(subs + [x])) == FirstOccurrences(Ptrs(subs)) + [|subs|]
    ensures Crosses(w, subs + [x]) == Crosses(w, subs) + [Cross(SpecOf(w, x, 1))]
  {
    var ptrs := Ptrs(subs);
    assert multiset(ptrs + [x.ptr]) == multiset(ptrs) + multiset{x.ptr};
    assert x.ptr !in multiset(ptrs);
    forall j | 0 <= j < |FirstOccurrences(ptrs)|
      ensures Crosses(w, subs + [x])[j] == Crosses(w, subs)[j]
    {
      assert ptrs[FirstOccurrences(ptrs)[j]] in ptrs;
    }
  }

  /** A subresource seen before is counted once more, in the spec that stands for it. */
  lemma GroupCounts(w: World, r: Resource, subs: seq<Resource>, x: Resource, j: nat)
    requires j < |FirstOccurrences(Ptrs(subs))| && Ptrs(subs)[FirstOccurrences(Ptrs(subs))[j]] == x.ptr
    ensures var g := Group(w, r, subs);
            FirstOccurrences(Ptrs(subs + [x])) == FirstOccurrences(Ptrs(subs))
            && g[1 + j].Cross?
            && Group(w, r, subs + [x]) == Used(g, 1 + j)
  {
    var ptrs, more := Ptrs(subs), Ptrs(subs + [x]);
    assert more == ptrs + [x.ptr];
    assert more[..|subs|] == ptrs;
    assert x.ptr in ptrs;
    CrossesCount(w, subs, x, j);
  }

  lemma CrossesCount(w: World, subs: seq<Resource>, x: Resource, j: nat)
    requires Ptrs(subs + [x]) == Ptrs(subs) + [x.ptr]
    requires FirstOccurrences(Ptrs(subs + [x])) == FirstOccurrences(Ptrs(subs))
    requires j < |FirstOccurrences(Ptrs(subs))| && Ptrs(subs)[FirstOccurrences(Ptrs(subs))[j]] == x.ptr
    ensures var c := Crosses(w, subs);
            Crosses(w, subs + [x]) == Used(c, j)
  {
    var ptrs := Ptrs(subs);
    var firsts := FirstOccurrences(ptrs);
    assert multiset(ptrs + [x.ptr]) == multiset(ptrs) + multiset{x.ptr};
    forall i | 0 <= i < |firsts| && i != j ensures ptrs[firsts[i]] != x.ptr {
      if i < j { FirstsDiffer(ptrs, i, j); } else { FirstsDiffer(ptrs, j, i); }
    }
  }

  /** What the visited resources of a new ID and of an ID seen before add to the choice. */
  lemma ChosenGrows(visits: seq<Resource>, x: Resource)
    ensures Ids(visits + [x]) == Ids(visits) + [x.id]
    ensures Chosen(visits + [x]) == if x.id in Ids(visits) then Chosen(visits) else Chosen(visits) + [x]
  {
    assert Ids(visits + [x]) == Ids(visits) + [x.id];
    assert Ids(visits + [x])[..|visits|] == Ids(visits);
  }

  // ----- what the response promises

  /** A value with its specs is laid out well behind anything. */
  lemma GroupFormed(before: seq<Fragment>, g: seq<Fragment>)
    requires |g| > 0 && g[0].Value? && g[0].numCrossReferences == |g| - 1 && AllCross(g, 1, |g| - 1)
    ensures WellFormedFrom(before + g, |before|)
  {
    var all := before + g;
    assert all[|before|] == g[0];
    forall i | |before| + 1 <= i < |all| ensures all[i].Cross? {
      assert all[i] == g[i - |before|];
    }
    assert WellFormedFrom(all, |all|);
  }

  /** A list of groups is laid out well, and counts its values and bytes. */
  lemma {:induction false} ResponseWellFormed(w: World, rs: seq<Resource>)
    ensures WellFormed(Response(w, rs))
    ensures Values(Response(w, rs)) == |rs|
  {
    if rs != [] {
      var r := rs[|rs| - 1];
      var before, g := Response(w, rs[..|rs| - 1]), Group(w, r, w.subs(r));
      ResponseWellFormed(w, rs[..|rs| - 1]);
      GroupFormed(before, g);
      Extended(before, g, 0);
      CountGroup(before, g, |g|);
      assert g[..|g|] == g;
    }
  }

  lemma {:induction false} Extended(before: seq<Fragment>, g: seq<Fragment>, at: nat)
    requires WellFormedFrom(before, at) && WellFormedFrom(before + g, |before|)
    ensures WellFormedFrom(before + g, at)
    decreases |before| - at
  {
    if at < |before| {
      assert (before + g)[at] == before[at];
      Extended(before, g, at + 1 + before[at].numCrossReferences);
    }
  }

  lemma {:induction false} CountGroup(before: seq<Fragment>, g: seq<Fragment>, n: nat)
    requires n <= |g| && |g| > 0 && g[0].Value? && AllCross(g, 1, |g| - 1)
    ensures Values(before + g[..n]) == Values(before) + if n == 0 then 0 else 1
  {
    if n == 0 {
      assert before + g[..0] == before;
    } else {
      CountGroup(before, g, n - 1);
      assert (before + g[..n])[..|before| + n - 1] == before + g[..n - 1];
    }
  }

  /** The chosen resources have different IDs, and they have the IDs that were visited. */
  lemma ChosenOnce(visits: seq<Resource>)
    ensures forall i, j :: 0 <= i < j < |Chosen(visits)| ==> Chosen(visits)[i].id != Chosen(visits)[j].id
    ensures forall r :: r in Chosen(visits) ==> r in visits
  {
    var ids := Ids(visits);
    var firsts := FirstOccurrences(ids);
    forall i, j | 0 <= i < j < |Chosen(visits)| ensures Chosen(visits)[i].id != Chosen(visits)[j].id {
      FirstsDiffer(ids, i, j);
    }
  }

  lemma ChosenIds(visits: seq<Resource>)
    ensures forall id :: id in Ids(Chosen(visits)) <==> id in Ids(visits)
  {
    var ids := Ids(visits);
    var firsts := FirstOccurrences(ids);
    forall id | id in Ids(Chosen(visits)) ensures id in ids {
      var k :| 0 <= k < |firsts| && Ids(Chosen(visits))[k] == id;
      assert ids[firsts[k]] == id;
    }
    forall id | id in ids ensures id in Ids(Chosen(visits)) {
      var k :| 0 <= k < |ids| && ids[k] == id;
      var u := HasFirst(ids, k);
      assert Ids(Chosen(visits))[u] == id;
    }
  }

  /** Within a group every different subresource has exactly one spec, and its use count is the number of
      times it is enumerated. */
  lemma CrossesComplete(w: World, subs: seq<Resource>, k: nat) returns (j: nat)
    requires k < |subs|
    ensures var firsts := FirstOccurrences(Ptrs(subs));
            j < |firsts| && firsts[j] <= k
            && Crosses(w, subs)[j] == Cross(SpecOf(w, subs[firsts[j]], multiset(Ptrs(subs))[subs[k].ptr]))
            && forall i :: 0 <= i < |firsts| && i != j ==> subs[firsts[i]].ptr != subs[k].ptr
  {
    var ptrs := Ptrs(subs);
    var firsts := FirstOccurrences(ptrs);
    j := HasFirst(ptrs, k);
    forall i | 0 <= i < |firsts| && i != j ensures ptrs[firsts[i]] != subs[k].ptr {
      if i < j { FirstsDiffer(ptrs, i, j); } else { FirstsDiffer(ptrs, j, i); }
    }
  }

  /** The spec is of `r`: its ID and type, its size and reference count, and `n` uses. */
  predicate Describes(w: World, r: Resource, n: nat, s: SizeSpec) {
    && s.resource == r.id && s.kind == r.kind && s.useCount == n
    && (s.bytes, s.refCount) == w.sizeFunc(r)
  }

  /** The fragment is the value of one of the resources, or the spec of a subresource of one of them, with the number of
      times it is enumerated. */
  ghost predicate Says(w: World, rs: seq<Resource>, f: Fragment) {
    match f
    case Value(size, n) =>
      exists r :: r in rs && Describes(w, r, 1, size) && n == |set x | x in w.subs(r) :: x.ptr|
    case Cross(size) =>
      exists r, x :: r in rs && x in w.subs(r) && Describes(w, x, Times(w.subs(r), x.ptr), size)
  }

  function Times(subs: seq<Resource>, ptr: nat): nat {
    if subs == [] then 0 else Times(subs[..|subs| - 1], ptr) + if subs[|subs| - 1].ptr == ptr then 1 else 0
  }

  lemma {:induction false} TimesIs(subs: seq<Resource>, ptr: nat)
    ensures Times(subs, ptr) == multiset(Ptrs(subs))[ptr]
  {
    if subs != [] {
      var front := subs[..|subs| - 1];
      TimesIs(front, ptr);
      assert Ptrs(subs) == Ptrs(front) + [subs[|subs| - 1].ptr];
    } else {
      assert Ptrs(subs) == [];
    }
  }

  lemma PtrAmong(subs: seq<Resource>, ptr: nat)
    ensures ptr in Ptrs(subs) <==> ptr in (set x | x in subs :: x.ptr)
  {
    forall x | x in subs ensures x.ptr in Ptrs(subs) {
      var k :| 0 <= k < |subs| && subs[k] == x;
      assert Ptrs(subs)[k] == x.ptr;
    }
  }

  lemma MoreFirsts(ptrs: seq<nat>, ptr: nat)
    ensures |FirstOccurrences(ptrs + [ptr])| == |FirstOccurrences(ptrs)| + if ptr in ptrs then 0 else 1
  {
    assert (ptrs + [ptr])[..|ptrs|] == ptrs;
  }

  /** There are as many specs as there are different subresources. */
  lemma {:induction false} DifferentSubs(subs: seq<Resource>)
    ensures |FirstOccurrences(Ptrs(subs))| == |set x | x in subs :: x.ptr|
  {
    if subs == [] {
      assert (set x | x in subs :: x.ptr) == {};
    } else {
      var front, last := subs[..|subs| - 1], subs[|subs| - 1];
      DifferentSubs(front);
      PtrAmong(front, last.ptr);
      PtrsGrow(front, last);
      MoreFirsts(Ptrs(front), last.ptr);
      assert subs == front + [last];
      assert (set x | x in subs :: x.ptr) == (set x | x in front :: x.ptr) + {last.ptr};
    }
  }

  lemma GroupSays(w: World, r: Resource, k: nat)
    requires k < |Group(w, r, w.subs(r))|
    ensures Says(w, [r], Group(w, r, w.subs(r))[k])
  {
    var subs := w.subs(r);
    assert r in [r];
    if k == 0 {
      DifferentSubs(subs);
    } else {
      var x := subs[FirstOccurrences(Ptrs(subs))[k - 1]];
      TimesIs(subs, x.ptr);
      assert x in subs && Describes(w, x, Times(subs, x.ptr), Group(w, r, subs)[k].size);
    }
  }

  /** Every fragment of a response says what is so of the resources. */
  lemma {:induction false} ResponseSays(w: World, rs: seq<Resource>, i: nat)
    requires i < |Response(w, rs)|
    ensures Says(w, rs, Response(w, rs)[i])
  {
    var n := |rs| - 1;
    var before, g := Response(w, rs[..n]), Group(w, rs[n], w.subs(rs[n]));
    if i < |before| {
      ResponseSays(w, rs[..n], i);
      SaysMore(w, rs[..n], rs, before[i]);
    } else {
      GroupSays(w, rs[n], i - |before|);
      SaysMore(w, [rs[n]], rs, g[i - |before|]);
    }
  }

  lemma SaysMore(w: World, few: seq<Resource>, many: seq<Resource>, f: Fragment)
    requires Says(w, few, f) && forall r :: r in few ==> r in many
    ensures Says(w, many, f)
  {
  }

  lemma {:induction false} BytesCount(response: seq<Fragment>)
    ensures Bytes(response) == 20 * |response| + 4 * Values(response)
  {
    if response != [] {
      BytesCount(response[..|response| - 1]);
    }
  }
}
