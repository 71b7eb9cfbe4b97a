/** The XRes extension: building the resource size response, and converting it for a client of the other
    byte order. */
module XRes {
  import opened Occurrences
  import opened XResLayout

  datatype Status = Success | BadValue | BadAlloc

  /** The place in `firsts` of the subresource found at `p`. */
  ghost predicate PlaceOf(ptrs: seq<nat>, p: nat, j: nat) {
    j < |FirstOccurrences(ptrs)| && ptrs[FirstOccurrences(ptrs)[j]] == p
  }

  /** The table of the subresources of `ptrs` leads to their specs, which start at `at`. */
  ghost predicate Tabled(visited: map<nat, nat>, ptrs: seq<nat>, at: nat) {
    && (forall p :: p in visited <==> p in ptrs)
    && (forall p :: p in visited ==> visited[p] >= at && PlaceOf(ptrs, p, visited[p] - at))
  }

  /** While the subresources of a resource are enumerated: those at `ptrs` are done and are reported by the
      group `g`, behind the fragments of `start`. */
  ghost predicate Collecting(response: seq<Fragment>, resultBytes: nat, sizeValue: nat, visited: map<nat, nat>,
                             start: seq<Fragment>, g: seq<Fragment>, ptrs: seq<nat>) {
    && |g| == 1 + |FirstOccurrences(ptrs)|
    && g[0].Value?
    && (forall i :: 1 <= i < |g| ==> g[i].Cross?)
    && response == start + g
    && sizeValue == |start|
    && resultBytes == Bytes(start) + 20 * (|g| - 1)
    && Tabled(visited, ptrs, |start| + 1)
  }

  /** The group after one more subresource, which has `c` for its spec if it is new. */
  ghost predicate NextGroup(g: seq<Fragment>, ptrs: seq<nat>, p: nat, c: SizeSpec, next: seq<Fragment>) {
    if p !in ptrs then
      |g| > 0 && g[0].Value? && next == Counted(g, 0) + [Cross(c)]
    else
      exists j: nat :: PlaceOf(ptrs, p, j) && 1 + j < |g| && g[1 + j].Cross? && next == Used(g, 1 + j)
  }

  /** All that has been visited so far is reported. */
  ghost predicate Reported(w: World, response: seq<Fragment>, numSizes: nat, resultBytes: nat,
                           visitedResources: set<nat>, visits: seq<Resource>) {
    && response == Response(w, Chosen(visits))
    && numSizes == |Chosen(visits)|
    && resultBytes == Bytes(response)
    && (forall id :: id in visitedResources <==> id in Ids(visits))
  }

  lemma StartCollecting(w: World, x: Resource, start: seq<Fragment>)
    ensures Collecting(start + [Value(SpecOf(w, x, 1), 0)], Bytes(start), |start|, map[], start, Group(w, x, []), [])
    ensures Ptrs([]) == []
  {
    assert Group(w, x, []) == [Value(SpecOf(w, x, 1), 0)];
  }

  lemma NextIsGroup(w: World, r: Resource, seen: seq<Resource>, x: Resource, next: seq<Fragment>)
    requires NextGroup(Group(w, r, seen), Ptrs(seen), x.ptr, SpecOf(w, x, 1), next)
    ensures next == Group(w, r, seen + [x])
  {
    if x.ptr in Ptrs(seen) {
      var j: nat :| PlaceOf(Ptrs(seen), x.ptr, j) && next == Used(Group(w, r, seen), 1 + j);
      GroupCounts(w, r, seen, x, j);
    } else {
      GroupGrows(w, r, seen, x);
    }
  }

  lemma TableNew(visited: map<nat, nat>, ptrs: seq<nat>, at: nat, p: nat)
    requires Tabled(visited, ptrs, at) && p !in visited
    ensures Tabled(visited[p := at + |FirstOccurrences(ptrs)|], ptrs + [p], at)
  {
    assert (ptrs + [p])[..|ptrs|] == ptrs;
    var visited' := visited[p := at + |FirstOccurrences(ptrs)|];
    forall q | q in visited' ensures visited'[q] >= at && PlaceOf(ptrs + [p], q, visited'[q] - at) {
      assert q != p ==> PlaceOf(ptrs, q, visited[q] - at);
    }
  }

  lemma TableOld(visited: map<nat, nat>, ptrs: seq<nat>, at: nat, p: nat)
    requires Tabled(visited, ptrs, at) && p in visited
    ensures Tabled(visited, ptrs + [p], at)
  {
    assert (ptrs + [p])[..|ptrs|] == ptrs;
    forall q | q in visited ensures PlaceOf(ptrs + [p], q, visited[q] - at) {
      assert PlaceOf(ptrs, q, visited[q] - at);
    }
  }

  lemma CollectNew(response: seq<Fragment>, resultBytes: nat, sizeValue: nat, visited: map<nat, nat>,
                   start: seq<Fragment>, g: seq<Fragment>, ptrs: seq<nat>, p: nat, c: SizeSpec)
    requires Collecting(response, resultBytes, sizeValue, visited, start, g, ptrs) && p !in visited
    ensures var more := response + [Cross(c)];
            sizeValue < |response| && more[sizeValue].Value?
            && Collecting(Counted(more, sizeValue), resultBytes + 20, sizeValue, visited[p := |response|],
                          start, Counted(g, 0) + [Cross(c)], ptrs + [p])
  {
    CountedAfter(start, g, Cross(c));
    assert (ptrs + [p])[..|ptrs|] == ptrs;
    TableNew(visited, ptrs, |start| + 1, p);
  }

  lemma CollectOld(response: seq<Fragment>, resultBytes: nat, sizeValue: nat, visited: map<nat, nat>,
                   start: seq<Fragment>, g: seq<Fragment>, ptrs: seq<nat>, p: nat) returns (j: nat)
    requires Collecting(response, resultBytes, sizeValue, visited, start, g, ptrs) && p in visited
    ensures var at := visited[p];
            at < |response| && response[at].Cross?
            && PlaceOf(ptrs, p, j) && 1 + j < |g| && g[1 + j].Cross?
            && Collecting(Used(response, at), resultBytes, sizeValue, visited, start, Used(g, 1 + j), ptrs + [p])
  {
    j := visited[p] - |start| - 1;
    UsedAfter(start, g, 1 + j);
    assert (ptrs + [p])[..|ptrs|] == ptrs;
    TableOld(visited, ptrs, |start| + 1, p);
  }

  /** The group of the resource visited last is complete. */
  lemma NowReported(w: World, response: seq<Fragment>, numSizes: nat, resultBytes: nat, visitedResources: set<nat>,
                    sizeValue: nat, visited: map<nat, nat>, start: seq<Fragment>, visits: seq<Resource>, x: Resource)
    requires Reported(w, start, numSizes, Bytes(start), visitedResources, visits) && x.id !in visitedResources
    requires Collecting(response, resultBytes, sizeValue, visited, start, Group(w, x, w.subs(x)), Ptrs(w.subs(x)))
    ensures Reported(w, response, numSizes + 1, resultBytes + 24, visitedResources + {x.id}, visits + [x])
  {
    ChosenGrows(visits, x);
    assert (Chosen(visits) + [x])[..|Chosen(visits)|] == Chosen(visits);
    var g := Group(w, x, w.subs(x));
    BytesOfSum(start, g);
    GroupBytes(w, x, w.subs(x));
  }

  /** A second visit changes nothing. */
  lemma ReportedBefore(w: World, response: seq<Fragment>, numSizes: nat, resultBytes: nat, visitedResources: set<nat>,
                       visits: seq<Resource>, x: Resource)
    requires Reported(w, response, numSizes, resultBytes, visitedResources, visits) && x.id in visitedResources
    ensures Reported(w, response, numSizes, resultBytes, visitedResources, visits + [x])
  {
    ChosenGrows(visits, x);
  }

  lemma GroupBytes(w: World, r: Resource, subs: seq<Resource>)
    ensures Bytes(Group(w, r, subs)) == 24 + 20 * |Crosses(w, subs)|
  {
    var g := Group(w, r, subs);
    CountGroup([], g, |g|);
    assert [] + g[..|g|] == g;
    BytesCount(g);
  }

  /** The context record of one request. `memory(n)` says whether the n-th allocation succeeds. */
  class Context {
    const world: World
    const memory: nat -> bool
    var asked: nat
    var numSizes: nat
    var resultBytes: nat
    var response: seq<Fragment>
    var status: Status
    var visitedResources: set<nat>
    var visitedSubResources: map<nat, nat>
    var sizeValue: nat
    /** The resources handed to AddResourceSizeValue so far. */
    ghost var visits: seq<Resource>

    /** The status is Success until an allocation fails. */
    ghost predicate Fine()
      reads this`status, this`asked
    {
      && (status == Success || status == BadAlloc)
      && (status == Success <==> forall n :: 0 <= n < asked ==> memory(n))
    }

    /** All is reported as long as no allocation fails. */
    ghost predicate Valid()
      reads this
    {
      && Fine()
      && (status == Success ==> Reported(world, response, numSizes, resultBytes, visitedResources, visits))
    }

    /** InitConstructResourceBytesCtx */
    constructor (world: World, memory: nat -> bool)
      ensures Valid() && visits == [] && this.memory == memory && this.world == world
      ensures asked == 1 && status == if memory(0) then Success else BadAlloc
    {
      this.world, this.memory := world, memory;
      numSizes, resultBytes, response := 0, 0, [];
      visitedResources, visitedSubResources, sizeValue := {}, map[], 0;
      visits := [];
      asked := 1;
      status := if memory(0) then Success else BadAlloc;
    }

    method Allocate() returns (ok: bool)
      modifies this`asked
      ensures asked == old(asked) + 1 && ok == memory(old(asked))
    {
      ok := memory(asked);
      asked := asked + 1;
    }

    /** While subresources are enumerated. */
    ghost predicate Adding(start: seq<Fragment>, g: seq<Fragment>, ptrs: seq<nat>)
      reads this
    {
      && Fine()
      && (status == Success ==>
            Collecting(response, resultBytes, sizeValue, visitedSubResources, start, g, ptrs))
    }

    /** A subresource that has not been seen below the current resource gets a spec. */
    method AddCross(x: Resource, ghost start: seq<Fragment>, ghost g: seq<Fragment>, ghost ptrs: seq<nat>)
      requires Adding(start, g, ptrs) && status == Success && x.ptr !in visitedSubResources
      modifies this`asked, this`response, this`resultBytes, this`status, this`visitedSubResources
      ensures Fine()
      ensures status == Success ==>
                Collecting(response, resultBytes, sizeValue, visitedSubResources, start,
                           Counted(g, 0) + [Cross(SpecOf(world, x, 1))], ptrs + [x.ptr])
    {
      var spec := SpecOf(world, x, 1);
      CollectNew(response, resultBytes, sizeValue, visitedSubResources, start, g, ptrs, x.ptr, spec);
      var crossRef := |response|;
      var ok := AppendCross(spec);
      if !ok {
        status := BadAlloc;
      } else {
        visitedSubResources := visitedSubResources[x.ptr := crossRef];
        response := Counted(response, sizeValue);
        resultBytes := resultBytes + 20;
      }
    }

    /** Room for the spec in the response, then room for its place in the table. */
    method AppendCross(spec: SizeSpec) returns (ok: bool)
      requires Fine() && status == Success
      modifies this`asked, this`response
      ensures ok ==> Fine() && response == old(response) + [Cross(spec)]
      ensures !ok ==> exists n :: 0 <= n < asked && !memory(n)
    {
      ok := Allocate();
      if ok {
        response := response + [Cross(spec)];
        ok := Allocate();
      }
    }

    /** AddSubResourceSizeSpec */
    method AddSubResourceSizeSpec(x: Resource, ghost start: seq<Fragment>, ghost g: seq<Fragment>, ghost ptrs: seq<nat>)
      returns (ghost next: seq<Fragment>)
      requires Adding(start, g, ptrs)
      modifies this`asked, this`response, this`resultBytes, this`status, this`visitedSubResources
      ensures Adding(start, next, ptrs + [x.ptr])
      ensures status == Success ==> NextGroup(g, ptrs, x.ptr, SpecOf(world, x, 1), next)
    {
      next := g;
      if status == Success {
        if x.ptr !in visitedSubResources {
          next := Counted(g, 0) + [Cross(SpecOf(world, x, 1))];
          AddCross(x, start, g, ptrs);
        } else {
          ghost var j := CollectOld(response, resultBytes, sizeValue, visitedSubResources, start, g, ptrs, x.ptr);
          next := Used(g, 1 + j);
          response := Used(response, visitedSubResources[x.ptr]);
        }
      }
    }

    /** The first `k` subresources of `r` have been added. */
    ghost predicate AddedUpTo(r: Resource, start: seq<Fragment>, k: nat)
      reads this
    {
      && k <= |world.subs(r)|
      && Adding(start, Group(world, r, world.subs(r)[..k]), Ptrs(world.subs(r)[..k]))
    }

    /** One more subresource. */
    method AddNextSubResource(r: Resource, k: nat, ghost start: seq<Fragment>)
      requires AddedUpTo(r, start, k) && k < |world.subs(r)|
      modifies this`asked, this`response, this`resultBytes, this`status, this`visitedSubResources
      ensures AddedUpTo(r, start, k + 1)
    {
      ghost var seen := world.subs(r)[..k];
      var x := world.subs(r)[k];
      ghost var next := AddSubResourceSizeSpec(x, start, Group(world, r, seen), Ptrs(seen));
      assert seen + [x] == world.subs(r)[..k + 1];
      PtrsGrow(seen, x);
      if status == Success {
        NextIsGroup(world, r, seen, x, next);
      }
    }

    /** FindSubResources with AddSubResourceSizeSpec. */
    method AddAllSubResources(r: Resource, ghost start: seq<Fragment>)
      requires Adding(start, Group(world, r, []), [])
      modifies this`asked, this`response, this`resultBytes, this`status, this`visitedSubResources
      ensures Adding(start, Group(world, r, world.subs(r)), Ptrs(world.subs(r)))
    {
      var subs := world.subs(r);
      var k: nat := 0;
      assert subs[..0] == [];
      while k != |subs|
        invariant k <= |subs| && AddedUpTo(r, start, k)
      {
        AddNextSubResource(r, k, start);
        k := k + 1;
      }
      assert subs[..|subs|] == subs;
    }

    /** The value of `x` is the last fragment; its subresources are added behind it. */
    method AddSubResources(x: Resource, value: nat, ghost start: seq<Fragment>)
      requires Fine() && status == Success && value == |start| && response == start + [Value(SpecOf(world, x, 1), 0)]
      requires resultBytes == Bytes(start)
      modifies this`asked, this`response, this`resultBytes, this`status, this`visitedSubResources, this`sizeValue,
               this`numSizes
      ensures Fine() && numSizes == old(numSizes) + 1 && resultBytes >= 24
      ensures status == Success ==>
                Collecting(response, resultBytes - 24, sizeValue, visitedSubResources, start,
                           Group(world, x, world.subs(x)), Ptrs(world.subs(x)))
    {
      StartCollecting(world, x, start);
      sizeValue, visitedSubResources := value, map[];
      AddAllSubResources(x, start);
      resultBytes := resultBytes + 24;
      numSizes := numSizes + 1;
    }

    /** The allocations for a new value; without them the request fails. */
    method AddValue(x: Resource)
      requires Fine() && status == Success
      modifies this`asked, this`response, this`visitedResources, this`status
      ensures Fine()
      ensures status == Success ==> response == old(response) + [Value(SpecOf(world, x, 1), 0)]
                                    && visitedResources == old(visitedResources) + {x.id}
    {
      var ok := Allocate();
      if ok {
        response := response + [Value(SpecOf(world, x, 1), 0)];
        ok := Allocate();
      }
      if ok {
        visitedResources := visitedResources + {x.id};
        ok := Allocate();
      }
      if !ok {
        status := BadAlloc;
      }
    }

    /** AddResourceSizeValue */
    method AddResourceSizeValue(x: Resource)
      requires Valid()
      modifies this
      ensures Valid() && visits == old(visits) + [x]
    {
      if status == Success && x.id !in visitedResources {
        var value := |response|;
        AddValue(x);
        if status == Success {
          AddSubResources(x, value, old(response));
          if status == Success {
            NowReported(world, response, old(numSizes), resultBytes - 24, old(visitedResources), sizeValue,
                        visitedSubResources, old(response), visits, x);
          }
        }
      } else if status == Success {
        ReportedBefore(world, response, numSizes, resultBytes, visitedResources, visits, x);
      }
      visits := visits + [x];
    }
  }
}
