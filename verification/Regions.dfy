/** Regions of the screen plane as lists of boxes, with the set of points each list stands for. */
module Regions {

  /** Half open on the right and at the bottom. */
  datatype Box = Box(x1: int, y1: int, x2: int, y2: int)

  datatype Point = Point(x: int, y: int)

  predicate InBox(p: Point, b: Box) {
    b.x1 <= p.x < b.x2 && b.y1 <= p.y < b.y2
  }

  predicate Empty(b: Box) {
    b.x1 >= b.x2 || b.y1 >= b.y2
  }

  predicate Within(a: Box, b: Box) {
    b.x1 <= a.x1 && a.x2 <= b.x2 && b.y1 <= a.y1 && a.y2 <= b.y2
  }

  type Region = seq<Box>

  predicate InRegion(p: Point, r: Region) {
    exists i :: 0 <= i < |r| && InBox(p, r[i])
  }

  function Min(a: int, b: int): int { if a < b then a else b }
  function Max(a: int, b: int): int { if a > b then a else b }

  function Meet(a: Box, b: Box): (r: Box)
    ensures forall p :: InBox(p, r) <==> InBox(p, a) && InBox(p, b)
  {
    Box(Max(a.x1, b.x1), Max(a.y1, b.y1), Min(a.x2, b.x2), Min(a.y2, b.y2))
  }

  lemma EmptyHasNoPoint(b: Box)
    ensures Empty(b) <==> forall p :: !InBox(p, b)
  {
    if !Empty(b) {
      assert InBox(Point(b.x1, b.y1), b);
    }
  }

  /** The boxes that are not empty. */
  function NonEmpty(r: Region): Region {
    if r == [] then []
    else
      var rest := NonEmpty(r[..|r| - 1]);
      if Empty(r[|r| - 1]) then rest else rest + [r[|r| - 1]]
  }

  lemma {:induction false} NonEmptyPoints(r: Region, p: Point)
    ensures InRegion(p, NonEmpty(r)) <==> InRegion(p, r)
  {
    if r != [] {
      var front, b := r[..|r| - 1], r[|r| - 1];
      NonEmptyPoints(front, p);
      InConcat(front, [b], p);
      InConcat(NonEmpty(front), [b], p);
      InOne(b, p);
      assert r == front + [b];
    }
  }

  lemma InConcat(a: Region, b: Region, p: Point)
    ensures InRegion(p, a + b) <==> InRegion(p, a) || InRegion(p, b)
  {
    if InRegion(p, a) {
      var i :| 0 <= i < |a| && InBox(p, a[i]);
      assert InBox(p, (a + b)[i]);
    }
    if InRegion(p, b) {
      var i :| 0 <= i < |b| && InBox(p, b[i]);
      assert InBox(p, (a + b)[|a| + i]);
    }
  }

  lemma InOne(b: Box, p: Point)
    ensures InRegion(p, [b]) <==> InBox(p, b)
  {
    if InBox(p, b) {
      assert InBox(p, [b][0]);
    }
  }

  /** RegionIntersect with a region of one box. */
  function Intersect(r: Region, b: Box): Region {
    NonEmpty(seq(|r|, i requires 0 <= i < |r| => Meet(r[i], b)))
  }

  lemma IntersectPoints(r: Region, b: Box, p: Point)
    ensures InRegion(p, Intersect(r, b)) <==> InRegion(p, r) && InBox(p, b)
  {
    var met := seq(|r|, i requires 0 <= i < |r| => Meet(r[i], b));
    NonEmptyPoints(met, p);
    if InRegion(p, r) && InBox(p, b) {
      var i :| 0 <= i < |r| && InBox(p, r[i]);
      assert InBox(p, met[i]);
    }
    if InRegion(p, met) {
      var i :| 0 <= i < |met| && InBox(p, met[i]);
      assert InBox(p, r[i]);
    }
  }

  /** A box without another: above, below, left and right of it. */
  function Pieces(a: Box, b: Box): Region {
    var m := Meet(a, b);
    if Empty(m) then [a]
    else
      [Box(a.x1, a.y1, a.x2, m.y1), Box(a.x1, m.y2, a.x2, a.y2),
       Box(a.x1, m.y1, m.x1, m.y2), Box(m.x2, m.y1, a.x2, m.y2)]
  }

  lemma PiecesPoints(a: Box, b: Box, p: Point)
    ensures InRegion(p, Pieces(a, b)) <==> InBox(p, a) && !InBox(p, b)
  {
    var m, pieces := Meet(a, b), Pieces(a, b);
    if Empty(m) {
      InOne(a, p);
      EmptyHasNoPoint(m);
      assert InBox(p, m) <==> InBox(p, a) && InBox(p, b);
    } else {
      assert InRegion(p, pieces)
        <==> InBox(p, pieces[0]) || InBox(p, pieces[1]) || InBox(p, pieces[2]) || InBox(p, pieces[3]);
    }
  }

  function WithoutBox(r: Region, b: Box): Region {
    if r == [] then []
    else WithoutBox(r[..|r| - 1], b) + Pieces(r[|r| - 1], b)
  }

  lemma {:induction false} WithoutBoxPoints(r: Region, b: Box, p: Point)
    ensures InRegion(p, WithoutBox(r, b)) <==> InRegion(p, r) && !InBox(p, b)
  {
    if r != [] {
      var front, last := r[..|r| - 1], r[|r| - 1];
      WithoutBoxPoints(front, b, p);
      PiecesPoints(last, b, p);
      InConcat(WithoutBox(front, b), Pieces(last, b), p);
      InConcat(front, [last], p);
      InOne(last, p);
      assert r == front + [last];
    }
  }

  /** RegionSubtract, box by box. */
  function Without(r: Region, g: Region): Region {
    if g == [] then r else WithoutBox(Without(r, g[..|g| - 1]), g[|g| - 1])
  }

  /** RegionSubtract */
  function Subtract(r: Region, g: Region): Region {
    NonEmpty(Without(r, g))
  }

  lemma {:induction false} WithoutPoints(r: Region, g: Region, p: Point)
    ensures InRegion(p, Without(r, g)) <==> InRegion(p, r) && !InRegion(p, g)
  {
    if g != [] {
      var front, last := g[..|g| - 1], g[|g| - 1];
      WithoutPoints(r, front, p);
      WithoutBoxPoints(Without(r, front), last, p);
      InConcat(front, [last], p);
      InOne(last, p);
      assert g == front + [last];
    }
  }

  lemma SubtractPoints(r: Region, g: Region, p: Point)
    ensures InRegion(p, Subtract(r, g)) <==> InRegion(p, r) && !InRegion(p, g)
  {
    WithoutPoints(r, g, p);
    NonEmptyPoints(Without(r, g), p);
  }

  lemma {:induction false} NonEmptyAll(r: Region)
    ensures forall i :: 0 <= i < |NonEmpty(r)| ==> !Empty(NonEmpty(r)[i])
  {
    if r != [] {
      NonEmptyAll(r[..|r| - 1]);
    }
  }

  /** RegionContainsRect for a region of one box and a box that is not empty. */
  datatype InOut = RgnOut | RgnIn | RgnPart

  function ContainsRect(region: Box, box: Box): (r: InOut)
    ensures !Empty(box) ==>
              && (r == RgnIn <==> Within(box, region))
              && (r == RgnOut <==> forall p :: InBox(p, box) ==> !InBox(p, region))
  {
    EmptyHasNoPoint(Meet(region, box));
    if Empty(Meet(region, box)) then RgnOut
    else if Within(box, region) then RgnIn
    else RgnPart
  }
}
