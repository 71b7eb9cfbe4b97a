/** PanoramiXPolyPoint, PanoramiXPolyLine and PanoramiXFillPoly: one point list is handed to every
    screen, moved to that screen's origin. */
module XineramaPoints {

  /** INT16 */
  type Int16 = v: int | -0x8000 <= v < 0x8000

  function Wrap(n: int): Int16 {
    (n + 0x8000) % 0x1_0000 - 0x8000
  }

  datatype Point = Point(x: Int16, y: Int16)

  datatype CoordMode = Origin | Previous

  datatype Screen = Screen(x: int, y: int)

  function Moved(p: Point, s: Screen): Point {
    Point(Wrap(p.x - s.x), Wrap(p.y - s.y))
  }

  /** A point relative to another. */
  function Plus(p: Point, q: Point): Point {
    Point(Wrap(p.x + q.x), Wrap(p.y + q.y))
  }

  /** The absolute points a list denotes; in mode Previous each point is relative to the one before. */
  function Denoted(pts: seq<Point>, mode: CoordMode): (r: seq<Point>)
    ensures |r| == |pts|
  {
    if mode == Origin || |pts| <= 1 then pts
    else
      var before := Denoted(pts[..|pts| - 1], mode);
      before + [Plus(before[|before| - 1], pts[|pts| - 1])]
  }

  function MovedAll(pts: seq<Point>, s: Screen): (r: seq<Point>)
    ensures |r| == |pts| && forall i :: 0 <= i < |r| ==> r[i] == Moved(pts[i], s)
  {
    seq(|pts|, i requires 0 <= i < |pts| => Moved(pts[i], s))
  }

  /** The points the loop changes: all of them, or only the first. */
  function Count(mode: CoordMode, n: nat): nat {
    if mode == Previous then (if n == 0 then 0 else 1) else n
  }

  function Translated(pts: seq<Point>, mode: CoordMode, s: Screen): seq<Point>
  {
    MovedAll(pts[..Count(mode, |pts|)], s) + pts[Count(mode, |pts|)..]
  }

  lemma WrapSum(a: int, b: int, c: int)
    ensures Wrap(Wrap(a - b) + c) == Wrap(Wrap(a + c) - b)
  {
    assert (Wrap(a - b) - (a - b)) % 0x1_0000 == 0;
    assert (Wrap(a + c) - (a + c)) % 0x1_0000 == 0;
  }

  lemma MovedPlus(p: Point, q: Point, s: Screen)
    ensures Plus(Moved(p, s), q) == Moved(Plus(p, q), s)
  {
    WrapSum(p.x, s.x, q.x);
    WrapSum(p.y, s.y, q.y);
  }

  lemma TranslatedFront(pts: seq<Point>, s: Screen)
    requires |pts| > 1
    ensures var n := |pts| - 1;
            && Translated(pts, Previous, s)[..n] == Translated(pts[..n], Previous, s)
            && Translated(pts, Previous, s)[n] == pts[n]
  {
  }

  lemma MovedAllSnoc(pts: seq<Point>, p: Point, s: Screen)
    ensures MovedAll(pts + [p], s) == MovedAll(pts, s) + [Moved(p, s)]
  {
  }

  /** Moving only the first point of a relative list moves the whole figure: for either mode the list
      handed down denotes the original figure shifted by the screen's origin, modulo 2^16. */
  lemma {:induction false} SameFigure(pts: seq<Point>, mode: CoordMode, s: Screen)
    ensures Denoted(Translated(pts, mode, s), mode) == MovedAll(Denoted(pts, mode), s)
  {
    if mode == Origin || |pts| <= 1 {
      assert pts[..|pts|] == pts;
      assert Translated(pts, mode, s) == MovedAll(pts, s);
    } else {
      var n := |pts| - 1;
      SameFigure(pts[..n], mode, s);
      TranslatedFront(pts, s);
      var before := Denoted(pts[..n], mode);
      MovedPlus(before[n - 1], pts[n], s);
      MovedAllSnoc(before, Plus(before[n - 1], pts[n]), s);
    }
  }

  /** The loop over the points of the request buffer. */
  method Shift(buf: array<Point>, mode: CoordMode, s: Screen)
    modifies buf
    ensures buf[..] == Translated(old(buf[..]), mode, s)
  {
    var n := Count(mode, buf.Length);
    var i := 0;
    while i < n
      invariant 0 <= i <= n
      invariant forall k :: 0 <= k < buf.Length ==>
                  buf[k] == if k < i then Moved(old(buf[k]), s) else old(buf[k])
    {
      buf[i] := Moved(buf[i], s);
      i := i + 1;
    }
  }

  method CopyBack(buf: array<Point>, orig: seq<Point>)
    requires buf.Length == |orig|
    modifies buf
    ensures buf[..] == orig
  {
    var i := 0;
    while i < buf.Length
      invariant 0 <= i <= buf.Length && buf[..i] == orig[..i]
    {
      buf[i] := orig[i];
      i := i + 1;
    }
  }

  /** The list handed to a screen denotes the original figure as that screen sees it. */
  ghost predicate HandedTo(pts: seq<Point>, mode: CoordMode, isRoot: bool, s: Screen, list: seq<Point>) {
    Denoted(list, mode) == if isRoot then MovedAll(Denoted(pts, mode), s) else Denoted(pts, mode)
  }

  ghost predicate Handed(pts: seq<Point>, mode: CoordMode, isRoot: bool, screens: seq<Screen>, lists: seq<seq<Point>>) {
    && |lists| <= |screens|
    && forall j :: 0 <= j < |lists| ==> HandedTo(pts, mode, isRoot, screens[j], lists[j])
  }

  /** The same number but for a multiple of 2^16, which is all that a 16-bit coordinate can tell. */
  predicate Same16(a: int, b: int) {
    (a - b) % 0x1_0000 == 0
  }

  lemma WrapSame(n: int)
    ensures Same16(Wrap(n), n) && (-0x8000 <= n < 0x8000 ==> Wrap(n) == n)
  {
    var x := n + 0x8000;
    assert x == x / 0x1_0000 * 0x1_0000 + x % 0x1_0000;
    assert Wrap(n) - n == -(x / 0x1_0000) * 0x1_0000;
  }

  lemma BackSame(a: int, b: int)
    ensures Same16(Wrap(a - b) + b, a) && Same16(a, a)
  {
    WrapSame(a - b);
    var x, y := Wrap(a - b) - (a - b), (Wrap(a - b) + b) - a;
    assert x == y;
  }

  /** The point `r` is `q` away from `p`. */
  predicate Away(p: Point, q: Point, r: Point) {
    Same16(r.x, p.x + q.x) && Same16(r.y, p.y + q.y)
  }

  lemma PlusAway(p: Point, q: Point)
    ensures Away(p, q, Plus(p, q))
  {
    WrapSame(p.x + q.x);
    WrapSame(p.y + q.y);
  }

  lemma {:induction false} DenotedStep(pts: seq<Point>, mode: CoordMode, k: nat)
    requires k < |pts|
    ensures mode == Origin || k == 0 ==> Denoted(pts, mode)[k] == pts[k]
    ensures mode == Previous && k > 0 ==> Denoted(pts, mode)[k] == Plus(Denoted(pts, mode)[k - 1], pts[k])
  {
    if mode == Previous && k < |pts| - 1 {
      DenotedStep(pts[..|pts| - 1], mode, k);
    }
  }

  /** What a list denotes: in mode Origin its own points, in mode Previous the sums of its offsets. */
  lemma DenotedIs(pts: seq<Point>, mode: CoordMode, k: nat)
    requires k < |pts|
    ensures mode == Origin || k == 0 ==> Denoted(pts, mode)[k] == pts[k]
    ensures mode == Previous && k > 0 ==> Away(Denoted(pts, mode)[k - 1], pts[k], Denoted(pts, mode)[k])
  {
    DenotedStep(pts, mode, k);
    if mode == Previous && k > 0 {
      PlusAway(Denoted(pts, mode)[k - 1], pts[k]);
    }
  }

  predicate SeenAt(p: Point, isRoot: bool, s: Screen, q: Point) {
    if isRoot then Same16(q.x + s.x, p.x) && Same16(q.y + s.y, p.y) else q == p
  }

  /** A screen at (x, y) is shown each point of the root at coordinates that are less by (x, y), and each point of a
      window as it is. */
  predicate SeenFrom(pts: seq<Point>, mode: CoordMode, isRoot: bool, s: Screen, list: seq<Point>) {
    && |list| == |pts|
    && forall k :: 0 <= k < |pts| ==> SeenAt(Denoted(pts, mode)[k], isRoot, s, Denoted(list, mode)[k])
  }

  lemma MovedIsSeen(p: Point, s: Screen)
    ensures SeenAt(p, true, s, Moved(p, s))
  {
    BackSame(p.x, s.x);
    BackSame(p.y, s.y);
  }

  lemma HandedIsSeen(pts: seq<Point>, mode: CoordMode, isRoot: bool, s: Screen, list: seq<Point>)
    requires HandedTo(pts, mode, isRoot, s, list)
    ensures SeenFrom(pts, mode, isRoot, s, list)
  {
    assert |Denoted(list, mode)| == |Denoted(pts, mode)|;
    forall k | 0 <= k < |pts| ensures SeenAt(Denoted(pts, mode)[k], isRoot, s, Denoted(list, mode)[k]) {
      MovedIsSeen(Denoted(pts, mode)[k], s);
    }
  }

  lemma AllSeen(pts: seq<Point>, mode: CoordMode, isRoot: bool, screens: seq<Screen>, lists: seq<seq<Point>>)
    requires Handed(pts, mode, isRoot, screens, lists)
    ensures forall j :: 0 <= j < |lists| ==> SeenFrom(pts, mode, isRoot, screens[j], lists[j])
  {
    forall j | 0 <= j < |lists| ensures SeenFrom(pts, mode, isRoot, screens[j], lists[j]) {
      HandedIsSeen(pts, mode, isRoot, screens[j], lists[j]);
    }
  }

  lemma HandedOneMore(pts: seq<Point>, mode: CoordMode, isRoot: bool, screens: seq<Screen>, lists: seq<seq<Point>>,
                      list: seq<Point>)
    requires Handed(pts, mode, isRoot, screens, lists) && |lists| < |screens|
    requires HandedTo(pts, mode, isRoot, screens[|lists|], list)
    ensures Handed(pts, mode, isRoot, screens, lists + [list])
  {
  }

  lemma {:induction false} ZeroMove(pts: seq<Point>, s: Screen)
    requires s.x == 0 && s.y == 0
    ensures MovedAll(pts, s) == pts
  {
  }

  lemma ZeroOrFigure(pts: seq<Point>, mode: CoordMode, s: Screen)
    ensures Denoted(Translated(pts, mode, s), mode) == MovedAll(Denoted(pts, mode), s)
    ensures s.x == 0 && s.y == 0 ==> MovedAll(Denoted(pts, mode), s) == Denoted(pts, mode)
  {
    SameFigure(pts, mode, s);
    if s.x == 0 && s.y == 0 {
      ZeroMove(Denoted(pts, mode), s);
    }
  }

  /** One screen gets the original list, moved to its origin. */
  method ToScreen(buf: array<Point>, mode: CoordMode, isRoot: bool, s: Screen,
                  orig: seq<Point>) returns (list: seq<Point>)
    requires buf[..] == orig
    modifies buf
    ensures HandedTo(orig, mode, isRoot, s, list)
  {
    ZeroOrFigure(orig, mode, s);
    if isRoot && (s.x != 0 || s.y != 0) {
      Shift(buf, mode, s);
    }
    list := buf[..];
  }

  /** The loop over the screens. The wrapped procedure of screen `j` succeeds or not, and leaves
      `after(j)` in the request buffer, so each screen must start again from the original list. */
  method ToAllScreens(buf: array<Point>, mode: CoordMode, isRoot: bool, screens: seq<Screen>,
                      succeeds: nat -> bool, after: nat -> seq<Point>) returns (lists: seq<seq<Point>>)
    requires buf.Length > 0
    requires forall j :: |after(j)| == buf.Length
    modifies buf
    ensures Handed(old(buf[..]), mode, isRoot, screens, lists)
    ensures forall j :: 0 <= j < |lists| ==> SeenFrom(old(buf[..]), mode, isRoot, screens[j], lists[j])
    ensures forall j :: 0 <= j < |lists| - 1 ==> succeeds(j)
    ensures |lists| < |screens| ==> |lists| > 0 && !succeeds(|lists| - 1)
  {
    var orig := buf[..];
    lists := [];
    var j := 0;
    while j < |screens|
      invariant 0 <= j <= |screens| && |lists| == j && (j == 0 ==> buf[..] == orig)
      invariant Handed(orig, mode, isRoot, screens, lists)
      invariant forall k :: 0 <= k < j ==> succeeds(k)
    {
      if j > 0 {
        CopyBack(buf, orig);
      }
      var list := ToScreen(buf, mode, isRoot, screens[j], orig);
      HandedOneMore(orig, mode, isRoot, screens, lists, list);
      lists := lists + [list];
      CopyBack(buf, after(j));
      j := j + 1;
      if !succeeds(j - 1) {
        AllSeen(orig, mode, isRoot, screens, lists);
        return;
      }
    }
    AllSeen(orig, mode, isRoot, screens, lists);
  }
}
