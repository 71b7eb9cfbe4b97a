/** One logical image out of the images of several screens: XineramaGetImageData for pixels of whole
    bytes. */
module XineramaImage {
  import opened Regions
  import opened Pixels

  /** A screen's place in the logical plane, and the drawable's origin relative to the screen. */
  datatype Screen = Screen(area: Box, drawX: int, drawY: int)

  /** What the drivers hold: the pixel of a screen's drawable at drawable coordinates. */
  type Contents = (nat, int, int) -> seq<Byte>

  ghost predicate WellSized(img: Contents, bpp: nat) {
    forall i, x, y :: |img(i, x, y)| == bpp
  }

  /** The pixel of screen `i` at a point of the logical plane. */
  function Logical(img: Contents, screens: seq<Screen>, i: nat, p: Point): seq<Byte>
    requires i < |screens|
  {
    var s := screens[i];
    img(i, p.x - s.drawX - s.area.x1, p.y - s.drawY - s.area.y1)
  }

  /** The pixel the buffer holds for a point of the requested box. */
  function Held(data: seq<Byte>, g: Grid, src: Box, p: Point): seq<Byte>
    requires InBox(p, src)
  {
    PixelAt(data, g, p.y - src.y1, p.x - src.x1)
  }

  ghost predicate Covers(g: Grid, src: Box) {
    !Empty(src) && g.width == src.x2 - src.x1 && g.height == src.y2 - src.y1
  }

  // ----- the result

  /** The first of the first `n` screens that holds the point. */
  function FirstScreen(screens: seq<Screen>, n: nat, p: Point): (r: int)
    requires n <= |screens|
    ensures -1 <= r < n
    ensures r >= 0 ==> InBox(p, screens[r].area)
    ensures forall k :: 0 <= k < (if r >= 0 then r else n as int) ==> !InBox(p, screens[k].area)
  {
    if n == 0 then -1
    else
      var r := FirstScreen(screens, n - 1, p);
      if r >= 0 then r else if InBox(p, screens[n - 1].area) then n - 1 else -1
  }

  /** The first screen that holds the whole box, or -1. */
  function FirstWhole(screens: seq<Screen>, n: nat, src: Box): (r: int)
    requires n <= |screens|
    ensures -1 <= r < n
    ensures r >= 0 ==> Within(src, screens[r].area)
    ensures forall k :: 0 <= k < (if r >= 0 then r else n as int) ==> !Within(src, screens[k].area)
  {
    if n == 0 then -1
    else
      var r := FirstWhole(screens, n - 1, src);
      if r >= 0 then r else if Within(src, screens[n - 1].area) then n - 1 else -1
  }

  /** The first `n` screens together hold every point of the box. */
  ghost predicate CoveredBy(screens: seq<Screen>, n: nat, src: Box)
    requires n <= |screens|
  {
    forall p :: InBox(p, src) ==> FirstScreen(screens, n, p) >= 0
  }

  /** The screen a pixel is taken from, or -1 if it is left as it was: a screen that holds the whole
      box overwrites what earlier screens gave, unless those already covered the box. */
  ghost function Owner(screens: seq<Screen>, src: Box, p: Point): (r: int)
    ensures -1 <= r < |screens|
  {
    var whole := FirstWhole(screens, |screens|, src);
    if whole >= 0 && !CoveredBy(screens, whole, src) then whole else FirstScreen(screens, |screens|, p)
  }

  ghost predicate Assembled(before: seq<Byte>, after: seq<Byte>, g: Grid, src: Box, img: Contents,
                            screens: seq<Screen>) {
    forall p :: InBox(p, src) ==>
      Held(after, g, src, p) == if Owner(screens, src, p) >= 0 then Logical(img, screens, Owner(screens, src, p), p)
                                else Held(before, g, src, p)
  }

  /** A pixel that lies on some screen is taken from a screen that holds it; one that lies on none is
      left alone. */
  lemma OwnerHoldsPixel(screens: seq<Screen>, src: Box, p: Point)
    requires InBox(p, src)
    ensures Owner(screens, src, p) >= 0 ==> InBox(p, screens[Owner(screens, src, p)].area)
    ensures Owner(screens, src, p) < 0 <==> forall k :: 0 <= k < |screens| ==> !InBox(p, screens[k].area)
  {
  }

  /** Overlapping screens show the same logical image. */
  ghost predicate Consistent(img: Contents, screens: seq<Screen>, picture: Point -> seq<Byte>) {
    forall i, p :: 0 <= i < |screens| && InBox(p, screens[i].area) ==> Logical(img, screens, i, p) == picture(p)
  }

  /** If they do, the buffer holds the logical image wherever there is a screen. */
  lemma AssembledPicture(before: seq<Byte>, after: seq<Byte>, g: Grid, src: Box, img: Contents,
                         screens: seq<Screen>, picture: Point -> seq<Byte>, p: Point)
    requires Assembled(before, after, g, src, img, screens) && Consistent(img, screens, picture)
    requires InBox(p, src) && FirstScreen(screens, |screens|, p) >= 0
    ensures Held(after, g, src, p) == picture(p)
  {
    OwnerHoldsPixel(screens, src, p);
  }

  // ----- one box

  /** The pixels of `sg` are those of the screen from (x, y) on. */
  ghost predicate Imaged(scr: seq<Byte>, sg: Grid, img: Contents, i: nat, x: int, y: int) {
    forall r, c :: 0 <= r < sg.height && 0 <= c < sg.width ==> PixelAt(scr, sg, r, c) == img(i, x + c, y + r)
  }

  /** The pixels of `sg` are moved to (dy, dx) of `g`. */
  ghost predicate Moved(before: seq<Byte>, after: seq<Byte>, g: Grid, scr: seq<Byte>, sg: Grid, dy: int, dx: int) {
    forall r, c :: 0 <= r < g.height && 0 <= c < g.width ==>
      PixelAt(after, g, r, c)
      == if dy <= r < dy + sg.height && dx <= c < dx + sg.width then PixelAt(scr, sg, r - dy, c - dx)
         else PixelAt(before, g, r, c)
  }

  /** The pixels in `pbox` come from screen `i`, and the others are what they were. */
  ghost predicate Grabbed(before: seq<Byte>, after: seq<Byte>, g: Grid, src: Box, pbox: Box, img: Contents,
                          screens: seq<Screen>, i: nat)
    requires i < |screens|
  {
    forall p :: InBox(p, src) ==>
      Held(after, g, src, p) == if InBox(p, pbox) then Logical(img, screens, i, p) else Held(before, g, src, p)
  }

  /** The driver's GetImage: rows of pixels padded to 32 bits. The padding is left alone here. */
  method GetImage(img: Contents, i: nat, x: int, y: int, w: nat, h: nat, bpp: nat, dst: array<Byte>)
    requires WellSized(img, bpp) && Fits(Grid(w, h, bpp, BytePad(w, bpp)), dst.Length)
    modifies dst
    ensures Imaged(dst[..], Grid(w, h, bpp, BytePad(w, bpp)), img, i, x, y)
  {
    var g := Grid(w, h, bpp, BytePad(w, bpp));
    var j := 0;
    while j < h
      invariant 0 <= j <= h
      invariant forall r, c :: 0 <= r < j && 0 <= c < w ==> PixelAt(dst[..], g, r, c) == img(i, x + c, y + r)
    {
      GetRow(img, i, x, y, g, j, dst);
      j := j + 1;
    }
  }

  method GetRow(img: Contents, i: nat, x: int, y: int, g: Grid, j: nat, dst: array<Byte>)
    requires Fits(g, dst.Length) && WellSized(img, g.bpp) && j < g.height
    modifies dst
    ensures forall r, c :: 0 <= r < g.height && 0 <= c < g.width ==>
              PixelAt(dst[..], g, r, c) == if r == j then img(i, x + c, y + j) else PixelAt(old(dst[..]), g, r, c)
  {
    var k := 0;
    while k < g.width
      invariant 0 <= k <= g.width
      invariant forall r, c :: 0 <= r < g.height && 0 <= c < g.width ==>
                  PixelAt(dst[..], g, r, c) == if r == j && c < k then img(i, x + c, y + j)
                                                else PixelAt(old(dst[..]), g, r, c)
    {
      ghost var before := dst[..];
      var pixel := img(i, x + k, y + j);
      OffsetFits(g, dst.Length, j, k, 1);
      Store(dst, Offset(g, j, k), pixel);
      forall r, c | 0 <= r < g.height && 0 <= c < g.width
        ensures PixelAt(dst[..], g, r, c) == if r == j && c == k then pixel else PixelAt(before, g, r, c)
      {
        BlitPixel(before, g, j, k, 1, pixel, r, c);
      }
      k := k + 1;
    }
  }

  method Store(dst: array<Byte>, off: nat, s: seq<Byte>)
    requires off + |s| <= dst.Length
    modifies dst
    ensures dst[..] == Blit(old(dst[..]), off, s)
  {
    var i := 0;
    while i < |s|
      invariant 0 <= i <= |s|
      invariant forall k :: 0 <= k < dst.Length ==>
                  dst[k] == if off <= k < off + i then s[k - off] else old(dst[k])
    {
      dst[off + i] := s[i];
      i := i + 1;
    }
  }

  /** `part` is row `j` of the scratch buffer. */
  ghost predicate IsRow(part: seq<Byte>, scratch: seq<Byte>, sg: Grid, j: nat) {
    var from, n := Offset(sg, j, 0), Bytes(sg.width, sg.bpp);
    from + n <= |scratch| && part == scratch[from..from + n]
  }

  /** One row of a piece goes to its place. */
  lemma RowCopied(data: seq<Byte>, g: Grid, part: seq<Byte>, scratch: seq<Byte>, sg: Grid, y: nat, x: nat, j: nat,
                  r: nat, c: nat)
    requires Fits(g, |data|) && Fits(sg, |scratch|) && sg.bpp == g.bpp && IsRow(part, scratch, sg, j)
    requires j < sg.height && y + j < g.height && x + sg.width <= g.width
    requires r < g.height && c < g.width
    ensures Offset(g, y + j, x) + |part| <= |data|
    ensures PixelAt(Blit(data, Offset(g, y + j, x), part), g, r, c)
            == if r == y + j && x <= c < x + sg.width then PixelAt(scratch, sg, j, c - x) else PixelAt(data, g, r, c)
  {
    var pixel: seq<Byte> := [];
    if r == y + j && x <= c < x + sg.width {
      RunPixel(part, scratch, sg, j, c - x);
      pixel := PixelAt(scratch, sg, j, c - x);
    }
    RunCopied(data, g, part, y + j, x, sg.width, r, c, pixel);
  }

  /** A run of pixels, of which the one for column `c` is `pixel`. */
  lemma RunCopied(data: seq<Byte>, g: Grid, run: seq<Byte>, y: nat, x: nat, w: nat, r: nat, c: nat, pixel: seq<Byte>)
    requires Fits(g, |data|) && y < g.height && x + w <= g.width && |run| == Bytes(w, g.bpp)
    requires r < g.height && c < g.width
    requires r == y && x <= c < x + w ==>
               Bytes(c - x, g.bpp) + g.bpp <= |run| && run[Bytes(c - x, g.bpp)..Bytes(c - x, g.bpp) + g.bpp] == pixel
    ensures Offset(g, y, x) + |run| <= |data|
    ensures PixelAt(Blit(data, Offset(g, y, x), run), g, r, c)
            == if r == y && x <= c < x + w then pixel else PixelAt(data, g, r, c)
  {
    BlitPixel(data, g, y, x, w, run, r, c);
  }

  lemma RunPixel(part: seq<Byte>, scratch: seq<Byte>, sg: Grid, j: nat, c: nat)
    requires Fits(sg, |scratch|) && j < sg.height && c < sg.width && IsRow(part, scratch, sg, j)
    ensures var at := Bytes(c, sg.bpp);
            at + sg.bpp <= |part| && part[at..at + sg.bpp] == PixelAt(scratch, sg, j, c)
  {
    InRun(sg, j, 0, sg.width, c);
    SliceOfSlice(scratch, Offset(sg, j, 0), Bytes(sg.width, sg.bpp), Bytes(c, sg.bpp), sg.bpp);
  }

  /** The copying loop for one piece, `sg.width` by `sg.height` pixels at (x, y) of the buffer. */
  method CopyPiece(data: array<Byte>, g: Grid, scratch: array<Byte>, sg: Grid, y: nat, x: nat,
                   ghost before: seq<Byte>, ghost scr: seq<Byte>)
    requires data != scratch && Fits(g, data.Length) && Fits(sg, scratch.Length) && sg.bpp == g.bpp
    requires y + sg.height <= g.height && x + sg.width <= g.width
    requires data[..] == before && scratch[..] == scr
    modifies data
    ensures Moved(before, data[..], g, scr, sg, y, x)
  {
    var j := 0;
    while j < sg.height
      invariant 0 <= j <= sg.height && scratch[..] == scr
      invariant forall r, c :: 0 <= r < g.height && 0 <= c < g.width ==>
                  PixelAt(data[..], g, r, c)
                  == if y <= r < y + j && x <= c < x + sg.width then PixelAt(scr, sg, r - y, c - x)
                     else PixelAt(before, g, r, c)
    {
      CopyRow(data, g, scratch, sg, y, x, j);
      j := j + 1;
    }
  }

  method CopyRow(data: array<Byte>, g: Grid, scratch: array<Byte>, sg: Grid, y: nat, x: nat, j: nat)
    requires data != scratch && Fits(g, data.Length) && Fits(sg, scratch.Length) && sg.bpp == g.bpp
    requires j < sg.height && y + sg.height <= g.height && x + sg.width <= g.width
    modifies data
    ensures forall r, c :: 0 <= r < g.height && 0 <= c < g.width ==>
              PixelAt(data[..], g, r, c)
              == if r == y + j && x <= c < x + sg.width then PixelAt(scratch[..], sg, j, c - x)
                 else PixelAt(old(data[..]), g, r, c)
  {
    ghost var before := data[..];
    var run := Bytes(sg.width, g.bpp);
    OffsetFits(sg, scratch.Length, j, 0, sg.width);
    OffsetFits(g, data.Length, y + j, x, sg.width);
    ghost var part := scratch[..][Offset(sg, j, 0)..Offset(sg, j, 0) + run];
    Memcpy(data, Offset(g, y + j, x), scratch, Offset(sg, j, 0), run);
    forall r, c | 0 <= r < g.height && 0 <= c < g.width
      ensures PixelAt(data[..], g, r, c)
              == if r == y + j && x <= c < x + sg.width then PixelAt(scratch[..], sg, j, c - x)
                 else PixelAt(before, g, r, c)
    {
      RowCopied(before, g, part, scratch[..], sg, y, x, j, r, c);
    }
  }

  /** The scratch buffer is replaced if it is too small. */
  method Enough(scratch: array<Byte>, size: nat) returns (scratch': array<Byte>)
    ensures scratch' == scratch || fresh(scratch')
    ensures size <= scratch'.Length
  {
    scratch' := scratch;
    if size > scratch.Length {
      scratch' := new Byte[size](k => 0);
    }
  }

  lemma MovedAt(before: seq<Byte>, after: seq<Byte>, g: Grid, scr: seq<Byte>, sg: Grid, y: nat, x: nat, r: nat, c: nat)
    requires Moved(before, after, g, scr, sg, y, x) && r < g.height && c < g.width
    ensures PixelAt(after, g, r, c)
            == if y <= r < y + sg.height && x <= c < x + sg.width then PixelAt(scr, sg, r - y, c - x)
               else PixelAt(before, g, r, c)
  {
  }

  /** A point of the box that is fetched, seen from the buffer, from the screen and from the scratch buffer. */
  lemma PointMoved(g: Grid, sg: Grid, src: Box, pbox: Box, img: Contents, screens: seq<Screen>, i: nat, y: nat, x: nat,
                   scr: seq<Byte>, p: Point)
    requires i < |screens| && Covers(g, src) && Covers(sg, pbox) && Within(pbox, src) && InBox(p, src)
    requires y == pbox.y1 - src.y1 && x == pbox.x1 - src.x1
    requires Imaged(scr, sg, img, i, pbox.x1 - screens[i].drawX - screens[i].area.x1,
                    pbox.y1 - screens[i].drawY - screens[i].area.y1)
    ensures 0 <= p.y - src.y1 < g.height && 0 <= p.x - src.x1 < g.width
    ensures InBox(p, pbox) <==> y <= p.y - src.y1 < y + sg.height && x <= p.x - src.x1 < x + sg.width
    ensures InBox(p, pbox) ==> PixelAt(scr, sg, p.y - src.y1 - y, p.x - src.x1 - x) == Logical(img, screens, i, p)
  {
  }

  lemma BoxGrabbed(before: seq<Byte>, after: seq<Byte>, g: Grid, scr: seq<Byte>, sg: Grid, src: Box, pbox: Box,
                   img: Contents, screens: seq<Screen>, i: nat, y: nat, x: nat)
    requires i < |screens| && Covers(g, src) && Covers(sg, pbox) && Within(pbox, src)
    requires Imaged(scr, sg, img, i, pbox.x1 - screens[i].drawX - screens[i].area.x1,
                    pbox.y1 - screens[i].drawY - screens[i].area.y1)
    requires Moved(before, after, g, scr, sg, y, x) && y == pbox.y1 - src.y1 && x == pbox.x1 - src.x1
    ensures Grabbed(before, after, g, src, pbox, img, screens, i)
  {
    forall p | InBox(p, src)
      ensures Held(after, g, src, p)
              == if InBox(p, pbox) then Logical(img, screens, i, p) else Held(before, g, src, p)
    {
      PointMoved(g, sg, src, pbox, img, screens, i, y, x, scr, p);
      MovedAt(before, after, g, scr, sg, y, x, p.y - src.y1, p.x - src.x1);
    }
  }

  lemma BoxInside(g: Grid, src: Box, sg: Grid, pbox: Box)
    requires Covers(g, src) && Covers(sg, pbox) && Within(pbox, src)
    ensures pbox.y1 >= src.y1 && pbox.x1 >= src.x1
    ensures pbox.y1 - src.y1 + sg.height <= g.height && pbox.x1 - src.x1 + sg.width <= g.width
  {
  }

  /** A box of the screen is fetched into the scratch buffer, as an image of its own. */
  method FetchBox(img: Contents, screens: seq<Screen>, i: nat, pbox: Box, bpp: nat, scratch: array<Byte>)
    returns (sg: Grid, scratch': array<Byte>)
    requires WellSized(img, bpp) && bpp > 0 && i < |screens| && !Empty(pbox)
    modifies scratch
    ensures scratch' == scratch || fresh(scratch')
    ensures Covers(sg, pbox) && sg.bpp == bpp && Fits(sg, scratch'.Length)
    ensures Imaged(scratch'[..], sg, img, i, pbox.x1 - screens[i].drawX - screens[i].area.x1,
                   pbox.y1 - screens[i].drawY - screens[i].area.y1)
  {
    var s := screens[i];
    var w, h := pbox.x2 - pbox.x1, pbox.y2 - pbox.y1;
    sg := Grid(w, h, bpp, BytePad(w, bpp));
    scratch' := Enough(scratch, Bytes(h, sg.pitch));
    var x, y := pbox.x1 - s.drawX - s.area.x1, pbox.y1 - s.drawY - s.area.y1;
    GetImage(img, i, x, y, w, h, bpp, scratch');
  }

  /** One box of a piece: from the screen into the scratch buffer, and from there to its place. */
  method GrabBox(data: array<Byte>, g: Grid, src: Box, img: Contents, screens: seq<Screen>, i: nat,
                 pbox: Box, scratch: array<Byte>) returns (scratch': array<Byte>)
    requires data != scratch && Fits(g, data.Length) && Covers(g, src) && WellSized(img, g.bpp)
    requires i < |screens| && !Empty(pbox) && Within(pbox, src)
    modifies data, scratch
    ensures scratch' == scratch || fresh(scratch')
    ensures Grabbed(old(data[..]), data[..], g, src, pbox, img, screens, i)
  {
    ghost var before := data[..];
    var sg;
    sg, scratch' := FetchBox(img, screens, i, pbox, g.bpp, scratch);
    ghost var scr := scratch'[..];
    assert data[..] == before;
    BoxInside(g, src, sg, pbox);
    var y: nat, x: nat := pbox.y1 - src.y1, pbox.x1 - src.x1;
    CopyPiece(data, g, scratch', sg, y, x, before, scr);
    BoxGrabbed(before, data[..], g, scr, sg, src, pbox, img, screens, i, y, x);
  }

  /** All the boxes of a piece. */
  method GrabRegion(data: array<Byte>, g: Grid, src: Box, img: Contents, screens: seq<Screen>, i: nat,
                    grab: Region, scratch: array<Byte>) returns (scratch': array<Byte>)
    requires data != scratch && Fits(g, data.Length) && Covers(g, src) && WellSized(img, g.bpp)
    requires i < |screens|
    requires forall k :: 0 <= k < |grab| ==> !Empty(grab[k]) && Within(grab[k], src)
    modifies data, scratch
    ensures scratch' == scratch || fresh(scratch')
    ensures forall p :: InBox(p, src) ==>
              Held(data[..], g, src, p)
              == if InRegion(p, grab) then Logical(img, screens, i, p) else Held(old(data[..]), g, src, p)
  {
    scratch' := scratch;
    var k := 0;
    while k < |grab|
      invariant 0 <= k <= |grab| && (scratch' == scratch || fresh(scratch'))
      invariant forall p :: InBox(p, src) ==>
                  Held(data[..], g, src, p)
                  == if InRegion(p, grab[..k]) then Logical(img, screens, i, p) else Held(old(data[..]), g, src, p)
    {
      scratch' := GrabBox(data, g, src, img, screens, i, grab[k], scratch');
      forall p ensures InRegion(p, grab[..k + 1]) <==> InRegion(p, grab[..k]) || InBox(p, grab[k]) {
        assert grab[..k + 1] == grab[..k] + [grab[k]];
        InConcat(grab[..k], [grab[k]], p);
        InOne(grab[k], p);
      }
      k := k + 1;
    }
    assert grab[..k] == grab;
  }

  // ----- all the screens

  /** What is still to be fetched before screen `i`: the points no earlier screen holds. */
  ghost predicate Remaining(screens: seq<Screen>, i: nat, src: Box, region: Region)
    requires i <= |screens|
  {
    && (forall k :: 0 <= k < |region| ==> Within(region[k], src) || Empty(region[k]))
    && forall p :: InRegion(p, region) <==> InBox(p, src) && FirstScreen(screens, i, p) < 0
  }

  /** The buffer before screen `i`. */
  ghost predicate Fetched(before: seq<Byte>, data: seq<Byte>, g: Grid, src: Box, img: Contents, screens: seq<Screen>,
                          i: nat)
    requires i <= |screens|
  {
    forall p :: InBox(p, src) ==>
      Held(data, g, src, p) == if FirstScreen(screens, i, p) >= 0
                                  then Logical(img, screens, FirstScreen(screens, i, p), p)
                               else Held(before, g, src, p)
  }

  lemma RemainingStart(screens: seq<Screen>, src: Box)
    ensures Remaining(screens, 0, src, [src])
  {
    forall p ensures InRegion(p, [src]) <==> InBox(p, src) {
      InOne(src, p);
    }
  }

  lemma {:induction false} NonEmptyWithin(r: Region, src: Box)
    requires forall k :: 0 <= k < |r| ==> Within(r[k], src) || Empty(r[k])
    ensures forall k :: 0 <= k < |NonEmpty(r)| ==> Within(NonEmpty(r)[k], src) && !Empty(NonEmpty(r)[k])
  {
    if r != [] {
      NonEmptyWithin(r[..|r| - 1], src);
    }
  }

  lemma IntersectWithin(r: Region, b: Box, src: Box)
    requires forall k :: 0 <= k < |r| ==> Within(r[k], src) || Empty(r[k])
    ensures var grab := Intersect(r, b);
            forall k :: 0 <= k < |grab| ==> Within(grab[k], src) && !Empty(grab[k])
  {
    NonEmptyWithin(seq(|r|, i requires 0 <= i < |r| => Meet(r[i], b)), src);
  }

  lemma {:induction false} WithoutBoxWithin(r: Region, b: Box, src: Box)
    requires forall k :: 0 <= k < |r| ==> Within(r[k], src) || Empty(r[k])
    ensures forall k :: 0 <= k < |WithoutBox(r, b)| ==> Within(WithoutBox(r, b)[k], src) || Empty(WithoutBox(r, b)[k])
  {
    if r != [] {
      WithoutBoxWithin(r[..|r| - 1], b, src);
    }
  }

  lemma {:induction false} WithoutWithin(r: Region, g: Region, src: Box)
    requires forall k :: 0 <= k < |r| ==> Within(r[k], src) || Empty(r[k])
    ensures forall k :: 0 <= k < |Without(r, g)| ==> Within(Without(r, g)[k], src) || Empty(Without(r, g)[k])
  {
    if g != [] {
      WithoutWithin(r, g[..|g| - 1], src);
      WithoutBoxWithin(Without(r, g[..|g| - 1]), g[|g| - 1], src);
    }
  }

  /** Fetching the piece of a screen: afterwards what that screen holds is not wanted any more, so the
      pieces of different screens have no point in common. */
  lemma PieceTaken(screens: seq<Screen>, i: nat, src: Box, region: Region)
    requires i < |screens| && Remaining(screens, i, src, region)
    ensures var grab := Intersect(region, screens[i].area);
            && Remaining(screens, i + 1, src, Subtract(region, grab))
            && (forall p :: InRegion(p, grab) <==> InBox(p, src) && FirstScreen(screens, i + 1, p) == i)
  {
    var grab := Intersect(region, screens[i].area);
    WithoutWithin(region, grab, src);
    NonEmptyWithin(Without(region, grab), src);
    forall p
      ensures InRegion(p, grab) <==> InBox(p, src) && FirstScreen(screens, i + 1, p) == i
      ensures InRegion(p, Subtract(region, grab)) <==> InBox(p, src) && FirstScreen(screens, i + 1, p) < 0
    {
      IntersectPoints(region, screens[i].area, p);
      SubtractPoints(region, grab, p);
    }
  }

  /** A screen that holds no point of the box changes nothing. */
  lemma PieceSkipped(screens: seq<Screen>, i: nat, src: Box, region: Region)
    requires i < |screens| && Remaining(screens, i, src, region)
    requires forall p :: InRegion(p, region) ==> !InBox(p, screens[i].area)
    ensures Remaining(screens, i + 1, src, region)
    ensures forall p :: InBox(p, src) ==> FirstScreen(screens, i + 1, p) == FirstScreen(screens, i, p)
  {
  }

  lemma {:induction false} FirstScreenStays(screens: seq<Screen>, n: nat, m: nat, p: Point)
    requires n <= m <= |screens| && FirstScreen(screens, n, p) >= 0
    ensures FirstScreen(screens, m, p) == FirstScreen(screens, n, p)
  {
    if n < m {
      FirstScreenStays(screens, n, m - 1, p);
    }
  }

  lemma {:induction false} FirstWholeStays(screens: seq<Screen>, n: nat, m: nat, src: Box)
    requires n <= m <= |screens| && FirstWhole(screens, n, src) >= 0
    ensures FirstWhole(screens, m, src) == FirstWhole(screens, n, src)
  {
    if n < m {
      FirstWholeStays(screens, n, m - 1, src);
    }
  }

  /** When the screens looked at cover the box, the rest are not needed. */
  lemma EarlyEnd(before: seq<Byte>, data: seq<Byte>, g: Grid, src: Box, img: Contents, screens: seq<Screen>, n: nat)
    requires n <= |screens| && Fetched(before, data, g, src, img, screens, n)
    requires FirstWhole(screens, n, src) < 0
    requires n == |screens| || CoveredBy(screens, n, src)
    ensures Assembled(before, data, g, src, img, screens)
  {
    var whole := FirstWhole(screens, |screens|, src);
    forall p | InBox(p, src)
      ensures Owner(screens, src, p) == FirstScreen(screens, n, p)
    {
      if n < |screens| {
        FirstScreenStays(screens, n, |screens|, p);
        if whole >= 0 {
          CoverGrows(screens, n, whole, src);
        }
      }
    }
  }

  lemma CoverGrows(screens: seq<Screen>, n: nat, m: nat, src: Box)
    requires n <= |screens| && m < |screens| && CoveredBy(screens, n, src)
    requires FirstWhole(screens, n, src) < 0 && FirstWhole(screens, |screens|, src) == m
    ensures CoveredBy(screens, m, src)
  {
    if m < n {
      NotWholeYet(screens, n, m, src);
    } else {
      forall p | InBox(p, src) ensures FirstScreen(screens, m, p) >= 0 {
        FirstScreenStays(screens, n, m, p);
      }
    }
  }

  lemma NotWholeYet(screens: seq<Screen>, n: nat, m: nat, src: Box)
    requires m < n <= |screens| && FirstWhole(screens, n, src) < 0
    ensures !Within(src, screens[m].area)
  {
  }

  /** A screen that holds the whole box gives every pixel. */
  method GrabWhole(data: array<Byte>, g: Grid, src: Box, img: Contents, screens: seq<Screen>, i: nat)
    requires Fits(g, data.Length) && Covers(g, src) && WellSized(img, g.bpp) && g.pitch == BytePad(g.width, g.bpp)
    requires i < |screens| && Within(src, screens[i].area)
    requires FirstWhole(screens, i, src) < 0 && !CoveredBy(screens, i, src)
    modifies data
    ensures Assembled(old(data[..]), data[..], g, src, img, screens)
  {
    var s := screens[i];
    var x, y := src.x1 - s.drawX - s.area.x1, src.y1 - s.drawY - s.area.y1;
    GetImage(img, i, x, y, g.width, g.height, g.bpp, data);
    FirstWholeStays(screens, i + 1, |screens|, src);
    forall p | InBox(p, src)
      ensures Held(data[..], g, src, p) == Logical(img, screens, i, p)
    {
      var r, c := p.y - src.y1, p.x - src.x1;
      assert 0 <= r < g.height && 0 <= c < g.width;
    }
  }

  /** The requested box in the logical plane. */
  function SourceBox(screens: seq<Screen>, left: int, top: int, width: nat, height: nat, isRoot: bool): Box
    requires screens != []
  {
    var x := if isRoot then left else left + screens[0].drawX + screens[0].area.x1;
    var y := if isRoot then top else top + screens[0].drawY + screens[0].area.y1;
    Box(x, y, x + width, y + height)
  }

  /** The fetch from one screen that holds part of the box. */
  method GrabPart(data: array<Byte>, g: Grid, src: Box, img: Contents, screens: seq<Screen>, i: nat,
                  region: Region, scratch: array<Byte>, ghost before: seq<Byte>)
    returns (region': Region, scratch': array<Byte>)
    requires data != scratch && Fits(g, data.Length) && Covers(g, src) && WellSized(img, g.bpp)
    requires i < |screens| && Remaining(screens, i, src, region) && HasPoints(region)
    requires Fetched(before, data[..], g, src, img, screens, i)
    modifies data, scratch
    ensures scratch' == scratch || fresh(scratch')
    ensures Remaining(screens, i + 1, src, region') && (region' != [] ==> HasPoints(region'))
    ensures Fetched(before, data[..], g, src, img, screens, i + 1)
  {
    var grab := Intersect(region, screens[i].area);
    PieceTaken(screens, i, src, region);
    IntersectWithin(region, screens[i].area, src);
    region', scratch' := region, scratch;
    if |grab| > 0 {
      scratch' := GrabRegion(data, g, src, img, screens, i, grab, scratch);
      region' := Subtract(region, grab);
      NonEmptyAll(Without(region, grab));
    } else {
      forall p ensures InRegion(p, region) ==> !InBox(p, screens[i].area) {
        IntersectPoints(region, screens[i].area, p);
      }
      PieceSkipped(screens, i, src, region);
    }
  }

  ghost predicate HasPoints(region: Region) {
    region != [] && forall k :: 0 <= k < |region| ==> !Empty(region[k])
  }

  lemma PointOf(region: Region) returns (p: Point)
    requires HasPoints(region)
    ensures InRegion(p, region)
  {
    p := Point(region[0].x1, region[0].y1);
    assert InBox(p, region[0]);
  }

  lemma StillWanted(screens: seq<Screen>, i: nat, src: Box, region: Region)
    requires i <= |screens| && Remaining(screens, i, src, region)
    ensures HasPoints(region) ==> !CoveredBy(screens, i, src)
    ensures region == [] ==> CoveredBy(screens, i, src)
  {
    if HasPoints(region) {
      var p := PointOf(region);
    }
    if region == [] {
      forall p | InBox(p, src) ensures FirstScreen(screens, i, p) >= 0 {
        assert !InRegion(p, region);
      }
    }
  }

  // ----- the pixels as the client asked for them

  /** The drawable's origin is at this point of the logical plane, whichever screen it is seen from. */
  predicate PlacedAt(screens: seq<Screen>, x: int, y: int) {
    forall s :: s in screens ==> s.drawX + s.area.x1 == x && s.drawY + s.area.y1 == y
  }

  ghost predicate Nowhere(screens: seq<Screen>, p: Point) {
    forall s :: s in screens ==> !(s.area.x1 <= p.x < s.area.x2 && s.area.y1 <= p.y < s.area.y2)
  }

  /** The pixel that some screen holds at (x, y) of a drawable placed at (ox, oy). It is left alone if no screen reaches
      there. */
  ghost predicate AsPlaced(was: seq<Byte>, pixel: seq<Byte>, img: Contents, screens: seq<Screen>, ox: int, oy: int,
                           x: int, y: int) {
    var p := Point(ox + x, oy + y);
    if Nowhere(screens, p) then pixel == was
    else exists i :: 0 <= i < |screens| && InBox(p, screens[i].area) && pixel == img(i, x, y)
  }

  /** The same of the root, whose coordinates are those of the plane: each screen sees it from its own origin. */
  ghost predicate AsRooted(was: seq<Byte>, pixel: seq<Byte>, img: Contents, screens: seq<Screen>, x: int, y: int) {
    var p := Point(x, y);
    if Nowhere(screens, p) then pixel == was
    else exists i :: 0 <= i < |screens| && InBox(p, screens[i].area)
                     && pixel == img(i, x - screens[i].drawX - screens[i].area.x1,
                                     y - screens[i].drawY - screens[i].area.y1)
  }

  ghost predicate AskedPixel(was: seq<Byte>, pixel: seq<Byte>, img: Contents, screens: seq<Screen>, x: int, y: int,
                             isRoot: bool) {
    if isRoot then AsRooted(was, pixel, img, screens, x, y)
    else forall ox, oy :: PlacedAt(screens, ox, oy) ==> AsPlaced(was, pixel, img, screens, ox, oy, x, y)
  }

  /** The pixels from (left, top) on. */
  ghost predicate AsAsked(was: seq<Byte>, data: seq<Byte>, g: Grid, img: Contents, screens: seq<Screen>, left: int,
                          top: int, isRoot: bool) {
    forall r, c :: 0 <= r < g.height && 0 <= c < g.width ==>
      AskedPixel(PixelAt(was, g, r, c), PixelAt(data, g, r, c), img, screens, left + c, top + r, isRoot)
  }

  lemma NowhereMeans(screens: seq<Screen>, p: Point)
    ensures Nowhere(screens, p) <==> forall k :: 0 <= k < |screens| ==> !InBox(p, screens[k].area)
  {
    if Nowhere(screens, p) {
      forall k | 0 <= k < |screens| ensures !InBox(p, screens[k].area) {
        assert screens[k] in screens;
      }
    }
  }

  /** The pixel is given by screen `i`, or by none if `i` is negative. */
  ghost predicate GivenBy(was: seq<Byte>, pixel: seq<Byte>, img: Contents, screens: seq<Screen>, p: Point, i: int) {
    && -1 <= i < |screens|
    && (i < 0 <==> Nowhere(screens, p))
    && if i < 0 then pixel == was else InBox(p, screens[i].area) && pixel == Logical(img, screens, i, p)
  }

  lemma GivenToWindow(was: seq<Byte>, pixel: seq<Byte>, img: Contents, screens: seq<Screen>, p: Point, i: int, ox: int,
                      oy: int, x: int, y: int)
    requires GivenBy(was, pixel, img, screens, p, i) && PlacedAt(screens, ox, oy)
    requires p == Point(ox + x, oy + y)
    ensures AsPlaced(was, pixel, img, screens, ox, oy, x, y)
  {
    if i >= 0 {
      assert screens[i] in screens;
    }
  }

  /** What is given for a point of the source box is what was asked for. */
  lemma GivenAsAsked(was: seq<Byte>, pixel: seq<Byte>, img: Contents, screens: seq<Screen>, src: Box, i: int, left: int,
                     top: int, isRoot: bool, r: nat, c: nat)
    requires screens != [] && GivenBy(was, pixel, img, screens, Point(src.x1 + c, src.y1 + r), i)
    requires var b := SourceBox(screens, left, top, 0, 0, isRoot); src.x1 == b.x1 && src.y1 == b.y1
    ensures AskedPixel(was, pixel, img, screens, left + c, top + r, isRoot)
  {
    var p := Point(src.x1 + c, src.y1 + r);
    if !isRoot {
      forall ox, oy | PlacedAt(screens, ox, oy)
        ensures AsPlaced(was, pixel, img, screens, ox, oy, left + c, top + r)
      {
        assert screens[0] in screens;
        GivenToWindow(was, pixel, img, screens, p, i, ox, oy, left + c, top + r);
      }
    }
  }

  /** One pixel of an assembled image. */
  lemma PixelGiven(was: seq<Byte>, data: seq<Byte>, g: Grid, img: Contents, screens: seq<Screen>, src: Box, r: nat,
                   c: nat)
    requires src.x1 + c < src.x2 && src.y1 + r < src.y2
    requires Assembled(was, data, g, src, img, screens)
    ensures var p := Point(src.x1 + c, src.y1 + r);
            GivenBy(PixelAt(was, g, r, c), PixelAt(data, g, r, c), img, screens, p, Owner(screens, src, p))
  {
    var p := Point(src.x1 + c, src.y1 + r);
    assert Held(data, g, src, p) == PixelAt(data, g, r, c) && Held(was, g, src, p) == PixelAt(was, g, r, c);
    OwnerHoldsPixel(screens, src, p);
    NowhereMeans(screens, p);
  }

  lemma ImageAsAsked(was: seq<Byte>, data: seq<Byte>, g: Grid, img: Contents, screens: seq<Screen>, left: int, top: int,
                     isRoot: bool)
    requires screens != []
    requires Assembled(was, data, g, SourceBox(screens, left, top, g.width, g.height, isRoot), img, screens)
    ensures AsAsked(was, data, g, img, screens, left, top, isRoot)
  {
    var src := SourceBox(screens, left, top, g.width, g.height, isRoot);
    forall r, c | 0 <= r < g.height && 0 <= c < g.width
      ensures AskedPixel(PixelAt(was, g, r, c), PixelAt(data, g, r, c), img, screens, left + c, top + r, isRoot)
    {
      PixelGiven(was, data, g, img, screens, src, r, c);
      GivenAsAsked(PixelAt(was, g, r, c), PixelAt(data, g, r, c), img, screens, src,
                   Owner(screens, src, Point(src.x1 + c, src.y1 + r)), left, top, isRoot, r, c);
    }
  }

  /** XineramaGetImageData: the screens are taken in order, each gives what it holds and no earlier one
      gave, and one that holds the whole box gives everything. */
  method GetImageData(screens: seq<Screen>, img: Contents, left: int, top: int, width: nat, height: nat,
                      bpp: nat, data: array<Byte>, pitch: nat, isRoot: bool)
    requires screens != [] && width > 0 && height > 0 && bpp > 0 && WellSized(img, bpp)
    requires pitch == BytePad(width, bpp) && Bytes(height, pitch) <= data.Length
    modifies data
    ensures Assembled(old(data[..]), data[..], Grid(width, height, bpp, pitch),
                      SourceBox(screens, left, top, width, height, isRoot), img, screens)
    ensures AsAsked(old(data[..]), data[..], Grid(width, height, bpp, pitch), img, screens, left, top, isRoot)
  {
    ghost var was := data[..];
    Assemble(screens, img, SourceBox(screens, left, top, width, height, isRoot), data, Grid(width, height, bpp, pitch));
    ImageAsAsked(was, data[..], Grid(width, height, bpp, pitch), img, screens, left, top, isRoot);
  }

  /** The loop over the screens. */
  method Assemble(screens: seq<Screen>, img: Contents, src: Box, data: array<Byte>, g: Grid)
    requires Fits(g, data.Length) && Covers(g, src) && WellSized(img, g.bpp) && g.pitch == BytePad(g.width, g.bpp)
    modifies data
    ensures Assembled(old(data[..]), data[..], g, src, img, screens)
  {
    ghost var before := data[..];
    var region: Region := [src];
    GoingStart(screens, src, g, img, before);
    var scratch := new Byte[0];
    var i: nat, done := 0, false;
    while i != |screens| && !done
      invariant i <= |screens| && fresh(scratch)
      invariant Looped(done, screens, i, src, region, g, img, before, data[..])
      decreases |screens| - i
    {
      region, scratch, done := Visit(data, g, src, img, screens, i, region, scratch, before);
      i := i + 1;
    }
    GoneThrough(done, screens, i, src, region, g, img, before, data[..]);
  }

  lemma GoneThrough(done: bool, screens: seq<Screen>, i: nat, src: Box, region: Region, g: Grid, img: Contents,
                    before: seq<Byte>, data: seq<Byte>)
    requires i <= |screens| && Looped(done, screens, i, src, region, g, img, before, data)
    requires done || i == |screens|
    ensures Assembled(before, data, g, src, img, screens)
  {
    if !done {
      EarlyEnd(before, data, g, src, img, screens, i);
    }
  }

  lemma GoingStart(screens: seq<Screen>, src: Box, g: Grid, img: Contents, before: seq<Byte>)
    requires !Empty(src)
    ensures Looped(false, screens, 0, src, [src], g, img, before, before)
  {
    RemainingStart(screens, src);
  }

  /** The state of the loop before screen `i`. */
  ghost predicate Going(screens: seq<Screen>, i: nat, src: Box, region: Region, g: Grid, img: Contents,
                        before: seq<Byte>, data: seq<Byte>)
    requires i <= |screens|
  {
    && Remaining(screens, i, src, region) && HasPoints(region)
    && Fetched(before, data, g, src, img, screens, i) && FirstWhole(screens, i, src) < 0
  }

  /** The same after a screen: the picture may be finished early. */
  ghost predicate Looped(done: bool, screens: seq<Screen>, i: nat, src: Box, region: Region, g: Grid,
                         img: Contents, before: seq<Byte>, data: seq<Byte>)
    requires i <= |screens|
  {
    if done then Assembled(before, data, g, src, img, screens)
    else Going(screens, i, src, region, g, img, before, data)
  }

  /** Nothing of the earlier contents is left when a whole screen was taken. */
  lemma WholeAssembled(before: seq<Byte>, mid: seq<Byte>, data: seq<Byte>, g: Grid, src: Box, img: Contents,
                       screens: seq<Screen>, i: nat)
    requires i < |screens| && Within(src, screens[i].area) && FirstWhole(screens, i, src) < 0
    requires Assembled(mid, data, g, src, img, screens)
    ensures Assembled(before, data, g, src, img, screens)
  {
    forall p | InBox(p, src) ensures Owner(screens, src, p) >= 0 {
      assert InBox(p, screens[i].area);
    }
  }

  /** A screen that holds the whole box ends the loop. */
  method VisitWhole(data: array<Byte>, g: Grid, src: Box, img: Contents, screens: seq<Screen>, i: nat,
                    region: Region, ghost before: seq<Byte>)
    requires Fits(g, data.Length) && Covers(g, src) && WellSized(img, g.bpp) && g.pitch == BytePad(g.width, g.bpp)
    requires i < |screens| && Going(screens, i, src, region, g, img, before, data[..])
    requires Within(src, screens[i].area)
    modifies data
    ensures Assembled(before, data[..], g, src, img, screens)
  {
    StillWanted(screens, i, src, region);
    ghost var mid := data[..];
    GrabWhole(data, g, src, img, screens, i);
    WholeAssembled(before, mid, data[..], g, src, img, screens, i);
  }

  /** A screen that holds a part of the box. */
  method VisitPart(data: array<Byte>, g: Grid, src: Box, img: Contents, screens: seq<Screen>, i: nat,
                   region: Region, scratch: array<Byte>, ghost before: seq<Byte>)
    returns (region': Region, scratch': array<Byte>, done: bool)
    requires data != scratch && Fits(g, data.Length) && Covers(g, src) && WellSized(img, g.bpp)
    requires i < |screens| && Going(screens, i, src, region, g, img, before, data[..])
    requires !Within(src, screens[i].area)
    modifies data, scratch
    ensures scratch' == scratch || fresh(scratch')
    ensures if done then Assembled(before, data[..], g, src, img, screens)
            else Going(screens, i + 1, src, region', g, img, before, data[..])
  {
    region', scratch' := GrabPart(data, g, src, img, screens, i, region, scratch, before);
    done := region' == [];
    if done {
      StillWanted(screens, i + 1, src, region');
      EarlyEnd(before, data[..], g, src, img, screens, i + 1);
    }
  }

  lemma GoingOn(screens: seq<Screen>, i: nat, src: Box, region: Region, g: Grid, img: Contents,
                before: seq<Byte>, data: seq<Byte>)
    requires i < |screens| && Going(screens, i, src, region, g, img, before, data)
    requires !Within(src, screens[i].area) && forall p :: InBox(p, src) ==> !InBox(p, screens[i].area)
    ensures Going(screens, i + 1, src, region, g, img, before, data)
  {
    PieceSkipped(screens, i, src, region);
  }

  /** One screen. */
  method Visit(data: array<Byte>, g: Grid, src: Box, img: Contents, screens: seq<Screen>, i: nat,
               region: Region, scratch: array<Byte>, ghost before: seq<Byte>)
    returns (region': Region, scratch': array<Byte>, done: bool)
    requires data != scratch && Fits(g, data.Length) && Covers(g, src) && WellSized(img, g.bpp)
    requires g.pitch == BytePad(g.width, g.bpp)
    requires i < |screens| && Looped(false, screens, i, src, region, g, img, before, data[..])
    modifies data, scratch
    ensures scratch' == scratch || fresh(scratch')
    ensures Looped(done, screens, i + 1, src, region', g, img, before, data[..])
  {
    region', scratch', done := region, scratch, false;
    var inOut := ContainsRect(screens[i].area, src);
    if inOut == RgnIn {
      VisitWhole(data, g, src, img, screens, i, region, before);
      done := true;
    } else if inOut == RgnOut {
      GoingOn(screens, i, src, region, g, img, before, data[..]);
    } else {
      region', scratch', done := VisitPart(data, g, src, img, screens, i, region, scratch, before);
    }
  }
}
