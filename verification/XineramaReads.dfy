/** The read loops that send an image: a byte count is declared first and then met in chunks of lines. */
module XineramaReads {
  import opened Masks
  import opened Regions
  import opened Pixels
  import opened XineramaImage

  const XINERAMA_IMAGE_BUFSIZE: nat := 256 * 1024

  function BytesToInt32(n: nat): nat {
    (n + 3) / 4
  }

  /** How many lines go through the buffer at a time. */
  function LinesPerBuf(widthBytes: nat, h: nat): (r: nat)
    ensures widthBytes > 0 && h > 0 ==> 1 <= r <= h
    ensures r > 1 ==> Bytes(r, widthBytes) <= XINERAMA_IMAGE_BUFSIZE
  {
    if widthBytes == 0 || h == 0 then 0
    else if widthBytes >= XINERAMA_IMAGE_BUFSIZE then 1
    else
      var lines := XINERAMA_IMAGE_BUFSIZE / widthBytes;
      ChunkFits(widthBytes, lines);
      if lines > h then
        BytesLe(h, lines, widthBytes);
        h
      else lines
  }

  lemma ChunkFits(widthBytes: nat, lines: nat)
    requires 0 < widthBytes < XINERAMA_IMAGE_BUFSIZE && lines == XINERAMA_IMAGE_BUFSIZE / widthBytes
    ensures lines >= 1 && Bytes(lines, widthBytes) <= XINERAMA_IMAGE_BUFSIZE
  {
    assert XINERAMA_IMAGE_BUFSIZE == lines * widthBytes + XINERAMA_IMAGE_BUFSIZE % widthBytes;
    assert lines == 0 ==> lines * widthBytes == 0;
    BytesIs(lines, widthBytes);
  }

  // ----- plane by plane

  /** One line of one plane. */
  type LineSource = (nat, int) -> seq<Byte>

  /** `n` lines of a plane from `y` on. */
  function Lines(line: LineSource, plane: nat, y: int, n: nat): seq<Byte> {
    if n == 0 then [] else Lines(line, plane, y, n - 1) + line(plane, y + n - 1)
  }

  /** The planes one after the other, `h` lines each. */
  function AllLines(line: LineSource, planes: seq<nat>, y: int, h: nat): seq<Byte> {
    if planes == [] then []
    else AllLines(line, planes[..|planes| - 1], y, h) + Lines(line, planes[|planes| - 1], y, h)
  }

  lemma {:induction false} LinesSplit(line: LineSource, plane: nat, y: int, a: nat, b: nat)
    ensures Lines(line, plane, y, a + b) == Lines(line, plane, y, a) + Lines(line, plane, y + a, b)
  {
    if b > 0 {
      LinesSplit(line, plane, y, a, b - 1);
    }
  }

  lemma {:induction false} LinesLength(line: LineSource, plane: nat, y: int, n: nat, widthBytes: nat)
    requires forall p, k :: |line(p, k)| == widthBytes
    ensures |Lines(line, plane, y, n)| == Bytes(n, widthBytes)
  {
    if n > 0 {
      LinesLength(line, plane, y, n - 1, widthBytes);
    }
  }

  lemma {:induction false} AllLinesLength(line: LineSource, planes: seq<nat>, y: int, h: nat, widthBytes: nat)
    requires forall p, k :: |line(p, k)| == widthBytes
    ensures |AllLines(line, planes, y, h)| == Bytes(|planes|, Bytes(h, widthBytes))
  {
    if planes != [] {
      AllLinesLength(line, planes[..|planes| - 1], y, h, widthBytes);
      LinesLength(line, planes[|planes| - 1], y, h, widthBytes);
    }
  }

  lemma SliceOfSum(a: seq<Byte>, b: seq<Byte>, at: nat, n: nat)
    requires at + n <= |a| + |b|
    ensures at + n <= |a| ==> (a + b)[at..at + n] == a[at..at + n]
    ensures |a| <= at ==> (a + b)[at..at + n] == b[at - |a|..at - |a| + n]
  {
  }

  lemma {:induction false} ByteOfLine(line: LineSource, plane: nat, y: int, h: nat, widthBytes: nat, j: nat, k: nat)
    requires (forall p, l :: |line(p, l)| == widthBytes) && j < h && k < widthBytes
    ensures var at, all := Bytes(j, widthBytes) + k, Lines(line, plane, y, h);
            |all| == Bytes(h, widthBytes) && at < |all| && all[at] == line(plane, y + j)[k]
  {
    LinesLength(line, plane, y, h, widthBytes);
    LinesLength(line, plane, y, h - 1, widthBytes);
    if j < h - 1 {
      ByteOfLine(line, plane, y, h - 1, widthBytes, j, k);
    }
  }

  lemma {:induction false} ByteAmong(line: LineSource, planes: seq<nat>, y: int, h: nat, widthBytes: nat, i: nat,
                                     j: nat, k: nat)
    requires (forall p, l :: |line(p, l)| == widthBytes) && i < |planes| && j < h && k < widthBytes
    ensures var at, all := Bytes(i, Bytes(h, widthBytes)) + Bytes(j, widthBytes) + k, AllLines(line, planes, y, h);
            at < |all| && all[at] == line(planes[i], y + j)[k]
  {
    var n: nat := |planes| - 1;
    var front := planes[..n];
    AllLinesLength(line, front, y, h, widthBytes);
    if i == n {
      ByteOfLine(line, planes[n], y, h, widthBytes, j, k);
    } else {
      ByteAmong(line, front, y, h, widthBytes, i, j, k);
    }
  }

  /** Byte `k` of line `j` of plane `i` is where a client looks for it. */
  lemma LineSent(line: LineSource, planes: seq<nat>, y: int, h: nat, widthBytes: nat, i: nat, j: nat, k: nat)
    requires (forall p, l :: |line(p, l)| == widthBytes) && i < |planes| && j < h && k < widthBytes
    ensures var at, all := i * (h * widthBytes) + j * widthBytes + k, AllLines(line, planes, y, h);
            0 <= at < |all| && all[at] == line(planes[i], y + j)[k]
  {
    ByteAmong(line, planes, y, h, widthBytes, i, j, k);
    BytesIs(h, widthBytes);
    BytesIs(j, widthBytes);
    BytesIs(i, h * widthBytes);
  }

  /** One line is written at offset `at` of the buffer, inside it. */
  method PutLine(pBuf: array<Byte>, at: nat, s: seq<Byte>)
    requires at + |s| <= pBuf.Length
    modifies pBuf
    ensures pBuf[..at + |s|] == old(pBuf[..at]) + s
  {
    forall k | 0 <= k < |s| {
      pBuf[at + k] := s[k];
    }
  }

  /** One chunk of lines, fetched into the buffer, which has room for them. */
  method FetchLines(line: LineSource, plane: nat, y: int, nlines: nat, widthBytes: nat, pBuf: array<Byte>)
    returns (buf: seq<Byte>)
    requires (forall p, k :: |line(p, k)| == widthBytes) && Bytes(nlines, widthBytes) <= pBuf.Length
    modifies pBuf
    ensures buf == Lines(line, plane, y, nlines)
    ensures |buf| == Bytes(nlines, widthBytes) && buf == pBuf[..|buf|]
  {
    var j: nat, at: nat := 0, 0;
    while j != nlines
      invariant j <= nlines && at == Bytes(j, widthBytes) && at <= pBuf.Length
      invariant pBuf[..at] == Lines(line, plane, y, j)
    {
      BytesLe(j + 1, nlines, widthBytes);
      PutLine(pBuf, at, line(plane, y + j));
      j, at := j + 1, at + widthBytes;
    }
    buf := pBuf[..at];
  }

  /** The chunks of one plane. Every chunk lies inside the buffer allocated for `linesPerBuf` lines. */
  method SendPlane(line: LineSource, plane: nat, y: int, h: nat, widthBytes: nat, linesPerBuf: nat,
                   pBuf: array<Byte>, out: seq<Byte>)
    returns (out': seq<Byte>)
    requires (h > 0 ==> linesPerBuf > 0) && forall p, k :: |line(p, k)| == widthBytes
    requires pBuf.Length == Bytes(linesPerBuf, widthBytes)
    modifies pBuf
    ensures out' == out + Lines(line, plane, y, h)
  {
    out' := out;
    var linesDone := 0;
    while h - linesDone > 0
      invariant 0 <= linesDone <= h
      invariant out' == out + Lines(line, plane, y, linesDone)
    {
      var nlines := if linesPerBuf < h - linesDone then linesPerBuf else h - linesDone;
      BytesLe(nlines, linesPerBuf, widthBytes);
      var buf := FetchLines(line, plane, y + linesDone, nlines, widthBytes, pBuf);
      LinesSplit(line, plane, y, linesDone, nlines);
      assert out + Lines(line, plane, y, linesDone) + buf == out + (Lines(line, plane, y, linesDone) + buf);
      out' := out' + buf;
      linesDone := linesDone + nlines;
    }
  }

  /** The length declared for a bitmap of `depth` planes; it counts the planes asked for. */
  function DeclaredPlanes(widthBytes: nat, h: nat, mask: nat, depth: nat): nat {
    widthBytes * h * Ones(mask % Pow2(depth))
  }

  lemma AllLinesGrow(line: LineSource, planes: seq<nat>, plane: nat, y: int, h: nat)
    ensures AllLines(line, planes + [plane], y, h) == AllLines(line, planes, y, h) + Lines(line, plane, y, h)
  {
    assert (planes + [plane])[..|planes|] == planes;
  }

  lemma DeclaredIs(widthBytes: nat, h: nat, mask: nat, depth: nat)
    ensures DeclaredPlanes(widthBytes, h, mask, depth) == Bytes(Ones(mask % Pow2(depth)), Bytes(h, widthBytes))
    ensures widthBytes == 0 || h == 0 ==> DeclaredPlanes(widthBytes, h, mask, depth) == 0
  {
    BytesIs(h, widthBytes);
    BytesIs(Ones(mask % Pow2(depth)), h * widthBytes);
    assert widthBytes * h == h * widthBytes;
  }

  /** The loop over the planes, from the highest down. */
  method SendEach(line: LineSource, y: int, h: nat, widthBytes: nat, linesPerBuf: nat, mask: nat, depth: nat)
    returns (out: seq<Byte>)
    requires depth > 0 && linesPerBuf > 0 && forall p, k :: |line(p, k)| == widthBytes
    ensures out == AllLines(line, Planes(mask, depth), y, h)
  {
    var pBuf := new Byte[Bytes(linesPerBuf, widthBytes)](k => 0);
    out := [];
    var plane := Pow2(depth - 1);
    ghost var d: nat := depth;
    ghost var sent: seq<nat> := [];
    ghost var all := Planes(mask, depth);
    while plane > 0
      invariant d <= depth && plane == PlaneBit(d)
      invariant sent + Planes(mask, d) == all
      invariant out == AllLines(line, sent, y, h)
      decreases plane
    {
      NextPlane(sent, mask, d, all, plane);
      if Has(mask, plane) {
        out := SendPlane(line, plane, y, h, widthBytes, linesPerBuf, pBuf, out);
        AllLinesGrow(line, sent, plane, y, h);
        sent := sent + [plane];
      }
      d := d - 1;
      plane := plane / 2;
    }
    assert sent == all;
  }

  /** The XYPixmap part of PanoramiXGetImage: the planes asked for are sent, each line of each once and in
      order, and as many bytes as were declared. */
  method SendPlanes(line: LineSource, y: int, h: nat, widthBytes: nat, mask: nat, depth: nat) returns (out: seq<Byte>)
    requires depth > 0 && forall p, k :: |line(p, k)| == widthBytes
    ensures out == if widthBytes == 0 || h == 0 then [] else AllLines(line, Planes(mask, depth), y, h)
    ensures |out| == DeclaredPlanes(widthBytes, h, mask, depth)
  {
    var linesPerBuf := LinesPerBuf(widthBytes, h);
    DeclaredIs(widthBytes, h, mask, depth);
    if linesPerBuf == 0 {
      return [];
    }
    out := SendEach(line, y, h, widthBytes, linesPerBuf, mask, depth);
    PlanesAreOnes(mask, depth);
    AllLinesLength(line, Planes(mask, depth), y, h, widthBytes);
  }

  // ----- whole-byte pixels

  /** A pixel that lies on some screen is the picture's. */
  predicate ShownAt(out: seq<Byte>, g: Grid, src: Box, screens: seq<Screen>, picture: Point -> seq<Byte>, r: nat,
                    c: nat) {
    var p := Point(src.x1 + c, src.y1 + r);
    FirstScreen(screens, |screens|, p) >= 0 ==> PixelAt(out, g, r, c) == picture(p)
  }

  /** The lines of `g` hold the picture wherever there is a screen. */
  ghost predicate Shown(out: seq<Byte>, g: Grid, src: Box, screens: seq<Screen>, picture: Point -> seq<Byte>) {
    forall r, c :: 0 <= r < g.height && 0 <= c < g.width ==> ShownAt(out, g, src, screens, picture, r, c)
  }

  /** A pixel of the lines already sent. */
  lemma SentPixel(out: seq<Byte>, buf: seq<Byte>, g: Grid, n: nat, r: nat, c: nat)
    requires Fits(g, |out|) && c < g.width && r < g.height
    ensures PixelAt(out + buf, g.(height := g.height + n), r, c) == PixelAt(out, g, r, c)
  {
    OffsetFits(g, |out|, r, c, 1);
    OnePixel(g.bpp);
    SliceOfSum(out, buf, Offset(g, r, c), g.bpp);
  }

  /** A pixel of the lines just sent. */
  lemma NewPixel(out: seq<Byte>, buf: seq<Byte>, g: Grid, n: nat, r: nat, c: nat)
    requires Fits(g.(height := n), |buf|) && c < g.width && r < n && |out| == Bytes(g.height, g.pitch)
    ensures PixelAt(out + buf, g.(height := g.height + n), g.height + r, c) == PixelAt(buf, g.(height := n), r, c)
  {
    var at := Offset(g, r, c);
    BytesSum(g.height, r, g.pitch);
    assert Offset(g, g.height + r, c) == |out| + at;
    OffsetFits(g.(height := n), |buf|, r, c, 1);
    OnePixel(g.bpp);
    SliceOfSum(out, buf, |out| + at, g.bpp);
  }

  lemma ShownGrows(out: seq<Byte>, buf: seq<Byte>, g: Grid, n: nat, src: Box, screens: seq<Screen>,
                   picture: Point -> seq<Byte>)
    requires Fits(g, |out|) && Fits(g.(height := n), |buf|) && |out| == Bytes(g.height, g.pitch)
    requires Shown(out, g, src, screens, picture)
    requires Shown(buf, g.(height := n), src.(y1 := src.y1 + g.height), screens, picture)
    ensures Shown(out + buf, g.(height := g.height + n), src, screens, picture)
  {
    var all, g' := out + buf, g.(height := g.height + n);
    forall r, c | 0 <= r < g'.height && 0 <= c < g'.width
      ensures ShownAt(all, g', src, screens, picture, r, c)
    {
      if r < g.height {
        SentPixel(out, buf, g, n, r, c);
        assert ShownAt(out, g, src, screens, picture, r, c);
      } else {
        NewPixel(out, buf, g, n, r - g.height, c);
        assert ShownAt(buf, g.(height := n), src.(y1 := src.y1 + g.height), screens, picture, r - g.height, c);
      }
    }
  }

  /** What a chunk fetched into the buffer shows; it is `length` bytes long. */
  lemma ChunkShows(before: seq<Byte>, after: seq<Byte>, length: nat, g: Grid, src: Box, img: Contents,
                   screens: seq<Screen>, picture: Point -> seq<Byte>)
    requires Covers(g, src) && length <= |after| && Fits(g, length)
    requires Assembled(before, after, g, src, img, screens) && Consistent(img, screens, picture)
    ensures Shown(after[..length], g, src, screens, picture)
  {
    var sent := after[..length];
    forall r, c | 0 <= r < g.height && 0 <= c < g.width
      ensures ShownAt(sent, g, src, screens, picture, r, c)
    {
      var p := Point(src.x1 + c, src.y1 + r);
      OffsetFits(g, length, r, c, 1);
      OnePixel(g.bpp);
      assert PixelAt(sent, g, r, c) == PixelAt(after, g, r, c) == Held(after, g, src, p);
      if FirstScreen(screens, |screens|, p) >= 0 {
        AssembledPicture(before, after, g, src, img, screens, picture, p);
      }
    }
  }

  /** The first `n` lines of the picture have been sent. */
  ghost predicate SentLines(out: seq<Byte>, screens: seq<Screen>, x: int, y: int, g: Grid, n: nat, isRoot: bool,
                            picture: Point -> seq<Byte>)
    requires screens != []
  {
    && |out| == Bytes(n, g.pitch)
    && Shown(out, g.(height := n), SourceBox(screens, x, y, g.width, g.height, isRoot), screens, picture)
  }

  /** One chunk of the ZPixmap loop, `g.height` lines. */
  method FetchChunk(screens: seq<Screen>, img: Contents, x: int, y: int, g: Grid, pBuf: array<Byte>,
                    isRoot: bool, ghost picture: Point -> seq<Byte>) returns (buf: seq<Byte>)
    requires screens != [] && g.width > 0 && g.height > 0 && g.bpp > 0 && WellSized(img, g.bpp)
    requires g.pitch == BytePad(g.width, g.bpp) && Bytes(g.height, g.pitch) <= pBuf.Length
    requires Consistent(img, screens, picture)
    modifies pBuf
    ensures SentLines(buf, screens, x, y, g, g.height, isRoot, picture)
  {
    var length := Bytes(g.height, g.pitch);
    ghost var before := pBuf[..];
    GetImageData(screens, img, x, y, g.width, g.height, g.bpp, pBuf, g.pitch, isRoot);
    ChunkShows(before, pBuf[..], length, g, SourceBox(screens, x, y, g.width, g.height, isRoot), img, screens, picture);
    buf := pBuf[..length];
  }

  /** A chunk of `n` lines, sent behind the lines `done` that were sent before. */
  lemma ChunkSent(out: seq<Byte>, buf: seq<Byte>, screens: seq<Screen>, x: int, y: int, g: Grid, done: nat, n: nat,
                  isRoot: bool, picture: Point -> seq<Byte>)
    requires screens != [] && SentLines(out, screens, x, y, g, done, isRoot, picture)
    requires SentLines(buf, screens, x, y + done, g.(height := n), n, isRoot, picture)
    requires g.bpp > 0 && Bytes(g.width, g.bpp) <= g.pitch
    ensures SentLines(out + buf, screens, x, y, g, done + n, isRoot, picture)
  {
    var src, chunk := SourceBox(screens, x, y, g.width, g.height, isRoot),
                       SourceBox(screens, x, y + done, g.width, n, isRoot);
    BytesSum(done, n, g.pitch);
    ShownHigher(buf, g.(height := n), screens, picture, chunk, src.(y1 := src.y1 + done));
    ShownGrows(out, buf, g.(height := done), n, src, screens, picture);
  }

  /** `n` lines are sent behind the `linesDone` that were sent before. */
  method SendChunk(screens: seq<Screen>, img: Contents, x: int, y: int, g: Grid, linesDone: nat, n: nat,
                   pBuf: array<Byte>, isRoot: bool, out: seq<Byte>, ghost picture: Point -> seq<Byte>)
    returns (out': seq<Byte>)
    requires screens != [] && g.width > 0 && g.bpp > 0 && WellSized(img, g.bpp) && n > 0
    requires g.pitch == BytePad(g.width, g.bpp) && Consistent(img, screens, picture)
    requires Bytes(n, g.pitch) <= pBuf.Length && SentLines(out, screens, x, y, g, linesDone, isRoot, picture)
    modifies pBuf
    ensures SentLines(out', screens, x, y, g, linesDone + n, isRoot, picture)
  {
    var buf := FetchChunk(screens, img, x, y + linesDone, g.(height := n), pBuf, isRoot, picture);
    ChunkSent(out, buf, screens, x, y, g, linesDone, n, isRoot, picture);
    out' := out + buf;
  }

  /** The chunks of the ZPixmap loop; `g` is the whole image. */
  method SendChunks(screens: seq<Screen>, img: Contents, x: int, y: int, g: Grid, linesPerBuf: nat, isRoot: bool,
                    ghost picture: Point -> seq<Byte>) returns (out: seq<Byte>)
    requires screens != [] && g.width > 0 && g.bpp > 0 && WellSized(img, g.bpp) && linesPerBuf > 0
    requires g.pitch == BytePad(g.width, g.bpp) && Consistent(img, screens, picture)
    ensures |out| == Bytes(g.height, g.pitch)
    ensures Shown(out, g, SourceBox(screens, x, y, g.width, g.height, isRoot), screens, picture)
  {
    var pBuf := new Byte[Bytes(linesPerBuf, g.pitch)](k => 0);
    out := [];
    var linesDone := 0;
    while g.height - linesDone > 0
      invariant 0 <= linesDone <= g.height && SentLines(out, screens, x, y, g, linesDone, isRoot, picture)
    {
      var nlines := if linesPerBuf < g.height - linesDone then linesPerBuf else g.height - linesDone;
      BytesLe(nlines, linesPerBuf, g.pitch);
      out := SendChunk(screens, img, x, y, g, linesDone, nlines, pBuf, isRoot, out, picture);
      linesDone := linesDone + nlines;
    }
  }

  lemma ShownGiven(pixel: seq<Byte>, img: Contents, screens: seq<Screen>, p: Point, picture: Point -> seq<Byte>)
    requires Consistent(img, screens, picture)
    requires FirstScreen(screens, |screens|, p) >= 0 ==> pixel == picture(p)
    ensures GivenBy(pixel, pixel, img, screens, p, FirstScreen(screens, |screens|, p))
  {
    NowhereMeans(screens, p);
  }

  /** So the pixels of the image are those the client asked for, wherever there is a screen. */
  lemma ShownAsAsked(out: seq<Byte>, g: Grid, img: Contents, screens: seq<Screen>, x: int, y: int, isRoot: bool,
                     picture: Point -> seq<Byte>)
    requires screens != [] && Consistent(img, screens, picture)
    requires Shown(out, g, SourceBox(screens, x, y, g.width, g.height, isRoot), screens, picture)
    ensures AsAsked(out, out, g, img, screens, x, y, isRoot)
  {
    var src := SourceBox(screens, x, y, g.width, g.height, isRoot);
    forall r, c | 0 <= r < g.height && 0 <= c < g.width
      ensures AskedPixel(PixelAt(out, g, r, c), PixelAt(out, g, r, c), img, screens, x + c, y + r, isRoot)
    {
      var pixel, p := PixelAt(out, g, r, c), Point(src.x1 + c, src.y1 + r);
      assert ShownAt(out, g, src, screens, picture, r, c);
      ShownGiven(pixel, img, screens, p, picture);
      GivenAsAsked(pixel, pixel, img, screens, src, FirstScreen(screens, |screens|, p), x, y, isRoot, r, c);
    }
  }

  /** The ZPixmap part of PanoramiXGetImage: as many bytes as were declared, and, although each chunk
      is assembled on its own, together they are the picture wherever there is a screen. */
  method SendPixels(screens: seq<Screen>, img: Contents, x: int, y: int, w: nat, h: nat, bpp: nat, isRoot: bool,
                    ghost picture: Point -> seq<Byte>) returns (declared: nat, out: seq<Byte>)
    requires screens != [] && bpp > 0 && WellSized(img, bpp) && Consistent(img, screens, picture)
    ensures |out| == BytePad(w, bpp) * h && declared * 4 == |out|
    ensures Shown(out, Grid(w, h, bpp, BytePad(w, bpp)), SourceBox(screens, x, y, w, h, isRoot), screens, picture)
    ensures AsAsked(out, out, Grid(w, h, bpp, BytePad(w, bpp)), img, screens, x, y, isRoot)
  {
    var widthBytes := BytePad(w, bpp);
    declared := BytesToInt32(widthBytes * h);
    WholeWords(w, bpp, h);
    BytesIs(h, widthBytes);
    var linesPerBuf := LinesPerBuf(widthBytes, h);
    if linesPerBuf == 0 {
      NothingToSend(w, bpp, h);
      out := [];
    } else {
      assert w > 0;
      out := SendChunks(screens, img, x, y, Grid(w, h, bpp, widthBytes), linesPerBuf, isRoot, picture);
    }
    ShownAsAsked(out, Grid(w, h, bpp, widthBytes), img, screens, x, y, isRoot, picture);
  }

  /** Only the corner of the box matters. */
  lemma ShownHigher(buf: seq<Byte>, g: Grid, screens: seq<Screen>, picture: Point -> seq<Byte>, a: Box, b: Box)
    requires Shown(buf, g, a, screens, picture) && a.x1 == b.x1 && a.y1 == b.y1
    ensures Shown(buf, g, b, screens, picture)
  {
    forall r, c | 0 <= r < g.height && 0 <= c < g.width
      ensures ShownAt(buf, g, b, screens, picture, r, c)
    {
      assert ShownAt(buf, g, a, screens, picture, r, c);
    }
  }

  lemma NothingToSend(w: nat, bpp: nat, h: nat)
    requires (BytePad(w, bpp) == 0 || h == 0) && bpp > 0
    ensures BytePad(w, bpp) * h == 0 && (h > 0 ==> w == 0)
  {
    if w > 0 {
      BytesLe(1, w, bpp);
      OnePixel(bpp);
    }
  }

  /** Padded rows are whole 32-bit units, so the declared length is exact. */
  lemma WholeWords(w: nat, bpp: nat, h: nat)
    ensures BytesToInt32(BytePad(w, bpp) * h) * 4 == BytePad(w, bpp) * h
  {
    var q := (Bytes(w, bpp) + 3) / 4;
    assert BytePad(w, bpp) * h == (q * h) * 4;
  }

  // ----- shared memory

  datatype ShmResult = BadAccess | Written(windows: seq<(nat, nat)>, end: nat)

  /** Window `i` starts behind window `i - 1`. */
  function Windows(planes: seq<nat>, offset: nat, lenPer: nat): (r: seq<(nat, nat)>)
    ensures |r| == |planes|
  {
    seq(|planes|, i requires 0 <= i < |planes| => (planes[i], offset + Bytes(i, lenPer)))
  }

  lemma WindowsGrow(planes: seq<nat>, plane: nat, offset: nat, lenPer: nat)
    ensures Windows(planes + [plane], offset, lenPer)
            == Windows(planes, offset, lenPer) + [(plane, offset + Bytes(|planes|, lenPer))]
  {
  }

  lemma WindowInside(planes: seq<nat>, offset: nat, lenPer: nat, i: nat)
    requires i < |planes|
    ensures var start := Windows(planes, offset, lenPer)[i].1;
            offset <= start && start + lenPer <= offset + Bytes(|planes|, lenPer)
  {
    BytesLe(i + 1, |planes|, lenPer);
  }

  /** The plane loop of ProcShmGetImage: each plane asked for is written once, from the highest down. */
  method WritePlanes(offset: nat, lenPer: nat, mask: nat, depth: nat) returns (windows: seq<(nat, nat)>, pos: nat)
    requires depth > 0
    ensures windows == Windows(Planes(mask, depth), offset, lenPer)
    ensures pos == offset + Bytes(|Planes(mask, depth)|, lenPer)
  {
    windows, pos := [], offset;
    var plane := Pow2(depth - 1);
    ghost var d: nat := depth;
    ghost var done: seq<nat> := [];
    ghost var all := Planes(mask, depth);
    while plane > 0
      invariant d <= depth && plane == PlaneBit(d)
      invariant done + Planes(mask, d) == all
      invariant windows == Windows(done, offset, lenPer) && pos == offset + Bytes(|done|, lenPer)
      decreases plane
    {
      NextPlane(done, mask, d, all, plane);
      if Has(mask, plane) {
        WindowsGrow(done, plane, offset, lenPer);
        windows := windows + [(plane, pos)];
        pos := pos + lenPer;
        done := done + [plane];
      }
      d := d - 1;
      plane := plane / 2;
    }
    assert done == all;
  }

  lemma ShmLength(lenPer: nat, mask: nat, depth: nat)
    ensures lenPer * Ones(mask % Pow2(depth)) == Bytes(|Planes(mask, depth)|, lenPer)
  {
    PlanesAreOnes(mask, depth);
    BytesIs(|Planes(mask, depth)|, lenPer);
  }

  lemma WindowsInside(planes: seq<nat>, offset: nat, lenPer: nat)
    ensures forall i :: 0 <= i < |planes| ==>
              offset <= Windows(planes, offset, lenPer)[i].1
              && Windows(planes, offset, lenPer)[i].1 + lenPer <= offset + Bytes(|planes|, lenPer)
  {
    forall i | 0 <= i < |planes|
      ensures offset <= Windows(planes, offset, lenPer)[i].1
              && Windows(planes, offset, lenPer)[i].1 + lenPer <= offset + Bytes(|planes|, lenPer)
    {
      WindowInside(planes, offset, lenPer, i);
    }
  }

  /** One window for each plane asked for, `lenPer` bytes apart, the highest plane first. */
  ghost predicate Placed(windows: seq<(nat, nat)>, offset: nat, lenPer: nat, mask: nat, depth: nat) {
    && |windows| == Ones(mask % Pow2(depth))
    && (forall i :: 0 <= i < |windows| ==> windows[i].0 in Planes(mask, depth) && windows[i].1 == offset + i * lenPer)
    && forall i, j :: 0 <= i < j < |windows| ==> windows[i].0 > windows[j].0
  }

  lemma WindowsPlaced(offset: nat, lenPer: nat, mask: nat, depth: nat)
    ensures Placed(Windows(Planes(mask, depth), offset, lenPer), offset, lenPer, mask, depth)
  {
    PlanesAreOnes(mask, depth);
    PlanesDescend(mask, depth);
    forall i: nat | i < |Planes(mask, depth)| ensures Bytes(i, lenPer) == i * lenPer {
      BytesIs(i, lenPer);
    }
  }

  /** The XYPixmap part of ProcShmGetImage: unless the declared length does not fit the segment, the planes asked for
      are written to consecutive windows that end at offset + length. */
  method ShmGetPlanes(offset: nat, lenPer: nat, mask: nat, depth: nat, size: nat) returns (r: ShmResult)
    requires depth > 0
    ensures var length := lenPer * Ones(mask % Pow2(depth));
            if offset + length > size then r == BadAccess
            else r == Written(if length == 0 then [] else Windows(Planes(mask, depth), offset, lenPer), offset + length)
    ensures r.Written? && r.windows != [] ==> Placed(r.windows, offset, lenPer, mask, depth)
    ensures r.Written? ==>
              r.end <= size
              && forall i :: 0 <= i < |r.windows| ==> offset <= r.windows[i].1 && r.windows[i].1 + lenPer <= r.end
  {
    var length := lenPer * Ones(mask % Pow2(depth));
    if offset + length > size {
      return BadAccess;
    }
    if length == 0 {
      return Written([], offset);
    }
    ShmLength(lenPer, mask, depth);
    WindowsInside(Planes(mask, depth), offset, lenPer);
    WindowsPlaced(offset, lenPer, mask, depth);
    var windows, pos := WritePlanes(offset, lenPer, mask, depth);
    r := Written(windows, pos);
  }
}
