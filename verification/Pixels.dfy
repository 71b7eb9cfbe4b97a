/** Images of whole-byte pixels inside byte buffers. */
module Pixels {

  type Byte = n: nat | n < 256

  /** The length of `n` items of `k` bytes. */
  function Bytes(n: nat, k: nat): nat {
    if n == 0 then 0 else Bytes(n - 1, k) + k
  }

  lemma {:induction false} BytesIs(n: nat, k: nat)
    ensures Bytes(n, k) == n * k
  {
    if n > 0 {
      BytesIs(n - 1, k);
    }
  }

  lemma {:induction false} BytesLe(a: nat, b: nat, k: nat)
    requires a <= b
    ensures Bytes(a, k) <= Bytes(b, k)
  {
    if a < b {
      BytesLe(a, b - 1, k);
    }
  }

  lemma {:induction false} BytesSum(a: nat, b: nat, k: nat)
    ensures Bytes(a + b, k) == Bytes(a, k) + Bytes(b, k)
  {
    if b > 0 {
      BytesSum(a, b - 1, k);
    }
  }

  /** PixmapBytePad: a row of `w` pixels padded to 32 bits. */
  function BytePad(w: nat, bpp: nat): (r: nat)
    ensures Bytes(w, bpp) <= r
  {
    (Bytes(w, bpp) + 3) / 4 * 4
  }

  /** `width` by `height` pixels of `bpp` bytes, in rows `pitch` bytes apart. */
  datatype Grid = Grid(width: nat, height: nat, bpp: nat, pitch: nat)

  /** A row fits into its pitch, and the rows into `length` bytes. */
  ghost predicate Fits(g: Grid, length: nat) {
    g.bpp > 0 && Bytes(g.width, g.bpp) <= g.pitch && Bytes(g.height, g.pitch) <= length
  }

  function Offset(g: Grid, r: nat, c: nat): nat {
    Bytes(r, g.pitch) + Bytes(c, g.bpp)
  }

  /** `n` pixels from column `c` on, in row `r`, lie in that row's bytes and in the buffer. */
  lemma OffsetFits(g: Grid, length: nat, r: nat, c: nat, n: nat)
    requires Fits(g, length) && r < g.height && c + n <= g.width
    ensures Offset(g, r, c) + Bytes(n, g.bpp) <= Bytes(r + 1, g.pitch) <= length
  {
    BytesSum(c, n, g.bpp);
    BytesLe(c + n, g.width, g.bpp);
    BytesLe(r + 1, g.height, g.pitch);
  }

  /** The bytes of one pixel. */
  function PixelAt(data: seq<Byte>, g: Grid, r: nat, c: nat): seq<Byte> {
    if Offset(g, r, c) + g.bpp <= |data| then data[Offset(g, r, c)..Offset(g, r, c) + g.bpp] else []
  }

  /** Rows are a whole number of 32-bit units, with no more of them than the pixels need; pixel (r, c) is the `bpp`
      bytes at column `c` of row `r`. */
  lemma PixelBytes(data: seq<Byte>, g: Grid, r: nat, c: nat)
    requires Fits(g, |data|) && r < g.height && c < g.width
    ensures var at := r * g.pitch + c * g.bpp;
            0 <= at && at + g.bpp <= |data| && PixelAt(data, g, r, c) == data[at..at + g.bpp]
    ensures var pad := BytePad(g.width, g.bpp);
            pad % 4 == 0 && g.width * g.bpp <= pad < g.width * g.bpp + 4
  {
    BytesIs(r, g.pitch);
    BytesIs(c, g.bpp);
    BytesIs(1, g.bpp);
    BytesIs(g.width, g.bpp);
    OffsetFits(g, |data|, r, c, 1);
  }

  /** memcpy of `s` to offset `off`. */
  function Blit(data: seq<Byte>, off: nat, s: seq<Byte>): seq<Byte>
    requires off + |s| <= |data|
  {
    data[..off] + s + data[off + |s|..]
  }

  lemma BlitOutside(data: seq<Byte>, off: nat, s: seq<Byte>, at: nat, n: nat)
    requires off + |s| <= |data| && at + n <= |data|
    requires at + n <= off || off + |s| <= at
    ensures Blit(data, off, s)[at..at + n] == data[at..at + n]
  {
  }

  lemma BlitInside(data: seq<Byte>, off: nat, s: seq<Byte>, at: nat, n: nat)
    requires off + |s| <= |data| && at + n <= |s|
    ensures Blit(data, off, s)[off + at..off + at + n] == s[at..at + n]
  {
  }

  lemma SliceOfSlice(s: seq<Byte>, a: nat, n: nat, b: nat, m: nat)
    requires a + n <= |s| && b + m <= n
    ensures s[a..a + n][b..b + m] == s[a + b..a + b + m]
  {
    var x, y := s[a..a + n][b..b + m], s[a + b..a + b + m];
    forall k | 0 <= k < m ensures x[k] == y[k] {
    }
  }

  /** A pixel of a run of `w` pixels from (y, x). */
  lemma InRun(g: Grid, y: nat, x: nat, w: nat, c: nat)
    requires x <= c < x + w
    ensures Offset(g, y, c) == Offset(g, y, x) + Bytes(c - x, g.bpp)
    ensures Bytes(c - x, g.bpp) + g.bpp <= Bytes(w, g.bpp)
  {
    BytesSum(x, c - x, g.bpp);
    BytesLe(c - x + 1, w, g.bpp);
  }

  /** A pixel outside that run lies before or behind it. */
  lemma OffRun(g: Grid, length: nat, y: nat, x: nat, w: nat, r: nat, c: nat)
    requires Fits(g, length) && y < g.height && x + w <= g.width && r < g.height && c < g.width
    requires r != y || c < x || x + w <= c
    ensures var run, at := Offset(g, y, x), Offset(g, r, c);
            at + g.bpp <= run || run + Bytes(w, g.bpp) <= at
  {
    if r == y {
      OffRunInRow(g, y, x, w, c);
    } else {
      OffsetFits(g, length, y, x, w);
      OffsetFits(g, length, r, c, 1);
      OnePixel(g.bpp);
      if r < y {
        BytesLe(r + 1, y, g.pitch);
      } else {
        BytesLe(y + 1, r, g.pitch);
      }
    }
  }

  lemma OffRunInRow(g: Grid, y: nat, x: nat, w: nat, c: nat)
    requires c < x || x + w <= c
    ensures var run, at := Offset(g, y, x), Offset(g, y, c);
            at + g.bpp <= run || run + Bytes(w, g.bpp) <= at
  {
    if c < x {
      BytesLe(c + 1, x, g.bpp);
    } else {
      BytesSum(x, w, g.bpp);
      BytesLe(x + w, c, g.bpp);
    }
  }

  lemma OnePixel(k: nat)
    ensures Bytes(1, k) == k
  {
    assert Bytes(0, k) == 0;
  }

  lemma BlitPixelIn(data: seq<Byte>, g: Grid, off: nat, s: seq<Byte>, at: nat, r: nat, c: nat)
    requires off + |s| <= |data| && at + g.bpp <= |s| && Offset(g, r, c) == off + at
    ensures PixelAt(Blit(data, off, s), g, r, c) == s[at..at + g.bpp]
  {
    BlitInside(data, off, s, at, g.bpp);
  }

  lemma BlitPixelOut(data: seq<Byte>, g: Grid, off: nat, s: seq<Byte>, r: nat, c: nat)
    requires off + |s| <= |data| && Offset(g, r, c) + g.bpp <= |data|
    requires Offset(g, r, c) + g.bpp <= off || off + |s| <= Offset(g, r, c)
    ensures PixelAt(Blit(data, off, s), g, r, c) == PixelAt(data, g, r, c)
  {
    BlitOutside(data, off, s, Offset(g, r, c), g.bpp);
  }

  /** Copying a run of pixels changes exactly those pixels. */
  lemma BlitPixel(data: seq<Byte>, g: Grid, y: nat, x: nat, w: nat, s: seq<Byte>, r: nat, c: nat)
    requires Fits(g, |data|) && y < g.height && x + w <= g.width && |s| == Bytes(w, g.bpp)
    requires r < g.height && c < g.width
    ensures Offset(g, y, x) + |s| <= |data|
    ensures r == y && x <= c < x + w ==>
              Bytes(c - x, g.bpp) + g.bpp <= |s|
              && PixelAt(Blit(data, Offset(g, y, x), s), g, r, c) == s[Bytes(c - x, g.bpp)..Bytes(c - x, g.bpp) + g.bpp]
    ensures !(r == y && x <= c < x + w) ==>
              PixelAt(Blit(data, Offset(g, y, x), s), g, r, c) == PixelAt(data, g, r, c)
  {
    OffsetFits(g, |data|, y, x, w);
    if r == y && x <= c < x + w {
      InRun(g, y, x, w, c);
      BlitPixelIn(data, g, Offset(g, y, x), s, Bytes(c - x, g.bpp), r, c);
    } else {
      OffsetFits(g, |data|, r, c, 1);
      OnePixel(g.bpp);
      OffRun(g, |data|, y, x, w, r, c);
      BlitPixelOut(data, g, Offset(g, y, x), s, r, c);
    }
  }

  /** memcpy between two buffers. */
  method Memcpy(dst: array<Byte>, doff: nat, src: array<Byte>, soff: nat, n: nat)
    requires dst != src && doff + n <= dst.Length && soff + n <= src.Length
    modifies dst
    ensures dst[..] == Blit(old(dst[..]), doff, src[soff..soff + n])
  {
    var i := 0;
    while i < n
      invariant 0 <= i <= n
      invariant forall k :: 0 <= k < dst.Length ==>
                  dst[k] == if doff <= k < doff + i then src[soff + (k - doff)] else old(dst[k])
    {
      dst[doff + i] := src[soff + i];
      i := i + 1;
    }
  }
}
