/** The raster loops of lab 5 and the tiled test pattern. */
module Pattern {
  import opened Words
  import opened Raster
  import opened Colour

  /** Pixel indices of a line; here the column is an `int` and is not
      truncated. */
  ghost function Span(m: Mode, x: int, y: int, n: nat): set<int> {
    if n == 0 then {} else Span(m, x, y, n - 1) + {m.Index(x + n - 1, y)}
  }

  ghost function Area(m: Mode, x: int, y: int, w: nat, n: nat): set<int> {
    if n == 0 then {} else Area(m, x, y, w, n - 1) + Span(m, x, W16(y + n - 1), w)
  }

  lemma {:induction false} SpanPrefix(m: Mode, x: int, y: int, i: nat, n: nat)
    requires i <= n
    ensures Span(m, x, y, i) <= Span(m, x, y, n)
    decreases n
  {
    if i < n { SpanPrefix(m, x, y, i, n - 1); }
  }

  lemma {:induction false} AreaPrefix(m: Mode, x: int, y: int, w: nat, i: nat, n: nat)
    requires i <= n
    ensures Area(m, x, y, w, i) <= Area(m, x, y, w, n)
    decreases n
  {
    if i < n { AreaPrefix(m, x, y, w, i, n - 1); }
  }

  method Hline(m: Mode, mem: array<byte>, x: u16, y: u16, len: nat, color: u32)
    requires m.Valid() && mem.Length == m.Size()
    requires Inside(m, Span(m, x, y, len))
    modifies mem
    ensures mem[..] == Painted(m.bpp, old(mem[..]), Span(m, x, y, len), color)
  {
    hide Mode.Size, Mode.Pixels, Quo, Rem;
    ghost var before := mem[..];
    assert mem[..] == Painted(m.bpp, before, {}, color);
    for i := x to x + len
      invariant mem[..] == Painted(m.bpp, before, Span(m, x, y, i - x), color)
    {
      SpanPrefix(m, x, y, i - x + 1, len);
      assert m.Index(i, y) in Span(m, x, y, i - x + 1);
      PutPixel(m, mem, y * m.h + i, color);
      PaintedUnion(m.bpp, before, Span(m, x, y, i - x), {m.Index(i, y)}, color);
    }
  }

  /** `memcpy` of one colour at pixel index `p`. */
  method PutPixel(m: Mode, mem: array<byte>, p: nat, color: u32)
    requires m.Valid() && mem.Length == m.Size() && p < m.Pixels()
    modifies mem
    ensures mem[..] == Painted(m.bpp, old(mem[..]), {p}, color)
  {
    ghost var before := mem[..];
    PixelInside(m, p);
    CopyBytes(mem, p * m.bpp, seq(m.bpp, i => ColorByte(color, i)));
    PixelPainted(m.bpp, before, mem[..], p, color);
  }

  method Rectangle(m: Mode, mem: array<byte>, x: u16, y: u16, w: u16, n: u16, color: u32)
    requires m.Valid() && mem.Length == m.Size()
    requires Inside(m, Area(m, x, y, w, n))
    modifies mem
    ensures mem[..] == Painted(m.bpp, old(mem[..]), Area(m, x, y, w, n), color)
  {
    hide Mode.Size, Mode.Pixels, Mode.Index, Quo, Rem, Span;
    ghost var before := mem[..];
    assert mem[..] == Painted(m.bpp, before, {}, color);
    for i := 0 to n
      invariant mem[..] == Painted(m.bpp, before, Area(m, x, y, w, i), color)
    {
      AreaPrefix(m, x, y, w, i + 1, n);
      Hline(m, mem, x, W16(y + i), w, color);
      PaintedUnion(m.bpp, before, Area(m, x, y, w, i), Span(m, x, W16(y + i), w), color);
    }
  }

  lemma {:induction false} SpanExtent(m: Mode, x: nat, y: nat, n: nat, p: int)
    requires m.Valid() && x + n <= m.h && y < m.v
    ensures p in Span(m, x, y, n) <==> Quo(p, m.h) == y && x <= Rem(p, m.h) < x + n
  {
    hide Mode.Index, Quo, Rem;
    if n > 0 {
      SpanExtent(m, x, y, n - 1, p);
      IndexIff(m, x + n - 1, y, p);
    }
  }

  /** On the screen, the painted set is the rectangle of coordinates. */
  lemma {:induction false} AreaExtent(m: Mode, x: nat, y: nat, w: nat, n: nat, p: int)
    requires m.Valid() && x + w <= m.h && y + n <= m.v
    ensures p in Area(m, x, y, w, n) <==> x <= Rem(p, m.h) < x + w && y <= Quo(p, m.h) < y + n
  {
    hide Mode.Index, Quo, Rem;
    if n > 0 {
      AreaExtent(m, x, y, w, n - 1, p);
      SpanExtent(m, x, y + n - 1, w, p);
    }
  }

  lemma AreaInside(m: Mode, x: nat, y: nat, w: nat, n: nat)
    requires m.Valid() && x + w <= m.h && y + n <= m.v
    ensures Inside(m, Area(m, x, y, w, n))
  {
    hide Mode.Index, Mode.Pixels, Quo, Rem, Area;
    forall p | p in Area(m, x, y, w, n)
      ensures 0 <= p < m.Pixels()
    {
      AreaExtent(m, x, y, w, n, p);
      RowInside(m, p);
    }
  }

  // ------------------------------------------------------------- the pattern

  /** The arguments of `video_test_pattern` in a direct-colour mode. */
  datatype Test = Test(masks: Masks, n: nat, first: u32, step: byte) {
    ghost predicate Valid() { masks.Valid() && 1 <= n < 0x100 }

    function Tint(row: nat, col: nat): u32
      requires masks.Valid() && row < 0x100 && col < 0x100
    {
      ShadeLaw(masks, first, step, row, col);
      GetColor(masks, first, step, row, col)
    }
  }

  /** Where tile number `c` of width `w` starts. */
  function Edge(c: nat, w: nat): nat { c * w }

  /** The tiles drawn before tile (row, col), in row-major order. */
  predicate Earlier(r: int, c: int, row: nat, col: nat) { r < row || (r == row && c < col) }

  /** What byte `j` of the pixel at `(x, y)` shows when the `rw` by `rh` tiles
      before (row, col) have been drawn: the tint of its tile, or `was`. */
  ghost function TileByte(t: Test, rw: nat, rh: nat, was: byte, x: nat, y: nat, j: int, row: nat, col: nat): byte
    requires t.Valid()
  {
    if x < Edge(t.n, rw) && y < Edge(t.n, rh) then
      TileOf(x, t.n, rw);
      TileOf(y, t.n, rh);
      if Earlier(Quo(y, rh), Quo(x, rw), row, col) then ColorByte(t.Tint(Quo(y, rh), Quo(x, rw)), j) else was
    else was
  }

  lemma TileOf(x: nat, n: nat, w: nat)
    requires x < Edge(n, w)
    ensures w > 0 && 0 <= Quo(x, w) < n
  {
    if w > 0 {
      QuoRem(x, w);
      var q := Quo(x, w);
      hide Quo, Rem;
      if q >= n { MulMono(n, q, w); }
    }
  }

  ghost predicate Tiled(m: Mode, t: Test, rw: nat, rh: nat, before: seq<byte>, after: seq<byte>, row: nat, col: nat)
    requires m.Valid() && t.Valid() && |before| == |after|
  {
    forall k :: 0 <= k < |after| ==>
      var p := Quo(k, m.bpp);
      after[k] == TileByte(t, rw, rh, before[k], Rem(p, m.h), Quo(p, m.h), Rem(k, m.bpp), row, col)
  }

  /** A coordinate is in tile `c` exactly when that is its tile, and the tile is
      one of the first `n`. */
  lemma TileWindow(n: nat, w: nat, c: nat, x: int)
    requires c < n
    ensures Edge(c, w) + w <= Edge(n, w)
    ensures Edge(c, w) <= x < Edge(c, w) + w <==> 0 <= x < Edge(n, w) && w > 0 && Quo(x, w) == c
  {
    MulMono(c + 1, n, w);
    MulMono(0, c, w);
    if w > 0 {
      DivWindow(x, w, c);
    }
    hide Quo;
  }

  lemma TilesFit(res: nat, n: nat)
    requires n > 0
    ensures 0 <= Quo(res, n) && Edge(n, Quo(res, n)) <= res
  {
    QuoRem(res, n);
    hide Quo, Rem;
  }

  lemma TileDrawn(m: Mode, t: Test, rw: nat, rh: nat, before: seq<byte>, mid: seq<byte>, after: seq<byte>, row: nat, col: nat)
    requires m.Valid() && t.Valid() && |before| == |mid| == |after| && row < t.n && col < t.n
    requires Edge(t.n, rw) <= m.h && Edge(t.n, rh) <= m.v
    requires Tiled(m, t, rw, rh, before, mid, row, col)
    requires after == Painted(m.bpp, mid, Area(m, Edge(col, rw), Edge(row, rh), rw, rh), t.Tint(row, col))
    ensures Tiled(m, t, rw, rh, before, after, row, col + 1)
  {
    hide Quo, Rem, Area, GetColor, ColorByte, Edge;
    forall k | 0 <= k < |after|
      ensures var p := Quo(k, m.bpp);
              after[k] == TileByte(t, rw, rh, before[k], Rem(p, m.h), Quo(p, m.h), Rem(k, m.bpp), row, col + 1)
    {
      var p := Quo(k, m.bpp);
      var x, y := Rem(p, m.h), Quo(p, m.h);
      TileWindow(t.n, rw, col, x);
      TileWindow(t.n, rh, row, y);
      AreaExtent(m, Edge(col, rw), Edge(row, rh), rw, rh, p);
      assert mid[k] == TileByte(t, rw, rh, before[k], x, y, Rem(k, m.bpp), row, col);
      if p in Area(m, Edge(col, rw), Edge(row, rh), rw, rh) {
        assert after[k] == ColorByte(t.Tint(row, col), Rem(k, m.bpp));
        assert Quo(x, rw) == col && Quo(y, rh) == row;
      } else {
        assert after[k] == mid[k];
        if x < Edge(t.n, rw) && y < Edge(t.n, rh) {
          TileOf(x, t.n, rw);
          TileOf(y, t.n, rh);
          assert !(Quo(x, rw) == col && Quo(y, rh) == row);
        }
      }
    }
  }

  lemma RowDone(m: Mode, t: Test, rw: nat, rh: nat, before: seq<byte>, after: seq<byte>, row: nat)
    requires m.Valid() && t.Valid() && |before| == |after|
    requires Tiled(m, t, rw, rh, before, after, row, t.n)
    ensures Tiled(m, t, rw, rh, before, after, row + 1, 0)
  {
    hide Quo, Rem, GetColor, ColorByte, Edge;
    forall k | 0 <= k < |after|
      ensures var p := Quo(k, m.bpp);
              after[k] == TileByte(t, rw, rh, before[k], Rem(p, m.h), Quo(p, m.h), Rem(k, m.bpp), row + 1, 0)
    {
      var p := Quo(k, m.bpp);
      var x, y := Rem(p, m.h), Quo(p, m.h);
      assert after[k] == TileByte(t, rw, rh, before[k], x, y, Rem(k, m.bpp), row, t.n);
      if x < Edge(t.n, rw) { TileOf(x, t.n, rw); }
    }
  }

  lemma NoTiles(m: Mode, t: Test, rw: nat, rh: nat, before: seq<byte>)
    requires m.Valid() && t.Valid()
    ensures Tiled(m, t, rw, rh, before, before, 0, 0)
  {
    hide Quo, Rem, GetColor, ColorByte, Edge;
    forall k | 0 <= k < |before|
      ensures var p := Quo(k, m.bpp);
              before[k] == TileByte(t, rw, rh, before[k], Rem(p, m.h), Quo(p, m.h), Rem(k, m.bpp), 0, 0)
    {
      var p := Quo(k, m.bpp);
      var x, y := Rem(p, m.h), Quo(p, m.h);
      if x < Edge(t.n, rw) { TileOf(x, t.n, rw); }
      if y < Edge(t.n, rh) { TileOf(y, t.n, rh); }
    }
  }

  /** The body of the inner loop. */
  method DrawTile(m: Mode, mem: array<byte>, t: Test, rw: nat, rh: nat, row: nat, col: nat, ghost before: seq<byte>)
    requires m.Valid() && t.Valid() && mem.Length == m.Size() == |before| && row < t.n && col < t.n
    requires Edge(t.n, rw) <= m.h && Edge(t.n, rh) <= m.v
    requires Tiled(m, t, rw, rh, before, mem[..], row, col)
    modifies mem
    ensures Tiled(m, t, rw, rh, before, mem[..], row, col + 1)
  {
    hide Quo, Rem, Area, Mode.Size, Mode.Pixels, GetColor, Tiled, Edge;
    ghost var mid := mem[..];
    TileWindow(t.n, rw, col, 0);
    TileWindow(t.n, rh, row, 0);
    AreaInside(m, Edge(col, rw), Edge(row, rh), rw, rh);
    Rectangle(m, mem, Edge(col, rw), Edge(row, rh), rw, rh, t.Tint(row, col));
    TileDrawn(m, t, rw, rh, before, mid, mem[..], row, col);
  }

  /** The finished pattern. */
  ghost predicate Patterned(m: Mode, t: Test, before: seq<byte>, after: seq<byte>)
    requires m.Valid() && t.Valid() && |before| == |after| == m.Size()
  {
    Tiled(m, t, Quo(m.h, t.n), Quo(m.v, t.n), before, after, t.n, 0)
  }

  /** `video_test_pattern`: every pixel of the tiled area has the tint of its
      tile, every other pixel is untouched. */
  method DrawPattern(m: Mode, mem: array<byte>, t: Test)
    requires m.Valid() && t.Valid() && mem.Length == m.Size()
    modifies mem
    ensures Patterned(m, t, old(mem[..]), mem[..])
  {
    ghost var before := mem[..];
    TilesFit(m.h, t.n);
    TilesFit(m.v, t.n);
    var rw, rh := Quo(m.h, t.n), Quo(m.v, t.n);
    hide Mode.Size, GetColor, Tiled, Edge, Quo;
    NoTiles(m, t, rw, rh, before);
    for row := 0 to t.n
      invariant Tiled(m, t, rw, rh, before, mem[..], row, 0)
    {
      for col := 0 to t.n
        invariant Tiled(m, t, rw, rh, before, mem[..], row, col)
      {
        DrawTile(m, mem, t, rw, rh, row, col, before);
      }
      RowDone(m, t, rw, rh, before, mem[..], row);
    }
  }

  /** The bytes `vg_draw_hline` copies for one pixel. */
  function Pixel(bpp: nat, color: u32): (s: seq<byte>)
    ensures |s| == bpp
  {
    seq(bpp, j requires 0 <= j < bpp => ColorByte(color, j))
  }

  /** The finished pattern, pixel by pixel.  With tiles of `m.h / n` by `m.v / n`
      pixels, a pixel inside the `n` by `n` tiles shows one colour whose channels
      are the start channels plus column, row and their sum times the step, each
      modulo its own size; a pixel outside shows what was there. */
  lemma PatternLaw(m: Mode, t: Test, before: seq<byte>, after: seq<byte>, px: nat, py: nat) returns (color: u32)
    requires m.Valid() && t.Valid() && |before| == |after| == m.Size() && Patterned(m, t, before, after)
    requires px < m.h && py < m.v
    ensures var at := (py * m.h + px) * m.bpp; 0 <= at && at + m.bpp <= m.Size()
    ensures var rw, rh := m.h / t.n, m.v / t.n; var at := (py * m.h + px) * m.bpp;
            px < t.n * rw && py < t.n * rh ==>
              && rw > 0 && rh > 0
              && after[at..at + m.bpp] == Pixel(m.bpp, color)
              && var row, col := py / rh, px / rw; var s := Split(t.masks, t.first);
                 Split(t.masks, color) == Channels((s.r + col * t.step) % Pow2(t.masks.r),
                                                   (s.g + row * t.step) % Pow2(t.masks.g),
                                                   (s.b + (row + col) * t.step) % Pow2(t.masks.b))
    ensures var rw, rh := m.h / t.n, m.v / t.n; var at := (py * m.h + px) * m.bpp;
            !(px < t.n * rw && py < t.n * rh) ==> after[at..at + m.bpp] == before[at..at + m.bpp]
  {
    QuotientIs(m.h, t.n);
    QuotientIs(m.v, t.n);
    var rw, rh := Quo(m.h, t.n), Quo(m.v, t.n);
    TilesSpan(t.n, rw);
    TilesSpan(t.n, rh);
    hide *;
    color := PatternShown(m, t, before, after, px, py);
    if px < Edge(t.n, rw) && py < Edge(t.n, rh) {
      QuotientIs(px, rw);
      QuotientIs(py, rh);
    }
  }

  lemma QuotientIs(a: nat, d: nat)
    requires d > 0
    ensures Quo(a, d) == a / d
  {
  }

  lemma TilesSpan(n: nat, w: nat)
    ensures Edge(n, w) == n * w
  {
  }

  /** The same, with quotients and products named. */
  lemma PatternShown(m: Mode, t: Test, before: seq<byte>, after: seq<byte>, px: nat, py: nat) returns (color: u32)
    requires m.Valid() && t.Valid() && |before| == |after| == m.Size() && Patterned(m, t, before, after)
    requires px < m.h && py < m.v
    ensures var rw, rh := Quo(m.h, t.n), Quo(m.v, t.n); var at := (py * m.h + px) * m.bpp;
            && 0 <= at && at + m.bpp <= m.Size()
            && (if px < Edge(t.n, rw) && py < Edge(t.n, rh) then
                  && rw > 0 && rh > 0
                  && after[at..at + m.bpp] == Pixel(m.bpp, color)
                  && var row, col := Quo(py, rh), Quo(px, rw); var s := Split(t.masks, t.first);
                     Split(t.masks, color) == Channels((s.r + col * t.step) % Pow2(t.masks.r),
                                                       (s.g + row * t.step) % Pow2(t.masks.g),
                                                       (s.b + (row + col) * t.step) % Pow2(t.masks.b))
                else after[at..at + m.bpp] == before[at..at + m.bpp])
  {
    hide Quo, Rem, GetColor, Pixel, Split, Pow2, Mode.Size, Tiled, Edge;
    var rw, rh := Quo(m.h, t.n), Quo(m.v, t.n);
    TileShown(m, t, rw, rh, before, after, px, py);
    color := 0;
    if px < Edge(t.n, rw) && py < Edge(t.n, rh) {
      color := t.Tint(Quo(py, rh), Quo(px, rw));
      TintLaw(t, Quo(py, rh), Quo(px, rw));
    }
  }

  lemma TileShown(m: Mode, t: Test, rw: nat, rh: nat, before: seq<byte>, after: seq<byte>, px: nat, py: nat)
    requires m.Valid() && t.Valid() && |before| == |after| == m.Size()
    requires Tiled(m, t, rw, rh, before, after, t.n, 0) && px < m.h && py < m.v
    ensures var at := (py * m.h + px) * m.bpp;
            && 0 <= at && at + m.bpp <= m.Size()
            && (if px < Edge(t.n, rw) && py < Edge(t.n, rh) then
                  && rw > 0 && rh > 0 && 0 <= Quo(py, rh) < t.n && 0 <= Quo(px, rw) < t.n
                  && after[at..at + m.bpp] == Pixel(m.bpp, t.Tint(Quo(py, rh), Quo(px, rw)))
                else after[at..at + m.bpp] == before[at..at + m.bpp])
  {
    var at := (py * m.h + px) * m.bpp;
    TilePixel(m, t, rw, rh, before, after, px, py, 0);
    TilePixel(m, t, rw, rh, before, after, px, py, m.bpp - 1);
    if px < Edge(t.n, rw) && py < Edge(t.n, rh) {
      TileOf(px, t.n, rw);
      TileOf(py, t.n, rh);
    }
    hide Mode.Size, GetColor, ColorByte, Rem, Quo, Tiled, Edge;
    ghost var now, was := after[at..at + m.bpp], before[at..at + m.bpp];
    forall j | 0 <= j < m.bpp
      ensures now[j] == TileByte(t, rw, rh, was[j], px, py, j, t.n, 0)
    {
      TilePixel(m, t, rw, rh, before, after, px, py, j);
    }
  }

  lemma TintLaw(t: Test, row: nat, col: nat)
    requires t.masks.Valid() && row < 0x100 && col < 0x100
    ensures var s := Split(t.masks, t.first);
            Split(t.masks, t.Tint(row, col)) == Channels((s.r + col * t.step) % Pow2(t.masks.r),
                                                         (s.g + row * t.step) % Pow2(t.masks.g),
                                                         (s.b + (row + col) * t.step) % Pow2(t.masks.b))
  {
    ShadeLaw(t.masks, t.first, t.step, row, col);
    hide Split, Pow2, GetColor;
  }

  lemma TilePixel(m: Mode, t: Test, rw: nat, rh: nat, before: seq<byte>, after: seq<byte>, px: nat, py: nat, j: nat)
    requires m.Valid() && t.Valid() && |before| == |after| == m.Size()
    requires Tiled(m, t, rw, rh, before, after, t.n, 0)
    requires px < m.h && py < m.v && j < m.bpp
    ensures var at := (py * m.h + px) * m.bpp;
            && 0 <= at && at + m.bpp <= m.Size()
            && after[at + j] == TileByte(t, rw, rh, before[at + j], px, py, j, t.n, 0)
  {
    hide *;
    PixelByte(m, px, py, j);
    TiledAt(m, t, rw, rh, before, after, (py * m.h + px) * m.bpp + j);
  }

  lemma TiledAt(m: Mode, t: Test, rw: nat, rh: nat, before: seq<byte>, after: seq<byte>, k: nat)
    requires m.Valid() && t.Valid() && k < |before| == |after|
    requires Tiled(m, t, rw, rh, before, after, t.n, 0)
    ensures var p := Quo(k, m.bpp);
            after[k] == TileByte(t, rw, rh, before[k], Rem(p, m.h), Quo(p, m.h), Rem(k, m.bpp), t.n, 0)
  {
    hide Mode.Size, GetColor, ColorByte, TileByte, Rem, Quo, Edge;
  }
}
