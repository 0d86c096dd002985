/** The linear framebuffer: pixel addressing, the pixel, line and rectangle
    loops, and the two image blits of proj/src/video_gr.c. */
module Raster {
  import opened Words

  /** A graphics mode.  The bound on the width is one under which the unsigned
      address expression of `vg_draw_pixel` cannot wrap, whatever the 16-bit
      coordinates are: see `AddressNoWrap`. */
  datatype Mode = Mode(h: nat, v: nat, bpp: nat) {
    ghost predicate Valid() {
      1 <= h <= 0x3F00 && 1 <= v < 0x1_0000 && 1 <= bpp <= 4
    }

    function Pixels(): nat { h * v }

    function Size(): nat { h * v * bpp }

    function Index(x: int, y: int): int { y * h + x }
  }

  lemma AddressNoWrap(m: Mode, x: u16, y: u16)
    requires m.Valid()
    ensures 0 <= m.Index(x, y) * m.bpp < 0x1_0000_0000
  {
    MulMono(y, 0xFFFF, m.h);
    MulMono(0, y, m.h);
    MulMono(m.Index(x, y), 0xFFFF * 0x3F00 + 0xFFFF, m.bpp);
    MulMono(0, m.Index(x, y), m.bpp);
  }

  /** Byte `i` of a colour in memory (little endian). */
  function ColorByte(c: u32, i: int): byte {
    match i
    case 0 => c % 0x100
    case 1 => c / 0x100 % 0x100
    case 2 => c / 0x1_0000 % 0x100
    case _ => c / 0x100_0000
  }

  function Word(b0: byte, b1: byte, b2: byte, b3: byte): u32 {
    b0 as int + 0x100 * b1 as int + 0x1_0000 * b2 as int + 0x100_0000 * b3 as int
  }

  lemma WordBytes(b0: byte, b1: byte, b2: byte, b3: byte)
    ensures var c := Word(b0, b1, b2, b3);
            && ColorByte(c, 0) == b0 && ColorByte(c, 1) == b1
            && ColorByte(c, 2) == b2 && ColorByte(c, 3) == b3
  {
    var c := Word(b0, b1, b2, b3);
    assert c / 0x100 == b1 + 0x100 * b2 + 0x1_0000 * b3;
    assert c / 0x1_0000 == b2 + 0x100 * b3;
  }

  /** The bytes of a colour, low byte first. */
  lemma ColorBytes(c: u32)
    ensures c == ColorByte(c, 0) + 0x100 * ColorByte(c, 1) + 0x1_0000 * ColorByte(c, 2) + 0x100_0000 * ColorByte(c, 3)
  {
  }

  /** The bytes of one pixel as a zero-extended word. */
  function Value(s: seq<byte>): u32
    requires 1 <= |s| <= 4
  {
    Word(s[0],
         if |s| > 1 then s[1] else 0,
         if |s| > 2 then s[2] else 0,
         if |s| > 3 then s[3] else 0)
  }

  /** The value `memcpy` of one pixel into a zeroed 32-bit word produces. */
  function PixelValue(bpp: nat, fb: seq<byte>, p: nat): u32
    requires 1 <= bpp <= 4 && p * bpp + bpp <= |fb|
  {
    Value(fb[p * bpp..p * bpp + bpp])
  }

  lemma PixelValueBytes(bpp: nat, fb: seq<byte>, p: nat, i: nat)
    requires 1 <= bpp <= 4 && p * bpp + bpp <= |fb| && i < bpp
    ensures ColorByte(PixelValue(bpp, fb, p), i) == fb[p * bpp + i]
  {
    var s := fb[p * bpp..p * bpp + bpp];
    WordBytes(s[0],
              if |s| > 1 then s[1] else 0,
              if |s| > 2 then s[2] else 0,
              if |s| > 3 then s[3] else 0);
  }

  /** Frame `fb` with the pixels whose index is in `ps` set to colour `c`. */
  function Painted(bpp: nat, fb: seq<byte>, ps: set<int>, c: u32): (r: seq<byte>)
    requires bpp > 0
    ensures |r| == |fb|
  {
    seq(|fb|, k requires 0 <= k < |fb| => if Quo(k, bpp) in ps then ColorByte(c, Rem(k, bpp)) else fb[k])
  }

  lemma PaintedUnion(bpp: nat, fb: seq<byte>, a: set<int>, b: set<int>, c: u32)
    requires bpp > 0
    ensures Painted(bpp, Painted(bpp, fb, a, c), b, c) == Painted(bpp, fb, a + b, c)
  {
    hide Quo, Rem, ColorByte;
  }

  /** Every pixel index below the frame has its bytes inside the buffer. */
  lemma PixelInside(m: Mode, p: nat)
    requires m.bpp > 0 && p < m.Pixels()
    ensures p * m.bpp + m.bpp <= m.Size()
  {
    MulMono(p + 1, m.Pixels(), m.bpp);
  }

  // ---------------------------------------------------------------- drawing

  /** `memcpy` into the frame. */
  method CopyBytes(mem: array<byte>, at: nat, src: seq<byte>)
    requires at + |src| <= mem.Length
    modifies mem
    ensures forall k :: 0 <= k < mem.Length ==>
      mem[k] == if at <= k < at + |src| then src[k - at] else old(mem[k])
  {
    forall i | 0 <= i < |src| { mem[at + i] := src[i]; }
  }

  lemma PixelPainted(bpp: nat, before: seq<byte>, after: seq<byte>, p: nat, c: u32)
    requires bpp > 0 && |after| == |before|
    requires forall k :: 0 <= k < |after| ==>
      after[k] == if p * bpp <= k < p * bpp + bpp then ColorByte(c, k - p * bpp) else before[k]
    ensures after == Painted(bpp, before, {p}, c)
  {
    forall k | 0 <= k < |after|
      ensures after[k] == Painted(bpp, before, {p}, c)[k]
    {
      DivWindow(k, bpp, p);
    }
  }

  method DrawPixel(m: Mode, mem: array<byte>, x: u16, y: u16, color: u32)
    requires m.Valid() && mem.Length == m.Size()
    requires m.Index(x, y) < m.Pixels()
    modifies mem
    ensures mem[..] == Painted(m.bpp, old(mem[..]), {m.Index(x, y)}, color)
  {
    ghost var before := mem[..];
    var p := y * m.h + x;
    PixelInside(m, p);
    CopyBytes(mem, p * m.bpp, seq(m.bpp, i => ColorByte(color, i)));
    PixelPainted(m.bpp, before, mem[..], p, color);
  }

  /** Indices of `n` pixels of a row, each coordinate truncated to 16 bits as
      `vg_draw_pixel` receives it. */
  ghost function LinePixels(m: Mode, x: int, y: int, n: nat): set<int> {
    if n == 0 then {} else LinePixels(m, x, y, n - 1) + {m.Index(W16(x + n - 1), W16(y))}
  }

  ghost function RectPixels(m: Mode, x: int, y: int, w: nat, n: nat): set<int> {
    if n == 0 then {} else RectPixels(m, x, y, w, n - 1) + LinePixels(m, x, y + n - 1, w)
  }

  ghost predicate Inside(m: Mode, ps: set<int>) {
    forall p :: p in ps ==> 0 <= p < m.Pixels()
  }

  lemma {:induction false} LinePrefix(m: Mode, x: int, y: int, i: nat, n: nat)
    requires i <= n
    ensures LinePixels(m, x, y, i) <= LinePixels(m, x, y, n)
    decreases n
  {
    if i < n { LinePrefix(m, x, y, i, n - 1); }
  }

  lemma {:induction false} RectPrefix(m: Mode, x: int, y: int, w: nat, i: nat, n: nat)
    requires i <= n
    ensures RectPixels(m, x, y, w, i) <= RectPixels(m, x, y, w, n)
    decreases n
  {
    if i < n { RectPrefix(m, x, y, w, i, n - 1); }
  }

  method DrawHline(m: Mode, mem: array<byte>, x: u16, y: u16, len: u16, color: u32)
    requires m.Valid() && mem.Length == m.Size()
    requires Inside(m, LinePixels(m, x, y, len))
    modifies mem
    ensures mem[..] == Painted(m.bpp, old(mem[..]), LinePixels(m, x, y, len), color)
  {
    hide Mode.Size, Mode.Pixels, Mode.Index;
    ghost var before := mem[..];
    assert mem[..] == Painted(m.bpp, before, {}, color);
    for i := 0 to len
      invariant mem[..] == Painted(m.bpp, before, LinePixels(m, x, y, i), color)
    {
      LinePrefix(m, x, y, i + 1, len);
      assert m.Index(W16(x + i), y) in LinePixels(m, x, y, i + 1);
      DrawPixel(m, mem, W16(x + i), y, color);
      PaintedUnion(m.bpp, before, LinePixels(m, x, y, i), {m.Index(W16(x + i), y)}, color);
    }
  }

  /** The collision probe of `vg_draw_rectangle`: a colour other than 0 and
      255 under the top-left pixel. */
  predicate Probe(m: Mode, fb: seq<byte>, x: u16, y: u16)
    requires m.Valid() && |fb| == m.Size() && m.Index(x, y) < m.Pixels()
  {
    PixelInside(m, m.Index(x, y));
    var c := PixelValue(m.bpp, fb, m.Index(x, y));
    c != 0 && c != 255
  }

  method DrawRectangle(m: Mode, mem: array<byte>, x: u16, y: u16, w: u16, n: u16, color: u32)
    returns (flag: bool)
    requires m.Valid() && mem.Length == m.Size()
    requires m.Index(x, y) < m.Pixels() && Inside(m, RectPixels(m, x, y, w, n))
    modifies mem
    ensures flag == Probe(m, old(mem[..]), x, y)
    ensures mem[..] == Painted(m.bpp, old(mem[..]), RectPixels(m, x, y, w, n), color)
  {
    hide Mode.Size, Mode.Pixels, Mode.Index;
    ghost var before := mem[..];
    flag := Probe(m, mem[..], x, y);
    assert mem[..] == Painted(m.bpp, before, {}, color);
    for i := 0 to n
      invariant mem[..] == Painted(m.bpp, before, RectPixels(m, x, y, w, i), color)
    {
      RectPrefix(m, x, y, w, i + 1, n);
      LineTruncation(m, x, y + i, w);
      DrawHline(m, mem, x, W16(y + i), w, color);
      PaintedUnion(m.bpp, before, RectPixels(m, x, y, w, i), LinePixels(m, x, y + i, w), color);
    }
  }

  lemma {:induction false} LineTruncation(m: Mode, x: int, y: int, n: nat)
    ensures LinePixels(m, x, W16(y), n) == LinePixels(m, x, y, n)
  {
    if n > 0 { LineTruncation(m, x, y, n - 1); }
  }

  // -------------------------------------------------- where a rectangle lies

  lemma IndexCoordinates(m: Mode, x: int, y: int)
    requires 0 <= x < m.h
    ensures Quo(m.Index(x, y), m.h) == y && Rem(m.Index(x, y), m.h) == x
  {
    DivWindow(m.Index(x, y), m.h, y);
  }

  lemma CoordinatesIndex(m: Mode, p: int)
    requires m.h > 0
    ensures m.Index(Rem(p, m.h), Quo(p, m.h)) == p
  {
    QuoRem(p, m.h);
  }

  lemma IndexIff(m: Mode, x: int, y: int, p: int)
    requires 0 <= x < m.h
    ensures p == m.Index(x, y) <==> Quo(p, m.h) == y && Rem(p, m.h) == x
  {
    hide Quo, Rem, Mode.Index;
    IndexCoordinates(m, x, y);
    CoordinatesIndex(m, p);
  }

  lemma {:induction false} LineExtent(m: Mode, x: nat, y: nat, n: nat, p: int)
    requires m.Valid() && x + n <= m.h && y < m.v
    ensures p in LinePixels(m, x, y, n) <==> Quo(p, m.h) == y && x <= Rem(p, m.h) < x + n
  {
    hide Mode.Index, Quo, Rem;
    if n > 0 {
      LineExtent(m, x, y, n - 1, p);
      IndexIff(m, x + n - 1, y, p);
    }
  }

  /** On the screen, the painted index set is the rectangle of coordinates. */
  lemma {:induction false} RectExtent(m: Mode, x: nat, y: nat, w: nat, n: nat, p: int)
    requires m.Valid() && x + w <= m.h && y + n <= m.v
    ensures p in RectPixels(m, x, y, w, n) <==>
              x <= Rem(p, m.h) < x + w && y <= Quo(p, m.h) < y + n
  {
    hide Mode.Index, Quo, Rem;
    if n > 0 {
      RectExtent(m, x, y, w, n - 1, p);
      LineExtent(m, x, y + n - 1, w, p);
    }
  }

  lemma RowInside(m: Mode, p: int)
    requires m.h > 0 && 0 <= Quo(p, m.h) < m.v
    ensures 0 <= p < m.Pixels()
  {
    QuoRem(p, m.h);
    var row := Quo(p, m.h);
    hide Quo, Rem;
    MulMono(row + 1, m.v, m.h);
    MulMono(0, row, m.h);
  }

  lemma RectInside(m: Mode, x: nat, y: nat, w: nat, n: nat)
    requires m.Valid() && x + w <= m.h && y + n <= m.v
    ensures Inside(m, RectPixels(m, x, y, w, n))
    ensures w > 0 && n > 0 ==> 0 <= m.Index(x, y) < m.Pixels()
  {
    hide Mode.Index, Mode.Pixels, Quo, Rem, RectPixels;
    forall p | p in RectPixels(m, x, y, w, n)
      ensures 0 <= p < m.Pixels()
    {
      RectExtent(m, x, y, w, n, p);
      RowInside(m, p);
    }
    if w > 0 && n > 0 {
      IndexCoordinates(m, x, y);
      RowInside(m, m.Index(x, y));
    }
  }

  // ----------------------------------------------------------------- images

  datatype Image = Image(width: u16, height: u16, bytes: seq<byte>) {
    ghost predicate Valid(bpp: nat) { |bytes| == width * height * bpp }

    /** Where the bytes of the pixel in row `r`, column `c` start. */
    function Offset(bpp: nat, r: int, c: int): int { (r * width + c) * bpp }
  }

  /** The blit stays inside video memory. */
  ghost predicate Fits(m: Mode, img: Image, x: int, y: int) {
    img.height > 0 ==> m.Index(x, y + img.height - 1) + img.width <= m.Pixels()
  }

  /** Whether the pixel `q` places after the blit's origin is covered. */
  predicate Covered(m: Mode, img: Image, q: int)
    requires m.h > 0
  {
    0 <= q && Quo(q, m.h) < img.height && Rem(q, m.h) < img.width
  }

  /** The image byte shown at byte `j` of the pixel `q` places after the
      blit's origin. */
  function Source(m: Mode, img: Image, q: int, j: int): (b: byte)
    requires m.Valid() && img.Valid(m.bpp) && Covered(m, img, q) && 0 <= j < m.bpp
  {
    SourceInside(m, img, Quo(q, m.h), Rem(q, m.h), j);
    img.bytes[img.Offset(m.bpp, Quo(q, m.h), Rem(q, m.h)) + j]
  }

  lemma SourceInside(m: Mode, img: Image, r: int, c: int, j: int)
    requires m.bpp > 0 && img.Valid(m.bpp) && 0 <= r < img.height && 0 <= c < img.width && 0 <= j < m.bpp
    ensures 0 <= img.Offset(m.bpp, r, c)
    ensures img.Offset(m.bpp, r, c) + j < |img.bytes|
  {
    CellInside(r, c, img.width, img.height);
    PixelsInside(m.bpp, r * img.width + c, 1, img.width * img.height);
  }

  lemma CellInside(r: int, c: int, w: nat, n: nat)
    requires 0 <= r < n && 0 <= c < w
    ensures 0 <= r * w + c < w * n
  {
    MulMono(r + 1, n, w);
    MulMono(0, r, w);
  }

  lemma PixelsInside(bpp: nat, p: nat, w: nat, n: nat)
    requires p + w <= n
    ensures 0 <= p * bpp && p * bpp + w * bpp <= n * bpp
  {
    MulMono(p + w, n, bpp);
    MulMono(0, p, bpp);
  }

  /** The last of the first `rows` rows that can reach the pixel `q` places after
      the blit's origin.  A row wider than the screen runs into the next ones,
      and is then covered by them. */
  function RowAt(m: Mode, rows: nat, q: int): int
    requires m.h > 0
  {
    if Quo(q, m.h) < rows then Quo(q, m.h) else rows - 1
  }

  predicate CoveredBy(m: Mode, img: Image, rows: nat, q: int)
    requires m.h > 0
  {
    rows > 0 && 0 <= q && q - RowAt(m, rows, q) * m.h < img.width
  }

  /** What byte `k` of the frame shows once the first `rows` rows are copied; `q`
      is the distance of its pixel from the origin. */
  function RowsByte(m: Mode, before: seq<byte>, img: Image, k: nat, q: int, rows: nat): byte
    requires m.Valid() && img.Valid(m.bpp) && k < |before| && rows <= img.height
  {
    if CoveredBy(m, img, rows, q) then
      var r := RowAt(m, rows, q);
      RowStart(m, rows, q);
      SourceInside(m, img, r, q - r * m.h, Rem(k, m.bpp));
      img.bytes[img.Offset(m.bpp, r, q - r * m.h) + Rem(k, m.bpp)]
    else before[k]
  }

  lemma RowStart(m: Mode, rows: nat, q: int)
    requires m.h > 0 && rows > 0 && 0 <= q
    ensures 0 <= RowAt(m, rows, q) < rows && 0 <= q - RowAt(m, rows, q) * m.h
  {
    QuoRem(q, m.h);
    MulMono(RowAt(m, rows, q), Quo(q, m.h), m.h);
    hide Quo, Rem;
  }

  /** The frame after showing `img` with its origin at `(x, y)`. */
  function Blit(m: Mode, fb: seq<byte>, img: Image, x: int, y: int): (r: seq<byte>)
    requires m.Valid() && img.Valid(m.bpp)
    ensures |r| == |fb|
  {
    seq(|fb|, k requires 0 <= k < |fb| => RowsByte(m, fb, img, k, Quo(k, m.bpp) - m.Index(x, y), img.height))
  }

  /** Of an image no wider than the screen, every pixel comes from its own row. */
  lemma NarrowByte(m: Mode, before: seq<byte>, img: Image, k: nat, q: int)
    requires m.Valid() && img.Valid(m.bpp) && k < |before| && img.width <= m.h
    ensures RowsByte(m, before, img, k, q, img.height) ==
            if Covered(m, img, q) then Source(m, img, q, Rem(k, m.bpp)) else before[k]
  {
    NarrowRow(m, img, q);
    hide Quo, Rem, Image.Valid, Image.Offset, CoveredBy, Covered, RowAt;
  }

  lemma NarrowRow(m: Mode, img: Image, q: int)
    requires m.Valid() && img.width <= m.h
    ensures CoveredBy(m, img, img.height, q) <==> Covered(m, img, q)
    ensures Covered(m, img, q) ==>
              RowAt(m, img.height, q) == Quo(q, m.h) && q - RowAt(m, img.height, q) * m.h == Rem(q, m.h)
  {
    QuoRem(q, m.h);
    QuoSign(q, m.h);
    hide Quo, Rem;
    if 0 <= q && img.height > 0 && Quo(q, m.h) >= img.height {
      assert (img.height - 1) * m.h == img.height * m.h - m.h;
      MulMono(img.height, Quo(q, m.h), m.h);
    }
  }

  lemma QuoSign(q: int, d: int)
    requires d > 0
    ensures q >= 0 ==> Quo(q, d) >= 0
  {
  }

  /** A pixel window of `w` pixels from pixel `first` is a byte window. */
  lemma PixelWindow(bpp: nat, first: nat, w: nat, k: nat)
    requires bpp > 0
    ensures first <= Quo(k, bpp) < first + w <==> first * bpp <= k < first * bpp + w * bpp
    ensures k - first * bpp == (Quo(k, bpp) - first) * bpp + Rem(k, bpp)
  {
    QuoRem(k, bpp);
    var p := Quo(k, bpp);
    hide Quo, Rem;
    assert (first + w) * bpp == first * bpp + w * bpp;
    assert (p - first) * bpp == p * bpp - first * bpp;
    if p < first {
      MulMono(p + 1, first, bpp);
    } else if first + w <= p {
      MulMono(first + w, p, bpp);
    } else {
      MulMono(first, p, bpp);
      MulMono(p + 1, first + w, bpp);
    }
  }

  /** The first `rows` rows are in place. */
  ghost predicate RowsShown(m: Mode, before: seq<byte>, after: seq<byte>, img: Image, base: nat, rows: nat)
    requires m.Valid() && img.Valid(m.bpp) && |before| == |after| && rows <= img.height
  {
    forall k :: 0 <= k < |after| ==> after[k] == RowsByte(m, before, img, k, Quo(k, m.bpp) - base, rows)
  }

  /** Row `r` is the last to reach exactly the pixels of its own window; the
      other pixels are as the rows before it left them. */
  lemma LastRow(m: Mode, img: Image, r: nat, q: int)
    requires m.Valid() && r < img.height
    ensures r * m.h <= q < r * m.h + img.width ==> CoveredBy(m, img, r + 1, q) && RowAt(m, r + 1, q) == r
    ensures !(r * m.h <= q < r * m.h + img.width) ==>
              (CoveredBy(m, img, r + 1, q) <==> CoveredBy(m, img, r, q))
              && (CoveredBy(m, img, r, q) ==> RowAt(m, r + 1, q) == RowAt(m, r, q))
  {
    QuoRem(q, m.h);
    var t := Quo(q, m.h);
    hide Quo, Rem;
    MulMono(0, r, m.h);
    if t < r {
      MulMono(t + 1, r, m.h);
    } else {
      MulMono(r, t, m.h);
      assert (r - 1) * m.h == r * m.h - m.h;
    }
  }

  /** One row of the image, copied byte by byte. */
  lemma RowByte(m: Mode, img: Image, base: nat, r: nat, k: nat)
    requires m.Valid() && img.Valid(m.bpp) && r < img.height
    ensures var q := Quo(k, m.bpp) - base; var start := (base + r * m.h) * m.bpp; var n := img.width * m.bpp;
            && (r * m.h <= q < r * m.h + img.width <==> start <= k < start + n)
            && img.Offset(m.bpp, r, 0) + (k - start) == img.Offset(m.bpp, r, q - r * m.h) + Rem(k, m.bpp)
  {
    var q := Quo(k, m.bpp) - base;
    PixelWindow(m.bpp, base + r * m.h, img.width, k);
    hide Quo, Rem, Image.Valid;
    OffsetSum(img, m.bpp, r, q - r * m.h);
  }

  lemma OffsetSum(img: Image, bpp: nat, r: int, c: int)
    ensures img.Offset(bpp, r, c) == img.Offset(bpp, r, 0) + c * bpp
  {
  }

  lemma RowCopied(m: Mode, before: seq<byte>, mid: seq<byte>, after: seq<byte>, img: Image, base: nat, r: nat)
    requires m.Valid() && img.Valid(m.bpp) && r < img.height
    requires |before| == |mid| == |after|
    requires RowsShown(m, before, mid, img, base, r)
    requires var start := (base + r * m.h) * m.bpp; var s := img.Offset(m.bpp, r, 0); var n := img.width * m.bpp;
             && 0 <= s && s + n <= |img.bytes|
             && forall k :: 0 <= k < |after| ==>
                  after[k] == if start <= k < start + n then img.bytes[s + (k - start)] else mid[k]
    ensures RowsShown(m, before, after, img, base, r + 1)
  {
    hide Quo, Rem, Image.Valid, Image.Offset, CoveredBy, RowAt;
    forall k | 0 <= k < |after|
      ensures after[k] == RowsByte(m, before, img, k, Quo(k, m.bpp) - base, r + 1)
    {
      var q := Quo(k, m.bpp) - base;
      RowByte(m, img, base, r, k);
      LastRow(m, img, r, q);
      assert mid[k] == RowsByte(m, before, img, k, q, r);
    }
  }

  /** The body of the loop of `draw_img`: one `memcpy`. */
  method DrawImgRow(m: Mode, mem: array<byte>, img: Image, x: u16, y: u16, r: nat, ghost before: seq<byte>)
    requires m.Valid() && mem.Length == m.Size() == |before| && img.Valid(m.bpp)
    requires r < img.height && Fits(m, img, x, y)
    requires 0 <= m.Index(x, y) && RowsShown(m, before, mem[..], img, m.Index(x, y), r)
    modifies mem
    ensures RowsShown(m, before, mem[..], img, m.Index(x, y), r + 1)
  {
    hide Mode.Size, Mode.Pixels, Mode.Index, Fits, Image.Valid, Image.Offset, RowsShown, Quo, Rem;
    ghost var mid := mem[..];
    RowSafe(m, img, x, y, r);
    var numBytes := img.width * m.bpp;
    var from := img.Offset(m.bpp, r, 0);
    var at := ((y + r) * m.h + x) * m.bpp;
    CopyBytes(mem, at, img.bytes[from..from + numBytes]);
    RowCopied(m, before, mid, mem[..], img, m.Index(x, y), r);
  }

  /** The row copies, for images of any width: where rows overlap, the later one
      stays. */
  method DrawImg(m: Mode, mem: array<byte>, img: Image, x: u16, y: u16)
    requires m.Valid() && mem.Length == m.Size() && img.Valid(m.bpp)
    requires Fits(m, img, x, y)
    modifies mem
    ensures mem[..] == Blit(m, old(mem[..]), img, x, y)
  {
    ghost var base: nat := m.Index(x, y);
    ghost var before := mem[..];
    NoneShown(m, before, img, base);
    hide Mode.Size, Mode.Pixels, Mode.Index, Fits, Image.Valid, RowsShown, Blit, Quo, Rem;
    for r := 0 to img.height
      invariant RowsShown(m, before, mem[..], img, base, r)
    {
      DrawImgRow(m, mem, img, x, y, r, before);
    }
    AllRows(m, before, mem[..], img, x, y);
  }

  /** Row `r` of a fitting image is read and written inside the buffers. */
  lemma RowSafe(m: Mode, img: Image, x: nat, y: nat, r: nat)
    requires m.Valid() && img.Valid(m.bpp) && r < img.height && Fits(m, img, x, y)
    ensures (y + r) * m.h + x == m.Index(x, y) + r * m.h
    ensures 0 <= img.Offset(m.bpp, r, 0) && img.Offset(m.bpp, r, 0) + img.width * m.bpp <= |img.bytes|
    ensures 0 <= ((y + r) * m.h + x) * m.bpp && ((y + r) * m.h + x) * m.bpp + img.width * m.bpp <= m.Size()
  {
    SourceRowSafe(img, m.bpp, r);
    hide Image.Valid, Image.Offset;
    assert (y + r) * m.h == y * m.h + r * m.h;
    RowEnds(m, y, r, img.height);
    PixelsInside(m.bpp, (y + r) * m.h + x, img.width, m.Pixels());
  }

  lemma SourceRowSafe(img: Image, bpp: nat, r: nat)
    requires img.Valid(bpp) && r < img.height
    ensures 0 <= img.Offset(bpp, r, 0) && img.Offset(bpp, r, 0) + img.width * bpp <= |img.bytes|
  {
    RowFits(r, img.width, img.height);
    PixelsInside(bpp, r * img.width, img.width, img.width * img.height);
  }

  lemma RowFits(r: nat, w: nat, n: nat)
    requires r < n
    ensures 0 <= r * w && r * w + w <= w * n
  {
    MulMono(r + 1, n, w);
    MulMono(0, r, w);
  }

  lemma RowEnds(m: Mode, y: nat, r: nat, n: nat)
    requires r < n
    ensures 0 <= (y + r) * m.h <= (y + n - 1) * m.h
  {
    MulMono(y + r, y + n - 1, m.h);
    MulMono(0, y + r, m.h);
  }

  // The column-by-column blit.

  /** The last of the first `rows` pixels of column `c` that is drawn at index
      `p`, each coordinate truncated to 16 bits; -1 if none is. */
  function LastRowAt(m: Mode, x: int, y: int, c: nat, rows: nat, p: int): (r: int)
    ensures -1 <= r < rows
  {
    if rows == 0 then -1
    else if m.Index(W16(x + c), W16(y + rows - 1)) == p then rows - 1
    else LastRowAt(m, x, y, c, rows - 1, p)
  }

  /** The last of the first `cols` columns with a pixel drawn at index `p`, or
      -1. */
  function LastColumnAt(m: Mode, img: Image, x: int, y: int, cols: nat, p: int): (c: int)
    ensures -1 <= c < cols
    ensures c >= 0 ==> LastRowAt(m, x, y, c, img.height, p) >= 0
  {
    if cols == 0 then -1
    else if LastRowAt(m, x, y, cols - 1, img.height, p) >= 0 then cols - 1
    else LastColumnAt(m, img, x, y, cols - 1, p)
  }

  /** Byte `j` of the image's pixel in row `r`, column `c`. */
  function ImageByte(m: Mode, img: Image, r: int, c: int, j: int): byte
    requires m.Valid() && img.Valid(m.bpp) && 0 <= r < img.height && 0 <= c < img.width && 0 <= j < m.bpp
  {
    SourceInside(m, img, r, c, j);
    img.bytes[img.Offset(m.bpp, r, c) + j]
  }

  /** Byte `k` once `cols` columns are drawn: from the pixel drawn there last. */
  function ColumnsByte(m: Mode, before: seq<byte>, img: Image, x: int, y: int, k: nat, cols: nat): byte
    requires m.Valid() && img.Valid(m.bpp) && k < |before| && cols <= img.width
  {
    var p := Quo(k, m.bpp);
    var c := LastColumnAt(m, img, x, y, cols, p);
    if c < 0 then before[k] else ImageByte(m, img, LastRowAt(m, x, y, c, img.height, p), c, Rem(k, m.bpp))
  }

  /** The frame after drawing `img` pixel by pixel, column after column. */
  function PixelBlit(m: Mode, fb: seq<byte>, img: Image, x: int, y: int): (r: seq<byte>)
    requires m.Valid() && img.Valid(m.bpp)
    ensures |r| == |fb|
  {
    seq(|fb|, k requires 0 <= k < |fb| => ColumnsByte(m, fb, img, x, y, k, img.width))
  }

  /** `cols` whole columns and `rows` pixels of the next one are in place. */
  ghost predicate ColumnsShown(m: Mode, before: seq<byte>, after: seq<byte>, img: Image, x: int, y: int, cols: nat, rows: nat)
    requires m.Valid() && img.Valid(m.bpp) && |before| == |after| && cols <= img.width && rows <= img.height
    requires cols == img.width ==> rows == 0
  {
    forall k :: 0 <= k < |after| ==>
      var r := LastRowAt(m, x, y, cols, rows, Quo(k, m.bpp));
      after[k] == if r >= 0 then ImageByte(m, img, r, cols, Rem(k, m.bpp)) else ColumnsByte(m, before, img, x, y, k, cols)
  }

  lemma PixelShown(m: Mode, before: seq<byte>, mid: seq<byte>, after: seq<byte>, img: Image,
                   x: int, y: int, c: nat, r: nat, color: u32)
    requires m.Valid() && img.Valid(m.bpp) && c < img.width && r < img.height
    requires |before| == |mid| == |after| && ColumnsShown(m, before, mid, img, x, y, c, r)
    requires 0 <= img.Offset(m.bpp, r, c) && img.Offset(m.bpp, r, c) + m.bpp <= |img.bytes|
    requires color == PixelValue(m.bpp, img.bytes, r * img.width + c)
    requires after == Painted(m.bpp, mid, {m.Index(W16(x + c), W16(y + r))}, color)
    ensures r + 1 <= img.height && ColumnsShown(m, before, after, img, x, y, c, r + 1)
  {
    hide Quo, Rem, Image.Valid, Value, ColorByte, ColumnsByte, W16, Mode.Index;
    forall k | 0 <= k < |after|
      ensures var last := LastRowAt(m, x, y, c, r + 1, Quo(k, m.bpp));
              after[k] == if last >= 0 then ImageByte(m, img, last, c, Rem(k, m.bpp))
                          else ColumnsByte(m, before, img, x, y, k, c)
    {
      PixelValueBytes(m.bpp, img.bytes, r * img.width + c, Rem(k, m.bpp));
    }
  }

  lemma ColumnComplete(m: Mode, before: seq<byte>, after: seq<byte>, img: Image, x: int, y: int, c: nat)
    requires m.Valid() && img.Valid(m.bpp) && |before| == |after| && c < img.width
    requires ColumnsShown(m, before, after, img, x, y, c, img.height)
    ensures ColumnsShown(m, before, after, img, x, y, c + 1, 0)
  {
    hide Image.Valid, ImageByte, Quo, Rem, W16, Mode.Index;
  }

  /** Every pixel the blit writes is in video memory. */
  ghost predicate PixelsFit(m: Mode, img: Image, x: int, y: int) {
    forall c, r :: 0 <= c < img.width && 0 <= r < img.height ==> PixelFits(m, x, y, c, r)
  }

  ghost predicate PixelFits(m: Mode, x: int, y: int, c: int, r: int) { m.Index(W16(x + c), W16(y + r)) < m.Pixels() }

  /** The body of the inner loop of `draw_img2`. */
  method DrawImgPixel(m: Mode, mem: array<byte>, img: Image, x: u16, y: u16, c: nat, r: nat, ghost before: seq<byte>)
    requires m.Valid() && mem.Length == m.Size() == |before| && img.Valid(m.bpp)
    requires c < img.width && r < img.height && PixelsFit(m, img, x, y)
    requires ColumnsShown(m, before, mem[..], img, x, y, c, r)
    modifies mem
    ensures ColumnsShown(m, before, mem[..], img, x, y, c, r + 1)
  {
    hide Mode.Size, Mode.Pixels, Mode.Index, Image.Valid, Value, ColumnsShown, Painted, Quo, Rem, W16;
    ghost var mid := mem[..];
    SourceInside(m, img, r, c, m.bpp - 1);
    assert PixelFits(m, x, y, c, r);
    var color := PixelValue(m.bpp, img.bytes, r * img.width + c);
    DrawPixel(m, mem, W16(x + c), W16(y + r), color);
    PixelShown(m, before, mid, mem[..], img, x, y, c, r, color);
  }

  /** The per-pixel, column-by-column blit, for images of any width and
      coordinates that may wrap: where pixels coincide, the one drawn later
      stays. */
  method DrawImg2(m: Mode, mem: array<byte>, img: Image, x: u16, y: u16)
    requires m.Valid() && mem.Length == m.Size() && img.Valid(m.bpp) && PixelsFit(m, img, x, y)
    modifies mem
    ensures mem[..] == PixelBlit(m, old(mem[..]), img, x, y)
  {
    ghost var before := mem[..];
    NoColumns(m, before, img, x, y);
    hide Mode.Size, Mode.Pixels, Mode.Index, Image.Valid, ColumnsShown, PixelBlit, PixelsFit;
    for c := 0 to img.width
      invariant ColumnsShown(m, before, mem[..], img, x, y, c, 0)
    {
      for r := 0 to img.height
        invariant ColumnsShown(m, before, mem[..], img, x, y, c, r)
      {
        DrawImgPixel(m, mem, img, x, y, c, r, before);
      }
      ColumnComplete(m, before, mem[..], img, x, y, c);
    }
    AllColumns(m, before, mem[..], img, x, y);
  }

  lemma NoColumns(m: Mode, before: seq<byte>, img: Image, x: int, y: int)
    requires m.Valid() && img.Valid(m.bpp)
    ensures ColumnsShown(m, before, before, img, x, y, 0, 0)
  {
    hide Image.Valid, ImageByte, Quo, Rem;
  }

  lemma AllColumns(m: Mode, before: seq<byte>, after: seq<byte>, img: Image, x: int, y: int)
    requires m.Valid() && img.Valid(m.bpp) && |before| == |after|
    requires ColumnsShown(m, before, after, img, x, y, img.width, 0)
    ensures after == PixelBlit(m, before, img, x, y)
  {
    hide Image.Valid, ImageByte, ColumnsByte, Quo, Rem;
  }

  // The two blits.

  lemma PixelIs(m: Mode, r: int, c: int, q: int)
    requires m.Valid() && 0 <= c < m.h
    ensures q == r * m.h + c <==> Quo(q, m.h) == r && Rem(q, m.h) == c
  {
    DivWindow(q, m.h, r);
    QuoRem(q, m.h);
    hide Quo, Rem;
  }

  /** Without wrap and within the screen's width, a column meets an index in one
      pixel at most. */
  lemma {:induction false} OwnRow(m: Mode, x: nat, y: nat, c: nat, rows: nat, p: int)
    requires m.Valid() && c < m.h && x + c < 0x1_0000 && y + rows <= 0x1_0000
    ensures var q := p - m.Index(x, y);
            LastRowAt(m, x, y, c, rows, p) == if Rem(q, m.h) == c && 0 <= Quo(q, m.h) < rows then Quo(q, m.h) else -1
  {
    hide Quo, Rem, W16, Mode.Index;
    if rows > 0 {
      OwnRow(m, x, y, c, rows - 1, p);
      OwnPixel(m, x, y, c, rows - 1, p);
    }
  }

  lemma OwnPixel(m: Mode, x: nat, y: nat, c: nat, r: nat, p: int)
    requires m.Valid() && c < m.h && x + c < 0x1_0000 && y + r < 0x1_0000
    ensures var q := p - m.Index(x, y);
            m.Index(W16(x + c), W16(y + r)) == p <==> Rem(q, m.h) == c && Quo(q, m.h) == r
  {
    assert W16(x + c) == x + c && W16(y + r) == y + r;
    PixelIs(m, r, c, p - m.Index(x, y));
    IndexSum(m, x, y, c, r);
    hide Quo, Rem, W16, Mode.Index;
  }

  lemma IndexSum(m: Mode, x: int, y: int, c: int, r: int)
    ensures m.Index(x + c, y + r) == m.Index(x, y) + r * m.h + c
  {
  }

  lemma {:induction false} OwnColumn(m: Mode, img: Image, x: nat, y: nat, cols: nat, p: int)
    requires m.Valid() && cols <= img.width <= m.h && x + img.width <= 0x1_0000 && y + img.height <= 0x1_0000
    ensures var q := p - m.Index(x, y);
            LastColumnAt(m, img, x, y, cols, p) ==
              if Rem(q, m.h) < cols && 0 <= Quo(q, m.h) < img.height then Rem(q, m.h) else -1
  {
    hide Quo, Rem, Mode.Index, W16, LastRowAt;
    if cols > 0 {
      OwnColumn(m, img, x, y, cols - 1, p);
      OwnRow(m, x, y, cols - 1, img.height, p);
    }
  }

  /** The fast blit and the pixel blit leave the same frame, for every image no
      wider than the screen whose coordinates do not wrap. */
  lemma BlitsAgree(m: Mode, fb: seq<byte>, img: Image, x: nat, y: nat)
    requires m.Valid() && img.Valid(m.bpp) && img.width <= m.h
    requires x + img.width <= 0x1_0000 && y + img.height <= 0x1_0000
    ensures PixelBlit(m, fb, img, x, y) == Blit(m, fb, img, x, y)
  {
    hide Quo, Rem, Image.Valid, Mode.Index, RowsByte, LastRowAt, LastColumnAt, Image.Offset;
    forall k | 0 <= k < |fb|
      ensures ColumnsByte(m, fb, img, x, y, k, img.width) == RowsByte(m, fb, img, k, Quo(k, m.bpp) - m.Index(x, y), img.height)
    {
      var p := Quo(k, m.bpp);
      var q := p - m.Index(x, y);
      NarrowByte(m, fb, img, k, q);
      OwnColumn(m, img, x, y, img.width, p);
      QuoNegative(q, m.h);
      if Covered(m, img, q) { OwnRow(m, x, y, Rem(q, m.h), img.height, p); }
    }
  }

  lemma QuoNegative(q: int, d: int)
    requires d > 0
    ensures q < 0 <==> Quo(q, d) < 0
  {
  }

  /** Wider images overlap their own rows, and then the blits need not agree: an
      image two pixels wide on a screen one pixel wide. */
  lemma WideBlitsDiffer()
    ensures var m := Mode(1, 3, 1); var img := Image(2, 2, [10, 20, 30, 40]);
            && m.Valid() && img.Valid(1) && Fits(m, img, 0, 0)
            && PixelBlit(m, [0, 0, 0], img, 0, 0) != Blit(m, [0, 0, 0], img, 0, 0)
  {
    var m := Mode(1, 3, 1);
    var img := Image(2, 2, [10, 20, 30, 40]);
    WideByteByColumn(m, img, [0, 0, 0], 0, 1, 2);
    WideByteByRow(m, img, [0, 0, 0]);
    ByteDecides(m, [0, 0, 0], img, 1);
    hide PixelBlit, Blit, ColumnsByte, RowsByte, Quo;
  }

  lemma ByteDecides(m: Mode, fb: seq<byte>, img: Image, k: nat)
    requires m.Valid() && img.Valid(m.bpp) && m.bpp == 1 && k < |fb|
    requires ColumnsByte(m, fb, img, 0, 0, k, img.width) != RowsByte(m, fb, img, k, k, img.height)
    ensures PixelBlit(m, fb, img, 0, 0) != Blit(m, fb, img, 0, 0)
  {
    assert Quo(k, 1) == k && m.Index(0, 0) == 0;
    hide ColumnsByte, RowsByte, Quo, Mode.Index, Image.Valid;
    assert PixelBlit(m, fb, img, 0, 0)[k] != Blit(m, fb, img, 0, 0)[k];
  }

  lemma WideByteByColumn(m: Mode, img: Image, fb: seq<byte>, o: nat, one: nat, two: nat)
    requires m == Mode(1, 3, 1) && img == Image(2, 2, [10, 20, 30, 40]) && fb == [0, 0, 0] && img.Valid(m.bpp)
    requires o == 0 && one == 1 && two == 2
    ensures ColumnsByte(m, fb, img, o, o, one, two) == 20
  {
    hide LastRowAt, LastColumnAt, Image.Valid, Mode.Valid;
    WideColumn(m, img, o, one, two);
    assert Quo(one, 1) == one && Rem(one, 1) == o && img.Offset(1, o, one) == one;
  }

  lemma WideColumn(m: Mode, img: Image, o: nat, one: nat, two: nat)
    requires m == Mode(1, 3, 1) && img.height == 2 && o == 0 && one == 1 && two == 2
    ensures LastColumnAt(m, img, o, o, two, one) == one && LastRowAt(m, o, o, one, img.height, one) == o
  {
    assert m.Index(W16(o + one), W16(o)) == 1 && m.Index(W16(o + one), W16(o + one)) == 2;
    hide W16, Mode.Index;
    assert LastRowAt(m, o, o, one, one, one) == o;
  }

  lemma WideByteByRow(m: Mode, img: Image, fb: seq<byte>)
    requires m == Mode(1, 3, 1) && img == Image(2, 2, [10, 20, 30, 40]) && fb == [0, 0, 0] && img.Valid(m.bpp)
    ensures RowsByte(m, fb, img, 1, 1, 2) == 30
  {
    assert Quo(1, 1) == 1 && Rem(1, 1) == 0 && img.Offset(1, 1, 0) == 2;
    hide Quo, Rem;
  }

  lemma NoneShown(m: Mode, before: seq<byte>, img: Image, base: nat)
    requires m.Valid() && img.Valid(m.bpp)
    ensures RowsShown(m, before, before, img, base, 0)
  {
    hide Image.Valid, Quo, Rem;
  }

  lemma AllRows(m: Mode, before: seq<byte>, after: seq<byte>, img: Image, x: nat, y: nat)
    requires m.Valid() && img.Valid(m.bpp) && |before| == |after|
    requires RowsShown(m, before, after, img, m.Index(x, y), img.height)
    ensures after == Blit(m, before, img, x, y)
  {
    hide Image.Valid, RowsByte, Mode.Index, Quo, Rem;
  }

  lemma RelativeCell(m: Mode, dx: int, dy: int)
    requires 0 < m.h + dx && dx < m.h
    ensures var q := dy * m.h + dx;
            && (dx >= 0 ==> Quo(q, m.h) == dy && Rem(q, m.h) == dx)
            && (dx < 0 ==> Quo(q, m.h) == dy - 1 && Rem(q, m.h) == dx + m.h)
            && (dy < 0 ==> q < 0) && (dy >= 0 && dx >= 0 ==> q >= 0)
  {
    var q := dy * m.h + dx;
    assert (dy - 1) * m.h == dy * m.h - m.h;
    DivWindow(q, m.h, dy);
    DivWindow(q, m.h, dy - 1);
    hide Quo, Rem;
    if dy < 0 { MulMono(dy, -1, m.h); } else { MulMono(0, dy, m.h); }
  }

  lemma BlitAt(m: Mode, fb: seq<byte>, img: Image, x: nat, y: nat, p: nat, j: nat)
    requires m.Valid() && img.Valid(m.bpp) && |fb| == m.Size() && p < m.Pixels() && j < m.bpp && img.width <= m.h
    ensures var k := p * m.bpp + j; var q := p - m.Index(x, y);
            0 <= k < |fb| && Blit(m, fb, img, x, y)[k] == if Covered(m, img, q) then Source(m, img, q, j) else fb[k]
  {
    hide Mode.Size, Mode.Pixels, Mode.Index, Image.Valid, Quo, Rem, Covered, Source, RowsByte;
    PixelInside(m, p);
    MulMono(0, p, m.bpp);
    DivWindow(p * m.bpp + j, m.bpp, p);
    NarrowByte(m, fb, img, p * m.bpp + j, p - m.Index(x, y));
  }

  /** On the screen a blit shows the image's own pixel inside the rectangle and
      leaves every other pixel alone. */
  lemma BlitPixel(m: Mode, fb: seq<byte>, img: Image, x: nat, y: nat, px: nat, py: nat, j: nat)
    requires m.Valid() && img.Valid(m.bpp) && |fb| == m.Size()
    requires x + img.width <= m.h && x < m.h && px < m.h && py < m.v && j < m.bpp
    ensures var k := (py * m.h + px) * m.bpp + j; var s := ((py - y) * img.width + (px - x)) * m.bpp + j;
            && 0 <= k < |fb|
            && (x <= px < x + img.width && y <= py < y + img.height ==>
                 0 <= s < |img.bytes| && Blit(m, fb, img, x, y)[k] == img.bytes[s])
            && (!(x <= px < x + img.width && y <= py < y + img.height) ==> Blit(m, fb, img, x, y)[k] == fb[k])
  {
    assert m.Index(px, py) == py * m.h + px && img.Offset(m.bpp, py - y, px - x) == ((py - y) * img.width + (px - x)) * m.bpp;
    hide Mode.Size, Mode.Pixels, Mode.Index, Image.Valid, Image.Offset, Quo, Rem, Blit, Covered;
    IndexCoordinates(m, px, py);
    RowInside(m, m.Index(px, py));
    BlitAt(m, fb, img, x, y, m.Index(px, py), j);
    CoveredRect(m, img, x, y, px, py);
    if x <= px < x + img.width && y <= py < y + img.height {
      SourceInside(m, img, py - y, px - x, j);
    }
  }

  /** The byte of a pixel on the screen, and back. */
  lemma PixelByte(m: Mode, px: nat, py: nat, j: nat)
    requires m.Valid() && px < m.h && py < m.v && j < m.bpp
    ensures var p := m.Index(px, py); var k := (py * m.h + px) * m.bpp + j;
            && 0 <= p < m.Pixels() && 0 <= k && k - j + m.bpp <= m.Size()
            && Quo(k, m.bpp) == p && Rem(k, m.bpp) == j && Quo(p, m.h) == py && Rem(p, m.h) == px
  {
    var p := m.Index(px, py);
    assert p == py * m.h + px;
    hide Mode.Size, Mode.Pixels, Mode.Index, Quo, Rem;
    IndexCoordinates(m, px, py);
    RowInside(m, p);
    PixelInside(m, p);
    MulMono(0, p, m.bpp);
    DivWindow(p * m.bpp + j, m.bpp, p);
  }

  /** What painting a rectangle on the screen shows, pixel by pixel. */
  lemma PaintedPixel(m: Mode, fb: seq<byte>, x: nat, y: nat, w: nat, n: nat, c: u32, px: nat, py: nat, j: nat)
    requires m.Valid() && |fb| == m.Size() && x + w <= m.h && y + n <= m.v && px < m.h && py < m.v && j < m.bpp
    ensures var k := (py * m.h + px) * m.bpp + j;
            && 0 <= k < |fb|
            && Painted(m.bpp, fb, RectPixels(m, x, y, w, n), c)[k] ==
                 if x <= px < x + w && y <= py < y + n then ColorByte(c, j) else fb[k]
  {
    hide Mode.Size, Mode.Pixels, Mode.Index, Quo, Rem, RectPixels, ColorByte;
    PixelByte(m, px, py, j);
    RectExtent(m, x, y, w, n, m.Index(px, py));
  }

  lemma CoveredRect(m: Mode, img: Image, x: nat, y: nat, px: nat, py: nat)
    requires m.Valid() && x + img.width <= m.h && x < m.h && px < m.h
    ensures var q := m.Index(px, py) - m.Index(x, y);
            && (Covered(m, img, q) <==> x <= px < x + img.width && y <= py < y + img.height)
            && (Covered(m, img, q) ==> Quo(q, m.h) == py - y && Rem(q, m.h) == px - x)
  {
    assert m.Index(px, py) - m.Index(x, y) == (py - y) * m.h + (px - x);
    RelativeCell(m, px - x, py - y);
    hide Mode.Index, Quo, Rem;
  }
}
