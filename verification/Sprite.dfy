/** `xpm_drawer` and `xpm_move` of lab 5 on the framebuffer. */
module Sprite {
  import opened Words
  import opened Raster
  import opened Pattern
  import opened Motion
  import opened Console
  import opened Idle

  /** A one-byte-per-pixel image placed with its corner at `(x, y)` covers
      pixel `(px, py)`. */
  predicate Covers(img: Image, x: int, y: int, px: int, py: int) {
    x <= px < x + img.width && y <= py < y + img.height
  }

  function Ink(img: Image, c: int, r: int): byte
    requires img.Valid(1) && 0 <= c < img.width && 0 <= r < img.height
  {
    CellInside(r, c, img.width, img.height);
    img.bytes[r * img.width + c]
  }

  ghost predicate OnScreen(m: Mode, img: Image, x: int, y: int) {
    0 <= x && x + img.width <= m.h && 0 <= y && y + img.height <= m.v
  }

  /** What byte `j` of pixel `(px, py)` shows when the image's pixels before
      (row, col) have been drawn over `was`. */
  ghost function InkByte(img: Image, was: byte, x: int, y: int, px: int, py: int, j: int, row: nat, col: nat): byte
    requires img.Valid(1)
  {
    if Covers(img, x, y, px, py) && Earlier(py - y, px - x, row, col)
    then ColorByte(Ink(img, px - x, py - y), j) else was
  }

  ghost predicate Inked(m: Mode, img: Image, before: seq<byte>, after: seq<byte>, x: int, y: int, row: nat, col: nat)
    requires m.Valid() && img.Valid(1) && |before| == |after|
  {
    forall k :: 0 <= k < |after| ==>
      var p := Quo(k, m.bpp);
      after[k] == InkByte(img, before[k], x, y, Rem(p, m.h), Quo(p, m.h), Rem(k, m.bpp), row, col)
  }

  /** The frame with the sprite drawn. */
  ghost function Stamp(m: Mode, fb: seq<byte>, img: Image, x: int, y: int): (r: seq<byte>)
    requires m.Valid() && img.Valid(1)
    ensures |r| == |fb|
  {
    seq(|fb|, k requires 0 <= k < |fb| =>
      var p := Quo(k, m.bpp);
      InkByte(img, fb[k], x, y, Rem(p, m.h), Quo(p, m.h), Rem(k, m.bpp), img.height, 0))
  }

  lemma PixelInked(m: Mode, img: Image, before: seq<byte>, mid: seq<byte>, after: seq<byte>,
                   x: nat, y: nat, row: nat, col: nat)
    requires m.Valid() && img.Valid(1) && OnScreen(m, img, x, y) && row < img.height && col < img.width
    requires |before| == |mid| == |after| && Inked(m, img, before, mid, x, y, row, col)
    requires after == Painted(m.bpp, mid, Span(m, x + col, y + row, 1), Ink(img, col, row))
    ensures Inked(m, img, before, after, x, y, row, col + 1)
  {
    hide Quo, Rem, Span, ColorByte, Ink, Image.Valid;
    forall k | 0 <= k < |after|
      ensures var p := Quo(k, m.bpp);
              after[k] == InkByte(img, before[k], x, y, Rem(p, m.h), Quo(p, m.h), Rem(k, m.bpp), row, col + 1)
    {
      var p := Quo(k, m.bpp);
      SpanExtent(m, x + col, y + row, 1, p);
      assert mid[k] == InkByte(img, before[k], x, y, Rem(p, m.h), Quo(p, m.h), Rem(k, m.bpp), row, col);
      assert after[k] == if p in Span(m, x + col, y + row, 1) then ColorByte(Ink(img, col, row), Rem(k, m.bpp)) else mid[k];
    }
  }

  lemma RowInked(m: Mode, img: Image, before: seq<byte>, after: seq<byte>, x: nat, y: nat, row: nat)
    requires m.Valid() && img.Valid(1) && |before| == |after|
    requires Inked(m, img, before, after, x, y, row, img.width)
    ensures Inked(m, img, before, after, x, y, row + 1, 0)
  {
    hide Quo, Rem, ColorByte, Ink, Image.Valid;
    forall k | 0 <= k < |after|
      ensures var p := Quo(k, m.bpp);
              after[k] == InkByte(img, before[k], x, y, Rem(p, m.h), Quo(p, m.h), Rem(k, m.bpp), row + 1, 0)
    {
      var p := Quo(k, m.bpp);
      assert after[k] == InkByte(img, before[k], x, y, Rem(p, m.h), Quo(p, m.h), Rem(k, m.bpp), row, img.width);
    }
  }

  lemma NothingInked(m: Mode, img: Image, before: seq<byte>, x: nat, y: nat)
    requires m.Valid() && img.Valid(1)
    ensures Inked(m, img, before, before, x, y, 0, 0)
  {
    hide Quo, Rem, ColorByte, Ink, Image.Valid;
  }

  lemma AllInked(m: Mode, img: Image, before: seq<byte>, after: seq<byte>, x: nat, y: nat)
    requires m.Valid() && img.Valid(1) && |before| == |after|
    requires Inked(m, img, before, after, x, y, img.height, 0)
    ensures after == Stamp(m, before, img, x, y)
  {
    hide Quo, Rem, InkByte, Image.Valid;
  }

  /** The body of the inner loop of `xpm_drawer`: a line of one pixel. */
  method InkPixel(m: Mode, mem: array<byte>, img: Image, x: u16, y: u16, row: nat, col: nat, ghost before: seq<byte>)
    requires m.Valid() && img.Valid(1) && OnScreen(m, img, x, y) && row < img.height && col < img.width
    requires mem.Length == m.Size() == |before| && Inked(m, img, before, mem[..], x, y, row, col)
    modifies mem
    ensures Inked(m, img, before, mem[..], x, y, row, col + 1)
  {
    hide Mode.Size, Mode.Pixels, Mode.Index, Inked, Quo, Rem, Span, Image.Valid;
    ghost var mid := mem[..];
    CellInside(row, col, img.width, img.height);
    SpanInside(m, x + col, y + row);
    Hline(m, mem, W16(x + col), W16(y + row), 1, Ink(img, col, row));
    PixelInked(m, img, before, mid, mem[..], x, y, row, col);
  }

  lemma SpanInside(m: Mode, x: nat, y: nat)
    requires m.Valid() && x < m.h && y < m.v
    ensures Inside(m, Span(m, x, y, 1))
  {
    hide Mode.Index, Mode.Pixels, Quo, Rem, Span;
    forall p | p in Span(m, x, y, 1)
      ensures 0 <= p < m.Pixels()
    {
      SpanExtent(m, x, y, 1, p);
      RowInside(m, p);
    }
  }

  method XpmDrawer(m: Mode, mem: array<byte>, img: Image, x: u16, y: u16)
    requires m.Valid() && img.Valid(1) && OnScreen(m, img, x, y) && mem.Length == m.Size()
    modifies mem
    ensures mem[..] == Stamp(m, old(mem[..]), img, x, y)
  {
    hide Mode.Size, Inked, Image.Valid, OnScreen, Stamp;
    ghost var before := mem[..];
    NothingInked(m, img, before, x, y);
    for row := 0 to img.height
      invariant Inked(m, img, before, mem[..], x, y, row, 0)
    {
      for col := 0 to img.width
        invariant Inked(m, img, before, mem[..], x, y, row, col)
      {
        InkPixel(m, mem, img, x, y, row, col, before);
      }
      RowInked(m, img, before, mem[..], x, y, row);
    }
    AllInked(m, img, before, mem[..], x, y);
  }

  /** The sprite, pixel by pixel: inside the rectangle the image's own byte, in
      row-major order, as the low byte of the colour and zero above it; every
      other pixel is unchanged. */
  lemma SpritePixel(m: Mode, fb: seq<byte>, img: Image, x: nat, y: nat, px: nat, py: nat, j: nat)
    requires m.Valid() && img.Valid(1) && |fb| == m.Size() && px < m.h && py < m.v && j < m.bpp
    ensures var k := (py * m.h + px) * m.bpp + j; var s := (py - y) * img.width + (px - x);
            && 0 <= k < |fb|
            && (x <= px < x + img.width && y <= py < y + img.height ==>
                 0 <= s < |img.bytes| && Stamp(m, fb, img, x, y)[k] == if j == 0 then img.bytes[s] else 0)
            && (!(x <= px < x + img.width && y <= py < y + img.height) ==> Stamp(m, fb, img, x, y)[k] == fb[k])
  {
    hide Mode.Size, Mode.Pixels, Mode.Index, Quo, Rem;
    PixelByte(m, px, py, j);
    if x <= px < x + img.width && y <= py < y + img.height {
      CellInside(py - y, px - x, img.width, img.height);
    }
  }

  function Black(m: Mode): seq<byte> { seq(m.Size(), _ => 0) }

  /** Erasing the sprite's rectangle undoes drawing it on a black screen. */
  lemma EraseUndoes(m: Mode, img: Image, x: nat, y: nat)
    requires m.Valid() && img.Valid(1) && OnScreen(m, img, x, y)
    ensures Painted(m.bpp, Stamp(m, Black(m), img, x, y), Area(m, x, y, img.width, img.height), 0) == Black(m)
  {
    var fb := Stamp(m, Black(m), img, x, y);
    var after := Painted(m.bpp, fb, Area(m, x, y, img.width, img.height), 0);
    assert forall j :: ColorByte(0, j) == 0;
    hide Mode.Size, Quo, Rem, Ink, Area, Image.Valid, ColorByte;
    forall k | 0 <= k < |after|
      ensures after[k] == 0
    {
      var p := Quo(k, m.bpp);
      AreaExtent(m, x, y, img.width, img.height, p);
      if p in Area(m, x, y, img.width, img.height) {
        assert after[k] == ColorByte(0, Rem(k, m.bpp));
      } else {
        assert after[k] == fb[k];
      }
    }
  }

  /** The frame after erasing the sprite's rectangle at one place and drawing the
      sprite at another. */
  ghost function Moved(m: Mode, fb: seq<byte>, img: Image, px: int, py: int, x: int, y: int): (r: seq<byte>)
    requires m.Valid() && img.Valid(1)
    ensures |r| == |fb|
  {
    Stamp(m, Painted(m.bpp, fb, Area(m, px, py, img.width, img.height), 0), img, x, y)
  }

  /** Erase at the old place, draw at the new one. */
  method Redraw(m: Mode, mem: array<byte>, img: Image, px: u16, py: u16, x: u16, y: u16)
    requires m.Valid() && img.Valid(1) && mem.Length == m.Size()
    requires OnScreen(m, img, px, py) && OnScreen(m, img, x, y)
    modifies mem
    ensures mem[..] == Moved(m, old(mem[..]), img, px, py, x, y)
  {
    AreaInside(m, px, py, img.width, img.height);
    hide Mode.Size, Stamp, Painted, Area, Image.Valid;
    Rectangle(m, mem, px, py, img.width, img.height, 0);
    XpmDrawer(m, mem, img, x, y);
  }

  // --------------------------------------------------------------- animation

  /** The arguments of `xpm_move` and the globals it starts from. */
  datatype Flight = Flight(xi: u16, yi: u16, xf: u16, yf: u16, speed: nat, rate: byte, total: nat, scan: byte) {
    /** `60 / fr_rate`. */
    function Frames(): (n: nat)
      requires 1 <= rate <= 60
      ensures n > 0
    {
      Quo(60, rate)
    }

    predicate Horizontal() { yi == yf }

    function Start(): nat { if Horizontal() then xi else yi }

    function Target(): nat { if Horizontal() then xf else yf }

    function X(pos: nat): nat { if Horizontal() then pos else xi }

    function Y(pos: nat): nat { if Horizontal() then yi else pos }

    /** The motion after `n` ticks. */
    function State(n: nat): Motion
      requires 1 <= rate <= 60
    {
      After(Motion(Start(), Start(), total), Target(), speed, Frames(), n)
    }
  }

  ghost predicate Ready(m: Mode, img: Image, f: Flight) {
    && m.Valid() && img.Valid(1) && 1 <= f.rate <= 60
    && OnScreen(m, img, f.xi, f.yi)
    && (f.Start() < f.Target() ==> OnScreen(m, img, f.X(f.Target()), f.Y(f.Target())))
  }

  /** The last scan code accepted.  A tick that cuts the last step short leaves
      the notification at once, so its keyboard bit is not served. */
  function Heard(f: Flight, es: seq<Notice>): byte
    requires 1 <= f.rate <= 60
  {
    if es == [] then f.scan
    else
      var e := Last(es);
      var cut := e.timer && f.State(TickCount(Init(es))).pos + f.speed > f.Target();
      if !cut && e.device.Some? && KeyStatusOk(e.device.value.status) then e.device.value.data
      else Heard(f, Init(es))
  }

  /** The last scan code accepted, outright: the code of the latest notification
      whose keyboard status is good and whose tick, if it has one, did not cut the
      step short; before any such, the code the animation started with. */
  lemma {:induction false} HeardIs(f: Flight, es: seq<Notice>, i: nat)
    requires 1 <= f.rate <= 60 && i <= |es|
    requires forall k :: i <= k < |es| ==> !Serves(f, es, k)
    ensures i == 0 ==> Heard(f, es) == f.scan
    ensures i > 0 && Serves(f, es, i - 1) ==> Heard(f, es) == es[i - 1].device.value.data
    decreases |es|
  {
    hide Flight.State, Serves, Heard;
    if es == [] {
      NothingHeard(f);
    } else {
      var n := |es| - 1;
      ServesHere(f, es);
      if i <= n {
        forall k | i <= k < n
          ensures !Serves(f, Init(es), k)
        {
          PrefixServes(f, es, k);
        }
        assert !Serves(f, es, n);
        HeardIs(f, Init(es), i);
        if i > 0 { PrefixServes(f, es, i - 1); }
      }
    }
  }

  lemma NothingHeard(f: Flight)
    requires 1 <= f.rate <= 60
    ensures Heard(f, []) == f.scan
  {
  }

  /** Notification `k` reaches the keyboard handler with a good status. */
  predicate Serves(f: Flight, es: seq<Notice>, k: nat)
    requires 1 <= f.rate <= 60 && k < |es|
  {
    var e := es[k];
    && e.device.Some? && e.device.value.status % 2 == 1 && e.device.value.status < 32
    && !(e.timer && f.State(TickCount(es[..k])).pos + f.speed > f.Target())
  }

  lemma ServesHere(f: Flight, es: seq<Notice>)
    requires 1 <= f.rate <= 60 && es != []
    ensures Heard(f, es) == if Serves(f, es, |es| - 1) then Last(es).device.value.data else Heard(f, Init(es))
  {
    if Last(es).device.Some? { StatusFilters(Last(es).device.value.status); }
    hide Flight.State, KeyStatusOk;
  }

  lemma PrefixServes(f: Flight, es: seq<Notice>, k: nat)
    requires 1 <= f.rate <= 60 && k < |es| - 1
    ensures Serves(f, Init(es), k) <==> Serves(f, es, k)
  {
    assert Init(es)[..k] == es[..k];
    hide Flight.State;
  }

  /** Tick `n` redraws the sprite: it cuts the last step short, or falls on a
      frame. */
  predicate Redrawn(f: Flight, n: nat)
    requires 1 <= f.rate <= 60 && n > 0
  {
    f.State(n - 1).pos + f.speed > f.Target() || Rem(f.State(n).total, f.Frames()) == 0
  }

  /** The screen after `n` ticks, from whatever it showed before. */
  ghost function Shown(m: Mode, img: Image, f: Flight, before: seq<byte>, n: nat): (r: seq<byte>)
    requires m.Valid() && img.Valid(1) && 1 <= f.rate <= 60
    ensures |r| == |before|
  {
    if n == 0 then Stamp(m, before, img, f.xi, f.yi)
    else
      var fb := Shown(m, img, f, before, n - 1);
      var a, b := f.State(n - 1).drawn, f.State(n).drawn;
      if Redrawn(f, n) then Moved(m, fb, img, f.X(a), f.Y(a), f.X(b), f.Y(b)) else fb
  }

  /** After `n` ticks: the coordinates are those of the motion, the screen is
      `Shown`, and until the target is reached the place where the sprite was last
      drawn is remembered. */
  ghost predicate Flying(m: Mode, img: Image, f: Flight, before: seq<byte>, fb: seq<byte>, n: nat,
                         x: u16, y: u16, prevX: u16, prevY: u16, total: nat)
    requires Ready(m, img, f)
  {
    var a := f.State(n);
    && x == f.X(a.pos) && y == f.Y(a.pos) && total == a.total
    && f.Start() <= a.drawn <= a.pos && (a.pos <= f.Target() || f.Start() >= f.Target())
    && (a.pos < f.Target() ==> prevX == f.X(a.drawn) && prevY == f.Y(a.drawn))
    && fb == Shown(m, img, f, before, n)
  }

  /** The timer branch. */
  method ServeTick(m: Mode, mem: array<byte>, img: Image, f: Flight, ghost start: seq<byte>, ghost n: nat,
                   xi: u16, yi: u16, px: u16, py: u16, total: nat)
    returns (x: u16, y: u16, prevX: u16, prevY: u16, clamped: bool)
    requires Ready(m, img, f) && mem.Length == m.Size() && f.State(n).pos < f.Target()
    requires Flying(m, img, f, start, mem[..], n, xi, yi, px, py, total)
    modifies mem
    ensures Flying(m, img, f, start, mem[..], n + 1, x, y, prevX, prevY, total + 1)
    ensures clamped <==> f.State(n).pos + f.speed > f.Target()
  {
    hide Mode.Size, Moved, Stamp, Image.Valid, Rem, Quo, Flight.Frames;
    x, y, prevX, prevY, clamped := xi, yi, px, py, false;
    ghost var a := f.State(n);
    assert f.State(n + 1) == Advance(a, f.Target(), f.speed, f.Frames());
    if f.Horizontal() {
      if x + f.speed > f.xf {
        x := f.xf;
        clamped := true;
      } else {
        x := x + f.speed;
      }
    } else {
      if y + f.speed > f.yf {
        y := f.yf;
        clamped := true;
      } else {
        y := y + f.speed;
      }
    }
    if clamped {
      Redraw(m, mem, img, prevX, prevY, x, y);
    } else if Rem(total + 1, f.Frames()) == 0 {
      Redraw(m, mem, img, prevX, prevY, x, y);
      prevX, prevY := x, y;
    }
  }

  /** One notification: the timer bit, then the keyboard bit unless the step was
      cut short. */
  method ServeNotice(m: Mode, mem: array<byte>, img: Image, f: Flight, ghost start: seq<byte>, ghost n: nat, e: Notice,
                     xi: u16, yi: u16, px: u16, py: u16, before: nat, last: byte)
    returns (x: u16, y: u16, prevX: u16, prevY: u16, total: nat, scan: byte)
    requires Ready(m, img, f) && mem.Length == m.Size() && f.State(n).pos < f.Target()
    requires Flying(m, img, f, start, mem[..], n, xi, yi, px, py, before)
    modifies mem
    ensures Flying(m, img, f, start, mem[..], n + One(e.timer), x, y, prevX, prevY, total)
    ensures var cut := e.timer && f.State(n).pos + f.speed > f.Target();
            scan == if !cut && e.device.Some? && KeyStatusOk(e.device.value.status) then e.device.value.data else last
  {
    hide Mode.Size, Shown, Image.Valid, KeyStatusOk, Rem, Quo, Flight.Frames, Flight.State, After, Flying, Ready;
    x, y, prevX, prevY, total, scan := xi, yi, px, py, before, last;
    var clamped := false;
    if e.timer {
      x, y, prevX, prevY, clamped := ServeTick(m, mem, img, f, start, n, x, y, prevX, prevY, total);
      total := total + 1;
    }
    if !clamped && e.device.Some? && KeyStatusOk(e.device.value.status) {
      scan := e.device.value.data;
    }
  }

  /** The loop of `xpm_move` over what is received.  It ends exactly at the first
      notification after which Esc is the last scan code or the target is
      reached; `ticks` timer interrupts have been served by then. */
  method XpmMove(m: Mode, mem: array<byte>, img: Image, f: Flight, es: seq<Notice>)
    returns (x: u16, y: u16, used: nat, ticks: nat, escaped: bool)
    requires Ready(m, img, f) && mem.Length == m.Size()
    modifies mem
    ensures used <= |es| && ticks == TickCount(es[..used])
    ensures ticks > 0 ==> f.State(ticks - 1).pos < f.Target()
    ensures f.yi == f.yf ==> x == f.State(ticks).pos && y == f.yi
    ensures f.yi != f.yf ==> x == f.xi && y == f.State(ticks).pos
    ensures mem[..] == Shown(m, img, f, old(mem[..]), ticks)
    ensures used == |es| || escaped || (if f.yi == f.yf then x >= f.xf else y >= f.yf)
    ensures escaped <==> Heard(f, es[..used]) == 0x81
    ensures forall j :: 0 <= j < used ==>
              Heard(f, es[..j]) != 0x81 && f.State(TickCount(es[..j])).pos < f.Target()
  {
    hide Mode.Size, Stamp, Image.Valid, Shown, KeyStatusOk, Flight.State, Heard, TickCount, Flying;
    ghost var start := mem[..];
    x, y, used, ticks := f.xi, f.yi, 0, 0;
    var prevX, prevY, total, scan := x, y, f.total, f.scan;
    XpmDrawer(m, mem, img, x, y);
    Takeoff(m, img, f, start);
    assert es[..0] == [];
    while scan != ESC_BREAK && !(f.Horizontal() && x >= f.xf) && !(!f.Horizontal() && y >= f.yf) && used < |es|
      invariant used <= |es| && ticks == TickCount(es[..used])
      invariant ticks > 0 ==> f.State(ticks - 1).pos < f.Target()
      invariant Flying(m, img, f, start, mem[..], ticks, x, y, prevX, prevY, total)
      invariant scan == Heard(f, es[..used])
      invariant forall j :: 0 <= j < used ==>
                  Heard(f, es[..j]) != ESC_BREAK && f.State(TickCount(es[..j])).pos < f.Target()
      decreases |es| - used
    {
      Airborne(m, img, f, start, mem[..], ticks, x, y, prevX, prevY, total);
      Received(f, es, used);
      x, y, prevX, prevY, total, scan := ServeNotice(m, mem, img, f, start, ticks, es[used], x, y, prevX, prevY, total, scan);
      if es[used].timer { ticks := ticks + 1; }
      used := used + 1;
    }
    escaped := scan == ESC_BREAK;
    Airborne(m, img, f, start, mem[..], ticks, x, y, prevX, prevY, total);
  }

  lemma Takeoff(m: Mode, img: Image, f: Flight, start: seq<byte>)
    requires Ready(m, img, f)
    ensures Flying(m, img, f, start, Stamp(m, start, img, f.xi, f.yi), 0, f.xi, f.yi, f.xi, f.yi, f.total)
    ensures TickCount([]) == 0 && Heard(f, []) == f.scan
  {
    assert f.State(0) == Motion(f.Start(), f.Start(), f.total);
    hide Stamp, Image.Valid, Mode.Size, After, Flight.Frames, Moved;
  }

  /** What the loop can tell of the motion from its variables. */
  lemma Airborne(m: Mode, img: Image, f: Flight, start: seq<byte>, fb: seq<byte>, n: nat, x: u16, y: u16, px: u16, py: u16, total: nat)
    requires Ready(m, img, f) && Flying(m, img, f, start, fb, n, x, y, px, py, total)
    ensures var a := f.State(n);
            && x == f.X(a.pos) && y == f.Y(a.pos)
            && (a.pos >= f.Target() <==> (f.Horizontal() && x >= f.xf) || (!f.Horizontal() && y >= f.yf))
            && fb == Shown(m, img, f, start, n)
  {
    hide Shown, Image.Valid, Mode.Size, Flight.State;
  }

  lemma Received(f: Flight, es: seq<Notice>, used: nat)
    requires 1 <= f.rate <= 60 && used < |es|
    ensures var e := es[used]; var n := TickCount(es[..used]);
            && TickCount(es[..used + 1]) == n + One(e.timer)
            && var cut := e.timer && f.State(n).pos + f.speed > f.Target();
               Heard(f, es[..used + 1]) ==
                 if !cut && e.device.Some? && KeyStatusOk(e.device.value.status) then e.device.value.data
                 else Heard(f, es[..used])
  {
    assert Init(es[..used + 1]) == es[..used] && Last(es[..used + 1]) == es[used];
    hide Flight.State, KeyStatusOk;
  }

  /** While the animation runs, the sprite and its last drawing are between the
      start and the target. */
  lemma {:induction false} InFlight(f: Flight, n: nat)
    requires 1 <= f.rate <= 60 && (n == 0 || f.Start() < f.Target())
    ensures var a := f.State(n); f.Start() <= a.drawn <= a.pos && (a.pos <= f.Target() || n == 0)
  {
    hide Rem, Quo, Flight.Frames;
    if n > 0 { InFlight(f, n - 1); }
  }

  lemma DrawnOnScreen(m: Mode, img: Image, f: Flight, n: nat)
    requires Ready(m, img, f) && (n == 0 || f.Start() < f.Target())
    ensures var d := f.State(n).drawn; OnScreen(m, img, f.X(d), f.Y(d))
  {
    InFlight(f, n);
    assert f.State(0) == Motion(f.Start(), f.Start(), f.total);
    hide After, Flight.Frames, Image.Valid;
  }

  /** A tick redraws the sprite where it is if it cuts the last step short or the
      interrupt count falls on a frame; any other leaves the last drawing. */
  lemma DrawnStep(f: Flight, n: nat)
    requires 1 <= f.rate <= 60 && n > 0
    ensures var target: nat := if f.yi == f.yf then f.xf else f.yf; var a := f.State(n - 1);
            && (Redrawn(f, n) <==> a.pos + f.speed > target || (f.total + n) % (60 / f.rate) == 0)
            && f.State(n).drawn == if Redrawn(f, n) then f.State(n).pos else a.drawn
  {
    assert f.Frames() == 60 / f.rate;
    Counted(f, n);
    assert Rem(f.total + n, f.Frames()) == (f.total + n) % f.Frames();
    hide Rem, Quo, Flight.Frames;
  }

  lemma {:induction false} Counted(f: Flight, n: nat)
    requires 1 <= f.rate <= 60
    ensures f.State(n).total == f.total + n
  {
    hide Rem, Quo, Flight.Frames;
    if n > 0 { Counted(f, n - 1); }
  }

  /** On a black screen: nothing but one sprite, where it was last drawn, on the
      row of the start or on its column. */
  lemma {:induction false} BlackScreen(m: Mode, img: Image, f: Flight, n: nat)
    requires Ready(m, img, f) && (n == 0 || f.Start() < f.Target())
    ensures var d := f.State(n).drawn;
            Shown(m, img, f, Black(m), n) ==
              Stamp(m, Black(m), img, if f.yi == f.yf then d else f.xi, if f.yi == f.yf then f.yi else d)
  {
    hide Mode.Size, Stamp, Painted, Area, Black, Image.Valid, After, Flight.Frames, OnScreen;
    if n == 0 {
      assert f.State(0) == Motion(f.Start(), f.Start(), f.total) by { NoTicks(f); }
    } else {
      BlackScreen(m, img, f, n - 1);
      DrawnStep(f, n);
      DrawnOnScreen(m, img, f, n - 1);
      var d := f.State(n - 1).drawn;
      EraseUndoes(m, img, f.X(d), f.Y(d));
    }
  }

  lemma NoTicks(f: Flight)
    requires 1 <= f.rate <= 60
    ensures f.State(0) == Motion(f.Start(), f.Start(), f.total)
  {
  }

  /** The strip of pixels the sprite has been drawn over, up to position `d`. */
  predicate InStrip(img: Image, f: Flight, d: nat, px: int, py: int) {
    && f.X(f.Start()) <= px < f.X(d) + img.width && f.Y(f.Start()) <= py < f.Y(d) + img.height
  }

  /** On any screen: no pixel outside the strip flown over is touched. */
  lemma {:induction false} OutsideStrip(m: Mode, img: Image, f: Flight, before: seq<byte>, n: nat, k: nat)
    requires Ready(m, img, f) && (n == 0 || f.Start() < f.Target()) && k < |before|
    requires var p := Quo(k, m.bpp); !InStrip(img, f, f.State(n).drawn, Rem(p, m.h), Quo(p, m.h))
    ensures Shown(m, img, f, before, n)[k] == before[k]
  {
    hide Mode.Size, Image.Valid, After, Flight.Frames, Area, Ink, ColorByte, Quo, Rem;
    var p := Quo(k, m.bpp);
    if n == 0 {
      NoTicks(f);
    } else {
      InFlight(f, n);
      InFlight(f, n - 1);
      DrawnStep(f, n);
      var a, b := f.State(n - 1), f.State(n);
      StripGrows(f, n);
      OutsideStrip(m, img, f, before, n - 1, k);
      DrawnOnScreen(m, img, f, n - 1);
      AreaExtent(m, f.X(a.drawn), f.Y(a.drawn), img.width, img.height, p);
    }
  }

  lemma StripGrows(f: Flight, n: nat)
    requires 1 <= f.rate <= 60 && n > 0 && f.Start() < f.Target()
    ensures f.State(n - 1).drawn <= f.State(n).drawn
  {
    InFlight(f, n - 1);
    hide Rem, Quo, Flight.Frames;
  }

  /** Whenever the loop may be left, along the row if the rows agree and along the
      column otherwise: the sprite is at the last step it should have reached and
      no further, and the one on the screen lags behind it by at most one frame's
      worth of steps less one. */
  lemma FlightLaw(f: Flight, ticks: nat)
    requires 1 <= f.rate <= 60 && f.speed > 0
    requires if f.yi == f.yf then f.xi < f.xf else f.yi < f.yf
    requires ticks > 0 ==> f.State(ticks - 1).pos < f.Target()
    ensures var a := f.State(ticks); var start, target: nat := if f.yi == f.yf then f.xi else f.yi, if f.yi == f.yf then f.xf else f.yf;
            && (ticks > 0 ==> start + (ticks - 1) * f.speed < target)
            && a.pos == Min(start + ticks * f.speed, target)
            && a.drawn <= a.pos <= a.drawn + f.speed * (60 / f.rate - 1)
  {
    assert f.Frames() == 60 / f.rate;
    hide After, Rem, Quo, StepsTo, Flight.Frames;
    var dist := f.Target() - f.Start();
    var need := StepsTo(dist, f.speed);
    AnimationLaw(f.Start(), f.total, f.Target(), f.speed, f.Frames(), need);
    if ticks > need {
      NeverBack(f, need, ticks - 1);
    }
    AnimationLaw(f.Start(), f.total, f.Target(), f.speed, f.Frames(), ticks);
    if ticks > 0 { StepsToLaw(dist, f.speed, ticks - 1); }
  }

  /** What the animation leaves when nobody presses Esc and enough is received:
      it has taken exactly the least number of ticks that cover the distance, and
      the sprite is drawn at the target unless the last step was a whole one that
      did not fall on a frame. */
  lemma AnimationEnds(f: Flight, ticks: nat)
    requires 1 <= f.rate <= 60 && f.speed > 0
    requires if f.yi == f.yf then f.xi < f.xf else f.yi < f.yf
    requires f.State(ticks).pos >= f.Target() && (ticks > 0 ==> f.State(ticks - 1).pos < f.Target())
    ensures var start, target: nat := if f.yi == f.yf then f.xi else f.yi, if f.yi == f.yf then f.xf else f.yf;
            && ticks == (target - start + f.speed - 1) / f.speed
            && f.State(ticks).pos == target
            && (f.State(ticks).drawn == target <==>
                 start + ticks * f.speed != target || (f.total + ticks) % (60 / f.rate) == 0)
  {
    assert f.Frames() == 60 / f.rate;
    var dist := f.Target() - f.Start();
    assert StepsTo(dist, f.speed) == (dist + f.speed - 1) / f.speed;
    assert Rem(f.total + ticks, f.Frames()) == (f.total + ticks) % f.Frames();
    hide After, Rem, Quo, StepsTo, Flight.Frames;
    FlightLaw(f, ticks);
    StepsToLaw(dist, f.speed, ticks);
    if ticks > 0 { StepsToLaw(dist, f.speed, ticks - 1); }
    AnimationLaw(f.Start(), f.total, f.Target(), f.speed, f.Frames(), ticks);
  }

  /** Once arrived, further ticks would change nothing of the position. */
  lemma {:induction false} NeverBack(f: Flight, n: nat, k: nat)
    requires 1 <= f.rate <= 60 && f.speed > 0 && n <= k && f.State(n).pos == f.Target()
    ensures f.State(k).pos == f.Target()
    decreases k
  {
    if n < k { NeverBack(f, n, k - 1); }
  }
}
