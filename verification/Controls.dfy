/** What each key and each click does, in the codes, coordinates and colours of
    the source. */
module Controls {
  import opened Words
  import opened Raster
  import opened LightCycles
  import opened Arena
  import opened Mouse
  import opened Console
  import opened ConsoleInvariants

  // ------------------------------------------------------------- directions

  function KeyEvent(status: byte, data: byte): Event { Hardware(false, Some(Port(status, data)), None) }

  lemma GoodStatus(status: byte)
    requires status % 2 == 1 && status < 32
    ensures KeyStatusOk(status)
  {
    StatusFilters(status);
  }

  /** A notification with the keyboard bit alone, on the two screens that read
      it. */
  lemma KeyHandled(c: Setup, s: State, p: Port)
    requires c.Valid() && Proper(c, s) && InGame(s) && !s.fault
    ensures var t := OnKeyboard(c, s, p, s.view == SGame);
            Handle(c, s, Hardware(false, Some(p), None)) == if t.fault then s.(fault := true) else t
  {
    hide OnKeyboard, OnMenuMouse, Setup.Valid, Proper;
  }

  /** A command that makes a rider enter a block inside memory. */
  lemma TurnMoves(m: Mode, g: Game, mv: MovementInfo, to: Rider)
    requires Sized(m, g) && Decide(g.RiderOf(mv.player), mv.dir, false) == Enter(to) && BlockInMemory(m, to)
    ensures 0 <= (to.y * m.h + to.x) && (to.y * m.h + to.x) * m.bpp + m.bpp <= |g.fb|
    ensures var o := MovePlayer(m, g, mv, false); var q := PixelValue(m.bpp, g.fb, to.y * m.h + to.x);
            && o.Done? && o.game.RiderOf(mv.player) == to
            && (mv.player == Blue ==> o.game.orange == g.orange)
            && (mv.player == Orange ==> o.game.blue == g.blue)
            && o.code == if q != 0 && q != 255 then 1 else 0
  {
    assert m.Index(to.x, to.y) == to.y * m.h + to.x && 0 <= m.Index(to.x, to.y) by { MulMono(0, to.y, m.h); }
    hide Mode.Size, Mode.Pixels, Mode.Index, Painted, RectPixels, Inside, Value, Decide;
    PixelInside(m, m.Index(to.x, to.y));
    MulMono(0, m.Index(to.x, to.y), m.bpp);
  }

  /** A key command read in a game or a pause: the rider, the other rider, the
      stored command, and the screen by the pixel under the new corner. */
  lemma TurnKey(c: Setup, s: State, p: Port, mv: MovementInfo, to: Rider)
    requires c.Valid() && Proper(c, s) && InGame(s) && !s.fault && KeyStatusOk(p.status)
    requires DirectionKey(p.data) == Some(mv) && p.data != P_BREAK && mv.dir != Unchanged
    requires Decide(s.game.RiderOf(mv.player), mv.dir, false) == Enter(to) && BlockInMemory(c.mode, to)
    ensures 0 <= (to.y * c.mode.h + to.x) && (to.y * c.mode.h + to.x) * c.mode.bpp + c.mode.bpp <= |s.game.fb|
    ensures var t := Handle(c, s, Hardware(false, Some(p), None));
            var q := PixelValue(c.mode.bpp, s.game.fb, to.y * c.mode.h + to.x);
            && !t.fault && t.game.RiderOf(mv.player) == to
            && (mv.player == Blue ==> t.game.orange == s.game.orange)
            && (mv.player == Orange ==> t.game.blue == s.game.blue)
            && t.nextMove == mv && t.scanCode == p.data
            && t.view == if q != 0 && q != 255 then Quit else s.view
  {
    TurnMoves(c.mode, s.game, mv, to);
    KeyHandled(c, s, p);
    hide Handle, MovePlayer, Drawn, Setup.Valid, Mode.Size, CursorInside, KeyStatusOk, DirectionKey, Decide, PixelValue,
         BlockInMemory;
  }

  /** The eight direction keys, released while a game is on the screen or paused.
      A key across its rider's heading makes it enter the block five pixels that
      way, modulo 2^16; the other rider stays. */
  lemma DirectionKeys(c: Setup, s: State, status: byte, data: byte)
    requires c.Valid() && Proper(c, s) && InGame(s) && !s.fault && status % 2 == 1 && status < 32
    ensures var t := Handle(c, s, KeyEvent(status, data)); var b, o := s.game.blue, s.game.orange;
            var across := b.heading == Left || b.heading == Right;
            var n, f := Rider(b.x, (b.y - 5) % 0x1_0000, Up), Rider(b.x, (b.y + 5) % 0x1_0000, Down);
            && (data == 145 && across && BlockInMemory(c.mode, n) ==> !t.fault && t.game.blue == n && t.game.orange == o)
            && (data == 159 && across && BlockInMemory(c.mode, f) ==> !t.fault && t.game.blue == f && t.game.orange == o)
    ensures var t := Handle(c, s, KeyEvent(status, data)); var b, o := s.game.blue, s.game.orange;
            var across := b.heading == Up || b.heading == Down;
            var l, r := Rider((b.x - 5) % 0x1_0000, b.y, Left), Rider((b.x + 5) % 0x1_0000, b.y, Right);
            && (data == 158 && across && BlockInMemory(c.mode, l) ==> !t.fault && t.game.blue == l && t.game.orange == o)
            && (data == 160 && across && BlockInMemory(c.mode, r) ==> !t.fault && t.game.blue == r && t.game.orange == o)
    ensures var t := Handle(c, s, KeyEvent(status, data)); var b, o := s.game.blue, s.game.orange;
            var across := o.heading == Left || o.heading == Right;
            var n, f := Rider(o.x, (o.y - 5) % 0x1_0000, Up), Rider(o.x, (o.y + 5) % 0x1_0000, Down);
            && (data == 200 && across && BlockInMemory(c.mode, n) ==> !t.fault && t.game.orange == n && t.game.blue == b)
            && (data == 208 && across && BlockInMemory(c.mode, f) ==> !t.fault && t.game.orange == f && t.game.blue == b)
    ensures var t := Handle(c, s, KeyEvent(status, data)); var b, o := s.game.blue, s.game.orange;
            var across := o.heading == Up || o.heading == Down;
            var l, r := Rider((o.x - 5) % 0x1_0000, o.y, Left), Rider((o.x + 5) % 0x1_0000, o.y, Right);
            && (data == 203 && across && BlockInMemory(c.mode, l) ==> !t.fault && t.game.orange == l && t.game.blue == b)
            && (data == 205 && across && BlockInMemory(c.mode, r) ==> !t.fault && t.game.orange == r && t.game.blue == b)
  {
    hide Handle, Setup.Valid, Proper, KeyStatusOk, BlockInMemory, Decide, PixelValue, W16;
    GoodStatus(status);
    var p := Port(status, data);
    var k := DirectionKey(data);
    if k.Some? {
      KeysSteer(data);
      var mv := k.value;
      var d := Decide(s.game.RiderOf(mv.player), mv.dir, false);
      StepsOfFive(s.game.RiderOf(mv.player), mv.dir);
      if d.Enter? && BlockInMemory(c.mode, d.to) {
        TurnKey(c, s, p, mv, d.to);
      }
    }
  }

  lemma KeysSteer(data: byte)
    requires DirectionKey(data).Some?
    ensures data != P_BREAK && DirectionKey(data).value.dir != Unchanged
  {
  }

  lemma OnlyTheseSteer(data: byte)
    ensures DirectionKey(data).Some? <==>
              data == 145 || data == 158 || data == 159 || data == 160 ||
              data == 200 || data == 203 || data == 205 || data == 208
    ensures DirectionKey(data).Some? ==>
              DirectionKey(data).value.player == if data < 200 then Blue else Orange
  {
  }

  /** A step across the heading, in numbers; before the first game the source
      takes downwards for the opposite of no heading. */
  lemma StepsOfFive(r: Rider, dir: Direction)
    ensures var d := Decide(r, dir, false); var across := r.heading == Left || r.heading == Right;
            && (dir == Up && across ==> d == Enter(Rider(r.x, (r.y - 5) % 0x1_0000, Up)))
            && (dir == Down && across ==> d == Enter(Rider(r.x, (r.y + 5) % 0x1_0000, Down)))
    ensures var d := Decide(r, dir, false); var across := r.heading == Up || r.heading == Down;
            && (dir == Left && across ==> d == Enter(Rider((r.x - 5) % 0x1_0000, r.y, Left)))
            && (dir == Right && across ==> d == Enter(Rider((r.x + 5) % 0x1_0000, r.y, Right)))
    ensures r.heading == Unchanged ==> (Decide(r, dir, false).Enter? <==> dir == Up || dir == Left || dir == Right)
  {
  }

  /** A key along its rider's heading, forwards or backwards, moves nobody and
      paints nothing. */
  lemma KeysAlong(c: Setup, s: State, status: byte, data: byte)
    requires c.Valid() && Proper(c, s) && InGame(s) && !s.fault && status % 2 == 1 && status < 32
    requires var b, o := s.game.blue.heading, s.game.orange.heading;
             || ((data == 145 || data == 159) && (b == Up || b == Down))
             || ((data == 158 || data == 160) && (b == Left || b == Right))
             || ((data == 200 || data == 208) && (o == Up || o == Down))
             || ((data == 203 || data == 205) && (o == Left || o == Right))
    ensures var t := Handle(c, s, KeyEvent(status, data)); t.game == s.game && t.view == s.view && !t.fault
  {
    GoodStatus(status);
    AlongIsVoid(s.game, data);
    KeysSteer(data);
    var mv := DirectionKey(data).value;
    hide Handle, MovePlayer, Drawn, Setup.Valid, Mode.Size, CursorInside, KeyStatusOk, DirectionKey, Opposite;
    SettledMoveIsVoid(c.mode, s.game, mv);
    KeyHandled(c, s, Port(status, data));
  }

  lemma AlongIsVoid(g: Game, data: byte)
    requires var b, o := g.blue.heading, g.orange.heading;
             || ((data == 145 || data == 159) && (b == Up || b == Down))
             || ((data == 158 || data == 160) && (b == Left || b == Right))
             || ((data == 200 || data == 208) && (o == Up || o == Down))
             || ((data == 203 || data == 205) && (o == Left || o == Right))
    ensures DirectionKey(data).Some?
    ensures var mv := DirectionKey(data).value; var h := g.RiderOf(mv.player).heading;
            mv.dir == h || mv.dir == Opposite(h)
  {
  }

  /** What the handler stores: a good status stores the code; only the eight
      codes change the command; only code 153 changes the screen. */
  lemma KeysStored(c: Setup, s: State, status: byte, data: byte)
    requires c.Valid() && Proper(c, s) && InGame(s) && !s.fault && !Handle(c, s, KeyEvent(status, data)).fault
    ensures var t := Handle(c, s, KeyEvent(status, data)); var good := status % 2 == 1 && status < 32;
            && t.scanCode == (if good then data else s.scanCode)
            && (!good || data !in {145, 158, 159, 160, 200, 203, 205, 208} ==> t.nextMove == s.nextMove)
            && (Settled(s) && good && data == 153 ==> t.view == if s.view == Pause then SGame else Pause)
            && (!good || data != 153 ==> t.view == s.view || t.view == Quit)
  {
    StatusFilters(status);
    OnlyTheseSteer(data);
    var p := Port(status, data);
    hide Handle, MovePlayer, Drawn, Setup.Valid, Proper, KeyStatusOk, DirectionKey, Opposite, Settled;
    KeyHandled(c, s, p);
    if Settled(s) && !DirectionRelease(p) { QuietKeyboardIsVoid(c, s, p, s.view == SGame); }
  }

  /** The block a move draws, on the board, pixel by pixel: blue paints 1F51FF and
      orange FF5F1F, low byte first, on five by five pixels, and nothing else. */
  lemma MovePaints(m: Mode, g: Game, mv: MovementInfo, passive: bool, px: nat, py: nat, j: nat)
    requires Sized(m, g) && px < m.h && py < m.v && j < m.bpp
    requires var d := Decide(g.RiderOf(mv.player), mv.dir, passive); d.Enter? && OnBoard(m, At(d.to))
    ensures var o := MovePlayer(m, g, mv, passive); var to := Decide(g.RiderOf(mv.player), mv.dir, passive).to;
            var k := (py * m.h + px) * m.bpp + j;
            && o.Done? && 0 <= k < |g.fb|
            && o.game.fb[k] ==
                 if to.x <= px < to.x + 5 && to.y <= py < to.y + 5
                 then (if mv.player == Blue then [0xFF, 0x51, 0x1F, 0][j] else [0x1F, 0x5F, 0xFF, 0][j])
                 else g.fb[k]
  {
    var to := Decide(g.RiderOf(mv.player), mv.dir, passive).to;
    ColoursShown(mv.player, j);
    hide Mode.Size, Mode.Pixels, Mode.Index, RectPixels, Painted, Probe, Inside, ColorByte, Color, Decide;
    RectInside(m, to.x, to.y, BLOCK, BLOCK);
    PaintedPixel(m, g.fb, to.x, to.y, BLOCK, BLOCK, Color(mv.player), px, py, j);
  }

  lemma ColoursShown(p: Player, j: nat)
    requires j < 4
    ensures ColorByte(Color(p), j) == if p == Blue then [0xFF, 0x51, 0x1F, 0][j] else [0x1F, 0x5F, 0xFF, 0][j]
  {
    ColorBytes(Color(p));
  }

  // ------------------------------------------------------------------ clicks

  /** Every mouse interrupt on a menu.  One that completes a packet moves the
      cursor by it and may leave the menu: with the left button down, for a game
      from the first button, for the multiplayer screen from the second, for the
      end from the third.  Any other leaves screen, cursor and frame. */
  lemma Clicks(c: Setup, s: State, timer: bool, keyboard: Option<Port>, p: Port)
    requires c.Valid() && Proper(c, s) && Menu(s.view) && !s.fault
    ensures var t := Handle(c, s, Hardware(timer, keyboard, Some(p)));
            s.mouse.counter < 2 ==> t.view == s.view && t.cursor == s.cursor && t.game == s.game
    ensures var t := Handle(c, s, Hardware(timer, keyboard, Some(p)));
            var lb := s.mouse.b0 % 2 == 1; var x, y := t.cursor.x, t.cursor.y;
            var first := lb && 253 <= x <= 547 && 288 <= y <= 313;
            var second := lb && 268 <= x <= 532 && 352 <= y <= 376;
            var third := lb && 358 <= x <= 442 && 412 <= y <= 437;
            s.mouse.counter == 2 ==>
              && (t.view == SGame <==> first)
              && (t.view == MGame <==> second && !first)
              && (t.view == Quit <==> third && !second && !first)
              && (!first && !second && !third ==> t.view == s.view)
    ensures var t := Handle(c, s, Hardware(timer, keyboard, Some(p)));
            var b2 := if p.status % 2 == 1 && 32 <= p.status < 64 then p.data else s.mouse.latch;
            var dx := s.mouse.b1 - if s.mouse.b0 / 16 % 2 == 1 then 256 else 0;
            var dy := b2 - if s.mouse.b0 / 32 % 2 == 1 then 256 else 0;
            s.mouse.counter == 2 ==>
              t.cursor == Cursor(Travelled(s.cursor.x, dx, c.mode.h), Travelled(s.cursor.y, -dy, c.mode.v))
  {
    MenuHandled(c, s, timer, keyboard, p);
    StatusFilters(p.status);
    var b2 := Latch(s.mouse, p);
    assert b2 == if p.status % 2 == 1 && 32 <= p.status < 64 then p.data else s.mouse.latch;
    hide Handle, Setup.Valid, Mode.Size, Parse, CursorInside, Travelled, Latch, MoveCursor, Clicked, MouseStatusOk;
    if s.mouse.counter == 2 {
      var packet := Parse(s.mouse.b0, s.mouse.b1, b2);
      ParseLaw(s.mouse.b0, s.mouse.b1, b2);
      Travels(c, s, packet);
      ButtonsLead(s.view, MoveCursor(c.mode.h, c.mode.v, s.cursor, packet), packet.lb);
    }
  }

  lemma MenuHandled(c: Setup, s: State, timer: bool, keyboard: Option<Port>, p: Port)
    requires c.Valid() && Proper(c, s) && Menu(s.view) && !s.fault
    ensures var t := Handle(c, s, Hardware(timer, keyboard, Some(p)));
            s.mouse.counter < 2 ==> t.view == s.view && t.cursor == s.cursor && t.game == s.game
    ensures var t := Handle(c, s, Hardware(timer, keyboard, Some(p)));
            s.mouse.counter == 2 ==>
              var packet := Parse(s.mouse.b0, s.mouse.b1, Latch(s.mouse, p));
              && t.cursor == MoveCursor(c.mode.h, c.mode.v, s.cursor, packet)
              && t.view == Clicked(s.view, t.cursor, packet.lb)
  {
    hide Blit, Setup.Valid, MoveCursor, Parse, Latch, Bit, Mode.Size, Clicked, MenuImage, OnGame, OnKeyboard;
  }

  /** The three buttons of the menus. */
  lemma ButtonsLead(v: View, k: Cursor, lb: bool)
    requires Menu(v)
    ensures var first := lb && 253 <= k.x <= 547 && 288 <= k.y <= 313;
            var second := lb && 268 <= k.x <= 532 && 352 <= k.y <= 376;
            var third := lb && 358 <= k.x <= 442 && 412 <= k.y <= 437;
            var w := Clicked(v, k, lb);
            && (w == SGame <==> first) && (w == MGame <==> second && !first) && (w == Quit <==> third && !second && !first)
            && (!first && !second && !third ==> w == v)
  {
  }

  /** One axis of the cursor on a screen of `res` pixels: the 16-bit sum, kept 30
      pixels inside. */
  function Travelled(c: u16, d: int, res: nat): int {
    var x := (c + d) % 0x1_0000;
    if x < 30 then 30 else if x > res - 30 then res - 30 else x
  }

  lemma Travels(c: Setup, s: State, p: Packet)
    requires c.Valid() && Proper(c, s) && Encodable(p)
    ensures var r := MoveCursor(c.mode.h, c.mode.v, s.cursor, p);
            r.x == Travelled(s.cursor.x, p.dx, c.mode.h) && r.y == Travelled(s.cursor.y, -p.dy, c.mode.v)
  {
    assert 60 <= c.mode.h < 0x1_0000 && 60 <= c.mode.v < 0x1_0000;
    hide Setup.Valid, MoveCursor, Proper;
    CursorLaw(c.mode.h, c.mode.v, s.cursor, p);
  }
}
