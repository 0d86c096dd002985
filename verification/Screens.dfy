/** What is on the screen, byte by byte, whenever it changes: the menus, the two
    game-over screens, the pause screen, a new game. */
module Screens {
  import opened Words
  import opened Raster
  import opened LightCycles
  import opened Mouse
  import opened Console
  import opened ConsoleInvariants
  import opened Winner

  /** Byte `j` of pixel `(px, py)` after an image was shown at `(x, y)`: the
      image's own byte inside its rectangle, what was there outside. */
  ghost predicate Overlaid(m: Mode, before: seq<byte>, img: Image, x: int, y: int, after: seq<byte>, px: int, py: int, j: int)
  {
    var k := (py * m.h + px) * m.bpp + j;
    var s := ((py - y) * img.width + (px - x)) * m.bpp + j;
    && 0 <= k < |before| && |after| == |before|
    && if x <= px < x + img.width && y <= py < y + img.height
       then 0 <= s < |img.bytes| && after[k] == img.bytes[s]
       else after[k] == before[k]
  }

  lemma BlitOverlays(m: Mode, fb: seq<byte>, img: Image, x: nat, y: nat, px: nat, py: nat, j: nat)
    requires m.Valid() && img.Valid(m.bpp) && |fb| == m.Size()
    requires x + img.width <= m.h && x < m.h && px < m.h && py < m.v && j < m.bpp
    ensures Overlaid(m, fb, img, x, y, Blit(m, fb, img, x, y), px, py, j)
  {
    BlitPixel(m, fb, img, x, y, px, py, j);
    hide Blit, Image.Valid, Mode.Size;
  }

  lemma FullScreens(c: Setup)
    requires c.Valid()
    ensures c.FullScreen(c.main) && c.FullScreen(c.gameOver1) && c.FullScreen(c.gameOver2) && c.FullScreen(c.pause)
    ensures c.cursorImage.Valid(c.mode.bpp) && c.cursorImage.width <= 30 && c.cursorImage.height <= 30
    ensures c.mode.Valid() && c.mode.h >= 60 && c.mode.v >= 60 && |c.vram| == c.mode.Size()
  {
  }

  /** What the head of a loop draws when its screen is new. */
  lemma HeadDraws(c: Setup, s: State)
    requires c.Valid() && Proper(c, s) && !s.printed
    ensures var fb := Settle(c, s).game.fb;
            && (s.view == Main ==> fb == Blit(c.mode, s.game.fb, c.main, 0, 0))
            && (s.view == GoOne ==> fb == Blit(c.mode, s.game.fb, c.gameOver1, 0, 0))
            && (s.view == GoTwo ==> fb == Blit(c.mode, s.game.fb, c.gameOver2, 0, 0))
            && (s.view == Pause ==> fb == Blit(c.mode, s.game.fb, c.pause, 0, 0) && Settle(c, s).saved == s.game.fb)
  {
    hide Blit, Setup.Valid, Proper;
  }

  lemma ImageShown(c: Setup, s: State, img: Image, px: nat, py: nat, j: nat)
    requires c.Valid() && Proper(c, s) && c.FullScreen(img) && px < c.mode.h && py < c.mode.v && j < c.mode.bpp
    ensures Overlaid(c.mode, s.game.fb, img, 0, 0, Blit(c.mode, s.game.fb, img, 0, 0), px, py, j)
  {
    FullScreens(c);
    hide Setup.Valid, Blit, Overlaid, Image.Valid;
    BlitOverlays(c.mode, s.game.fb, img, 0, 0, px, py, j);
  }

  /** On every run: whenever a game-over screen or the pause screen comes up, it
      shows its own image over the frame the game left, and the pause keeps that
      frame aside. */
  lemma ScreenComesUp(c: Setup, es: seq<Event>, e: Event, px: nat, py: nat, j: nat)
    requires c.Valid() && px < c.mode.h && py < c.mode.v && j < c.mode.bpp
    ensures var s := AtReceive(c, es); var t := AtReceive(c, es + [e]); var left := Handle(c, s, e).game.fb;
            && (t.view == GoOne && s.view != GoOne ==> Overlaid(c.mode, left, c.gameOver1, 0, 0, t.game.fb, px, py, j))
            && (t.view == GoTwo && s.view != GoTwo ==> Overlaid(c.mode, left, c.gameOver2, 0, 0, t.game.fb, px, py, j))
            && (t.view == Pause && s.view != Pause ==>
                 Overlaid(c.mode, left, c.pause, 0, 0, t.game.fb, px, py, j) && t.saved == left)
  {
    var s := AtReceive(c, es);
    FlagInvariant(c, es);
    AtReceiveSnoc(c, es, e);
    HandleFacts(c, s, e);
    var h := Handle(c, s, e);
    SettleFacts(c, h);
    if h.fault { FaultFrozen(c, s, e); }
    FullScreens(c);
    hide AtReceive, Handle, Settle, Setup.Valid, Proper, Blit, Overlaid, Setup.FullScreen;
    if !h.printed { HeadDraws(c, h); }
    ImageShown(c, h, c.gameOver1, px, py, j);
    ImageShown(c, h, c.gameOver2, px, py, j);
    ImageShown(c, h, c.pause, px, py, j);
  }

  /** At the first receive: the main menu over the cursor image in the middle of
      what the card showed. */
  lemma FirstScreen(c: Setup, px: nat, py: nat, j: nat) returns (booted: seq<byte>)
    requires c.Valid() && px < c.mode.h && py < c.mode.v && j < c.mode.bpp
    ensures Overlaid(c.mode, c.vram, c.cursorImage, c.mode.h / 2, c.mode.v / 2, booted, px, py, j)
    ensures Overlaid(c.mode, booted, c.main, 0, 0, AtReceive(c, []).game.fb, px, py, j)
  {
    FullScreens(c);
    var x, y := c.mode.h / 2, c.mode.v / 2;
    assert W16(x) == x && W16(y) == y;
    booted := Boot(c).game.fb;
    assert booted == Blit(c.mode, c.vram, c.cursorImage, x, y) && Boot(c).view == Main && !Boot(c).printed;
    hide Setup.Valid, Blit, Overlaid, Image.Valid, Boot, Settle, W16;
    BlitOverlays(c.mode, c.vram, c.cursorImage, x, y, px, py, j);
    HeadDraws(c, Boot(c));
    ImageShown(c, Boot(c), c.main, px, py, j);
  }

  lemma BeginClears(c: Setup, s: State)
    requires c.Valid() && Proper(c, s) && !s.startGame && !s.paused && Playing(s.view)
    ensures var t := Settle(c, s); var h, v := c.mode.h, c.mode.v;
            && |t.game.fb| == c.mode.Size()
            && (forall k :: 0 <= k < |t.game.fb| ==> t.game.fb[k] == if c.hour >= 25 then 255 else 0)
            && t.game.blue == Rider((h / 2 - 100) % 0x1_0000, (v / 2) % 0x1_0000, Right)
            && t.game.orange == Rider((h / 2 + 100) % 0x1_0000, (v / 2) % 0x1_0000, Left)
            && t.entered == []
  {
    hide Setup.Valid, CursorInside, Mode.Size;
  }

  /** On every run: a game begins, for one player or more, on a frame that is all
      black or, from hour 25 on, all white, with both riders in the middle row,
      100 columns to either side of the middle, facing each other. */
  lemma NewGameScreen(c: Setup, es: seq<Event>, e: Event)
    requires c.Valid() && Menu(AtReceive(c, es).view) && Playing(AtReceive(c, es + [e]).view)
    ensures var t := AtReceive(c, es + [e]); var h, v := c.mode.h, c.mode.v;
            && |t.game.fb| == c.mode.Size()
            && (forall k :: 0 <= k < |t.game.fb| ==> t.game.fb[k] == if c.hour >= 25 then 255 else 0)
            && t.game.blue == Rider((h / 2 - 100) % 0x1_0000, (v / 2) % 0x1_0000, Right)
            && t.game.orange == Rider((h / 2 + 100) % 0x1_0000, (v / 2) % 0x1_0000, Left)
            && t.entered == []
  {
    var s := AtReceive(c, es);
    FlagInvariant(c, es);
    AtReceiveSnoc(c, es, e);
    HandleFacts(c, s, e);
    var h := Handle(c, s, e);
    SettleFacts(c, h);
    if h.fault { FaultFrozen(c, s, e); }
    hide AtReceive, Handle, Settle, Setup.Valid, Proper, Mode.Size;
    if !h.fault { BeginClears(c, h); }
  }

  /** What a mouse interrupt that completes a packet draws on a menu. */
  lemma MenuDraws(c: Setup, s: State, timer: bool, keyboard: Option<Port>, p: Port)
    requires c.Valid() && Proper(c, s) && Menu(s.view) && !s.fault
    ensures var t := Handle(c, s, Hardware(timer, keyboard, Some(p)));
            && Proper(c, t) && t.printed == s.printed && t.startGame == s.startGame && !t.fault
            && (s.mouse.counter < 2 ==> t.game == s.game && t.cursor == s.cursor && t.view == s.view)
            && (s.mouse.counter == 2 ==>
                 t.game.fb == Blit(c.mode, Blit(c.mode, s.game.fb, if s.view == Main then c.main else c.gameOver2, 0, 0),
                                   c.cursorImage, t.cursor.x, t.cursor.y))
  {
    hide Blit, Setup.Valid, MoveCursor, Parse, MouseStatusOk, Bit, Mode.Size, InPlace;
  }

  /** On every run, every interrupt on a menu: a mouse interrupt that completes a
      packet and stays on the menu redraws the background (on both game-over
      screens the second one's) and then the cursor at its new place; any other
      leaves the frame. */
  lemma MenuRedrawn(c: Setup, es: seq<Event>, timer: bool, keyboard: Option<Port>, p: Port, px: nat, py: nat, j: nat)
    returns (middle: seq<byte>)
    requires c.Valid() && px < c.mode.h && py < c.mode.v && j < c.mode.bpp
    requires Menu(AtReceive(c, es).view) && !AtReceive(c, es).fault
    requires AtReceive(c, es + [Hardware(timer, keyboard, Some(p))]).view == AtReceive(c, es).view
    ensures var s := AtReceive(c, es); var t := AtReceive(c, es + [Hardware(timer, keyboard, Some(p))]);
            && (s.mouse.counter < 2 ==> t.game.fb == s.game.fb)
            && (s.mouse.counter == 2 ==>
                 && Overlaid(c.mode, s.game.fb, if s.view == Main then c.main else c.gameOver2, 0, 0, middle, px, py, j)
                 && Overlaid(c.mode, middle, c.cursorImage, t.cursor.x, t.cursor.y, t.game.fb, px, py, j))
  {
    var e := Hardware(timer, keyboard, Some(p));
    var s := AtReceive(c, es);
    FlagInvariant(c, es);
    AtReceiveSnoc(c, es, e);
    var h := Handle(c, s, e);
    MenuDraws(c, s, timer, keyboard, p);
    SettleFacts(c, h);
    PrintedMenu(c, h);
    var background := if s.view == Main then c.main else c.gameOver2;
    FullScreens(c);
    middle := Blit(c.mode, s.game.fb, background, 0, 0);
    CursorFits(c, h);
    hide AtReceive, Handle, Settle, Setup.Valid, Blit, Overlaid, Mode.Size, CursorInside, Image.Valid;
    if s.mouse.counter == 2 {
      ImageShown(c, s, background, px, py, j);
      BlitOverlays(c.mode, middle, c.cursorImage, h.cursor.x, h.cursor.y, px, py, j);
    }
  }

  lemma CursorFits(c: Setup, s: State)
    requires c.Valid() && Proper(c, s)
    ensures s.cursor.x < c.mode.h && s.cursor.x + c.cursorImage.width <= c.mode.h && s.cursor.y + c.cursorImage.height <= c.mode.v
  {
  }

  lemma PrintedMenu(c: Setup, s: State)
    requires c.Valid() && Proper(c, s)
    ensures Menu(s.view) && s.printed ==> Settle(c, s) == s
  {
    hide Setup.Valid, Proper, Blit;
  }

  /** On every run: a failed receive or another message changes nothing, and
      nothing at all changes in the multiplayer screen or after quitting. */
  lemma NothingHappens(c: Setup, es: seq<Event>, e: Event)
    requires c.Valid()
    requires !e.Hardware? || AtReceive(c, es).view == MGame || AtReceive(c, es).view == Quit
    ensures AtReceive(c, es + [e]) == AtReceive(c, es)
  {
    var s := AtReceive(c, es);
    FlagInvariant(c, es);
    AtReceiveSnoc(c, es, e);
    assert Handle(c, s, e) == s by { hide AtReceive, Setup.Valid, Proper, OnGame, OnKeyboard, OnMenuMouse; }
    hide AtReceive, Handle, Setup.Valid, Proper, Blit, StartGame, Filled;
  }
}
