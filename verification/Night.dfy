/** By night, with more than one byte per pixel, the background is white and the
    probe takes it for a trail: every move is flagged.  The first passive tick
    declares the second player the winner, unless the key in the same
    notification pauses the game; a key command that moves anybody quits the
    program. */
module Night {
  import opened Words
  import opened Raster
  import opened LightCycles
  import opened Arena
  import opened Mouse
  import opened Console
  import opened ConsoleInvariants
  import opened Winner

  ghost predicate Dark(c: Setup) { c.Valid() && c.mode.bpp >= 2 && c.hour >= NIGHT }

  /** No pixel of the frame is below 256: the second byte of each is set. */
  ghost predicate Bright(m: Mode, fb: seq<byte>)
    requires m.Valid()
  {
    forall k :: 0 <= k < |fb| && Rem(k, m.bpp) == 1 ==> fb[k] != 0
  }

  lemma SecondLane(p: nat, bpp: nat)
    requires bpp >= 2
    ensures 0 <= p * bpp && Rem(p * bpp + 1, bpp) == 1
  {
    MulMono(0, p, bpp);
    DivWindow(p * bpp + 1, bpp, p);
    hide Rem, Quo;
  }

  lemma BrightTripsProbe(m: Mode, fb: seq<byte>, x: u16, y: u16)
    requires m.Valid() && m.bpp >= 2 && |fb| == m.Size() && m.Index(x, y) < m.Pixels() && Bright(m, fb)
    ensures Probe(m, fb, x, y)
  {
    hide Mode.Size, Mode.Pixels, Rem, Value;
    var p: nat := m.Index(x, y);
    PixelInside(m, p);
    BrightPixel(m, fb, p);
    hide Bright;
  }

  lemma BrightPixel(m: Mode, fb: seq<byte>, p: nat)
    requires m.Valid() && m.bpp >= 2 && p * m.bpp + m.bpp <= |fb| && Bright(m, fb)
    ensures PixelValue(m.bpp, fb, p) > 255
  {
    hide Rem, Value;
    SecondLane(p, m.bpp);
    var at := p * m.bpp;
    assert fb[at + 1] != 0;
    SecondByte(fb[at..at + m.bpp]);
  }

  lemma SecondByte(s: seq<byte>)
    requires 2 <= |s| <= 4 && s[1] != 0
    ensures Value(s) > 255
  {
  }

  lemma PaintKeepsBright(m: Mode, fb: seq<byte>, ps: set<int>, p: Player)
    requires m.Valid() && Bright(m, fb)
    ensures Bright(m, Painted(m.bpp, fb, ps, Color(p)))
  {
    assert ColorByte(Color(p), 1) != 0;
    hide Rem, Quo, ColorByte, Color;
  }

  lemma NightMove(m: Mode, g: Game, mv: MovementInfo, passive: bool)
    requires Sized(m, g) && m.bpp >= 2 && Bright(m, g.fb)
    ensures var o := MovePlayer(m, g, mv, passive);
            o.Done? ==>
              && Bright(m, o.game.fb)
              && (passive && mv.dir == g.RiderOf(mv.player).heading ==> o.code == 1)
              && (mv.dir != Unchanged ==> (o.code == 1 <==> Decide(g.RiderOf(mv.player), mv.dir, passive).Enter?))
  {
    hide Mode.Size, Mode.Pixels, Mode.Index, Probe, Painted, RectPixels, Inside, Bright, W16;
    var d := Decide(g.RiderOf(mv.player), mv.dir, passive);
    if d.Enter? && BlockInMemory(m, d.to) {
      BrightTripsProbe(m, g.fb, d.to.x, d.to.y);
      PaintKeepsBright(m, g.fb, RectPixels(m, d.to.x, d.to.y, BLOCK, BLOCK), mv.player);
    }
  }

  lemma NightTick(m: Mode, g: Game)
    requires Sized(m, g) && m.bpp >= 2 && Bright(m, g.fb)
    ensures var o := PassiveMove(m, g);
            o.Done? ==> Bright(m, o.game.fb) && o.code == 1 && o.game.blue == Pushed(g.blue) && o.game.orange == g.orange
  {
    hide Mode.Size, Mode.Pixels, Mode.Index, Probe, Painted, RectPixels, Inside, Bright, W16;
    NightMove(m, g, MovementInfo(g.blue.heading, Blue), true);
  }

  /** The game frame, on the screen or saved, is bright. */
  ghost predicate Glaring(c: Setup, s: State)
    requires c.Valid()
  {
    (s.view == SGame ==> Bright(c.mode, s.game.fb)) && (s.view == Pause ==> Bright(c.mode, s.saved))
  }

  lemma KeyboardBright(c: Setup, s: State, p: Port, inGame: bool)
    requires Dark(c) && Proper(c, s) && Bright(c.mode, s.game.fb)
    ensures Bright(c.mode, OnKeyboard(c, s, p, inGame).game.fb)
    ensures var t := OnKeyboard(c, s, p, inGame); var mv := CommandAfterKey(s.nextMove, p);
            !t.fault ==>
              t.view == if mv.dir != Unchanged && Decide(s.game.RiderOf(mv.player), mv.dir, false).Enter? then Quit
                        else ViewAfterKey(s.view, p)
  {
    hide Mode.Size, Setup.Valid, MovePlayer, Bright, CursorInside, Drawn, DirectionRelease, PauseKey;
    var t := KbcIh(s, p);
    if t.nextMove.dir != Unchanged { NightMove(c.mode, t.game, t.nextMove, false); }
  }

  lemma TimerBright(c: Setup, s: State)
    requires Dark(c) && Proper(c, s) && Bright(c.mode, s.game.fb)
    ensures var t := OnTimer(c, s);
            && Bright(c.mode, t.game.fb) && t.nextMove == s.nextMove
            && (!t.fault && !s.fault ==>
                 && t.view == (if Due(s) then GoTwo else s.view)
                 && t.game.blue == (if Due(s) then Pushed(s.game.blue) else s.game.blue)
                 && t.game.orange == s.game.orange)
  {
    hide Mode.Size, Setup.Valid, PassiveMove, Bright, CursorInside, TickDrawn;
    NightTick(c.mode, s.game);
  }

  lemma BeginBright(c: Setup, s: State)
    requires Dark(c) && Proper(c, s) && !s.startGame
    ensures Bright(c.mode, Begin(c, s).game.fb)
  {
    hide Mode.Size, Setup.Valid, CursorInside, Rem;
  }

  lemma HandleBright(c: Setup, s: State, e: Event)
    requires Dark(c) && Proper(c, s) && s.view == SGame && Bright(c.mode, s.game.fb)
    ensures Bright(c.mode, Handle(c, s, e).game.fb)
  {
    hide OnTimer, OnKeyboard, Setup.Valid, Proper, Bright, OnMenuMouse;
    if e.Hardware? {
      TimerBright(c, s);
      if e.keyboard.Some? {
        KeyboardBright(c, if e.timer then OnTimer(c, s) else s, e.keyboard.value, true);
      }
    }
  }

  lemma StepGlaring(c: Setup, s: State, e: Event)
    requires Dark(c) && Proper(c, s) && Flags(s) && Glaring(c, s)
    ensures Glaring(c, Step(c, s, e))
  {
    HandleFacts(c, s, e);
    var t := Handle(c, s, e);
    if t.fault {
      FaultFrozen(c, s, e);
    } else {
      if s.view == SGame { HandleBright(c, s, e); }
      if Menu(s.view) && t.view == SGame { BeginBright(c, t); }
    }
    hide Handle, Setup.Valid, Proper, Blit, StartGame, Filled, Bright;
  }

  lemma {:induction false} RunGlaring(c: Setup, s: State, es: seq<Event>)
    requires Dark(c) && Proper(c, s) && Flags(s) && Glaring(c, s)
    ensures Glaring(c, Run(c, s, es))
    decreases |es|
  {
    hide Step, Setup.Valid, Proper, Flags, Glaring;
    if es != [] {
      StepFacts(c, s, es[0]);
      StepGlaring(c, s, es[0]);
      RunGlaring(c, Step(c, s, es[0]), es[1..]);
    }
  }

  /** The rider the key command of a notification is about, after the timer bit:
      a passive tick by night has moved blue only. */
  function NightRider(s: State, e: Event): Rider
    requires e.Hardware?
  {
    match CommandOf(s, e).player
    case Blue => if e.timer && Due(s) then Pushed(s.game.blue) else s.game.blue
    case Orange => s.game.orange
  }

  /** The screen after a notification received in a game by night. */
  function NightVerdict(s: State, e: Event): View
    requires e.Hardware?
  {
    if KeyMoves(s, e) && Decide(NightRider(s, e), CommandOf(s, e).dir, false).Enter? then Quit
    else if e.keyboard.Some? && PauseKey(e.keyboard.value) then Pause
    else if e.timer && Due(s) then GoTwo
    else SGame
  }

  /** On every night run, wherever the heads are: what any notification received
      in a game leads to, unless it draws outside video memory.  A passive tick
      ends the game and blue loses, but for the key that may come with it. */
  lemma NightGamesEndAtOnce(c: Setup, es: seq<Event>, e: Event)
    requires Dark(c) && AtReceive(c, es).view == SGame && e.Hardware?
    requires !AtReceive(c, es).fault && !Handle(c, AtReceive(c, es), e).fault
    ensures AtReceive(c, es + [e]).view == NightVerdict(AtReceive(c, es), e)
  {
    var s := AtReceive(c, es);
    BootFlags(c);
    RunGlaring(c, AtReceive(c, []), es);
    NightNotification(c, s, e);
    AtReceiveSnoc(c, es, e);
    SettleFacts(c, Handle(c, s, e));
    hide AtReceive, Handle, Settle, Setup.Valid, Proper, Bright, NightVerdict;
  }

  lemma NightNotification(c: Setup, s: State, e: Event)
    requires Dark(c) && Proper(c, s) && s.view == SGame && !s.fault && Bright(c.mode, s.game.fb)
    requires e.Hardware? && !Handle(c, s, e).fault
    ensures Handle(c, s, e).view == NightVerdict(s, e)
  {
    hide OnTimer, OnKeyboard, OnMenuMouse, Setup.Valid, Proper, Bright, Pushed, PauseKey, DirectionRelease, Decide;
    TimerBright(c, s);
    if e.keyboard.Some? {
      KeyboardBright(c, if e.timer then OnTimer(c, s) else s, e.keyboard.value, true);
    }
  }
}
