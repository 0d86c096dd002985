/** What every run of the main loop keeps, whatever arrives. */
module ConsoleInvariants {
  import opened Words
  import opened Raster
  import opened LightCycles
  import opened Arena
  import opened Mouse
  import opened Console

  lemma {:induction false} RunAppend(c: Setup, s: State, es: seq<Event>, fs: seq<Event>)
    requires c.Valid() && Proper(c, s)
    ensures Run(c, s, es + fs) == Run(c, Run(c, s, es), fs)
    decreases |es|
  {
    hide Step, Setup.Valid, Proper;
    if es == [] {
      assert es + fs == fs;
    } else {
      assert (es + fs)[1..] == es[1..] + fs;
      RunAppend(c, Step(c, s, es[0]), es[1..], fs);
    }
  }

  // -------------------------------------------------------------- the flags

  /** The flags at a receive are a function of the screen. */
  ghost predicate Flags(s: State) {
    match s.view
    case Pause => s.printed && s.startGame && s.paused
    case SGame => !s.printed && s.startGame && !s.paused
    case MGame => !s.printed && s.startGame && !s.paused
    case Quit => true
    case _ => s.printed && !s.startGame && !s.paused
  }

  /** The views one event can lead to. */
  ghost predicate Edge(v: View, w: View) {
    match v
    case Pause => w == Pause || w == SGame || w == Quit
    case SGame => w != Main && w != MGame
    case MGame => w == MGame
    case Quit => w == Quit
    case _ => w == v || w == SGame || w == MGame || w == Quit
  }

  ghost predicate InGame(s: State) { s.view == SGame || s.view == Pause }

  ghost predicate Playing(v: View) { v == SGame || v == MGame }

  /** What no handler touches. */
  ghost predicate SameFlags(s: State, t: State) {
    && t.printed == s.printed && t.startGame == s.startGame && t.paused == s.paused
    && t.saved == s.saved && t.starts == s.starts
  }

  lemma KeyboardFacts(c: Setup, s: State, p: Port, inGame: bool)
    requires c.Valid() && Proper(c, s)
    ensures var t := OnKeyboard(c, s, p, inGame);
            SameFlags(s, t) && (t.view == s.view || t.view == Quit || t.view == ViewAfterKey(s.view, p))
  {
    hide MovePlayer, Setup.Valid, Proper, Drawn, DirectionRelease, PauseKey;
  }

  lemma TimerFacts(c: Setup, s: State)
    requires c.Valid() && Proper(c, s)
    ensures var t := OnTimer(c, s);
            SameFlags(s, t) && (t.view == s.view || t.view == GoOne || t.view == GoTwo)
  {
    hide PassiveMove, Setup.Valid, Proper, TickDrawn;
  }

  lemma MenuFacts(c: Setup, s: State, img: Image, p: Port)
    requires c.Valid() && Proper(c, s) && img.Valid(c.mode.bpp)
    ensures var t := OnMenuMouse(c, s, img, p);
            SameFlags(s, t) && (t.view == s.view || Playing(t.view) || t.view == Quit)
  {
    hide Blit, Setup.Valid, Proper, Feed, MoveCursor, InPlace;
  }

  lemma GameFacts(c: Setup, s: State, e: Event)
    requires c.Valid() && Proper(c, s) && e.Hardware? && s.view == SGame
    ensures var t := OnGame(c, s, e); SameFlags(s, t) && Edge(SGame, t.view)
  {
    TimerFacts(c, s);
    if e.keyboard.Some? {
      KeyboardFacts(c, if e.timer then OnTimer(c, s) else s, e.keyboard.value, true);
    }
    hide OnTimer, OnKeyboard, Setup.Valid, Proper, PauseKey;
  }

  lemma HandleFacts(c: Setup, s: State, e: Event)
    requires c.Valid() && Proper(c, s)
    ensures SameFlags(s, Handle(c, s, e)) && Edge(s.view, Handle(c, s, e).view)
  {
    hide OnGame, OnKeyboard, OnMenuMouse, Setup.Valid, Proper, MenuImage, PauseKey;
    if e.Hardware? {
      if s.view == SGame {
        GameFacts(c, s, e);
      } else if s.view == Pause && e.keyboard.Some? {
        KeyboardFacts(c, s, e.keyboard.value, false);
      } else if Menu(s.view) && e.mouse.Some? {
        assert MenuImage(c, s.view).Valid(c.mode.bpp) by { MenuImages(c, s.view); }
        MenuFacts(c, s, MenuImage(c, s.view), e.mouse.value);
      }
    }
  }

  lemma MenuImages(c: Setup, v: View)
    requires c.Valid()
    ensures MenuImage(c, v).Valid(c.mode.bpp)
  {
  }

  /** What the head of a loop does to the flags and to the stored command. */
  lemma SettleFacts(c: Setup, s: State)
    requires c.Valid() && Proper(c, s)
    ensures var t := Settle(c, s); var begins := Playing(s.view) && !s.startGame;
            && t.view == s.view && t.nextMove == s.nextMove && t.fault == s.fault && t.mouse == s.mouse
            && (begins ==> t.startGame && !t.printed && t.starts == s.starts + 1)
            && (!begins ==> t.starts == s.starts && t.game.blue == s.game.blue && t.game.orange == s.game.orange)
            && (Menu(s.view) && !s.printed ==> t.printed && !t.startGame)
            && (Menu(s.view) && s.printed ==> t.printed && t.startGame == s.startGame)
            && (s.view == Pause ==> t.printed && t.startGame == s.startGame && (t.paused <==> s.paused || !s.printed))
            && (s.view == SGame ==> !t.paused && (s.startGame && !s.paused ==> t.printed == s.printed)
                                    && (s.startGame ==> t.startGame) && (s.paused ==> !t.printed))
            && (s.view == MGame ==> t.paused == s.paused && (s.startGame ==> t.printed == s.printed && t.startGame))
            && (Menu(s.view) ==> t.paused == s.paused)
  {
    hide Blit, StartGame, Setup.Valid, Proper, EntryImage, Filled;
  }

  /** The call of `start_game` happens exactly on the step from a menu to a
      game. */
  lemma StepFacts(c: Setup, s: State, e: Event)
    requires c.Valid() && Proper(c, s) && Flags(s)
    ensures var t := Step(c, s, e);
            && Flags(t) && Edge(s.view, t.view)
            && t.starts == s.starts + if Menu(s.view) && Playing(t.view) then 1 else 0
  {
    HandleFacts(c, s, e);
    SettleFacts(c, Handle(c, s, e));
    if Handle(c, s, e).fault { HandleFault(c, s, e); }
    hide Handle, Settle, Setup.Valid, Proper;
  }

  lemma HandleFault(c: Setup, s: State, e: Event)
    requires c.Valid() && Proper(c, s) && Handle(c, s, e).fault
    ensures Handle(c, s, e) == s.(fault := true)
  {
    hide Dispatch, Setup.Valid, Proper;
  }

  /** How many steps of a run go from a menu to a game. */
  ghost function GamesChosen(c: Setup, s: State, es: seq<Event>): nat
    requires c.Valid() && Proper(c, s)
    decreases |es|
  {
    if es == [] then 0
    else
      (if Menu(s.view) && Playing(Step(c, s, es[0]).view) then 1 else 0)
      + GamesChosen(c, Step(c, s, es[0]), es[1..])
  }

  lemma {:induction false} RunFacts(c: Setup, s: State, es: seq<Event>)
    requires c.Valid() && Proper(c, s) && Flags(s)
    ensures var t := Run(c, s, es);
            && Flags(t)
            && t.starts == s.starts + GamesChosen(c, s, es)
            && (s.view != Main ==> t.view != Main)
            && (s.view == MGame ==> t.view == MGame)
            && (s.view == Quit ==> t.view == Quit)
    decreases |es|
  {
    hide Step, Flags, Setup.Valid, Proper;
    if es != [] {
      StepFacts(c, s, es[0]);
      RunFacts(c, Step(c, s, es[0]), es[1..]);
    }
  }

  lemma BootFlags(c: Setup)
    requires c.Valid()
    ensures Flags(AtReceive(c, [])) && AtReceive(c, []).view == Main && AtReceive(c, []).starts == 0
  {
    hide Blit, Setup.Valid;
  }

  /** The flag and reachability invariant of the whole program: at every
      receive the flags are those of the screen, and `start_game` has run once
      for every game chosen on a menu; resuming from pause never runs it. */
  lemma FlagInvariant(c: Setup, es: seq<Event>)
    requires c.Valid()
    ensures Flags(AtReceive(c, es))
    ensures AtReceive(c, es).starts == GamesChosen(c, AtReceive(c, []), es)
  {
    hide Settle, Boot, Flags, Setup.Valid, Proper, Step;
    BootFlags(c);
    RunFacts(c, AtReceive(c, []), es);
  }

  /** The main menu is never shown again once it is left, and the multiplayer
      screen is never left. */
  lemma NoReturn(c: Setup, es: seq<Event>, fs: seq<Event>)
    requires c.Valid()
    ensures AtReceive(c, es).view != Main ==> AtReceive(c, es + fs).view != Main
    ensures AtReceive(c, es).view == MGame ==> AtReceive(c, es + fs).view == MGame
    ensures AtReceive(c, es).view == Quit ==> AtReceive(c, es + fs).view == Quit
  {
    hide Settle, Boot, Flags, Setup.Valid, Proper, Step;
    FlagInvariant(c, es);
    RunAppend(c, AtReceive(c, []), es, fs);
    RunFacts(c, AtReceive(c, es), fs);
  }

  /** Event `i` of the run begins a game. */
  ghost predicate BegunAt(c: Setup, es: seq<Event>, i: nat)
    requires c.Valid()
  {
    i < |es| && Menu(AtReceive(c, es[..i]).view) && AtReceive(c, es[..i + 1]).view == SGame
  }

  lemma AtReceiveAppend(c: Setup, es: seq<Event>, e: Event, fs: seq<Event>)
    requires c.Valid()
    ensures AtReceive(c, es + [e] + fs) == Run(c, Step(c, AtReceive(c, es), e), fs)
  {
    hide Settle, Boot, Setup.Valid, Proper, Step;
    var s0 := AtReceive(c, []);
    assert es + [e] + fs == es + ([e] + fs);
    RunAppend(c, s0, es, [e] + fs);
    assert ([e] + fs)[0] == e && ([e] + fs)[1..] == fs;
  }

  /** A run seen from one of its events. */
  lemma AtReceiveFrom(c: Setup, es: seq<Event>, i: nat)
    requires c.Valid() && i < |es|
    ensures AtReceive(c, es[..i + 1]) == Step(c, AtReceive(c, es[..i]), es[i])
    ensures AtReceive(c, es) == Run(c, AtReceive(c, es[..i + 1]), es[i + 1..])
  {
    hide AtReceive, Step, Setup.Valid, Proper;
    AtReceiveAppend(c, es[..i], es[i], []);
    AtReceiveAppend(c, es[..i], es[i], es[i + 1..]);
    assert es[..i] + [es[i]] + [] == es[..i + 1];
    assert es[..i] + [es[i]] + es[i + 1..] == es;
  }

  /** Every receive of a game, on the screen or paused, belongs to a game begun
      earlier on a menu, with no `start_game` since. */
  lemma {:induction false} GameBegan(c: Setup, es: seq<Event>) returns (i: nat)
    requires c.Valid() && InGame(AtReceive(c, es))
    ensures BegunAt(c, es, i) && AtReceive(c, es[..i + 1]).starts == AtReceive(c, es).starts
    decreases |es|
  {
    hide AtReceive, Step, Setup.Valid, Proper, Flags;
    BootFlags(c);
    assert es != [];
    var n := |es| - 1;
    var s := AtReceive(c, es[..n]);
    FlagInvariant(c, es[..n]);
    AtReceiveFrom(c, es, n);
    assert es[..n + 1] == es;
    StepFacts(c, s, es[n]);
    if InGame(s) {
      i := GameBegan(c, es[..n]);
      assert es[..n][..i] == es[..i] && es[..n][..i + 1] == es[..i + 1];
    } else {
      i := n;
    }
  }

  // ---------------------------------------------------- the settled command

  /** The stored command can no longer move its player. */
  ghost predicate Settled(s: State) {
    var h := s.game.RiderOf(s.nextMove.player).heading;
    s.nextMove.dir == Unchanged || s.nextMove.dir == h || s.nextMove.dir == Opposite(h)
  }

  lemma SettledMoveIsVoid(m: Mode, g: Game, mv: MovementInfo)
    requires Sized(m, g) && mv.dir != Unchanged
    requires mv.dir == g.RiderOf(mv.player).heading || mv.dir == Opposite(g.RiderOf(mv.player).heading)
    ensures MovePlayer(m, g, mv, false) == Done(g, 0)
    ensures Drawn(g.RiderOf(mv.player), mv, false) == []
  {
    hide Mode.Size, Probe, Painted, RectPixels, Inside, Mode.Pixels, Mode.Index;
  }

  lemma MoveSettles(m: Mode, g: Game, mv: MovementInfo)
    requires Sized(m, g) && mv.dir != Unchanged
    ensures var o := MovePlayer(m, g, mv, false);
            o.Done? ==> var h := o.game.RiderOf(mv.player).heading; mv.dir == h || mv.dir == Opposite(h)
  {
    hide Mode.Size, Probe, Painted, RectPixels, Inside, Mode.Pixels, Mode.Index;
  }

  lemma TickKeepsHeadings(m: Mode, g: Game)
    requires Sized(m, g)
    ensures var o := PassiveMove(m, g);
            o.Done? ==> o.game.blue.heading == g.blue.heading && o.game.orange.heading == g.orange.heading
  {
    hide Mode.Size, Probe, Painted, RectPixels, Inside, Mode.Pixels, Mode.Index;
  }

  /** Every handled keyboard interrupt leaves the command settled. */
  lemma KeyboardSettles(c: Setup, s: State, p: Port, inGame: bool)
    requires c.Valid() && Proper(c, s)
    ensures var t := OnKeyboard(c, s, p, inGame); !t.fault ==> Settled(t)
  {
    hide MovePlayer, Setup.Valid, Mode.Size, CursorInside, Drawn, DirectionRelease, Opposite, PauseKey;
    var t := KbcIh(s, p);
    if t.nextMove.dir != Unchanged {
      MoveSettles(c.mode, t.game, t.nextMove);
    }
  }

  lemma TimerKeepsSettled(c: Setup, s: State)
    requires c.Valid() && Proper(c, s) && Settled(s)
    ensures Settled(OnTimer(c, s))
  {
    hide PassiveMove, Setup.Valid, Mode.Size, CursorInside, TickDrawn, Opposite;
    TickKeepsHeadings(c.mode, s.game);
  }

  lemma HandleKeepsSettled(c: Setup, s: State, e: Event)
    requires c.Valid() && Proper(c, s)
    ensures Settled(s) ==> Settled(Handle(c, s, e))
    ensures (s.view == SGame || s.view == Pause) && e.Hardware? && e.keyboard.Some? && !Handle(c, s, e).fault
            ==> Settled(Handle(c, s, e))
  {
    hide OnTimer, OnKeyboard, Setup.Valid, Proper, Blit, Opposite, Feed, MoveCursor, InPlace;
    if !s.fault && e.Hardware? {
      if s.view == SGame {
        if Settled(s) { TimerKeepsSettled(c, s); }
        if e.keyboard.Some? {
          KeyboardSettles(c, if e.timer then OnTimer(c, s) else s, e.keyboard.value, true);
        }
      } else if s.view == Pause && e.keyboard.Some? {
        KeyboardSettles(c, s, e.keyboard.value, false);
      }
    }
  }

  /** A step that does not start a game keeps the command settled. */
  lemma StepKeepsSettled(c: Setup, s: State, e: Event)
    requires c.Valid() && Proper(c, s)
    requires Settled(s) && Step(c, s, e).starts == s.starts
    ensures Settled(Step(c, s, e))
  {
    HandleKeepsSettled(c, s, e);
    HandleFacts(c, s, e);
    SettleFacts(c, Handle(c, s, e));
    hide Handle, Settle, Setup.Valid, Proper, Opposite;
  }

  /** On the menus the keyboard is never read. */
  lemma StepKeepsCommand(c: Setup, s: State, e: Event)
    requires c.Valid() && Proper(c, s) && Menu(s.view)
    ensures Step(c, s, e).nextMove == s.nextMove
  {
    SettleFacts(c, Handle(c, s, e));
    MenuKeepsCommand(c, s, e);
    hide Settle, Setup.Valid, Proper, Handle;
  }

  lemma MenuKeepsCommand(c: Setup, s: State, e: Event)
    requires c.Valid() && Proper(c, s) && Menu(s.view)
    ensures Handle(c, s, e).nextMove == s.nextMove
  {
    hide Setup.Valid, Proper, Blit, Feed, MoveCursor, InPlace, OnGame, OnKeyboard, MenuImage;
  }

  ghost predicate Fresh(s: State) {
    && (s.starts == 0 ==> s.nextMove.dir == Unchanged && s.view != SGame && s.view != Pause)
    && (s.starts <= 1 ==> Settled(s))
  }

  lemma StepFresh(c: Setup, s: State, e: Event)
    requires c.Valid() && Proper(c, s) && Flags(s) && Fresh(s)
    ensures Fresh(Step(c, s, e))
  {
    StepFacts(c, s, e);
    if Step(c, s, e).starts == s.starts {
      if s.starts <= 1 { StepKeepsSettled(c, s, e); }
    }
    if Menu(s.view) { StepKeepsCommand(c, s, e); }
    hide Step, Setup.Valid, Proper, Opposite;
  }

  lemma {:induction false} RunFresh(c: Setup, s: State, es: seq<Event>)
    requires c.Valid() && Proper(c, s) && Flags(s) && Fresh(s)
    ensures Fresh(Run(c, s, es))
    decreases |es|
  {
    hide Step, Flags, Setup.Valid, Proper, Fresh;
    if es != [] {
      StepFacts(c, s, es[0]);
      StepFresh(c, s, es[0]);
      RunFresh(c, Step(c, s, es[0]), es[1..]);
    }
  }

  /** Through the whole first game the stored command is settled. */
  lemma FirstGameSettled(c: Setup, es: seq<Event>)
    requires c.Valid() && AtReceive(c, es).starts <= 1
    ensures Settled(AtReceive(c, es))
  {
    BootFlags(c);
    assert Fresh(AtReceive(c, [])) by { hide Blit, Setup.Valid; }
    RunFresh(c, AtReceive(c, []), es);
  }

  ghost predicate QuietEvent(e: Event) {
    e.Hardware? && e.keyboard.Some? ==> !DirectionRelease(e.keyboard.value)
  }

  /** With a settled command, a keyboard interrupt that is no direction release
      moves nobody and paints nothing. */
  lemma QuietKeyboardIsVoid(c: Setup, s: State, p: Port, inGame: bool)
    requires c.Valid() && Proper(c, s) && Settled(s) && !DirectionRelease(p)
    ensures OnKeyboard(c, s, p, inGame) == KbcIh(s, p) && KbcIh(s, p).game == s.game
  {
    hide MovePlayer, Drawn, Setup.Valid, Mode.Size, CursorInside, Opposite, PauseKey, DirectionRelease;
    if s.nextMove.dir != Unchanged {
      SettledMoveIsVoid(c.mode, s.game, s.nextMove);
    }
  }

  /** The game loop, with a settled command and no direction release. */
  lemma QuietGame(c: Setup, s: State, q: Event)
    requires c.Valid() && Proper(c, s) && Settled(s) && q.Hardware? && QuietEvent(q)
    ensures var t := OnGame(c, s, q);
            t == OnGame(c, s, q.(keyboard := None)).(view := t.view, scanCode := t.scanCode)
  {
    hide OnTimer, OnKeyboard, Setup.Valid, Proper, Settled, DirectionRelease, KbcIh;
    if q.keyboard.Some? {
      var t := if q.timer then OnTimer(c, s) else s;
      if q.timer { TimerKeepsSettled(c, s); }
      QuietKeyboardIsVoid(c, t, q.keyboard.value, true);
      QuietReading(t, q.keyboard.value);
    }
  }

  /** With a settled command, the keyboard bit of any notification without a
      direction release changes at most the screen and the scan code: riders,
      frame, blocks and faults are as if the bit had not been there. */
  lemma QuietBitIsVoid(c: Setup, s: State, q: Event)
    requires c.Valid() && Proper(c, s) && Settled(s) && q.Hardware? && QuietEvent(q)
    ensures var t := Handle(c, s, q);
            t == Handle(c, s, q.(keyboard := None)).(view := t.view, scanCode := t.scanCode)
  {
    hide Dispatch, Setup.Valid, Proper, Settled, QuietEvent;
    QuietDispatch(c, s, q);
  }

  lemma QuietDispatch(c: Setup, s: State, q: Event)
    requires c.Valid() && Proper(c, s) && Settled(s) && q.Hardware? && QuietEvent(q)
    ensures var t := Dispatch(c, s, q);
            t == Dispatch(c, s, q.(keyboard := None)).(view := t.view, scanCode := t.scanCode)
  {
    hide OnGame, OnKeyboard, OnMenuMouse, Setup.Valid, Proper, Settled, DirectionRelease, KbcIh, MenuImage;
    if s.view == SGame {
      QuietGame(c, s, q);
    } else if s.view == Pause && q.keyboard.Some? {
      QuietKeyboardIsVoid(c, s, q.keyboard.value, false);
      QuietReading(s, q.keyboard.value);
    }
  }

  lemma QuietReading(s: State, p: Port)
    requires !DirectionRelease(p)
    ensures var t := KbcIh(s, p); t == s.(view := t.view, scanCode := t.scanCode)
  {
    hide PauseKey, DirectionRelease, KeyStatusOk;
  }

  /** A settled command stays settled until the next `start_game`, whatever
      arrives and whichever game it is. */
  lemma {:induction false} SettledUntilNextStart(c: Setup, s: State, es: seq<Event>)
    requires c.Valid() && Proper(c, s) && Flags(s) && Settled(s) && Run(c, s, es).starts == s.starts
    ensures Settled(Run(c, s, es))
    decreases |es|
  {
    hide Step, Flags, Setup.Valid, Proper, Settled;
    if es != [] {
      StepFacts(c, s, es[0]);
      RunFacts(c, Step(c, s, es[0]), es[1..]);
      StepKeepsSettled(c, s, es[0]);
      SettledUntilNextStart(c, Step(c, s, es[0]), es[1..]);
    }
  }

  /** A notification that reaches `kbc_ih`: it comes while a game is on the
      screen or paused. */
  ghost predicate ReadsKeyboard(s: State, e: Event) {
    InGame(s) && e.Hardware? && e.keyboard.Some?
  }

  /** On every run of the program: once a keyboard interrupt has been handled,
      and until the next `start_game`, a notification without a direction release
      does to the riders and to the frame what it would do without its keyboard
      bit. */
  lemma QuietUntilNextGame(c: Setup, es: seq<Event>, e: Event, fs: seq<Event>, q: Event)
    requires c.Valid() && ReadsKeyboard(AtReceive(c, es), e) && !Handle(c, AtReceive(c, es), e).fault
    requires AtReceive(c, es + [e] + fs).starts == AtReceive(c, es).starts
    requires q.Hardware? && QuietEvent(q)
    ensures var u := AtReceive(c, es + [e] + fs); var t := Handle(c, u, q);
            && Settled(u)
            && t == Handle(c, u, q.(keyboard := None)).(view := t.view, scanCode := t.scanCode)
  {
    var s := AtReceive(c, es);
    FlagInvariant(c, es);
    StepFacts(c, s, e);
    HandleKeepsSettled(c, s, e);
    HandleFacts(c, s, e);
    SettleFacts(c, Handle(c, s, e));
    assert Settled(Step(c, s, e)) by { hide Handle, Settle, Setup.Valid, Proper, Opposite; }
    hide Step, Handle, Flags, Settle, Boot, Setup.Valid, Proper, Settled, AtReceive;
    AtReceiveAppend(c, es, e, fs);
    RunFacts(c, Step(c, s, e), fs);
    SettledUntilNextStart(c, Step(c, s, e), fs);
    QuietBitIsVoid(c, AtReceive(c, es + [e] + fs), q);
  }

  /** An unsettled command moves its player. */
  lemma UnsettledMoves(m: Mode, g: Game, mv: MovementInfo)
    requires Sized(m, g) && mv.dir != Unchanged && MovePlayer(m, g, mv, false).Done?
    requires mv.dir != g.RiderOf(mv.player).heading && mv.dir != Opposite(g.RiderOf(mv.player).heading)
    ensures MovePlayer(m, g, mv, false).game.RiderOf(mv.player) != g.RiderOf(mv.player)
  {
    hide Mode.Size, Probe, Painted, RectPixels, Inside, Mode.Pixels, Mode.Index, Opposite;
  }

  ghost predicate SameRiders(g: Game, h: Game) { g.blue == h.blue && g.orange == h.orange }

  lemma QuietKeyMovesIff(c: Setup, s: State, p: Port, inGame: bool)
    requires c.Valid() && Proper(c, s) && !s.fault && !DirectionRelease(p) && !OnKeyboard(c, s, p, inGame).fault
    ensures SameRiders(OnKeyboard(c, s, p, inGame).game, s.game) <==> Settled(s)
  {
    hide MovePlayer, Drawn, Setup.Valid, Mode.Size, CursorInside, PauseKey, DirectionRelease;
    if Settled(s) {
      QuietKeyboardIsVoid(c, s, p, inGame);
    } else {
      UnsettledMoves(c.mode, s.game, s.nextMove);
    }
  }

  lemma TimerSettledIff(c: Setup, s: State)
    requires c.Valid() && Proper(c, s)
    ensures Settled(OnTimer(c, s)) <==> Settled(s)
    ensures var t := OnTimer(c, s).game;
            t.blue.heading == s.game.blue.heading && t.orange.heading == s.game.orange.heading
    ensures OnTimer(c, s).nextMove == s.nextMove
  {
    hide PassiveMove, Setup.Valid, Mode.Size, CursorInside, TickDrawn, Opposite;
    TickKeepsHeadings(c.mode, s.game);
  }

  /** At any receive of a game, with or without a timer interrupt at the same
      time: a keyboard interrupt that is no direction release moves a player if
      and only if the stored command is not settled. */
  lemma StaleCommandIff(c: Setup, s: State, e: Event)
    requires c.Valid() && Proper(c, s) && InGame(s) && !s.fault
    requires e.Hardware? && e.keyboard.Some? && QuietEvent(e) && !Handle(c, s, e).fault
    ensures SameRiders(Handle(c, s, e).game, Handle(c, s, e.(keyboard := None)).game) <==> Settled(s)
  {
    hide OnTimer, OnKeyboard, OnMenuMouse, Setup.Valid, Proper, Settled, DirectionRelease, MenuImage;
    if s.view == SGame {
      StaleInGame(c, s, e);
      hide OnGame;
    } else {
      QuietKeyMovesIff(c, s, e.keyboard.value, false);
    }
  }

  lemma StaleInGame(c: Setup, s: State, e: Event)
    requires c.Valid() && Proper(c, s) && !s.fault
    requires e.Hardware? && e.keyboard.Some? && QuietEvent(e) && !OnGame(c, s, e).fault
    ensures !OnGame(c, s, e.(keyboard := None)).fault
    ensures SameRiders(OnGame(c, s, e).game, OnGame(c, s, e.(keyboard := None)).game) <==> Settled(s)
  {
    hide OnTimer, OnKeyboard, Setup.Valid, Proper, Settled, DirectionRelease;
    TimerSettledIff(c, s);
    var t := if e.timer then OnTimer(c, s) else s;
    if !t.fault { QuietKeyMovesIff(c, t, e.keyboard.value, true); }
  }

  /** No event of the run reads the keyboard. */
  ghost predicate KeyboardUnread(c: Setup, s: State, es: seq<Event>)
    requires c.Valid() && Proper(c, s)
    decreases |es|
  {
    es == [] || (!ReadsKeyboard(s, es[0]) && KeyboardUnread(c, Step(c, s, es[0]), es[1..]))
  }

  /** The headings `start_game` sets. */
  ghost predicate AtTheStart(s: State) { s.game.blue.heading == Right && s.game.orange.heading == Left }

  lemma UnreadStep(c: Setup, s: State, e: Event)
    requires c.Valid() && Proper(c, s) && Flags(s) && !ReadsKeyboard(s, e) && (s.view == SGame ==> AtTheStart(s))
    ensures var t := Step(c, s, e); t.nextMove == s.nextMove && (t.view == SGame && s.view != Pause ==> AtTheStart(t))
    ensures s.view != Pause ==> Step(c, s, e).view != Pause
  {
    HandleFacts(c, s, e);
    SettleFacts(c, Handle(c, s, e));
    UnreadHandle(c, s, e);
    if Menu(s.view) && Handle(c, s, e).view == SGame && !Handle(c, s, e).fault { BeginHeadings(c, Handle(c, s, e)); }
    if Handle(c, s, e).fault { HandleFault(c, s, e); }
    hide Handle, Settle, Setup.Valid, Proper;
  }

  lemma UnreadHandle(c: Setup, s: State, e: Event)
    requires c.Valid() && Proper(c, s) && !ReadsKeyboard(s, e)
    ensures var t := Handle(c, s, e);
            && t.nextMove == s.nextMove
            && (InGame(s) ==> t.game.blue.heading == s.game.blue.heading && t.game.orange.heading == s.game.orange.heading)
            && (t.view == Pause ==> s.view == Pause)
  {
    hide OnTimer, OnKeyboard, Setup.Valid, Proper, Blit, Feed, MoveCursor, InPlace, MenuImage;
    TimerSettledIff(c, s);
    TimerFacts(c, s);
  }

  lemma BeginHeadings(c: Setup, s: State)
    requires c.Valid() && Proper(c, s) && s.view == SGame && !s.startGame
    ensures AtTheStart(Settle(c, s))
  {
    hide Setup.Valid, Proper, Filled;
  }

  lemma {:induction false} UnreadRun(c: Setup, s: State, es: seq<Event>)
    requires c.Valid() && Proper(c, s) && Flags(s) && s.view != Pause && (s.view == SGame ==> AtTheStart(s))
    requires KeyboardUnread(c, s, es)
    ensures var t := Run(c, s, es); t.nextMove == s.nextMove && (t.view == SGame ==> AtTheStart(t))
    decreases |es|
  {
    hide Step, Flags, Setup.Valid, Proper, AtTheStart, ReadsKeyboard;
    if es != [] {
      StepFacts(c, s, es[0]);
      UnreadStep(c, s, es[0]);
      UnreadRun(c, Step(c, s, es[0]), es[1..]);
    }
  }

  /** `start_game` resets the headings but not the stored command.  On every run:
      the first key of a game, however many ticks after its beginning, if it is
      no direction release, moves a player if and only if the command left over
      from before the game is vertical. */
  lemma FirstKeyMovesIff(c: Setup, es: seq<Event>, i: nat, e: Event)
    requires c.Valid() && BegunAt(c, es, i) && KeyboardUnread(c, AtReceive(c, es[..i]), es[i..])
    requires AtReceive(c, es).view == SGame && !AtReceive(c, es).fault
    requires e.Hardware? && e.keyboard.Some? && QuietEvent(e) && !Handle(c, AtReceive(c, es), e).fault
    ensures var s := AtReceive(c, es); var leftover := AtReceive(c, es[..i]).nextMove.dir;
            SameRiders(Handle(c, s, e).game, Handle(c, s, e.(keyboard := None)).game)
            <==> leftover != Up && leftover != Down
  {
    hide AtReceive, Flags, Setup.Valid, Proper, Step, Run, Handle, KeyboardUnread, QuietEvent, SameRiders;
    var before := AtReceive(c, es[..i]);
    FlagInvariant(c, es[..i]);
    AtReceiveAppend(c, es[..i], es[i], es[i + 1..]);
    assert es[..i] + [es[i]] + es[i + 1..] == es;
    RunCons(c, before, es[i..]);
    assert es[i..][1..] == es[i + 1..];
    UnreadRun(c, before, es[i..]);
    StaleCommandIff(c, AtReceive(c, es), e);
  }

  lemma RunCons(c: Setup, s: State, es: seq<Event>)
    requires c.Valid() && Proper(c, s) && es != []
    ensures Run(c, s, es) == Run(c, Step(c, s, es[0]), es[1..])
  {
    hide Step, Setup.Valid, Proper;
  }

  // -------------------------------------------------------- pause and resume

  /** A pause event saves the frame as it is after the event, and stores a
      settled command. */
  lemma PauseSaves(c: Setup, s: State, e: Event)
    requires c.Valid() && Proper(c, s) && Flags(s) && s.view == SGame
    requires Step(c, s, e).view == Pause
    ensures var h := Handle(c, s, e); var t := Step(c, s, e);
            && !t.fault && Flags(t) && Settled(t)
            && t.saved == h.game.fb && t.game.blue == h.game.blue && t.game.orange == h.game.orange
            && t == h.(saved := t.saved, printed := true, paused := true, game := t.game)
  {
    StepFacts(c, s, e);
    HandleFacts(c, s, e);
    HandleKeepsSettled(c, s, e);
    PauseNeedsKey(c, s, e);
    hide Handle, Setup.Valid, Proper, Blit, Opposite;
  }

  lemma PauseNeedsKey(c: Setup, s: State, e: Event)
    requires c.Valid() && Proper(c, s) && s.view == SGame && Handle(c, s, e).view == Pause
    ensures e.Hardware? && e.keyboard.Some? && PauseKey(e.keyboard.value)
  {
    hide MovePlayer, PassiveMove, Setup.Valid, Proper, Drawn, TickDrawn, KeyStatusOk, DirectionKey;
  }

  /** While paused, a quiet event is either P, which resumes on the saved
      frame, or changes nothing but the last scan code. */
  lemma PausedStep(c: Setup, s: State, e: Event)
    requires c.Valid() && Proper(c, s) && Flags(s) && s.view == Pause && !s.fault && Settled(s) && QuietEvent(e)
    ensures var t := Step(c, s, e);
            if e.Hardware? && e.keyboard.Some? && PauseKey(e.keyboard.value)
            then t == s.(view := SGame, game := s.game.(fb := s.saved), paused := false, printed := false,
                         scanCode := t.scanCode)
            else t == s.(scanCode := t.scanCode)
  {
    if e.Hardware? && e.keyboard.Some? {
      QuietKeyboardIsVoid(c, s, e.keyboard.value, false);
    }
    hide OnKeyboard, Setup.Valid, Proper, Blit, Settled, KeyStatusOk;
  }

  ghost predicate Waiting(e: Event) {
    QuietEvent(e) && !(e.Hardware? && e.keyboard.Some? && PauseKey(e.keyboard.value))
  }

  lemma {:induction false} PausedRun(c: Setup, s: State, es: seq<Event>)
    requires c.Valid() && Proper(c, s) && Flags(s) && s.view == Pause && !s.fault && Settled(s)
    requires forall i :: 0 <= i < |es| ==> Waiting(es[i])
    ensures Run(c, s, es) == s.(scanCode := Run(c, s, es).scanCode)
    decreases |es|
  {
    if es != [] {
      PausedStep(c, s, es[0]);
      hide Step, Setup.Valid, Proper, PauseKey, DirectionRelease;
      PausedRun(c, Step(c, s, es[0]), es[1..]);
    }
  }

  /** The pause/resume round trip: whatever arrives between the pausing and the
      resuming key, as long as no direction key is released, the game resumes
      with the frame, positions, headings and tick count it was paused with. */
  lemma PauseResume(c: Setup, s: State, e: Event, es: seq<Event>, f: Event)
    requires c.Valid() && Proper(c, s) && Flags(s) && s.view == SGame && Step(c, s, e).view == Pause
    requires forall i :: 0 <= i < |es| ==> Waiting(es[i])
    requires f.Hardware? && f.keyboard.Some? && PauseKey(f.keyboard.value)
    ensures var h := Handle(c, s, e); var r := Run(c, s, [e] + es + [f]);
            && r.view == SGame && !r.fault
            && r.game == h.game && r.ticks == h.ticks
            && r.entered == h.entered && r.starts == h.starts && r.nextMove == h.nextMove
            && r.cursor == h.cursor && r.mouse == h.mouse
  {
    PauseSaves(c, s, e);
    var t := Step(c, s, e);
    PausedRun(c, t, es);
    var u := Run(c, t, es);
    assert Settled(u) && Flags(u) && u.view == Pause;
    PausedStep(c, u, f);
    assert [e] + es + [f] == [e] + (es + [f]);
    assert ([e] + (es + [f]))[1..] == es + [f];
    RunAppend(c, t, es, [f]);
    assert [f][1..] == [];
    assert Run(c, u, [f]) == Step(c, u, f);
    hide Step, Handle, Setup.Valid, Proper, Settled, PauseKey;
  }

  /** Direction keys released during a pause do move the players: exactly the
      turns, and with the frame out of sight. */
  lemma DirectionInPauseIff(c: Setup, s: State, p: Port)
    requires c.Valid() && Proper(c, s) && s.view == Pause && !s.fault && DirectionRelease(p)
    requires !Handle(c, s, Hardware(false, Some(p), None)).fault
    ensures var t := Handle(c, s, Hardware(false, Some(p), None));
            var mv := DirectionKey(p.data).value; var h := s.game.RiderOf(mv.player).heading;
            && t.saved == s.saved
            && (t.game.RiderOf(mv.player) != s.game.RiderOf(mv.player) <==> mv.dir != h && mv.dir != Opposite(h))
  {
    hide Setup.Valid, Mode.Size, Probe, Painted, RectPixels, Inside, Mode.Pixels, Mode.Index, W16,
         KeyStatusOk, CursorInside;
  }

  /** All the receives of a run stay on the pause screen. */
  ghost predicate StaysPaused(c: Setup, s: State, es: seq<Event>)
    requires c.Valid() && Proper(c, s)
    decreases |es|
  {
    s.view == Pause && (es == [] || StaysPaused(c, Step(c, s, es[0]), es[1..]))
  }

  /** Even with direction keys, the frame, the tick count and the blocks drawn
      come back as they were saved. */
  lemma {:induction false} FrameSurvivesPause(c: Setup, s: State, es: seq<Event>, f: Event)
    requires c.Valid() && Proper(c, s) && Flags(s) && StaysPaused(c, s, es)
    requires Step(c, Run(c, s, es), f).view == SGame
    ensures var r := Step(c, Run(c, s, es), f);
            r.game.fb == s.saved && r.ticks == s.ticks && r.entered == s.entered && r.starts == s.starts
    decreases |es|
  {
    if es == [] {
      PauseKeeps(c, s, f);
    } else {
      PauseKeeps(c, s, es[0]);
      StepFacts(c, s, es[0]);
      hide Step, Setup.Valid, Proper, Flags;
      FrameSurvivesPause(c, Step(c, s, es[0]), es[1..], f);
    }
  }

  lemma PauseKeeps(c: Setup, s: State, e: Event)
    requires c.Valid() && Proper(c, s) && Flags(s) && s.view == Pause
    ensures var t := Step(c, s, e);
            && t.saved == s.saved && t.ticks == s.ticks && t.entered == s.entered && t.starts == s.starts
            && (t.view == SGame ==> t.game.fb == s.saved)
  {
    hide MovePlayer, Blit, Setup.Valid, Proper, KeyStatusOk, DirectionKey, Drawn;
  }
}
