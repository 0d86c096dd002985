/** Every day run of the whole program, with no hypothesis about where the riders
    are: what each notification of a game leads to, in linear pixel indices. */
module Edge {
  import opened Raster
  import opened LightCycles
  import opened Arena
  import opened Linear
  import opened Mouse
  import opened Console
  import opened ConsoleInvariants
  import opened Winner

  /** By day, in a mode where the probe sees both colours. */
  ghost predicate ByDay(c: Setup) { c.Valid() && c.mode.bpp >= 2 && c.hour < NIGHT }

  /** The game frame, on the screen or saved, is painted exactly at the blocks
      drawn, and both riders have a real direction. */
  ghost predicate Kept(c: Setup, s: State)
    requires c.Valid()
  {
    && (s.view == SGame ==> Marked(c.mode, s.game.fb, Marks(c.mode, s.entered)))
    && (s.view == Pause ==> Marked(c.mode, s.saved, Marks(c.mode, s.entered)))
    && (InGame(s) ==> Headed(s.game))
  }

  ghost predicate GameKept(c: Setup, s: State)
    requires c.Valid()
  {
    Marked(c.mode, s.game.fb, Marks(c.mode, s.entered)) && Headed(s.game)
  }

  // ---------------------------------------------------- the linear verdict

  ghost predicate BlueBumps(c: Setup, s: State) { Bumps(c.mode, s.entered, Pushed(s.game.blue)) }

  ghost function BlueDrawn(s: State): seq<Block> { s.entered + [Block(At(Pushed(s.game.blue)), Blue)] }

  /** Blue moves first, so its new block is already in orange's way. */
  ghost predicate OrangeBumps(c: Setup, s: State) { Bumps(c.mode, BlueDrawn(s), Pushed(s.game.orange)) }

  /** Blocks and riders once the timer bit has been served. */
  ghost function EdgeTicked(c: Setup, s: State, e: Event): Arena
    requires e.Hardware?
  {
    if !e.timer || !Due(s) then ArenaOf(s)
    else if BlueBumps(c, s) then Arena(BlueDrawn(s), Pushed(s.game.blue), s.game.orange)
    else Arena(BlueDrawn(s) + [Block(At(Pushed(s.game.orange)), Orange)], Pushed(s.game.blue), Pushed(s.game.orange))
  }

  /** What the key command of the notification decides. */
  ghost function EdgeDecision(c: Setup, s: State, e: Event): Decision
    requires e.Hardware?
  {
    var mv := CommandOf(s, e);
    if KeyMoves(s, e) then Decide(EdgeTicked(c, s, e).RiderOf(mv.player), mv.dir, false) else Ignore
  }

  function Entering(a: Arena, p: Player, d: Decision): Arena {
    match d
    case Enter(to) => a.With(p, to).(entered := a.entered + [Block(At(to), p)])
    case _ => a
  }

  /** Blocks and riders after the notification. */
  ghost function EdgeAfter(c: Setup, s: State, e: Event): Arena
    requires e.Hardware?
  {
    Entering(EdgeTicked(c, s, e), CommandOf(s, e).player, EdgeDecision(c, s, e))
  }

  /** The screen after the notification. */
  ghost function EdgeVerdict(c: Setup, s: State, e: Event): View
    requires e.Hardware?
  {
    var d := EdgeDecision(c, s, e);
    if d.Enter? && Bumps(c.mode, EdgeTicked(c, s, e).entered, d.to) then Quit
    else if e.keyboard.Some? && PauseKey(e.keyboard.value) then Pause
    else if e.timer && Due(s) && BlueBumps(c, s) then GoTwo
    else if e.timer && Due(s) && OrangeBumps(c, s) then GoOne
    else SGame
  }

  // ------------------------------------------------------------ one event

  lemma TimerEdge(c: Setup, s: State)
    requires ByDay(c) && Proper(c, s) && GameKept(c, s) && !s.fault && !OnTimer(c, s).fault
    ensures var t := OnTimer(c, s);
            && GameKept(c, t) && t.nextMove == s.nextMove
            && ArenaOf(t) == EdgeTicked(c, s, Hardware(true, None, None))
            && t.view == if Due(s) && BlueBumps(c, s) then GoTwo
                         else if Due(s) && OrangeBumps(c, s) then GoOne
                         else s.view
  {
    hide PassiveMove, TickDrawn, Mode.Size, Marked, Setup.Valid, CursorInside, Bumps, Pushed;
    if Due(s) {
      TickMarked(c.mode, s.game, s.entered);
      TickKeepsHeadings(c.mode, s.game);
    }
  }

  lemma KeyboardEdge(c: Setup, s: State, p: Port, inGame: bool)
    requires ByDay(c) && Proper(c, s) && GameKept(c, s) && !s.fault && !OnKeyboard(c, s, p, inGame).fault
    ensures var t := OnKeyboard(c, s, p, inGame); var mv := CommandAfterKey(s.nextMove, p);
            var d := if mv.dir == Unchanged then Ignore else Decide(s.game.RiderOf(mv.player), mv.dir, false);
            && (inGame ==> GameKept(c, t))
            && (inGame ==> ArenaOf(t) == Entering(ArenaOf(s), mv.player, d))
            && t.view == if d.Enter? && Bumps(c.mode, s.entered, d.to) then Quit else ViewAfterKey(s.view, p)
  {
    hide MovePlayer, Mode.Size, Marked, Setup.Valid, CursorInside, Bumps, DirectionRelease, PauseKey, Decide;
    var mv := CommandAfterKey(s.nextMove, p);
    if mv.dir != Unchanged {
      MoveMarked(c.mode, s.game, s.entered, mv, false);
      OneMoves(c.mode, s.game, mv, false);
      KeyDecides(s.game, mv);
      assert forall q :: q != mv.player ==> MovePlayer(c.mode, s.game, mv, false).game.RiderOf(q) == s.game.RiderOf(q);
      OtherRider(s.game, MovePlayer(c.mode, s.game, mv, false).game, mv.player);
    } else {
      assert s.entered + [] == s.entered;
    }
  }

  lemma KeyDecides(g: Game, mv: MovementInfo)
    requires mv.dir != Unchanged && Headed(g)
    ensures var r := g.RiderOf(mv.player); var d := Decide(r, mv.dir, false);
            && !d.Reject? && (d.Enter? ==> d.to.heading != Unchanged)
            && Drawn(r, mv, false) == if d.Enter? then [Block(At(d.to), mv.player)] else []
  {
  }

  lemma OtherRider(g: Game, h: Game, p: Player)
    requires forall q :: q != p ==> h.RiderOf(q) == g.RiderOf(q)
    ensures p == Blue ==> h.orange == g.orange
    ensures p == Orange ==> h.blue == g.blue
  {
    assert g.RiderOf(Blue) == g.blue && g.RiderOf(Orange) == g.orange;
    assert h.RiderOf(Blue) == h.blue && h.RiderOf(Orange) == h.orange;
  }

  lemma GameEdge(c: Setup, s: State, e: Event)
    requires ByDay(c) && Proper(c, s) && GameKept(c, s) && !s.fault && s.view == SGame
    requires e.Hardware? && !OnGame(c, s, e).fault
    ensures var t := OnGame(c, s, e);
            GameKept(c, t) && ArenaOf(t) == EdgeAfter(c, s, e) && t.view == EdgeVerdict(c, s, e)
  {
    hide OnTimer, OnKeyboard, GameKept, Setup.Valid, Mode.Size, CursorInside, Bumps, BlueBumps, OrangeBumps,
         PauseKey, DirectionRelease, Decide, Pushed, BlueDrawn;
    if e.timer { TimerEdge(c, s); }
    if e.keyboard.Some? { KeyboardEdge(c, if e.timer then OnTimer(c, s) else s, e.keyboard.value, true); }
  }

  /** One notification of a game that draws inside video memory. */
  lemma EdgeStep(c: Setup, s: State, e: Event)
    requires ByDay(c) && Proper(c, s) && Flags(s) && Kept(c, s) && s.view == SGame
    requires e.Hardware? && !Handle(c, s, e).fault
    ensures var t := Step(c, s, e); t.view == EdgeVerdict(c, s, e) && ArenaOf(t) == EdgeAfter(c, s, e)
  {
    GameUnfaulted(c, s, e);
    GameHandle(c, s, e);
    GameEdge(c, s, e);
    HandleFacts(c, s, e);
    SettleFacts(c, Handle(c, s, e));
    SettleKeepsBlocks(c, Handle(c, s, e));
    hide OnGame, Handle, Settle, Setup.Valid, Proper, EdgeVerdict, EdgeAfter, Marked;
  }

  lemma GameUnfaulted(c: Setup, s: State, e: Event)
    requires c.Valid() && Proper(c, s) && s.view == SGame && e.Hardware? && !Handle(c, s, e).fault
    ensures !s.fault && !OnGame(c, s, e).fault
  {
    hide OnGame, OnMenuMouse, OnKeyboard, Setup.Valid, Proper;
  }

  // -------------------------------------------------------------- the runs

  lemma PauseEdge(c: Setup, s: State, e: Event)
    requires ByDay(c) && Proper(c, s) && Flags(s) && Kept(c, s) && s.view == Pause
    ensures Kept(c, Step(c, s, e))
  {
    StepFacts(c, s, e);
    PauseKeeps(c, s, e);
    PauseHeadings(c, s, e);
    hide Step, Setup.Valid, Proper, Marked;
  }

  lemma PauseHeadings(c: Setup, s: State, e: Event)
    requires c.Valid() && Proper(c, s) && s.view == Pause && Headed(s.game)
    ensures Headed(Step(c, s, e).game)
  {
    HandleHeadings(c, s, e);
    SettleFacts(c, Handle(c, s, e));
    if Handle(c, s, e).fault { FaultFrozen(c, s, e); }
    SettlesHeaded(c, Handle(c, s, e));
    hide Handle, Settle, Setup.Valid, Proper;
  }

  lemma SettlesHeaded(c: Setup, s: State)
    requires c.Valid() && Proper(c, s) && Headed(s.game)
    ensures Headed(Settle(c, s).game)
  {
    hide Blit, Setup.Valid, Proper, EntryImage, Filled, StartBlue, StartOrange;
    assert StartBlue(c.mode).heading == Right && StartOrange(c.mode).heading == Left by { StartHeadings(c.mode); }
  }

  lemma StartHeadings(m: Mode)
    ensures StartBlue(m).heading == Right && StartOrange(m).heading == Left
  {
  }

  lemma HandleHeadings(c: Setup, s: State, e: Event)
    requires c.Valid() && Proper(c, s) && s.view == Pause && Headed(s.game)
    ensures Headed(Handle(c, s, e).game)
  {
    hide MovePlayer, Setup.Valid, Mode.Size, CursorInside, Drawn, DirectionRelease, PauseKey, KeyStatusOk, DirectionKey;
    if e.Hardware? && e.keyboard.Some? {
      var mv := CommandAfterKey(s.nextMove, e.keyboard.value);
      if mv.dir != Unchanged { MoveHeaded(c.mode, s.game, mv); }
    }
  }

  lemma MoveHeaded(m: Mode, g: Game, mv: MovementInfo)
    requires Sized(m, g) && Headed(g) && mv.dir != Unchanged
    ensures MovePlayer(m, g, mv, false).Done? ==> Headed(MovePlayer(m, g, mv, false).game)
  {
    hide Mode.Size, Probe, Painted, RectPixels, Inside, Mode.Pixels, Mode.Index;
  }

  lemma BeginKept(c: Setup, s: State)
    requires ByDay(c) && Proper(c, s) && !s.startGame
    ensures GameKept(c, Begin(c, s)) && Begin(c, s).entered == []
  {
    hide Mode.Size, Setup.Valid, CursorInside, Filled, Marked;
    BlackMarked(c.mode);
  }

  lemma StepKept(c: Setup, s: State, e: Event)
    requires ByDay(c) && Proper(c, s) && Flags(s) && Kept(c, s)
    ensures Kept(c, Step(c, s, e))
  {
    StepFacts(c, s, e);
    if Handle(c, s, e).fault {
      FaultFrozen(c, s, e);
      hide Step, Setup.Valid, Proper, Marked;
    } else if s.view == SGame {
      GameStepKept(c, s, e);
    } else if s.view == Pause {
      PauseEdge(c, s, e);
    } else if Menu(s.view) && Step(c, s, e).view == SGame {
      MenuKept(c, s, e);
    } else {
      hide Step, Setup.Valid, Proper, Marked;
    }
  }

  lemma MenuKept(c: Setup, s: State, e: Event)
    requires ByDay(c) && Proper(c, s) && Flags(s) && Menu(s.view) && Step(c, s, e).view == SGame && !Handle(c, s, e).fault
    ensures Kept(c, Step(c, s, e))
  {
    HandleFacts(c, s, e);
    SettleFacts(c, Handle(c, s, e));
    BeginKept(c, Handle(c, s, e));
    hide Handle, Setup.Valid, Proper, Blit, StartGame, Marked, Filled;
  }

  lemma GameStepKept(c: Setup, s: State, e: Event)
    requires ByDay(c) && Proper(c, s) && Flags(s) && Kept(c, s) && s.view == SGame && !Handle(c, s, e).fault
    ensures Kept(c, Step(c, s, e))
  {
    HandleFacts(c, s, e);
    if e.Hardware? {
      GameUnfaulted(c, s, e);
      GameHandle(c, s, e);
      GameEdge(c, s, e);
    }
    var t := Handle(c, s, e);
    assert GameKept(c, t) by { hide OnGame, OnKeyboard, OnMenuMouse, Setup.Valid, Proper, Marked, EdgeVerdict, EdgeAfter; }
    SettleGameKept(c, t);
    hide OnGame, Handle, Settle, Setup.Valid, Proper, EdgeVerdict, EdgeAfter, Marked;
  }

  /** Between the branches of the game loop and the next receive. */
  lemma SettleGameKept(c: Setup, s: State)
    requires ByDay(c) && Proper(c, s) && GameKept(c, s) && s.startGame && !s.printed && !s.paused && s.view != MGame
    ensures Kept(c, Settle(c, s))
  {
    hide Blit, Setup.Valid, Proper, Marked, EntryImage;
  }

  lemma {:induction false} RunKept(c: Setup, s: State, es: seq<Event>)
    requires ByDay(c) && Proper(c, s) && Flags(s) && Kept(c, s)
    ensures Kept(c, Run(c, s, es))
    decreases |es|
  {
    hide Step, Setup.Valid, Proper, Kept, Flags;
    if es != [] {
      StepFacts(c, s, es[0]);
      StepKept(c, s, es[0]);
      RunKept(c, Step(c, s, es[0]), es[1..]);
    }
  }

  /** On every day run of the program, at every resolution, wherever the riders
      have been in this game or earlier ones: a notification of a game that does
      not draw outside video memory leads to the screen, blocks and riders that
      the painted pixel indices say. */
  lemma EveryDayRun(c: Setup, es: seq<Event>, e: Event)
    requires ByDay(c) && AtReceive(c, es).view == SGame && e.Hardware?
    requires !Handle(c, AtReceive(c, es), e).fault
    ensures var s := AtReceive(c, es); var t := AtReceive(c, es + [e]);
            && Marked(c.mode, s.game.fb, Marks(c.mode, s.entered))
            && t.view == EdgeVerdict(c, s, e) && ArenaOf(t) == EdgeAfter(c, s, e)
  {
    BootFlags(c);
    assert Kept(c, AtReceive(c, [])) by { hide AtReceive, Marked, Setup.Valid; }
    FlagInvariant(c, es);
    hide Settle, Boot, Setup.Valid, Proper, Step, Flags, Handle, EdgeVerdict, EdgeAfter, Marked;
    RunKept(c, AtReceive(c, []), es);
    EdgeStep(c, AtReceive(c, es), e);
    AtReceiveSnoc(c, es, e);
  }
}
