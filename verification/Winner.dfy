/** The frame on the screen is the picture of the game through the whole
    program, pauses included, and the right player is declared the winner. */
module Winner {
  import opened Raster
  import opened LightCycles
  import opened Arena
  import opened Refinement
  import opened Mouse
  import opened Console
  import opened ConsoleInvariants

  /** A day game in a mode where the probe is faithful. */
  ghost predicate Daylight(c: Setup) {
    c.Valid() && c.mode.bpp >= 2 && c.mode.h >= 200 && c.hour < NIGHT
  }

  ghost function ArenaOf(s: State): Arena { Arena(s.entered, s.game.blue, s.game.orange) }

  /** The game frame, on the screen or saved, shows the blocks entered. */
  ghost predicate Framed(c: Setup, s: State)
    requires c.Valid()
  {
    match s.view
    case SGame => Pictures(c.mode, Origin(c.mode), 0, s.game, ArenaOf(s))
    case Pause => Pictures(c.mode, Origin(c.mode), 0, s.game.(fb := s.saved), ArenaOf(s))
    case _ => true
  }

  /** Every block drawn, and both heads, lie on the board. */
  ghost predicate HeadsOnBoard(c: Setup, s: State) {
    && AllOnBoard(c.mode, s.entered)
    && (s.view == SGame || s.view == Pause ==>
          OnBoard(c.mode, At(s.game.blue)) && OnBoard(c.mode, At(s.game.orange)))
  }

  /** Where a tick sends each player. */
  function Target(r: Rider): Pos { var d := Decide(r, r.heading, true); if d.Enter? then At(d.to) else At(r) }

  ghost predicate BlueCrashes(g: Game, entered: seq<Block>) { Hits(entered, Target(g.blue)) }

  /** Blue moves first, so its new block is already in orange's way. */
  ghost predicate OrangeCrashes(g: Game, entered: seq<Block>) {
    Hits(entered + [Block(Target(g.blue), Blue)], Target(g.orange))
  }

  lemma PassiveEnters(r: Rider)
    requires r.heading != Unchanged
    ensures Decide(r, r.heading, true).Enter? && At(Decide(r, r.heading, true).to) == Target(r)
  {
  }

  lemma TickVerdict(a: Arena, g: Game)
    requires g.blue == a.blue && g.orange == a.orange
    requires a.blue.heading != Unchanged && a.orange.heading != Unchanged
    ensures TickBoth(a).1 == if BlueCrashes(g, a.entered) then 1 else if OrangeCrashes(g, a.entered) then 2 else 0
    ensures TickBoth(a).0.entered == a.entered + TickDrawn(g, TickBoth(a).1)
  {
    var blue := MovementInfo(a.blue.heading, Blue);
    var orange := MovementInfo(a.orange.heading, Orange);
    PassiveEnters(a.blue);
    PassiveEnters(a.orange);
    var b := Move(a, blue, true).0;
    MoveLists(a, blue, true);
    MoveLists(b, orange, true);
    assert b.entered == a.entered + [Block(Target(g.blue), Blue)];
    assert Move(a, blue, true).1 == if BlueCrashes(g, a.entered) then 1 else 0;
    assert Move(b, orange, true).1 == if OrangeCrashes(g, a.entered) then 1 else 0;
    assert a.entered + Drawn(a.blue, blue, true) + Drawn(a.orange, orange, true)
        == a.entered + (Drawn(a.blue, blue, true) + Drawn(a.orange, orange, true));
    hide Move, Drawn, Hits, Target, BlueCrashes, OrangeCrashes;
  }

  /** A move made while paused leaves the heads roaming. */
  lemma MoveRoams(m: Mode, o: Pos, g: Game, mv: MovementInfo)
    requires Sized(m, g) && Roaming(o, g.blue) && Roaming(o, g.orange)
    requires var r := MovePlayer(m, g, mv, false);
             r.Done? && OnBoard(m, At(r.game.blue)) && OnBoard(m, At(r.game.orange))
    ensures var r := MovePlayer(m, g, mv, false); Roaming(o, r.game.blue) && Roaming(o, r.game.orange)
  {
    if Decide(g.RiderOf(mv.player), mv.dir, false).Enter? {
      StepKeepsLattice(m, o, g.RiderOf(mv.player), mv.dir, false);
    }
    hide Mode.Size, Probe, Painted, RectPixels, Inside, Mode.Pixels, Mode.Index, Roaming;
  }

  ghost predicate GamePictured(c: Setup, s: State)
    requires c.Valid()
  {
    Pictures(c.mode, Origin(c.mode), 0, s.game, ArenaOf(s))
  }

  /** The passive ticks are every fifth interrupt. */
  predicate Due(s: State) { (s.ticks + 1) % 5 == 0 }

  /** The block game once the timer bit of a notification has been served. */
  ghost function ArenaTicked(s: State, e: Event): Arena
    requires e.Hardware?
  {
    if e.timer && Due(s) then TickBoth(ArenaOf(s)).0 else ArenaOf(s)
  }

  /** The command the keyboard branch obeys. */
  function CommandOf(s: State, e: Event): MovementInfo
    requires e.Hardware?
  {
    match e.keyboard case None => s.nextMove case Some(p) => CommandAfterKey(s.nextMove, p)
  }

  predicate KeyMoves(s: State, e: Event)
    requires e.Hardware?
  {
    e.keyboard.Some? && CommandOf(s, e).dir != Unchanged
  }

  /** The block game after the whole notification. */
  ghost function ArenaAfter(s: State, e: Event): Arena
    requires e.Hardware?
  {
    var a := ArenaTicked(s, e);
    if KeyMoves(s, e) then Move(a, CommandOf(s, e), false).0 else a
  }

  /** The key command of the notification enters a block already painted. */
  ghost predicate KeyCrashes(s: State, e: Event)
    requires e.Hardware?
  {
    var a := ArenaTicked(s, e); var mv := CommandOf(s, e);
    var d := Decide(a.RiderOf(mv.player), mv.dir, false);
    e.keyboard.Some? && d.Enter? && Hits(a.entered, At(d.to))
  }

  /** The screen after a notification received in a game, from the trail and the
      notification alone. */
  ghost function Verdict(s: State, e: Event): View
    requires e.Hardware?
  {
    if KeyCrashes(s, e) then Quit
    else if e.keyboard.Some? && PauseKey(e.keyboard.value) then Pause
    else if e.timer && Due(s) && BlueCrashes(s.game, s.entered) then GoTwo
    else if e.timer && Due(s) && OrangeCrashes(s.game, s.entered) then GoOne
    else SGame
  }

  lemma TimerArena(c: Setup, s: State)
    requires Daylight(c) && Proper(c, s) && GamePictured(c, s) && !s.fault
    requires Due(s) ==> AllOnBoard(c.mode, TickBoth(ArenaOf(s)).0.entered)
    ensures var t := OnTimer(c, s);
            && !t.fault && GamePictured(c, t) && t.nextMove == s.nextMove
            && ArenaOf(t) == (if Due(s) then TickBoth(ArenaOf(s)).0 else ArenaOf(s))
            && t.view == if Due(s) && BlueCrashes(s.game, s.entered) then GoTwo
                         else if Due(s) && OrangeCrashes(s.game, s.entered) then GoOne
                         else s.view
  {
    if Due(s) {
      TickVerdict(ArenaOf(s), s.game);
      hide MovePlayer, PassiveMove, TickBoth, Mode.Size, Sound, Render, TickDrawn, Setup.Valid, CursorInside, TrailOf, BlueCrashes, OrangeCrashes;
      ApplyRefines(c.mode, Origin(c.mode), s.game, ArenaOf(s), Tick);
    } else {
      hide PassiveMove, TickBoth, Mode.Size, Sound, Render, TickDrawn, Setup.Valid, CursorInside, TrailOf, BlueCrashes, OrangeCrashes;
    }
  }

  lemma KeyboardArena(c: Setup, s: State, p: Port)
    requires Daylight(c) && Proper(c, s) && GamePictured(c, s) && !s.fault
    requires var mv := CommandAfterKey(s.nextMove, p);
             mv.dir != Unchanged ==> AllOnBoard(c.mode, Move(ArenaOf(s), mv, false).0.entered)
    ensures var t := OnKeyboard(c, s, p, true); var mv := CommandAfterKey(s.nextMove, p);
            && !t.fault && GamePictured(c, t)
            && ArenaOf(t) == (if mv.dir != Unchanged then Move(ArenaOf(s), mv, false).0 else ArenaOf(s))
            && t.view == if mv.dir != Unchanged && Move(ArenaOf(s), mv, false).1 == 1 then Quit else ViewAfterKey(s.view, p)
  {
    hide MovePlayer, Move, Mode.Size, Sound, Render, Drawn, Setup.Valid, CursorInside, DirectionRelease, PauseKey, TrailOf;
    var mv := CommandAfterKey(s.nextMove, p);
    if mv.dir != Unchanged {
      MoveLists(ArenaOf(s), mv, false);
      MoveRefines(c.mode, Origin(c.mode), s.game, ArenaOf(s), mv, false);
    }
  }

  lemma KeyCrashCode(s: State, e: Event)
    requires e.Hardware?
    ensures KeyCrashes(s, e) <==> KeyMoves(s, e) && Move(ArenaTicked(s, e), CommandOf(s, e), false).1 == 1
  {
    hide ArenaTicked, Hits;
  }

  lemma ArenaGrows(s: State, e: Event)
    requires e.Hardware?
    ensures s.entered <= ArenaTicked(s, e).entered <= ArenaAfter(s, e).entered
  {
    ObeyExtends(ArenaOf(s), Tick);
    MoveLists(ArenaTicked(s, e), CommandOf(s, e), false);
    hide Move, CommandOf;
  }

  /** One notification of the game loop: no fault as long as the block game
      stays on the board, and the same blocks, riders and picture. */
  lemma GameArena(c: Setup, s: State, e: Event)
    requires Daylight(c) && Proper(c, s) && GamePictured(c, s) && !s.fault && s.view == SGame
    requires e.Hardware? && AllOnBoard(c.mode, ArenaAfter(s, e).entered)
    ensures var t := OnGame(c, s, e);
            !t.fault && GamePictured(c, t) && ArenaOf(t) == ArenaAfter(s, e) && t.view == Verdict(s, e)
  {
    hide OnTimer, OnKeyboard, Setup.Valid, GamePictured, Mode.Size, CursorInside, TickBoth, Move, Hits,
         BlueCrashes, OrangeCrashes, PauseKey, DirectionRelease;
    ArenaGrows(s, e);
    KeyCrashCode(s, e);
    if e.timer { TimerArena(c, s); }
    if e.keyboard.Some? { KeyboardArena(c, if e.timer then OnTimer(c, s) else s, e.keyboard.value); }
  }

  /** Conversely, if the program did not fault and drew on the board, the block
      game is on the board. */
  lemma DrawnOnBoard(c: Setup, s: State, e: Event)
    requires Daylight(c) && Proper(c, s) && GamePictured(c, s) && !s.fault && s.view == SGame
    requires e.Hardware? && !OnGame(c, s, e).fault && AllOnBoard(c.mode, OnGame(c, s, e).entered)
    ensures AllOnBoard(c.mode, ArenaAfter(s, e).entered)
  {
    hide OnTimer, OnKeyboard, Setup.Valid, GamePictured, Mode.Size, CursorInside, TickBoth, Move,
         PauseKey, DirectionRelease;
    var t := if e.timer then OnTimer(c, s) else s;
    if e.keyboard.Some? { KeyboardExtends(c, t, e.keyboard.value); }
    if e.timer { TimerOnBoard(c, s); TimerArena(c, s); }
    if KeyMoves(s, e) { KeyboardOnBoard(c, t, e.keyboard.value); }
  }

  lemma TimerOnBoard(c: Setup, s: State)
    requires Daylight(c) && Proper(c, s) && GamePictured(c, s)
    requires !OnTimer(c, s).fault && AllOnBoard(c.mode, OnTimer(c, s).entered)
    ensures Due(s) ==> AllOnBoard(c.mode, TickBoth(ArenaOf(s)).0.entered)
  {
    hide PassiveMove, TickBoth, Mode.Size, Sound, Render, TickDrawn, Setup.Valid, CursorInside, TrailOf;
    if Due(s) { TickDraws(c.mode, Origin(c.mode), s.game, ArenaOf(s)); }
  }

  lemma KeyboardOnBoard(c: Setup, s: State, p: Port)
    requires c.Valid() && Proper(c, s) && !OnKeyboard(c, s, p, true).fault
    requires CommandAfterKey(s.nextMove, p).dir != Unchanged
    ensures OnKeyboard(c, s, p, true).entered == Move(ArenaOf(s), CommandAfterKey(s.nextMove, p), false).0.entered
  {
    hide MovePlayer, Move, Mode.Size, Drawn, Setup.Valid, CursorInside, DirectionRelease, PauseKey;
    MoveLists(ArenaOf(s), CommandAfterKey(s.nextMove, p), false);
  }

  lemma KeyboardExtends(c: Setup, s: State, p: Port)
    requires c.Valid() && Proper(c, s)
    ensures s.entered <= OnKeyboard(c, s, p, true).entered
    ensures s.fault ==> OnKeyboard(c, s, p, true).fault
  {
    hide MovePlayer, Setup.Valid, Proper, Drawn, DirectionRelease, PauseKey;
  }

  lemma PauseStepPictured(c: Setup, s: State, p: Port)
    requires Daylight(c) && Proper(c, s) && Framed(c, s) && s.view == Pause
    requires var t := OnKeyboard(c, s, p, false);
             !t.fault && (t.view != Quit ==> OnBoard(c.mode, At(t.game.blue)) && OnBoard(c.mode, At(t.game.orange)))
    ensures var t := OnKeyboard(c, s, p, false);
            && t.entered == s.entered && t.saved == s.saved
            && (t.view != Quit ==> Pictures(c.mode, Origin(c.mode), 0, t.game.(fb := s.saved), ArenaOf(t)))
  {
    hide MovePlayer, Mode.Size, Render, Drawn, Setup.Valid, CursorInside, DirectionRelease, PauseKey, Roaming, TrailOf;
    var t := KbcIh(s, p);
    if t.nextMove.dir != Unchanged && OnKeyboard(c, s, p, false).view != Quit {
      MoveRoams(c.mode, Origin(c.mode), s.game, t.nextMove);
    }
  }

  lemma BeginPictured(c: Setup, s: State)
    requires Daylight(c) && Proper(c, s) && !s.startGame
    ensures GamePictured(c, Begin(c, s))
  {
    hide Mode.Size, Setup.Valid, CursorInside, Render, StartGame;
    StartPictures(c.mode, s.game.(fb := Filled(c.mode.Size(), 0)), c.hour);
  }

  /** One step keeps the frame pictured, as long as the heads stay on the
      board. */
  lemma StepFramed(c: Setup, s: State, e: Event)
    requires Daylight(c) && Proper(c, s) && Flags(s) && Framed(c, s) && HeadsOnBoard(c, Step(c, s, e))
    ensures Framed(c, Step(c, s, e))
  {
    HandleFacts(c, s, e);
    var t := Handle(c, s, e);
    if t.fault { FaultFrozen(c, s, e); return; }
    if s.view == SGame && (t.view == SGame || t.view == Pause) {
      if e.Hardware? && !s.fault {
        DrawnOnBoard(c, s, e);
        GameArena(c, s, e);
      }
    } else if s.view == Pause && (t.view == SGame || t.view == Pause) {
      if e.Hardware? && e.keyboard.Some? { PauseStepPictured(c, s, e.keyboard.value); }
    } else if Menu(s.view) && t.view == SGame {
      BeginPictured(c, t);
    }
    hide OnGame, OnKeyboard, OnMenuMouse, Setup.Valid, Proper, Blit, StartGame, Pictures, OnBoard, AllOnBoard, Filled;
  }

  lemma FaultFrozen(c: Setup, s: State, e: Event)
    requires c.Valid() && Proper(c, s) && Handle(c, s, e).fault
    ensures Step(c, s, e) == s.(fault := true)
  {
    hide Dispatch, Settle, Setup.Valid, Proper;
  }

  ghost predicate AllHeadsOnBoard(c: Setup, s: State, es: seq<Event>)
    requires c.Valid() && Proper(c, s)
    decreases |es|
  {
    HeadsOnBoard(c, s) && (es == [] || AllHeadsOnBoard(c, Step(c, s, es[0]), es[1..]))
  }

  lemma {:induction false} RunFramed(c: Setup, s: State, es: seq<Event>)
    requires Daylight(c) && Proper(c, s) && Flags(s) && Framed(c, s) && AllHeadsOnBoard(c, s, es)
    ensures Framed(c, Run(c, s, es)) && HeadsOnBoard(c, Run(c, s, es))
    decreases |es|
  {
    hide Step, Setup.Valid, Proper, Framed, HeadsOnBoard, Flags;
    if es != [] {
      StepFacts(c, s, es[0]);
      assert HeadsOnBoard(c, Step(c, s, es[0]));
      StepFramed(c, s, es[0]);
      RunFramed(c, Step(c, s, es[0]), es[1..]);
    }
  }

  /** A game begun on a menu shows the picture of no blocks. */
  lemma MenuBegins(c: Setup, s: State, e: Event)
    requires Daylight(c) && Proper(c, s) && Flags(s) && Menu(s.view) && Step(c, s, e).view == SGame
    ensures Framed(c, Step(c, s, e)) && Step(c, s, e).entered == []
  {
    HandleFacts(c, s, e);
    var t := Handle(c, s, e);
    if t.fault { FaultFrozen(c, s, e); } else { SettleFacts(c, t); BeginPictured(c, t); }
    hide Handle, Setup.Valid, Proper, Blit, StartGame, Pictures, Filled;
  }

  /** The heads have been on the board since event `i`, which began a game. */
  ghost predicate OnBoardSince(c: Setup, es: seq<Event>, i: nat)
    requires c.Valid()
  {
    BegunAt(c, es, i) && AllHeadsOnBoard(c, AtReceive(c, es[..i + 1]), es[i + 1..])
  }

  ghost predicate OnBoardSinceStart(c: Setup, es: seq<Event>)
    requires c.Valid()
  {
    exists i: nat :: OnBoardSince(c, es, i)
  }

  lemma FramedSince(c: Setup, es: seq<Event>, i: nat)
    requires Daylight(c) && OnBoardSince(c, es, i)
    ensures Framed(c, AtReceive(c, es)) && HeadsOnBoard(c, AtReceive(c, es))
    ensures Framed(c, AtReceive(c, es[..i + 1])) && AtReceive(c, es[..i + 1]).entered == []
  {
    hide AtReceive, Setup.Valid, Proper, Framed, HeadsOnBoard, Flags, Step, Run;
    FlagInvariant(c, es[..i]);
    FlagInvariant(c, es[..i + 1]);
    AtReceiveFrom(c, es, i);
    MenuBegins(c, AtReceive(c, es[..i]), es[i]);
    RunFramed(c, AtReceive(c, es[..i + 1]), es[i + 1..]);
  }

  /** On every run of the program, whatever happened in earlier games: if the
      heads have been on the board since the game began, the game frame, on the
      screen or saved, is the picture of the blocks drawn since then.  By
      `GameBegan` there is such a beginning at every receive of a game. */
  lemma FrameInvariant(c: Setup, es: seq<Event>)
    requires Daylight(c) && (InGame(AtReceive(c, es)) ==> OnBoardSinceStart(c, es))
    ensures Framed(c, AtReceive(c, es))
  {
    hide AtReceive, Setup.Valid, Proper, OnBoardSince;
    if InGame(AtReceive(c, es)) {
      var i: nat :| OnBoardSince(c, es, i);
      FramedSince(c, es, i);
    }
  }

  /** The game screen plays the block game, and the trail decides what is shown
      next.  For every notification that keeps the block game on the board there
      is no fault, the riders and blocks are the block game's, and the screen is
      `Verdict`: a key command that crashes quits the program whatever else
      happened, the pause key overrules a crash of the tick, and otherwise a
      crash of the tick declares the other player the winner. */
  lemma WinnerStep(c: Setup, s: State, e: Event)
    requires Daylight(c) && Proper(c, s) && Flags(s) && Framed(c, s) && s.view == SGame && !s.fault
    requires e.Hardware? && AllOnBoard(c.mode, ArenaAfter(s, e).entered)
    ensures var t := Step(c, s, e); !t.fault && t.view == Verdict(s, e) && ArenaOf(t) == ArenaAfter(s, e)
  {
    GameArena(c, s, e);
    HandleFacts(c, s, e);
    GameHandle(c, s, e);
    SettleFacts(c, Handle(c, s, e));
    SettleKeepsBlocks(c, Handle(c, s, e));
    hide OnGame, Handle, Settle, Setup.Valid, Proper, Pictures, Verdict, ArenaAfter;
  }

  lemma GameHandle(c: Setup, s: State, e: Event)
    requires c.Valid() && Proper(c, s) && s.view == SGame && !s.fault && e.Hardware? && !OnGame(c, s, e).fault
    ensures Handle(c, s, e) == OnGame(c, s, e)
  {
    hide OnGame, OnKeyboard, OnMenuMouse, Setup.Valid, Proper;
  }

  lemma SettleKeepsBlocks(c: Setup, s: State)
    requires c.Valid() && Proper(c, s) && (Playing(s.view) ==> s.startGame)
    ensures Settle(c, s).entered == s.entered
  {
    hide Blit, StartGame, Setup.Valid, Proper, EntryImage, Filled;
  }

  lemma OtherScreensDeclareNobody(c: Setup, s: State, e: Event)
    requires c.Valid() && Proper(c, s) && Flags(s)
    requires s.view != SGame || !e.Hardware? || Handle(c, s, e).fault
    ensures Step(c, s, e).view == GoTwo ==> s.view == GoTwo
    ensures Step(c, s, e).view == GoOne ==> s.view == GoOne
  {
    StepFacts(c, s, e);
    if Handle(c, s, e).fault {
      FaultFrozen(c, s, e);
    }
    hide OnGame, OnKeyboard, OnMenuMouse, Setup.Valid, Proper, Blit, StartGame, Filled;
  }

  /** The right winner, on every run of the program, with the heads on the board
      since the current game began: from the game screen every notification leads
      exactly where the trail says, and from any other screen nobody is declared a
      winner. */
  lemma RightWinner(c: Setup, es: seq<Event>, e: Event)
    requires Daylight(c)
    requires AtReceive(c, es).view == SGame ==>
               OnBoardSinceStart(c, es) && HeadsOnBoard(c, Step(c, AtReceive(c, es), e))
    ensures var s := AtReceive(c, es); var t := AtReceive(c, es + [e]);
            && (s.view == SGame && e.Hardware? && !t.fault ==>
                 t.view == Verdict(s, e) && ArenaOf(t) == ArenaAfter(s, e))
            && (s.view != SGame || !e.Hardware? || t.fault ==>
                 (t.view == GoTwo ==> s.view == GoTwo) && (t.view == GoOne ==> s.view == GoOne))
  {
    var s := AtReceive(c, es);
    FlagInvariant(c, es);
    AtReceiveSnoc(c, es, e);
    if s.view == SGame { FrameInvariant(c, es); }
    if Handle(c, s, e).fault {
      FaultFrozen(c, s, e);
      OtherScreensDeclareNobody(c, s, e);
    } else {
      SettleFacts(c, Handle(c, s, e));
      if s.view == SGame && e.Hardware? {
        VerdictStep(c, s, e);
      } else {
        OtherScreensDeclareNobody(c, s, e);
      }
    }
    hide Settle, Boot, Setup.Valid, Proper, Pictures, Flags, Verdict, ArenaAfter, Handle, Framed, MovePlayer, AtReceive, OnBoardSince;
  }

  /** What a timer interrupt alone leads to, in coordinates.  On every fifth, the
      second player wins exactly if the block five pixels ahead of blue shares a
      pixel with an earlier block of the game, and the first player exactly if
      blue's does not and the block five pixels ahead of orange shares one with an
      earlier block or with blue's new one; on the others nothing moves. */
  ghost predicate TimerOutcome(s: State, shown: View, blue: Rider, orange: Rider) {
    var b, o := s.game.blue, s.game.orange;
    var bX := if b.heading == Left then (b.x - 5) % 0x1_0000 else if b.heading == Right then (b.x + 5) % 0x1_0000 else b.x;
    var bY := if b.heading == Up then (b.y - 5) % 0x1_0000 else if b.heading == Down then (b.y + 5) % 0x1_0000 else b.y;
    var oX := if o.heading == Left then (o.x - 5) % 0x1_0000 else if o.heading == Right then (o.x + 5) % 0x1_0000 else o.x;
    var oY := if o.heading == Up then (o.y - 5) % 0x1_0000 else if o.heading == Down then (o.y + 5) % 0x1_0000 else o.y;
    var second := exists i :: 0 <= i < |s.entered| && SharesPixel(s.entered[i].pos, Pos(bX, bY));
    var first := (exists i :: 0 <= i < |s.entered| && SharesPixel(s.entered[i].pos, Pos(oX, oY)))
                 || SharesPixel(Pos(bX, bY), Pos(oX, oY));
    if (s.ticks + 1) % 5 != 0 then shown == SGame && blue == b && orange == o
    else
      && shown == (if second then GoTwo else if first then GoOne else SGame)
      && blue == Rider(bX, bY, b.heading)
      && orange == if second then o else Rider(oX, oY, o.heading)
  }

  lemma DeclaredWinner(c: Setup, es: seq<Event>)
    requires Daylight(c) && AtReceive(c, es).view == SGame && OnBoardSinceStart(c, es)
    requires HeadsOnBoard(c, Step(c, AtReceive(c, es), Hardware(true, None, None)))
    requires !Step(c, AtReceive(c, es), Hardware(true, None, None)).fault
    ensures var t := AtReceive(c, es + [Hardware(true, None, None)]);
            TimerOutcome(AtReceive(c, es), t.view, t.game.blue, t.game.orange)
  {
    var e := Hardware(true, None, None);
    var s := AtReceive(c, es);
    hide AtReceive, Setup.Valid, Step, Framed, HeadsOnBoard, OnBoardSinceStart, Verdict, ArenaAfter, TimerOutcome, Headed;
    FrameInvariant(c, es);
    FramedHeads(c, s);
    RightWinner(c, es, e);
    AtReceiveSnoc(c, es, e);
    TimerAlone(s);
  }

  lemma FramedHeads(c: Setup, s: State)
    requires c.Valid() && Framed(c, s) && s.view == SGame
    ensures Headed(s.game)
  {
    hide Render, Setup.Valid;
  }

  lemma TimerAlone(s: State)
    requires Headed(s.game)
    ensures var e := Hardware(true, None, None); var a := ArenaAfter(s, e);
            TimerOutcome(s, Verdict(s, e), a.blue, a.orange)
  {
    Ahead(s.game.blue);
    Ahead(s.game.orange);
    OrangeWay(s.entered, Block(Target(s.game.blue), Blue), Target(s.game.orange));
    TickRiders(ArenaOf(s), s.game);
    hide SharesPixel, Decide, Target, TickBoth, Pushed;
  }

  lemma Ahead(r: Rider)
    requires r.heading != Unchanged
    ensures var x := if r.heading == Left then (r.x - 5) % 0x1_0000 else if r.heading == Right then (r.x + 5) % 0x1_0000 else r.x;
            var y := if r.heading == Up then (r.y - 5) % 0x1_0000 else if r.heading == Down then (r.y + 5) % 0x1_0000 else r.y;
            Target(r) == Pos(x, y) && Pushed(r) == Rider(x, y, r.heading)
  {
  }

  lemma OrangeWay(entered: seq<Block>, b: Block, to: Pos)
    ensures Hits(entered + [b], to) <==> Hits(entered, to) || SharesPixel(b.pos, to)
  {
    var longer := entered + [b];
    hide SharesPixel;
    if SharesPixel(b.pos, to) { assert longer[|entered|] == b; }
    if Hits(entered, to) {
      var i :| 0 <= i < |entered| && SharesPixel(entered[i].pos, to);
      assert longer[i] == entered[i];
    }
  }

  lemma TickRiders(a: Arena, g: Game)
    requires g.blue == a.blue && g.orange == a.orange && Headed(g)
    ensures var t := TickBoth(a).0;
            t.blue == Pushed(g.blue) && t.orange == if BlueCrashes(g, a.entered) then g.orange else Pushed(g.orange)
  {
    PassiveEnters(g.blue);
    PassiveEnters(g.orange);
    hide Hits;
  }

  lemma VerdictStep(c: Setup, s: State, e: Event)
    requires Daylight(c) && Proper(c, s) && Flags(s) && Framed(c, s) && s.view == SGame && e.Hardware?
    requires !Handle(c, s, e).fault && HeadsOnBoard(c, Step(c, s, e))
    ensures Step(c, s, e).view == Verdict(s, e) && ArenaOf(Step(c, s, e)) == ArenaAfter(s, e)
  {
    assert !s.fault && !OnGame(c, s, e).fault by { hide OnGame, OnMenuMouse, OnKeyboard, Setup.Valid, Proper; }
    GameHandle(c, s, e);
    HandleFacts(c, s, e);
    SettleFacts(c, Handle(c, s, e));
    SettleKeepsBlocks(c, Handle(c, s, e));
    hide OnGame, Handle, Settle, Setup.Valid, Proper, Pictures, Verdict, ArenaAfter;
    DrawnOnBoard(c, s, e);
    WinnerStep(c, s, e);
  }

  lemma AtReceiveSnoc(c: Setup, es: seq<Event>, e: Event)
    requires c.Valid()
    ensures AtReceive(c, es + [e]) == Step(c, AtReceive(c, es), e)
  {
    hide Settle, Boot, Setup.Valid, Proper, Step;
    AtReceiveAppend(c, es, e, []);
    assert es + [e] + [] == es + [e];
  }
}
