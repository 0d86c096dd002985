/** Runs of the booted program, byte by byte, that reach a game and that reach
    the two failures of the stored key command. */
module Runs {
  import opened Words
  import opened Raster
  import opened LightCycles
  import opened Arena
  import opened Refinement
  import opened GameLength
  import opened Mouse
  import opened Console
  import opened ConsoleInvariants
  import opened Winner

  // ------------------------------------------------------------------ clicks

  function MouseByte(b: byte): Event { Hardware(false, None, Some(Port(0x21, b))) }

  /** The three bytes of a left click without movement. */
  function Click(): seq<Event> { [MouseByte(9), MouseByte(0), MouseByte(0)] }

  ghost predicate OnMenu(s: State) { Menu(s.view) && Flags(s) && !s.fault }

  /** The cursor is on the first button of the menus. */
  predicate OnButton(k: Cursor) { InPlace(k, 253, 288, 547, 313) }

  lemma MenuByte(c: Setup, s: State, b: byte)
    requires c.Valid() && Proper(c, s) && OnMenu(s) && s.mouse.counter < 2
    requires s.mouse.counter == 0 ==> Bit(b, 3)
    ensures var t := Step(c, s, MouseByte(b));
            && t == s.(mouse := t.mouse) && t.mouse.counter == s.mouse.counter + 1
            && (s.mouse.counter == 0 ==> t.mouse.b0 == b)
            && (s.mouse.counter == 1 ==> t.mouse.b0 == s.mouse.b0 && t.mouse.b1 == b)
  {
    assert MouseStatusOk(0x21);
    hide MouseStatusOk, Bit, Blit, Setup.Valid, Proper, Parse;
  }

  /** What a click on the first button makes of a menu. */
  ghost predicate Begun(c: Setup, s: State, t: State) {
    && t.view == SGame && t.starts == s.starts + 1 && !t.fault && t.entered == []
    && t.game.blue == StartBlue(c.mode) && t.game.orange == StartOrange(c.mode)
    && t.nextMove == s.nextMove && t.ticks == s.ticks && t.cursor == s.cursor && t.mouse.counter == 0
  }

  function LeftClick(): Packet { Packet(true, false, false, false, false, 0, 0) }

  lemma ClickPacket(a: Assembler)
    requires a.counter == 2 && a.b0 == 9 && a.b1 == 0
    ensures Feed(a, Port(0x21, 0)).1 == Some(LeftClick()) && Feed(a, Port(0x21, 0)).0.counter == 0
  {
    assert MouseStatusOk(0x21);
    assert Parse(9, 0, 0) == LeftClick();
    hide MouseStatusOk, Parse;
  }

  lemma AxisStays(res: u16, x: u16)
    requires res >= 60 && InMargins(res, x)
    ensures Bounded(W16(x), res) == x
  {
  }

  lemma StaysPut(h: u16, v: u16, k: Cursor)
    requires h >= 60 && v >= 60 && CursorInside(h, v, k)
    ensures MoveCursor(h, v, k, LeftClick()) == k
  {
    hide MoveCursor, W16, Bounded, Clamp;
    CursorLaw(h, v, k, LeftClick());
    assert k.x + LeftClick().dx == k.x && k.y - LeftClick().dy == k.y;
    AxisStays(h, k.x);
    AxisStays(v, k.y);
  }

  lemma LastByte(c: Setup, s: State)
    requires c.Valid() && Proper(c, s) && OnMenu(s) && OnButton(s.cursor)
    requires s.mouse.counter == 2 && s.mouse.b0 == 9 && s.mouse.b1 == 0
    ensures Begun(c, s, Step(c, s, MouseByte(0)))
  {
    assert 60 <= c.mode.h < 0x1_0000 && 60 <= c.mode.v < 0x1_0000;
    hide Blit, Setup.Valid, MoveCursor, Filled, Mode.Size, StartBlue, StartOrange, Feed, CursorInside;
    ClickPacket(s.mouse);
    StaysPut(c.mode.h, c.mode.v, s.cursor);
  }

  /** From any menu of any resolution: a click on the first button starts a game
      with both riders at their starting places, and keeps the stored key
      command. */
  lemma ClickBegins(c: Setup, s: State)
    requires c.Valid() && Proper(c, s) && OnMenu(s) && OnButton(s.cursor) && s.mouse.counter == 0
    ensures Begun(c, s, Run(c, s, Click())) && Flags(Run(c, s, Click()))
  {
    assert Bit(9, 3);
    MenuByte(c, s, 9);
    var s1 := Step(c, s, MouseByte(9));
    MenuByte(c, s1, 0);
    var s2 := Step(c, s1, MouseByte(0));
    LastByte(c, s2);
    hide Step, Setup.Valid, Proper;
    Three(c, s, MouseByte(9), MouseByte(0), MouseByte(0));
    RunFacts(c, s, Click());
  }

  lemma Three(c: Setup, s: State, e: Event, f: Event, g: Event)
    requires c.Valid() && Proper(c, s)
    ensures Run(c, s, [e, f, g]) == Step(c, Step(c, Step(c, s, e), f), g)
  {
    hide Step, Setup.Valid, Proper;
    var s1 := Step(c, s, e);
    var s2 := Step(c, s1, f);
    assert [e, f, g][1..] == [f, g] && [f, g][1..] == [g] && [g][1..] == [];
    assert Run(c, s2, [g]) == Run(c, Step(c, s2, g), []);
    assert Run(c, s1, [f, g]) == Run(c, s2, [g]);
    assert Run(c, s, [e, f, g]) == Run(c, s1, [f, g]);
  }

  lemma BootState(c: Setup)
    requires c.Valid()
    ensures var s := AtReceive(c, []);
            && OnMenu(s) && s.view == Main && s.starts == 0 && s.ticks == 0 && s.mouse.counter == 0
            && s.nextMove == MovementInfo(Unchanged, Blue)
            && s.cursor == Cursor(W16(c.mode.h / 2), W16(c.mode.v / 2))
  {
    hide Blit, Setup.Valid;
  }

  /** On the 800 by 600 screen the cursor starts on the first button: a click
      starts the first game. */
  lemma ClickStartsGame(c: Setup)
    requires c.Valid() && c.mode.h == 800 && c.mode.v == 600
    ensures Begun(c, AtReceive(c, []), AtReceive(c, Click())) && Flags(AtReceive(c, Click()))
    ensures AtReceive(c, Click()).starts == 1
  {
    BootState(c);
    hide Settle, Boot, Setup.Valid, Proper, Step;
    ClickBegins(c, AtReceive(c, []));
  }

  // ---------------------------------------------------- a turn while paused

  const W_BREAK: byte := 145
  const A_BREAK: byte := 158
  const S_BREAK: byte := 159
  const D_BREAK: byte := 160
  const X_BREAK: byte := 173

  /** A key released, with or without a timer interrupt at the same time. */
  function Release(timer: bool, b: byte): Event { Hardware(timer, Some(Port(1, b)), None) }

  lemma ReleaseRead(b: byte)
    ensures KeyStatusOk(1)
    ensures b == P_BREAK || b == X_BREAK ==> DirectionKey(b).None?
  {
  }

  lemma Paused(c: Setup, s: State)
    requires c.Valid() && Proper(c, s) && Flags(s) && s.view == SGame && !s.fault && Settled(s)
    ensures var t := Step(c, s, Release(false, P_BREAK));
            && t.view == Pause && Flags(t) && !t.fault && t.saved == s.game.fb
            && t.game.blue == s.game.blue && t.game.orange == s.game.orange
  {
    ReleaseRead(P_BREAK);
    QuietKeyboardIsVoid(c, s, Port(1, P_BREAK), true);
    hide OnKeyboard, Setup.Valid, Proper, Blit, KeyStatusOk, Settled;
  }

  lemma UpFromStart(m: Mode, g: Game)
    requires Sized(m, g) && m.h == 800 && m.v == 600 && g.blue == Rider(300, 300, Right)
    ensures var o := MovePlayer(m, g, MovementInfo(Up, Blue), false); o.Done? && o.game.blue == Rider(300, 295, Up)
  {
    RectInside(m, 300, 295, BLOCK, BLOCK);
    assert Decide(g.blue, Up, false) == Enter(Rider(300, 295, Up));
    hide Mode.Size, Mode.Pixels, Mode.Index, Probe, Painted, RectPixels, Inside, Decide;
  }

  lemma TurnedInPause(c: Setup, s: State)
    requires c.Valid() && Proper(c, s) && Flags(s) && s.view == Pause && !s.fault
    requires c.mode.h == 800 && c.mode.v == 600 && s.game.blue == Rider(300, 300, Right)
    ensures var t := Step(c, s, Release(false, W_BREAK)); t.saved == s.saved && t.game.blue == Rider(300, 295, Up)
  {
    ReleaseRead(W_BREAK);
    UpFromStart(c.mode, s.game);
    hide Setup.Valid, CursorInside, Blit, KeyStatusOk, Mode.Size, MovePlayer, Drawn, StartGame, Filled;
  }

  lemma StartsAt(m: Mode)
    requires m.h == 800 && m.v == 600
    ensures StartBlue(m) == Rider(300, 300, Right) && StartOrange(m) == Rider(500, 300, Left)
  {
  }

  /** A run that reaches a turn made behind the pause screen: at 800 by 600,
      whatever the images and the hour, click, P, W leaves blue one step up
      although the frame to resume with is the one of the start. */
  lemma PausedTurnReached(c: Setup)
    requires c.Valid() && c.mode.h == 800 && c.mode.v == 600
    ensures var s := AtReceive(c, Click());
            var t := AtReceive(c, Click() + [Release(false, P_BREAK)] + [Release(false, W_BREAK)]);
            && s.view == SGame && s.game.blue == Rider(300, 300, Right)
            && t.game.blue == Rider(300, 295, Up) && t.saved == s.game.fb
  {
    hide Settle, Boot, Setup.Valid, Proper, Step, Flags, Settled, AtReceive, StartBlue, StartOrange;
    ClickStartsGame(c);
    StartsAt(c.mode);
    FirstGameSettled(c, Click());
    AtReceiveSnoc(c, Click(), Release(false, P_BREAK));
    AtReceiveSnoc(c, Click() + [Release(false, P_BREAK)], Release(false, W_BREAK));
    Paused(c, AtReceive(c, Click()));
    TurnedInPause(c, AtReceive(c, Click() + [Release(false, P_BREAK)]));
  }

  // ------------------------------------------------- a game, moment by moment

  /** What matters of a game in progress. */
  datatype Moment = Moment(arena: Arena, ticks: nat, command: MovementInfo)

  ghost predicate Shows(c: Setup, s: State, q: Moment) {
    && Daylight(c) && c.mode.h == 800 && c.mode.v == 600
    && Proper(c, s) && Flags(s) && Framed(c, s) && HeadsOnBoard(c, s) && s.view == SGame && !s.fault
    && ArenaOf(s) == q.arena && s.ticks == q.ticks && s.nextMove == q.command
    && s.cursor == Cursor(400, 300) && s.mouse.counter == 0 && s.starts == 1
  }

  predicate Free(entered: seq<Block>, a: Pos) { forall i :: 0 <= i < |entered| ==> entered[i].pos != a }

  lemma FreeIffNoHit(o: Pos, entered: seq<Block>, a: Pos)
    requires AllLattice(o, entered) && OnLattice(o, a)
    ensures Hits(entered, a) <==> !Free(entered, a)
  {
    hide OnLattice, SharesPixel;
    HitsIffVisited(o, entered, a);
    TrailKeys(entered, a);
  }

  lemma GameRest(c: Setup, s: State, e: Event)
    requires c.Valid() && Proper(c, s) && Flags(s) && s.view == SGame && e.Hardware? && !Step(c, s, e).fault
    ensures var t := Step(c, s, e);
            && t.nextMove == CommandOf(s, e) && t.ticks == s.ticks + (if e.timer then 1 else 0)
            && t.cursor == s.cursor && t.mouse == s.mouse
  {
    hide Setup.Valid, Proper, MovePlayer, PassiveMove, Blit, PauseKey, DirectionRelease, TickDrawn, Drawn, StartGame, Filled;
  }

  /** A notification that keeps the game going. */
  lemma NextMoment(c: Setup, s: State, q: Moment, e: Event)
    requires Shows(c, s, q) && e.Hardware? && Verdict(s, e) == SGame
    requires var a := ArenaAfter(s, e);
             AllOnBoard(c.mode, a.entered) && OnBoard(c.mode, At(a.blue)) && OnBoard(c.mode, At(a.orange))
    ensures Shows(c, Step(c, s, e), Moment(ArenaAfter(s, e), q.ticks + (if e.timer then 1 else 0), CommandOf(s, e)))
  {
    WinnerStep(c, s, e);
    StepFacts(c, s, e);
    GameRest(c, s, e);
    hide Step, Setup.Valid, Proper, Flags, Framed, Verdict, ArenaAfter, CommandOf, AllOnBoard, OnBoard;
    StepFramed(c, s, e);
  }

  function Turned(a: Arena, p: Player, to: Rider): Arena {
    a.With(p, to).(entered := a.entered + [Block(At(to), p)])
  }

  /** A direction key that turns into a free block, between two passive moves. */
  lemma KeyMoment(c: Setup, s: State, q: Moment, b: byte, mv: MovementInfo, to: Rider)
    requires Shows(c, s, q) && (q.ticks + 1) % 5 != 0 && DirectionKey(b) == Some(mv)
    requires Decide(q.arena.RiderOf(mv.player), mv.dir, false) == Enter(to)
    requires OnBoard(c.mode, At(to)) && Free(q.arena.entered, At(to))
    ensures Shows(c, Step(c, s, Release(true, b)), Moment(Turned(q.arena, mv.player, to), q.ticks + 1, mv))
  {
    var e := Release(true, b);
    ReleaseRead(b);
    assert Roaming(Origin(c.mode), q.arena.RiderOf(mv.player)) && AllLattice(Origin(c.mode), q.arena.entered) by {
      hide Roaming, Setup.Valid, Render, OnLattice;
    }
    StepKeepsLattice(c.mode, Origin(c.mode), q.arena.RiderOf(mv.player), mv.dir, false);
    FreeIffNoHit(Origin(c.mode), q.arena.entered, At(to));
    assert ArenaTicked(s, e) == q.arena && CommandOf(s, e) == mv by { hide KeyStatusOk, Setup.Valid, TickBoth; }
    hide Hits, KeyStatusOk, Setup.Valid, Proper, Flags, Framed, Decide, OnBoard, DirectionKey, TickBoth;
    assert ArenaAfter(s, e) == Turned(q.arena, mv.player, to);
    NextMoment(c, s, q, e);
  }

  /** A timer interrupt alone, between two passive moves. */
  lemma TimerMoment(c: Setup, s: State, q: Moment)
    requires Shows(c, s, q) && (q.ticks + 1) % 5 != 0
    ensures Shows(c, Step(c, s, Hardware(true, None, None)), q.(ticks := q.ticks + 1))
  {
    hide Hits, Setup.Valid, Proper, Flags, Framed, OnBoard, TickBoth, AllOnBoard;
    NextMoment(c, s, q, Hardware(true, None, None));
  }

  /** The rider after a passive move, which always enters a block. */
  lemma PassiveTarget(c: Setup, s: State, q: Moment, p: Player, to: Rider)
    requires Shows(c, s, q) && Decide(q.arena.RiderOf(p), q.arena.RiderOf(p).heading, true) == Enter(to)
    requires OnBoard(c.mode, At(to))
    ensures AllLattice(Origin(c.mode), q.arena.entered) && OnLattice(Origin(c.mode), At(to))
    ensures Target(q.arena.RiderOf(p)) == At(to)
  {
    assert Roaming(Origin(c.mode), q.arena.RiderOf(p)) && AllLattice(Origin(c.mode), q.arena.entered) by {
      hide Roaming, Setup.Valid, Render, OnLattice;
    }
    hide Setup.Valid, Proper, Flags, Framed, OnLattice;
    StepKeepsLattice(c.mode, Origin(c.mode), q.arena.RiderOf(p), q.arena.RiderOf(p).heading, true);
  }

  /** A passive move into two free blocks. */
  lemma DueMoment(c: Setup, s: State, q: Moment, b: Rider, t: Rider)
    requires Shows(c, s, q) && (q.ticks + 1) % 5 == 0
    requires Decide(q.arena.blue, q.arena.blue.heading, true) == Enter(b) && OnBoard(c.mode, At(b))
    requires Decide(q.arena.orange, q.arena.orange.heading, true) == Enter(t) && OnBoard(c.mode, At(t))
    requires Free(q.arena.entered, At(b)) && Free(q.arena.entered + [Block(At(b), Blue)], At(t))
    ensures Shows(c, Step(c, s, Hardware(true, None, None)),
                  Moment(Turned(Turned(q.arena, Blue, b), Orange, t), q.ticks + 1, q.command))
  {
    var e := Hardware(true, None, None);
    var longer := q.arena.entered + [Block(At(b), Blue)];
    PassiveTarget(c, s, q, Blue, b);
    PassiveTarget(c, s, q, Orange, t);
    hide OnLattice, Setup.Valid, Proper, Flags, Framed, Decide, OnBoard, SharesPixel, Target;
    assert AllLattice(Origin(c.mode), longer);
    FreeIffNoHit(Origin(c.mode), q.arena.entered, At(b));
    FreeIffNoHit(Origin(c.mode), longer, At(t));
    hide Hits, Free;
    assert TickBoth(q.arena).0 == Turned(Turned(q.arena, Blue, b), Orange, t);
    assert Verdict(s, e) == SGame;
    NextMoment(c, s, q, e);
  }

  /** A passive move of blue into a painted block ends the game. */
  lemma CrashMoment(c: Setup, s: State, q: Moment, b: Rider)
    requires Shows(c, s, q) && (q.ticks + 1) % 5 == 0
    requires Decide(q.arena.blue, q.arena.blue.heading, true) == Enter(b) && OnBoard(c.mode, At(b))
    requires !Free(q.arena.entered, At(b))
    ensures var r := Step(c, s, Hardware(true, None, None));
            && OnMenu(r) && r.view == GoTwo && r.starts == 1 && r.nextMove == q.command
            && r.cursor == Cursor(400, 300) && r.mouse.counter == 0
  {
    var e := Hardware(true, None, None);
    PassiveTarget(c, s, q, Blue, b);
    hide OnLattice, Setup.Valid, Proper, Flags, Framed, Decide, OnBoard, SharesPixel, Target;
    FreeIffNoHit(Origin(c.mode), q.arena.entered, At(b));
    hide Hits, Free;
    assert TickBoth(q.arena).0 == Turned(q.arena, Blue, b);
    assert Verdict(s, e) == GoTwo;
    assert AllOnBoard(c.mode, q.arena.entered + [Block(At(b), Blue)]);
    WinnerStep(c, s, e);
    StepFacts(c, s, e);
    GameRest(c, s, e);
    hide Step;
    assert Flags(Step(c, s, e)) ;
  }

  function Timer(): Event { Hardware(true, None, None) }

  /** Blue rides a loop until it is right above its own trail, heading down, with
      a passive move due. */
  function Brink(): seq<Event> {
    [Release(true, W_BREAK), Release(true, D_BREAK), Release(true, W_BREAK)]
    + [Timer(), Timer()]
    + [Release(true, A_BREAK), Release(true, S_BREAK)]
    + [Timer(), Timer()]
  }

  /** The same, and the passive move into the trail. */
  function Lap(): seq<Event> { Brink() + [Timer()] }

  function ClimbBlocks(): seq<Block> {
    [Block(Pos(300, 295), Blue), Block(Pos(305, 295), Blue), Block(Pos(305, 290), Blue)]
  }

  function Opening(): Moment {
    Moment(Arena([], Rider(300, 300, Right), Rider(500, 300, Left)), 0, MovementInfo(Unchanged, Blue))
  }

  function Climbed(): Moment {
    Moment(Arena(ClimbBlocks(), Rider(305, 290, Up), Rider(500, 300, Left)), 3, MovementInfo(Up, Blue))
  }

  function Ticked(): Moment {
    Moment(Arena(ClimbBlocks() + [Block(Pos(305, 285), Blue), Block(Pos(495, 300), Orange)],
                 Rider(305, 285, Up), Rider(495, 300, Left)), 5, MovementInfo(Up, Blue))
  }

  function Turning(): Moment {
    Moment(Arena(Ticked().arena.entered + [Block(Pos(300, 285), Blue), Block(Pos(300, 290), Blue)],
                 Rider(300, 290, Down), Rider(495, 300, Left)), 7, MovementInfo(Down, Blue))
  }

  lemma Climb(c: Setup, s: State)
    requires Shows(c, s, Opening())
    ensures Shows(c, Run(c, s, [Release(true, W_BREAK), Release(true, D_BREAK), Release(true, W_BREAK)]), Climbed())
  {
    var w, d := Release(true, W_BREAK), Release(true, D_BREAK);
    hide Shows, Step, Setup.Valid, Proper;
    assert c.mode.h == 800 && c.mode.v == 600 && c.Valid() && Proper(c, s) by { ShowsFacts(c, s, Opening()); }
    KeyMoment(c, s, Opening(), W_BREAK, MovementInfo(Up, Blue), Rider(300, 295, Up));
    var q1 := Turned(Opening().arena, Blue, Rider(300, 295, Up));
    KeyMoment(c, Step(c, s, w), Moment(q1, 1, MovementInfo(Up, Blue)), D_BREAK, MovementInfo(Right, Blue), Rider(305, 295, Right));
    var q2 := Turned(q1, Blue, Rider(305, 295, Right));
    KeyMoment(c, Step(c, Step(c, s, w), d), Moment(q2, 2, MovementInfo(Right, Blue)), W_BREAK, MovementInfo(Up, Blue), Rider(305, 290, Up));
    assert Turned(q2, Blue, Rider(305, 290, Up)).entered == ClimbBlocks();
    Three(c, s, w, d, w);
  }

  lemma ShowsFacts(c: Setup, s: State, q: Moment)
    requires Shows(c, s, q)
    ensures c.mode.h == 800 && c.mode.v == 600 && c.Valid() && Proper(c, s)
  {
  }

  lemma Two(c: Setup, s: State, e: Event, f: Event)
    requires c.Valid() && Proper(c, s)
    ensures Run(c, s, [e, f]) == Step(c, Step(c, s, e), f)
  {
    hide Step, Setup.Valid, Proper;
    var s1 := Step(c, s, e);
    assert [e, f][1..] == [f] && [f][1..] == [];
    assert Run(c, s1, [f]) == Run(c, Step(c, s1, f), []);
    assert Run(c, s, [e, f]) == Run(c, s1, [f]);
  }

  lemma Advance(c: Setup, s: State)
    requires Shows(c, s, Climbed())
    ensures Shows(c, Run(c, s, [Timer(), Timer()]), Ticked())
  {
    hide Shows, Step, Setup.Valid, Proper;
    ShowsFacts(c, s, Climbed());
    TimerMoment(c, s, Climbed());
    DueMoment(c, Step(c, s, Timer()), Climbed().(ticks := 4), Rider(305, 285, Up), Rider(495, 300, Left));
    assert Turned(Turned(Climbed().arena, Blue, Rider(305, 285, Up)), Orange, Rider(495, 300, Left)) == Ticked().arena;
    Two(c, s, Timer(), Timer());
  }

  lemma Turn(c: Setup, s: State)
    requires Shows(c, s, Ticked())
    ensures Shows(c, Run(c, s, [Release(true, A_BREAK), Release(true, S_BREAK)]), Turning())
  {
    hide Shows, Step, Setup.Valid, Proper;
    ShowsFacts(c, s, Ticked());
    var a := Release(true, A_BREAK);
    KeyMoment(c, s, Ticked(), A_BREAK, MovementInfo(Left, Blue), Rider(300, 285, Left));
    var q := Turned(Ticked().arena, Blue, Rider(300, 285, Left));
    KeyMoment(c, Step(c, s, a), Moment(q, 6, MovementInfo(Left, Blue)), S_BREAK, MovementInfo(Down, Blue), Rider(300, 290, Down));
    assert Turned(q, Blue, Rider(300, 290, Down)) == Turning().arena;
    Two(c, s, a, Release(true, S_BREAK));
  }

  lemma Wait(c: Setup, s: State)
    requires Shows(c, s, Turning())
    ensures Shows(c, Run(c, s, [Timer(), Timer()]), Turning().(ticks := 9))
  {
    hide Shows, Step, Setup.Valid, Proper;
    ShowsFacts(c, s, Turning());
    TimerMoment(c, s, Turning());
    TimerMoment(c, Step(c, s, Timer()), Turning().(ticks := 8));
    Two(c, s, Timer(), Timer());
  }

  lemma BrinkReached(c: Setup, s: State)
    requires Shows(c, s, Opening())
    ensures Shows(c, Run(c, s, Brink()), Turning().(ticks := 9))
  {
    hide Shows, Step, Setup.Valid, Proper, Run, Opening, Climbed, Ticked, Turning;
    ShowsFacts(c, s, Opening());
    var e := [Release(true, W_BREAK), Release(true, D_BREAK), Release(true, W_BREAK)];
    var f := [Timer(), Timer()];
    var g := [Release(true, A_BREAK), Release(true, S_BREAK)];
    RunAppend(c, s, e + f + g, f);
    RunAppend(c, s, e + f, g);
    RunAppend(c, s, e, f);
    Climb(c, s);
    Advance(c, Run(c, s, e));
    Turn(c, Run(c, Run(c, s, e), f));
    Wait(c, Run(c, Run(c, Run(c, s, e), f), g));
  }

  lemma Crash(c: Setup, s: State)
    requires Shows(c, s, Turning().(ticks := 9))
    ensures var r := Step(c, s, Timer());
            && OnMenu(r) && r.view == GoTwo && r.starts == 1 && r.nextMove == MovementInfo(Down, Blue)
            && r.cursor == Cursor(400, 300) && r.mouse.counter == 0
  {
    hide Shows, Step, Setup.Valid, Proper, OnMenu;
    ShowsFacts(c, s, Turning().(ticks := 9));
    assert Turning().arena.entered[0].pos == Pos(300, 295);
    CrashMoment(c, s, Turning().(ticks := 9), Rider(300, 295, Down));
  }

  lemma LapPlayed(c: Setup, s: State)
    requires Shows(c, s, Opening())
    ensures var r := Run(c, s, Lap());
            && OnMenu(r) && r.view == GoTwo && r.starts == 1 && r.nextMove == MovementInfo(Down, Blue)
            && r.cursor == Cursor(400, 300) && r.mouse.counter == 0
  {
    hide Shows, Step, Setup.Valid, Proper, OnMenu, Opening, Turning, Brink;
    ShowsFacts(c, s, Opening());
    BrinkReached(c, s);
    RunAppend(c, s, Brink(), [Timer()]);
    Crash(c, Run(c, s, Brink()));
    RunCons(c, Run(c, s, Brink()), [Timer()]);
    assert [Timer()][1..] == [];
  }

  // -------------------------------------------------- an overruled crash

  /** The passive move into the trail with the pause key in the same
      notification. */
  lemma CrashPaused(c: Setup, s: State, q: Moment, b: Rider)
    requires Shows(c, s, q) && (q.ticks + 1) % 5 == 0 && q.command == MovementInfo(b.heading, Blue)
    requires Decide(q.arena.blue, q.arena.blue.heading, true) == Enter(b) && OnBoard(c.mode, At(b))
    requires !Free(q.arena.entered, At(b))
    ensures var r := Step(c, s, Release(true, P_BREAK));
            && r.view == Pause && Flags(r) && !r.fault && Settled(r)
            && r.game.blue == b && r.entered == q.arena.entered + [Block(At(b), Blue)]
  {
    var e := Release(true, P_BREAK);
    ReleaseRead(P_BREAK);
    PassiveTarget(c, s, q, Blue, b);
    assert b.heading == q.arena.blue.heading;
    assert Decide(b, b.heading, false) == Ignore;
    hide OnLattice, Setup.Valid, Proper, Framed, Decide, OnBoard, SharesPixel, Target, KeyStatusOk, DirectionKey, Flags;
    FreeIffNoHit(Origin(c.mode), q.arena.entered, At(b));
    hide Hits, Free;
    assert TickBoth(q.arena).0 == Turned(q.arena, Blue, b);
    assert CommandOf(s, e) == q.command && PauseKey(Port(1, P_BREAK));
    assert ArenaAfter(s, e) == Turned(q.arena, Blue, b);
    assert AllOnBoard(c.mode, q.arena.entered + [Block(At(b), Blue)]);
    WinnerStep(c, s, e);
    StepFacts(c, s, e);
    GameRest(c, s, e);
    hide Step;
  }

  lemma Resumed(c: Setup, s: State)
    requires c.Valid() && Proper(c, s) && Flags(s) && s.view == Pause && !s.fault && Settled(s)
    ensures var t := Step(c, s, Release(false, P_BREAK)); t.view == SGame && t.game.blue == s.game.blue && t.entered == s.entered
  {
    ReleaseRead(P_BREAK);
    PausedStep(c, s, Release(false, P_BREAK));
    hide Step, Setup.Valid, Proper, Settled, Flags, KeyStatusOk;
  }

  /** A run that reaches an overruled crash: at 800 by 600 by day, the same passive
      move into blue's own trail declares the other player the winner when it
      comes alone, and is forgotten when the pause key comes with it: the next P
      resumes the game with blue inside its trail. */
  lemma OverruledCrashReached(c: Setup)
    requires Daylight(c) && c.mode.h == 800 && c.mode.v == 600
    ensures var es := Click() + Brink();
            var paused := AtReceive(c, es + [Release(true, P_BREAK)]);
            var resumed := AtReceive(c, es + [Release(true, P_BREAK)] + [Release(false, P_BREAK)]);
            && AtReceive(c, es + [Timer()]).view == GoTwo
            && paused.view == Pause && paused.game.blue == Rider(300, 295, Down)
            && resumed.view == SGame && resumed.game.blue == paused.game.blue
            && resumed.entered == paused.entered && !Apart(resumed.entered)
  {
    hide Shows, Step, Setup.Valid, Proper, OnMenu, Opening, Brink, AtReceive, Flags, Settled, Apart;
    var es := Click() + Brink();
    OpeningShown(c);
    ShowsFacts(c, AtReceive(c, Click()), Opening());
    BrinkReached(c, AtReceive(c, Click()));
    AtReceiveJoin(c, Click(), Brink());
    var s := AtReceive(c, es);
    Crash(c, s);
    var q := Turning().(ticks := 9);
    assert q.arena.entered[0].pos == Pos(300, 295);
    CrashPaused(c, s, q, Rider(300, 295, Down));
    Overlap(q.arena.entered, Block(Pos(300, 295), Blue));
    AtReceiveSnoc(c, es, Timer());
    AtReceiveSnoc(c, es, Release(true, P_BREAK));
    AtReceiveSnoc(c, es + [Release(true, P_BREAK)], Release(false, P_BREAK));
    Resumed(c, AtReceive(c, es + [Release(true, P_BREAK)]));
  }

  lemma Overlap(entered: seq<Block>, b: Block)
    requires entered != [] && entered[0].pos == b.pos
    ensures !Apart(entered + [b])
  {
    var a := b.pos;
    assert Within(a, a.x, a.y);
    assert SharesPixel((entered + [b])[0].pos, (entered + [b])[|entered|].pos);
  }

  lemma AtReceiveJoin(c: Setup, es: seq<Event>, fs: seq<Event>)
    requires c.Valid()
    ensures AtReceive(c, es + fs) == Run(c, AtReceive(c, es), fs)
  {
    hide Settle, Boot, Setup.Valid, Proper, Step;
    RunAppend(c, AtReceive(c, []), es, fs);
  }

  // ------------------------------------------------ a stale command, by day

  lemma CentreAt(m: Mode)
    requires m.h == 800 && m.v == 600
    ensures W16(m.h / 2) == 400 && W16(m.v / 2) == 300
  {
  }

  lemma OpeningShown(c: Setup)
    requires Daylight(c) && c.mode.h == 800 && c.mode.v == 600
    ensures Shows(c, AtReceive(c, Click()), Opening())
  {
    hide Settle, Boot, Setup.Valid, Proper, Step, Flags, StartBlue, StartOrange, Framed;
    BootState(c);
    CentreAt(c.mode);
    ClickStartsGame(c);
    StartsAt(c.mode);
    ClickFramed(c, AtReceive(c, []));
  }

  lemma NineStarts()
    ensures Bit(9, 3)
  {
  }

  /** A game begun from a menu shows the picture of no blocks. */
  lemma ClickFramed(c: Setup, s: State)
    requires Daylight(c) && Proper(c, s) && OnMenu(s) && OnButton(s.cursor) && s.mouse.counter == 0
    requires Run(c, s, Click()).view == SGame
    ensures Framed(c, Run(c, s, Click()))
  {
    hide Step, Setup.Valid, Proper, Framed, Run, Bit;
    assert Bit(9, 3) by { NineStarts(); }
    MenuByte(c, s, 9);
    var s1 := Step(c, s, MouseByte(9));
    MenuByte(c, s1, 0);
    var s2 := Step(c, s1, MouseByte(0));
    Three(c, s, MouseByte(9), MouseByte(0), MouseByte(0));
    MenuBegins(c, s2, MouseByte(0));
  }

  /** A run that reaches a stale command: at 800 by 600 by day, blue crashes
      heading down, a click begins the second game with both riders at their
      starting places, and the release of a key without meaning turns blue down. */
  lemma StaleTurnReached(c: Setup)
    requires Daylight(c) && c.mode.h == 800 && c.mode.v == 600
    ensures var s := AtReceive(c, Click() + Lap() + Click());
            var t := AtReceive(c, Click() + Lap() + Click() + [Release(false, X_BREAK)]);
            && s.view == SGame && s.starts == 2 && s.game.blue == StartBlue(c.mode) && s.game.orange == StartOrange(c.mode)
            && QuietEvent(Release(false, X_BREAK))
            && t.view == SGame && t.game.blue == Rider(300, 305, Down) && t.game.orange == s.game.orange
  {
    OpeningShown(c);
    var s0 := AtReceive(c, []);
    var s1 := AtReceive(c, Click());
    LapPlayed(c, s1);
    var s2 := Run(c, s1, Lap());
    ClickBegins(c, s2);
    ClickFramed(c, s2);
    RunAppend(c, s0, Click(), Lap());
    RunAppend(c, s0, Click() + Lap(), Click());
    var s := Run(c, s2, Click());
    StaleKey(c, s);
    hide Settle, Boot, Setup.Valid, Proper, Step, Flags, Run, Framed, StartBlue, StartOrange, Shows;
    AtReceiveSnoc(c, Click() + Lap() + Click(), Release(false, X_BREAK));
  }

  lemma StaleKey(c: Setup, s: State)
    requires Daylight(c) && c.mode.h == 800 && c.mode.v == 600 && Proper(c, s) && Flags(s) && Framed(c, s)
    requires s.view == SGame && !s.fault && s.entered == [] && s.nextMove == MovementInfo(Down, Blue)
    requires s.game.blue == StartBlue(c.mode) && s.game.orange == StartOrange(c.mode)
    ensures var e := Release(false, X_BREAK); var t := Step(c, s, e);
            && QuietEvent(e) && t.view == SGame && t.game.blue == Rider(300, 305, Down) && t.game.orange == s.game.orange
  {
    var e := Release(false, X_BREAK);
    ReleaseRead(X_BREAK);
    assert StartBlue(c.mode) == Rider(300, 300, Right);
    assert Decide(Rider(300, 300, Right), Down, false) == Enter(Rider(300, 305, Down));
    assert CommandOf(s, e) == s.nextMove && !PauseKey(Port(1, X_BREAK));
    hide Setup.Valid, Proper, Flags, Framed, Decide, StartBlue, StartOrange, KeyStatusOk, DirectionKey;
    assert ArenaAfter(s, e) == Turned(ArenaOf(s), Blue, Rider(300, 305, Down));
    assert ArenaAfter(s, e).entered == [Block(Pos(300, 305), Blue)];
    WinnerStep(c, s, e);
  }
}
