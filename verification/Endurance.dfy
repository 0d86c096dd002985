/** How long a game of the whole program can last: every passive tick without a
    crash uses up two cells of the board. */
module Endurance {
  import opened Words
  import opened Raster
  import opened LightCycles
  import opened Arena
  import opened Refinement
  import opened GameLength
  import opened Console
  import opened ConsoleInvariants
  import opened Winner

  /** A crash of a tick that the pause key of the same notification overwrites:
      the game goes on after it. */
  ghost predicate SwallowsCrash(c: Setup, s: State, e: Event)
    requires c.Valid() && Proper(c, s)
  {
    && s.view == SGame && e.Hardware? && e.timer && Due(s)
    && (BlueCrashes(s.game, s.entered) || OrangeCrashes(s.game, s.entered))
    && Step(c, s, e).view == Pause
  }

  /** No crash is swallowed along a run. */
  ghost predicate CrashesCount(c: Setup, s: State, es: seq<Event>)
    requires c.Valid() && Proper(c, s)
    decreases |es|
  {
    es == [] || (!SwallowsCrash(c, s, es[0]) && CrashesCount(c, Step(c, s, es[0]), es[1..]))
  }

  /** While the game lasts: blocks are apart exactly if no crash was swallowed,
      and then there are two for every passive tick after the first `past`. */
  ghost predicate Enduring(s: State, clean: bool, past: nat) {
    InGame(s) ==> (Apart(s.entered) <==> clean) && (clean ==> 2 * (s.ticks / 5 - past) <= |s.entered|)
  }

  /** A move keeps blocks apart exactly when it is not flagged. */
  lemma MoveApart(a: Arena, mv: MovementInfo, passive: bool)
    requires mv.dir != Unchanged
    ensures Apart(Move(a, mv, passive).0.entered) <==> Apart(a.entered) && Move(a, mv, passive).1 == 0
    ensures |a.entered| <= |Move(a, mv, passive).0.entered|
  {
    var d := Decide(a.RiderOf(mv.player), mv.dir, passive);
    if d.Enter? {
      var b := Block(At(d.to), mv.player);
      AppendApart(a.entered, b);
    }
    hide Apart, Hits;
  }

  lemma AppendApart(entered: seq<Block>, b: Block)
    ensures Apart(entered + [b]) <==> Apart(entered) && !Hits(entered, b.pos)
  {
    var longer := entered + [b];
    hide SharesPixel;
    if Apart(longer) {
      forall i, j | 0 <= i < j < |entered|
        ensures !SharesPixel(entered[i].pos, entered[j].pos)
      {
        assert !SharesPixel(longer[i].pos, longer[j].pos);
      }
      forall i | 0 <= i < |entered|
        ensures !SharesPixel(entered[i].pos, b.pos)
      {
        assert !SharesPixel(longer[i].pos, longer[|entered|].pos);
      }
    }
  }

  /** One passive move. */
  lemma TickApart(s: State)
    requires Headed(s.game)
    ensures var a := TickBoth(ArenaOf(s)).0;
            && (Apart(a.entered) <==>
                 Apart(s.entered) && !BlueCrashes(s.game, s.entered) && !OrangeCrashes(s.game, s.entered))
            && (Apart(a.entered) ==> |a.entered| >= |s.entered| + 2)
            && Headed(s.game.(blue := a.blue, orange := a.orange))
  {
    var a := ArenaOf(s);
    var blue := MovementInfo(a.blue.heading, Blue);
    var orange := MovementInfo(a.orange.heading, Orange);
    var b := Move(a, blue, true).0;
    TickVerdict(a, s.game);
    MoveApart(a, blue, true);
    MoveApart(b, orange, true);
    PassiveEnters(a.blue);
    PassiveEnters(a.orange);
    MoveLists(a, blue, true);
    MoveLists(b, orange, true);
    hide Apart, Hits, BlueCrashes, OrangeCrashes, Target;
  }

  lemma KeyApart(s: State, e: Event)
    requires e.Hardware? && !KeyCrashes(s, e)
    ensures Apart(ArenaAfter(s, e).entered) <==> Apart(ArenaTicked(s, e).entered)
    ensures |ArenaAfter(s, e).entered| >= |ArenaTicked(s, e).entered|
  {
    KeyCrashCode(s, e);
    if KeyMoves(s, e) {
      MoveCode(ArenaTicked(s, e), CommandOf(s, e));
      MoveApart(ArenaTicked(s, e), CommandOf(s, e), false);
    }
    hide ArenaTicked, Move, Apart, KeyCrashes, CommandOf;
  }

  lemma MoveCode(a: Arena, mv: MovementInfo)
    ensures Move(a, mv, false).1 <= 1
  {
  }

  lemma GameTicks(c: Setup, s: State, e: Event)
    requires c.Valid() && Proper(c, s) && Flags(s) && s.view == SGame
    ensures var t := Step(c, s, e);
            if e.Hardware? && !t.fault then t.ticks == s.ticks + (if e.timer then 1 else 0)
            else t.ticks == s.ticks && t.entered == s.entered && t.view == s.view
  {
    hide Setup.Valid, Proper, MovePlayer, PassiveMove, Blit, PauseKey, DirectionRelease, TickDrawn, Drawn, StartGame, Filled;
  }

  lemma FifthTick(ticks: nat)
    ensures (ticks + 1) / 5 == ticks / 5 + if (ticks + 1) % 5 == 0 then 1 else 0
  {
  }

  /** One notification of the game loop that keeps the game going. */
  lemma GameEnduring(c: Setup, s: State, e: Event, clean: bool, past: nat)
    requires Daylight(c) && Proper(c, s) && Flags(s) && Framed(c, s) && Enduring(s, clean, past) && s.view == SGame
    requires HeadsOnBoard(c, Step(c, s, e)) && InGame(Step(c, s, e))
    ensures Enduring(Step(c, s, e), clean && !SwallowsCrash(c, s, e), past)
  {
    hide Step, Handle, Setup.Valid, Proper, Flags, ArenaAfter, Apart, HeadsOnBoard, Framed, KeyCrashes,
         BlueCrashes, OrangeCrashes, PauseKey, TickBoth, CommandOf;
    GameTicks(c, s, e);
    FifthTick(s.ticks);
    if e.Hardware? && !Step(c, s, e).fault {
      HandleNoFault(c, s, e);
      FramedHeads(c, s);
      VerdictStep(c, s, e);
      TickApart(s);
      KeyApart(s, e);
    }
  }

  lemma StepEnduring(c: Setup, s: State, e: Event, clean: bool, past: nat)
    requires Daylight(c) && Proper(c, s) && Flags(s) && Framed(c, s) && Enduring(s, clean, past)
    requires HeadsOnBoard(c, Step(c, s, e)) && Step(c, s, e).starts == s.starts
    ensures Enduring(Step(c, s, e), clean && !SwallowsCrash(c, s, e), past)
  {
    hide Step, Setup.Valid, Proper, Flags, Framed, Apart, HeadsOnBoard, BlueCrashes, OrangeCrashes;
    StepFacts(c, s, e);
    if s.view == SGame && InGame(Step(c, s, e)) {
      GameEnduring(c, s, e, clean, past);
    } else if s.view == Pause {
      PauseKeeps(c, s, e);
    }
  }

  lemma HandleNoFault(c: Setup, s: State, e: Event)
    requires c.Valid() && Proper(c, s) && !Step(c, s, e).fault
    ensures !Handle(c, s, e).fault
  {
    hide Handle, Settle, Setup.Valid, Proper;
  }

  lemma {:induction false} RunEnduring(c: Setup, s: State, es: seq<Event>, clean: bool, past: nat)
    requires Daylight(c) && Proper(c, s) && Flags(s) && Framed(c, s) && Enduring(s, clean, past)
    requires AllHeadsOnBoard(c, s, es) && Run(c, s, es).starts == s.starts
    ensures Enduring(Run(c, s, es), clean && CrashesCount(c, s, es), past)
    decreases |es|
  {
    hide Step, Setup.Valid, Proper, Framed, HeadsOnBoard, Flags, Enduring, SwallowsCrash;
    if es != [] {
      var t := Step(c, s, es[0]);
      StepFacts(c, s, es[0]);
      assert AllHeadsOnBoard(c, t, es[1..]);
      assert HeadsOnBoard(c, t);
      RunFacts(c, t, es[1..]);
      StepFramed(c, s, es[0]);
      StepEnduring(c, s, es[0], clean, past);
      RunEnduring(c, t, es[1..], clean && !SwallowsCrash(c, s, es[0]), past);
    }
  }

  /** The game frame, wherever it is kept. */
  ghost function GameFrame(s: State): seq<byte> { if s.view == Pause then s.saved else s.game.fb }

  /** The length of a game, on every run of the program: from the event that
      began it to any later receive of the same game, pauses included, with the
      heads on the board since.  The game frame has 25 lit pixels for every block
      drawn if and only if no crash was swallowed.  If none was, at least two
      blocks have been drawn per passive tick and there are no more blocks than
      cells, so the game ends within half as many passive ticks as there are
      cells. */
  lemma GameIsBounded(c: Setup, es: seq<Event>, i: nat)
    requires Daylight(c) && OnBoardSince(c, es, i)
    requires InGame(AtReceive(c, es)) && AtReceive(c, es).starts == AtReceive(c, es[..i + 1]).starts
    ensures var s := AtReceive(c, es[..i + 1]); var t := AtReceive(c, es); var o := Origin(c.mode);
            var clean := CrashesCount(c, s, es[i + 1..]);
            && |GameFrame(t)| == c.mode.Size()
            && (|Lit(c.mode, GameFrame(t))| == 25 * |t.entered| <==> clean)
            && (clean ==> 2 * (t.ticks / 5 - s.ticks / 5) <= |t.entered| <= Count(o.x, c.mode.h) * Count(o.y, c.mode.v))
  {
    var s := AtReceive(c, es[..i + 1]);
    hide AtReceive, Setup.Valid, Proper, Framed, HeadsOnBoard, Flags, Step, Run, Apart, Lit, Count, Origin, CrashesCount;
    FlagInvariant(c, es[..i + 1]);
    FramedSince(c, es, i);
    AtReceiveFrom(c, es, i);
    assert Apart(s.entered) by { NothingApart(); }
    RunEnduring(c, s, es[i + 1..], true, s.ticks / 5);
    BlocksLit(c, AtReceive(c, es));
  }

  lemma NothingApart()
    ensures Apart([])
  {
  }

  lemma BlocksLit(c: Setup, s: State)
    requires Daylight(c) && Proper(c, s) && Framed(c, s) && InGame(s)
    ensures var o := Origin(c.mode);
            && |GameFrame(s)| == c.mode.Size()
            && (|Lit(c.mode, GameFrame(s))| == 25 * |s.entered| <==> Apart(s.entered))
            && (Apart(s.entered) ==> |s.entered| <= Count(o.x, c.mode.h) * Count(o.y, c.mode.v))
  {
    var m, o := c.mode, Origin(c.mode);
    assert Sound(m, o, ArenaOf(s)) && GameFrame(s) == Render(m, o, 0, TrailOf(s.entered)) by { hide Sound, Render, Setup.Valid; }
    hide Render, Setup.Valid, Proper, Framed, Lit, Count, Apart, Mode.Size, OnLattice, Cells, Visited, Area;
    LitIsArea(m, o, s.entered);
    AreaSize(s.entered);
    if Apart(s.entered) { CellsBound(m, o, s.entered); }
  }

  lemma CellsBound(m: Mode, o: Pos, entered: seq<Block>)
    requires AllLattice(o, entered) && AllOnBoard(m, entered) && Apart(entered)
    ensures |entered| <= Count(o.x, m.h) * Count(o.y, m.v)
  {
    VisitedSize(entered);
    GridSize(First(o.x), First(o.y), STEP, Count(o.x, m.h), Count(o.y, m.v));
    hide OnLattice, OnBoard, Grid, Count, Apart;
    forall q | q in Visited(entered)
      ensures q in Cells(m, o)
    {
      CellsMember(m, o, q);
    }
    SubsetSize(Visited(entered), Cells(m, o));
  }

  lemma SubsetSize(a: set<Pos>, b: set<Pos>)
    requires a <= b
    ensures |a| <= |b|
  {
    assert b == a + (b - a);
  }
}
