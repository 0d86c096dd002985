/** Where the riders have been in a game of the whole program, the moves made
    behind the pause screen included. */
module Walk {
  import opened Raster
  import opened LightCycles
  import opened Arena
  import opened Refinement
  import opened GameLength
  import opened Mouse
  import opened Console
  import opened ConsoleInvariants
  import opened Winner

  /** The block the keyboard branch makes a rider enter, on either screen. */
  function KeyStride(s: State, p: Port): seq<Block> {
    var mv := CommandAfterKey(s.nextMove, p);
    if mv.dir == Unchanged then [] else Drawn(s.game.RiderOf(mv.player), mv, false)
  }

  ghost function TimerStrides(c: Setup, s: State): seq<Block>
    requires c.Valid() && Proper(c, s)
  {
    if !Due(s) || PassiveMove(c.mode, s.game).Fault? then []
    else TickDrawn(s.game, PassiveMove(c.mode, s.game).code)
  }

  ghost function GameStrides(c: Setup, s: State, e: Event): seq<Block>
    requires c.Valid() && Proper(c, s) && e.Hardware?
  {
    var t := if e.timer then OnTimer(c, s) else s;
    (if e.timer then TimerStrides(c, s) else []) + if e.keyboard.Some? then KeyStride(t, e.keyboard.value) else []
  }

  /** The blocks the riders enter in one event. */
  ghost function Strides(c: Setup, s: State, e: Event): seq<Block>
    requires c.Valid() && Proper(c, s)
  {
    if !e.Hardware? || Handle(c, s, e).fault then []
    else if s.view == SGame then GameStrides(c, s, e)
    else if s.view == Pause && e.keyboard.Some? then KeyStride(s, e.keyboard.value)
    else []
  }

  ghost function Walked(c: Setup, s: State, es: seq<Event>): seq<Block>
    requires c.Valid() && Proper(c, s)
    decreases |es|
  {
    if es == [] then [] else Strides(c, s, es[0]) + Walked(c, Step(c, s, es[0]), es[1..])
  }

  /** Both riders are at the ends of their paths. */
  ghost predicate Along(s: State, walked: seq<Block>, sb: Pos, so: Pos) {
    Tracked(Arena(walked, s.game.blue, s.game.orange), sb, so)
  }

  lemma KeyboardAlong(c: Setup, s: State, p: Port, inGame: bool, walked: seq<Block>, sb: Pos, so: Pos)
    requires c.Valid() && Proper(c, s) && Along(s, walked, sb, so) && !OnKeyboard(c, s, p, inGame).fault
    ensures Along(OnKeyboard(c, s, p, inGame), walked + KeyStride(s, p), sb, so)
  {
    hide MovePlayer, Drawn, Tracked, Setup.Valid, Mode.Size, CursorInside, PauseKey, DirectionRelease;
    var mv := CommandAfterKey(s.nextMove, p);
    if mv.dir == Unchanged {
      assert walked + [] == walked;
    } else {
      ScreenMoveTracked(c.mode, s.game, walked, mv, false, sb, so);
    }
  }

  lemma TimerAlong(c: Setup, s: State, walked: seq<Block>, sb: Pos, so: Pos)
    requires c.Valid() && Proper(c, s) && Along(s, walked, sb, so) && !OnTimer(c, s).fault
    ensures Along(OnTimer(c, s), walked + TimerStrides(c, s), sb, so)
  {
    hide PassiveMove, TickDrawn, Tracked, Setup.Valid, Mode.Size, CursorInside;
    if Due(s) {
      TickTracked(c.mode, s.game, walked, sb, so);
    } else {
      assert walked + [] == walked;
    }
  }

  lemma GameAlong(c: Setup, s: State, e: Event, walked: seq<Block>, sb: Pos, so: Pos)
    requires c.Valid() && Proper(c, s) && Along(s, walked, sb, so) && e.Hardware? && !OnGame(c, s, e).fault
    ensures Along(OnGame(c, s, e), walked + GameStrides(c, s, e), sb, so)
  {
    hide OnTimer, OnKeyboard, TimerStrides, KeyStride, Along, Setup.Valid, Proper;
    var t := if e.timer then OnTimer(c, s) else s;
    var first := if e.timer then TimerStrides(c, s) else [];
    if e.timer {
      TimerAlong(c, s, walked, sb, so);
    } else {
      assert walked + [] == walked;
    }
    if e.keyboard.Some? {
      KeyboardAlong(c, t, e.keyboard.value, true, walked + first, sb, so);
      assert walked + first + KeyStride(t, e.keyboard.value) == walked + (first + KeyStride(t, e.keyboard.value));
    } else {
      assert first + [] == first;
    }
  }

  lemma HandleAlong(c: Setup, s: State, e: Event, walked: seq<Block>, sb: Pos, so: Pos)
    requires c.Valid() && Proper(c, s) && Along(s, walked, sb, so) && !Handle(c, s, e).fault
    ensures Along(Handle(c, s, e), walked + Strides(c, s, e), sb, so)
  {
    hide OnGame, OnKeyboard, GameStrides, KeyStride, Tracked, Setup.Valid, Proper, Blit, Feed, MoveCursor, InPlace, MenuImage;
    assert walked + [] == walked;
    if e.Hardware? && s.view == SGame {
      GameAlong(c, s, e, walked, sb, so);
    } else if e.Hardware? && s.view == Pause && e.keyboard.Some? {
      KeyboardAlong(c, s, e.keyboard.value, false, walked, sb, so);
    }
  }

  lemma StepAlong(c: Setup, s: State, e: Event, walked: seq<Block>, sb: Pos, so: Pos)
    requires c.Valid() && Proper(c, s) && Along(s, walked, sb, so) && Step(c, s, e).starts == s.starts
    ensures Along(Step(c, s, e), walked + Strides(c, s, e), sb, so)
  {
    hide Handle, Tracked, Setup.Valid, Proper, Settle;
    assert walked + [] == walked;
    if Handle(c, s, e).fault {
      FaultFrozen(c, s, e);
    } else {
      HandleAlong(c, s, e, walked, sb, so);
      HandleFacts(c, s, e);
      SettleFacts(c, Handle(c, s, e));
    }
  }

  lemma {:induction false} RunAlong(c: Setup, s: State, es: seq<Event>, walked: seq<Block>, sb: Pos, so: Pos)
    requires c.Valid() && Proper(c, s) && Flags(s) && Along(s, walked, sb, so) && Run(c, s, es).starts == s.starts
    ensures Along(Run(c, s, es), walked + Walked(c, s, es), sb, so)
    decreases |es|
  {
    hide Step, Along, Strides, Flags, Setup.Valid, Proper;
    if es == [] {
      assert walked + [] == walked;
    } else {
      var t := Step(c, s, es[0]);
      StepFacts(c, s, es[0]);
      RunFacts(c, t, es[1..]);
      StepAlong(c, s, es[0], walked, sb, so);
      RunAlong(c, t, es[1..], walked + Strides(c, s, es[0]), sb, so);
      assert walked + Strides(c, s, es[0]) + Walked(c, t, es[1..]) == walked + (Strides(c, s, es[0]) + Walked(c, t, es[1..]));
    }
  }

  lemma BegunAtStarts(c: Setup, s: State, e: Event)
    requires c.Valid() && Proper(c, s) && Flags(s) && Menu(s.view) && Step(c, s, e).view == SGame
    ensures Step(c, s, e).game.blue == StartBlue(c.mode) && Step(c, s, e).game.orange == StartOrange(c.mode)
  {
    HandleFacts(c, s, e);
    if Handle(c, s, e).fault { FaultFrozen(c, s, e); }
    hide Handle, Setup.Valid, Proper, Filled, StartBlue, StartOrange;
  }

  /** Where player `p` has been since event `i`, which began a game. */
  ghost function PathSince(c: Setup, es: seq<Event>, i: nat, p: Player): (path: seq<Pos>)
    requires c.Valid() && BegunAt(c, es, i)
    ensures |path| >= 1
  {
    PathOf(Walked(c, AtReceive(c, es[..i + 1]), es[i + 1..]), p, StartOf(c.mode, p))
  }

  lemma TrackedSince(c: Setup, es: seq<Event>, i: nat)
    requires c.Valid() && BegunAt(c, es, i) && AtReceive(c, es).starts == AtReceive(c, es[..i + 1]).starts
    ensures OnPath(PathSince(c, es, i, Blue), AtReceive(c, es).game.blue)
    ensures OnPath(PathSince(c, es, i, Orange), AtReceive(c, es).game.orange)
  {
    hide AtReceive, Step, Run, Flags, Setup.Valid, Proper, StartBlue, StartOrange, OnPath, PathOf, Walked, Start;
    var s := AtReceive(c, es[..i + 1]);
    FlagInvariant(c, es[..i]);
    FlagInvariant(c, es[..i + 1]);
    AtReceiveFrom(c, es, i);
    BegunAtStarts(c, AtReceive(c, es[..i]), es[i]);
    StartTracked(c.mode);
    StartIs(c.mode);
    assert Along(s, [], StartOf(c.mode, Blue), StartOf(c.mode, Orange));
    RunAlong(c, s, es[i + 1..], [], StartOf(c.mode, Blue), StartOf(c.mode, Orange));
    assert [] + Walked(c, s, es[i + 1..]) == Walked(c, s, es[i + 1..]);
  }

  lemma StartIs(m: Mode)
    ensures Start(m) == Arena([], StartBlue(m), StartOrange(m))
  {
  }

  /** No reversal on runs of the whole program, by day or night, on the board or
      off: from the beginning of a game to any later receive before the next
      `start_game`, ticks, keys and keys behind the pause screen alike, the
      heading is a real direction, the head is where the path ends, every move is
      one step, and nobody is ever back where it was two moves before. */
  lemma ProgramNeverReverses(c: Setup, es: seq<Event>, i: nat, p: Player)
    requires c.Valid() && BegunAt(c, es, i) && AtReceive(c, es).starts == AtReceive(c, es[..i + 1]).starts
    ensures var r := AtReceive(c, es).game.RiderOf(p); var path := PathSince(c, es, i, p);
            && r.heading != Unchanged && path[|path| - 1] == At(r) && NoReversal(path) && Steps(path)
  {
    hide AtReceive, Setup.Valid, BegunAt, PathSince, NoReversal, Steps;
    TrackedSince(c, es, i);
  }

  /** And without 16-bit wrap every place on the path is on the common lattice. */
  lemma ProgramLattice(c: Setup, es: seq<Event>, i: nat, p: Player, k: nat)
    requires c.Valid() && BegunAt(c, es, i) && AtReceive(c, es).starts == AtReceive(c, es[..i + 1]).starts
    requires c.mode.h >= 200 && Unwrapped(PathSince(c, es, i, p)) && k < |PathSince(c, es, i, p)|
    ensures OnLattice(Origin(c.mode), PathSince(c, es, i, p)[k])
  {
    StartsOnLattice(c.mode);
    assert OnLattice(Origin(c.mode), StartOf(c.mode, p));
    hide AtReceive, Setup.Valid, BegunAt, NoReversal, Steps, OnLattice, Origin, StartOf, PathOf, Walked;
    TrackedSince(c, es, i);
    PathStart(Walked(c, AtReceive(c, es[..i + 1]), es[i + 1..]), p, StartOf(c.mode, p));
    PathOnLattice(Origin(c.mode), PathSince(c, es, i, p), k);
  }
}
