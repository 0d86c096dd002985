/** The framebuffer game plays exactly the block game, over whole runs. */
module Refinement {
  import opened Words
  import opened Raster
  import opened LightCycles
  import opened Arena

  /** A rider on the lattice, far enough from the 16-bit limit to step. */
  ghost predicate Roaming(o: Pos, r: Rider) {
    r.heading != Unchanged && OnLattice(o, At(r)) && r.x <= 0xFFFA && r.y <= 0xFFFA
  }

  ghost predicate Sound(m: Mode, o: Pos, a: Arena) {
    && m.Valid() && AllLattice(o, a.entered) && AllOnBoard(m, a.entered)
    && Roaming(o, a.blue) && Roaming(o, a.orange)
  }

  /** The framebuffer is the picture of the blocks entered so far. */
  ghost predicate Pictures(m: Mode, o: Pos, bg: byte, g: Game, a: Arena) {
    && Sound(m, o, a) && g.blue == a.blue && g.orange == a.orange
    && g.fb == Render(m, o, bg, TrailOf(a.entered))
  }

  lemma StepKeepsLattice(m: Mode, o: Pos, r: Rider, dir: Direction, passive: bool)
    requires m.Valid() && Roaming(o, r)
    requires Decide(r, dir, passive).Enter? && OnBoard(m, At(Decide(r, dir, passive).to))
    ensures Roaming(o, Decide(r, dir, passive).to)
  {
  }

  lemma MoveRefines(m: Mode, o: Pos, g: Game, a: Arena, mv: MovementInfo, passive: bool)
    requires m.Valid() && m.bpp >= 2 && Pictures(m, o, 0, g, a)
    requires AllOnBoard(m, Move(a, mv, passive).0.entered)
    ensures Sized(m, g)
    ensures var r := MovePlayer(m, g, mv, passive); var (b, code) := Move(a, mv, passive);
            r.Done? && r.code == code && Pictures(m, o, 0, r.game, b)
  {
    hide Mode.Size, Mode.Pixels, Mode.Index, Render, Probe, Painted, RectPixels, OnLattice, Inside, Hits, TrailOf;
    match Decide(a.RiderOf(mv.player), mv.dir, passive)
    case Ignore =>
    case Reject =>
    case Enter(r) =>
      var block := Block(At(r), mv.player);
      assert (a.entered + [block])[|a.entered|] == block;
      StepKeepsLattice(m, o, a.RiderOf(mv.player), mv.dir, passive);
      RectInside(m, r.x, r.y, BLOCK, BLOCK);
      ProbeLaw(m, o, 0, TrailOf(a.entered), At(r));
      HitsIffVisited(o, a.entered, At(r));
      PaintIsUpdate(m, o, 0, TrailOf(a.entered), At(r), mv.player);
      TrailSnoc(a.entered, block);
  }

  lemma ObeyExtends(a: Arena, c: Command)
    ensures a.entered <= Obey(a, c).0.entered
    ensures c == Tick ==> a.entered <= Move(a, MovementInfo(a.blue.heading, Blue), true).0.entered
                       <= Obey(a, c).0.entered
  {
    hide Hits;
  }

  lemma {:induction false} FollowExtends(a: Arena, cs: seq<Command>)
    ensures a.entered <= Follow(a, cs).0.entered
    decreases |cs|
  {
    hide Obey;
    if cs != [] {
      ObeyExtends(a, cs[0]);
      FollowExtends(Obey(a, cs[0]).0, cs[1..]);
    }
  }

  lemma ApplyRefines(m: Mode, o: Pos, g: Game, a: Arena, c: Command)
    requires m.Valid() && m.bpp >= 2 && Pictures(m, o, 0, g, a)
    requires AllOnBoard(m, Obey(a, c).0.entered)
    ensures Sized(m, g)
    ensures var r := Apply(m, g, c); var (b, code) := Obey(a, c);
            r.Done? && r.code == code && Pictures(m, o, 0, r.game, b)
  {
    hide Mode.Size, Mode.Pixels, Mode.Index, Render, MovePlayer, Move, Roaming, AllLattice, TrailOf;
    match c
    case Key(mv) =>
      MoveRefines(m, o, g, a, mv, false);
    case Tick =>
      ObeyExtends(a, c);
      var blue := MovementInfo(a.blue.heading, Blue);
      var orange := MovementInfo(a.orange.heading, Orange);
      MoveRefines(m, o, g, a, blue, true);
      if Move(a, blue, true).1 == 0 {
        MoveRefines(m, o, MovePlayer(m, g, blue, true).game, Move(a, blue, true).0, orange, true);
      }
  }

  /** Over every sequence of ticks and key commands whose blocks stay on the
      board, the framebuffer game never faults, returns the same codes as the
      block game, and its framebuffer is the picture of the blocks. */
  lemma {:induction false} PlayRefines(m: Mode, o: Pos, g: Game, a: Arena, cs: seq<Command>)
    requires m.Valid() && m.bpp >= 2 && Pictures(m, o, 0, g, a)
    requires AllOnBoard(m, Follow(a, cs).0.entered)
    ensures Sized(m, g)
    ensures var r := Play(m, g, cs); var (b, codes) := Follow(a, cs);
            r.Played? && r.codes == codes && Pictures(m, o, 0, r.game, b)
    decreases |cs|
  {
    hide Mode.Size, Render, Obey, Apply, Sound, TrailOf;
    if cs != [] {
      var b := Obey(a, cs[0]).0;
      FollowExtends(b, cs[1..]);
      ApplyRefines(m, o, g, a, cs[0]);
      PlayRefines(m, o, Apply(m, g, cs[0]).game, b, cs[1..]);
    }
  }

  /** A command whose drawn blocks are on the board: the block game enters
      exactly the blocks drawn. */
  lemma ObeyDraws(m: Mode, o: Pos, g: Game, a: Arena, c: Command)
    requires m.Valid() && m.bpp >= 2 && Pictures(m, o, 0, g, a)
    requires Sized(m, g) && Apply(m, g, c).Done?
    requires AllOnBoard(m, a.entered + CommandDrawn(g, c, Apply(m, g, c).code))
    ensures Obey(a, c).0.entered == a.entered + CommandDrawn(g, c, Apply(m, g, c).code)
  {
    match c
    case Key(mv) =>
      MoveLists(a, mv, false);
    case Tick =>
      TickDraws(m, o, g, a);
  }

  lemma TickDraws(m: Mode, o: Pos, g: Game, a: Arena)
    requires m.Valid() && m.bpp >= 2 && Pictures(m, o, 0, g, a)
    requires Sized(m, g) && PassiveMove(m, g).Done?
    requires AllOnBoard(m, a.entered + TickDrawn(g, PassiveMove(m, g).code))
    ensures TickBoth(a).0.entered == a.entered + TickDrawn(g, PassiveMove(m, g).code)
  {
    var blue := MovementInfo(a.blue.heading, Blue);
    var orange := MovementInfo(a.orange.heading, Orange);
    var b := Move(a, blue, true).0;
    MoveLists(a, blue, true);
    MoveLists(b, orange, true);
    assert a.entered + Drawn(a.blue, blue, true) <= a.entered + TickDrawn(g, PassiveMove(m, g).code);
    hide Move, MovePlayer, Mode.Size, Sound, Render, Drawn;
    MoveRefines(m, o, g, a, blue, true);
    assert a.entered + Drawn(a.blue, blue, true) + Drawn(a.orange, orange, true)
        == a.entered + (Drawn(a.blue, blue, true) + Drawn(a.orange, orange, true));
  }

  /** The same over a whole run. */
  lemma {:induction false} FollowDraws(m: Mode, o: Pos, g: Game, a: Arena, cs: seq<Command>)
    requires m.Valid() && m.bpp >= 2 && Pictures(m, o, 0, g, a)
    requires Sized(m, g) && Play(m, g, cs).Played? && AllOnBoard(m, a.entered + Trail(m, g, cs))
    ensures Follow(a, cs).0.entered == a.entered + Trail(m, g, cs)
    decreases |cs|
  {
    hide Mode.Size, Render, Obey, Apply, Sound, TrailOf, CommandDrawn;
    if cs != [] {
      var o1 := Apply(m, g, cs[0]);
      var drawn := CommandDrawn(g, cs[0], o1.code);
      assert a.entered + Trail(m, g, cs) == a.entered + drawn + Trail(m, o1.game, cs[1..]);
      assert a.entered + drawn <= a.entered + Trail(m, g, cs);
      ObeyDraws(m, o, g, a, cs[0]);
      ApplyRefines(m, o, g, a, cs[0]);
      FollowDraws(m, o, o1.game, Obey(a, cs[0]).0, cs[1..]);
    }
  }

  // ------------------------------------------------------- from `start_game`

  function Origin(m: Mode): Pos { At(StartBlue(m)) }

  lemma StartSound(m: Mode)
    requires m.Valid() && m.h >= 200
    ensures Sound(m, Origin(m), Start(m))
  {
  }

  lemma RenderEmpty(m: Mode, o: Pos, bg: byte)
    requires m.Valid()
    ensures Render(m, o, bg, map[]) == Filled(m.Size(), bg)
  {
    hide Mode.Size;
  }

  lemma StartPictures(m: Mode, g: Game, hour: byte)
    requires Sized(m, g) && g.fb == Filled(m.Size(), 0) && m.h >= 200
    ensures Pictures(m, Origin(m), if hour >= NIGHT then 255 else 0, StartGame(m, g, hour), Start(m))
  {
    hide Mode.Size, Render;
    StartSound(m);
    RenderEmpty(m, Origin(m), if hour >= NIGHT then 255 else 0);
  }

  /** A whole game by day: refinement from `start_game` on a cleared screen. */
  lemma GameRefines(m: Mode, g: Game, hour: byte, cs: seq<Command>)
    requires Sized(m, g) && g.fb == Filled(m.Size(), 0) && m.h >= 200
    requires m.bpp >= 2 && hour < NIGHT
    requires AllOnBoard(m, Follow(Start(m), cs).0.entered)
    ensures var r := Play(m, StartGame(m, g, hour), cs); var (b, codes) := Follow(Start(m), cs);
            && r.Played? && r.codes == codes
            && r.game.blue == b.blue && r.game.orange == b.orange
            && r.game.fb == Render(m, Origin(m), 0, TrailOf(b.entered))
  {
    hide Mode.Size, Render, StartGame;
    StartPictures(m, g, hour);
    PlayRefines(m, Origin(m), StartGame(m, g, hour), Start(m), cs);
  }

  /** Probe exactness: after any day game on the board, the next move is
      flagged if and only if the block it enters shares a pixel with a block
      entered earlier in the game. */
  lemma ProbeExact(m: Mode, g: Game, hour: byte, cs: seq<Command>, mv: MovementInfo, passive: bool)
    requires Sized(m, g) && g.fb == Filled(m.Size(), 0) && m.h >= 200
    requires m.bpp >= 2 && hour < NIGHT
    requires var a := Follow(Start(m), cs).0;
             var d := Decide(a.RiderOf(mv.player), mv.dir, passive);
             AllOnBoard(m, a.entered) && d.Enter? && OnBoard(m, At(d.to))
    ensures var r := Play(m, StartGame(m, g, hour), cs); var a := Follow(Start(m), cs).0;
            && r.Played?
            && var next := MovePlayer(m, r.game, mv, passive);
               var to := Decide(a.RiderOf(mv.player), mv.dir, passive).to;
            && next.Done?
            && (next.code != 0 <==> exists i :: 0 <= i < |a.entered| && SharesPixel(a.entered[i].pos, At(to)))
  {
    hide Mode.Size, Render, StartGame, MovePlayer, SharesPixel, Decide, Sound;
    StartPictures(m, g, hour);
    PlayRefines(m, Origin(m), StartGame(m, g, hour), Start(m), cs);
    var r := Play(m, StartGame(m, g, hour), cs);
    MoveRefines(m, Origin(m), r.game, Follow(Start(m), cs).0, mv, passive);
  }

  /** The first blocks of a game, where the board has room for them. */
  lemma FirstBlocks(m: Mode)
    requires m.Valid() && m.h >= 210 && m.v >= 10
    ensures var b := Decide(StartBlue(m), Right, true); var t := Decide(StartOrange(m), Left, true); var o := Origin(m);
            && b.Enter? && OnBoard(m, At(b.to)) && OnLattice(o, At(b.to))
            && t.Enter? && OnBoard(m, At(t.to)) && OnLattice(o, At(t.to))
            && At(b.to) != At(t.to)
  {
    assert W16(m.h / 2 - 100) == m.h / 2 - 100 && W16(m.h / 2 + 100) == m.h / 2 + 100 && W16(m.v / 2) == m.v / 2;
    assert W16(m.h / 2 - 100 + 5) == m.h / 2 - 95 && W16(m.h / 2 + 100 - 5) == m.h / 2 - 95 + 190;
    hide W16;
  }

  /** By night the white background itself trips the probe: the first tick
      declares blue crashed, unless pixels are a single byte. */
  lemma FirstTickCleanIff(m: Mode, g: Game, hour: byte)
    requires Sized(m, g) && g.fb == Filled(m.Size(), 0) && m.h >= 210 && m.v >= 10
    ensures var r := PassiveMove(m, StartGame(m, g, hour));
            r.Done? && (r.code == 0 <==> hour < 0x19 || m.bpp == 1) && (r.code != 0 ==> r.code == 1)
  {
    FirstBlocks(m);
    StartPictures(m, g, hour);
    hide Mode.Size, Mode.Pixels, Mode.Index, Render, Probe, RectPixels, Inside, Painted, Filled, W16, OnLattice, Origin, Decide;
    var bg := if hour >= NIGHT then 255 else 0;
    var o := Origin(m);
    var b := Decide(StartBlue(m), Right, true).to;
    var t := Decide(StartOrange(m), Left, true).to;
    RectInside(m, b.x, b.y, BLOCK, BLOCK);
    RectInside(m, t.x, t.y, BLOCK, BLOCK);
    ProbeLaw(m, o, bg, map[], At(b));
    PaintIsUpdate(m, o, bg, map[], At(b), Blue);
    ProbeLaw(m, o, bg, map[At(b) := Blue], At(t));
  }
}
