/** The game the framebuffer plays when nothing keeps the riders on the board.
    Blocks are sets of linear pixel indices, so a block past an edge is on other
    rows; the probe asks whether one index has been painted. */
module Linear {
  import opened Words
  import opened Raster
  import opened LightCycles
  import opened Arena

  /** The pixel indices of all the blocks drawn. */
  ghost function Marks(m: Mode, entered: seq<Block>): set<int> {
    if entered == [] then {}
    else
      var last := entered[|entered| - 1].pos;
      Marks(m, entered[..|entered| - 1]) + RectPixels(m, last.x, last.y, BLOCK, BLOCK)
  }

  lemma MarksSnoc(m: Mode, entered: seq<Block>, b: Block)
    ensures Marks(m, entered + [b]) == Marks(m, entered) + RectPixels(m, b.pos.x, b.pos.y, BLOCK, BLOCK)
  {
    assert (entered + [b])[..|entered|] == entered;
    hide RectPixels;
  }

  ghost predicate PixelMarked(m: Mode, fb: seq<byte>, p: nat, marked: bool)
    requires m.Valid()
  {
    && p * m.bpp + m.bpp <= |fb|
    && var q := PixelValue(m.bpp, fb, p);
       if marked then q != 0 && q != 255 else q == 0
  }

  /** The painted pixels are the ones the probe sees; all others are black. */
  ghost predicate Marked(m: Mode, fb: seq<byte>, ps: set<int>)
    requires m.Valid()
  {
    forall p: nat :: p < m.Pixels() ==> PixelMarked(m, fb, p, p in ps)
  }

  lemma BlackMarked(m: Mode)
    requires m.Valid()
    ensures Marked(m, Filled(m.Size(), 0), {})
  {
    hide Mode.Size, Mode.Pixels;
    forall p: nat | p < m.Pixels()
      ensures PixelMarked(m, Filled(m.Size(), 0), p, false)
    {
      PixelInside(m, p);
    }
  }

  /** A pixel after painting: the colour's own bytes, or what was there. */
  lemma PixelRepainted(m: Mode, fb: seq<byte>, p: nat, marked: bool, rect: set<int>, player: Player)
    requires m.Valid() && m.bpp >= 2 && PixelMarked(m, fb, p, marked)
    ensures PixelMarked(m, Painted(m.bpp, fb, rect, Color(player)), p, marked || p in rect)
  {
    hide Quo, Rem, Value, ColorByte, Color;
    var after := Painted(m.bpp, fb, rect, Color(player));
    var s := after[p * m.bpp..p * m.bpp + m.bpp];
    forall j | 0 <= j < m.bpp
      ensures s[j] == if p in rect then ColorByte(Color(player), j) else fb[p * m.bpp + j]
    {
      MulMono(0, p, m.bpp);
      DivWindow(p * m.bpp + j, m.bpp, p);
    }
    if p in rect {
      ColorValue(s, player);
    } else {
      assert s == fb[p * m.bpp..p * m.bpp + m.bpp];
    }
  }

  lemma PaintMarked(m: Mode, fb: seq<byte>, ps: set<int>, rect: set<int>, player: Player)
    requires m.Valid() && m.bpp >= 2 && Marked(m, fb, ps)
    ensures Marked(m, Painted(m.bpp, fb, rect, Color(player)), ps + rect)
  {
    hide Mode.Pixels, PixelMarked, Painted;
    forall p: nat | p < m.Pixels()
      ensures PixelMarked(m, Painted(m.bpp, fb, rect, Color(player)), p, p in ps + rect)
    {
      PixelRepainted(m, fb, p, p in ps, rect, player);
    }
  }

  /** The block entered starts on a pixel already painted. */
  ghost predicate Bumps(m: Mode, entered: seq<Block>, to: Rider) {
    m.Index(to.x, to.y) in Marks(m, entered)
  }

  /** One move, wherever it goes as long as it stays in memory. */
  lemma MoveMarked(m: Mode, g: Game, entered: seq<Block>, mv: MovementInfo, passive: bool)
    requires Sized(m, g) && m.bpp >= 2 && Marked(m, g.fb, Marks(m, entered))
    requires MovePlayer(m, g, mv, passive).Done?
    ensures var o := MovePlayer(m, g, mv, passive); var r := g.RiderOf(mv.player); var d := Decide(r, mv.dir, passive);
            && Marked(m, o.game.fb, Marks(m, entered + Drawn(r, mv, passive)))
            && o.game.RiderOf(mv.player) == (if d.Enter? then d.to else r)
            && o.code == if d.Ignore? then 0 else if d.Reject? || Bumps(m, entered, d.to) then 1 else 0
  {
    hide Mode.Size, Mode.Pixels, Mode.Index, RectPixels, Inside, Painted, PixelMarked;
    var r := g.RiderOf(mv.player);
    var d := Decide(r, mv.dir, passive);
    hide Decide;
    if d.Enter? {
      MarksSnoc(m, entered, Block(At(d.to), mv.player));
      PaintMarked(m, g.fb, Marks(m, entered), RectPixels(m, d.to.x, d.to.y, BLOCK, BLOCK), mv.player);
      ProbeMarked(m, g.fb, Marks(m, entered), d.to.x, d.to.y);
    } else {
      assert entered + [] == entered;
    }
  }

  lemma ProbeMarked(m: Mode, fb: seq<byte>, ps: set<int>, x: u16, y: u16)
    requires m.Valid() && |fb| == m.Size() && Marked(m, fb, ps)
    ensures m.Index(x, y) < m.Pixels() ==> (Probe(m, fb, x, y) <==> m.Index(x, y) in ps)
  {
    hide Mode.Size, Mode.Pixels, Value;
    if m.Index(x, y) < m.Pixels() {
      var p: nat := m.Index(x, y);
      assert PixelMarked(m, fb, p, p in ps);
    }
  }

  lemma PushedEnters(r: Rider)
    requires r.heading != Unchanged
    ensures Decide(r, r.heading, true) == Enter(Pushed(r)) && Pushed(r).heading == r.heading
  {
  }

  /** One tick in linear terms: who bumps, and what is drawn. */
  lemma TickMarked(m: Mode, g: Game, entered: seq<Block>)
    requires Sized(m, g) && m.bpp >= 2 && Marked(m, g.fb, Marks(m, entered)) && PassiveMove(m, g).Done?
    ensures var o := PassiveMove(m, g); Marked(m, o.game.fb, Marks(m, entered + TickDrawn(g, o.code)))
    ensures var o := PassiveMove(m, g);
            var b := entered + [Block(At(Pushed(g.blue)), Blue)];
            Headed(g) ==>
              && o.code == (if Bumps(m, entered, Pushed(g.blue)) then 1 else if Bumps(m, b, Pushed(g.orange)) then 2 else 0)
              && o.game.blue == Pushed(g.blue)
              && o.game.orange == (if o.code == 1 then g.orange else Pushed(g.orange))
              && entered + TickDrawn(g, o.code) ==
                   if o.code == 1 then b else b + [Block(At(Pushed(g.orange)), Orange)]
  {
    hide MovePlayer, Mode.Size, Mode.Valid, Marked, Bumps, Decide, Pushed;
    var blue := MovementInfo(g.blue.heading, Blue);
    var orange := MovementInfo(g.orange.heading, Orange);
    if Headed(g) {
      PushedEnters(g.blue);
      PushedEnters(g.orange);
    }
    MoveMarked(m, g, entered, blue, true);
    OneMoves(m, g, blue, true);
    var b := MovePlayer(m, g, blue, true);
    assert b.game.orange == b.game.RiderOf(Orange) == g.orange;
    if b.code == 0 {
      MoveMarked(m, b.game, entered + Drawn(g.blue, blue, true), orange, true);
      OneMoves(m, b.game, orange, true);
      var o := MovePlayer(m, b.game, orange, true);
      assert o.game.blue == o.game.RiderOf(Blue) == b.game.RiderOf(Blue);
      assert entered + Drawn(g.blue, blue, true) + Drawn(g.orange, orange, true)
          == entered + (Drawn(g.blue, blue, true) + Drawn(g.orange, orange, true));
    }
  }

  lemma {:induction false} PlayMarked(m: Mode, g: Game, entered: seq<Block>, cs: seq<Command>)
    requires Sized(m, g) && m.bpp >= 2 && Marked(m, g.fb, Marks(m, entered)) && Play(m, g, cs).Played?
    ensures Marked(m, Play(m, g, cs).game.fb, Marks(m, entered + Trail(m, g, cs)))
    decreases |cs|
  {
    hide Mode.Size, Mode.Valid, Marked, MovePlayer, PassiveMove, TickDrawn, Drawn;
    if cs == [] {
      assert entered + [] == entered;
    } else {
      var o := Apply(m, g, cs[0]);
      var drawn := CommandDrawn(g, cs[0], o.code);
      match cs[0] {
        case Key(mv) => MoveMarked(m, g, entered, mv, false);
        case Tick => TickMarked(m, g, entered);
      }
      PlayMarked(m, o.game, entered + drawn, cs[1..]);
      assert entered + drawn + Trail(m, o.game, cs[1..]) == entered + (drawn + Trail(m, o.game, cs[1..]));
    }
  }

  /** The frame of any day game, on the board or off it. */
  lemma DayGameMarked(m: Mode, g: Game, hour: byte, cs: seq<Command>)
    requires Sized(m, g) && g.fb == Filled(m.Size(), 0) && m.bpp >= 2 && hour < NIGHT
    requires Play(m, StartGame(m, g, hour), cs).Played?
    ensures Marked(m, Play(m, StartGame(m, g, hour), cs).game.fb, Marks(m, Trail(m, StartGame(m, g, hour), cs)))
  {
    var s := StartGame(m, g, hour);
    assert s.fb == Filled(m.Size(), 0);
    BlackMarked(m);
    assert [] + Trail(m, s, cs) == Trail(m, s, cs);
    hide StartGame, Filled, Mode.Size, Mode.Pixels, Marked, Play, Trail;
    PlayMarked(m, s, [], cs);
  }

  /** There is no edge test.  After any day game, on the board or off it, and as
      long as it draws inside video memory, the next move is flagged if and only
      if the linear index of its top-left pixel has been painted by an earlier
      block of the game.  Past the right edge that is a pixel of the next row. */
  lemma EdgeLaw(m: Mode, g: Game, hour: byte, cs: seq<Command>, mv: MovementInfo, passive: bool)
    requires Sized(m, g) && g.fb == Filled(m.Size(), 0) && m.bpp >= 2 && hour < NIGHT
    requires Play(m, StartGame(m, g, hour), cs).Played?
    requires var r := Play(m, StartGame(m, g, hour), cs).game; var d := Decide(r.RiderOf(mv.player), mv.dir, passive);
             d.Enter? && BlockInMemory(m, d.to)
    ensures var s := StartGame(m, g, hour); var r := Play(m, s, cs).game;
            var next := MovePlayer(m, r, mv, passive); var to := Decide(r.RiderOf(mv.player), mv.dir, passive).to;
            && next.Done?
            && (next.code != 0 <==> m.Index(to.x, to.y) in Marks(m, Trail(m, s, cs)))
            && m.Index(to.x, to.y) == m.Index(to.x - m.h, to.y + 1)
  {
    hide StartGame, Filled, Mode.Size, Mode.Pixels, Mode.Index, RectPixels, Inside, Probe, Painted, Decide, Marked, Play, Trail;
    var s := StartGame(m, g, hour);
    DayGameMarked(m, g, hour, cs);
    MoveMarked(m, Play(m, s, cs).game, Trail(m, s, cs), mv, passive);
    var to := Decide(Play(m, s, cs).game.RiderOf(mv.player), mv.dir, passive).to;
    NextRow(m, to.x, to.y);
  }

  lemma NextRow(m: Mode, x: int, y: int)
    ensures m.Index(x, y) == m.Index(x - m.h, y + 1)
  {
  }
}
