/** The game the players see: a list of the 5x5 blocks entered so far, and a
    crash whenever the block being entered shares a pixel with one of them.
    The framebuffer game of `LightCycles`, with its single-pixel probe, is
    shown to refine it. */
module Arena {
  import opened Words
  import opened Raster
  import opened LightCycles

  datatype Pos = Pos(x: int, y: int)

  datatype Block = Block(pos: Pos, player: Player)

  datatype Arena = Arena(entered: seq<Block>, blue: Rider, orange: Rider) {
    function RiderOf(p: Player): Rider {
      match p case Blue => blue case Orange => orange
    }

    function With(p: Player, r: Rider): Arena {
      match p case Blue => this.(blue := r) case Orange => this.(orange := r)
    }
  }

  function At(r: Rider): Pos { Pos(r.x, r.y) }

  predicate Within(a: Pos, x: int, y: int) { a.x <= x < a.x + BLOCK && a.y <= y < a.y + BLOCK }

  ghost predicate SharesPixel(a: Pos, b: Pos) {
    exists x, y :: Within(a, x, y) && Within(b, x, y)
  }

  /** Whether the block at `b` shares any pixel with an earlier block. */
  ghost predicate Hits(entered: seq<Block>, b: Pos) {
    exists i :: 0 <= i < |entered| && SharesPixel(entered[i].pos, b)
  }

  ghost function Move(a: Arena, mv: MovementInfo, passive: bool): (Arena, nat) {
    match Decide(a.RiderOf(mv.player), mv.dir, passive)
    case Ignore => (a, 0)
    case Reject => (a, 1)
    case Enter(r) =>
      (a.With(mv.player, r).(entered := a.entered + [Block(At(r), mv.player)]),
       if Hits(a.entered, At(r)) then 1 else 0)
  }

  ghost function TickBoth(a: Arena): (Arena, nat) {
    var (b, c) := Move(a, MovementInfo(a.blue.heading, Blue), true);
    if c != 0 then (b, 1)
    else
      var (o, d) := Move(b, MovementInfo(a.orange.heading, Orange), true);
      (o, if d != 0 then 2 else 0)
  }

  ghost function Obey(a: Arena, c: Command): (Arena, nat) {
    match c
    case Tick => TickBoth(a)
    case Key(mv) => Move(a, mv, false)
  }

  ghost function Follow(a: Arena, cs: seq<Command>): (r: (Arena, seq<nat>))
    ensures |r.1| == |cs|
    decreases |cs|
  {
    if cs == [] then (a, [])
    else
      var (b, code) := Obey(a, cs[0]);
      var (z, codes) := Follow(b, cs[1..]);
      (z, [code] + codes)
  }

  /** The block a command enters, if it enters one. */
  function Drawn(r: Rider, mv: MovementInfo, passive: bool): seq<Block> {
    match Decide(r, mv.dir, passive)
    case Enter(to) => [Block(At(to), mv.player)]
    case _ => []
  }

  /** The blocks a tick enters, given its result code. */
  function TickDrawn(g: Game, code: nat): seq<Block> {
    var b := Drawn(g.blue, MovementInfo(g.blue.heading, Blue), true);
    if code == 1 then b else b + Drawn(g.orange, MovementInfo(g.orange.heading, Orange), true)
  }

  /** The blocks a command draws, given its result code. */
  function CommandDrawn(g: Game, c: Command, code: nat): seq<Block> {
    match c
    case Tick => TickDrawn(g, code)
    case Key(mv) => Drawn(g.RiderOf(mv.player), mv, false)
  }

  /** The blocks drawn along a run of the framebuffer game, as long as it does
      not fault. */
  ghost function Trail(m: Mode, g: Game, cs: seq<Command>): seq<Block>
    requires Sized(m, g)
    decreases |cs|
  {
    if cs == [] then []
    else
      var o := Apply(m, g, cs[0]);
      if o.Fault? then [] else CommandDrawn(g, cs[0], o.code) + Trail(m, o.game, cs[1..])
  }

  lemma MoveLists(a: Arena, mv: MovementInfo, passive: bool)
    ensures Move(a, mv, passive).0.entered == a.entered + Drawn(a.RiderOf(mv.player), mv, passive)
    ensures forall p :: p != mv.player ==> Move(a, mv, passive).0.RiderOf(p) == a.RiderOf(p)
  {
    hide Hits;
  }

  function Start(m: Mode): Arena { Arena([], StartBlue(m), StartOrange(m)) }

  // ------------------------------------------------------------ the lattice

  /** `a` lies a whole number of steps from the origin on both axes. */
  predicate OnLattice(o: Pos, a: Pos) { (a.x - o.x) % STEP == 0 && (a.y - o.y) % STEP == 0 }

  predicate OnBoard(m: Mode, a: Pos) { 0 <= a.x && a.x + BLOCK <= m.h && 0 <= a.y && a.y + BLOCK <= m.v }

  /** The lattice block that contains pixel `(x, y)`. */
  function CellOf(o: Pos, x: int, y: int): Pos { Pos(x - (x - o.x) % STEP, y - (y - o.y) % STEP) }

  lemma CellUnique(o: Pos, a: Pos, x: int, y: int)
    requires OnLattice(o, a)
    ensures Within(a, x, y) <==> CellOf(o, x, y) == a
  {
  }

  lemma ShareIffSame(o: Pos, a: Pos, b: Pos)
    requires OnLattice(o, a) && OnLattice(o, b)
    ensures SharesPixel(a, b) <==> a == b
  {
    if a == b {
      assert Within(a, a.x, a.y) && Within(b, a.x, a.y);
    }
    if SharesPixel(a, b) {
      var x, y :| Within(a, x, y) && Within(b, x, y);
      CellUnique(o, a, x, y);
      CellUnique(o, b, x, y);
    }
  }

  // ---------------------------------------------------------- the rendering

  /** Who painted each block last. */
  function TrailOf(entered: seq<Block>): map<Pos, Player> {
    if entered == [] then map[]
    else
      var last := entered[|entered| - 1];
      TrailOf(entered[..|entered| - 1])[last.pos := last.player]
  }

  lemma TrailSnoc(entered: seq<Block>, b: Block)
    ensures TrailOf(entered + [b]) == TrailOf(entered)[b.pos := b.player]
  {
    assert (entered + [b])[..|entered|] == entered;
  }

  lemma {:induction false} TrailKeys(entered: seq<Block>, p: Pos)
    ensures p in TrailOf(entered) <==> exists i :: 0 <= i < |entered| && entered[i].pos == p
  {
    if entered != [] {
      var n := |entered| - 1;
      TrailKeys(entered[..n], p);
      assert entered == entered[..n] + [entered[n]];
    }
  }

  ghost predicate AllLattice(o: Pos, entered: seq<Block>) {
    forall i :: 0 <= i < |entered| ==> OnLattice(o, entered[i].pos)
  }

  ghost predicate AllOnBoard(m: Mode, entered: seq<Block>) {
    forall i :: 0 <= i < |entered| ==> OnBoard(m, entered[i].pos)
  }

  lemma HitsIffVisited(o: Pos, entered: seq<Block>, b: Pos)
    requires AllLattice(o, entered) && OnLattice(o, b)
    ensures Hits(entered, b) <==> b in TrailOf(entered)
  {
    TrailKeys(entered, b);
    forall i | 0 <= i < |entered|
      ensures SharesPixel(entered[i].pos, b) <==> entered[i].pos == b
    {
      ShareIffSame(o, entered[i].pos, b);
    }
  }

  /** Byte `k` of the picture: the last painter's colour on the trail, the
      background byte elsewhere. */
  function RenderByte(m: Mode, o: Pos, bg: byte, trail: map<Pos, Player>, k: nat): byte
    requires m.Valid()
  {
    var p := Quo(k, m.bpp);
    var c := CellOf(o, Rem(p, m.h), Quo(p, m.h));
    if c in trail then ColorByte(Color(trail[c]), Rem(k, m.bpp)) else bg
  }

  function Render(m: Mode, o: Pos, bg: byte, trail: map<Pos, Player>): (r: seq<byte>)
    requires m.Valid()
    ensures |r| == m.Size()
  {
    seq(m.Size(), k requires 0 <= k < m.Size() => RenderByte(m, o, bg, trail, k))
  }

  /** Drawing one block on the board repaints exactly one cell. */
  lemma PaintIsUpdate(m: Mode, o: Pos, bg: byte, trail: map<Pos, Player>, a: Pos, p: Player)
    requires m.Valid() && OnLattice(o, a) && OnBoard(m, a)
    ensures Painted(m.bpp, Render(m, o, bg, trail), RectPixels(m, a.x, a.y, BLOCK, BLOCK), Color(p))
         == Render(m, o, bg, trail[a := p])
  {
    hide Mode.Size, Mode.Index, ColorByte, CellOf, OnLattice, RectPixels, Quo, Rem;
    var before := Render(m, o, bg, trail);
    var after := Painted(m.bpp, before, RectPixels(m, a.x, a.y, BLOCK, BLOCK), Color(p));
    forall k | 0 <= k < m.Size()
      ensures after[k] == RenderByte(m, o, bg, trail[a := p], k)
    {
      var q := Quo(k, m.bpp);
      RectExtent(m, a.x, a.y, BLOCK, BLOCK, q);
      CellUnique(o, a, Rem(q, m.h), Quo(q, m.h));
      assert before[k] == RenderByte(m, o, bg, trail, k);
    }
    assert after == Render(m, o, bg, trail[a := p]);
  }

  // -------------------------------------------------------------- the probe

  predicate Shown(bpp: nat, p: Player) { bpp >= 2 || p == Orange }

  predicate BackgroundShown(bpp: nat, bg: byte) { bg != 0 && (bpp >= 2 || bg != 255) }

  lemma RenderPixel(m: Mode, o: Pos, bg: byte, trail: map<Pos, Player>, x: int, y: int, j: int)
    requires m.Valid() && 0 <= x < m.h && 0 <= y < m.v && 0 <= j < m.bpp
    ensures 0 <= m.Index(x, y) < m.Pixels()
    ensures m.Index(x, y) * m.bpp + m.bpp <= m.Size()
    ensures Render(m, o, bg, trail)[m.Index(x, y) * m.bpp + j] ==
            var c := CellOf(o, x, y);
            if c in trail then ColorByte(Color(trail[c]), j) else bg
  {
    hide Mode.Size, Mode.Pixels, Mode.Index, ColorByte, CellOf, Quo, Rem;
    var p := m.Index(x, y);
    IndexCoordinates(m, x, y);
    RowInside(m, p);
    PixelInside(m, p);
    DivWindow(p * m.bpp + j, m.bpp, p);
    assert Render(m, o, bg, trail)[p * m.bpp + j] == RenderByte(m, o, bg, trail, p * m.bpp + j);
  }

  lemma ColorValue(s: seq<byte>, player: Player)
    requires 1 <= |s| <= 4
    requires forall j :: 0 <= j < |s| ==> s[j] == ColorByte(Color(player), j)
    ensures Value(s) != 0 && (Value(s) != 255 <==> Shown(|s|, player))
  {
    assert s[0] == (if player == Blue then 0xFF else 0x1F);
    assert |s| > 1 ==> s[1] == (if player == Blue then 0x51 else 0x5F);
    hide ColorByte, Color;
  }

  lemma BackgroundValue(s: seq<byte>, bg: byte)
    requires 1 <= |s| <= 4
    requires forall j :: 0 <= j < |s| ==> s[j] == bg
    ensures Value(s) == 0 <==> bg == 0
    ensures Value(s) != 0 && Value(s) != 255 <==> BackgroundShown(|s|, bg)
  {
  }

  /** The value of one pixel of the picture. */
  lemma RenderValue(m: Mode, o: Pos, bg: byte, trail: map<Pos, Player>, x: int, y: int)
    requires m.Valid() && 0 <= x < m.h && 0 <= y < m.v
    ensures 0 <= m.Index(x, y) < m.Pixels() && m.Index(x, y) * m.bpp + m.bpp <= m.Size()
    ensures var c := CellOf(o, x, y); var q := PixelValue(m.bpp, Render(m, o, bg, trail), m.Index(x, y));
            && (c in trail ==> q != 0 && (q != 255 <==> Shown(m.bpp, trail[c])))
            && (c !in trail ==> (q == 0 <==> bg == 0) && (q != 0 && q != 255 <==> BackgroundShown(m.bpp, bg)))
  {
    hide Mode.Size, Mode.Pixels, Mode.Index, CellOf, Render, Value, ColorByte, Color, Shown, BackgroundShown;
    var p := m.Index(x, y);
    RenderPixel(m, o, bg, trail, x, y, 0);
    var s := Render(m, o, bg, trail)[p * m.bpp..p * m.bpp + m.bpp];
    forall j | 0 <= j < m.bpp
      ensures s[j] ==
              var c := CellOf(o, x, y);
              if c in trail then ColorByte(Color(trail[c]), j) else bg
    {
      RenderPixel(m, o, bg, trail, x, y, j);
    }
    var c := CellOf(o, x, y);
    if c in trail {
      ColorValue(s, trail[c]);
    } else {
      BackgroundValue(s, bg);
    }
  }

  /** What the one-pixel probe answers on any picture, in any colour depth. */
  lemma ProbeLaw(m: Mode, o: Pos, bg: byte, trail: map<Pos, Player>, a: Pos)
    requires m.Valid() && OnLattice(o, a) && OnBoard(m, a)
    ensures 0 <= m.Index(a.x, a.y) < m.Pixels()
    ensures Probe(m, Render(m, o, bg, trail), a.x, a.y) <==>
            if a in trail then Shown(m.bpp, trail[a]) else BackgroundShown(m.bpp, bg)
  {
    hide Mode.Size, Mode.Pixels, Mode.Index, CellOf, Render, PixelValue;
    CellUnique(o, a, a.x, a.y);
    RenderValue(m, o, bg, trail, a.x, a.y);
  }

  ghost predicate ProbeFaithful(m: Mode, bg: byte)
    requires m.Valid()
  {
    forall o: Pos, trail: map<Pos, Player>, a: Pos ::
      OnLattice(o, a) && OnBoard(m, a) && m.Index(a.x, a.y) < m.Pixels() ==>
        (Probe(m, Render(m, o, bg, trail), a.x, a.y) <==> a in trail)
  }

  /** With the two backgrounds `start_game` can leave, the probe tells visited
      from free blocks exactly on the black one with more than one byte per
      pixel. */
  lemma ProbeFaithfulIff(m: Mode, bg: byte)
    requires m.Valid() && m.h >= BLOCK && m.v >= BLOCK && (bg == 0 || bg == 255)
    ensures ProbeFaithful(m, bg) <==> bg == 0 && m.bpp >= 2
  {
    hide Mode.Index, Mode.Pixels, Probe, Render;
    var a := Pos(0, 0);
    if bg == 0 && m.bpp >= 2 {
      forall o: Pos, trail: map<Pos, Player>, b: Pos | OnLattice(o, b) && OnBoard(m, b) && m.Index(b.x, b.y) < m.Pixels()
        ensures Probe(m, Render(m, o, bg, trail), b.x, b.y) <==> b in trail
      {
        ProbeLaw(m, o, bg, trail, b);
      }
    } else {
      var trail := if m.bpp == 1 then map[a := Blue] else map[];
      ProbeLaw(m, a, bg, trail, a);
      assert OnLattice(a, a) && OnBoard(m, a);
      assert Probe(m, Render(m, a, bg, trail), a.x, a.y) <==> a !in trail;
    }
  }
}
