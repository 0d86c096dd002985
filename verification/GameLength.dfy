/** What every game played on the framebuffer keeps: no reversal, the lattice, and
    the conservation of pixels that bounds the length of a crash-free game. */
module GameLength {
  import opened Words
  import opened Raster
  import opened LightCycles
  import opened Arena
  import opened Refinement

  // ------------------------------------------------- paths and no reversal

  /** The positions of player `p`: where it started, then every block it
      entered. */
  function PathOf(entered: seq<Block>, p: Player, s: Pos): (path: seq<Pos>)
    ensures |path| >= 1
  {
    if entered == [] then [s]
    else
      var n := |entered| - 1;
      var rest := PathOf(entered[..n], p, s);
      if entered[n].player == p then rest + [entered[n].pos] else rest
  }

  lemma PathSnoc(entered: seq<Block>, b: Block, p: Player, s: Pos)
    ensures PathOf(entered + [b], p, s) ==
            if b.player == p then PathOf(entered, p, s) + [b.pos] else PathOf(entered, p, s)
  {
    assert (entered + [b])[..|entered|] == entered;
  }

  /** One step, modulo 2^16 on each axis. */
  function Shift(a: Pos, d: Direction): Pos {
    match d
    case Up => Pos(a.x, W16(a.y - STEP))
    case Down => Pos(a.x, W16(a.y + STEP))
    case Left => Pos(W16(a.x - STEP), a.y)
    case Right => Pos(W16(a.x + STEP), a.y)
    case Unchanged => a
  }

  ghost predicate IsStep(a: Pos, b: Pos) {
    exists d :: d != Unchanged && b == Shift(a, d)
  }

  ghost predicate Steps(path: seq<Pos>) {
    forall i :: 0 <= i < |path| - 1 ==> IsStep(path[i], path[i + 1])
  }

  ghost predicate NoReversal(path: seq<Pos>) {
    forall i :: 0 <= i < |path| - 2 ==> path[i] != path[i + 2]
  }

  ghost predicate OnPath(path: seq<Pos>, r: Rider)
    requires |path| >= 1
  {
    && r.heading != Unchanged
    && path[|path| - 1] == At(r)
    && (|path| >= 2 ==> At(r) == Shift(path[|path| - 2], r.heading))
    && Steps(path) && NoReversal(path)
    && forall i :: 0 <= i < |path| ==> 0 <= path[i].x < 0x1_0000 && 0 <= path[i].y < 0x1_0000
  }

  /** A step that is not back the way the last one came leads elsewhere. */
  lemma ForwardStep(a: Pos, h: Direction, d: Direction)
    requires h != Unchanged && d != Unchanged && d != Opposite(h)
    requires 0 <= a.x < 0x1_0000 && 0 <= a.y < 0x1_0000
    ensures Shift(Shift(a, h), d) != a
  {
  }

  lemma ExtendPath(path: seq<Pos>, r: Rider, dir: Direction, passive: bool)
    requires |path| >= 1 && OnPath(path, r) && Decide(r, dir, passive).Enter?
    ensures OnPath(path + [At(Decide(r, dir, passive).to)], Decide(r, dir, passive).to)
  {
    var to := Decide(r, dir, passive).to;
    var longer := path + [At(to)];
    assert At(to) == Shift(At(r), dir) && dir != Unchanged && dir != Opposite(r.heading) && to.heading == dir;
    hide Decide, Shift, Opposite;
    if |path| >= 2 { ForwardStep(path[|path| - 2], r.heading, dir); }
    forall i | 0 <= i < |longer| - 1
      ensures IsStep(longer[i], longer[i + 1])
    {
      if i < |path| - 1 { assert IsStep(path[i], path[i + 1]); }
    }
    forall i | 0 <= i < |longer| - 2
      ensures longer[i] != longer[i + 2]
    {
      if i < |path| - 2 { assert path[i] != path[i + 2]; }
    }
  }

  /** Both players are on their paths. */
  ghost predicate Tracked(a: Arena, sb: Pos, so: Pos) {
    OnPath(PathOf(a.entered, Blue, sb), a.blue) && OnPath(PathOf(a.entered, Orange, so), a.orange)
  }

  lemma MoveTracked(a: Arena, mv: MovementInfo, passive: bool, sb: Pos, so: Pos)
    requires Tracked(a, sb, so)
    ensures Tracked(Move(a, mv, passive).0, sb, so)
  {
    hide OnPath, Decide, Hits;
    var d := Decide(a.RiderOf(mv.player), mv.dir, passive);
    if d.Enter? {
      var b := Block(At(d.to), mv.player);
      PathSnoc(a.entered, b, Blue, sb);
      PathSnoc(a.entered, b, Orange, so);
      var s := if mv.player == Blue then sb else so;
      ExtendPath(PathOf(a.entered, mv.player, s), a.RiderOf(mv.player), mv.dir, passive);
    }
  }

  lemma ScreenMoveTracked(m: Mode, g: Game, entered: seq<Block>, mv: MovementInfo, passive: bool, sb: Pos, so: Pos)
    requires Sized(m, g) && Tracked(Arena(entered, g.blue, g.orange), sb, so)
    requires MovePlayer(m, g, mv, passive).Done?
    ensures var r := MovePlayer(m, g, mv, passive).game;
            Tracked(Arena(entered + Drawn(g.RiderOf(mv.player), mv, passive), r.blue, r.orange), sb, so)
  {
    var a := Arena(entered, g.blue, g.orange);
    MoveLists(a, mv, passive);
    MoveTracked(a, mv, passive, sb, so);
    hide Mode.Size, Probe, Painted, RectPixels, Inside, Mode.Pixels, Mode.Index, Hits, Tracked;
  }

  lemma CommandTracked(m: Mode, g: Game, entered: seq<Block>, c: Command, sb: Pos, so: Pos)
    requires Sized(m, g) && Tracked(Arena(entered, g.blue, g.orange), sb, so) && Apply(m, g, c).Done?
    ensures var o := Apply(m, g, c);
            Tracked(Arena(entered + CommandDrawn(g, c, o.code), o.game.blue, o.game.orange), sb, so)
  {
    match c
    case Key(mv) =>
      ScreenMoveTracked(m, g, entered, mv, false, sb, so);
    case Tick =>
      TickTracked(m, g, entered, sb, so);
  }

  lemma TickTracked(m: Mode, g: Game, entered: seq<Block>, sb: Pos, so: Pos)
    requires Sized(m, g) && Tracked(Arena(entered, g.blue, g.orange), sb, so) && PassiveMove(m, g).Done?
    ensures var o := PassiveMove(m, g);
            Tracked(Arena(entered + TickDrawn(g, o.code), o.game.blue, o.game.orange), sb, so)
  {
    var blue := MovementInfo(g.blue.heading, Blue);
    hide MovePlayer, Mode.Size, Tracked, Drawn;
    ScreenMoveTracked(m, g, entered, blue, true, sb, so);
    var b := MovePlayer(m, g, blue, true);
    if b.code == 0 {
      OneMoves(m, g, blue, true);
      assert b.game.orange == b.game.RiderOf(Orange) == g.orange;
      var orange := MovementInfo(g.orange.heading, Orange);
      ScreenMoveTracked(m, b.game, entered + Drawn(g.blue, blue, true), orange, true, sb, so);
      assert entered + Drawn(g.blue, blue, true) + Drawn(g.orange, orange, true)
          == entered + (Drawn(g.blue, blue, true) + Drawn(g.orange, orange, true));
    }
  }

  lemma {:induction false} PlayTracked(m: Mode, g: Game, entered: seq<Block>, cs: seq<Command>, sb: Pos, so: Pos)
    requires Sized(m, g) && Tracked(Arena(entered, g.blue, g.orange), sb, so) && Play(m, g, cs).Played?
    ensures var r := Play(m, g, cs).game; Tracked(Arena(entered + Trail(m, g, cs), r.blue, r.orange), sb, so)
    decreases |cs|
  {
    hide Tracked, Apply, Mode.Size, CommandDrawn;
    if cs == [] {
      assert entered + [] == entered;
    } else {
      var o := Apply(m, g, cs[0]);
      var drawn := CommandDrawn(g, cs[0], o.code);
      CommandTracked(m, g, entered, cs[0], sb, so);
      PlayTracked(m, o.game, entered + drawn, cs[1..], sb, so);
      assert entered + drawn + Trail(m, o.game, cs[1..]) == entered + (drawn + Trail(m, o.game, cs[1..]));
    }
  }

  function StartOf(m: Mode, p: Player): Pos {
    match p case Blue => At(StartBlue(m)) case Orange => At(StartOrange(m))
  }

  /** Where player `p` has been in a game played on the framebuffer. */
  ghost function GamePath(m: Mode, g: Game, hour: byte, cs: seq<Command>, p: Player): (path: seq<Pos>)
    requires Sized(m, g)
    ensures |path| >= 1
  {
    PathOf(Trail(m, StartGame(m, g, hour), cs), p, StartOf(m, p))
  }

  /** Every game the program can play, from any frame, by day or by night, at
      every resolution and colour depth, on the board or off it: the heading is
      always a real direction, the head is where the path ends, every move is one
      step, and nobody is ever back where it was two moves before. */
  lemma NeverReverses(m: Mode, g: Game, hour: byte, cs: seq<Command>, p: Player)
    requires Sized(m, g) && Play(m, StartGame(m, g, hour), cs).Played?
    ensures var r := Play(m, StartGame(m, g, hour), cs).game.RiderOf(p); var path := GamePath(m, g, hour, cs, p);
            && r.heading != Unchanged
            && path[|path| - 1] == At(r)
            && NoReversal(path) && Steps(path)
  {
    hide Play, StartGame, StartOf, Steps, NoReversal, PathOf, Trail, Mode.Size, Shift, Mode.Valid;
    GameTracked(m, g, hour, cs);
  }

  lemma GameTracked(m: Mode, g: Game, hour: byte, cs: seq<Command>)
    requires Sized(m, g) && Play(m, StartGame(m, g, hour), cs).Played?
    ensures var r := Play(m, StartGame(m, g, hour), cs).game;
            Tracked(Arena(Trail(m, StartGame(m, g, hour), cs), r.blue, r.orange), StartOf(m, Blue), StartOf(m, Orange))
  {
    StartTracked(m);
    var s := StartGame(m, g, hour);
    assert s.blue == StartBlue(m) && s.orange == StartOrange(m);
    assert [] + Trail(m, s, cs) == Trail(m, s, cs);
    hide Play, StartGame, StartOf, Tracked, Trail, Mode.Size, StartBlue, StartOrange;
    PlayTracked(m, s, [], cs, StartOf(m, Blue), StartOf(m, Orange));
  }

  /** No step of the path wrapped around 2^16. */
  ghost predicate Unwrapped(path: seq<Pos>) {
    forall i :: 0 <= i < |path| - 1 ==> Near(path[i], path[i + 1])
  }

  predicate Near(a: Pos, b: Pos) { -STEP <= b.x - a.x <= STEP && -STEP <= b.y - a.y <= STEP }

  lemma NearStep(o: Pos, a: Pos, b: Pos)
    requires OnLattice(o, a) && IsStep(a, b) && Near(a, b)
    requires 0 <= a.x < 0x1_0000 && 0 <= a.y < 0x1_0000
    ensures OnLattice(o, b)
  {
    var d :| d != Unchanged && b == Shift(a, d);
    assert b.x - a.x == -5 || b.x - a.x == 0 || b.x - a.x == 5;
    assert b.y - a.y == -5 || b.y - a.y == 0 || b.y - a.y == 5;
    hide Shift, W16;
  }

  lemma {:induction false} PathOnLattice(o: Pos, path: seq<Pos>, i: nat)
    requires i < |path| && Steps(path) && Unwrapped(path) && OnLattice(o, path[0])
    requires forall j :: 0 <= j < |path| ==> 0 <= path[j].x < 0x1_0000 && 0 <= path[j].y < 0x1_0000
    ensures OnLattice(o, path[i])
  {
    if i > 0 {
      PathOnLattice(o, path, i - 1);
      hide OnLattice, IsStep, Near;
      assert IsStep(path[i - 1], path[i - 1 + 1]) && Near(path[i - 1], path[i - 1 + 1]);
      NearStep(o, path[i - 1], path[i]);
    }
  }

  /** Every block of a game without 16-bit wrap lies on one lattice common to
      both players.  Below 200 columns blue's starting column has itself wrapped,
      and the two starts share no lattice: see `StartsOnLattice`. */
  lemma CommonLattice(m: Mode, g: Game, hour: byte, cs: seq<Command>, p: Player, i: nat)
    requires Sized(m, g) && m.h >= 200 && Play(m, StartGame(m, g, hour), cs).Played?
    requires Unwrapped(GamePath(m, g, hour, cs, p)) && i < |GamePath(m, g, hour, cs, p)|
    ensures OnLattice(Origin(m), GamePath(m, g, hour, cs, p)[i])
  {
    StartsOnLattice(m);
    GameTracked(m, g, hour, cs);
    assert OnLattice(Origin(m), StartOf(m, p));
    hide Play, StartGame, StartOf, Trail, Mode.Size, OnLattice, Steps, NoReversal, PathOf, Origin;
    PathStart(Trail(m, StartGame(m, g, hour), cs), p, StartOf(m, p));
    PathOnLattice(Origin(m), GamePath(m, g, hour, cs, p), i);
  }

  lemma StartTracked(m: Mode)
    ensures Tracked(Start(m), StartOf(m, Blue), StartOf(m, Orange))
  {
  }

  /** The two starting places are on one lattice exactly when the left one did
      not wrap below column zero. */
  lemma StartsOnLattice(m: Mode)
    requires m.Valid()
    ensures OnLattice(Origin(m), StartOf(m, Blue))
    ensures OnLattice(Origin(m), StartOf(m, Orange)) <==> m.h >= 200
  {
    assert W16(m.h / 2 + 100) == m.h / 2 + 100;
    assert W16(m.h / 2 - 100) == if m.h >= 200 then m.h / 2 - 100 else m.h / 2 - 100 + 0x1_0000;
    hide W16;
  }

  lemma {:induction false} PathStart(entered: seq<Block>, p: Player, s: Pos)
    ensures PathOf(entered, p, s)[0] == s
  {
    if entered != [] { PathStart(entered[..|entered| - 1], p, s); }
  }

  // ---------------------------------------------------------- conservation

  function Column(x: int, y: int, d: nat, n: nat): set<Pos> {
    if n == 0 then {} else Column(x, y, d, n - 1) + {Pos(x, y + d * (n - 1))}
  }

  /** The `w` by `n` grid of points `d` apart. */
  function Grid(x: int, y: int, d: nat, w: nat, n: nat): set<Pos> {
    if w == 0 then {} else Grid(x, y, d, w - 1, n) + Column(x + d * (w - 1), y, d, n)
  }

  predicate InSpan(a: int, s: int, d: nat, n: nat)
    requires d > 0
  {
    s <= a < s + d * n && (a - s) % d == 0
  }

  lemma {:induction false} ColumnMember(x: int, y: int, d: nat, n: nat, a: Pos)
    requires d == 1 || d == 5
    ensures a in Column(x, y, d, n) <==> a.x == x && InSpan(a.y, y, d, n)
  {
    if n > 0 { ColumnMember(x, y, d, n - 1, a); }
  }

  lemma {:induction false} GridMember(x: int, y: int, d: nat, w: nat, n: nat, a: Pos)
    requires d == 1 || d == 5
    ensures a in Grid(x, y, d, w, n) <==> InSpan(a.x, x, d, w) && InSpan(a.y, y, d, n)
  {
    if w > 0 {
      GridMember(x, y, d, w - 1, n, a);
      ColumnMember(x + d * (w - 1), y, d, n, a);
    }
  }

  lemma {:induction false} ColumnSize(x: int, y: int, d: nat, n: nat)
    requires d == 1 || d == 5
    ensures |Column(x, y, d, n)| == n
  {
    if n > 0 {
      ColumnSize(x, y, d, n - 1);
      ColumnMember(x, y, d, n - 1, Pos(x, y + d * (n - 1)));
    }
  }

  lemma GridColumnApart(x: int, y: int, d: nat, w: nat, n: nat)
    requires d == 1 || d == 5
    ensures Grid(x, y, d, w, n) !! Column(x + d * w, y, d, n)
  {
    forall a | a in Column(x + d * w, y, d, n)
      ensures a !in Grid(x, y, d, w, n)
    {
      ColumnMember(x + d * w, y, d, n, a);
      GridMember(x, y, d, w, n, a);
    }
  }

  lemma GridEmpty(x: int, y: int, d: nat, n: nat)
    ensures Grid(x, y, d, 0, n) == {}
  {
  }

  lemma MulStep(w: int, n: int)
    ensures (w - 1) * n + n == w * n
  {
  }

  lemma GridStep(x: int, y: int, d: nat, w: nat, n: nat)
    requires d == 1 || d == 5
    ensures |Grid(x, y, d, w + 1, n)| == |Grid(x, y, d, w, n)| + n
  {
    var last := x + d * w;
    ColumnSize(last, y, d, n);
    GridColumnApart(x, y, d, w, n);
    hide Column;
    assert Grid(x, y, d, w + 1, n) == Grid(x, y, d, w, n) + Column(last, y, d, n);
  }

  lemma {:induction false} GridSize(x: int, y: int, d: nat, w: nat, n: nat)
    requires d == 1 || d == 5
    ensures |Grid(x, y, d, w, n)| == w * n
  {
    hide Grid;
    if w == 0 {
      GridEmpty(x, y, d, n);
    } else {
      GridSize(x, y, d, w - 1, n);
      GridStep(x, y, d, w - 1, n);
      MulStep(w, n);
    }
  }

  function Cover(a: Pos): set<Pos> { Grid(a.x, a.y, 1, BLOCK, BLOCK) }

  lemma CoverMember(a: Pos, q: Pos)
    ensures q in Cover(a) <==> Within(a, q.x, q.y)
  {
    GridMember(a.x, a.y, 1, BLOCK, BLOCK, q);
  }

  /** All the pixels of the blocks entered. */
  function Area(entered: seq<Block>): set<Pos> {
    if entered == [] then {}
    else Area(entered[..|entered| - 1]) + Cover(entered[|entered| - 1].pos)
  }

  lemma {:induction false} AreaMember(entered: seq<Block>, q: Pos)
    ensures q in Area(entered) <==> exists i :: 0 <= i < |entered| && Within(entered[i].pos, q.x, q.y)
  {
    if entered != [] {
      var n := |entered| - 1;
      AreaMember(entered[..n], q);
      CoverMember(entered[n].pos, q);
      assert entered == entered[..n] + [entered[n]];
    }
  }

  ghost predicate Apart(entered: seq<Block>) {
    forall i, j :: 0 <= i < j < |entered| ==> !SharesPixel(entered[i].pos, entered[j].pos)
  }

  /** The last block is apart from the earlier ones exactly when it covers none
      of their pixels. */
  lemma ApartLast(entered: seq<Block>)
    requires entered != []
    ensures var n := |entered| - 1;
            Apart(entered) <==> Apart(entered[..n]) && Area(entered[..n]) !! Cover(entered[n].pos)
  {
    var n := |entered| - 1;
    var before := entered[..n];
    var last := entered[n].pos;
    if Apart(entered) {
      forall q | q in Cover(last)
        ensures q !in Area(before)
      {
        CoverMember(last, q);
        AreaMember(before, q);
        forall i | 0 <= i < n
          ensures !Within(before[i].pos, q.x, q.y)
        {
          assert !SharesPixel(entered[i].pos, entered[n].pos);
        }
      }
    }
    if Apart(before) && Area(before) !! Cover(last) {
      forall i | 0 <= i < n
        ensures !SharesPixel(entered[i].pos, last)
      {
        if SharesPixel(entered[i].pos, last) {
          var x, y :| Within(entered[i].pos, x, y) && Within(last, x, y);
          assert Within(before[i].pos, x, y);
          CoverMember(last, Pos(x, y));
          AreaMember(before, Pos(x, y));
        }
      }
      forall i, j | 0 <= i < j < |entered|
        ensures !SharesPixel(entered[i].pos, entered[j].pos)
      {
        if j < n { assert !SharesPixel(before[i].pos, before[j].pos); }
      }
    }
  }

  lemma UnionSize(a: set<Pos>, b: set<Pos>)
    ensures |a + b| <= |a| + |b|
    ensures |a + b| == |a| + |b| <==> a !! b
  {
    assert |a + b| + |a * b| == |a| + |b|;
    assert |a * b| == 0 <==> a * b == {};
    if a !! b {
      assert a * b == {};
    } else {
      var q :| q in a && q in b;
      assert q in a * b;
    }
  }

  /** Blocks cover 25 pixels each exactly when no two of them share one. */
  lemma {:induction false} AreaSize(entered: seq<Block>)
    ensures |Area(entered)| <= 25 * |entered|
    ensures |Area(entered)| == 25 * |entered| <==> Apart(entered)
  {
    if entered != [] {
      var n := |entered| - 1;
      var last := entered[n].pos;
      AreaSize(entered[..n]);
      GridSize(last.x, last.y, 1, BLOCK, BLOCK);
      ApartLast(entered);
      UnionSize(Area(entered[..n]), Cover(last));
      hide Apart, Grid;
    }
  }

  ghost predicate AllZero(codes: seq<nat>) {
    forall i :: 0 <= i < |codes| ==> codes[i] == 0
  }

  function Ticks(cs: seq<Command>): nat {
    if cs == [] then 0 else (if cs[0] == Tick then 1 else 0) + Ticks(cs[1..])
  }

  lemma CleanMoveApart(a: Arena, mv: MovementInfo, passive: bool)
    requires Apart(a.entered) && Move(a, mv, passive).1 == 0
    ensures Apart(Move(a, mv, passive).0.entered)
    ensures |a.entered| <= |Move(a, mv, passive).0.entered|
    ensures passive && mv.dir != Unchanged && mv.dir == a.RiderOf(mv.player).heading ==>
              |Move(a, mv, passive).0.entered| == |a.entered| + 1
    ensures a.blue.heading != Unchanged && a.orange.heading != Unchanged ==>
              var b := Move(a, mv, passive).0; b.blue.heading != Unchanged && b.orange.heading != Unchanged
    ensures forall p :: p != mv.player ==> Move(a, mv, passive).0.RiderOf(p) == a.RiderOf(p)
  {
    hide SharesPixel;
  }

  /** While nothing is flagged, blocks stay apart and every tick adds two. */
  lemma {:induction false} CleanRun(a: Arena, cs: seq<Command>)
    requires Apart(a.entered) && a.blue.heading != Unchanged && a.orange.heading != Unchanged
    requires AllZero(Follow(a, cs).1)
    ensures Apart(Follow(a, cs).0.entered)
    ensures |Follow(a, cs).0.entered| >= |a.entered| + 2 * Ticks(cs)
    decreases |cs|
  {
    hide Apart, Move;
    if cs != [] {
      var (b, code) := Obey(a, cs[0]);
      var codes := Follow(a, cs).1;
      assert codes[0] == code;
      forall i | 0 <= i < |codes| - 1
        ensures Follow(b, cs[1..]).1[i] == 0
      {
        assert codes[i + 1] == Follow(b, cs[1..]).1[i];
      }
      match cs[0] {
        case Key(mv) =>
          CleanMoveApart(a, mv, false);
        case Tick =>
          var blue := MovementInfo(a.blue.heading, Blue);
          CleanMoveApart(a, blue, true);
          CleanMoveApart(Move(a, blue, true).0, MovementInfo(a.orange.heading, Orange), true);
      }
      CleanRun(b, cs[1..]);
    }
  }

  /** First column (row) of the lattice, and how many columns (rows) fit. */
  function First(o: int): nat { o % STEP }

  function Count(o: int, res: nat): nat { if res < First(o) then 0 else (res - First(o)) / STEP }

  /** The lattice blocks that lie on the board. */
  function Cells(m: Mode, o: Pos): set<Pos> {
    Grid(First(o.x), First(o.y), STEP, Count(o.x, m.h), Count(o.y, m.v))
  }

  lemma CellsMember(m: Mode, o: Pos, a: Pos)
    ensures a in Cells(m, o) <==> OnLattice(o, a) && OnBoard(m, a)
  {
    GridMember(First(o.x), First(o.y), STEP, Count(o.x, m.h), Count(o.y, m.v), a);
    CellSpan(o.x, m.h, a.x);
    CellSpan(o.y, m.v, a.y);
  }

  lemma CellSpan(o: int, res: nat, a: int)
    ensures InSpan(a, First(o), STEP, Count(o, res)) <==> (a - o) % STEP == 0 && 0 <= a && a + BLOCK <= res
  {
  }

  function Visited(entered: seq<Block>): set<Pos> { set i | 0 <= i < |entered| :: entered[i].pos }

  lemma {:induction false} VisitedSize(entered: seq<Block>)
    requires Apart(entered)
    ensures |Visited(entered)| == |entered|
  {
    if entered != [] {
      var n := |entered| - 1;
      VisitedSize(entered[..n]);
      assert Visited(entered) == Visited(entered[..n]) + {entered[n].pos};
      var a := entered[n].pos;
      assert Within(a, a.x, a.y);
      forall i | 0 <= i < n
        ensures entered[..n][i].pos != a
      {
        assert !SharesPixel(entered[i].pos, entered[n].pos);
      }
    }
  }

  /** In the block game: while nothing is flagged, every entered block uses up
      one free lattice cell and 25 pixels. */
  lemma BlocksConserved(m: Mode, cs: seq<Command>)
    requires m.Valid() && m.h >= 200
    requires AllZero(Follow(Start(m), cs).1) && AllOnBoard(m, Follow(Start(m), cs).0.entered)
    ensures var a := Follow(Start(m), cs).0; var o := Origin(m);
            && |Area(a.entered)| == 25 * |a.entered|
            && |Cells(m, o) - Visited(a.entered)| + |a.entered| == Count(o.x, m.h) * Count(o.y, m.v)
            && 2 * Ticks(cs) <= |a.entered| <= Count(o.x, m.h) * Count(o.y, m.v)
  {
    var a := Follow(Start(m), cs).0;
    var o := Origin(m);
    StartSound(m);
    FollowSound(m, o, Start(m), cs);
    assert Sound(m, o, a);
    CleanRun(Start(m), cs);
    AreaSize(a.entered);
    VisitedSize(a.entered);
    GridSize(First(o.x), First(o.y), STEP, Count(o.x, m.h), Count(o.y, m.v));
    forall q | q in Visited(a.entered)
      ensures q in Cells(m, o)
    {
      CellsMember(m, o, q);
    }
    assert Visited(a.entered) <= Cells(m, o);
  }

  lemma {:induction false} FollowSound(m: Mode, o: Pos, a: Arena, cs: seq<Command>)
    requires Sound(m, o, a) && AllOnBoard(m, Follow(a, cs).0.entered)
    ensures Sound(m, o, Follow(a, cs).0)
    decreases |cs|
  {
    hide Sound, Move;
    if cs != [] {
      var b := Obey(a, cs[0]).0;
      FollowExtends(b, cs[1..]);
      ObeyExtends(a, cs[0]);
      match cs[0] {
        case Key(mv) =>
          MoveSound(m, o, a, mv, false);
        case Tick =>
          var blue := MovementInfo(a.blue.heading, Blue);
          MoveSound(m, o, a, blue, true);
          if Move(a, blue, true).1 == 0 {
            MoveSound(m, o, Move(a, blue, true).0, MovementInfo(a.orange.heading, Orange), true);
          }
      }
      FollowSound(m, o, b, cs[1..]);
    }
  }

  lemma MoveSound(m: Mode, o: Pos, a: Arena, mv: MovementInfo, passive: bool)
    requires Sound(m, o, a) && AllOnBoard(m, Move(a, mv, passive).0.entered)
    ensures Sound(m, o, Move(a, mv, passive).0)
  {
    hide Hits, OnLattice;
    var d := Decide(a.RiderOf(mv.player), mv.dir, passive);
    if d.Enter? {
      var longer := a.entered + [Block(At(d.to), mv.player)];
      assert longer[|a.entered|].pos == At(d.to);
      StepKeepsLattice(m, o, a.RiderOf(mv.player), mv.dir, passive);
    }
  }

  /** The pixels of the screen that are not black. */
  ghost function Lit(m: Mode, fb: seq<byte>): set<Pos>
    requires m.Valid() && |fb| == m.Size()
  {
    set x, y | 0 <= x < m.h && 0 <= y < m.v && LitAt(m, fb, x, y) :: Pos(x, y)
  }

  ghost predicate LitAt(m: Mode, fb: seq<byte>, x: int, y: int)
    requires m.Valid() && |fb| == m.Size()
  {
    && 0 <= m.Index(x, y) && m.Index(x, y) * m.bpp + m.bpp <= |fb|
    && PixelValue(m.bpp, fb, m.Index(x, y)) != 0
  }

  lemma LitIsArea(m: Mode, o: Pos, entered: seq<Block>)
    requires m.Valid() && AllLattice(o, entered) && AllOnBoard(m, entered)
    ensures Lit(m, Render(m, o, 0, TrailOf(entered))) == Area(entered)
  {
    hide Mode.Size, Mode.Pixels, Mode.Index, Render, PixelValue, CellOf, OnLattice, Area;
    var fb := Render(m, o, 0, TrailOf(entered));
    forall q: Pos
      ensures q in Lit(m, fb) <==> q in Area(entered)
    {
      AreaMember(entered, q);
      if 0 <= q.x < m.h && 0 <= q.y < m.v {
        RenderValue(m, o, 0, TrailOf(entered), q.x, q.y);
        TrailKeys(entered, CellOf(o, q.x, q.y));
        forall i | 0 <= i < |entered|
          ensures Within(entered[i].pos, q.x, q.y) <==> CellOf(o, q.x, q.y) == entered[i].pos
        {
          CellUnique(o, entered[i].pos, q.x, q.y);
        }
      }
    }
  }

  /** On the real screen: a crash-free day game has exactly 25 lit pixels for
      every move made. */
  lemma LitPixels(m: Mode, g: Game, hour: byte, cs: seq<Command>)
    requires Sized(m, g) && g.fb == Filled(m.Size(), 0) && m.h >= 200 && m.bpp >= 2 && hour < NIGHT
    requires AllOnBoard(m, Follow(Start(m), cs).0.entered)
    requires Play(m, StartGame(m, g, hour), cs).Played? && AllZero(Play(m, StartGame(m, g, hour), cs).codes)
    ensures |Lit(m, Play(m, StartGame(m, g, hour), cs).game.fb)| == 25 * |Follow(Start(m), cs).0.entered|
  {
    hide Mode.Size, Mode.Pixels, Mode.Index, Render, PixelValue, Lit, StartGame, Area, Count, Cells;
    GameRefines(m, g, hour, cs);
    BlocksConserved(m, cs);
    StartSound(m);
    FollowSound(m, Origin(m), Start(m), cs);
    LitIsArea(m, Origin(m), Follow(Start(m), cs).0.entered);
  }

  /** Conservation, on the real game: as long as nothing is flagged and all that
      is drawn is on the board, each block drawn has used up one free lattice
      cell and lit 25 pixels, and every tick has drawn two.  A crash-free game is
      therefore over after as many ticks as half the cells. */
  lemma Conservation(m: Mode, g: Game, hour: byte, cs: seq<Command>)
    requires Sized(m, g) && g.fb == Filled(m.Size(), 0) && m.h >= 200 && m.bpp >= 2 && hour < NIGHT
    requires Play(m, StartGame(m, g, hour), cs).Played? && AllZero(Play(m, StartGame(m, g, hour), cs).codes)
    requires AllOnBoard(m, Trail(m, StartGame(m, g, hour), cs))
    ensures var drawn := Trail(m, StartGame(m, g, hour), cs); var o := Origin(m);
            var cells := Count(o.x, m.h) * Count(o.y, m.v);
            && |Lit(m, Play(m, StartGame(m, g, hour), cs).game.fb)| == 25 * |drawn|
            && |Cells(m, o) - Visited(drawn)| + |drawn| == cells
            && 2 * Ticks(cs) <= |drawn| <= cells
  {
    hide Mode.Size, Render, Lit, StartGame, Area, Count, Cells, Visited, OnLattice;
    var s := StartGame(m, g, hour);
    StartPictures(m, g, hour);
    assert Start(m).entered + Trail(m, s, cs) == Trail(m, s, cs);
    FollowDraws(m, Origin(m), s, Start(m), cs);
    GameRefines(m, g, hour, cs);
    BlocksConserved(m, cs);
    LitPixels(m, g, hour, cs);
  }
}
