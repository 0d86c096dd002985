/** The movement rules of proj/src/video_gr.c.  There is no trail structure:
    the framebuffer is the only record of where the riders have been. */
module LightCycles {
  import opened Words
  import opened Raster

  datatype Direction = Up | Down | Left | Right | Unchanged

  datatype Player = Blue | Orange

  datatype MovementInfo = MovementInfo(dir: Direction, player: Player)

  datatype Rider = Rider(x: u16, y: u16, heading: Direction)

  const STEP: int := 5
  const BLOCK: u16 := 5
  const NIGHT: byte := 0x19

  function Color(p: Player): u32 {
    match p
    case Blue => 0x1F51FF
    case Orange => 0xFF5F1F
  }

  /** The default case of the source's switch answers `DOWN`. */
  function Opposite(d: Direction): Direction {
    match d
    case Left => Right
    case Up => Down
    case Down => Up
    case Right => Left
    case Unchanged => Down
  }

  /** What `move_player` does with a command before it touches the screen. */
  datatype Decision = Ignore | Reject | Enter(to: Rider)

  function Decide(r: Rider, dir: Direction, passive: bool): Decision {
    if !passive && dir == r.heading then Ignore
    else if dir == Opposite(r.heading) then Ignore
    else
      match dir
      case Up => Enter(Rider(r.x, W16(r.y - STEP), dir))
      case Down => Enter(Rider(r.x, W16(r.y + STEP), dir))
      case Left => Enter(Rider(W16(r.x - STEP), r.y, dir))
      case Right => Enter(Rider(W16(r.x + STEP), r.y, dir))
      case Unchanged => Reject
  }

  datatype Game = Game(fb: seq<byte>, blue: Rider, orange: Rider) {
    function RiderOf(p: Player): Rider {
      match p case Blue => blue case Orange => orange
    }

    function With(p: Player, r: Rider): Game {
      match p case Blue => this.(blue := r) case Orange => this.(orange := r)
    }
  }

  /** Both riders have a real direction. */
  predicate Headed(g: Game) { g.blue.heading != Unchanged && g.orange.heading != Unchanged }

  /** `Fault`: the block to draw is not inside the mapped video memory, so the
      C program has no defined behaviour. */
  datatype Outcome = Done(game: Game, code: nat) | Fault

  ghost predicate BlockInMemory(m: Mode, r: Rider) {
    m.Index(r.x, r.y) < m.Pixels() && Inside(m, RectPixels(m, r.x, r.y, BLOCK, BLOCK))
  }

  ghost predicate Sized(m: Mode, g: Game) { m.Valid() && |g.fb| == m.Size() }

  ghost function MovePlayer(m: Mode, g: Game, mv: MovementInfo, passive: bool): (o: Outcome)
    requires Sized(m, g)
    ensures o.Done? ==> Sized(m, o.game)
  {
    match Decide(g.RiderOf(mv.player), mv.dir, passive)
    case Ignore => Done(g, 0)
    case Reject => Done(g, 1)
    case Enter(r) =>
      if !BlockInMemory(m, r) then Fault
      else
        var flag := Probe(m, g.fb, r.x, r.y);
        var fb := Painted(m.bpp, g.fb, RectPixels(m, r.x, r.y, BLOCK, BLOCK), Color(mv.player));
        Done(g.With(mv.player, r).(fb := fb), if flag then 1 else 0)
  }

  lemma OneMoves(m: Mode, g: Game, mv: MovementInfo, passive: bool)
    requires Sized(m, g) && MovePlayer(m, g, mv, passive).Done?
    ensures forall p :: p != mv.player ==> MovePlayer(m, g, mv, passive).game.RiderOf(p) == g.RiderOf(p)
  {
    hide Mode.Size, Probe, Painted, RectPixels, Inside, Mode.Pixels, Mode.Index, Decide;
  }

  /** The rider a passive move leaves. */
  function Pushed(r: Rider): Rider {
    match Decide(r, r.heading, true) case Enter(to) => to case _ => r
  }

  /** One game tick: blue moves first; orange does not move if blue crashed. */
  ghost function PassiveMove(m: Mode, g: Game): (o: Outcome)
    requires Sized(m, g)
    ensures o.Done? ==> Sized(m, o.game)
  {
    var b := MovePlayer(m, g, MovementInfo(g.blue.heading, Blue), true);
    if b.Fault? then Fault
    else if b.code != 0 then Done(b.game, 1)
    else
      var o := MovePlayer(m, b.game, MovementInfo(g.orange.heading, Orange), true);
      if o.Fault? then Fault else Done(o.game, if o.code != 0 then 2 else 0)
  }

  function Filled(n: nat, b: byte): (s: seq<byte>)
    ensures |s| == n
  {
    seq(n, _ => b)
  }

  function StartBlue(m: Mode): Rider { Rider(W16(m.h / 2 - 100), W16(m.v / 2), Right) }

  function StartOrange(m: Mode): Rider { Rider(W16(m.h / 2 + 100), W16(m.v / 2), Left) }

  ghost function StartGame(m: Mode, g: Game, hour: byte): (r: Game)
    requires Sized(m, g)
    ensures Sized(m, r)
  {
    Game(if hour >= NIGHT then Filled(|g.fb|, 255) else g.fb, StartBlue(m), StartOrange(m))
  }

  datatype Command = Tick | Key(mv: MovementInfo)

  ghost function Apply(m: Mode, g: Game, c: Command): (o: Outcome)
    requires Sized(m, g)
    ensures o.Done? ==> Sized(m, o.game)
  {
    match c
    case Tick => PassiveMove(m, g)
    case Key(mv) => MovePlayer(m, g, mv, false)
  }

  /** A whole run of commands with the result code of each, or a fault. */
  datatype Played = Played(game: Game, codes: seq<nat>) | Faulted

  ghost function Play(m: Mode, g: Game, cs: seq<Command>): (r: Played)
    requires Sized(m, g)
    ensures r.Played? ==> |r.codes| == |cs| && Sized(m, r.game)
    decreases |cs|
  {
    if cs == [] then Played(g, [])
    else
      var o := Apply(m, g, cs[0]);
      if o.Fault? then Faulted
      else
        var rest := Play(m, o.game, cs[1..]);
        if rest.Faulted? then Faulted else Played(rest.game, [o.code] + rest.codes)
  }
}
