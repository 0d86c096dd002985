/** `proj_main_loop` and `kbc_ih` as a machine that takes one notification at
    a time. */
module Console {
  import opened Words
  import opened Raster
  import opened LightCycles
  import opened Arena
  import opened Mouse

  datatype View = Main | SGame | MGame | Pause | GoOne | GoTwo | Quit

  /** One return of `driver_receive`.  A hardware notification carries the
      timer bit, and for the keyboard and mouse bits what their ports hold. */
  datatype Event =
    | ReceiveFailed
    | OtherMessage
    | Hardware(timer: bool, keyboard: Option<Port>, mouse: Option<Port>)

  /** The fixed surroundings of a run: mode, images, hour, and what the frame
      and the save buffer hold before the program writes them. */
  datatype Setup = Setup(mode: Mode, main: Image, gameOver1: Image, gameOver2: Image, pause: Image,
                         cursorImage: Image, hour: byte, vram: seq<byte>, heap: seq<byte>)
  {
    ghost predicate FullScreen(img: Image) {
      img.Valid(mode.bpp) && img.width <= mode.h && img.height <= mode.v
    }

    ghost predicate Valid() {
      && mode.Valid() && mode.h >= 60 && mode.v >= 60
      && FullScreen(main) && FullScreen(gameOver1) && FullScreen(gameOver2) && FullScreen(pause)
      && cursorImage.Valid(mode.bpp) && cursorImage.width <= 30 && cursorImage.height <= 30
      && |vram| == mode.Size() && |heap| == mode.Size()
    }
  }

  /** The variables of the loop and of the handlers it calls.  `starts` counts
      the calls of `start_game` and `entered` lists the blocks drawn on the
      game frame since the last of them; no transition reads either. */
  datatype State = State(
    view: View, printed: bool, startGame: bool, paused: bool,
    game: Game, saved: seq<byte>, cursor: Cursor, mouse: Assembler,
    nextMove: MovementInfo, scanCode: byte, ticks: nat,
    starts: nat, entered: seq<Block>, fault: bool)

  ghost predicate Proper(c: Setup, s: State) {
    && Sized(c.mode, s.game) && |s.saved| == c.mode.Size() && s.mouse.counter < 3
    && CursorInside(c.mode.h, c.mode.v, s.cursor)
  }

  // ------------------------------------------------------------ the keyboard

  const P_BREAK: byte := 153

  predicate KeyStatusOk(status: byte) {
    Bit(status, 0) && !Bit(status, 7) && !Bit(status, 6) && !Bit(status, 5)
  }

  /** The status filters as ranges: the two handlers accept no common status,
      and neither accepts one with a parity or time-out error. */
  lemma StatusFilters(status: byte)
    ensures KeyStatusOk(status) <==> status % 2 == 1 && status < 32
    ensures MouseStatusOk(status) <==> status % 2 == 1 && 32 <= status < 64
  {
    NibbleBits(status % 16, status / 16);
  }

  /** The break codes of WASD (blue) and of the arrow keys (orange). */
  function DirectionKey(data: byte): Option<MovementInfo> {
    if data == 145 then Some(MovementInfo(Up, Blue))
    else if data == 159 then Some(MovementInfo(Down, Blue))
    else if data == 158 then Some(MovementInfo(Left, Blue))
    else if data == 160 then Some(MovementInfo(Right, Blue))
    else if data == 200 then Some(MovementInfo(Up, Orange))
    else if data == 208 then Some(MovementInfo(Down, Orange))
    else if data == 203 then Some(MovementInfo(Left, Orange))
    else if data == 205 then Some(MovementInfo(Right, Orange))
    else None
  }

  predicate PauseKey(p: Port) { KeyStatusOk(p.status) && p.data == P_BREAK }

  predicate DirectionRelease(p: Port) { KeyStatusOk(p.status) && DirectionKey(p.data).Some? }

  function ViewAfterKey(v: View, p: Port): View {
    if !PauseKey(p) then v else if v == Pause then SGame else Pause
  }

  function CommandAfterKey(mv: MovementInfo, p: Port): MovementInfo {
    if DirectionRelease(p) then DirectionKey(p.data).value else mv
  }

  function KbcIh(s: State, p: Port): State {
    s.(view := ViewAfterKey(s.view, p),
       nextMove := CommandAfterKey(s.nextMove, p),
       scanCode := if KeyStatusOk(p.status) then p.data else s.scanCode)
  }

  // -------------------------------------------------------------- the frame

  /** The keyboard branch, in the game loop (`inGame`) or in the pause loop. */
  ghost function OnKeyboard(c: Setup, s: State, p: Port, inGame: bool): (r: State)
    requires c.Valid() && Proper(c, s)
    ensures Proper(c, r)
  {
    var t := KbcIh(s, p);
    if t.nextMove.dir == Unchanged then t
    else
      var o := MovePlayer(c.mode, t.game, t.nextMove, false);
      if o.Fault? then t.(fault := true)
      else
        t.(game := o.game,
           view := if o.code == 1 then Quit else t.view,
           entered := if inGame then t.entered + Drawn(t.game.RiderOf(t.nextMove.player), t.nextMove, false)
                      else t.entered)
  }

  ghost function OnTimer(c: Setup, s: State): (r: State)
    requires c.Valid() && Proper(c, s)
    ensures Proper(c, r)
  {
    var t := s.(ticks := s.ticks + 1);
    if t.ticks % 5 != 0 then t
    else
      var o := PassiveMove(c.mode, t.game);
      if o.Fault? then t.(fault := true)
      else
        t.(game := o.game,
           view := if o.code == 1 then GoTwo else if o.code == 2 then GoOne else t.view,
           entered := t.entered + TickDrawn(t.game, o.code))
  }

  predicate InPlace(c: Cursor, x1: int, y1: int, x2: int, y2: int) {
    x1 <= c.x <= x2 && y1 <= c.y <= y2
  }

  /** Where a click on the menu leads. */
  function Clicked(v: View, c: Cursor, lb: bool): View {
    if lb && InPlace(c, 253, 288, 547, 313) then SGame
    else if lb && InPlace(c, 268, 352, 532, 376) then MGame
    else if lb && InPlace(c, 358, 412, 442, 437) then Quit
    else v
  }

  ghost function OnMenuMouse(c: Setup, s: State, background: Image, p: Port): (r: State)
    requires c.Valid() && Proper(c, s) && background.Valid(c.mode.bpp)
    ensures Proper(c, r)
  {
    var (a, packet) := Feed(s.mouse, p);
    if packet.None? then s.(mouse := a)
    else
      PacketInRange(s.mouse, p);
      CursorLaw(c.mode.h, c.mode.v, s.cursor, packet.value);
      var at := MoveCursor(c.mode.h, c.mode.v, s.cursor, packet.value);
      var fb := Blit(c.mode, Blit(c.mode, s.game.fb, background, 0, 0), c.cursorImage, at.x, at.y);
      s.(mouse := a, cursor := at, game := s.game.(fb := fb), view := Clicked(s.view, at, packet.value.lb))
  }

  lemma PacketInRange(a: Assembler, p: Port)
    requires a.counter < 3
    ensures Feed(a, p).1.Some? ==> Encodable(Feed(a, p).1.value)
  {
  }

  // --------------------------------------------------------------- the loop

  /** The image the mouse branch of a menu redraws.  The first game-over screen
      redraws the second one's image. */
  function MenuImage(c: Setup, v: View): Image { if v == Main then c.main else c.gameOver2 }

  function EntryImage(c: Setup, v: View): Image {
    match v case Main => c.main case GoOne => c.gameOver1 case _ => c.gameOver2
  }

  predicate Menu(v: View) { v == Main || v == GoOne || v == GoTwo }

  /** What a loop does at its head, before it receives. */
  ghost function Settle(c: Setup, s: State): (r: State)
    requires c.Valid() && Proper(c, s)
    ensures Proper(c, r)
  {
    match s.view
    case Pause =>
      if s.printed then s
      else s.(saved := s.game.fb, printed := true, paused := true,
              game := s.game.(fb := Blit(c.mode, s.game.fb, c.pause, 0, 0)))
    case SGame => Resume(c, Begin(c, s))
    case MGame => Begin(c, s)
    case Quit => s
    case _ =>
      if s.printed then s
      else s.(printed := true, startGame := false,
              game := s.game.(fb := Blit(c.mode, s.game.fb, EntryImage(c, s.view), 0, 0)))
  }

  ghost function Begin(c: Setup, s: State): (r: State)
    requires c.Valid() && Proper(c, s)
    ensures Proper(c, r) && r.view == s.view
  {
    if s.startGame then s
    else
      var black := s.game.(fb := Filled(c.mode.Size(), 0));
      s.(game := StartGame(c.mode, black, c.hour), startGame := true, printed := false,
         starts := s.starts + 1, entered := [])
  }

  ghost function Resume(c: Setup, s: State): (r: State)
    requires c.Valid() && Proper(c, s)
    ensures Proper(c, r)
  {
    if !s.paused then s
    else s.(game := s.game.(fb := s.saved), paused := false, printed := false)
  }

  ghost function OnGame(c: Setup, s: State, e: Event): (r: State)
    requires c.Valid() && Proper(c, s) && e.Hardware?
    ensures Proper(c, r)
  {
    var t := if e.timer then OnTimer(c, s) else s;
    if t.fault || e.keyboard.None? then t else OnKeyboard(c, t, e.keyboard.value, true)
  }

  /** What a loop does with what it received. */
  ghost function Dispatch(c: Setup, s: State, e: Event): (r: State)
    requires c.Valid() && Proper(c, s)
    ensures Proper(c, r)
  {
    if !e.Hardware? then s
    else
      match s.view
      case SGame => OnGame(c, s, e)
      case Pause => if e.keyboard.Some? then OnKeyboard(c, s, e.keyboard.value, false) else s
      case MGame => s
      case Quit => s
      case _ => if e.mouse.Some? then OnMenuMouse(c, s, MenuImage(c, s.view), e.mouse.value) else s
  }

  /** A fault stops the program where it was. */
  ghost function Handle(c: Setup, s: State, e: Event): (r: State)
    requires c.Valid() && Proper(c, s)
    ensures Proper(c, r)
  {
    if s.fault then s
    else
      var t := Dispatch(c, s, e);
      if t.fault then s.(fault := true) else t
  }

  ghost function Step(c: Setup, s: State, e: Event): (r: State)
    requires c.Valid() && Proper(c, s)
    ensures Proper(c, r)
  {
    var t := Handle(c, s, e);
    if t.fault then t else Settle(c, t)
  }

  ghost function Boot(c: Setup): (s: State)
    requires c.Valid()
    ensures Proper(c, s)
  {
    var at := Cursor(W16(c.mode.h / 2), W16(c.mode.v / 2));
    State(Main, false, false, false,
          Game(Blit(c.mode, c.vram, c.cursorImage, at.x, at.y), Rider(0, 0, Up), Rider(0, 0, Up)),
          c.heap, at, Assembler(0, 0, 0, 0, 0), MovementInfo(Unchanged, Blue), 0, 0, 0, [], false)
  }

  ghost function Run(c: Setup, s: State, es: seq<Event>): (r: State)
    requires c.Valid() && Proper(c, s)
    ensures Proper(c, r)
    decreases |es|
  {
    if es == [] then s else Run(c, Step(c, s, es[0]), es[1..])
  }

  /** The state at the receive that follows the given events. */
  ghost function AtReceive(c: Setup, es: seq<Event>): (r: State)
    requires c.Valid()
    ensures Proper(c, r)
  {
    Run(c, Settle(c, Boot(c)), es)
  }
}
