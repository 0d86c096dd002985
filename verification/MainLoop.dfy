/** The nested receive loops of `proj_main_loop`, in place, refine the flat
    machine of `Console`. */
module MainLoop {
  import opened Words
  import opened Raster
  import opened LightCycles
  import opened Arena
  import opened Mouse
  import opened Console
  import opened ConsoleInvariants
  import opened VideoGr

  lemma FullScreenFits(c: Setup, img: Image)
    requires c.Valid() && c.FullScreen(img)
    ensures Fits(c.mode, img, 0, 0)
  {
    MulMono(img.height, c.mode.v, c.mode.h);
    assert img.height * c.mode.h == (img.height - 1) * c.mode.h + c.mode.h;
  }

  lemma CursorImageFits(c: Setup, at: Cursor)
    requires c.Valid() && CursorInside(c.mode.h, c.mode.v, at)
    ensures Fits(c.mode, c.cursorImage, at.x, at.y)
  {
    var n := at.y + c.cursorImage.height;
    MulMono(n, c.mode.v, c.mode.h);
    assert n * c.mode.h == (n - 1) * c.mode.h + c.mode.h;
  }

  class Program {
    const c: Setup
    const screen: Screen
    const saveGameScreen: array<byte>
    var view: View
    var printed: bool
    var startGame: bool
    var paused: bool
    var mouse: Assembler
    var nextMove: MovementInfo
    var scanCode: byte
    var ticks: nat
    ghost var starts: nat
    ghost var entered: seq<Block>

    ghost predicate Valid()
      reads this, screen, screen.mem, saveGameScreen
    {
      && c.Valid() && screen.Valid() && screen.mode == c.mode
      && saveGameScreen.Length == c.mode.Size() && saveGameScreen != screen.mem
      && mouse.counter < 3 && CursorInside(c.mode.h, c.mode.v, screen.cursor)
    }

    ghost function Value(): (s: State)
      requires Valid()
      reads this, screen, screen.mem, saveGameScreen
      ensures Proper(c, s)
    {
      State(view, printed, startGame, paused, screen.Scene(), saveGameScreen[..], screen.cursor, mouse,
            nextMove, scanCode, ticks, starts, entered, false)
    }

    /** Initialised globals and locals, the mapped frame, and the cursor drawn in
        the middle of it. */
    constructor (setup: Setup)
      requires setup.Valid()
      ensures Valid() && c == setup && fresh(screen) && fresh(screen.mem) && fresh(saveGameScreen)
      ensures Value() == Boot(setup)
    {
      hide Mode.Size, Mode.Pixels, Mode.Index, Fits, Blit, Image.Valid;
      c := setup;
      var vg := new Screen(setup.mode, setup.vram);
      assert vg.mem[..] == vg.Scene().fb == setup.vram;
      var buffer := new byte[|setup.heap|];
      forall i | 0 <= i < |setup.heap| { buffer[i] := setup.heap[i]; }
      assert buffer[..] == setup.heap;
      var at := Cursor(W16(setup.mode.h / 2), W16(setup.mode.v / 2));
      vg.cursor := at;
      assert vg.mem[..] == setup.vram;
      CursorImageFits(setup, at);
      vg.Show(setup.cursorImage, at.x, at.y);
      ghost var fb := vg.mem[..];
      assert fb == Blit(setup.mode, setup.vram, setup.cursorImage, at.x, at.y);
      assert vg.Scene() == Game(fb, Rider(0, 0, Up), Rider(0, 0, Up));
      assert buffer[..] == setup.heap;
      screen, saveGameScreen := vg, buffer;
      view, printed, startGame, paused := Main, false, false, false;
      mouse, nextMove, scanCode, ticks := Assembler(0, 0, 0, 0, 0), MovementInfo(Unchanged, Blue), 0, 0;
      starts, entered := 0, [];
      new;
      assert saveGameScreen[..] == setup.heap;
      assert screen.Scene() == Game(fb, Rider(0, 0, Up), Rider(0, 0, Up));
    }

    // ------------------------------------------------------- heads of loops

    method ShowMenu(img: Image)
      requires Valid() && Menu(view) && img == EntryImage(c, view)
      modifies this, screen.mem
      ensures Valid() && view == old(view) && Value() == Settle(c, old(Value()))
    {
      hide Mode.Size, Mode.Pixels, Mode.Index, Fits, Blit, Image.Valid;
      if !printed {
        FullScreenFits(c, img);
        screen.Show(img, 0, 0);
        printed := true;
        startGame := false;
      }
    }

    method EnterPause()
      requires Valid() && view == Pause
      modifies this, screen.mem, saveGameScreen
      ensures Valid() && view == old(view) && Value() == Settle(c, old(Value()))
    {
      hide Mode.Size, Mode.Pixels, Mode.Index, Fits, Blit, Image.Valid;
      if !printed {
        forall i | 0 <= i < saveGameScreen.Length { saveGameScreen[i] := screen.mem[i]; }
        ghost var frame := screen.mem[..];
        assert saveGameScreen[..] == frame == old(screen.mem[..]);
        printed := true;
        paused := true;
        FullScreenFits(c, c.pause);
        screen.Show(c.pause, 0, 0);
        assert saveGameScreen[..] == frame;
        assert screen.Scene() == old(screen.Scene()).(fb := Blit(c.mode, frame, c.pause, 0, 0));
      }
    }

    method BeginGame()
      requires Valid()
      modifies this, screen, screen.mem
      ensures Valid() && view == old(view) && Value() == Begin(c, old(Value()))
    {
      hide Mode.Size, Image.Valid;
      if !startGame {
        screen.Fill(0);
        screen.StartGame(c.hour);
        startGame := true;
        printed := false;
        starts := starts + 1;
        entered := [];
      }
    }

    method ResumeGame()
      requires Valid()
      modifies this, screen.mem
      ensures Valid() && view == old(view) && Value() == Resume(c, old(Value()))
    {
      hide Mode.Size, Image.Valid;
      if paused {
        forall i | 0 <= i < screen.mem.Length { screen.mem[i] := saveGameScreen[i]; }
        assert screen.mem[..] == old(saveGameScreen[..]);
        paused := false;
        printed := false;
      }
    }

    // ------------------------------------------------------ bodies of loops

    method MenuMouse(background: Image, p: Port)
      requires Valid() && c.FullScreen(background)
      modifies this, screen, screen.mem
      ensures Valid() && Value() == OnMenuMouse(c, old(Value()), background, p)
    {
      hide Mode.Size, Mode.Pixels, Mode.Index, Fits, Blit, Image.Valid, MoveCursor, Feed, Setup.Valid;
      assert c.mode.Valid() && 60 <= c.mode.h < 0x1_0000 && 60 <= c.mode.v < 0x1_0000 && c.cursorImage.Valid(c.mode.bpp)
        && c.cursorImage.width <= c.mode.h by { SetupFacts(c); }
      PacketInRange(mouse, p);
      var (a, packet) := Feed(mouse, p);
      mouse := a;
      if packet.Some? {
        CursorLaw(c.mode.h, c.mode.v, screen.cursor, packet.value);
        CursorImageFits(c, MoveCursor(c.mode.h, c.mode.v, screen.cursor, packet.value));
        FullScreenFits(c, background);
        screen.Show(background, 0, 0);
        screen.MouseMovement(packet.value, c.cursorImage);
        var x, y, lb := screen.cursor.x, screen.cursor.y, packet.value.lb;
        if lb && 253 <= x <= 547 && 288 <= y <= 313 {
          view := SGame;
        } else if lb && 268 <= x <= 532 && 352 <= y <= 376 {
          view := MGame;
        } else if lb && 358 <= x <= 442 && 412 <= y <= 437 {
          view := Quit;
        }
      }
    }

    lemma SetupFacts(c: Setup)
      requires c.Valid()
      ensures c.mode.Valid() && 60 <= c.mode.h < 0x1_0000 && 60 <= c.mode.v < 0x1_0000
      ensures c.cursorImage.Valid(c.mode.bpp) && c.cursorImage.width <= c.mode.h
      ensures c.FullScreen(c.main) && c.FullScreen(c.gameOver2)
    {
    }

    /** `kbc_ih`. */
    method ReadKeyboard(p: Port)
      requires Valid()
      modifies this
      ensures Valid() && Value() == KbcIh(old(Value()), p)
    {
      hide Mode.Size, Setup.Valid, KeyStatusOk;
      if KeyStatusOk(p.status) {
        if p.data == P_BREAK {
          if view == Pause { view := SGame; } else { view := Pause; }
        }
        if p.data == 145 || p.data == 159 || p.data == 158 || p.data == 160 {
          var dir := if p.data == 145 then Up else if p.data == 159 then Down else if p.data == 158 then Left else Right;
          nextMove := MovementInfo(dir, Blue);
        }
        if p.data == 200 || p.data == 203 || p.data == 205 || p.data == 208 {
          var dir := if p.data == 200 then Up else if p.data == 208 then Down else if p.data == 203 then Left else Right;
          nextMove := MovementInfo(dir, Orange);
        }
        scanCode := p.data;
      }
    }

    method KeyboardBranch(p: Port, ghost inGame: bool)
      requires Valid() && !OnKeyboard(c, Value(), p, inGame).fault
      modifies this, screen, screen.mem
      ensures Valid() && Value() == OnKeyboard(c, old(Value()), p, inGame)
    {
      hide Mode.Size, Setup.Valid, KeyStatusOk, MovePlayer, DirectionRelease, PauseKey, Drawn;
      ReadKeyboard(p);
      if nextMove.dir != Unchanged {
        ghost var r := screen.Scene().RiderOf(nextMove.player);
        var code := screen.MovePlayer(nextMove, false);
        if code == 1 { view := Quit; }
        if inGame { entered := entered + Drawn(r, nextMove, false); }
      }
    }

    method TimerBranch()
      requires Valid() && !OnTimer(c, Value()).fault
      modifies this, screen, screen.mem
      ensures Valid() && Value() == OnTimer(c, old(Value()))
    {
      hide Mode.Size, Setup.Valid, PassiveMove, TickDrawn;
      ticks := ticks + 1;
      if ticks % 5 == 0 {
        ghost var g := screen.Scene();
        var code := screen.PassiveMovePlayers();
        if code == 1 { view := GoTwo; } else if code == 2 { view := GoOne; }
        entered := entered + TickDrawn(g, code);
      }
    }

    method MenuBody(e: Event)
      requires Valid() && Menu(view) && !Handle(c, Value(), e).fault
      modifies this, screen, screen.mem
      ensures Valid() && Value() == Handle(c, old(Value()), e)
    {
      SetupFacts(c);
      hide Setup.Valid, OnMenuMouse, Mode.Size, Setup.FullScreen;
      if e.Hardware? && e.mouse.Some? {
        MenuMouse(if view == Main then c.main else c.gameOver2, e.mouse.value);
      }
    }

    method PauseBody(e: Event)
      requires Valid() && view == Pause && !Handle(c, Value(), e).fault
      modifies this, screen, screen.mem
      ensures Valid() && Value() == Handle(c, old(Value()), e)
    {
      hide Setup.Valid, OnKeyboard, Mode.Size;
      if e.Hardware? && e.keyboard.Some? {
        KeyboardBranch(e.keyboard.value, false);
      }
    }

    method GameBody(e: Event)
      requires Valid() && view == SGame && !Handle(c, Value(), e).fault
      modifies this, screen, screen.mem
      ensures Valid() && Value() == Handle(c, old(Value()), e)
    {
      hide Setup.Valid, OnKeyboard, OnTimer, Mode.Size;
      if e.Hardware? {
        if e.timer { TimerBranch(); }
        if e.keyboard.Some? { KeyboardBranch(e.keyboard.value, true); }
      }
    }

    /** Value() is the machine's state once the head of the loop has run. */
    ghost predicate Follows(s0: State, es: seq<Event>, i: nat)
      requires Valid() && Proper(c, s0) && i <= |es|
      reads this, screen, screen.mem, saveGameScreen
    {
      Settle(c, Value()) == Run(c, s0, es[..i])
    }

    lemma Received(s0: State, es: seq<Event>, i: nat)
      requires c.Valid() && Proper(c, s0) && i < |es| && !Run(c, s0, es).fault
      ensures Run(c, s0, es[..i + 1]) == Settle(c, Handle(c, Run(c, s0, es[..i]), es[i]))
      ensures !Handle(c, Run(c, s0, es[..i]), es[i]).fault
    {
      hide Settle, Handle, Setup.Valid, Proper;
      RunSplit(c, s0, es, i);
    }

    /** A receive loop runs until its screen is left, or blocks at a receive with
        nothing to receive. */
    method MenuLoop(here: View, img: Image, ghost s0: State, es: seq<Event>, from: nat) returns (i: nat, blocked: bool)
      requires Valid() && Proper(c, s0) && !Run(c, s0, es).fault && from <= |es| && Follows(s0, es, from)
      requires Menu(here) && img == EntryImage(c, here)
      modifies this, screen, screen.mem, saveGameScreen
      ensures Valid() && from <= i <= |es| && (i == from ==> view == old(view))
      ensures !blocked ==> Follows(s0, es, i) && !(view == here)
      ensures blocked ==> Value() == Run(c, s0, es)
    {
      hide Setup.Valid, Proper, Handle, Settle, Run, Value;
      i := from;
      while view == here
        invariant Valid() && from <= i <= |es| && Follows(s0, es, i) && (i == from ==> view == old(view))
        decreases |es| - i
      {
        ShowMenu(img);
        if i == |es| { assert es[..i] == es; return i, true; }
        Received(s0, es, i);
        MenuBody(es[i]);
        i := i + 1;
      }
      blocked := false;
    }

    method PauseLoop(ghost s0: State, es: seq<Event>, from: nat) returns (i: nat, blocked: bool)
      requires Valid() && Proper(c, s0) && !Run(c, s0, es).fault && from <= |es| && Follows(s0, es, from)
      modifies this, screen, screen.mem, saveGameScreen
      ensures Valid() && from <= i <= |es| && (i == from ==> view == old(view))
      ensures !blocked ==> Follows(s0, es, i) && !(view == Pause)
      ensures blocked ==> Value() == Run(c, s0, es)
    {
      hide Setup.Valid, Proper, Handle, Settle, Run, Value;
      i := from;
      while view == Pause
        invariant Valid() && from <= i <= |es| && Follows(s0, es, i) && (i == from ==> view == old(view))
        decreases |es| - i
      {
        EnterPause();
        if i == |es| { assert es[..i] == es; return i, true; }
        Received(s0, es, i);
        PauseBody(es[i]);
        i := i + 1;
      }
      blocked := false;
    }

    method GameLoop(ghost s0: State, es: seq<Event>, from: nat) returns (i: nat, blocked: bool)
      requires Valid() && Proper(c, s0) && !Run(c, s0, es).fault && from <= |es| && Follows(s0, es, from)
      modifies this, screen, screen.mem, saveGameScreen
      ensures Valid() && from <= i <= |es| && (i == from ==> view == old(view))
      ensures !blocked ==> Follows(s0, es, i) && !(view == SGame)
      ensures blocked ==> Value() == Run(c, s0, es)
    {
      hide Setup.Valid, Proper, Handle, Settle, Run, Value;
      i := from;
      while view == SGame
        invariant Valid() && from <= i <= |es| && Follows(s0, es, i) && (i == from ==> view == old(view))
        decreases |es| - i
      {
        GameHead();
        if i == |es| { assert es[..i] == es; return i, true; }
        Received(s0, es, i);
        GameBody(es[i]);
        i := i + 1;
      }
      blocked := false;
    }

    method GameHead()
      requires Valid() && view == SGame
      modifies this, screen, screen.mem
      ensures Valid() && view == old(view) && Value() == Settle(c, old(Value()))
    {
      BeginGame();
      ResumeGame();
      hide Begin, Resume, Setup.Valid, Proper;
    }

    /** The receive loops inside the outer loop.  The method returns where the
        program would stay for ever: blocked at a receive, or in the multiplayer
        loop, which does not receive at all. */
    method Loop(es: seq<Event>)
      requires Valid() && Value() == Boot(c) && !AtReceive(c, es).fault
      modifies this, screen, screen.mem, saveGameScreen
      ensures Valid() && Value() == AtReceive(c, es)
    {
      ghost var s0 := Settle(c, Value());
      assert es[..0] == [];
      var i := 0;
      var blocked := false;
      while view != Quit
        invariant Valid() && Proper(c, s0) && s0 == Settle(c, Boot(c)) && i <= |es| && Follows(s0, es, i)
        decreases |es| - i
      {
        hide Setup.Valid, Proper, Handle, Settle, Run, Value, Follows, Boot;
        ghost var i0 := i;
        i, blocked := MenuLoop(Main, c.main, s0, es, i);
        if blocked { return; }
        i, blocked := MenuLoop(GoOne, c.gameOver1, s0, es, i);
        if blocked { return; }
        i, blocked := MenuLoop(GoTwo, c.gameOver2, s0, es, i);
        if blocked { return; }
        i, blocked := PauseLoop(s0, es, i);
        if blocked { return; }
        i, blocked := GameLoop(s0, es, i);
        if blocked { return; }
        if view == MGame {
          Multiplayer(s0, es, i);
          return;
        }
      }
      Stopped(s0, es, i);
    }

    method Multiplayer(ghost s0: State, es: seq<Event>, i: nat)
      requires Valid() && Proper(c, s0) && i <= |es| && Follows(s0, es, i) && view == MGame
      modifies this, screen, screen.mem
      ensures Valid() && Value() == Run(c, s0, es)
    {
      hide Setup.Valid, Proper, Run;
      BeginGame();
      Spins(c, s0, es, i);
    }

    lemma Stopped(s0: State, es: seq<Event>, i: nat)
      requires Valid() && Proper(c, s0) && i <= |es| && Follows(s0, es, i) && view == Quit
      ensures Value() == Run(c, s0, es)
    {
      hide Setup.Valid, Proper, Run;
      Spins(c, s0, es, i);
    }
  }

  lemma {:induction false} RunSplit(c: Setup, s: State, es: seq<Event>, i: nat)
    requires c.Valid() && Proper(c, s) && i < |es| && !Run(c, s, es).fault
    ensures Run(c, s, es[..i + 1]) == Settle(c, Handle(c, Run(c, s, es[..i]), es[i]))
    ensures !Handle(c, Run(c, s, es[..i]), es[i]).fault
  {
    hide Settle, Handle, Setup.Valid, Proper;
    var t := Run(c, s, es[..i]);
    assert es[..i + 1] == es[..i] + [es[i]] && es == es[..i + 1] + es[i + 1..];
    RunAppend(c, s, es[..i], [es[i]]);
    RunAppend(c, s, es[..i + 1], es[i + 1..]);
    assert [es[i]][1..] == [];
    assert Run(c, t, [es[i]]) == Run(c, Step(c, t, es[i]), []);
    if Step(c, t, es[i]).fault {
      FaultSticks(c, Step(c, t, es[i]), es[i + 1..]);
    }
    SettleKeepsFault(c, t, es[i]);
  }

  lemma SettleKeepsFault(c: Setup, s: State, e: Event)
    requires c.Valid() && Proper(c, s)
    ensures Step(c, s, e).fault == Handle(c, s, e).fault
  {
    hide Handle, Setup.Valid, Proper, Blit, StartGame, Filled;
  }

  lemma {:induction false} FaultSticks(c: Setup, s: State, es: seq<Event>)
    requires c.Valid() && Proper(c, s) && s.fault
    ensures Run(c, s, es) == s
    decreases |es|
  {
    if es != [] {
      assert Step(c, s, es[0]) == s by { hide Dispatch, Settle, Setup.Valid, Proper; }
      hide Step, Setup.Valid, Proper;
      FaultSticks(c, s, es[1..]);
    }
  }

  /** Nothing received after the program stopped, or while it spins, counts. */
  lemma {:induction false} Spins(c: Setup, s: State, es: seq<Event>, i: nat)
    requires c.Valid() && Proper(c, s) && i <= |es|
    requires var t := Run(c, s, es[..i]); t.view == Quit || (t.view == MGame && t.startGame)
    ensures Run(c, s, es) == Run(c, s, es[..i])
  {
    assert es == es[..i] + es[i..];
    RunAppend(c, s, es[..i], es[i..]);
    Idle(c, Run(c, s, es[..i]), es[i..]);
  }

  lemma {:induction false} Idle(c: Setup, s: State, es: seq<Event>)
    requires c.Valid() && Proper(c, s) && (s.view == Quit || (s.view == MGame && s.startGame))
    ensures Run(c, s, es) == s
    decreases |es|
  {
    if es != [] {
      assert Step(c, s, es[0]) == s by { hide OnGame, OnKeyboard, OnMenuMouse, Resume, Blit, Setup.Valid, Proper; }
      hide Step, Setup.Valid, Proper;
      Idle(c, s, es[1..]);
    }
  }
}
