/** The static state of proj/src/video_gr.c and the operations that change it
    in place, each tied to the specification function of the same name. */
module VideoGr {
  import opened Words
  import opened Raster
  import opened LightCycles
  import opened Mouse

  class Screen {
    const mode: Mode
    const mem: array<byte>
    var blue: Rider
    var orange: Rider
    var cursor: Cursor

    ghost predicate Valid()
      reads this, mem
    {
      mode.Valid() && mem.Length == mode.Size()
    }

    ghost function Scene(): (g: Game)
      requires Valid()
      reads this, mem
      ensures Sized(mode, g)
    {
      Game(mem[..], blue, orange)
    }

    /** The statics of a C program start at zero; the frame is what the card
        shows. */
    constructor (m: Mode, vram: seq<byte>)
      requires m.Valid() && |vram| == m.Size()
      ensures Valid() && fresh(mem) && mode == m
      ensures Scene() == Game(vram, Rider(0, 0, Up), Rider(0, 0, Up)) && cursor == Cursor(0, 0)
    {
      hide Mode.Size;
      mode := m;
      var frame := new byte[|vram|];
      forall i | 0 <= i < |vram| { frame[i] := vram[i]; }
      mem := frame;
      blue, orange, cursor := Rider(0, 0, Up), Rider(0, 0, Up), Cursor(0, 0);
      new;
      assert mem[..] == vram;
    }

    method MovePlayer(mv: MovementInfo, passive: bool) returns (code: nat)
      requires Valid() && LightCycles.MovePlayer(mode, Scene(), mv, passive).Done?
      modifies this, mem
      ensures Valid() && cursor == old(cursor)
      ensures Done(Scene(), code) == old(LightCycles.MovePlayer(mode, Scene(), mv, passive))
    {
      hide Mode.Size, Mode.Pixels, Mode.Index, Painted, RectPixels, Inside, Probe;
      var tmp := if mv.player == Blue then blue else orange;
      var color := Color(mv.player);
      if !passive && mv.dir == tmp.heading { return 0; }
      if mv.dir == Opposite(tmp.heading) { return 0; }
      tmp := tmp.(heading := mv.dir);
      match mv.dir {
        case Up => tmp := tmp.(y := W16(tmp.y - STEP));
        case Down => tmp := tmp.(y := W16(tmp.y + STEP));
        case Left => tmp := tmp.(x := W16(tmp.x - STEP));
        case Right => tmp := tmp.(x := W16(tmp.x + STEP));
        case Unchanged => return 1;
      }
      var flag := DrawRectangle(mode, mem, tmp.x, tmp.y, BLOCK, BLOCK, color);
      if mv.player == Blue { blue := tmp; } else { orange := tmp; }
      code := if flag then 1 else 0;
    }

    method PassiveMovePlayers() returns (code: nat)
      requires Valid() && PassiveMove(mode, Scene()).Done?
      modifies this, mem
      ensures Valid() && cursor == old(cursor)
      ensures Done(Scene(), code) == old(PassiveMove(mode, Scene()))
    {
      hide Mode.Size, LightCycles.MovePlayer;
      var moveBlue := MovementInfo(blue.heading, Blue);
      var moveOrange := MovementInfo(orange.heading, Orange);
      var c := MovePlayer(moveBlue, true);
      if c != 0 { return 1; }
      c := MovePlayer(moveOrange, true);
      if c != 0 { return 2; }
      return 0;
    }

    /** `memset` over the whole frame. */
    method Fill(b: byte)
      requires Valid()
      modifies mem
      ensures Valid() && mem[..] == Filled(mode.Size(), b)
    {
      hide Mode.Size;
      forall i | 0 <= i < mem.Length { mem[i] := b; }
    }

    method StartGame(hour: byte)
      requires Valid()
      modifies this, mem
      ensures Valid() && cursor == old(cursor)
      ensures Scene() == LightCycles.StartGame(mode, old(Scene()), hour)
    {
      hide Mode.Size;
      if hour >= NIGHT { Fill(255); }
      blue := Rider(W16(mode.h / 2 - 100), W16(mode.v / 2), Right);
      orange := Rider(W16(mode.h / 2 + 100), W16(mode.v / 2), Left);
    }

    method Show(img: Image, x: u16, y: u16)
      requires Valid() && img.Valid(mode.bpp) && Fits(mode, img, x, y)
      modifies mem
      ensures Valid() && mem[..] == Blit(mode, old(mem[..]), img, x, y)
    {
      DrawImg(mode, mem, img, x, y);
    }

    method MouseMovement(p: Packet, img: Image)
      requires Valid() && img.Valid(mode.bpp)
      requires var c := MoveCursor(mode.h, mode.v, cursor, p); Fits(mode, img, c.x, c.y)
      modifies this, mem
      ensures Valid() && blue == old(blue) && orange == old(orange)
      ensures cursor == MoveCursor(mode.h, mode.v, old(cursor), p)
      ensures mem[..] == Blit(mode, old(mem[..]), img, cursor.x, cursor.y)
    {
      hide Mode.Size, Fits;
      var hi, bottom := W32(mode.h - MARGIN), W32(mode.v - MARGIN);
      var x, y := W16(cursor.x + W16(p.dx)), W16(cursor.y - W16(p.dy));
      if x >= hi { x := W16(hi); }
      if x <= MARGIN { x := MARGIN; }
      if y >= bottom { y := W16(bottom); }
      if y <= MARGIN { y := MARGIN; }
      cursor := Cursor(x, y);
      Show(img, x, y);
    }
  }
}
