/** The PS/2 byte stream, its assembly into packets, and the menu cursor. */
module Mouse {
  import opened Words

  /** What the two port reads of an interrupt handler return. */
  datatype Port = Port(status: byte, data: byte)

  datatype Option<T> = None | Some(value: T)

  datatype Packet = Packet(lb: bool, rb: bool, mb: bool, xOv: bool, yOv: bool, dx: int, dy: int)

  /** `byteFromMouse`, the packet counter and the three packet bytes. */
  datatype Assembler = Assembler(latch: byte, counter: nat, b0: byte, b1: byte, b2: byte)

  /** No parity or time-out error, output buffer full, data from the mouse. */
  predicate MouseStatusOk(status: byte) {
    !Bit(status, 7) && !Bit(status, 6) && Bit(status, 0) && Bit(status, 5)
  }

  function Parse(b0: byte, b1: byte, b2: byte): (p: Packet)
    ensures -256 <= p.dx < 256 && -256 <= p.dy < 256
  {
    Packet(Bit(b0, 0), Bit(b0, 1), Bit(b0, 2), Bit(b0, 6), Bit(b0, 7),
           if Bit(b0, 4) then -256 + b1 as int else b1,
           if Bit(b0, 5) then -256 + b2 as int else b2)
  }

  /** The fields of a packet in numbers: buttons in bits 0 to 2, signs in bits 4
      and 5, overflows in bits 6 and 7, and nine-bit displacements. */
  lemma ParseLaw(b0: byte, b1: byte, b2: byte)
    ensures var p := Parse(b0, b1, b2);
            && (p.lb <==> b0 % 2 == 1) && (p.rb <==> b0 / 2 % 2 == 1) && (p.mb <==> b0 / 4 % 2 == 1)
            && (p.xOv <==> b0 / 64 % 2 == 1) && (p.yOv <==> b0 / 128 == 1)
            && p.dx == b1 - (if b0 / 16 % 2 == 1 then 256 else 0)
            && p.dy == b2 - (if b0 / 32 % 2 == 1 then 256 else 0)
  {
  }

  /** `mouse_ih`: a bad status leaves the previous byte in place. */
  function Latch(a: Assembler, p: Port): byte {
    if MouseStatusOk(p.status) then p.data else a.latch
  }

  /** One mouse interrupt.  The latched byte is stored unless it would start a
      packet without bit 3; three stored bytes are a packet. */
  function Feed(a: Assembler, p: Port): (r: (Assembler, Option<Packet>))
    requires a.counter < 3
    ensures r.0.counter < 3
  {
    var b := Latch(a, p);
    var l := a.(latch := b);
    if a.counter == 0 && !Bit(b, 3) then (l, None)
    else
      match a.counter
      case 0 => (l.(b0 := b, counter := 1), None)
      case 1 => (l.(b1 := b, counter := 2), None)
      case _ => (l.(b2 := b, counter := 0), Some(Parse(a.b0, a.b1, b)))
  }

  function Assemble(a: Assembler, ps: seq<Port>): (r: (Assembler, seq<Packet>))
    requires a.counter < 3
    ensures r.0.counter < 3
    decreases |ps|
  {
    if ps == [] then (a, [])
    else
      var (b, out) := Feed(a, ps[0]);
      var (z, rest) := Assemble(b, ps[1..]);
      (z, if out.Some? then [out.value] + rest else rest)
  }

  /** How many interrupts stored nothing. */
  function Dropped(a: Assembler, ps: seq<Port>): nat
    requires a.counter < 3
    decreases |ps|
  {
    if ps == [] then 0
    else (if a.counter == 0 && !Bit(Latch(a, ps[0]), 3) then 1 else 0) + Dropped(Feed(a, ps[0]).0, ps[1..])
  }

  /** Every byte fed ends in a packet, is dropped, or is still pending. */
  lemma {:induction false} BytesConserved(a: Assembler, ps: seq<Port>)
    requires a.counter < 3
    ensures a.counter + |ps| == 3 * |Assemble(a, ps).1| + Dropped(a, ps) + Assemble(a, ps).0.counter
    decreases |ps|
  {
    if ps != [] { BytesConserved(Feed(a, ps[0]).0, ps[1..]); }
  }

  // ------------------------------------------------------------- round trip

  function Flag(b: bool, weight: nat): nat { if b then weight else 0 }

  predicate Encodable(p: Packet) { -256 <= p.dx < 256 && -256 <= p.dy < 256 }

  /** The standard three-byte packet: flags with bit 3 set, then the low eight
      bits of each two's-complement displacement. */
  function Header(p: Packet): byte
    requires Encodable(p)
  {
    Flag(p.lb, 1) + Flag(p.rb, 2) + Flag(p.mb, 4) + 8 + Flag(p.dx < 0, 16) + Flag(p.dy < 0, 32)
    + Flag(p.xOv, 64) + Flag(p.yOv, 128)
  }

  function Encode(p: Packet): seq<byte>
    requires Encodable(p)
  {
    [Header(p), p.dx % 0x100, p.dy % 0x100]
  }

  function EncodeAll(ps: seq<Packet>): seq<byte>
    requires forall i :: 0 <= i < |ps| ==> Encodable(ps[i])
  {
    if ps == [] then [] else Encode(ps[0]) + EncodeAll(ps[1..])
  }

  lemma NibbleBits(low: nat, high: nat)
    requires low < 16 && high < 16
    ensures var x: byte := low + 16 * high;
            && Bit(x, 0) == Bit(low, 0) && Bit(x, 1) == Bit(low, 1)
            && Bit(x, 2) == Bit(low, 2) && Bit(x, 3) == Bit(low, 3)
            && Bit(x, 4) == Bit(high, 0) && Bit(x, 5) == Bit(high, 1)
            && Bit(x, 6) == Bit(high, 2) && Bit(x, 7) == Bit(high, 3)
  {
    var x := low + 16 * high;
    assert x / 2 == low / 2 + 8 * high;
    assert x / 4 == low / 4 + 4 * high;
    assert x / 8 == low / 8 + 2 * high;
    assert x / 16 == high;
    assert x / 32 == high / 2;
    assert x / 64 == high / 4;
    assert x / 128 == high / 8;
  }

  function Nibble(a: bool, b: bool, c: bool, d: bool): nat {
    Flag(a, 1) + Flag(b, 2) + Flag(c, 4) + Flag(d, 8)
  }

  lemma NibbleFlags(a: bool, b: bool, c: bool, d: bool)
    ensures var x := Nibble(a, b, c, d);
            && x < 16 && Bit(x, 0) == a && Bit(x, 1) == b && Bit(x, 2) == c && Bit(x, 3) == d
  {
  }

  lemma HeaderBits(p: Packet)
    requires Encodable(p)
    ensures var h := Header(p);
            && Bit(h, 0) == p.lb && Bit(h, 1) == p.rb && Bit(h, 2) == p.mb && Bit(h, 3)
            && Bit(h, 4) == (p.dx < 0) && Bit(h, 5) == (p.dy < 0) && Bit(h, 6) == p.xOv && Bit(h, 7) == p.yOv
  {
    hide Bit;
    var low := Nibble(p.lb, p.rb, p.mb, true);
    var high := Nibble(p.dx < 0, p.dy < 0, p.xOv, p.yOv);
    NibbleFlags(p.lb, p.rb, p.mb, true);
    NibbleFlags(p.dx < 0, p.dy < 0, p.xOv, p.yOv);
    NibbleBits(low, high);
    assert Header(p) == low + 16 * high;
  }

  lemma ParseEncode(p: Packet)
    requires Encodable(p)
    ensures var e := Encode(p); Bit(e[0], 3) && Parse(e[0], e[1], e[2]) == p
  {
    HeaderBits(p);
    hide Header, Bit;
  }

  ghost predicate ReadAs(ps: seq<Port>, bytes: seq<byte>) {
    && |ps| == |bytes|
    && forall i :: 0 <= i < |ps| ==> MouseStatusOk(ps[i].status) && ps[i].data == bytes[i]
  }

  lemma {:induction false} SkipJunk(a: Assembler, ps: seq<Port>, junk: nat)
    requires a.counter == 0 && junk <= |ps|
    requires forall i :: 0 <= i < junk ==> MouseStatusOk(ps[i].status) && !Bit(ps[i].data, 3)
    ensures exists b: Assembler :: b.counter == 0 && Assemble(a, ps) == Assemble(b, ps[junk..])
    decreases junk
  {
    hide MouseStatusOk, Bit;
    if junk == 0 {
      assert ps[0..] == ps;
    } else {
      var c := Feed(a, ps[0]).0;
      SkipJunk(c, ps[1..], junk - 1);
      assert ps[1..][junk - 1..] == ps[junk..];
    }
  }

  lemma FeedThree(a: Assembler, ps: seq<Port>, p: Packet)
    requires a.counter == 0 && Encodable(p) && |ps| >= 3 && ReadAs(ps[..3], Encode(p))
    ensures exists b: Assembler :: b.counter == 0 &&
              Assemble(a, ps) == (Assemble(b, ps[3..]).0, [p] + Assemble(b, ps[3..]).1)
  {
    ParseEncode(p);
    hide MouseStatusOk, Bit, Parse, Header;
    var e := Encode(p);
    assert ps[..3][0] == ps[0] && ps[..3][1] == ps[1] && ps[..3][2] == ps[2];
    var a1 := Feed(a, ps[0]).0;
    var a2 := Feed(a1, ps[1]).0;
    var a3 := Feed(a2, ps[2]).0;
    assert Feed(a2, ps[2]).1 == Some(p);
    assert ps[1..][1..] == ps[2..] && ps[2..][1..] == ps[3..];
    assert Assemble(a2, ps[2..]).1 == [p] + Assemble(a3, ps[3..]).1;
    assert Assemble(a1, ps[1..]) == Assemble(a2, ps[2..]);
    assert Assemble(a, ps) == Assemble(a1, ps[1..]);
  }

  lemma {:induction false} StreamRoundTrip(a: Assembler, ps: seq<Port>, packets: seq<Packet>)
    requires a.counter == 0
    requires forall i :: 0 <= i < |packets| ==> Encodable(packets[i])
    requires ReadAs(ps, EncodeAll(packets))
    ensures Assemble(a, ps).1 == packets && Assemble(a, ps).0.counter == 0
    decreases |packets|
  {
    hide Encodable, MouseStatusOk;
    if packets != [] {
      var rest := EncodeAll(packets[1..]);
      assert forall i :: 0 <= i < |rest| ==> rest[i] == EncodeAll(packets)[i + 3];
      FeedThree(a, ps, packets[0]);
      var b: Assembler :| b.counter == 0 &&
        Assemble(a, ps) == (Assemble(b, ps[3..]).0, [packets[0]] + Assemble(b, ps[3..]).1);
      StreamRoundTrip(b, ps[3..], packets[1..]);
    }
  }

  /** After any bytes with bit 3 clear, a standard packet stream read with good
      status is decoded to exactly the packets that were sent. */
  lemma {:induction false} MouseRoundTrip(a: Assembler, ps: seq<Port>, junk: seq<byte>, packets: seq<Packet>)
    requires a.counter == 0
    requires forall i :: 0 <= i < |junk| ==> !Bit(junk[i], 3)
    requires forall i :: 0 <= i < |packets| ==> Encodable(packets[i])
    requires ReadAs(ps, junk + EncodeAll(packets))
    ensures Assemble(a, ps).1 == packets && Assemble(a, ps).0.counter == 0
  {
    hide Encodable, MouseStatusOk, Bit, Feed;
    var all := junk + EncodeAll(packets);
    forall i | 0 <= i < |junk|
      ensures MouseStatusOk(ps[i].status) && !Bit(ps[i].data, 3)
    {
      assert all[i] == junk[i];
    }
    SkipJunk(a, ps, |junk|);
    var b: Assembler :| b.counter == 0 && Assemble(a, ps) == Assemble(b, ps[|junk|..]);
    forall i | 0 <= i < |EncodeAll(packets)|
      ensures MouseStatusOk(ps[|junk|..][i].status) && ps[|junk|..][i].data == EncodeAll(packets)[i]
    {
      assert all[|junk| + i] == EncodeAll(packets)[i];
    }
    StreamRoundTrip(b, ps[|junk|..], packets);
  }

  /** An interrupt with a bad status is not skipped: the caller stores the
      previous byte once more, as if the device had sent it again.  It leaves
      everything as it was if and only if no packet is under way and that byte
      could not start one. */
  lemma BadStatusRepeatsByte(a: Assembler, p: Port, good: byte)
    requires a.counter < 3 && !MouseStatusOk(p.status) && MouseStatusOk(good)
    ensures Feed(a, p) == Feed(a, Port(good, a.latch))
    ensures a.counter > 0 ==> Feed(a, p).0.counter == (a.counter + 1) % 3
    ensures Feed(a, p) == (a, None) <==> a.counter == 0 && !Bit(a.latch, 3)
  {
    hide MouseStatusOk, Bit, Parse;
  }

  /** `mouse_test_packet`: stop after `cnt` packets, or when the interrupts run
      out. */
  method TestPackets(cnt: nat, ps: seq<Port>, start: Assembler) returns (used: nat, out: seq<Packet>)
    requires start.counter == 0
    ensures used <= |ps|
    ensures out == Assemble(start, ps[..used]).1 && |out| <= cnt
    ensures used == |ps| || |out| == cnt
    ensures cnt > 0 && |out| == cnt ==> used > 0 && |Assemble(start, ps[..used - 1]).1| == cnt - 1
  {
    var a, left := start, cnt;
    used, out := 0, [];
    while left > 0 && used < |ps|
      invariant used <= |ps| && a.counter < 3
      invariant (a, out) == Assemble(start, ps[..used])
      invariant |out| + left == cnt
      invariant left == 0 && cnt > 0 ==> used > 0 && |Assemble(start, ps[..used - 1]).1| == cnt - 1
      decreases |ps| - used
    {
      AssembleSnoc(start, ps[..used], ps[used]);
      assert ps[..used + 1] == ps[..used] + [ps[used]];
      var (b, r) := Feed(a, ps[used]);
      a := b;
      if r.Some? {
        left := left - 1;
        out := out + [r.value];
      }
      used := used + 1;
      assert ps[..used][..used - 1] == ps[..used - 1];
    }
    assert used == |ps| ==> ps[..used] == ps;
  }

  lemma {:induction false} AssembleSnoc(a: Assembler, ps: seq<Port>, p: Port)
    requires a.counter < 3
    ensures var (b, out) := Assemble(a, ps); var (c, r) := Feed(b, p);
            Assemble(a, ps + [p]) == (c, if r.Some? then out + [r.value] else out)
    decreases |ps|
  {
    hide Feed;
    if ps == [] {
      var (c, last) := Feed(a, p);
      assert ps + [p] == [p] && [p][1..] == [];
      if last.Some? {
        assert Assemble(a, [p]) == (c, [last.value] + []);
        assert [last.value] + [] == [] + [last.value];
      } else {
        assert Assemble(a, [p]) == (c, []);
      }
    } else {
      assert (ps + [p])[1..] == ps[1..] + [p];
      var (a1, first) := Feed(a, ps[0]);
      var (b, rest) := Assemble(a1, ps[1..]);
      var last := Feed(b, p).1;
      AssembleSnoc(a1, ps[1..], p);
      if first.Some? && last.Some? {
        assert ([first.value] + rest) + [last.value] == [first.value] + (rest + [last.value]);
      }
    }
  }

  // ----------------------------------------------------------------- cursor

  datatype Cursor = Cursor(x: u16, y: u16)

  const MARGIN: int := 30

  /** One axis of `mouseMovement` after the 16-bit addition: the unsigned
      comparisons with `res - 30` and 30, in the source's order. */
  function ClampAxis(c: u16, res: nat): u16 {
    var hi := W32(res - MARGIN);
    var low := if c >= hi then W16(hi) else c;
    if low <= MARGIN then MARGIN else low
  }

  function MoveCursor(h: nat, v: nat, c: Cursor, p: Packet): Cursor {
    Cursor(ClampAxis(W16(c.x + W16(p.dx)), h), ClampAxis(W16(c.y - W16(p.dy)), v))
  }

  predicate InMargins(res: nat, c: int) { MARGIN <= c <= res - MARGIN }

  predicate CursorInside(h: nat, v: nat, c: Cursor) { InMargins(h, c.x) && InMargins(v, c.y) }

  function Clamp(c: int, res: nat): int {
    if c < MARGIN then MARGIN else if c > res - MARGIN then res - MARGIN else c
  }

  /** Where the clamps send a coordinate.  Below 60 pixels the margins cross, and
      below 30 the unsigned right margin is out of reach. */
  function Bounded(x: u16, res: u16): u16 {
    if res < MARGIN then (if x < MARGIN then MARGIN else x)
    else if res < 2 * MARGIN then MARGIN
    else Clamp(x, res)
  }

  /** The exact law of one axis, at every resolution and from every place: the
      clamps act on the wrapped sum, which is the mathematical clamp of the sum
      exactly when the sum did not wrap, or when that makes no difference.  A
      coordinate that would become negative lands on the far edge instead. */
  lemma AxisLaw(res: u16, c: u16, d: int)
    requires -256 <= d <= 256
    ensures var r := ClampAxis(W16(c + d), res);
            && r == Bounded(W16(c + d), res)
            && (res >= 60 ==> InMargins(res, r))
            && (res >= 60 ==>
                 (r == Clamp(c + d, res) <==> 0 <= c + d < 0x1_0000 || res == 60 || c + d - 0x1_0000 >= res - MARGIN))
            && (60 <= res <= 0xFF00 && c + d < 0 ==> r == res - MARGIN)
  {
  }

  lemma W16Sum(a: int, b: int)
    ensures W16(a + W16(b)) == W16(a + b) && W16(a - W16(b)) == W16(a - b)
  {
    var k := b / 0x1_0000;
    assert b == k * 0x1_0000 + W16(b);
    assert a + W16(b) == a + b - k * 0x1_0000;
  }

  lemma CursorLaw(h: u16, v: u16, c: Cursor, p: Packet)
    requires Encodable(p)
    ensures var r := MoveCursor(h, v, c, p);
            && r == Cursor(Bounded(W16(c.x + p.dx), h), Bounded(W16(c.y - p.dy), v))
            && (h >= 60 && v >= 60 ==> CursorInside(h, v, r))
            && (60 <= h <= 0xFF00 && InMargins(h, c.x) ==>
                 r.x == if c.x + p.dx >= 0 then Clamp(c.x + p.dx, h) else h - MARGIN)
            && (60 <= v <= 0xFF00 && InMargins(v, c.y) ==>
                 r.y == if c.y - p.dy >= 0 then Clamp(c.y - p.dy, v) else v - MARGIN)
  {
    hide ClampAxis, W16, Bounded;
    W16Sum(c.x, p.dx);
    W16Sum(c.y, p.dy);
    AxisLaw(h, c.x, p.dx);
    AxisLaw(v, c.y, -p.dy);
  }

  function MoveAll(h: nat, v: nat, c: Cursor, ps: seq<Packet>): Cursor
    decreases |ps|
  {
    if ps == [] then c else MoveAll(h, v, MoveCursor(h, v, c, ps[0]), ps[1..])
  }

  /** Over every stream of packets. */
  lemma {:induction false} CursorStaysInside(h: u16, v: u16, c: Cursor, ps: seq<Packet>)
    requires h >= 60 && v >= 60 && CursorInside(h, v, c)
    requires forall i :: 0 <= i < |ps| ==> Encodable(ps[i])
    ensures CursorInside(h, v, MoveAll(h, v, c, ps))
    decreases |ps|
  {
    hide MoveCursor, CursorInside;
    if ps != [] {
      hide Bounded;
      CursorLaw(h, v, c, ps[0]);
      CursorStaysInside(h, v, MoveCursor(h, v, c, ps[0]), ps[1..]);
    }
  }
}
