/** The idle-timeout loops of the mouse and keyboard labs. */
module Idle {
  import opened Words
  import opened Mouse
  import opened Console

  /** A notification: the timer bit, and what the device port holds if the
      device bit is set.  Failed receives and other messages carry neither. */
  datatype Notice = Notice(timer: bool, device: Option<Port>)

  const ESC_BREAK: byte := 0x81

  function Last<T>(s: seq<T>): T
    requires s != []
  {
    s[|s| - 1]
  }

  function Init<T>(s: seq<T>): (r: seq<T>)
    requires s != []
    ensures |r| < |s|
  {
    s[..|s| - 1]
  }

  function One(b: bool): nat { if b then 1 else 0 }

  /** Ticks since the last mouse event: the timer bit is served first. */
  function MouseQuiet(es: seq<Notice>): nat {
    if es == [] then 0
    else if Last(es).device.Some? then 0
    else MouseQuiet(Init(es)) + One(Last(es).timer)
  }

  /** Ticks since the last key event: the keyboard bit is served first. */
  function KeyQuiet(es: seq<Notice>): nat {
    if es == [] then 0
    else (if Last(es).device.Some? then 0 else KeyQuiet(Init(es))) + One(Last(es).timer)
  }

  /** What the device ports held, in order. */
  function Ports(es: seq<Notice>): seq<Port> {
    if es == [] then []
    else Ports(Init(es)) + if Last(es).device.Some? then [Last(es).device.value] else []
  }

  /** The last scan code accepted. */
  function ScanCode(es: seq<Notice>, first: byte): byte {
    if es == [] then first
    else
      var e := Last(es);
      if e.device.Some? && KeyStatusOk(e.device.value.status) then e.device.value.data
      else ScanCode(Init(es), first)
  }

  /** The last scan code accepted, outright. */
  lemma {:induction false} ScanCodeIs(before: seq<Notice>, after: seq<Notice>, first: byte)
    requires forall i :: 0 <= i < |after| ==> after[i].device.Some? ==>
               !(after[i].device.value.status % 2 == 1 && after[i].device.value.status < 32)
    ensures before == [] ==> ScanCode(before + after, first) == first
    ensures before != [] && Last(before).device.Some?
            && Last(before).device.value.status % 2 == 1 && Last(before).device.value.status < 32
            ==> ScanCode(before + after, first) == Last(before).device.value.data
    decreases |after|
  {
    if after == [] {
      assert before + after == before;
      if before != [] && Last(before).device.Some? { StatusFilters(Last(before).device.value.status); }
    } else {
      var es := before + after;
      assert Init(es) == before + Init(after) && Last(es) == Last(after);
      assert Last(after) == after[|after| - 1];
      if Last(es).device.Some? { StatusFilters(Last(es).device.value.status); }
      ScanCodeIs(before, Init(after), first);
      hide KeyStatusOk;
    }
  }

  /** What the ports held, outright: one for every notification with the device
      bit, in order. */
  lemma {:induction false} PortsJoin(es: seq<Notice>, fs: seq<Notice>)
    ensures Ports(es + fs) == Ports(es) + Ports(fs)
    ensures |es| == 1 ==> Ports(es) == if es[0].device.Some? then [es[0].device.value] else []
    decreases |fs|
  {
    if |es| == 1 { assert Init(es) == []; }
    if fs == [] {
      assert es + fs == es;
    } else {
      assert Init(es + fs) == es + Init(fs) && Last(es + fs) == Last(fs);
      PortsJoin(es, Init(fs));
    }
  }

  lemma SecondPassed(q: nat)
    ensures (q + 1) / 60 == q / 60 + if (q + 1) % 60 == 0 then 1 else 0
  {
  }

  /** `mouse_test_async`: ends exactly at the first notification after which
      60 ticks for every second of `idleTime` have passed without a mouse
      event, and prints the packets assembled until then. */
  method MouseTestAsync(idleTime: byte, es: seq<Notice>, start: Assembler)
    returns (used: nat, timedOut: bool, out: seq<Packet>)
    requires start.counter == 0
    ensures used <= |es|
    ensures timedOut <==> MouseQuiet(es[..used]) == 60 * idleTime
    ensures !timedOut ==> used == |es|
    ensures forall j :: 0 <= j < used ==> MouseQuiet(es[..j]) < 60 * idleTime
    ensures out == Assemble(start, Ports(es[..used])).1
  {
    hide Feed, Assemble;
    var left, total, a := idleTime as int, 0, start;
    assert Assemble(start, []) == (start, []) by { NothingFed(start); }
    used, out := 0, [];
    while left > 0 && used < |es|
      invariant used <= |es| && a.counter < 3
      invariant total == MouseQuiet(es[..used]) && total <= 60 * idleTime
      invariant left == idleTime - total / 60
      invariant forall j :: 0 <= j < used ==> MouseQuiet(es[..j]) < 60 * idleTime
      invariant (a, out) == Assemble(start, Ports(es[..used]))
      decreases |es| - used
    {
      var e := es[used];
      ghost var next := es[..used + 1];
      assert Last(next) == e && Init(next) == es[..used];
      SecondPassed(total);
      if e.timer {
        total := total + 1;
        if total % 60 == 0 { left := left - 1; }
      }
      if e.device.Some? {
        left := idleTime;
        total := 0;
        AssembleSnoc(start, Ports(es[..used]), e.device.value);
        assert Ports(next) == Ports(es[..used]) + [e.device.value];
        var (b, packet) := Feed(a, e.device.value);
        a := b;
        if packet.Some? { out := out + [packet.value]; }
      } else {
        assert Ports(next) == Ports(es[..used]);
      }
      used := used + 1;
    }
    timedOut := left == 0;
  }

  lemma NothingFed(a: Assembler)
    requires a.counter < 3
    ensures Assemble(a, []) == (a, [])
  {
  }

  datatype Ending = Escape | TimedOut | StillWaiting

  /** `kbd_test_timed_scan`: ends at the first notification after which Esc was
      released or 60 ticks per second of `n` passed without a key event. */
  method TimedScan(n: byte, es: seq<Notice>, first: byte) returns (used: nat, ending: Ending)
    ensures used <= |es|
    ensures ending == Escape <==> ScanCode(es[..used], first) == 0x81
    ensures ending == TimedOut <==> ScanCode(es[..used], first) != 0x81 && KeyQuiet(es[..used]) == 60 * n
    ensures ending == StillWaiting ==> used == |es|
    ensures forall j :: 0 <= j < used ==> ScanCode(es[..j], first) != 0x81 && KeyQuiet(es[..j]) < 60 * n
  {
    var left, total, scan := n as int, 0, first;
    used := 0;
    while scan != ESC_BREAK && left > 0 && used < |es|
      invariant used <= |es|
      invariant scan == ScanCode(es[..used], first)
      invariant total == KeyQuiet(es[..used]) && total <= 60 * n
      invariant left == n - total / 60
      invariant forall j :: 0 <= j < used ==> ScanCode(es[..j], first) != ESC_BREAK && KeyQuiet(es[..j]) < 60 * n
      decreases |es| - used
    {
      var e := es[used];
      ghost var next := es[..used + 1];
      assert Last(next) == e && Init(next) == es[..used];
      SecondPassed(total);
      if e.device.Some? {
        if KeyStatusOk(e.device.value.status) { scan := e.device.value.data; }
        left := n;
        total := 0;
      }
      if e.timer {
        total := total + 1;
        if total % 60 == 0 { left := left - 1; }
      }
      used := used + 1;
    }
    ending := if scan == ESC_BREAK then Escape else if left == 0 then TimedOut else StillWaiting;
  }

  /** The quiet count is what was ticked since the last device event, or since
      the beginning if there was none, in the order each loop serves the bits of
      one notification: the tick of the device's own notification counts for the
      keyboard and not for the mouse. */
  lemma {:induction false} QuietCounts(before: seq<Notice>, after: seq<Notice>)
    requires before == [] || Last(before).device.Some?
    requires forall i :: 0 <= i < |after| ==> after[i].device.None?
    ensures MouseQuiet(before + after) == TickCount(after)
    ensures KeyQuiet(before + after) == TickCount(after) + if before == [] then 0 else One(Last(before).timer)
    decreases |after|
  {
    var es := before + after;
    if after == [] {
      assert es == before;
    } else {
      assert Init(es) == before + Init(after) && Last(es) == Last(after);
      QuietCounts(before, Init(after));
    }
  }

  function TickCount(es: seq<Notice>): nat {
    if es == [] then 0 else TickCount(Init(es)) + One(Last(es).timer)
  }
}
