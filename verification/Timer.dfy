/** Programming the 8254: the control word, the divisor bytes and the rate the
    counter then produces. */
module Timer {
  import opened Words

  const TIMER_FREQ: nat := 1193182
  const TIMER_CTRL: nat := 0x43
  const LSB_MSB: nat := 0x30

  datatype Write = Write(port: nat, value: byte)

  /** `timer << 6 | TIMER_LSB_MSB | conf & 0x0F`, truncated to a byte. */
  function ControlWord(timer: byte, conf: byte): byte {
    BitOr(BitOr(timer * 64, LSB_MSB), conf % 16) % 0x100
  }

  /** `TIMER_RB_CMD | TIMER_RB_COUNT_ | TIMER_RB_SEL(timer)`. */
  function ReadBack(timer: nat): byte
    requires timer <= 2
  {
    ReadBackBits(timer);
    BitOr(BitOr(0xC0, 0x20), Pow2(timer + 1))
  }

  lemma ReadBackBits(timer: nat)
    requires timer <= 2
    ensures BitOr(BitOr(0xC0, 0x20), Pow2(timer + 1)) == 0xE0 + Pow2(timer + 1)
    ensures Pow2(timer + 1) == if timer == 0 then 2 else if timer == 1 then 4 else 8
  {
    SmallPowers();
    BitOrDisjoint(3, 6, 0x20);
    BitOrDisjoint(7, 5, Pow2(timer + 1));
  }

  /** The read-back command latches the status and not the count, of the one
      timer asked for. */
  lemma ReadBackValue(timer: nat)
    requires timer <= 2
    ensures ReadBack(timer) == 0xE0 + if timer == 0 then 2 else if timer == 1 then 4 else 8
  {
    ReadBackBits(timer);
    hide BitOr, Pow2;
  }

  /** The control word selects the timer, asks for the low byte then the high
      byte, and keeps the four configuration bits that were read back. */
  lemma ControlWordFields(timer: byte, conf: byte)
    ensures var w := ControlWord(timer, conf);
            w / 64 == timer % 4 && w / 16 % 4 == 3 && w % 16 == conf % 16
  {
    hide BitOr, Pow2;
    assert BitOr(timer * 64, LSB_MSB) == timer * 64 + LSB_MSB by {
      SmallPowers();
      BitOrDisjoint(timer, 6, LSB_MSB);
    }
    assert BitOr(timer * 64 + LSB_MSB, conf % 16) == timer * 64 + LSB_MSB + conf % 16 by {
      SmallPowers();
      assert timer * 64 + LSB_MSB == (timer * 4 + 3) * 16;
      BitOrDisjoint(timer * 4 + 3, 4, conf % 16);
    }
    Fields(timer, conf % 16);
  }

  lemma Fields(timer: byte, low: nat)
    requires low < 16
    ensures var w := (timer * 64 + 48 + low) % 0x100;
            w / 64 == timer % 4 && w / 16 % 4 == 3 && w % 16 == low
  {
    var sel := timer % 4;
    assert timer * 64 + 48 + low == timer / 4 * 0x100 + (sel * 64 + 48 + low);
    assert (timer * 64 + 48 + low) % 0x100 == sel * 64 + 48 + low;
    assert (sel * 64 + 48 + low) / 16 == sel * 4 + 3;
  }

  lemma SmallPowers()
    ensures Pow2(4) == 16 && Pow2(5) == 32 && Pow2(6) == 64
  {
    assert Pow2(2) == 4 && Pow2(3) == 8;
    Pow2Add(2, 2);
    Pow2Add(3, 2);
    Pow2Add(3, 3);
  }

  /** The 16-bit divisor, as truncated on assignment. */
  function Divisor(freq: u32): u16
    requires freq > 0
  {
    W16(TIMER_FREQ / freq)
  }

  /** `conf` is what the status port answers; for a timer that does not exist
      it is never read, and the control word is written all the same. */
  method SetFrequency(timer: byte, freq: u32, conf: byte) returns (failed: bool, log: seq<Write>)
    ensures failed <==> timer > 2 || freq < 18
    ensures timer > 2 ==> log == [Write(0x43, ControlWord(timer, conf))]
    ensures timer <= 2 ==>
      && |log| == (if failed then 2 else 4)
      && log[0] == Write(0x43, ReadBack(timer)) && log[1] == Write(0x43, ControlWord(timer, conf))
    ensures !failed ==> log[2].port == log[3].port == 0x40 + timer
                        && log[2].value + 0x100 * log[3].value == (1193182 / freq) % 0x1_0000
  {
    log := [];
    if timer <= 2 { log := log + [Write(TIMER_CTRL, ReadBack(timer))]; }
    log := log + [Write(TIMER_CTRL, ControlWord(timer, conf))];
    var port;
    if timer == 0 {
      port := 0x40;
    } else if timer == 1 {
      port := 0x41;
    } else if timer == 2 {
      port := 0x42;
    } else {
      return true, log;
    }
    if freq < 18 { return true, log; }
    var divisor := Divisor(freq);
    var lsb: byte, msb: byte := divisor % 0x100, divisor / 0x100;
    log := log + [Write(port, lsb), Write(port, msb)];
    failed := false;
  }

  /** The counter loaded with zero counts 65536 (8254 datasheet, Mode
      Definitions). */
  function Count(d: u16): nat { if d == 0 then 0x1_0000 else d }

  /** Of all the frequencies `timer_set_frequency` accepts, the count is the
      right quotient exactly from 19 to the clock itself: 18 is truncated, and
      past the clock the counter runs at its slowest. */
  lemma DivisorExactIff(freq: u32)
    requires freq >= 18
    ensures var n := Count(Divisor(freq));
            n * freq <= 1193182 < (n + 1) * freq <==> 19 <= freq <= 1193182
  {
    if freq == 18 {
      assert Divisor(18) == 751;
    } else if freq > TIMER_FREQ {
      assert TIMER_FREQ / freq == 0 by { DivWindow(TIMER_FREQ, freq, 0); }
      assert Count(Divisor(freq)) == 0x1_0000;
    } else {
      var n := TIMER_FREQ / freq;
      DivWindow(TIMER_FREQ, freq, n);
      if n >= 0x1_0000 {
        MulMono(0x1_0000, n, freq);
      }
      if n <= 0 {
        MulMono(n, 0, freq);
      }
      assert (n + 1) * freq == n * freq + freq;
    }
  }

  /** The rate is never below the one asked for, and above it by less than one
      part in the divisor. */
  lemma RateBound(freq: u32)
    requires 19 <= freq <= 1193182
    ensures Divisor(freq) > 0
    ensures var d := Divisor(freq) as real; var rate := 1193182.0 / d;
            freq as real <= rate < freq as real + freq as real / d
  {
    DivisorExactIff(freq);
    assert Divisor(freq) > 0 by {
      var n := TIMER_FREQ / freq;
      DivWindow(TIMER_FREQ, freq, n);
      if n >= 0x1_0000 { MulMono(0x1_0000, n, freq); }
      if n <= 0 { MulMono(n, 0, freq); }
    }
    hide Divisor;
    var d := Divisor(freq);
    RealQuotient(freq as real, d as real, TIMER_FREQ as real);
  }

  lemma RealQuotient(f: real, d: real, n: real)
    requires d > 0.0 && d * f <= n < (d + 1.0) * f
    ensures f <= n / d < f + f / d
  {
    var r := n / d;
    assert r * d == n;
    var e := f / d;
    assert e * d == f;
    assert (f + e) * d == f * d + f;
    RealMono(r, f, d);
    RealMono(r, f + e, d);
  }

  lemma RealMono(a: real, b: real, d: real)
    requires d > 0.0
    ensures a < b <==> a * d < b * d
  {
  }
}
