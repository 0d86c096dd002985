/** Splitting a colour into channels of any mask size and joining them again
    (lab5/lab5.c). */
module Colour {
  import opened Words

  /** The mask sizes of a direct-colour mode. */
  datatype Masks = Masks(r: nat, g: nat, b: nat) {
    ghost predicate Valid() { 1 <= r <= 8 && 1 <= g <= 8 && 1 <= b <= 8 }

    function Total(): nat { r + g + b }
  }

  datatype Channels = Channels(r: nat, g: nat, b: nat)

  ghost predicate InRange(k: Masks, c: Channels) {
    c.r < Pow2(k.r) && c.g < Pow2(k.g) && c.b < Pow2(k.b)
  }

  /** Left shift of a 32-bit word. */
  function Shl(c: u32, n: nat): u32 { W32(c * Pow2(n)) }

  function Shr(c: u32, n: nat): nat { Quo(c, Pow2(n)) }

  /** `get_color_components`, each result truncated to a byte. */
  function Split(k: Masks, color: u32): Channels
    requires k.Total() <= 32
  {
    var up := 32 - k.Total();
    Channels(Shr(Shl(color, up), up + k.b + k.g) % 0x100,
             Shr(Shl(color, up + k.r), up + k.r + k.b) % 0x100,
             Shr(Shl(color, up + k.r + k.g), up + k.r + k.g) % 0x100)
  }

  /** `R << (b + g) | G << b | B`. */
  function Join(k: Masks, c: Channels): nat {
    BitOr(BitOr(c.r * Pow2(k.b + k.g), c.g * Pow2(k.b)), c.b)
  }

  /** The non-packed branch of `get_color`, in 32-bit unsigned arithmetic. */
  function Shaded(k: Masks, first: u32, step: byte, row: u32, col: u32): Channels
    requires k.Total() <= 32
  {
    var c := Split(k, first);
    Channels(Rem(W32(c.r + W32(col * step)), Pow2(k.r)),
             Rem(W32(c.g + W32(row * step)), Pow2(k.g)),
             Rem(W32(c.b + W32(W32(col + row) * step)), Pow2(k.b)))
  }

  function GetColor(k: Masks, first: u32, step: byte, row: u32, col: u32): nat
    requires k.Total() <= 32
  {
    Join(k, Shaded(k, first, step, row, col))
  }

  // -------------------------------------------------------------- arithmetic

  lemma RemUnique(a: int, d: int, q: int, r: int)
    requires d > 0 && a == q * d + r && 0 <= r < d
    ensures Quo(a, d) == q && Rem(a, d) == r
  {
    DivWindow(a, d, q);
  }

  lemma RemScale(a: int, d: int, k: int)
    requires d > 0 && k > 0
    ensures d * k > 0 && Rem(a * k, d * k) == Rem(a, d) * k && Quo(a * k, d * k) == Quo(a, d)
  {
    QuoRem(a, d);
    var q, r := Quo(a, d), Rem(a, d);
    hide Quo, Rem;
    assert a * k == q * (d * k) + r * k by { assert a == q * d + r; }
    MulMono(r + 1, d, k);
    MulMono(0, r, k);
    RemUnique(a * k, d * k, q, r * k);
  }

  lemma QuoOfRem(c: int, lo: int, w: int)
    requires lo > 0 && w > 0
    ensures lo * w > 0 && Quo(Rem(c, lo * w), lo) == Rem(Quo(c, lo), w)
    ensures Rem(Rem(c, lo * w), lo) == Rem(c, lo) && Quo(Quo(c, lo), w) == Quo(c, lo * w)
  {
    QuoRem(c, lo);
    QuoRem(Quo(c, lo), w);
    var q, r := Quo(c, lo), Rem(c, lo);
    var t, u := Quo(q, w), Rem(q, w);
    hide Quo, Rem;
    assert c == t * (lo * w) + (u * lo + r) by { assert c == (t * w + u) * lo + r; }
    MulMono(u + 1, w, lo);
    MulMono(0, u, lo);
    RemUnique(c, lo * w, t, u * lo + r);
    RemUnique(u * lo + r, lo, u, r);
  }

  lemma Pow2Values()
    ensures Pow2(8) == 0x100 && Pow2(32) == 0x1_0000_0000
  {
    assert Pow2(4) == 16;
    Pow2Add(4, 4);
    Pow2Add(8, 8);
    Pow2Add(16, 16);
  }

  lemma {:induction false} Pow2Mono(a: nat, b: nat)
    requires a <= b
    ensures Pow2(a) <= Pow2(b)
  {
    if a < b { Pow2Mono(a, b - 1); }
  }

  /** Shifting left and right by these amounts extracts `w` bits from bit `lo`. */
  lemma ShiftField(c: u32, lo: nat, w: nat)
    requires lo + w <= 32
    ensures Shr(Shl(c, 32 - lo - w), 32 - w) == Rem(Quo(c, Pow2(lo)), Pow2(w))
  {
    var up := 32 - lo - w;
    hide Pow2, Quo, Rem, Shl;
    assert 0x1_0000_0000 == Pow2(lo) * Pow2(w) * Pow2(up) by {
      Pow2Values();
      Pow2Add(lo, w);
      Pow2Add(lo + w, up);
    }
    assert Pow2(32 - w) == Pow2(lo) * Pow2(up) by {
      Pow2Add(lo, up);
      assert 32 - w == lo + up;
    }
    ShlRem(c, up);
    FieldOf(c, Pow2(lo), Pow2(w), Pow2(up));
  }

  lemma ShlRem(c: u32, n: nat)
    ensures Shl(c, n) == Rem(c * Pow2(n), 0x1_0000_0000)
  {
    hide Pow2;
  }

  lemma FieldOf(c: int, lo: int, w: int, up: int)
    requires lo > 0 && w > 0 && up > 0
    ensures lo * up > 0 && lo * w * up > 0
    ensures Quo(Rem(c * up, lo * w * up), lo * up) == Rem(Quo(c, lo), w)
  {
    hide Quo, Rem;
    var m := lo * w;
    RemScale(c, m, up);
    RemScale(Rem(c, m), lo, up);
    QuoOfRem(c, lo, w);
  }

  lemma ByteSized(x: int, w: nat)
    requires w <= 8
    ensures Rem(x, Pow2(w)) % 0x100 == Rem(x, Pow2(w))
  {
    Pow2Values();
    Pow2Mono(w, 8);
    hide Pow2, Rem;
  }

  // ---------------------------------------------------------------- theorems

  /** Each channel is its own field of bits, whatever the mask sizes. */
  lemma SplitFields(k: Masks, color: u32)
    requires k.Valid()
    ensures var c := Split(k, color);
            && c.r == Rem(Quo(color, Pow2(k.b + k.g)), Pow2(k.r))
            && c.g == Rem(Quo(color, Pow2(k.b)), Pow2(k.g))
            && c.b == Rem(color, Pow2(k.b))
            && InRange(k, c)
  {
    ShiftField(color, k.b + k.g, k.r);
    ShiftField(color, k.b, k.g);
    ShiftField(color, 0, k.b);
    ByteSized(Quo(color, Pow2(k.b + k.g)), k.r);
    ByteSized(Quo(color, Pow2(k.b)), k.g);
    ByteSized(color, k.b);
    assert Quo(color, Pow2(0)) == color;
    hide Quo, Rem, Pow2, Shl, Shr;
  }

  lemma Factor(r: int, g: int, p: int, q: int)
    ensures r * (p * q) + g * p == (r * q + g) * p
  {
  }

  lemma JoinSum(k: Masks, c: Channels)
    requires c.g < Pow2(k.g) && c.b < Pow2(k.b)
    ensures Join(k, c) == (c.r * Pow2(k.g) + c.g) * Pow2(k.b) + c.b
  {
    var p, q := Pow2(k.b), Pow2(k.g);
    Pow2Add(k.b, k.g);
    hide Pow2, BitOr;
    Factor(c.r, c.g, p, q);
    MulMono(c.g + 1, q, p);
    BitOrDisjoint(c.r, k.b + k.g, c.g * p);
    BitOrDisjoint(c.r * q + c.g, k.b, c.b);
  }

  /** Decomposing and recomposing a colour keeps all the mask's bits. */
  lemma SplitJoin(k: Masks, color: u32)
    requires k.Valid()
    ensures Join(k, Split(k, color)) == Rem(color, Pow2(k.Total()))
  {
    hide Quo, Rem, Pow2, Split, Join;
    SplitFields(k, color);
    JoinSum(k, Split(k, color));
    assert Pow2(k.b + k.g) == Pow2(k.b) * Pow2(k.g) by { Pow2Add(k.b, k.g); }
    assert Pow2(k.Total()) == Pow2(k.b) * Pow2(k.g) * Pow2(k.r) by {
      Pow2Add(k.b, k.g);
      Pow2Add(k.b + k.g, k.r);
      assert k.Total() == k.b + k.g + k.r;
    }
    Recompose(color, Pow2(k.b), Pow2(k.g), Pow2(k.r));
  }

  lemma Recompose(c: int, lo: int, mid: int, top: int)
    requires lo > 0 && mid > 0 && top > 0
    ensures lo * mid > 0 && lo * mid * top > 0
    ensures (Rem(Quo(c, lo * mid), top) * mid + Rem(Quo(c, lo), mid)) * lo + Rem(c, lo) == Rem(c, lo * mid * top)
  {
    hide Quo, Rem;
    var n := lo * mid;
    TwoFields(c, n, top);
    TwoFields(c, lo, mid);
    Factor(Rem(Quo(c, n), top), Rem(Quo(c, lo), mid), lo, mid);
  }

  lemma TwoFields(c: int, lo: int, w: int)
    requires lo > 0 && w > 0
    ensures lo * w > 0 && Rem(c, lo * w) == Rem(Quo(c, lo), w) * lo + Rem(c, lo)
  {
    hide Quo, Rem;
    QuoOfRem(c, lo, w);
    QuoRem(Rem(c, lo * w), lo);
  }

  /** Composing and decomposing channels is the identity: no channel carries
      into another. */
  lemma JoinSplit(k: Masks, c: Channels)
    requires k.Valid() && InRange(k, c)
    ensures Join(k, c) < 0x100_0000 && Split(k, Join(k, c)) == c
  {
    JoinSum(k, c);
    JoinBound(k, c);
    var n := Join(k, c);
    SplitFields(k, n);
    RemUnique(n, Pow2(k.b), c.r * Pow2(k.g) + c.g, c.b);
    RemUnique(c.r * Pow2(k.g) + c.g, Pow2(k.g), c.r, c.g);
    Pow2Add(k.b, k.g);
    QuoOfRem(n, Pow2(k.b), Pow2(k.g));
    RemUnique(c.r, Pow2(k.r), 0, c.r);
    hide Quo, Rem, Pow2, Split, Join;
  }

  lemma JoinBound(k: Masks, c: Channels)
    requires k.Valid() && InRange(k, c)
    ensures (c.r * Pow2(k.g) + c.g) * Pow2(k.b) + c.b < 0x100_0000
  {
    Pow2Values();
    Pow2Mono(k.r, 8);
    Pow2Mono(k.g, 8);
    Pow2Mono(k.b, 8);
    hide Pow2;
    Below(c.r, c.g, Pow2(k.g), 0x100);
    Below(c.r * Pow2(k.g) + c.g, c.b, Pow2(k.b), 0x1_0000);
  }

  lemma Below(q: nat, r: nat, p: nat, n: nat)
    requires q < n && r < p <= 0x100
    ensures 0 <= q * p + r < n * 0x100
  {
    MulMono(q + 1, n, p);
    MulMono(p, 0x100, n);
    MulMono(0, q, p);
  }

  /** 32-bit wrap-around is invisible modulo a smaller power of two. */
  lemma WrapInvisible(x: int, w: nat)
    requires w <= 32
    ensures Rem(W32(x), Pow2(w)) == Rem(x, Pow2(w))
  {
    Pow2Values();
    Pow2Add(w, 32 - w);
    QuoOfRem(x, Pow2(w), Pow2(32 - w));
    assert W32(x) == Rem(x, Pow2(32));
    hide Quo, Rem, Pow2, W32;
  }

  lemma WrapSum(a: int, x: int)
    ensures W32(a + W32(x)) == W32(a + x)
  {
  }

  lemma OneChannel(a: int, x: int, w: nat)
    requires w <= 32
    ensures Rem(W32(a + W32(x)), Pow2(w)) == Rem(a + x, Pow2(w))
  {
    WrapSum(a, x);
    WrapInvisible(a + x, w);
    hide Rem, Pow2, W32;
  }

  lemma NoCarry(k: Masks, s: Channels, x: int, y: int, z: int)
    requires k.Valid()
    ensures var c := Channels(Rem(W32(s.r + W32(x)), Pow2(k.r)),
                              Rem(W32(s.g + W32(y)), Pow2(k.g)),
                              Rem(W32(s.b + W32(z)), Pow2(k.b)));
            && Join(k, c) < 0x100_0000
            && Split(k, Join(k, c)) == Channels(Rem(s.r + x, Pow2(k.r)), Rem(s.g + y, Pow2(k.g)), Rem(s.b + z, Pow2(k.b)))
  {
    hide Quo, Rem, Pow2, Split, Join, W32;
    OneChannel(s.r, x, k.r);
    OneChannel(s.g, y, k.g);
    OneChannel(s.b, z, k.b);
    JoinSplit(k, Channels(Rem(W32(s.r + W32(x)), Pow2(k.r)),
                          Rem(W32(s.g + W32(y)), Pow2(k.g)),
                          Rem(W32(s.b + W32(z)), Pow2(k.b))));
  }

  /** For every row, column and step, each channel of the pattern colour is the
      start channel plus its own offset, modulo its own size. */
  lemma ShadeLaw(k: Masks, first: u32, step: byte, row: u32, col: u32)
    requires k.Valid()
    ensures var s := Split(k, first); var n := GetColor(k, first, step, row, col);
            && n < 0x100_0000
            && Split(k, n) == Channels(Rem(s.r + col * step, Pow2(k.r)),
                                       Rem(s.g + row * step, Pow2(k.g)),
                                       Rem(s.b + (col + row) * step, Pow2(k.b)))
  {
    hide Quo, Rem, Pow2, Split, Join, W32;
    NoCarry(k, Split(k, first), col * step, row * step, W32(col + row) * step);
    var b := Split(k, first).b;
    WrapProduct(col + row, step);
    OneChannel(b, W32(col + row) * step, k.b);
    OneChannel(b, (col + row) * step, k.b);
  }

  /** The 32-bit sum of row and column has itself wrapped; so does its product. */
  lemma WrapProduct(x: nat, step: byte)
    ensures W32(W32(x) * step) == W32(x * step)
  {
    var k := x / 0x1_0000_0000;
    assert x == k * 0x1_0000_0000 + W32(x);
    assert x * step == (k * step) * 0x1_0000_0000 + W32(x) * step;
    WrapMultiple(k * step, W32(x) * step);
  }

  lemma WrapMultiple(k: int, y: int)
    ensures W32(k * 0x1_0000_0000 + y) == W32(y)
  {
  }
}
