/** Machine words, little-endian pixels and the few division facts the
    address arithmetic needs. */
module Words {
  type byte = x: int | 0 <= x < 0x100
  type u16 = x: int | 0 <= x < 0x1_0000
  type u32 = x: int | 0 <= x < 0x1_0000_0000

  /** Truncation to 16 bits, as on assignment to a `uint16_t`. */
  function W16(x: int): u16 { x % 0x1_0000 }

  /** Truncation to 32 bits. */
  function W32(x: int): u32 { x % 0x1_0000_0000 }

  /** Bit `i` of a byte, for `x & BIT(i)`. */
  predicate Bit(x: byte, i: nat)
    requires i < 8
  {
    match i
    case 0 => x % 2 == 1
    case 1 => x / 2 % 2 == 1
    case 2 => x / 4 % 2 == 1
    case 3 => x / 8 % 2 == 1
    case 4 => x / 16 % 2 == 1
    case 5 => x / 32 % 2 == 1
    case 6 => x / 64 % 2 == 1
    case _ => x / 128 == 1
  }

  function Pow2(n: nat): (p: nat)
    ensures p > 0
  {
    if n == 0 then 1 else 2 * Pow2(n - 1)
  }

  /** Bitwise or of two naturals. */
  function BitOr(a: nat, b: nat): nat
    decreases a + b
  {
    if a == 0 && b == 0 then 0
    else (if a % 2 == 1 || b % 2 == 1 then 1 else 0) + 2 * BitOr(a / 2, b / 2)
  }

  lemma {:induction false} Pow2Add(a: nat, b: nat)
    ensures Pow2(a + b) == Pow2(a) * Pow2(b)
  {
    if a == 0 {
    } else {
      Pow2Add(a - 1, b);
      assert Pow2(a + b) == 2 * Pow2((a - 1) + b);
    }
  }

  lemma {:induction false} BitOrZero(a: nat)
    ensures BitOr(a, 0) == a
  {
    if a != 0 {
      BitOrZero(a / 2);
    }
  }

  /** Or-ing in a value below the lowest set bit is addition. */
  lemma {:induction false} BitOrDisjoint(a: nat, k: nat, b: nat)
    requires b < Pow2(k)
    ensures BitOr(a * Pow2(k), b) == a * Pow2(k) + b
  {
    if k == 0 {
      BitOrZero(a);
    } else {
      var q := a * Pow2(k - 1);
      assert a * Pow2(k) == 2 * q by {
        assert Pow2(k) == 2 * Pow2(k - 1);
      }
      BitOrDisjoint(a, k - 1, b / 2);
      assert (2 * q) / 2 == q && (2 * q) % 2 == 0;
    }
  }

  /** Quotient and remainder by a variable divisor, named so that proofs that
      do not need their definition can hide it. */
  function Quo(a: int, d: int): (q: int)
    requires d > 0
    ensures 0 <= a ==> 0 <= q
  {
    a / d
  }

  function Rem(a: int, d: int): (r: int)
    requires d > 0
    ensures 0 <= r < d
  {
    a % d
  }

  /** The quotient of `k` by `d` is `q` exactly on the window of `d` numbers
      starting at `q * d`. */
  lemma DivWindow(k: int, d: int, q: int)
    requires d > 0
    ensures Quo(k, d) == q <==> q * d <= k < q * d + d
    ensures Quo(k, d) == q ==> Rem(k, d) == k - q * d
  {
    QuoRem(k, d);
    var t := Quo(k, d);
    hide Quo, Rem;
    if t < q {
      MulMono(t + 1, q, d);
    } else if t > q {
      MulMono(q + 1, t, d);
    }
  }

  lemma QuoRem(k: int, d: int)
    requires d > 0
    ensures k == Quo(k, d) * d + Rem(k, d)
  {
  }

  lemma MulMono(a: int, b: int, c: int)
    requires a <= b && 0 <= c
    ensures a * c <= b * c
  {
  }
}
