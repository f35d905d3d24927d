/**
 * The C integer types of the buffer-info translator and the C operators it
 * applies to them. Dafny integers are unbounded, so every `uint32_t` sum and
 * product is reduced modulo 2^32 here, exactly where C reduces it; `&` is
 * defined on the binary digits of natural numbers and `~` as 2^32 - 1 - m,
 * which equals bitwise NOT on 32 bits.
 */
module CInt {
  const TWO_32: int := 0x1_0000_0000
  const TWO_64: int := 0x1_0000_0000_0000_0000

  /** `uint32_t` */
  type u32 = x: int | 0 <= x < TWO_32
  /** `uint64_t` */
  type u64 = x: int | 0 <= x < TWO_64
  /** `int` of the platforms the plugin is built for (32 bits) */
  type i32 = x: int | -0x8000_0000 <= x < 0x8000_0000

  /** The C expression `a + b` on two `uint32_t` operands. */
  function Add32(a: u32, b: u32): (r: u32)
    ensures a + b < TWO_32 ==> r == a + b
    ensures a + b >= TWO_32 ==> r == a + b - TWO_32
  {
    (a + b) % TWO_32
  }

  /** The C expression `a * b` on two `uint32_t` operands. */
  function Mul32(a: u32, b: u32): (r: u32)
    ensures a * b < TWO_32 ==> r == a * b
  {
    var p := a * b;
    assert 0 <= p by {
      if a > 0 && b > 0 {
        MultipleBounds(a, b);
      }
    }
    assert p < TWO_32 ==> p % TWO_32 == p by {
      if p < TWO_32 {
        ModUnique(p, TWO_32, 0, p);
      }
    }
    p % TWO_32
  }

  /** The C expression `~m` on a `uint32_t` operand: every bit set in `m` is clear in `r` and vice versa. */
  function BitNot32(m: u32): (r: u32)
    ensures m + r == TWO_32 - 1
    ensures BitAnd(m, r) == 0
  {
    Pow2Values();
    ComplementsShareNoBit(m, TWO_32 - 1 - m, 32);
    TWO_32 - 1 - m
  }

  /** The C expression `x & y` on unsigned operands: bit `i` of the result is set iff bit `i` of both is. */
  function BitAnd(x: nat, y: nat): (r: nat)
    ensures r <= x
    decreases x
  {
    if x == 0 then 0
    else (if x % 2 == 1 && y % 2 == 1 then 1 else 0) + 2 * BitAnd(x / 2, y / 2)
  }

  /** Two numbers that add up to 2^n - 1 have no set bit in common. */
  lemma {:induction false} ComplementsShareNoBit(x: nat, y: nat, n: nat)
    requires x + y + 1 == Pow2(n)
    ensures BitAnd(x, y) == 0
  {
    if x != 0 {
      assert n > 0;
      var hx, hy, p := x / 2, y / 2, Pow2(n - 1);
      assert x == 2 * hx + x % 2 && y == 2 * hy + y % 2;
      assert 2 * (hx + hy) + x % 2 + y % 2 + 1 == 2 * p;
      assert x % 2 + y % 2 == 1;
      assert hx + hy + 1 == p;
      ComplementsShareNoBit(hx, hy, n - 1);
    }
  }

  /** 2^n */
  function Pow2(n: nat): (r: nat)
    ensures r >= 1
  {
    if n == 0 then 1 else 2 * Pow2(n - 1)
  }

  lemma {:induction false} Pow2Add(a: nat, b: nat)
    ensures Pow2(a + b) == Pow2(a) * Pow2(b)
  {
    if a > 0 {
      Pow2Add(a - 1, b);
      assert Pow2(a + b) == 2 * Pow2(a - 1 + b);
    }
  }

  lemma Pow2Values()
    ensures Pow2(4) == 16 && Pow2(32) == TWO_32
  {
    assert Pow2(4) == 16 by { assert Pow2(2) == 4; }
    Pow2Add(4, 4);
    Pow2Add(8, 8);
    Pow2Add(16, 16);
  }

  /** A nonzero multiple of a positive `m` is at least `m` away from zero. */
  lemma MultipleBounds(a: int, m: int)
    requires m > 0
    ensures a >= 1 ==> a * m >= m
    ensures a <= -1 ==> a * m <= -m
  {
    if a >= 1 {
      assert (a - 1) * m >= 0;
    } else if a <= -1 {
      assert (-a - 1) * m >= 0;
    }
  }

  /** Quotient and remainder are unique. */
  lemma ModUnique(x: int, m: int, q: int, r: int)
    requires m > 0 && 0 <= r < m && x == q * m + r
    ensures x % m == r && x / m == q
  {
    var q', r' := x / m, x % m;
    assert x == q' * m + r';
    assert (q - q') * m == r' - r;
    MultipleBounds(q - q', m);
  }

  /** The remainder modulo 2^k consists of the lowest bit and the remainder of the rest modulo 2^(k-1). */
  lemma {:induction false} ModPow2Split(x: nat, k: nat)
    requires k > 0
    ensures x % Pow2(k) == x % 2 + 2 * ((x / 2) % Pow2(k - 1))
  {
    var p := Pow2(k - 1);
    var q, r := (x / 2) / p, (x / 2) % p;
    assert x / 2 == q * p + r;
    assert x == q * Pow2(k) + (x % 2 + 2 * r) by {
      assert Pow2(k) == 2 * p;
      assert x == 2 * (x / 2) + x % 2;
      assert 2 * (q * p) == q * (2 * p);
    }
    ModUnique(x, Pow2(k), q, x % 2 + 2 * r);
  }

  /**
   * AND with the mask whose bits `k` to `n - 1` are set and whose bits below
   * `k` are clear rounds an `n`-bit number down to a multiple of 2^k.
   */
  lemma {:induction false} AndHighMask(x: nat, n: nat, k: nat, mask: nat)
    requires k <= n && x < Pow2(n) && mask + Pow2(k) == Pow2(n)
    ensures BitAnd(x, mask) == x - x % Pow2(k)
  {
    if x != 0 {
      assert n > 0;
      var hx, hm, p := x / 2, mask / 2, Pow2(n - 1);
      assert hx < p;
      if k == 0 {
        assert mask % 2 == 1 && hm + Pow2(0) == p;
        AndHighMask(hx, n - 1, 0, hm);
      } else {
        assert Pow2(k) == 2 * Pow2(k - 1);
        assert mask % 2 == 0 && hm + Pow2(k - 1) == p;
        AndHighMask(hx, n - 1, k - 1, hm);
        ModPow2Split(x, k);
      }
    }
  }
}
