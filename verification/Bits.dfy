/** Powers of two and bitwise conjunction of machine words, as integers. */
module Bits {
  function Pow2(m: nat): (p: nat)
    ensures p >= 1
  {
    if m == 0 then 1 else 2 * Pow2(m - 1)
  }

  lemma {:induction false} Pow2Monotone(a: nat, b: nat)
    requires a < b
    ensures 2 * Pow2(a) <= Pow2(b)
  {
    if a + 1 < b { Pow2Monotone(a, b - 1); }
  }

  /** Bitwise conjunction of naturals. */
  function And(a: nat, b: nat): nat {
    if a == 0 || b == 0 then 0 else 2 * And(a / 2, b / 2) + if a % 2 == 1 && b % 2 == 1 then 1 else 0
  }

  lemma {:induction false} AndSelf(a: nat)
    ensures And(a, a) == a
  {
    if a > 0 {
      AndSelf(a / 2);
    }
  }

  /** A mask of k ones keeps the value modulo 2^k. */
  lemma {:induction false} AndMask(a: nat, k: nat)
    ensures And(a, Pow2(k) - 1) == a % Pow2(k)
  {
    if k > 0 && a > 0 {
      AndMask(a / 2, k - 1);
      assert (Pow2(k) - 1) / 2 == Pow2(k - 1) - 1;
      DoubleMod(a, Pow2(k - 1));
      if Pow2(k - 1) == 1 {
        assert And(a / 2, 0) == 0;
      }
      assert (Pow2(k) - 1) % 2 == 1;
    } else if k == 0 {
      assert Pow2(k) == 1;
    } else {
      ModUnique(a, 0, 0, Pow2(k));
    }
  }

  lemma DoubleMod(a: nat, p: nat)
    requires p > 0
    ensures a % (2 * p) == 2 * ((a / 2) % p) + a % 2
  {
    var q, r := (a / 2) / p, (a / 2) % p;
    assert a / 2 == q * p + r;
    assert q * (2 * p) == 2 * (q * p);
    ModUnique(a, q, 2 * r + a % 2, 2 * p);
  }

  lemma ModPlusMultiple(x: int, t: int, p: nat)
    requires p > 0
    ensures (x + t * p) % p == x % p
  {
    var q, r := x / p, x % p;
    assert x == q * p + r;
    assert (q + t) * p == q * p + t * p;
    ModUnique(x + t * p, q + t, r, p);
  }

  /** The remainder is the only number in range that differs from x by a multiple of d. */
  lemma ModUnique(x: int, q: int, r: nat, d: nat)
    requires r < d && x == q * d + r
    ensures x % d == r
  {
    assert x == d * (x / d) + x % d;
    var k := x / d - q;
    assert d * k == r - x % d;
    assert k >= 1 ==> d * k >= d;
    assert k <= -1 ==> d * k + d <= 0;
  }

  lemma DivModUnique(x: int, q: int, r: nat, d: nat)
    requires r < d && x == q * d + r
    ensures x / d == q && x % d == r
  {
    ModUnique(x, q, r, d);
    assert d * (x / d) == d * q;
    assert d * (x / d - q) == 0;
  }

  lemma ExactDivision(a: nat, d: nat)
    requires d > 0
    ensures a * d / d == a
  {
    DivModUnique(a * d, a, 0, d);
  }

  lemma ModDistinct(i: int, n: int, size: nat)
    requires i < n < i + size
    ensures i % size != n % size
  {
    var q, r, d := i / size, i % size, n - i;
    assert i == q * size + r;
    if r + d < size {
      ModUnique(n, q, r + d, size);
    } else {
      assert (q + 1) * size == q * size + size;
      ModUnique(n, q + 1, r + d - size, size);
    }
  }

  /** Blocks of equal length do not overlap. */
  lemma {:induction false} BlockBound(b: nat, c: nat, len: nat)
    requires b < c
    ensures b * len + len <= c * len
  {
    assert c * len == (c - 1) * len + len;
    if b + 1 < c { BlockBound(b, c - 1, len); }
  }

  lemma ModShift(n: int, s: int, d: nat)
    requires d > 0
    ensures (n % d - s) % d == (n - s) % d
  {
    var q := (n % d - s) / d;
    var r := (n % d - s) % d;
    assert n == (n / d) * d + n % d;
    assert n % d - s == q * d + r;
    assert n - s == (n / d + q) * d + r by {
      assert (n / d + q) * d == (n / d) * d + q * d;
    }
    ModUnique(n - s, n / d + q, r, d);
  }

  /** `x & mask` on a 32-bit two's complement x. */
  function MaskInt(x: int, mask: nat): nat
    requires -0x8000_0000 <= x < 0x8000_0000
  {
    And(if x < 0 then x + 0x1_0000_0000 else x, mask)
  }

  lemma MaskIntIsMod(x: int, k: nat)
    requires -0x8000_0000 <= x < 0x8000_0000 && k <= 31
    ensures MaskInt(x, Pow2(k) - 1) == x % Pow2(k)
  {
    hide And, Pow2;
    if x >= 0 {
      AndMask(x, k);
    } else {
      AndMask(x + 0x1_0000_0000, k);
      Pow2Add(32 - k, k);
      Pow2Of32();
      ModPlusMultiple(x, Pow2(32 - k), Pow2(k));
    }
  }

  lemma {:induction false} Pow2Add(a: nat, b: nat)
    ensures Pow2(a + b) == Pow2(a) * Pow2(b)
  {
    if a > 0 {
      Pow2Add(a - 1, b);
      assert Pow2(a + b) == 2 * Pow2(a - 1 + b);
    }
  }

  lemma Pow2Of32()
    ensures Pow2(32) == 0x1_0000_0000
  {
    assert Pow2(8) == 256;
    Pow2Add(8, 8);
    Pow2Add(16, 16);
  }

  /** Bit i, counting from the least significant. */
  function BitAt(x: nat, i: nat): nat {
    if i == 0 then x % 2 else BitAt(x / 2, i - 1)
  }

  /** (reg & ~mask) | (val & mask) on words of the given number of bits. */
  function Masked(reg: nat, val: nat, mask: nat, bits: nat): (r: nat)
    ensures r < Pow2(bits)
  {
    if bits == 0 then 0
    else 2 * Masked(reg / 2, val / 2, mask / 2, bits - 1) + (if mask % 2 == 1 then val % 2 else reg % 2)
  }

  lemma {:induction false} MaskedBit(reg: nat, val: nat, mask: nat, bits: nat, i: nat)
    requires i < bits
    ensures BitAt(Masked(reg, val, mask, bits), i) == if BitAt(mask, i) == 1 then BitAt(val, i) else BitAt(reg, i)
  {
    if i > 0 {
      MaskedBit(reg / 2, val / 2, mask / 2, bits - 1, i - 1);
    }
  }

  lemma Pow2Of8()
    ensures Pow2(8) == 256
  {
    assert Pow2(4) == 16;
    Pow2Add(4, 4);
  }
}
