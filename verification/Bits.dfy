/** Fixed-width integer arithmetic on unbounded naturals: powers of two, bit
    length, and bitwise AND / OR, with the laws the histogram index and the
    address sampler rest on. */
module Bits {

  const U16_MAX: nat := 0xFFFF
  const U32_MAX: nat := 0xFFFF_FFFF
  const U64_MAX: nat := 0xFFFF_FFFF_FFFF_FFFF

  type u16 = x: int | 0 <= x <= U16_MAX
  type u32 = x: int | 0 <= x <= U32_MAX
  type u64 = x: int | 0 <= x <= U64_MAX

  function Pow2(n: nat): (r: nat)
    ensures r > 0
  {
    if n == 0 then 1 else 2 * Pow2(n - 1)
  }

  function Pow10(n: nat): (r: nat)
    ensures r > 0
  {
    if n == 0 then 1 else 10 * Pow10(n - 1)
  }

  lemma {:induction false} Pow2Add(a: nat, b: nat)
    ensures Pow2(a + b) == Pow2(a) * Pow2(b)
  {
    if a == 0 {
    } else {
      Pow2Add(a - 1, b);
      assert Pow2(a + b) == 2 * Pow2(a - 1 + b);
    }
  }

  lemma {:induction false} Pow2Monotone(a: nat, b: nat)
    requires a <= b
    ensures Pow2(a) <= Pow2(b)
    ensures a < b ==> 2 * Pow2(a) <= Pow2(b)
    decreases b - a
  {
    if a < b { Pow2Monotone(a, b - 1); }
  }

  lemma Pow2Widths()
    ensures Pow2(8) == 0x100
    ensures Pow2(16) == 0x1_0000
    ensures Pow2(32) == U32_MAX + 1
    ensures Pow2(63) == 0x8000_0000_0000_0000
    ensures Pow2(64) == U64_MAX + 1
  {
    assert Pow2(4) == 16;
    Pow2Add(4, 4);
    Pow2Add(8, 8);
    Pow2Add(16, 16);
    Pow2Add(32, 32);
    assert Pow2(64) == 2 * Pow2(63);
  }

  // Position of the highest set bit, counted from one; zero for zero.
  function BitLength(x: nat): nat {
    if x == 0 then 0 else 1 + BitLength(x / 2)
  }

  lemma {:induction false} BitLengthBounds(x: nat)
    requires x > 0
    ensures BitLength(x) > 0
    ensures Pow2(BitLength(x) - 1) <= x < Pow2(BitLength(x))
  {
    if x > 1 { BitLengthBounds(x / 2); }
  }

  lemma {:induction false} BitLengthPositive(x: nat)
    ensures BitLength(x) > 0 <==> x > 0
  {}

  // The bit length is the only exponent that brackets x.
  lemma {:induction false} BitLengthUnique(x: nat, n: nat)
    requires n > 0 && Pow2(n - 1) <= x < Pow2(n)
    ensures BitLength(x) == n
  {
    BitLengthBounds(x);
    var l := BitLength(x);
    if l < n { Pow2Monotone(l, n - 1); }
    if n < l { Pow2Monotone(n, l - 1); }
  }

  lemma {:induction false} BitLengthBelow(x: nat, n: nat)
    requires x < Pow2(n)
    ensures BitLength(x) <= n
  {
    if x > 0 && BitLength(x) > n {
      BitLengthBounds(x);
      Pow2Monotone(n, BitLength(x) - 1);
    }
  }

  // Leading zero bits of a 64-bit word.
  function LeadingZeros64(x: u64): (r: nat)
    ensures r <= 64
  {
    Pow2Widths();
    BitLengthBelow(x, 64);
    64 - BitLength(x)
  }

  function BitOr(a: nat, b: nat): nat
    decreases a + b
  {
    if a == 0 && b == 0 then 0
    else (if a % 2 == 1 || b % 2 == 1 then 1 else 0) + 2 * BitOr(a / 2, b / 2)
  }

  function BitAnd(a: nat, b: nat): nat
    decreases a
  {
    if a == 0 then 0
    else (if a % 2 == 1 && b % 2 == 1 then 1 else 0) + 2 * BitAnd(a / 2, b / 2)
  }

  function Max(a: int, b: int): int { if a < b then b else a }
  function Min(a: int, b: int): int { if a < b then a else b }

  lemma {:induction false} BitOrLength(a: nat, b: nat)
    ensures BitLength(BitOr(a, b)) == Max(BitLength(a), BitLength(b))
    ensures BitOr(a, b) > 0 || (a == 0 && b == 0)
    decreases a + b
  {
    if a > 0 || b > 0 {
      BitOrLength(a / 2, b / 2);
      assert BitOr(a, b) / 2 == BitOr(a / 2, b / 2);
      if a / 2 == 0 && b / 2 == 0 { assert BitOr(a / 2, b / 2) == 0; }
    }
  }

  function ShiftRight(x: nat, k: nat): nat
    decreases k
  {
    if k == 0 then x else ShiftRight(x / 2, k - 1)
  }

  function ShiftLeft(x: nat, k: nat): nat {
    if k == 0 then x else 2 * ShiftLeft(x, k - 1)
  }

  lemma {:induction false} ShiftLeftIsProduct(x: nat, k: nat)
    ensures ShiftLeft(x, k) == x * Pow2(k)
  {
    if k == 0 {
    } else {
      ShiftLeftIsProduct(x, k - 1);
      assert x * Pow2(k) == 2 * (x * Pow2(k - 1));
    }
  }

  lemma {:induction false} ShiftLeftAdd(x: nat, y: nat, k: nat)
    ensures ShiftLeft(x + y, k) == ShiftLeft(x, k) + ShiftLeft(y, k)
  {
    if k == 0 {
    } else {
      ShiftLeftAdd(x, y, k - 1);
    }
  }

  lemma {:induction false} ShiftLeftOne(k: nat)
    ensures ShiftLeft(1, k) == Pow2(k)
    ensures ShiftLeft(0, k) == 0
  {
    if k == 0 {
    } else {
      ShiftLeftOne(k - 1);
    }
  }

  lemma {:induction false} ShiftLeftPow2(n: nat, k: nat)
    ensures ShiftLeft(Pow2(n), k) == Pow2(n + k)
  {
    if k == 0 {
    } else {
      ShiftLeftPow2(n, k - 1);
    }
  }

  lemma {:induction false} ShiftLeftMonotone(x: nat, y: nat, k: nat)
    requires x < y
    ensures ShiftLeft(x, k) + Pow2(k) <= ShiftLeft(y, k)
  {
    ShiftLeftAdd(x, 1, k);
    ShiftLeftAdd(x + 1, y - x - 1, k);
    ShiftLeftOne(k);
  }

  lemma {:induction false} ShiftRightBounds(x: nat, k: nat)
    ensures ShiftLeft(ShiftRight(x, k), k) <= x < ShiftLeft(ShiftRight(x, k), k) + Pow2(k)
    decreases k
  {
    if k == 0 {
    } else {
      ShiftRightBounds(x / 2, k - 1);
    }
  }

  // The k low bits: what the mask 2^k - 1 keeps.
  function LowBits(x: nat, k: nat): (r: nat)
    ensures r < Pow2(k)
  {
    ShiftRightBounds(x, k);
    x - ShiftLeft(ShiftRight(x, k), k)
  }

  lemma {:induction false} ShiftOfSum(q: nat, k: nat, r: nat)
    requires r < Pow2(k)
    ensures ShiftRight(ShiftLeft(q, k) + r, k) == q
    decreases k
  {
    if k == 0 {
    } else {
      assert (ShiftLeft(q, k) + r) / 2 == ShiftLeft(q, k - 1) + r / 2;
      ShiftOfSum(q, k - 1, r / 2);
    }
  }

  lemma {:induction false} MaskIsLowBits(x: nat, k: nat)
    ensures BitAnd(x, Pow2(k) - 1) == LowBits(x, k)
    decreases k
  {
    if k == 0 {
      BitAndZero(x);
    } else if x == 0 {
      ShiftLeftOne(k);
      ShiftOfSum(0, k, 0);
    } else {
      MaskIsLowBits(x / 2, k - 1);
      assert (Pow2(k) - 1) / 2 == Pow2(k - 1) - 1;
      assert ShiftLeft(ShiftRight(x, k), k) == 2 * ShiftLeft(ShiftRight(x / 2, k - 1), k - 1);
    }
  }

  lemma {:induction false} BitAndZero(x: nat)
    ensures BitAnd(x, 0) == 0
    decreases x
  {
    if x == 0 {
    } else {
      BitAndZero(x / 2);
    }
  }

  /** Masking with the top bits clears the k low ones. */
  lemma {:induction false} HighMask(x: nat, w: nat, k: nat)
    requires k <= w && x < Pow2(w)
    ensures Pow2(k) <= Pow2(w)
    ensures BitAnd(x, Pow2(w) - Pow2(k)) == ShiftLeft(ShiftRight(x, k), k)
    decreases k
  {
    hide BitAnd, ShiftRight, ShiftLeft, LowBits;
    Pow2Monotone(k, w);
    if k == 0 {
      hide Pow2;
      MaskIsLowBits(x, w);
      LowBitsAll(x, w);
      ShiftByZero(x);
      assert Pow2(w) - Pow2(0) == Pow2(w) - 1 by { Pow2Zero(); }
    } else {
      HighMask(x / 2, w - 1, k - 1);
      EvenMask(x, Pow2(w - 1) - Pow2(k - 1));
      ShiftStep(x, k);
    }
  }

  lemma {:induction false} ShiftByZero(x: nat)
    ensures ShiftLeft(ShiftRight(x, 0), 0) == x
  {}

  lemma Pow2Zero()
    ensures Pow2(0) == 1
  {}

  lemma {:induction false} ShiftStep(x: nat, k: nat)
    requires k > 0
    ensures ShiftLeft(ShiftRight(x, k), k) == 2 * ShiftLeft(ShiftRight(x / 2, k - 1), k - 1)
  {}

  lemma {:induction false} LowBitsAll(x: nat, w: nat)
    requires x < Pow2(w)
    ensures LowBits(x, w) == x && ShiftRight(x, w) == 0
  {
    ShiftLeftOne(w);
    ShiftOfSum(0, w, x);
  }

  lemma {:induction false} EvenMask(x: nat, m: nat)
    ensures BitAnd(x, 2 * m) == 2 * BitAnd(x / 2, m)
  {
    assert 2 * m / 2 == m;
  }

  /** OR-ing in bits below a shifted value adds them. */
  lemma {:induction false} OrBelow(q: nat, k: nat, r: nat)
    requires r < Pow2(k)
    ensures BitOr(ShiftLeft(q, k), r) == ShiftLeft(q, k) + r
    decreases k
  {
    if k == 0 {
      OrZero(q);
    } else {
      OrBelow(q, k - 1, r / 2);
      assert ShiftLeft(q, k) / 2 == ShiftLeft(q, k - 1);
      assert ShiftLeft(q, k) % 2 == 0;
    }
  }

  lemma {:induction false} OrZero(x: nat)
    ensures BitOr(x, 0) == x
    decreases x
  {
    if x == 0 {
    } else {
      OrZero(x / 2);
    }
  }
}
