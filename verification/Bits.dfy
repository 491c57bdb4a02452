/** Bitwise operations on unsigned integers, as the 64-bit code uses them. */
module Bits {
  import opened Arith
  import opened Base

  function Pow2(n: nat): (p: nat)
    ensures p > 0
  {
    if n == 0 then 1 else 2 * Pow2(n - 1)
  }

  /** `x >> j`. */
  function Shr(x: nat, j: nat): (r: nat)
    ensures r <= x
    decreases j
  {
    if j == 0 then x else Shr(x / 2, j - 1)
  }

  /** `(x >> j) & 1`. */
  function Bit(x: nat, j: nat): (b: nat)
    ensures b < 2
  {
    Shr(x, j) % 2
  }

  function And(x: nat, y: nat): nat {
    if x == 0 || y == 0 then 0 else (x % 2) * (y % 2) + 2 * And(x / 2, y / 2)
  }

  function Or(x: nat, y: nat): nat
    decreases x + y
  {
    if x == 0 then y else if y == 0 then x
    else (if x % 2 + y % 2 > 0 then 1 else 0) + 2 * Or(x / 2, y / 2)
  }

  function Xor(x: nat, y: nat): nat
    decreases x + y
  {
    if x == 0 then y else if y == 0 then x
    else (x % 2 + y % 2) % 2 + 2 * Xor(x / 2, y / 2)
  }

  // ── powers of two ─────────────────────────────────────────────────────────

  lemma {:induction false} Pow2Sum(a: nat, b: nat)
    ensures Pow2(a + b) == Pow2(a) * Pow2(b)
  {
    if a == 0 {
    } else {
      Pow2Sum(a - 1, b);
      assert 2 * (Pow2(a - 1) * Pow2(b)) == (2 * Pow2(a - 1)) * Pow2(b);
    }
  }

  lemma {:induction false} Pow2Monotone(a: nat, b: nat)
    requires a < b
    ensures 2 * Pow2(a) <= Pow2(b)
  {
    if a + 1 == b {
    } else {
      Pow2Monotone(a, b - 1);
    }
  }

  const TWO_31: nat := 0x8000_0000
  const TWO_63: nat := 0x8000_0000_0000_0000

  lemma Pow2Values(k: nat)
    ensures k == 8 ==> Pow2(k) == 256
    ensures k == 31 ==> Pow2(k) == TWO_31
    ensures k == 32 ==> Pow2(k) == U32_LIMIT
    ensures k == 63 ==> Pow2(k) == TWO_63
    ensures k == 64 ==> Pow2(k) == U64_LIMIT
  {
    Pow2Small();
    Pow2Sum(16, 15);
    Pow2Sum(16, 16);
    Pow2Sum(32, 31);
    Pow2Sum(32, 32);
  }

  lemma Pow2Small()
    ensures Pow2(8) == 256 && Pow2(15) == 0x8000 && Pow2(16) == 0x1_0000
  {
    assert Pow2(7) == 128 && Pow2(8) == 256;
    Pow2Sum(8, 7);
    Pow2Sum(8, 8);
  }

  lemma Pow2Order(a: nat, b: nat)
    ensures a <= b <==> Pow2(a) <= Pow2(b)
  {
    if a < b { Pow2Monotone(a, b); }
    if b < a { Pow2Monotone(b, a); }
  }

  // ── shifts and single bits ────────────────────────────────────────────────

  lemma {:induction false} ShrIsDivision(x: nat, j: nat)
    ensures Shr(x, j) == x / Pow2(j)
  {
    if j == 0 {
    } else {
      ShrIsDivision(x / 2, j - 1);
      ModSplit(x, 2, Pow2(j - 1));
    }
  }

  /** Shifting right by `i` renumbers the bits. */
  lemma {:induction false} BitOfShift(x: nat, i: nat, j: nat)
    ensures Bit(Shr(x, i), j) == Bit(x, i + j)
    decreases i
  {
    if i == 0 {
    } else {
      BitOfShift(x / 2, i - 1, j);
    }
  }

  lemma {:induction false} BitOfZero(j: nat)
    ensures Bit(0, j) == 0
  {
    assert Shr(0, j) == 0;
  }

  lemma {:induction false} BitOfPow2(a: nat, b: nat)
    ensures Bit(Pow2(a), b) == if a == b then 1 else 0
  {
    if b == 0 {
    } else if a == 0 {
      BitOfZero(b - 1);
    } else {
      BitOfPow2(a - 1, b - 1);
    }
  }

  lemma {:induction false} TopBitIsOne(w: nat, t: nat)
    requires Pow2(t) <= w < Pow2(t + 1)
    ensures Bit(w, t) == 1
  {
    if t == 0 {
    } else {
      TopBitIsOne(w / 2, t - 1);
    }
  }

  lemma {:induction false} BitOfOr(x: nat, y: nat, j: nat)
    ensures Bit(Or(x, y), j) == (if Bit(x, j) + Bit(y, j) > 0 then 1 else 0)
    decreases x + y
  {
    if x == 0 || y == 0 {
      BitOfZero(j);
    } else if j > 0 {
      BitOfOr(x / 2, y / 2, j - 1);
    }
  }

  lemma XorHalves(x: nat, y: nat)
    ensures Xor(x, y) % 2 == (x % 2 + y % 2) % 2 && Xor(x, y) / 2 == Xor(x / 2, y / 2)
  {
    if x == 0 || y == 0 {
    } else {
      DivUnique(Xor(x, y), 2, Xor(x / 2, y / 2), (x % 2 + y % 2) % 2);
    }
  }

  lemma {:induction false} BitOfXor(x: nat, y: nat, j: nat)
    ensures Bit(Xor(x, y), j) == (Bit(x, j) + Bit(y, j)) % 2
    decreases x + y
  {
    if x == 0 || y == 0 {
      BitOfZero(j);
    } else {
      XorHalves(x, y);
      if j > 0 { BitOfXor(x / 2, y / 2, j - 1); }
    }
  }

  lemma {:induction false} BitOfAnd(x: nat, y: nat, j: nat)
    ensures Bit(And(x, y), j) == if Bit(x, j) == 1 && Bit(y, j) == 1 then 1 else 0
    decreases x + y
  {
    if x == 0 || y == 0 {
      BitOfZero(j);
    } else if j > 0 {
      BitOfAnd(x / 2, y / 2, j - 1);
    } else {
      assert (x % 2) * (y % 2) == if x % 2 == 1 && y % 2 == 1 then 1 else 0;
    }
  }

  /** `|` of two k-bit numbers has k bits. */
  lemma {:induction false} OrBound(x: nat, y: nat, k: nat)
    requires x < Pow2(k) && y < Pow2(k)
    ensures Or(x, y) < Pow2(k) && Or(x, y) >= x
  {
    if x == 0 || y == 0 {
    } else {
      OrBound(x / 2, y / 2, k - 1);
    }
  }

  /** Masking with 2^k - 1 is reduction modulo 2^k. */
  lemma {:induction false} AndMask(x: nat, k: nat)
    ensures And(x, Pow2(k) - 1) == x % Pow2(k)
  {
    if x == 0 || k == 0 {
    } else {
      AndMask(x / 2, k - 1);
      ModSplit(x, 2, Pow2(k - 1));
      assert (Pow2(k) - 1) / 2 == Pow2(k - 1) - 1;
    }
  }

  /** Reduction modulo 2^b does not disturb a later reduction modulo 2^a, a <= b:
      64-bit wrap-around is invisible behind a mask. */
  lemma WrapBehindMask(x: nat, a: nat, b: nat)
    requires a <= b
    ensures x % Pow2(b) % Pow2(a) == x % Pow2(a)
  {
    Pow2Sum(a, b - a);
    ModMod(x, Pow2(a), Pow2(b - a));
  }

  /** A number below 2^t whose t low bits are all one is 2^t - 1. */
  lemma {:induction false} AllOnes(x: nat, t: nat)
    requires x < Pow2(t) && forall j :: 0 <= j < t ==> Bit(x, j) == 1
    ensures x == Pow2(t) - 1
  {
    if t == 0 {
    } else {
      forall j | 0 <= j < t - 1 ensures Bit(x / 2, j) == 1 {
        assert Bit(x, j + 1) == 1;
      }
      assert Bit(x, 0) == 1;
      AllOnes(x / 2, t - 1);
    }
  }
}
