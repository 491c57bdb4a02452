/** Division facts the codecs and the hash arithmetic rest on. */
module Arith {

  lemma MulMonotone(a: nat, r: int, s: int)
    requires r <= s
    ensures a * r <= a * s
  {
  }

  lemma DivUnique(v: int, m: nat, q: int, r: nat)
    requires r < m && v == m * q + r
    ensures v / m == q && v % m == r
  {
    var d := v / m - q;
    assert m * d == m * (v / m) - m * q;
    if d >= 1 { MulMonotone(m, 1, d); }
    if d <= -1 { MulMonotone(m, d, -1); }
  }

  /** Splitting a residue modulo a * b into its low and high digit. */
  lemma ModSplit(v: nat, a: nat, b: nat)
    requires a > 0 && b > 0
    ensures 0 < a * b
    ensures v % (a * b) == v % a + a * (v / a % b)
    ensures v / (a * b) == v / a / b
  {
    MulMonotone(a, 1, b);
    var lo, mid, hi := v % a, v / a % b, v / a / b;
    var rest := lo + a * mid;
    assert rest < a * b by {
      MulMonotone(a, mid, b - 1);
      assert a * (b - 1) == a * b - a;
    }
    assert v == (a * b) * hi + rest by {
      SplitProduct(a, b, hi, mid);
    }
    DivUnique(v, a * b, hi, rest);
  }

  lemma SplitProduct(a: int, b: int, hi: int, mid: int)
    ensures a * (b * hi + mid) == (a * b) * hi + a * mid
  {
    assert a * (b * hi) == (a * b) * hi;
    assert a * (b * hi + mid) == a * (b * hi) + a * mid;
  }

  /** A reduction modulo a * c does not disturb a later reduction modulo a. */
  lemma ModMod(v: nat, a: nat, c: nat)
    requires a > 0 && c > 0
    ensures 0 < a * c
    ensures v % (a * c) % a == v % a
  {
    ModSplit(v, a, c);
    DivUnique(v % (a * c), a, v / a % c, v % a);
  }

  lemma SmallMod(x: nat, m: nat)
    requires x < m
    ensures x % m == x
  {
  }

  lemma SameResidue(x: nat, y: nat, m: nat)
    requires m > 0 && x <= y && x % m == y % m
    ensures (y - x) % m == 0
  {
    var q := y / m - x / m;
    assert m * q == m * (y / m) - m * (x / m);
    DivUnique(y - x, m, q, 0);
  }
}
