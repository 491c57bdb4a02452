/** The Bloom filter of `src/bloom.cpp`: hashing, sizing, packing and membership. */
module Bloom {
  import opened Arith
  import opened Base
  import opened Bits

  const K: nat := 7
  const FNV_OFFSET: nat := 14695981039346656037
  const FNV_PRIME: nat := 1099511628211

  // ── sizing ────────────────────────────────────────────────────────────────

  /** The least power of two that is at least `v`; see CeilPow2IsLeast. */
  function CeilPow2(v: nat): (p: nat)
    ensures p > 0
  {
    if v <= 1 then 1 else 2 * CeilPow2((v + 1) / 2)
  }

  ghost predicate IsPow2(m: nat) {
    exists k: nat :: m == Pow2(k)
  }

  lemma {:induction false} CeilPow2IsLeast(v: nat, k: nat)
    ensures IsPow2(CeilPow2(v)) && CeilPow2(v) >= v
    ensures Pow2(k) >= v ==> CeilPow2(v) <= Pow2(k)
  {
    if v <= 1 {
      assert CeilPow2(v) == Pow2(0);
    } else {
      CeilPow2IsLeast((v + 1) / 2, if k > 0 then k - 1 else 0);
      var j: nat :| CeilPow2((v + 1) / 2) == Pow2(j);
      assert CeilPow2(v) == Pow2(j + 1);
    }
  }

  /** Powers of two are their own ceiling, which is what makes a reload faithful. */
  lemma {:induction false} CeilPow2Fixed(k: nat)
    ensures CeilPow2(Pow2(k)) == Pow2(k)
  {
    if k == 0 {
    } else {
      CeilPow2Fixed(k - 1);
    }
  }

  lemma CeilPow2At(v: nat, t: nat)
    requires Pow2(t) < v <= Pow2(t + 1)
    ensures CeilPow2(v) == Pow2(t + 1)
  {
    CeilPow2IsLeast(v, t + 1);
    var k: nat :| CeilPow2(v) == Pow2(k);
    if k <= t {
      if k < t { Pow2Monotone(k, t); }
    } else if k > t + 1 {
      Pow2Monotone(t + 1, k);
    }
  }

  ghost function TopBit(w: nat): (t: nat)
    requires w > 0
    ensures Pow2(t) <= w < Pow2(t + 1)
  {
    if w < 2 then 0 else 1 + TopBit(w / 2)
  }

  /** After shifts by 1, 2, .., i/2: `v` keeps the top bit `t` of v0 - 1, and the i
      positions from t downwards are ones. */
  ghost predicate Smeared(v0: nat, v: nat, t: nat, i: nat) {
    if v0 <= 1 then v == 0
    else Pow2(t) <= v0 - 1 < Pow2(t + 1) && Pow2(t) <= v < Pow2(t + 1) &&
         forall j :: 0 <= j <= t && t - i < j ==> Bit(v, j) == 1
  }

  /** One smearing step doubles the run of ones below the top bit. */
  lemma SmearStep(v0: nat, v: nat, t: nat, i: nat)
    requires 1 <= i && Smeared(v0, v, t, i)
    ensures Smeared(v0, Or(v, Shr(v, i)), t, 2 * i)
  {
    var s := Shr(v, i);
    if v0 > 1 {
      OrBound(v, s, t + 1);
      forall j | 0 <= j <= t && t - 2 * i < j ensures Bit(Or(v, s), j) == 1 {
        assert Bit(v, j) == 1 || Bit(v, i + j) == 1;
        BitOfSmear(v, i, j);
      }
    }
  }

  lemma BitOfSmear(v: nat, i: nat, j: nat)
    ensures Bit(Or(v, Shr(v, i)), j) == if Bit(v, j) + Bit(v, i + j) > 0 then 1 else 0
  {
    BitOfOr(v, Shr(v, i), j);
    BitOfShift(v, i, j);
  }

  lemma SmearStart(v0: nat) returns (t: nat)
    requires v0 > 0
    ensures Smeared(v0, v0 - 1, t, 1)
  {
    t := if v0 == 1 then 0 else TopBit(v0 - 1);
    if v0 > 1 { TopBitIsOne(v0 - 1, t); }
  }

  lemma SmearDone(v0: nat, v: nat, t: nat)
    requires 0 < v0 < U64_LIMIT && Smeared(v0, v, t, 64)
    ensures (v + 1) % U64_LIMIT == if v0 <= TWO_63 then CeilPow2(v0) else 0
  {
    if v0 > 1 {
      Pow2Values(63);
      Pow2Values(64);
      Pow2Order(t + 1, 63);
      Pow2Order(63, t);
      Pow2Order(t + 1, 64);
      Pow2Order(64, t);
      AllOnes(v, t + 1);
      CeilPow2At(v0, t);
    }
  }

  /** `next_pow2` on a 64-bit `size_t`. Above 2^63 the final increment wraps to 0. */
  method NextPow2(v0: nat) returns (r: nat)
    requires v0 < U64_LIMIT
    ensures r == if v0 <= TWO_63 then CeilPow2(v0) else 0
  {
    if v0 == 0 { return 1; }
    var v: nat := v0 - 1;
    ghost var t := SmearStart(v0);
    var i := 1;
    while i < 64
      invariant i == 1 || i == 2 || i == 4 || i == 8 || i == 16 || i == 32 || i == 64
      invariant Smeared(v0, v, t, i)
      decreases 64 - i
    {
      SmearStep(v0, v, t, i);
      v := Or(v, Shr(v, i));
      i := 2 * i;
    }
    SmearDone(v0, v, t);
    r := (v + 1) % U64_LIMIT;
  }

  // ── hashing ───────────────────────────────────────────────────────────────

  /** 64-bit FNV-1a. */
  function Fnv1a(s: Bytes): (h: nat)
    ensures h < U64_LIMIT
  {
    if s == [] then FNV_OFFSET
    else Xor(Fnv1a(s[..|s| - 1]), s[|s| - 1] as int) * FNV_PRIME % U64_LIMIT
  }

  /** Hashing goes on from left to right: one more byte is one exclusive or and one product. */
  lemma Fnv1aSnoc(s: Bytes, c: uint8)
    ensures Fnv1a(s + [c]) == Xor(Fnv1a(s), c as int) * 0x100000001b3 % 0x1_0000_0000_0000_0000
  {
    assert (s + [c])[..|s|] == s;
  }

  /** `high << k`. */
  ghost function Shl(high: nat, k: nat): nat {
    if k == 0 then high else 2 * Shl(high, k - 1)
  }

  lemma ShlByte(high: nat)
    ensures Shl(high, 8) == 256 * high
  {
    assert Shl(high, 1) == 2 * high && Shl(high, 2) == 4 * high && Shl(high, 3) == 8 * high;
    assert Shl(high, 4) == 16 * high && Shl(high, 5) == 32 * high && Shl(high, 6) == 64 * high;
    assert Shl(high, 7) == 128 * high;
  }

  /** An exclusive or with a byte leaves everything above the low byte alone. */
  lemma XorByte(high: nat, low: nat, c: nat)
    requires low < 256 && c < 256
    ensures Xor(256 * high + low, c) == 256 * high + Xor(low, c)
  {
    Pow2Values(8);
    ShlByte(high);
    XorAbove(high, low, c, 8);
  }

  lemma {:induction false} XorAbove(high: nat, low: nat, c: nat, k: nat)
    requires low < Pow2(k) && c < Pow2(k)
    ensures Xor(Shl(high, k) + low, c) == Shl(high, k) + Xor(low, c)
  {
    if k == 0 {
    } else {
      XorAbove(high, low / 2, c / 2, k - 1);
      XorCarry(Shl(high, k - 1), low, c);
    }
  }

  lemma XorCarry(t: nat, low: nat, c: nat)
    ensures Xor(2 * t + low, c) - 2 * Xor(t + low / 2, c / 2) == Xor(low, c) - 2 * Xor(low / 2, c / 2)
  {
    XorSplit(2 * t + low, c, t + low / 2);
    XorSplit(low, c, low / 2);
  }

  lemma XorSplit(x: nat, c: nat, half: nat)
    requires x / 2 == half
    ensures Xor(x, c) == (x % 2 + c % 2) % 2 + 2 * Xor(half, c / 2)
  {
  }

  /** Bit by bit, `r` is the exclusive or of two k-bit numbers. */
  ghost predicate XorBits(x: nat, y: nat, r: nat, k: nat) {
    if k == 0 then x == 0 && y == 0 && r == 0
    else (x + y + r) % 2 == 0 && XorBits(x / 2, y / 2, r / 2, k - 1)
  }

  lemma ParityBit(x: nat, y: nat, r: nat)
    requires (x + y + r) % 2 == 0
    ensures r == (x % 2 + y % 2) % 2 + 2 * (r / 2)
  {
  }

  lemma {:induction false} XorOfBits(x: nat, y: nat, r: nat, k: nat)
    requires XorBits(x, y, r, k)
    ensures Xor(x, y) == r
  {
    if k == 0 {
    } else {
      XorOfBits(x / 2, y / 2, r / 2, k - 1);
      ParityBit(x, y, r);
      XorSplit(x, y, x / 2);
    }
  }

  lemma HashStep(s: Bytes, i: nat, c: nat, high: nat, low: nat, mixed: nat, r: nat)
    requires i < |s| && s[i] as int == c && low < 256 && Fnv1a(s[..i]) == 256 * high + low && XorBits(low, c, mixed, 8)
    requires (256 * high + mixed) * 0x100000001b3 % 0x1_0000_0000_0000_0000 == r
    ensures Fnv1a(s[..i + 1]) == r
  {
    XorOfBits(low, c, mixed, 8);
    Fnv1aSnoc(s[..i], s[i]);
    XorByte(high, low, c);
    assert s[..i + 1] == s[..i] + [s[i]];
  }

  /** Published test values: of the empty string and of "a". */
  lemma Fnv1aVector(s: Bytes)
    ensures s == [] ==> Fnv1a(s) == 0xcbf29ce484222325
    ensures s == [97] ==> Fnv1a(s) == 0xaf63dc4c8601ec8c
  {
    assert s[..|s|] == s;
    if s == [97] { HashStep(s, 0, 97, 0xcbf29ce4842223, 0x25, 0x44, 0xaf63dc4c8601ec8c); }
  }

  method HashA(s: Bytes) returns (h: nat)
    ensures h == Fnv1a(s)
  {
    h := FNV_OFFSET;
    for i := 0 to |s|
      invariant h == Fnv1a(s[..i])
    {
      assert s[..i + 1][..i] == s[..i];
      h := Xor(h, s[i] as int) * FNV_PRIME % U64_LIMIT;
    }
    assert s[..|s|] == s;
  }

  /** The second hash has the same offset and prime, so it is the first with bit 0 set. */
  method HashB(s: Bytes) returns (h: nat)
    ensures h == Or(Fnv1a(s), 1)
  {
    h := 0xcbf29ce484222325;
    for i := 0 to |s|
      invariant h == Fnv1a(s[..i])
    {
      assert s[..i + 1][..i] == s[..i];
      h := Xor(h, s[i] as int) * 0x00000100000001b3 % U64_LIMIT;
    }
    assert s[..|s|] == s;
    h := Or(h, 1);
  }

  /** Probe `i` of double hashing, with every 64-bit wrap-around written out. */
  function Probe(h1: nat, h2: nat, i: nat, m: nat): nat
    requires m > 0
  {
    And((h1 + i * h2 % U64_LIMIT) % U64_LIMIT, m - 1)
  }

  lemma AddMod(a: nat, x: nat, n: nat)
    requires n > 0
    ensures (a + x % n) % n == (a + x) % n
  {
    var q := (a + x % n) / n;
    assert x == n * (x / n) + x % n;
    assert a + x == n * (q + x / n) + (a + x % n) % n by {
      assert n * (q + x / n) == n * q + n * (x / n);
    }
    DivUnique(a + x, n, q + x / n, (a + x % n) % n);
  }

  /** The mask hides the wrap-around: a probe is plain residue arithmetic. */
  lemma ProbeIsResidue(h1: nat, h2: nat, i: nat, k: nat)
    requires k <= 64
    ensures Probe(h1, h2, i, Pow2(k)) == (h1 + i * h2) % Pow2(k)
  {
    Pow2Values(64);
    AddMod(h1, i * h2, U64_LIMIT);
    AndMask((h1 + i * h2) % U64_LIMIT, k);
    WrapBehindMask(h1 + i * h2, k, 64);
  }

  lemma {:induction false} OddCancels(d: nat, h: nat, k: nat)
    requires h % 2 == 1 && d * h % Pow2(k) == 0
    ensures d % Pow2(k) == 0
  {
    if k == 0 {
    } else {
      var p := Pow2(k - 1);
      ModSplit(d * h, 2, p);
      var c := h / 2;
      assert d * h == 2 * (d * c) + d by { assert d * (2 * c + 1) == 2 * (d * c) + d; }
      assert d % 2 == 0;
      assert d * h == 2 * (d / 2 * h) by { assert (2 * (d / 2)) * h == 2 * (d / 2 * h); }
      OddCancels(d / 2, h, k - 1);
      ModSplit(d, 2, p);
    }
  }

  /** Distinct indices below m give distinct probes, for every odd stride. */
  lemma ProbeInjective(h1: nat, h2: nat, k: nat, i: nat, j: nat)
    requires h2 % 2 == 1 && k <= 64 && i < j < Pow2(k)
    ensures Probe(h1, h2, i, Pow2(k)) != Probe(h1, h2, j, Pow2(k))
  {
    ProbeIsResidue(h1, h2, i, k);
    ProbeIsResidue(h1, h2, j, k);
    ResiduesDiffer(h1, h2, k, i, j);
  }

  lemma ResiduesDiffer(h1: nat, h2: nat, k: nat, i: nat, j: nat)
    requires h2 % 2 == 1 && i < j < Pow2(k)
    ensures (h1 + i * h2) % Pow2(k) != (h1 + j * h2) % Pow2(k)
  {
    var x, y := h1 + i * h2, h1 + j * h2;
    StrideGap(h1, h2, i, j);
    if x % Pow2(k) == y % Pow2(k) {
      SameResidue(x, y, Pow2(k));
      OddCancels(j - i, h2, k);
      SmallMod(j - i, Pow2(k));
    }
  }

  lemma StrideGap(h1: nat, h2: nat, i: nat, j: nat)
    requires i <= j
    ensures h1 + i * h2 <= h1 + j * h2
    ensures h1 + j * h2 - (h1 + i * h2) == (j - i) * h2
  {
    assert (j - i) * h2 == j * h2 - i * h2;
    MulMonotone(h2, i, j);
  }

  /** Every slot is hit by some index below m. */
  lemma {:induction false} ResidueHit(h1: nat, h2: nat, k: nat, p: nat) returns (i: nat)
    requires h2 % 2 == 1 && p < Pow2(k)
    ensures i < Pow2(k) && (h1 + i * h2) % Pow2(k) == p
  {
    if k == 0 {
      i := 0;
    } else {
      var q := Pow2(k - 1);
      i := ResidueHit(h1, h2, k - 1, p % q);
      var x := h1 + i * h2;
      DigitStep(x, q, h2, p);
      if x % (2 * q) != p {
        StrideGap(h1, h2, i, i + q);
        i := i + q;
      }
    }
  }

  /** A solution modulo q is one modulo 2q, or becomes one after an odd number of q's. */
  lemma DigitStep(x: nat, q: nat, h: nat, p: nat)
    requires q > 0 && h % 2 == 1 && p < 2 * q && x % q == p % q
    ensures x % (2 * q) == p || (x + q * h) % (2 * q) == p
  {
    ModSplit(x, q, 2);
    DivUnique(p, q, if p < q then 0 else 1, if p < q then p else p - q);
    AddMultiple(x, q, h);
    ModSplit(x + q * h, q, 2);
  }

  lemma AddMultiple(x: nat, q: nat, h: nat)
    requires q > 0
    ensures (x + q * h) / q == x / q + h && (x + q * h) % q == x % q
  {
    assert q * (x / q + h) == q * (x / q) + q * h;
    DivUnique(x + q * h, q, x / q + h, x % q);
  }

  /** i -> (h1 + i * h2) & (m - 1) is a bijection on [0, m): with ProbeInjective, the
      preimage of a slot exists and is unique. */
  lemma ProbeBijective(h1: nat, h2: nat, k: nat, p: nat)
    requires h2 % 2 == 1 && k <= 64 && p < Pow2(k)
    ensures exists i: nat :: i < Pow2(k) && Probe(h1, h2, i, Pow2(k)) == p &&
              forall j: nat :: j < Pow2(k) && Probe(h1, h2, j, Pow2(k)) == p ==> j == i
  {
    var i := ResidueHit(h1, h2, k, p);
    ProbeIsResidue(h1, h2, i, k);
    forall j: nat | j < Pow2(k) && Probe(h1, h2, j, Pow2(k)) == p ensures j == i {
      if j < i { ProbeInjective(h1, h2, k, j, i); }
      if i < j { ProbeInjective(h1, h2, k, i, j); }
    }
  }

  /** The K positions of a key in a filter of m bits. */
  function Probes(key: Bytes, m: nat): (ps: seq<nat>)
    requires m > 0
    ensures |ps| == K
  {
    seq(K, i requires 0 <= i => Probe(Fnv1a(key), Or(Fnv1a(key), 1), i, m))
  }

  /** Which positions they are: seven residues, from the hash itself in strides of the hash
      with bit 0 set. */
  lemma ProbesAre(key: Bytes, k: nat)
    requires k <= 64
    ensures |Probes(key, Pow2(k))| == 7
    ensures forall i :: 0 <= i < 7 ==>
              Probes(key, Pow2(k))[i] == (Fnv1a(key) + i * (Fnv1a(key) + 1 - Fnv1a(key) % 2)) % Pow2(k)
  {
    OrOne(Fnv1a(key));
    forall i | 0 <= i < 7
      ensures Probes(key, Pow2(k))[i] == (Fnv1a(key) + i * (Fnv1a(key) + 1 - Fnv1a(key) % 2)) % Pow2(k)
    {
      ProbeIsResidue(Fnv1a(key), Or(Fnv1a(key), 1), i, k);
    }
  }

  lemma OrOne(x: nat)
    ensures Or(x, 1) == x + 1 - x % 2
  {
    assert Or(x / 2, 0) == x / 2;
  }

  lemma ProbesInRange(key: Bytes, k: nat)
    requires k <= 64
    ensures forall p :: p in Probes(key, Pow2(k)) ==> p < Pow2(k)
  {
    forall i | 0 <= i < K ensures Probes(key, Pow2(k))[i] < Pow2(k) {
      ProbeIsResidue(Fnv1a(key), Or(Fnv1a(key), 1), i, k);
    }
  }

  /** No key wastes a probe: its K positions are pairwise distinct. */
  lemma ProbesDistinct(key: Bytes, k: nat, i: nat, j: nat)
    requires 6 <= k <= 64 && i < j < K
    ensures Probes(key, Pow2(k))[i] != Probes(key, Pow2(k))[j]
  {
    var h2 := Or(Fnv1a(key), 1);
    BitOfOr(Fnv1a(key), 1, 0);
    assert h2 % 2 == 1;
    Pow2Order(6, k);
    ProbeInjective(Fnv1a(key), h2, k, i, j);
  }

  // ── the packed bit array ──────────────────────────────────────────────────

  function GetBit(bits: Bytes, i: nat): bool
    requires i / 8 < |bits|
  {
    Bit(bits[i / 8] as int, i % 8) == 1
  }

  lemma ByteBit(b: uint8, j: nat)
    requires j < 8
    ensures Or(b as int, Pow2(j)) < 256
  {
    Pow2Values(8);
    Pow2Monotone(j, 8);
    OrBound(b as int, Pow2(j), 8);
  }

  function SetBit(bits: Bytes, i: nat): (r: Bytes)
    requires i / 8 < |bits|
    ensures |r| == |bits|
  {
    ByteBit(bits[i / 8], i % 8);
    bits[i / 8 := Or(bits[i / 8] as int, Pow2(i % 8)) as uint8]
  }

  /** Setting a bit sets that bit and clears none. */
  lemma GetAfterSet(bits: Bytes, i: nat, j: nat)
    requires i / 8 < |bits| && j / 8 < |bits|
    ensures GetBit(SetBit(bits, i), j) <==> j == i || GetBit(bits, j)
  {
    ByteBit(bits[i / 8], i % 8);
    BitOfOr(bits[i / 8] as int, Pow2(i % 8), j % 8);
    BitOfPow2(i % 8, j % 8);
  }

  /** Slot 8 * b + j is bit j of byte b, and setting it adds the bit to the byte if it was clear. */
  lemma SlotLayout(bits: Bytes, b: nat, j: nat)
    requires b < |bits| && j < 8
    ensures GetBit(bits, 8 * b + j) <==> bits[b] as int / Pow2(j) % 2 == 1
    ensures var after := SetBit(bits, 8 * b + j);
            && after[b] as int == bits[b] as int + (if bits[b] as int / Pow2(j) % 2 == 1 then 0 else Pow2(j))
            && forall i :: 0 <= i < |bits| && i != b ==> after[i] == bits[i]
  {
    DivUnique(8 * b + j, 8, b, j);
    ShrIsDivision(bits[b] as int, j);
    ByteBit(bits[b], j);
    OrPow2(bits[b] as int, j);
  }

  lemma {:induction false} OrPow2(x: nat, j: nat)
    ensures Or(x, Pow2(j)) == x + if Bit(x, j) == 1 then 0 else Pow2(j)
  {
    if j == 0 {
      OrOne(x);
    } else if x == 0 {
      BitOfZero(j);
    } else {
      OrPow2(x / 2, j - 1);
    }
  }

  predicate InRange(bits: Bytes, ps: seq<nat>) {
    forall i :: 0 <= i < |ps| ==> ps[i] / 8 < |bits|
  }

  function SetBits(bits: Bytes, ps: seq<nat>): (r: Bytes)
    requires InRange(bits, ps)
    ensures |r| == |bits|
  {
    if ps == [] then bits else SetBit(SetBits(bits, ps[..|ps| - 1]), ps[|ps| - 1])
  }

  lemma {:induction false} GetAfterSetBits(bits: Bytes, ps: seq<nat>, j: nat)
    requires InRange(bits, ps) && j / 8 < |bits|
    ensures GetBit(SetBits(bits, ps), j) <==> j in ps || GetBit(bits, j)
  {
    if ps == [] {
    } else {
      var rest, last := ps[..|ps| - 1], ps[|ps| - 1];
      GetAfterSetBits(bits, rest, j);
      GetAfterSet(SetBits(bits, rest), last, j);
      assert ps == rest + [last];
    }
  }

  ghost predicate Sized(bits: Bytes, m: nat) {
    IsPow2(m) && m <= TWO_63 && |bits| == (m + 7) / 8
  }

  lemma ByteCount(p: nat, m: nat)
    requires p < m
    ensures p / 8 < (m + 7) / 8
  {
  }

  lemma ProbesFit(bits: Bytes, m: nat, key: Bytes)
    requires Sized(bits, m)
    ensures m > 0 && InRange(bits, Probes(key, m))
  {
    var k: nat :| m == Pow2(k);
    assert k <= 63 by { Pow2Values(63); Pow2Order(k, 63); }
    ProbesInRange(key, k);
    var ps := Probes(key, m);
    forall i | 0 <= i < |ps| ensures ps[i] / 8 < |bits| {
      assert ps[i] in ps;
      ByteCount(ps[i], m);
    }
  }

  /** The filter's answer: all K bits of the key are set. */
  ghost predicate Claims(bits: Bytes, m: nat, key: Bytes)
    requires Sized(bits, m)
  {
    ProbesFit(bits, m, key);
    forall p :: p in Probes(key, m) ==> GetBit(bits, p)
  }

  ghost function AddKey(bits: Bytes, m: nat, key: Bytes): (r: Bytes)
    requires Sized(bits, m)
    ensures Sized(r, m)
  {
    ProbesFit(bits, m, key);
    SetBits(bits, Probes(key, m))
  }

  ghost function AddKeys(bits: Bytes, m: nat, keys: seq<Bytes>): (r: Bytes)
    requires Sized(bits, m)
    ensures Sized(r, m)
  {
    if keys == [] then bits else AddKey(AddKeys(bits, m, keys[..|keys| - 1]), m, keys[|keys| - 1])
  }

  lemma AddKeyClaims(bits: Bytes, m: nat, key: Bytes, other: Bytes)
    requires Sized(bits, m)
    ensures Claims(AddKey(bits, m, key), m, key)
    ensures Claims(bits, m, other) ==> Claims(AddKey(bits, m, key), m, other)
  {
    ProbesFit(bits, m, key);
    ProbesFit(bits, m, other);
    forall p | p in Probes(key, m) ensures GetBit(AddKey(bits, m, key), p) {
      GetAfterSetBits(bits, Probes(key, m), p);
    }
    if Claims(bits, m, other) {
      forall p | p in Probes(other, m) ensures GetBit(AddKey(bits, m, key), p) {
        GetAfterSetBits(bits, Probes(key, m), p);
      }
    }
  }

  /** What the bits of a filter are: those of the keys added, besides those it started with. */
  lemma {:induction false} BitsAdded(bits: Bytes, m: nat, keys: seq<Bytes>, p: nat)
    requires Sized(bits, m) && p / 8 < |bits|
    ensures GetBit(AddKeys(bits, m, keys), p) <==>
            GetBit(bits, p) || exists i :: 0 <= i < |keys| && p in Probes(keys[i], m)
  {
    if keys == [] {
    } else {
      var rest, last := keys[..|keys| - 1], keys[|keys| - 1];
      BitsAdded(bits, m, rest, p);
      ProbesFit(AddKeys(bits, m, rest), m, last);
      GetAfterSetBits(AddKeys(bits, m, rest), Probes(last, m), p);
      if i :| 0 <= i < |rest| && p in Probes(rest[i], m) { assert p in Probes(keys[i], m); }
    }
  }

  lemma ClearBit(n: nat, p: nat)
    requires p / 8 < n
    ensures !GetBit(Zeros(n), p)
  {
    BitOfZero(p % 8);
  }

  /** An empty filter denies every key. */
  lemma EmptyDenies(m: nat, key: Bytes)
    requires Sized(Zeros((m + 7) / 8), m)
    ensures !Claims(Zeros((m + 7) / 8), m, key)
  {
    ProbesFit(Zeros((m + 7) / 8), m, key);
    var p := Probes(key, m)[0];
    assert p in Probes(key, m);
    ClearBit((m + 7) / 8, p);
  }

  /** Exactly which keys a filter claims: those each of whose positions some added key has. */
  lemma ClaimsExactly(m: nat, keys: seq<Bytes>, key: Bytes)
    requires Sized(Zeros((m + 7) / 8), m)
    ensures Claims(AddKeys(Zeros((m + 7) / 8), m, keys), m, key) <==>
            forall p :: p in Probes(key, m) ==> exists i :: 0 <= i < |keys| && p in Probes(keys[i], m)
  {
    var zero := Zeros((m + 7) / 8);
    ProbesFit(zero, m, key);
    forall p | p in Probes(key, m)
      ensures GetBit(AddKeys(zero, m, keys), p) <==> exists i :: 0 <= i < |keys| && p in Probes(keys[i], m)
    {
      ClearBit((m + 7) / 8, p);
      BitsAdded(zero, m, keys, p);
    }
  }

  /** No false negatives: every key ever added is claimed, whatever was added around it. */
  lemma {:induction false} NoFalseNegatives(bits: Bytes, m: nat, keys: seq<Bytes>, key: Bytes)
    requires Sized(bits, m) && key in keys
    ensures Claims(AddKeys(bits, m, keys), m, key)
  {
    var rest, last := keys[..|keys| - 1], keys[|keys| - 1];
    assert keys == rest + [last];
    AddKeyClaims(AddKeys(bits, m, rest), m, last, key);
    if key == last {
    } else {
      NoFalseNegatives(bits, m, rest, key);
    }
  }

  // ── the filter object ─────────────────────────────────────────────────────

  /** Bits in a fresh filter when the floating-point estimate asks for `wanted`. */
  function SizeFor(wanted: nat): (m: nat)
    ensures m >= 64
  {
    if wanted > TWO_63 || CeilPow2(wanted) < 64 then 64 else CeilPow2(wanted)
  }

  lemma SizeForIsPow2(wanted: nat)
    ensures IsPow2(SizeFor(wanted)) && SizeFor(wanted) <= TWO_63
  {
    assert 64 == Pow2(6);
    Pow2Values(63);
    CeilPow2IsLeast(wanted, 63);
  }

  /** It is the least power of two that is at least both the estimate and 64; above 2^63 the
      wrapped size leaves 64. */
  lemma SizeForIsLeast(wanted: nat, k: nat)
    ensures wanted > TWO_63 ==> SizeFor(wanted) == 64
    ensures wanted <= TWO_63 ==>
              SizeFor(wanted) >= wanted && SizeFor(wanted) >= 64 &&
              (Pow2(k) >= wanted && Pow2(k) >= 64 ==> SizeFor(wanted) <= Pow2(k))
  {
    CeilPow2IsLeast(wanted, k);
  }

  class BloomFilter {
    var m: nat
    var bits: array<uint8>

    ghost predicate Valid()
      reads this, bits
    {
      Sized(bits[..], m)
    }

    constructor (wanted: nat)
      requires wanted < U64_LIMIT
      ensures Valid() && fresh(bits)
      ensures m == SizeFor(wanted) && bits[..] == Zeros((m + 7) / 8)
    {
      var size := NextPow2(wanted);
      if size < 64 { size := 64; }
      m := size;
      bits := new uint8[(size + 7) / 8](_ => 0);
      new;
      SizeForIsPow2(wanted);
      assert bits[..] == Zeros((m + 7) / 8);
    }

    /** The deserialising constructor; None stands for the "truncated data" exception. */
    static method FromBytes(data: Bytes, numBits: nat) returns (r: Option<BloomFilter>)
      requires numBits < U32_LIMIT
      ensures r.Some? <==> (CeilPow2(numBits) + 7) / 8 <= |data|
      ensures r.Some? ==> fresh(r.value) && fresh(r.value.bits) && r.value.Valid() &&
                          r.value.m == CeilPow2(numBits) &&
                          r.value.bits[..] == data[..(CeilPow2(numBits) + 7) / 8]
    {
      Pow2Values(63);
      var size := NextPow2(numBits);
      if (size + 7) / 8 > |data| { return None; }
      var f := new BloomFilter.Raw(size, data[..(size + 7) / 8]);
      CeilPow2IsLeast(numBits, 63);
      r := Some(f);
    }

    constructor Raw(size: nat, data: Bytes)
      ensures m == size && bits[..] == data && fresh(bits)
    {
      m := size;
      bits := new uint8[|data|](i requires 0 <= i < |data| => data[i]);
      new;
      assert bits[..] == data;
    }

    method SetBitAt(i: nat)
      requires i / 8 < bits.Length
      modifies bits
      ensures bits[..] == SetBit(old(bits[..]), i)
    {
      ByteBit(bits[i / 8], i % 8);
      bits[i / 8] := Or(bits[i / 8] as int, Pow2(i % 8)) as uint8;
    }

    predicate GetBitAt(i: nat)
      requires i / 8 < bits.Length
      reads this, bits
      ensures GetBitAt(i) == GetBit(bits[..], i)
    {
      Bit(bits[i / 8] as int, i % 8) == 1
    }

    method ProbePositions(key: Bytes, pos: array<nat>)
      requires m > 0 && pos.Length == K
      modifies pos
      ensures pos[..] == Probes(key, m)
    {
      var h1 := HashA(key);
      var h2 := HashB(key);
      for i := 0 to K
        invariant forall j :: 0 <= j < i ==> pos[j] == Probes(key, m)[j]
      {
        pos[i] := And((h1 + i * h2 % U64_LIMIT) % U64_LIMIT, m - 1);
      }
    }

    method Add(key: Bytes)
      requires Valid()
      modifies bits
      ensures Valid() && bits[..] == AddKey(old(bits[..]), m, key)
    {
      ghost var before := bits[..];
      ghost var ps := Probes(key, m);
      ProbesFit(before, m, key);
      var pos := new nat[K];
      ProbePositions(key, pos);
      for i := 0 to K
        invariant pos[..] == ps && fresh(pos)
        invariant InRange(before, ps[..i]) && bits[..] == SetBits(before, ps[..i])
      {
        assert ps[..i + 1][..i] == ps[..i];
        assert pos[i] == ps[i];
        SetBitAt(pos[i]);
      }
      assert ps[..K] == ps;
    }

    method MayContain(key: Bytes) returns (yes: bool)
      requires Valid()
      ensures yes <==> Claims(bits[..], m, key)
      ensures m > 0 && |Probes(key, m)| == 7 && InRange(bits[..], Probes(key, m))
      ensures yes <==> forall i :: 0 <= i < 7 ==> GetBit(bits[..], Probes(key, m)[i])
    {
      ProbesFit(bits[..], m, key);
      var pos := new nat[K];
      ProbePositions(key, pos);
      ghost var ps := Probes(key, m);
      for i := 0 to K
        invariant pos[..] == ps
        invariant forall j :: 0 <= j < i ==> GetBit(bits[..], ps[j])
      {
        assert pos[i] == ps[i] && ps[i] in ps;
        if !GetBitAt(pos[i]) { return false; }
      }
      yes := true;
    }
  }

  // ── through the file ──────────────────────────────────────────────────────

  /** What `num_bits()` keeps of the size, and whether the byte array can be reloaded from it:
      a saved filter comes back with its own size exactly when the size is at most 2^31 bits.
      One size up, the 32-bit cast yields 0 and the reload is refused or shrinks to one bit. */
  lemma ReloadKeepsSize(m: nat)
    requires IsPow2(m)
    ensures CeilPow2(m % U32_LIMIT) == m <==> m <= TWO_31
  {
    var k: nat :| m == Pow2(k);
    Pow2Values(31);
    Pow2Values(32);
    Pow2Order(k, 31);
    CeilPow2Fixed(k);
    if k <= 31 {
      SmallMod(m, U32_LIMIT);
    } else {
      Pow2Sum(32, k - 32);
      DivUnique(m, U32_LIMIT, Pow2(k - 32), 0);
    }
  }

  /** The bytes the loader reads back for a saved size: all of them, or none once the size
      no longer fits. */
  lemma SavedBytes(bits: Bytes, m: nat)
    requires Sized(bits, m) && m >= 64
    ensures var num := m % U32_LIMIT;
            && (num + 7) % U32_LIMIT / 8 <= |bits|
            && ((CeilPow2(num) + 7) / 8 <= (num + 7) % U32_LIMIT / 8 <==> m <= TWO_31)
            && (m <= TWO_31 ==> CeilPow2(num) == m && bits[..(num + 7) % U32_LIMIT / 8] == bits &&
                                bits[..(m + 7) / 8] == bits)
  {
    ReloadKeepsSize(m);
    var k: nat :| m == Pow2(k);
    Pow2Values(31);
    Pow2Values(32);
    if m <= TWO_31 {
      SmallMod(m, U32_LIMIT);
      SmallMod(m + 7, U32_LIMIT);
    } else {
      Pow2Order(k, 31);
      Pow2Sum(32, k - 32);
      DivUnique(m, U32_LIMIT, Pow2(k - 32), 0);
    }
  }

  /** Build, add, save, reload: the filter comes back, with every bit, exactly when its size
      is at most 2^31; then it answers like the original and denies no added key. */
  method SaveAndReload(wanted: nat, keys: seq<Bytes>) returns (r: Option<BloomFilter>)
    requires wanted < U64_LIMIT
    ensures r.Some? <==> SizeFor(wanted) <= TWO_31
    ensures r.Some? ==> r.value.Valid() && r.value.m == SizeFor(wanted)
    ensures r.Some? ==> Sized(Zeros((r.value.m + 7) / 8), r.value.m) &&
                        r.value.bits[..] == AddKeys(Zeros((r.value.m + 7) / 8), r.value.m, keys)
    ensures r.Some? ==> forall key :: key in keys ==> Claims(r.value.bits[..], r.value.m, key)
  {
    var f := new BloomFilter(wanted);
    ghost var zero := f.bits[..];
    for i := 0 to |keys|
      invariant f.Valid() && fresh(f) && fresh(f.bits) && f.m == SizeFor(wanted)
      invariant f.bits[..] == AddKeys(zero, f.m, keys[..i])
    {
      assert keys[..i + 1][..i] == keys[..i];
      f.Add(keys[i]);
    }
    assert keys[..|keys|] == keys;
    SavedBytes(f.bits[..], f.m);
    var num := f.m % U32_LIMIT;
    r := BloomFilter.FromBytes(f.bits[..(num + 7) % U32_LIMIT / 8], num);
    forall key | key in keys ensures Claims(AddKeys(zero, f.m, keys), f.m, key) {
      NoFalseNegatives(zero, f.m, keys, key);
    }
  }
}
