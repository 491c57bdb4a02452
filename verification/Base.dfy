/** Bytes, the little-endian field codec, and the key order shared by every layer. */
module Base {
  import opened Arith

  datatype Option<+T> = None | Some(value: T)

  newtype uint8 = x: int | 0 <= x < 256

  /** A `std::string` used as raw bytes: keys, values and file contents. */
  type Bytes = seq<uint8>

  /** A MemTable slot; a tombstone records a deletion. */
  datatype MemEntry = MemEntry(value: Bytes, tombstone: bool)

  const U32_LIMIT: nat := 0x1_0000_0000
  const U64_LIMIT: nat := 0x1_0000_0000_0000_0000

  lemma Assoc<T>(a: seq<T>, b: seq<T>, c: seq<T>)
    ensures (a + b) + c == a + (b + c)
  {
  }

  lemma PrefixCons<T>(s: seq<T>, n: nat)
    requires 0 < n <= |s|
    ensures s[..n] == [s[0]] + s[1..][..n - 1]
  {
  }

  lemma SplitAt<T>(s: seq<T>, i: nat)
    requires i <= |s|
    ensures s == s[..i] + s[i..]
  {
  }

  lemma ConsHead<T>(s: seq<T>, t: seq<T>)
    requires s != []
    ensures s + t == [s[0]] + (s[1..] + t)
  {
  }

  // ── little-endian integers ────────────────────────────────────────────────

  /** The low `n` bytes of `v`, least significant first: what `fwrite(&v, n, 1, f)`
      leaves in the file after a cast of `v` to an n-byte unsigned integer. */
  function LE(v: nat, n: nat): (b: Bytes)
    ensures |b| == n
  {
    if n == 0 then [] else [(v % 256) as uint8] + LE(v / 256, n - 1)
  }

  function FromLE(b: Bytes): nat {
    if b == [] then 0 else b[0] as int + 256 * FromLE(b[1..])
  }

  function Pow256(n: nat): (p: nat)
    ensures p > 0
  {
    if n == 0 then 1 else 256 * Pow256(n - 1)
  }

  /** Reading back an n-byte field gives the value modulo 256^n. */
  lemma {:induction false} FromLEofLE(v: nat, n: nat)
    ensures FromLE(LE(v, n)) == v % Pow256(n)
  {
    if n == 0 {
    } else {
      FromLEofLE(v / 256, n - 1);
      assert LE(v, n)[1..] == LE(v / 256, n - 1);
      ModSplit(v, 256, Pow256(n - 1));
    }
  }

  /** Byte i of a field is digit i of the value in base 256. */
  lemma {:induction false} LEDigit(v: nat, n: nat, i: nat)
    requires i < n
    ensures LE(v, n)[i] as int == v / Pow256(i) % 256
  {
    if i == 0 {
    } else {
      LEDigit(v / 256, n - 1, i - 1);
      ModSplit(v, 256, Pow256(i - 1));
    }
  }

  lemma U32RoundTrip(v: nat)
    ensures FromLE(LE(v, 4)) == v % U32_LIMIT
  {
    FromLEofLE(v, 4);
    assert Pow256(4) == U32_LIMIT by { Pow256Values(); }
  }

  lemma U64RoundTrip(v: nat)
    ensures FromLE(LE(v, 8)) == v % U64_LIMIT
  {
    FromLEofLE(v, 8);
    Pow256Values();
  }

  lemma Pow256Values()
    ensures Pow256(4) == U32_LIMIT && Pow256(8) == U64_LIMIT
  {
    assert Pow256(2) == 0x1_0000;
    assert Pow256(4) == 0x1_0000_0000;
    assert Pow256(6) == 0x1_0000_0000_0000;
  }

  function Zeros(n: nat): (b: Bytes)
    ensures |b| == n
  {
    seq(n, i requires 0 <= i => 0)
  }

  lemma {:induction false} LEZero(n: nat)
    ensures LE(0, n) == Zeros(n)
  {
    if n == 0 {
    } else {
      LEZero(n - 1);
      assert Zeros(n) == [0] + Zeros(n - 1);
    }
  }

  /** A small value is its one byte and zeros. */
  lemma LESmall(v: nat, n: nat)
    requires v < 256 && n > 0
    ensures LE(v, n) == [v as uint8] + Zeros(n - 1)
  {
    LEZero(n - 1);
  }

  // ── length-prefixed strings ───────────────────────────────────────────────

  /** `wstr`: a 4-byte length (truncated to 32 bits), then all the bytes. */
  function WStr(s: Bytes): (b: Bytes)
    ensures |b| == 4 + |s|
  {
    LE(|s|, 4) + s
  }

  /** The bytes `s` stand in `f` at `pos`. */
  ghost predicate Has(f: Bytes, pos: nat, s: Bytes) {
    pos + |s| <= |f| && f[pos..pos + |s|] == s
  }

  lemma HasParts(f: Bytes, pos: nat, a: Bytes, b: Bytes)
    requires Has(f, pos, a + b)
    ensures Has(f, pos, a) && Has(f, pos + |a|, b)
  {
    var s := a + b;
    assert s[..|a|] == a && s[|a|..] == b;
    assert f[pos..pos + |a|] == f[pos..pos + |s|][..|a|];
    assert f[pos + |a|..pos + |s|] == f[pos..pos + |s|][|a|..];
  }

  lemma HasBoth(f: Bytes, pos: nat, a: Bytes, b: Bytes)
    requires Has(f, pos, a) && Has(f, pos + |a|, b)
    ensures Has(f, pos, a + b)
  {
    assert f[pos..pos + |a + b|] == f[pos..pos + |a|] + f[pos + |a|..pos + |a| + |b|];
  }

  /** Four bytes of `f` at `pos`, as `ru32` reads them. */
  function U32At(f: Bytes, pos: nat): (v: nat)
    requires pos + 4 <= |f|
    ensures v < U32_LIMIT
  {
    f[pos] as int + 0x100 * f[pos + 1] as int + 0x1_0000 * f[pos + 2] as int + 0x100_0000 * f[pos + 3] as int
  }

  lemma FromLEFour(b: Bytes)
    requires |b| == 4
    ensures FromLE(b) == b[0] as int + 0x100 * b[1] as int + 0x1_0000 * b[2] as int + 0x100_0000 * b[3] as int
  {
    var c1, c2, c3 := b[1..], b[1..][1..], b[1..][1..][1..];
    assert FromLE(b) == b[0] as int + 256 * FromLE(c1);
    assert FromLE(c1) == b[1] as int + 256 * FromLE(c2);
    assert FromLE(c2) == b[2] as int + 256 * FromLE(c3);
    assert FromLE(c3) == b[3] as int;
  }

  lemma U32AtIsLE(f: Bytes, pos: nat)
    requires pos + 4 <= |f|
    ensures U32At(f, pos) == FromLE(f[pos..pos + 4])
  {
    FromLEFour(f[pos..pos + 4]);
  }

  lemma U32AtHas(f: Bytes, pos: nat, v: nat)
    requires v < U32_LIMIT && Has(f, pos, LE(v, 4))
    ensures U32At(f, pos) == v
  {
    U32AtIsLE(f, pos);
    U32RoundTrip(v);
    SmallMod(v, U32_LIMIT);
  }

  /** `rstr`: the string and the position behind it. */
  function StrAt(f: Bytes, pos: nat): (r: Option<(Bytes, nat)>)
    ensures r.Some? ==> pos + 4 <= r.value.1 <= |f| && r.value.1 == pos + 4 + |r.value.0|
  {
    if pos + 4 > |f| || pos + 4 + U32At(f, pos) > |f| then None
    else Some((f[pos + 4..pos + 4 + U32At(f, pos)], pos + 4 + U32At(f, pos)))
  }

  lemma StrAtHas(f: Bytes, pos: nat, s: Bytes)
    requires |s| < U32_LIMIT && Has(f, pos, WStr(s))
    ensures StrAt(f, pos) == Some((s, pos + |WStr(s)|))
  {
    HasParts(f, pos, LE(|s|, 4), s);
    U32AtHas(f, pos, |s|);
  }

  /** A string cut anywhere inside its encoding cannot be read. */
  lemma StrAtTorn(f: Bytes, pos: nat, s: Bytes)
    requires |s| < U32_LIMIT && pos <= |f| < pos + |WStr(s)| && f[pos..] == WStr(s)[..|f| - pos]
    ensures StrAt(f, pos) == None
  {
    if pos + 4 <= |f| {
      assert f[pos..pos + 4] == f[pos..][..4] == WStr(s)[..4] == LE(|s|, 4);
      U32AtHas(f, pos, |s|);
    }
  }

  /** What was read stands there encoded. */
  lemma HasStrAt(f: Bytes, pos: nat)
    requires StrAt(f, pos).Some?
    ensures |StrAt(f, pos).value.0| < U32_LIMIT && Has(f, pos, WStr(StrAt(f, pos).value.0))
  {
    var s := StrAt(f, pos).value.0;
    U32AtIsLE(f, pos);
    LEofFromLE(f[pos..pos + 4]);
    HasBoth(f, pos, LE(|s|, 4), s);
  }

  lemma LEofFromLE(b: Bytes)
    ensures FromLE(b) < Pow256(|b|) && LE(FromLE(b), |b|) == b
  {
    if b == [] {
    } else {
      var rest := FromLE(b[1..]);
      LEofFromLE(b[1..]);
      DivUnique(FromLE(b), 256, rest, b[0] as int);
      assert LE(FromLE(b), |b|) == [b[0]] + LE(rest, |b| - 1);
    }
  }

  // ── key order ─────────────────────────────────────────────────────────────

  /** `std::string` order: lexicographic on unsigned bytes. */
  predicate Less(a: Bytes, b: Bytes) {
    b != [] && (a == [] || a[0] < b[0] || (a[0] == b[0] && Less(a[1..], b[1..])))
  }

  lemma {:induction false} LessIrreflexive(a: Bytes)
    ensures !Less(a, a)
  {
    if a == [] {
    } else {
      LessIrreflexive(a[1..]);
    }
  }

  lemma {:induction false} LessTransitive(a: Bytes, b: Bytes, c: Bytes)
    requires Less(a, b) && Less(b, c)
    ensures Less(a, c)
  {
    if a == [] || a[0] != b[0] || b[0] != c[0] {
    } else {
      LessTransitive(a[1..], b[1..], c[1..]);
    }
  }

  /** `a` is before `b` when they agree up to some place and there `a` ends, or has the
      smaller byte. */
  ghost predicate SplitsAt(a: Bytes, b: Bytes, n: nat) {
    && n <= |a| && n < |b| && a[..n] == b[..n]
    && (n == |a| || a[n] as int < b[n] as int)
  }

  lemma {:induction false} LessIsLexicographic(a: Bytes, b: Bytes)
    ensures Less(a, b) <==> exists n: nat :: SplitsAt(a, b, n)
  {
    if a == [] || b == [] || a[0] != b[0] {
      assert SplitsAt(a, b, 0) <==> Less(a, b);
      forall n: nat ensures SplitsAt(a, b, n) ==> n == 0 {
        if 0 < n <= |a| && n < |b| { assert a[..n][0] == a[0] && b[..n][0] == b[0]; }
      }
    } else {
      LessIsLexicographic(a[1..], b[1..]);
      if n: nat :| SplitsAt(a[1..], b[1..], n) { SplitsDeeper(a, b, n); }
      if n: nat :| SplitsAt(a, b, n) { SplitsDeeper(a, b, n - 1); }
    }
  }

  lemma SplitsDeeper(a: Bytes, b: Bytes, n: nat)
    requires a != [] && b != [] && a[0] == b[0]
    ensures SplitsAt(a, b, n + 1) <==> SplitsAt(a[1..], b[1..], n)
  {
    if n < |a| && n + 1 < |b| {
      PrefixCons(a, n + 1);
      PrefixCons(b, n + 1);
      assert a[1..n + 1] == a[1..][..n] && b[1..n + 1] == b[1..][..n];
      assert a[..n + 1][1..] == a[1..][..n] && b[..n + 1][1..] == b[1..][..n];
    }
  }

  lemma {:induction false} LessTotal(a: Bytes, b: Bytes)
    ensures a == b || Less(a, b) || Less(b, a)
  {
    if a == [] || b == [] || a[0] != b[0] {
    } else {
      LessTotal(a[1..], b[1..]);
      assert a == [a[0]] + a[1..] && b == [b[0]] + b[1..];
    }
  }

  ghost predicate IsLeast(k: Bytes, keys: set<Bytes>) {
    k in keys && forall o :: o in keys ==> o == k || Less(k, o)
  }

  lemma {:induction false} LeastExists(keys: set<Bytes>)
    requires keys != {}
    ensures exists k :: IsLeast(k, keys)
  {
    var k :| k in keys;
    var rest := keys - {k};
    if rest == {} {
      forall o | o in keys ensures o == k { assert o == k || o in rest; }
      assert IsLeast(k, keys);
    } else {
      LeastExists(rest);
      var least :| IsLeast(least, rest);
      LessTotal(k, least);
      if Less(least, k) {
        assert IsLeast(least, keys);
      } else {
        forall o | o in keys && o != k ensures Less(k, o) {
          if o != least { LessTransitive(k, least, o); }
        }
        assert IsLeast(k, keys);
      }
    }
  }

  lemma LeastUnique(a: Bytes, b: Bytes, keys: set<Bytes>)
    requires IsLeast(a, keys) && IsLeast(b, keys)
    ensures a == b
  {
    if a != b {
      LessTransitive(a, b, a);
      LessIrreflexive(a);
    }
  }

  ghost predicate Ascending(ks: seq<Bytes>) {
    forall i, j :: 0 <= i < j < |ks| ==> Less(ks[i], ks[j])
  }

  /** The iteration order of a `std::map`: its keys, ascending. */
  ghost function InOrder(keys: set<Bytes>): (ks: seq<Bytes>)
    ensures forall k :: k in ks <==> k in keys
    ensures Ascending(ks) && |ks| == |keys|
  {
    if keys == {} then []
    else
      var k: Bytes := LeastOf(keys);
      [k] + InOrder(keys - {k})
  }

  ghost function LeastOf(keys: set<Bytes>): (k: Bytes)
    requires keys != {}
    ensures IsLeast(k, keys)
  {
    LeastExists(keys);
    var k :| IsLeast(k, keys);
    k
  }
}
