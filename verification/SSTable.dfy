/** The immutable sorted file of `src/sstable.cpp`, byte for byte: writer, loader,
    indexed lookup and full scan. */
module SSTable {
  import opened Arith
  import opened Base
  import opened Bits
  import opened Bloom

  const INDEX_STRIDE: nat := 16

  datatype Row = Row(key: Bytes, entry: MemEntry)
  datatype IndexPoint = IndexPoint(key: Bytes, offset: nat)

  /** Three answers: a tombstone here must hide an older value elsewhere. */
  datatype LookupResult = NotFound | Tombstone | Found(value: Bytes)

  function Answer(e: MemEntry): LookupResult {
    if e.tombstone then Tombstone else Found(e.value)
  }

  function MapLookup(entries: map<Bytes, MemEntry>, key: Bytes): LookupResult {
    if key in entries then Answer(entries[key]) else NotFound
  }

  // ── layout ────────────────────────────────────────────────────────────────

  /** The key behind its length, a byte that is 1 for a tombstone, the value behind its length. */
  function EncodeRow(r: Row): (b: Bytes)
    ensures |b| == 9 + |r.key| + |r.entry.value|
  {
    WStr(r.key) + ([if r.entry.tombstone then 1 else 0] + WStr(r.entry.value))
  }

  function Data(rows: seq<Row>): Bytes {
    if rows == [] then [] else EncodeRow(rows[0]) + Data(rows[1..])
  }

  function EncodePoint(p: IndexPoint): Bytes {
    WStr(p.key) + LE(p.offset, 8)
  }

  function EncodePoints(ps: seq<IndexPoint>): Bytes {
    if ps == [] then [] else EncodePoint(ps[0]) + EncodePoints(ps[1..])
  }

  function Offset(rows: seq<Row>, i: nat): nat
    requires i <= |rows|
  {
    |Data(rows[..i])|
  }

  /** One index point for every INDEX_STRIDE-th row. */
  function Sparse(rows: seq<Row>): (ps: seq<IndexPoint>)
    ensures |ps| == (|rows| + INDEX_STRIDE - 1) / INDEX_STRIDE
  {
    seq((|rows| + INDEX_STRIDE - 1) / INDEX_STRIDE,
        i requires 0 <= i < (|rows| + INDEX_STRIDE - 1) / INDEX_STRIDE =>
          IndexPoint(rows[INDEX_STRIDE * i].key, Offset(rows, INDEX_STRIDE * i)))
  }

  function KeysOf(rows: seq<Row>): (ks: seq<Bytes>)
    ensures |ks| == |rows|
  {
    seq(|rows|, i requires 0 <= i < |rows| => rows[i].key)
  }

  ghost predicate FilterSize(m: nat) {
    IsPow2(m) && 64 <= m <= TWO_63
  }

  ghost function FilterBits(rows: seq<Row>, m: nat): (b: Bytes)
    requires FilterSize(m)
    ensures Sized(b, m)
  {
    AddKeys(Zeros((m + 7) / 8), m, KeysOf(rows))
  }

  ghost function BloomSection(rows: seq<Row>, m: nat): Bytes
    requires FilterSize(m)
  {
    LE(m, 4) + FilterBits(rows, m)
  }

  function IndexSection(rows: seq<Row>): Bytes {
    LE(|Sparse(rows)|, 4) + EncodePoints(Sparse(rows))
  }

  ghost function BloomOffset(rows: seq<Row>): nat {
    |Data(rows)|
  }

  ghost function IndexOffset(rows: seq<Row>, m: nat): nat
    requires FilterSize(m)
  {
    |Data(rows)| + |BloomSection(rows, m)|
  }

  ghost function Footer(rows: seq<Row>, m: nat): (b: Bytes)
    requires FilterSize(m)
    ensures |b| == 16
  {
    LE(BloomOffset(rows), 8) + LE(IndexOffset(rows, m), 8)
  }

  /** data | bloom | index | footer */
  ghost function FileOf(rows: seq<Row>, m: nat): Bytes
    requires FilterSize(m)
  {
    Data(rows) + (BloomSection(rows, m) + (IndexSection(rows) + Footer(rows, m)))
  }

  /** The rows of a `std::map`, in its iteration order. */
  ghost function RowsOf(entries: map<Bytes, MemEntry>): (rows: seq<Row>)
    ensures |rows| == |entries|
  {
    var ks := InOrder(entries.Keys);
    seq(|ks|, i requires 0 <= i < |ks| => Row(ks[i], entries[ks[i]]))
  }

  ghost predicate AscendingRows(rows: seq<Row>) {
    forall i, j :: 0 <= i < j < |rows| ==> Less(rows[i].key, rows[j].key)
  }

  /** Every length, count, offset and the filter size survive their fixed-width fields. */
  ghost predicate FitsFields(rows: seq<Row>, m: nat) {
    && FilterSize(m) && m <= TWO_31
    && |rows| < TWO_31
    && (forall i :: 0 <= i < |rows| ==> |rows[i].key| < U32_LIMIT && |rows[i].entry.value| < U32_LIMIT)
    && |FileOf(rows, m)| < TWO_63
  }

  // ── writer ────────────────────────────────────────────────────────────────

  lemma {:induction false} DataConcat(a: seq<Row>, b: seq<Row>)
    ensures Data(a + b) == Data(a) + Data(b)
  {
    if a == [] {
      assert a + b == b;
    } else {
      DataConcat(a[1..], b);
      assert (a + b)[1..] == a[1..] + b;
      Assoc(EncodeRow(a[0]), Data(a[1..]), Data(b));
    }
  }

  lemma DataOfOne(r: Row)
    ensures Data([r]) == EncodeRow(r)
  {
    assert [r][1..] == [];
  }

  lemma DataSnoc(rows: seq<Row>, i: nat)
    requires i < |rows|
    ensures Data(rows[..i + 1]) == Data(rows[..i]) + EncodeRow(rows[i])
  {
    DataConcat(rows[..i], [rows[i]]);
    DataOfOne(rows[i]);
    assert rows[..i + 1] == rows[..i] + [rows[i]];
  }

  lemma {:induction false} PointsConcat(a: seq<IndexPoint>, b: seq<IndexPoint>)
    ensures EncodePoints(a + b) == EncodePoints(a) + EncodePoints(b)
  {
    if a == [] {
      assert a + b == b;
    } else {
      PointsConcat(a[1..], b);
      assert (a + b)[1..] == a[1..] + b;
      Assoc(EncodePoint(a[0]), EncodePoints(a[1..]), EncodePoints(b));
    }
  }

  lemma PointsSnoc(ps: seq<IndexPoint>, i: nat)
    requires i < |ps|
    ensures EncodePoints(ps[..i + 1]) == EncodePoints(ps[..i]) + EncodePoint(ps[i])
  {
    PointsConcat(ps[..i], [ps[i]]);
    assert [ps[i]][1..] == [];
    assert ps[..i + 1] == ps[..i] + [ps[i]];
  }

  lemma InOrderStep(key: Bytes, keys: set<Bytes>)
    requires IsLeast(key, keys)
    ensures InOrder(keys) == [key] + InOrder(keys - {key})
  {
    LeastUnique(key, LeastOf(keys), keys);
  }

  method FindLeast(keys: set<Bytes>) returns (key: Bytes)
    requires keys != {}
    ensures IsLeast(key, keys)
  {
    LeastExists(keys);
    key :| key in keys && forall o :: o in keys ==> o == key || Less(key, o);
  }

  /** Walking a `std::map` from begin() to end(). */
  method Iterate(entries: map<Bytes, MemEntry>) returns (rows: seq<Row>)
    ensures rows == RowsOf(entries)
  {
    var rest := entries.Keys;
    var ks := [];
    while rest != {}
      invariant ks + InOrder(rest) == InOrder(entries.Keys)
    {
      var key := FindLeast(rest);
      InOrderStep(key, rest);
      Assoc(ks, [key], InOrder(rest - {key}));
      ks := ks + [key];
      rest := rest - {key};
    }
    assert ks + [] == ks;
    rows := seq(|ks|, i requires 0 <= i < |ks| => Row(ks[i], entries[ks[i]]));
  }

  /** Filling the filter from the keys. */
  method FillFilter(rows: seq<Row>, wanted: nat) returns (bloom: BloomFilter)
    requires wanted < U64_LIMIT
    ensures FilterSize(SizeFor(wanted)) && fresh(bloom) && fresh(bloom.bits)
    ensures bloom.Valid() && bloom.m == SizeFor(wanted)
    ensures bloom.bits[..] == FilterBits(rows, SizeFor(wanted))
  {
    SizeForIsPow2(wanted);
    bloom := new BloomFilter(wanted);
    ghost var zero, ks := bloom.bits[..], KeysOf(rows);
    for i := 0 to |rows|
      invariant fresh(bloom) && fresh(bloom.bits) && bloom.Valid() && bloom.m == SizeFor(wanted)
      invariant Sized(zero, bloom.m) && bloom.bits[..] == AddKeys(zero, bloom.m, ks[..i])
    {
      assert ks[..i + 1][..i] == ks[..i];
      bloom.Add(rows[i].key);
    }
    assert ks[..|rows|] == ks;
  }

  lemma SparseSnoc(rows: seq<Row>, n: nat)
    requires n < |rows|
    ensures var c := (n + INDEX_STRIDE - 1) / INDEX_STRIDE;
            && c <= |Sparse(rows)|
            && (n % INDEX_STRIDE == 0 ==>
                  c < |Sparse(rows)| && (n + INDEX_STRIDE) / INDEX_STRIDE == c + 1 &&
                  Sparse(rows)[..c + 1] == Sparse(rows)[..c] + [IndexPoint(rows[n].key, Offset(rows, n))])
            && (n % INDEX_STRIDE != 0 ==> (n + INDEX_STRIDE) / INDEX_STRIDE == c)
  {
    if n % INDEX_STRIDE == 0 {
      var c := n / INDEX_STRIDE;
      assert n == INDEX_STRIDE * c;
      assert Sparse(rows)[c] == IndexPoint(rows[n].key, Offset(rows, n));
    }
  }

  method WriteRow(f: Bytes, row: Row) returns (g: Bytes)
    ensures g == f + EncodeRow(row)
  {
    g := f + WStr(row.key);
    g := g + [if row.entry.tombstone then 1 else 0];
    g := g + WStr(row.entry.value);
    Assoc(f + WStr(row.key), [if row.entry.tombstone then 1 else 0], WStr(row.entry.value));
    Assoc(f, WStr(row.key), [if row.entry.tombstone then 1 else 0] + WStr(row.entry.value));
  }

  /** The data section and the sparse index points met on the way. */
  method WriteData(rows: seq<Row>) returns (f: Bytes, sparse: seq<IndexPoint>)
    ensures f == Data(rows) && sparse == Sparse(rows)
    ensures |sparse| == (|rows| + 15) / 16
    ensures forall i :: 0 <= i < |sparse| ==> sparse[i] == IndexPoint(rows[16 * i].key, |Data(rows[..16 * i])|)
  {
    f, sparse := [], [];
    var n := 0;
    while n < |rows|
      invariant n <= |rows| && f == Data(rows[..n])
      invariant (n + INDEX_STRIDE - 1) / INDEX_STRIDE <= |Sparse(rows)|
      invariant sparse == Sparse(rows)[..(n + INDEX_STRIDE - 1) / INDEX_STRIDE]
    {
      SparseSnoc(rows, n);
      DataSnoc(rows, n);
      if n % INDEX_STRIDE == 0 {
        sparse := sparse + [IndexPoint(rows[n].key, |f|)];
      }
      f := WriteRow(f, rows[n]);
      n := n + 1;
    }
    assert rows[..n] == rows;
  }

  lemma Flatten(d: Bytes, a: Bytes, b: Bytes, c: Bytes, e: Bytes, g: Bytes, h: Bytes)
    ensures (((((d + a) + b) + c) + e) + g) + h == d + ((a + b) + ((c + e) + (g + h)))
  {
  }

  lemma Assembled(rows: seq<Row>, m: nat, bits: Bytes)
    requires FilterSize(m) && bits == FilterBits(rows, m)
    ensures (((((Data(rows) + LE(m, 4)) + bits) + LE(|Sparse(rows)|, 4)) + EncodePoints(Sparse(rows)))
              + LE(|Data(rows)|, 8)) + LE(|(Data(rows) + LE(m, 4)) + bits|, 8)
            == FileOf(rows, m)
  {
    assert |(Data(rows) + LE(m, 4)) + bits| == IndexOffset(rows, m);
    Flatten(Data(rows), LE(m, 4), bits, LE(|Sparse(rows)|, 4), EncodePoints(Sparse(rows)),
            LE(BloomOffset(rows), 8), LE(IndexOffset(rows, m), 8));
  }

  method WriteIndex(f: Bytes, sparse: seq<IndexPoint>) returns (r: Bytes)
    ensures r == f + LE(|sparse|, 4) + EncodePoints(sparse)
  {
    r := f + LE(|sparse|, 4);
    ghost var before := r;
    for i := 0 to |sparse|
      invariant r == before + EncodePoints(sparse[..i])
    {
      PointsSnoc(sparse, i);
      r := r + WStr(sparse[i].key);
      r := r + LE(sparse[i].offset, 8);
    }
    assert sparse[..|sparse|] == sparse;
  }

  /** `SSTable::build`, with the float-computed filter estimate as the parameter `wanted`.
      The row counter is a signed 32-bit `int`. */
  method Build(entries: map<Bytes, MemEntry>, wanted: nat) returns (f: Bytes)
    requires wanted < U64_LIMIT && |entries| < TWO_31
    ensures FilterSize(SizeFor(wanted)) && f == FileOf(RowsOf(entries), SizeFor(wanted))
  {
    var rows := Iterate(entries);
    var bloom := FillFilter(rows, wanted);
    var sparse;
    f, sparse := WriteData(rows);
    var bloomOffset := |f|;
    f := f + LE(bloom.m, 4);
    f := f + bloom.bits[..];
    var indexOffset := |f|;
    f := WriteIndex(f, sparse);
    f := f + LE(bloomOffset, 8);
    f := f + LE(indexOffset, 8);
    Assembled(rows, bloom.m, bloom.bits[..]);
  }
}
