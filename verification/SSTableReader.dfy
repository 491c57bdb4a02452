/** Opening and reading the sorted file: `load_meta`, `lookup` and `scan_all`. The functions
    say what the reading loops compute on any bytes; the lemmas say what that is on a file
    the writer produced. */
module SSTableReader {
  import opened Arith
  import opened Base
  import opened Bits
  import opened Bloom
  import opened SSTable

  // ── loading ───────────────────────────────────────────────────────────────

  datatype Meta = Meta(bloomOffset: nat, indexOffset: nat, m: nat, bits: Bytes, index: seq<IndexPoint>)

  /** `ru32` */
  function ReadU32(f: Bytes, pos: nat): Option<nat> {
    if pos + 4 <= |f| then Some(U32At(f, pos)) else None
  }

  /** `ru64` */
  function ReadU64(f: Bytes, pos: nat): Option<nat> {
    if pos + 8 <= |f| then Some(FromLE(f[pos..pos + 8])) else None
  }

  /** The default filter stays when the section cannot be read; None is the exception. */
  function LoadFilter(file: Bytes, pos: nat): Option<(nat, Bytes)> {
    match ReadU32(file, pos)
    case None => Some((64, Zeros(8)))
    case Some(num) =>
      var byteLen := (num + 7) % U32_LIMIT / 8;
      if pos + 4 + byteLen > |file| then Some((64, Zeros(8)))
      else if (CeilPow2(num) + 7) / 8 > byteLen then None
      else Some((CeilPow2(num), file[pos + 4..pos + 4 + byteLen][..(CeilPow2(num) + 7) / 8]))
  }

  function Defaults(n: nat): (ps: seq<IndexPoint>)
    ensures |ps| == n
  {
    seq(n, _ => IndexPoint([], 0))
  }

  /** What `rstr` leaves in its string when it fails: nothing without a length, else the bytes
      that are there, zeros after them. */
  function StrLeft(f: Bytes, pos: nat): (s: Bytes)
    requires StrAt(f, pos).None?
    ensures pos + 4 > |f| ==> s == []
    ensures pos + 4 <= |f| ==> |s| == U32At(f, pos) && Has(f, pos + 4, s[..|f| - pos - 4])
    ensures forall i :: 0 <= i < |s| && i >= |f| - pos - 4 ==> s[i] == 0
  {
    if pos + 4 > |f| then [] else f[pos + 4..] + Zeros(pos + 4 + U32At(f, pos) - |f|)
  }

  /** One index point as far as it can be read, and the position behind it when it is whole. */
  function PointAt(f: Bytes, pos: nat): (r: (IndexPoint, Option<nat>))
    ensures r.1.Some? ==> pos <= r.1.value <= |f|
  {
    match StrAt(f, pos)
    case None => (IndexPoint(StrLeft(f, pos), 0), None)
    case Some((key, at)) =>
      match ReadU64(f, at)
      case None => (IndexPoint(key, 0), None)
      case Some(offset) => (IndexPoint(key, offset), Some(at + 8))
  }

  /** `count` points, those after a short read left at their defaults. */
  function PointsAt(f: Bytes, pos: nat, count: nat): (ps: seq<IndexPoint>)
    ensures |ps| == count
    decreases count
  {
    if count == 0 then []
    else
      var (p, next) := PointAt(f, pos);
      [p] + if next.Some? then PointsAt(f, next.value, count - 1) else Defaults(count - 1)
  }

  function LoadIndex(file: Bytes, pos: nat): seq<IndexPoint> {
    match ReadU32(file, pos)
    case None => []
    case Some(count) => PointsAt(file, pos + 4, count)
  }

  function Load(file: Bytes): Option<Meta> {
    var start := if |file| >= 16 then |file| - 16 else 0;
    match ReadU64(file, start)
    case None => Some(Meta(0, 0, 64, Zeros(8), []))
    case Some(bo) =>
      match ReadU64(file, start + 8)
      case None => Some(Meta(bo, 0, 64, Zeros(8), []))
      case Some(io) =>
        LoadSections(file, bo, io)
  }

  function LoadSections(file: Bytes, bo: nat, io: nat): Option<Meta> {
    match LoadFilter(file, bo)
    case None => None
    case Some((m, bits)) => Some(Meta(bo, io, m, bits, LoadIndex(file, io)))
  }

  ghost function BuiltMeta(rows: seq<Row>, m: nat): Meta
    requires FilterSize(m)
  {
    Meta(BloomOffset(rows), IndexOffset(rows, m), m, FilterBits(rows, m), Sparse(rows))
  }

  ghost predicate PointsFit(ps: seq<IndexPoint>) {
    forall i :: 0 <= i < |ps| ==> PointFits(ps[i])
  }

  ghost predicate PointFits(p: IndexPoint) {
    |p.key| < U32_LIMIT && p.offset < U64_LIMIT
  }

  lemma {:induction false} PointsBack(f: Bytes, pos: nat, ps: seq<IndexPoint>)
    requires Has(f, pos, EncodePoints(ps)) && PointsFit(ps)
    ensures PointsAt(f, pos, |ps|) == ps
    decreases |ps|
  {
    if |ps| == 0 {
    } else {
      var next := pos + |EncodePoint(ps[0])|;
      PointsSplit(f, pos, ps);
      PointsBack(f, next, ps[1..]);
      PointsJoin(f, pos, ps, next);
    }
  }

  lemma PointsJoin(f: Bytes, pos: nat, ps: seq<IndexPoint>, next: nat)
    requires ps != [] && PointFits(ps[0]) && Has(f, pos, EncodePoint(ps[0]))
    requires next == pos + |EncodePoint(ps[0])| && PointsAt(f, next, |ps| - 1) == ps[1..]
    ensures PointsAt(f, pos, |ps|) == ps
  {
    PointBack(f, pos, ps[0]);
    PointsStep(f, pos, ps, next);
  }

  lemma PointsSplit(f: Bytes, pos: nat, ps: seq<IndexPoint>)
    requires ps != [] && Has(f, pos, EncodePoints(ps)) && PointsFit(ps)
    ensures Has(f, pos, EncodePoint(ps[0])) && PointFits(ps[0])
    ensures Has(f, pos + |EncodePoint(ps[0])|, EncodePoints(ps[1..])) && PointsFit(ps[1..])
  {
    HasParts(f, pos, EncodePoint(ps[0]), EncodePoints(ps[1..]));
  }

  lemma PointsStep(f: Bytes, pos: nat, ps: seq<IndexPoint>, next: nat)
    requires ps != [] && PointAt(f, pos) == (ps[0], Some(next)) && PointsAt(f, next, |ps| - 1) == ps[1..]
    ensures PointsAt(f, pos, |ps|) == ps
  {
    SplitAt(ps, 1);
    assert ps[..1] == [ps[0]];
  }

  /** The bytes of an index point: its key, then its offset in eight bytes. */
  lemma PointParts(f: Bytes, pos: nat, p: IndexPoint)
    requires Has(f, pos, EncodePoint(p))
    ensures Has(f, pos, WStr(p.key)) && Has(f, pos + 4 + |p.key|, LE(p.offset, 8))
  {
    HasParts(f, pos, WStr(p.key), LE(p.offset, 8));
  }

  lemma PointBack(f: Bytes, pos: nat, p: IndexPoint)
    requires PointFits(p) && Has(f, pos, EncodePoint(p))
    ensures PointAt(f, pos) == (p, Some(pos + |EncodePoint(p)|))
  {
    PointParts(f, pos, p);
    StrAtHas(f, pos, p.key);
    ReadU64Has(f, pos + |WStr(p.key)|, p.offset);
  }

  lemma ReadU64Has(f: Bytes, pos: nat, v: nat)
    requires v < U64_LIMIT && Has(f, pos, LE(v, 8))
    ensures ReadU64(f, pos) == Some(v)
  {
    U64RoundTrip(v);
    SmallMod(v, U64_LIMIT);
  }

  /** The sections of a built file lie where the two footer offsets say. */
  lemma FileSections(rows: seq<Row>, m: nat)
    requires FilterSize(m)
    ensures var f, bo, io := FileOf(rows, m), BloomOffset(rows), IndexOffset(rows, m);
            && bo <= io <= |f| - 16 && |f| == io + |IndexSection(rows)| + 16
            && Has(f, 0, Data(rows)) && Has(f, bo, BloomSection(rows, m))
            && Has(f, io, IndexSection(rows)) && Has(f, |f| - 16, Footer(rows, m))
  {
    Slices(Data(rows), BloomSection(rows, m), IndexSection(rows), Footer(rows, m));
  }

  lemma Slices(a: Bytes, b: Bytes, c: Bytes, d: Bytes)
    ensures var f := a + (b + (c + d));
            Has(f, 0, a) && Has(f, |a|, b) && Has(f, |a| + |b|, c) && Has(f, |a| + |b| + |c|, d)
  {
    var f := a + (b + (c + d));
    assert f[0..|f|] == f;
    HasParts(f, 0, a, b + (c + d));
    HasParts(f, |a|, b, c + d);
    HasParts(f, |a| + |b|, c, d);
  }

  lemma LoadFilterBack(rows: seq<Row>, m: nat)
    requires FitsFields(rows, m)
    ensures LoadFilter(FileOf(rows, m), BloomOffset(rows)) == Some((m, FilterBits(rows, m)))
  {
    FileSections(rows, m);
    LoadFilterHas(FileOf(rows, m), BloomOffset(rows), m, FilterBits(rows, m));
  }

  lemma LoadFilterHas(f: Bytes, bo: nat, m: nat, bits: Bytes)
    requires IsPow2(m) && m <= TWO_31 && |bits| == (m + 7) / 8 && Has(f, bo, LE(m, 4) + bits)
    ensures LoadFilter(f, bo) == Some((m, bits))
  {
    HasParts(f, bo, LE(m, 4), bits);
    U32AtHas(f, bo, m);
    ReloadKeepsSize(m);
    SmallMod(m, U32_LIMIT);
    SmallMod(m + 7, U32_LIMIT);
    assert bits[..(m + 7) / 8] == bits;
  }

  lemma SparseFits(rows: seq<Row>, m: nat)
    requires FitsFields(rows, m)
    ensures PointsFit(Sparse(rows))
  {
    forall i | 0 <= i < |Sparse(rows)| ensures PointFits(Sparse(rows)[i]) {
      assert Sparse(rows)[i].key == rows[INDEX_STRIDE * i].key;
      DataSplit(rows, INDEX_STRIDE * i);
    }
  }

  lemma LoadIndexBack(rows: seq<Row>, m: nat)
    requires FitsFields(rows, m)
    ensures LoadIndex(FileOf(rows, m), IndexOffset(rows, m)) == Sparse(rows)
  {
    FileSections(rows, m);
    SparseFits(rows, m);
    CountBack(FileOf(rows, m), IndexOffset(rows, m), |Sparse(rows)|, EncodePoints(Sparse(rows)));
    LoadIndexHas(FileOf(rows, m), IndexOffset(rows, m), Sparse(rows));
  }

  lemma LoadIndexHas(f: Bytes, io: nat, ps: seq<IndexPoint>)
    requires ReadU32(f, io) == Some(|ps|) && Has(f, io + 4, EncodePoints(ps)) && PointsFit(ps)
    ensures LoadIndex(f, io) == ps
  {
    PointsBack(f, io + 4, ps);
  }

  lemma CountBack(f: Bytes, pos: nat, count: nat, rest: Bytes)
    requires count < U32_LIMIT && Has(f, pos, LE(count, 4) + rest)
    ensures ReadU32(f, pos) == Some(count) && Has(f, pos + 4, rest)
  {
    HasParts(f, pos, LE(count, 4), rest);
    U32AtHas(f, pos, count);
  }

  lemma FooterBack(f: Bytes, bo: nat, io: nat)
    requires |f| >= 16 && Has(f, |f| - 16, LE(bo, 8) + LE(io, 8)) && bo < U64_LIMIT && io < U64_LIMIT
    ensures ReadU64(f, |f| - 16) == Some(bo) && ReadU64(f, |f| - 8) == Some(io)
  {
    HasParts(f, |f| - 16, LE(bo, 8), LE(io, 8));
    ReadU64Has(f, |f| - 16, bo);
    ReadU64Has(f, |f| - 8, io);
  }

  /** Loading a built file recovers its offsets, filter and index exactly. */
  lemma LoadBack(rows: seq<Row>, m: nat)
    requires FitsFields(rows, m)
    ensures Load(FileOf(rows, m)) == Some(BuiltMeta(rows, m))
  {
    var f := FileOf(rows, m);
    FileSections(rows, m);
    FooterBack(f, BloomOffset(rows), IndexOffset(rows, m));
    LoadFilterBack(rows, m);
    LoadIndexBack(rows, m);
    LoadFromParts(f, BuiltMeta(rows, m));
  }

  lemma LoadFromParts(f: Bytes, meta: Meta)
    requires |f| >= 16
    requires ReadU64(f, |f| - 16) == Some(meta.bloomOffset)
    requires ReadU64(f, |f| - 8) == Some(meta.indexOffset)
    requires LoadFilter(f, meta.bloomOffset) == Some((meta.m, meta.bits))
    requires LoadIndex(f, meta.indexOffset) == meta.index
    ensures Load(f) == Some(meta)
  {
  }

  // ── reading rows ──────────────────────────────────────────────────────────

  /** One data entry and the position behind it. */
  function RowAt(f: Bytes, pos: nat): (r: Option<(Row, nat)>)
    ensures r.Some? ==> pos < r.value.1 <= |f|
  {
    match StrAt(f, pos)
    case None => None
    case Some((key, at)) =>
      if at == |f| then None
      else match StrAt(f, at + 1)
        case None => None
        case Some((value, end)) => Some((Row(key, MemEntry(value, f[at] % 2 == 1)), end))
  }

  /** The bytes of a data entry. */
  lemma RowParts(f: Bytes, pos: nat, r: Row)
    requires Has(f, pos, EncodeRow(r))
    ensures var at := pos + 4 + |r.key|;
            && Has(f, pos, WStr(r.key)) && at < |f| && Has(f, at + 1, WStr(r.entry.value))
            && f[at] == if r.entry.tombstone then 1 else 0
  {
    var flag: Bytes := [if r.entry.tombstone then 1 else 0];
    var at := pos + |WStr(r.key)|;
    HasParts(f, pos, WStr(r.key), flag + WStr(r.entry.value));
    HasParts(f, at, flag, WStr(r.entry.value));
    assert f[at] == f[at..at + 1][0];
  }

  /** Of the flags byte only bit 0 matters to the reader. */
  lemma FlagsBit(f: Bytes, pos: nat, key: Bytes, value: Bytes)
    requires |key| < U32_LIMIT && |value| < U32_LIMIT
    requires Has(f, pos, WStr(key)) && pos + 4 + |key| < |f| && Has(f, pos + 5 + |key|, WStr(value))
    ensures RowAt(f, pos) ==
            Some((Row(key, MemEntry(value, f[pos + 4 + |key|] as int % 2 == 1)), pos + 9 + |key| + |value|))
  {
    StrAtHas(f, pos, key);
    StrAtHas(f, pos + 5 + |key|, value);
  }

  lemma RowBack(f: Bytes, pos: nat, r: Row)
    requires |r.key| < U32_LIMIT && |r.entry.value| < U32_LIMIT && Has(f, pos, EncodeRow(r))
    ensures RowAt(f, pos) == Some((r, pos + |EncodeRow(r)|))
  {
    RowParts(f, pos, r);
    FlagsBit(f, pos, r.key, r.entry.value);
  }

  lemma DataSplit(rows: seq<Row>, i: nat)
    requires i <= |rows|
    ensures Data(rows) == Data(rows[..i]) + Data(rows[i..])
    ensures Offset(rows, i) <= BloomOffset(rows)
  {
    SplitAt(rows, i);
    DataConcat(rows[..i], rows[i..]);
  }

  ghost predicate RowLies(f: Bytes, rows: seq<Row>, off: seq<nat>, limit: nat, i: nat)
    requires |off| == |rows| + 1 && i < |rows|
  {
    off[i] < limit && RowAt(f, off[i]) == Some((rows[i], off[i + 1]))
  }

  /** The rows lie in the file one after the other, at `off`, up to `limit`. */
  ghost predicate Laid(f: Bytes, rows: seq<Row>, off: seq<nat>, limit: nat) {
    && |off| == |rows| + 1 && off[|rows|] == limit <= |f|
    && forall i :: 0 <= i < |rows| ==> RowLies(f, rows, off, limit, i)
  }

  ghost function Offsets(rows: seq<Row>): (off: seq<nat>)
    ensures |off| == |rows| + 1
  {
    seq(|rows| + 1, i requires 0 <= i <= |rows| => Offset(rows, i))
  }

  lemma FileLaid(rows: seq<Row>, m: nat)
    requires FitsFields(rows, m)
    ensures Laid(FileOf(rows, m), rows, Offsets(rows), BloomOffset(rows))
  {
    var f := FileOf(rows, m);
    FileSections(rows, m);
    assert rows[..|rows|] == rows;
    forall i | 0 <= i < |rows| ensures RowLies(f, rows, Offsets(rows), BloomOffset(rows), i) {
      RowPlaced(f, rows, i);
    }
  }

  lemma RowPlaced(f: Bytes, rows: seq<Row>, i: nat)
    requires Has(f, 0, Data(rows)) && i < |rows|
    requires |rows[i].key| < U32_LIMIT && |rows[i].entry.value| < U32_LIMIT
    ensures RowLies(f, rows, Offsets(rows), BloomOffset(rows), i)
  {
    RowInData(f, rows, i);
    RowBack(f, Offset(rows, i), rows[i]);
  }

  lemma RowInData(f: Bytes, rows: seq<Row>, i: nat)
    requires Has(f, 0, Data(rows)) && i < |rows|
    ensures Has(f, Offset(rows, i), EncodeRow(rows[i]))
    ensures Offset(rows, i + 1) == Offset(rows, i) + |EncodeRow(rows[i])| <= BloomOffset(rows)
  {
    DataSplit(rows, i + 1);
    DataSnoc(rows, i);
    HasParts(f, 0, Data(rows[..i + 1]), Data(rows[i + 1..]));
    HasParts(f, 0, Data(rows[..i]), EncodeRow(rows[i]));
  }

  // ── scan_all ──────────────────────────────────────────────────────────────

  /** All rows from `pos` that start before `limit`. */
  function ScanRows(f: Bytes, pos: nat, limit: nat): seq<Row>
    decreases |f| - pos
  {
    if pos >= limit then []
    else match RowAt(f, pos)
      case None => []
      case Some((row, next)) => [row] + ScanRows(f, next, limit)
  }

  lemma {:induction false} ScanBack(f: Bytes, rows: seq<Row>, off: seq<nat>, limit: nat, i: nat)
    requires Laid(f, rows, off, limit) && i <= |rows|
    ensures ScanRows(f, off[i], limit) == rows[i..]
    decreases |rows| - i
  {
    if i == |rows| {
    } else {
      assert RowLies(f, rows, off, limit, i);
      ScanBack(f, rows, off, limit, i + 1);
    }
  }

  // ── lookup ────────────────────────────────────────────────────────────────

  /** The first index point above the key. */
  function UpperBound(index: seq<IndexPoint>, key: Bytes): (j: nat)
    ensures j <= |index|
    ensures forall i :: 0 <= i < j ==> !Less(key, index[i].key)
    ensures j < |index| ==> Less(key, index[j].key)
  {
    if index == [] || Less(key, index[0].key) then 0 else 1 + UpperBound(index[1..], key)
  }

  /** The forward scan: its answer and the number of rows it decodes. */
  function ScanFor(f: Bytes, pos: nat, limit: nat, key: Bytes): (LookupResult, nat)
    decreases |f| - pos
  {
    if pos >= limit then (NotFound, 0)
    else match RowAt(f, pos)
      case None => (NotFound, 0)
      case Some((row, next)) =>
        if row.key == key then (Answer(row.entry), 1)
        else if Less(key, row.key) then (NotFound, 1)
        else var (r, c) := ScanFor(f, next, limit, key); (r, c + 1)
  }

  ghost function LookupIn(file: Bytes, meta: Meta, key: Bytes): (LookupResult, nat)
    requires Sized(meta.bits, meta.m)
  {
    if !Claims(meta.bits, meta.m, key) || UpperBound(meta.index, key) == 0 then (NotFound, 0)
    else ScanFor(file, meta.index[UpperBound(meta.index, key) - 1].offset, meta.bloomOffset, key)
  }

  ghost predicate Holds(rows: seq<Row>, key: Bytes) {
    exists p :: 0 <= p < |rows| && rows[p].key == key
  }

  /** Scanning from row i towards the key, which sits at row p. */
  lemma {:induction false} ScanFinds(f: Bytes, rows: seq<Row>, off: seq<nat>, limit: nat, i: nat, p: nat)
    requires Laid(f, rows, off, limit) && AscendingRows(rows) && i <= p < |rows|
    ensures ScanFor(f, off[i], limit, rows[p].key) == (Answer(rows[p].entry), p - i + 1)
    decreases p - i
  {
    assert RowLies(f, rows, off, limit, i);
    if i == p {
    } else {
      LessExcludes(rows[i].key, rows[p].key);
      ScanFinds(f, rows, off, limit, i + 1, p);
    }
  }

  lemma LessExcludes(a: Bytes, b: Bytes)
    requires Less(a, b)
    ensures a != b && !Less(b, a)
  {
    LessIrreflexive(a);
    if Less(b, a) { LessTransitive(a, b, a); }
  }

  /** How many rows come before a key. */
  function Rank(rows: seq<Row>, key: Bytes): (q: nat)
    ensures q <= |rows|
    ensures forall i :: 0 <= i < q ==> Less(rows[i].key, key)
    ensures q < |rows| ==> !Less(rows[q].key, key)
  {
    if rows == [] || !Less(rows[0].key, key) then 0 else 1 + Rank(rows[1..], key)
  }

  /** Scanning from row i for a key that no row holds: every row before the key, and the one
      that overshoots it. */
  lemma {:induction false} ScanMisses(f: Bytes, rows: seq<Row>, off: seq<nat>, limit: nat, i: nat, key: Bytes)
    requires Laid(f, rows, off, limit) && i <= Rank(rows, key) && !Holds(rows, key)
    ensures ScanFor(f, off[i], limit, key) ==
            (NotFound, Rank(rows, key) - i + if Rank(rows, key) < |rows| then 1 else 0)
    decreases |rows| - i
  {
    if i == |rows| {
    } else {
      assert RowLies(f, rows, off, limit, i) && rows[i].key != key;
      if i == Rank(rows, key) {
        LessTotal(rows[i].key, key);
      } else {
        LessExcludes(rows[i].key, key);
        ScanMisses(f, rows, off, limit, i + 1, key);
      }
    }
  }

  /** One index point for every INDEX_STRIDE-th row, at that row's offset. */
  ghost predicate Indexes(index: seq<IndexPoint>, rows: seq<Row>, off: seq<nat>) {
    && |off| == |rows| + 1 && |index| == (|rows| + INDEX_STRIDE - 1) / INDEX_STRIDE
    && forall i :: 0 <= i < |index| ==> index[i] == IndexPoint(rows[INDEX_STRIDE * i].key, off[INDEX_STRIDE * i])
  }

  /** The key's index window: the point chosen, and where the next point starts. */
  lemma WindowBound(index: seq<IndexPoint>, rows: seq<Row>, off: seq<nat>, key: Bytes, p: nat)
    requires Indexes(index, rows, off) && AscendingRows(rows) && p < |rows| && rows[p].key == key
    ensures var j := UpperBound(index, key);
            j > 0 && INDEX_STRIDE * (j - 1) <= p < INDEX_STRIDE * j
  {
    var j := UpperBound(index, key);
    LessIrreflexive(key);
    assert 0 < |index|;
    if j > 0 { assert !Less(key, index[j - 1].key); }
    if j < |index| && INDEX_STRIDE * j < p {
      LessTransitive(key, index[j].key, key);
    }
  }

  /** The key's index window when no row holds it: the stride of the last row before it. */
  lemma WindowBelow(index: seq<IndexPoint>, rows: seq<Row>, off: seq<nat>, key: Bytes)
    requires Indexes(index, rows, off) && AscendingRows(rows) && !Holds(rows, key)
    ensures var (j, q) := (UpperBound(index, key), Rank(rows, key));
            if q == 0 then j == 0 else j > 0 && INDEX_STRIDE * (j - 1) <= q - 1 < INDEX_STRIDE * j
  {
    var (j, q) := (UpperBound(index, key), Rank(rows, key));
    if j > 0 {
      var i := INDEX_STRIDE * (j - 1);
      assert !Less(key, index[j - 1].key) && rows[i].key != key;
      LessTotal(rows[i].key, key);
      if q <= i && q < i { LessTransitive(rows[q].key, rows[i].key, key); }
    }
    if j < |index| && INDEX_STRIDE * j < q { LessExcludes(rows[INDEX_STRIDE * j].key, key); }
  }

  /** The forward scan over any laid-out rows answers like the rows themselves. */
  lemma ScanPresent(f: Bytes, rows: seq<Row>, off: seq<nat>, limit: nat, index: seq<IndexPoint>, p: nat)
    requires Laid(f, rows, off, limit) && Indexes(index, rows, off) && AscendingRows(rows) && p < |rows|
    ensures var j := UpperBound(index, rows[p].key);
            j > 0 && ScanFor(f, index[j - 1].offset, limit, rows[p].key) == (Answer(rows[p].entry), p % INDEX_STRIDE + 1)
  {
    var j := UpperBound(index, rows[p].key);
    WindowBound(index, rows, off, rows[p].key, p);
    DivUnique(p, INDEX_STRIDE, j - 1, p - INDEX_STRIDE * (j - 1));
    ScanFinds(f, rows, off, limit, INDEX_STRIDE * (j - 1), p);
  }

  lemma ScanAbsent(f: Bytes, rows: seq<Row>, off: seq<nat>, limit: nat, index: seq<IndexPoint>, key: Bytes)
    requires Laid(f, rows, off, limit) && Indexes(index, rows, off) && AscendingRows(rows) && !Holds(rows, key)
    requires UpperBound(index, key) > 0
    ensures var (j, q) := (UpperBound(index, key), Rank(rows, key));
            q > 0 && ScanFor(f, index[j - 1].offset, limit, key) ==
                     (NotFound, (q - 1) % INDEX_STRIDE + if q < |rows| then 2 else 1)
  {
    var (j, q) := (UpperBound(index, key), Rank(rows, key));
    WindowBelow(index, rows, off, key);
    var start := INDEX_STRIDE * (j - 1);
    DivUnique(q - 1, INDEX_STRIDE, j - 1, q - 1 - start);
    assert index[j - 1].offset == off[start];
    ScanMisses(f, rows, off, limit, start, key);
  }

  lemma RowsOfAscend(entries: map<Bytes, MemEntry>)
    ensures AscendingRows(RowsOf(entries))
    ensures forall key :: Holds(RowsOf(entries), key) <==> key in entries
    ensures forall i :: 0 <= i < |RowsOf(entries)| ==>
              RowsOf(entries)[i].key in entries && RowsOf(entries)[i].entry == entries[RowsOf(entries)[i].key]
  {
    var ks, rows := InOrder(entries.Keys), RowsOf(entries);
    forall key | key in entries ensures Holds(rows, key) {
      assert key in ks;
      var p :| 0 <= p < |ks| && ks[p] == key;
      assert rows[p].key == key;
    }
  }

  lemma FilterClaims(rows: seq<Row>, m: nat, key: Bytes)
    requires FilterSize(m) && Holds(rows, key)
    ensures Claims(FilterBits(rows, m), m, key)
  {
    var p :| 0 <= p < |rows| && rows[p].key == key;
    assert KeysOf(rows)[p] == key;
    NoFalseNegatives(Zeros((m + 7) / 8), m, KeysOf(rows), key);
  }

  /** Exactly which keys a built table's filter lets through. */
  lemma FilterExactly(rows: seq<Row>, m: nat, key: Bytes)
    requires FilterSize(m)
    ensures Claims(FilterBits(rows, m), m, key) <==>
            forall p :: p in Probes(key, m) ==> exists i :: 0 <= i < |rows| && p in Probes(rows[i].key, m)
  {
    ClaimsExactly(m, KeysOf(rows), key);
    forall p | p in Probes(key, m)
      ensures (exists i :: 0 <= i < |rows| && p in Probes(rows[i].key, m)) <==>
              (exists i :: 0 <= i < |rows| && p in Probes(KeysOf(rows)[i], m))
    {
      ProbedByRow(rows, m, p);
    }
  }

  lemma ProbedByRow(rows: seq<Row>, m: nat, p: nat)
    requires m > 0
    ensures (exists i :: 0 <= i < |rows| && p in Probes(rows[i].key, m)) <==>
            (exists i :: 0 <= i < |rows| && p in Probes(KeysOf(rows)[i], m))
  {
    if i :| 0 <= i < |rows| && p in Probes(rows[i].key, m) { assert p in Probes(KeysOf(rows)[i], m); }
    if i :| 0 <= i < |rows| && p in Probes(KeysOf(rows)[i], m) { assert p in Probes(rows[i].key, m); }
  }

  lemma LookupPresent(rows: seq<Row>, m: nat, p: nat)
    requires FitsFields(rows, m) && AscendingRows(rows) && p < |rows|
    ensures LookupIn(FileOf(rows, m), BuiltMeta(rows, m), rows[p].key) == (Answer(rows[p].entry), p % 16 + 1)
  {
    assert Holds(rows, rows[p].key);
    FilterClaims(rows, m, rows[p].key);
    FileLaid(rows, m);
    ScanPresent(FileOf(rows, m), rows, Offsets(rows), BloomOffset(rows), Sparse(rows), p);
  }

  lemma LookupAbsent(rows: seq<Row>, m: nat, key: Bytes)
    requires FitsFields(rows, m) && AscendingRows(rows) && !Holds(rows, key)
    ensures var q := Rank(rows, key);
            LookupIn(FileOf(rows, m), BuiltMeta(rows, m), key) ==
            (NotFound, if !Claims(FilterBits(rows, m), m, key) || q == 0 then 0
                       else (q - 1) % 16 + if q < |rows| then 2 else 1)
  {
    SparseIndexes(rows);
    WindowBelow(Sparse(rows), rows, Offsets(rows), key);
    if UpperBound(Sparse(rows), key) > 0 {
      ScanAbsentBuilt(rows, m, key);
    }
  }

  lemma ScanAbsentBuilt(rows: seq<Row>, m: nat, key: Bytes)
    requires FitsFields(rows, m) && AscendingRows(rows) && !Holds(rows, key) && UpperBound(Sparse(rows), key) > 0
    ensures var q := Rank(rows, key);
            q > 0 && ScanFor(FileOf(rows, m), Sparse(rows)[UpperBound(Sparse(rows), key) - 1].offset,
                             BloomOffset(rows), key) ==
                     (NotFound, (q - 1) % 16 + if q < |rows| then 2 else 1)
  {
    FileLaid(rows, m);
    ScanAbsentLaid(FileOf(rows, m), rows, BloomOffset(rows), key);
  }

  lemma ScanAbsentLaid(f: Bytes, rows: seq<Row>, limit: nat, key: Bytes)
    requires Laid(f, rows, Offsets(rows), limit) && AscendingRows(rows) && !Holds(rows, key)
    requires UpperBound(Sparse(rows), key) > 0
    ensures var q := Rank(rows, key);
            q > 0 && ScanFor(f, Sparse(rows)[UpperBound(Sparse(rows), key) - 1].offset, limit, key) ==
                     (NotFound, (q - 1) % 16 + if q < |rows| then 2 else 1)
  {
    SparseIndexes(rows);
    ScanAbsent(f, rows, Offsets(rows), limit, Sparse(rows), key);
  }

  lemma SparseIndexes(rows: seq<Row>)
    ensures Indexes(Sparse(rows), rows, Offsets(rows))
  {
  }

  /** Build, open, look up: the filter, the sparse index and the bounded scan together
      answer as the source map does, within the sparse-index cost. */
  lemma LookupIsMapLookup(entries: map<Bytes, MemEntry>, m: nat, key: Bytes)
    requires FitsFields(RowsOf(entries), m)
    ensures Load(FileOf(RowsOf(entries), m)) == Some(BuiltMeta(RowsOf(entries), m))
    ensures var (r, decoded) := LookupIn(FileOf(RowsOf(entries), m), BuiltMeta(RowsOf(entries), m), key);
            && r == MapLookup(entries, key)
            && decoded <= if key in entries then 16 else 17
  {
    var rows := RowsOf(entries);
    LoadBack(rows, m);
    RowsOfAscend(entries);
    if key in entries {
      assert Holds(rows, key);
      var p :| 0 <= p < |rows| && rows[p].key == key;
      LookupPresent(rows, m, p);
    } else {
      LookupAbsent(rows, m, key);
    }
  }

  lemma RankOfRow(rows: seq<Row>, p: nat)
    requires AscendingRows(rows) && p < |rows|
    ensures Rank(rows, rows[p].key) == p
  {
    LessIrreflexive(rows[p].key);
  }

  lemma HeldIffIn(entries: map<Bytes, MemEntry>, key: Bytes)
    ensures AscendingRows(RowsOf(entries)) && (Holds(RowsOf(entries), key) <==> key in entries)
  {
    RowsOfAscend(entries);
  }

  lemma CostOfRows(rows: seq<Row>, m: nat, key: Bytes)
    requires FitsFields(rows, m) && AscendingRows(rows)
    ensures var q := Rank(rows, key);
            LookupIn(FileOf(rows, m), BuiltMeta(rows, m), key).1 ==
            if Holds(rows, key) then q % 16 + 1
            else if !Claims(FilterBits(rows, m), m, key) || q == 0 then 0
            else (q - 1) % 16 + if q < |rows| then 2 else 1
  {
    if Holds(rows, key) {
      var p :| 0 <= p < |rows| && rows[p].key == key;
      RankOfRow(rows, p);
      LookupPresent(rows, m, p);
    } else {
      LookupAbsent(rows, m, key);
    }
  }

  /** Exactly how many rows a lookup decodes: none for a key the filter denies or that comes
      before the first; else those of the key's stride up to the key, or up to the first row
      behind it. */
  lemma LookupCost(entries: map<Bytes, MemEntry>, m: nat, key: Bytes)
    requires FitsFields(RowsOf(entries), m)
    ensures var (rows, q) := (RowsOf(entries), Rank(RowsOf(entries), key));
            LookupIn(FileOf(rows, m), BuiltMeta(rows, m), key).1 ==
            if key in entries then q % 16 + 1
            else if !Claims(FilterBits(rows, m), m, key) || q == 0 then 0
            else (q - 1) % 16 + if q < |rows| then 2 else 1
  {
    HeldIffIn(entries, key);
    CostOfRows(RowsOf(entries), m, key);
  }

  /** A file too short for its footer opens as an empty table. */
  lemma ShortFileIsEmpty(f: Bytes, key: Bytes)
    requires |f| < 16
    ensures Load(f).Some? && Sized(Load(f).value.bits, Load(f).value.m)
    ensures LookupIn(f, Load(f).value, key) == (NotFound, 0)
  {
    assert 64 == Pow2(6);
    EmptyDenies(64, key);
  }

  /** A filter section that cannot be read leaves the default filter, which denies every key. */
  lemma UnreadFilterDenies(f: Bytes, pos: nat, key: Bytes)
    requires pos + 4 > |f| || pos + 4 + (U32At(f, pos) + 7) % U32_LIMIT / 8 > |f|
    ensures LoadFilter(f, pos).Some?
    ensures var (m, bits) := LoadFilter(f, pos).value; Sized(bits, m) && !Claims(bits, m, key)
  {
    assert 64 == Pow2(6);
    EmptyDenies(64, key);
  }

  lemma LEFour(v: nat)
    requires v < 256
    ensures LE(v, 4) == [v as uint8, 0, 0, 0]
  {
    LESmall(v, 4);
  }

  lemma LEEight(v: nat)
    requires v < 256
    ensures LE(v, 8) == [v as uint8, 0, 0, 0, 0, 0, 0, 0]
  {
    LESmall(v, 8);
  }

  lemma WStrOne(s: Bytes)
    requires |s| == 1
    ensures WStr(s) == [1, 0, 0, 0, s[0]]
  {
    LEFour(|s|);
  }

  /** The whole file of a one-row table, byte for byte around its filter bits. */
  lemma OneRowFile(k: uint8, v: uint8, deleted: bool)
    ensures FilterSize(64)
    ensures var rows := [Row([k], MemEntry([v], deleted))];
            FileOf(rows, 64) ==
            [1, 0, 0, 0, k, if deleted then 1 else 0, 1, 0, 0, 0, v]
              + ([64, 0, 0, 0] + FilterBits(rows, 64))
              + ([1, 0, 0, 0] + ([1, 0, 0, 0, k] + [0, 0, 0, 0, 0, 0, 0, 0]))
              + [11, 0, 0, 0, 0, 0, 0, 0, 23, 0, 0, 0, 0, 0, 0, 0]
  {
    assert 64 == Pow2(6);
    var row := Row([k], MemEntry([v], deleted));
    OneRowSections(row);
    OneRowData(row, k, v);
    WStrOne([k]);
    OneRowFooter(row);
    LEFour(64);
    Regroup(Data([row]), BloomSection([row], 64), IndexSection([row]), Footer([row], 64));
  }

  lemma Regroup(a: Bytes, b: Bytes, c: Bytes, d: Bytes)
    ensures a + (b + (c + d)) == a + b + c + d
  {
  }

  lemma OneRowData(row: Row, k: uint8, v: uint8)
    requires row.key == [k] && row.entry.value == [v]
    ensures EncodeRow(row) == [1, 0, 0, 0, k, if row.entry.tombstone then 1 else 0, 1, 0, 0, 0, v]
  {
    WStrOne(row.key);
    WStrOne(row.entry.value);
  }

  lemma OneRowFooter(row: Row)
    requires |row.key| == 1 && |row.entry.value| == 1 && FilterSize(64)
    ensures Footer([row], 64) == [11, 0, 0, 0, 0, 0, 0, 0, 23, 0, 0, 0, 0, 0, 0, 0]
  {
    DataOfOne(row);
    LEEight(11);
    LEEight(23);
    assert BloomOffset([row]) == 11 && IndexOffset([row], 64) == 23;
  }

  lemma OneRowSections(row: Row)
    ensures Data([row]) == EncodeRow(row)
    ensures IndexSection([row]) == [1, 0, 0, 0] + (WStr(row.key) + [0, 0, 0, 0, 0, 0, 0, 0])
  {
    LEFour(1);
    LEEight(0);
    DataOfOne(row);
    var p := Sparse([row])[0];
    assert [row][..0] == [] && p == IndexPoint(row.key, 0);
    assert Sparse([row]) == [p] && [p][1..] == [];
    assert EncodePoints([p]) == EncodePoint(p);
  }

  /** The field limits are met, for instance, by any one-entry table of moderate size. */
  lemma OneEntryFits(key: Bytes, e: MemEntry)
    requires |key| < TWO_31 && |e.value| < TWO_31
    ensures FitsFields(RowsOf(map[key := e]), 64)
  {
    var entries := map[key := e];
    RowsOfAscend(entries);
    var rows := RowsOf(entries);
    assert |entries| == 1 && rows == [rows[0]] && rows[0].key == key && rows[0].entry == e;
    DataOfOne(rows[0]);
    assert 64 == Pow2(6);
    assert |BloomSection(rows, 64)| == 12;
    assert |Sparse(rows)| == 1 && Sparse(rows) == [Sparse(rows)[0]] && Sparse(rows)[0].key == key;
    assert EncodePoints([Sparse(rows)[0]]) == EncodePoint(Sparse(rows)[0]) by { assert [Sparse(rows)[0]][1..] == []; }
  }

  ghost function MapOf(rows: seq<Row>): map<Bytes, MemEntry> {
    if rows == [] then map[] else MapOf(rows[..|rows| - 1])[rows[|rows| - 1].key := rows[|rows| - 1].entry]
  }

  lemma HoldsSnoc(rows: seq<Row>, key: Bytes)
    requires rows != []
    ensures Holds(rows, key) <==> key == rows[|rows| - 1].key || Holds(rows[..|rows| - 1], key)
  {
    var front := rows[..|rows| - 1];
    if Holds(front, key) {
      var p :| 0 <= p < |front| && front[p].key == key;
      assert rows[p].key == key;
    }
  }

  lemma {:induction false} MapOfRows(rows: seq<Row>)
    requires AscendingRows(rows)
    ensures forall key :: key in MapOf(rows) <==> Holds(rows, key)
    ensures forall i :: 0 <= i < |rows| ==> rows[i].key in MapOf(rows) && MapOf(rows)[rows[i].key] == rows[i].entry
  {
    if rows == [] {
    } else {
      var front, last := rows[..|rows| - 1], rows[|rows| - 1];
      MapOfRows(front);
      forall key ensures Holds(rows, key) <==> key == last.key || Holds(front, key) { HoldsSnoc(rows, key); }
      forall i | 0 <= i < |front| ensures rows[i].key != last.key && rows[i] == front[i] {
        LessIrreflexive(last.key);
      }
    }
  }

  /** A full scan returns exactly the source entries in key order, flags included; read back
      into a map they are the source map. */
  lemma ScanAllIsSource(entries: map<Bytes, MemEntry>, m: nat)
    requires FitsFields(RowsOf(entries), m)
    ensures ScanRows(FileOf(RowsOf(entries), m), 0, BuiltMeta(RowsOf(entries), m).bloomOffset) == RowsOf(entries)
    ensures AscendingRows(RowsOf(entries)) && MapOf(RowsOf(entries)) == entries
  {
    var rows := RowsOf(entries);
    FileLaid(rows, m);
    ScanBack(FileOf(rows, m), rows, Offsets(rows), BloomOffset(rows), 0);
    assert rows[0..] == rows;
    RowsBackToMap(entries);
  }

  lemma RowsBackToMap(entries: map<Bytes, MemEntry>)
    ensures AscendingRows(RowsOf(entries)) && MapOf(RowsOf(entries)) == entries
  {
    var rows := RowsOf(entries);
    RowsOfAscend(entries);
    MapOfRows(rows);
    assert MapOf(rows).Keys == entries.Keys;
    forall key | key in entries ensures MapOf(rows)[key] == entries[key] {
      assert Holds(rows, key);
      var p :| 0 <= p < |rows| && rows[p].key == key;
    }
  }

  // ── the table object ──────────────────────────────────────────────────────

  ghost predicate AscendingIndex(index: seq<IndexPoint>) {
    forall i, j :: 0 <= i < j < |index| ==> Less(index[i].key, index[j].key)
  }

  lemma SparseAscends(rows: seq<Row>)
    requires AscendingRows(rows)
    ensures AscendingIndex(Sparse(rows))
  {
  }

  class Table {
    var file: Bytes
    var bloom: BloomFilter
    var index: seq<IndexPoint>
    var bloomOffset: nat
    var indexOffset: nat

    ghost predicate Valid()
      reads this, bloom, bloom.bits
    {
      bloom.Valid()
    }

    ghost function Loaded(): Meta
      reads this, bloom, bloom.bits
    {
      Meta(bloomOffset, indexOffset, bloom.m, bloom.bits[..], index)
    }

    constructor (contents: Bytes)
      ensures fresh(bloom) && fresh(bloom.bits) && Valid()
      ensures file == contents && Loaded() == Meta(0, 0, 64, Zeros(8), [])
    {
      file, index, bloomOffset, indexOffset := contents, [], 0, 0;
      bloom := new BloomFilter(0);
    }

    /** `SSTable::SSTable` with its `load_meta`; None is the truncated-filter exception. */
    static method Open(contents: Bytes) returns (r: Option<Table>)
      ensures r.Some? <==> Load(contents).Some?
      ensures r.Some? ==> fresh(r.value) && fresh(r.value.bloom) && fresh(r.value.bloom.bits) &&
                          r.value.Valid() && r.value.file == contents &&
                          r.value.Loaded() == Load(contents).value
    {
      var t := new Table(contents);
      var start := if |contents| >= 16 then |contents| - 16 else 0;
      var bo := ReadU64(contents, start);
      if bo.None? { return Some(t); }
      t.bloomOffset := bo.value;
      var io := ReadU64(contents, start + 8);
      if io.None? { return Some(t); }
      t.indexOffset := io.value;
      var ok := t.LoadRest();
      r := if ok then Some(t) else None;
    }

    method LoadRest() returns (ok: bool)
      requires Valid() && bloom.m == 64 && bloom.bits[..] == Zeros(8)
      modifies this
      ensures file == old(file) && (bloom == old(bloom) || (fresh(bloom) && fresh(bloom.bits)))
      ensures ok <==> LoadSections(file, old(bloomOffset), old(indexOffset)).Some?
      ensures ok ==> Valid() && Loaded() == LoadSections(file, old(bloomOffset), old(indexOffset)).value
    {
      ok := LoadBloom();
      if ok { LoadPoints(); }
    }

    method LoadBloom() returns (ok: bool)
      requires Valid() && bloom.m == 64 && bloom.bits[..] == Zeros(8)
      modifies `bloom
      ensures ok <==> LoadFilter(file, bloomOffset).Some?
      ensures bloom == old(bloom) || (fresh(bloom) && fresh(bloom.bits))
      ensures ok ==> Valid() && LoadFilter(file, bloomOffset) == Some((bloom.m, bloom.bits[..]))
    {
      var num := ReadU32(file, bloomOffset);
      if num.None? { return true; }
      var byteLen := (num.value + 7) % U32_LIMIT / 8;
      if bloomOffset + 4 + byteLen > |file| { return true; }
      var filter := BloomFilter.FromBytes(file[bloomOffset + 4..bloomOffset + 4 + byteLen], num.value);
      if filter.None? { return false; }
      bloom := filter.value;
      ok := true;
    }

    method LoadPoints()
      modifies `index
      ensures index == LoadIndex(file, indexOffset)
    {
      index := [];
      var count := ReadU32(file, indexOffset);
      if count.None? { return; }
      index := ReadAllPoints(file, indexOffset + 4, count.value);
    }

    static method ReadAllPoints(f: Bytes, start: nat, count: nat) returns (points: seq<IndexPoint>)
      ensures points == PointsAt(f, start, count)
    {
      points := [];
      var pos := start;
      ghost var rest := PointsAt(f, start, count);
      while |points| < count
        invariant |points| <= count && rest == PointsAt(f, pos, count - |points|)
        invariant points + rest == PointsAt(f, start, count)
        decreases count - |points|
      {
        var (point, next) := PointAt(f, pos);
        var left := count - |points| - 1;
        if next.None? {
          points := points + ([point] + Defaults(left));
          return;
        }
        Assoc(points, [point], PointsAt(f, next.value, left));
        rest := PointsAt(f, next.value, left);
        points := points + [point];
        pos := next.value;
      }
    }

    /** `std::upper_bound` on the sparse index. */
    method FindPoint(key: Bytes) returns (j: nat)
      requires AscendingIndex(index)
      ensures j == UpperBound(index, key)
    {
      var lo, hi := 0, |index|;
      while lo < hi
        invariant 0 <= lo <= hi <= |index|
        invariant forall i :: 0 <= i < lo ==> !Less(key, index[i].key)
        invariant forall i :: hi <= i < |index| ==> Less(key, index[i].key)
      {
        var mid := (lo + hi) / 2;
        if Less(key, index[mid].key) {
          forall i | mid < i < |index| ensures Less(key, index[i].key) {
            LessTransitive(key, index[mid].key, index[i].key);
          }
          hi := mid;
        } else {
          forall i | 0 <= i < mid ensures !Less(key, index[i].key) {
            if Less(key, index[i].key) { LessTransitive(key, index[i].key, index[mid].key); }
          }
          lo := mid + 1;
        }
      }
      j := lo;
      UpperBoundIs(index, key, j);
    }

    /** `SSTable::lookup`; the second result counts the rows decoded. */
    method Lookup(key: Bytes) returns (r: LookupResult, decoded: nat)
      requires Valid() && AscendingIndex(index)
      ensures (r, decoded) == LookupIn(file, Loaded(), key)
      ensures bloom.m > 0 && |Probes(key, bloom.m)| == 7 && InRange(bloom.bits[..], Probes(key, bloom.m))
      ensures (exists i :: 0 <= i < 7 && !GetBit(bloom.bits[..], Probes(key, bloom.m)[i])) ==>
                r == NotFound && decoded == 0
    {
      r, decoded := NotFound, 0;
      var may := bloom.MayContain(key);
      if !may { return; }
      if index == [] { return; }
      var j := FindPoint(key);
      if j == 0 { return; }
      r, decoded := ScanForward(index[j - 1].offset, key);
    }

    method ScanForward(start: nat, key: Bytes) returns (r: LookupResult, decoded: nat)
      ensures (r, decoded) == ScanFor(file, start, bloomOffset, key)
    {
      r, decoded := NotFound, 0;
      var pos := start;
      ghost var goal := ScanFor(file, start, bloomOffset, key);
      while pos < bloomOffset
        invariant r == NotFound
        invariant goal.0 == ScanFor(file, pos, bloomOffset, key).0
        invariant goal.1 == decoded + ScanFor(file, pos, bloomOffset, key).1
        decreases |file| - pos
      {
        var row := RowAt(file, pos);
        if row.None? { break; }
        decoded := decoded + 1;
        if row.value.0.key == key {
          r := Answer(row.value.0.entry);
          return;
        }
        if Less(key, row.value.0.key) { return; }
        pos := row.value.1;
      }
    }

    /** `SSTable::scan_all`. */
    method ScanAll() returns (rows: seq<Row>)
      ensures rows == ScanRows(file, 0, bloomOffset)
    {
      rows := [];
      var pos := 0;
      ghost var rest := ScanRows(file, 0, bloomOffset);
      while pos < bloomOffset
        invariant rest == ScanRows(file, pos, bloomOffset)
        invariant rows + rest == ScanRows(file, 0, bloomOffset)
        decreases |file| - pos
      {
        var row := RowAt(file, pos);
        if row.None? { break; }
        var (e, next) := row.value;
        rest := ScanRows(file, next, bloomOffset);
        Assoc(rows, [e], rest);
        rows := rows + [e];
        pos := next;
      }
      assert rows + [] == rows;
    }
  }

  /** From map to file and back through the object: lookup answers as the map does. */
  method BuildAndLookup(entries: map<Bytes, MemEntry>, wanted: nat, key: Bytes) returns (r: LookupResult, decoded: nat)
    requires wanted < U64_LIMIT && FilterSize(SizeFor(wanted)) && FitsFields(RowsOf(entries), SizeFor(wanted))
    ensures r == MapLookup(entries, key)
    ensures decoded <= if key in entries then 16 else 17
  {
    var file := Build(entries, wanted);
    LookupIsMapLookup(entries, SizeFor(wanted), key);
    RowsOfAscend(entries);
    SparseAscends(RowsOf(entries));
    var t := Table.Open(file);
    r, decoded := t.value.Lookup(key);
  }

  lemma UpperBoundIs(index: seq<IndexPoint>, key: Bytes, j: nat)
    requires j <= |index|
    requires forall i :: 0 <= i < j ==> !Less(key, index[i].key)
    requires j < |index| ==> Less(key, index[j].key)
    ensures UpperBound(index, key) == j
  {
    var u := UpperBound(index, key);
  }
}
