/** The write-ahead log of `src/wal.cpp`: record codec and torn-tail replay. */
module Wal {
  import opened Arith
  import opened Base

  const PUT: uint8 := 0
  const DEL: uint8 := 1

  datatype Record = Record(op: uint8, key: Bytes, value: Bytes)

  /** Both lengths survive the cast to `uint32_t`. */
  predicate Fits(r: Record) {
    |r.key| < U32_LIMIT && |r.value| < U32_LIMIT
  }

  ghost predicate AllFit(rs: seq<Record>) {
    forall i :: 0 <= i < |rs| ==> Fits(rs[i])
  }

  /** Operation byte, then key and value, each behind its length. */
  function Encode(r: Record): (b: Bytes)
    ensures |b| == 9 + |r.key| + |r.value|
  {
    [r.op] + WStr(r.key) + WStr(r.value)
  }

  function EncodeAll(rs: seq<Record>): Bytes {
    if rs == [] then [] else Encode(rs[0]) + EncodeAll(rs[1..])
  }

  /** One turn of the replay loop: a record and its length, or None at a torn record. */
  function ReadRecord(b: Bytes): (r: Option<(Record, nat)>)
    ensures r.Some? ==> 0 < r.value.1 <= |b|
  {
    if b == [] then None
    else match StrAt(b, 1)
      case None => None
      case Some((key, at)) =>
        match StrAt(b, at)
        case None => None
        case Some((value, end)) => Some((Record(b[0], key, value), end))
  }

  /** Everything replay delivers from a log. */
  function Parse(b: Bytes): seq<Record>
    decreases |b|
  {
    match ReadRecord(b)
    case None => []
    case Some((r, n)) => [r] + Parse(b[n..])
  }

  /** The log stops on a record boundary: it is the encoding of what it parses to. */
  ghost predicate EndsOnRecord(log: Bytes) {
    exists rs :: AllFit(rs) && log == EncodeAll(rs)
  }

  // ── one record ────────────────────────────────────────────────────────────

  lemma EncodedParts(b: Bytes, r: Record)
    requires Has(b, 0, Encode(r))
    ensures b[0] == r.op && Has(b, 1, WStr(r.key)) && Has(b, 1 + |WStr(r.key)|, WStr(r.value))
  {
    HasParts(b, 0, [r.op] + WStr(r.key), WStr(r.value));
    HasParts(b, 0, [r.op], WStr(r.key));
  }

  lemma ReadOfEncode(r: Record, rest: Bytes)
    requires Fits(r)
    ensures ReadRecord(Encode(r) + rest) == Some((r, |Encode(r)|))
  {
    var b := Encode(r) + rest;
    EncodedParts(b, r);
    StrAtHas(b, 1, r.key);
    StrAtHas(b, 1 + |WStr(r.key)|, r.value);
  }

  lemma ReadOfTorn(r: Record, n: nat)
    requires Fits(r) && n < |Encode(r)|
    ensures ReadRecord(Encode(r)[..n]) == None
  {
    var (e, b, k) := (Encode(r), Encode(r)[..n], 1 + |WStr(r.key)|);
    assert e[..|e|] == e;
    EncodedParts(e, r);
    if n == 0 {
    } else if n < k {
      assert b[1..] == e[1..k][..n - 1];
      StrAtTorn(b, 1, r.key);
    } else {
      assert b[1..k] == e[1..k];
      StrAtHas(b, 1, r.key);
      assert b[k..] == e[k..|e|][..n - k];
      StrAtTorn(b, k, r.value);
    }
  }

  lemma ParseCons(r: Record, rest: Bytes)
    requires Fits(r)
    ensures Parse(Encode(r) + rest) == [r] + Parse(rest)
  {
    ReadOfEncode(r, rest);
    assert (Encode(r) + rest)[|Encode(r)|..] == rest;
  }

  lemma EncodeOfRead(b: Bytes)
    requires ReadRecord(b).Some?
    ensures Fits(ReadRecord(b).value.0)
    ensures b[..ReadRecord(b).value.1] == Encode(ReadRecord(b).value.0)
  {
    var (r, len) := ReadRecord(b).value;
    var at := StrAt(b, 1).value.1;
    HasStrAt(b, 1);
    HasStrAt(b, at);
    assert b[..len] == [b[0]] + b[1..at] + b[at..len];
  }

  /** A record survives its own round trip exactly when both lengths fit 32 bits. */
  lemma RoundTripIffFits(r: Record)
    ensures Parse(Encode(r)) == [r] <==> Fits(r)
  {
    var b := Encode(r);
    if Fits(r) {
      ParseCons(r, []);
      assert b + [] == b;
    }
    if Parse(b) == [r] {
      assert ReadRecord(b).Some? && Parse(b)[0] == ReadRecord(b).value.0;
      EncodeOfRead(b);
    }
  }

  // ── whole logs ────────────────────────────────────────────────────────────

  lemma {:induction false} ParseAppend(rs: seq<Record>, tail: Bytes)
    requires AllFit(rs)
    ensures Parse(EncodeAll(rs) + tail) == rs + Parse(tail)
  {
    if rs == [] {
      assert EncodeAll(rs) + tail == tail;
    } else {
      var rest := EncodeAll(rs[1..]);
      Assoc(Encode(rs[0]), rest, tail);
      ParseCons(rs[0], rest + tail);
      ParseAppend(rs[1..], tail);
      Assoc([rs[0]], rs[1..], Parse(tail));
      assert rs == [rs[0]] + rs[1..];
    }
  }

  lemma ParseOfEncodeAll(rs: seq<Record>)
    requires AllFit(rs)
    ensures Parse(EncodeAll(rs)) == rs
  {
    ParseAppend(rs, []);
    assert EncodeAll(rs) + [] == EncodeAll(rs);
  }

  lemma EncodeAllCons(r: Record, rs: seq<Record>)
    ensures EncodeAll([r] + rs) == Encode(r) + EncodeAll(rs)
  {
    assert ([r] + rs)[1..] == rs;
  }

  lemma {:induction false} EncodeAllConcat(a: seq<Record>, b: seq<Record>)
    ensures EncodeAll(a + b) == EncodeAll(a) + EncodeAll(b)
  {
    if a == [] {
      assert a + b == b;
    } else {
      EncodeAllConcat(a[1..], b);
      ConsHead(a, b);
      EncodeAllCons(a[0], a[1..] + b);
      Assoc(Encode(a[0]), EncodeAll(a[1..]), EncodeAll(b));
    }
  }

  /** How many records of `rs` lie wholly within the first `n` bytes of their encoding. */
  function Whole(rs: seq<Record>, n: nat): (w: nat)
    ensures w <= |rs|
  {
    if rs == [] || n < |Encode(rs[0])| then 0 else 1 + Whole(rs[1..], n - |Encode(rs[0])|)
  }

  lemma {:induction false} WholeMeaning(rs: seq<Record>, n: nat)
    ensures |EncodeAll(rs[..Whole(rs, n)])| <= n
    ensures Whole(rs, n) < |rs| ==> n < |EncodeAll(rs[..Whole(rs, n) + 1])|
  {
    var w := Whole(rs, n);
    if rs == [] {
    } else if n < |Encode(rs[0])| {
      assert rs[..1] == [rs[0]] && rs[..1][1..] == [];
    } else {
      WholeMeaning(rs[1..], n - |Encode(rs[0])|);
      assert rs[..w][1..] == rs[1..][..w - 1];
      if w < |rs| { assert rs[..w + 1][1..] == rs[1..][..w]; }
    }
  }

  lemma CutBehind(e: Bytes, rest: Bytes, n: nat)
    requires |e| <= n <= |e| + |rest|
    ensures (e + rest)[..n] == e + rest[..n - |e|]
  {
  }

  /** Cut a log at any byte: replay delivers exactly the records wholly before the cut. */
  lemma {:induction false} ParseOfPrefix(rs: seq<Record>, n: nat)
    requires AllFit(rs) && n <= |EncodeAll(rs)|
    ensures Parse(EncodeAll(rs)[..n]) == rs[..Whole(rs, n)]
  {
    if rs == [] {
    } else {
      var e := Encode(rs[0]);
      var b := EncodeAll(rs)[..n];
      if n < |e| {
        assert b == e[..n];
        ReadOfTorn(rs[0], n);
      } else {
        var rest := EncodeAll(rs[1..])[..n - |e|];
        CutBehind(e, EncodeAll(rs[1..]), n);
        ParseCons(rs[0], rest);
        ParseOfPrefix(rs[1..], n - |e|);
        PrefixCons(rs, Whole(rs, n));
      }
    }
  }

  // ── appending to an existing log ──────────────────────────────────────────

  lemma AppendWhole(rs: seq<Record>, r: Record)
    requires AllFit(rs) && Fits(r)
    ensures EncodeAll(rs) + Encode(r) == EncodeAll(rs + [r]) && AllFit(rs + [r])
  {
    EncodeAllConcat(rs, [r]);
    EncodeAllCons(r, []);
    assert [r] + [] == [r] && Encode(r) + [] == Encode(r);
  }

  /** On a boundary, a partly written record is invisible and a whole one is delivered last. */
  lemma AppendToBoundary(log: Bytes, r: Record, n: nat)
    requires EndsOnRecord(log) && Fits(r) && n <= |Encode(r)|
    ensures Parse(log + Encode(r)[..n]) == Parse(log) + if n < |Encode(r)| then [] else [r]
    ensures n == |Encode(r)| ==> EndsOnRecord(log + Encode(r)[..n])
  {
    var rs :| AllFit(rs) && log == EncodeAll(rs);
    ParseOfEncodeAll(rs);
    if n < |Encode(r)| {
      ParseAppend(rs, Encode(r)[..n]);
      ReadOfTorn(r, n);
    } else {
      assert Encode(r)[..n] == Encode(r);
      AppendWhole(rs, r);
      ParseOfEncodeAll(rs + [r]);
    }
  }

  /** A log is what it parses to, then a tail that reads as no record. */
  ghost function Tail(log: Bytes): (t: Bytes)
    decreases |log|
  {
    match ReadRecord(log)
    case None => log
    case Some((r, n)) => Tail(log[n..])
  }

  lemma ShapeStep(log: Bytes, r: Record, n: nat, rs: seq<Record>, t: Bytes)
    requires n <= |log| && log[..n] == Encode(r) && log[n..] == EncodeAll(rs) + t
    ensures log == EncodeAll([r] + rs) + t
  {
    assert log == log[..n] + log[n..];
    Assoc(Encode(r), EncodeAll(rs), t);
    EncodeAllCons(r, rs);
  }

  lemma {:induction false} LogShape(log: Bytes)
    ensures AllFit(Parse(log)) && log == EncodeAll(Parse(log)) + Tail(log)
    ensures ReadRecord(Tail(log)) == None
    decreases |log|
  {
    match ReadRecord(log)
    case None =>
    case Some((r, n)) =>
      LogShape(log[n..]);
      EncodeOfRead(log);
      ShapeStep(log, r, n, Parse(log[n..]), Tail(log[n..]));
  }

  lemma BoundaryIffNoTail(log: Bytes)
    ensures EndsOnRecord(log) <==> Tail(log) == []
    ensures EndsOnRecord(log) <==> log == EncodeAll(Parse(log))
  {
    LogShape(log);
    var whole := EncodeAll(Parse(log));
    assert whole + [] == whole;
    assert Tail(log) == (whole + Tail(log))[|whole|..];
    if EndsOnRecord(log) {
      var rs :| AllFit(rs) && log == EncodeAll(rs);
      ParseOfEncodeAll(rs);
    }
  }

  /** Replay delivers every record that may follow exactly when the log ends on a record
      boundary. */
  lemma DeliveredIffBoundary(log: Bytes)
    ensures EndsOnRecord(log) <==>
            forall r :: Fits(r) ==> Parse(log + Encode(r)) == Parse(log) + [r]
  {
    if EndsOnRecord(log) {
      forall r | Fits(r) ensures Parse(log + Encode(r)) == Parse(log) + [r] {
        AppendToBoundary(log, r, |Encode(r)|);
        assert Encode(r)[..|Encode(r)|] == Encode(r);
      }
    } else {
      BoundaryIffNoTail(log);
      TornTailSwallows(log, 2);
      var r := SmallPut(2);
      var q := Parse(Tail(log) + Encode(r));
      assert (Parse(log) + q)[|Parse(log)|..] == q && (Parse(log) + [r])[|Parse(log)|..] == [r];
      assert r in [r];
    }
  }

  // ── behind a torn tail ────────────────────────────────────────────────────

  /** A put whose encoding is all zeros and ones up to its last byte. */
  function SmallPut(v: uint8): Record {
    Record(PUT, [0], [v])
  }

  lemma SmallPutBytes(v: uint8)
    ensures Encode(SmallPut(v)) == [0, 1, 0, 0, 0, 0, 1, 0, 0, 0, v]
  {
    LESmall(1, 4);
  }

  /** The bytes of a small put and of a small delete: operation byte 0 or 1, lengths, contents. */
  lemma RecordBytes(k: uint8, v: uint8)
    ensures Encode(Record(PUT, [k], [v])) == [0, 1, 0, 0, 0, k, 1, 0, 0, 0, v]
    ensures Encode(Record(DEL, [k], [])) == [1, 1, 0, 0, 0, k, 0, 0, 0, 0]
  {
    LESmall(1, 4);
    LESmall(0, 4);
  }

  lemma {:induction false} EncodedWithin(rs: seq<Record>, r: Record)
    requires r in rs
    ensures |Encode(r)| <= |EncodeAll(rs)|
  {
    if r == rs[0] {
    } else {
      EncodedWithin(rs[1..], r);
    }
  }

  lemma ReadOfPrefix(b: Bytes, r: Record)
    requires Fits(r) && Encode(r) <= b
    ensures ReadRecord(b).Some?
  {
    ReadOfEncode(r, b[|Encode(r)|..]);
    assert b == Encode(r) + b[|Encode(r)|..];
  }

  /** What is read first behind a torn tail is longer than the tail; so is all that follows. */
  lemma FirstSpansTail(t: Bytes, e: Bytes, q: seq<Record>, rest: Bytes)
    requires ReadRecord(t) == None && AllFit(q) && q != [] && t + e == EncodeAll(q) + rest
    ensures |t| < |Encode(q[0])| && Encode(q[0]) <= t + e
  {
    var first := Encode(q[0]);
    Assoc(first, EncodeAll(q[1..]), rest);
    assert first == (t + e)[..|first|];
    if |first| <= |t| {
      assert first == t[..|first|];
      ReadOfPrefix(t, q[0]);
    }
  }

  /** Read at the tail, the put's last byte would lie among its zeros and ones. */
  lemma LastByteClashes(t: Bytes, v: uint8)
    requires 0 < |t| < 11 && v > 1
    ensures !(Encode(SmallPut(v)) <= t + Encode(SmallPut(v)))
  {
    SmallPutBytes(v);
    var e := Encode(SmallPut(v));
    assert (t + e)[10] == e[10 - |t|] && e[10] == v;
  }

  lemma NotDelivered(t: Bytes, v: uint8)
    requires t != [] && ReadRecord(t) == None && v > 1
    ensures SmallPut(v) !in Parse(t + Encode(SmallPut(v)))
  {
    var r := SmallPut(v);
    var b := t + Encode(r);
    var q := Parse(b);
    if r in q {
      LogShape(b);
      FirstSpansTail(t, Encode(r), q, Tail(b));
      if q[0] == r {
        LastByteClashes(t, v);
      } else {
        EncodedWithin(q[1..], r);
      }
    }
  }

  /** Whatever torn tail a log ends in, replay does not deliver this put from behind it. */
  lemma TornTailSwallows(log: Bytes, v: uint8)
    requires Tail(log) != [] && v > 1
    ensures var q := Parse(Tail(log) + Encode(SmallPut(v)));
            Parse(log + Encode(SmallPut(v))) == Parse(log) + q && SmallPut(v) !in q
  {
    var (t, e) := (Tail(log), Encode(SmallPut(v)));
    LogShape(log);
    NotDelivered(t, v);
    ParseAppend(Parse(log), t + e);
    Assoc(EncodeAll(Parse(log)), t, e);
  }

  // ── the log object ────────────────────────────────────────────────────────

  /** An open segment: the bytes that reached the disk, then those still buffered. */
  class Log {
    var file: Bytes
    var buffered: Bytes

    /** Opening in append mode keeps what the segment already holds. */
    constructor (existing: Bytes)
      ensures file == existing && buffered == []
    {
      file, buffered := existing, [];
    }

    method WriteU32(v: nat)
      modifies `buffered
      ensures buffered == old(buffered) + LE(v, 4)
    {
      buffered := buffered + LE(v, 4);
    }

    method WriteStr(s: Bytes)
      modifies `buffered
      ensures buffered == old(buffered) + WStr(s)
    {
      WriteU32(|s|);
      buffered := buffered + s;
    }

    method Append(op: uint8, key: Bytes, value: Bytes)
      modifies `buffered
      ensures buffered == old(buffered) + Encode(Record(op, key, value))
    {
      buffered := buffered + [op];
      WriteStr(key);
      WriteStr(value);
    }

    method Sync()
      modifies this
      ensures file == old(file) + old(buffered) && buffered == []
    {
      file, buffered := file + buffered, [];
    }
  }

  lemma ParseStep(b: Bytes, r: Record, n: nat)
    requires ReadRecord(b) == Some((r, n))
    ensures Parse(b) == [r] + Parse(b[n..])
  {
  }

  /** Replay: the callback is the append to `out`. */
  method Replay(file: Bytes) returns (out: seq<Record>)
    ensures out == Parse(file)
  {
    out := [];
    var rest := file;
    while true
      invariant out + Parse(rest) == Parse(file)
      decreases |rest|
    {
      var next := ReadRecord(rest);
      if next.None? { break; }
      var (r, n) := next.value;
      ParseStep(rest, r, n);
      Assoc(out, [r], Parse(rest[n..]));
      out := out + [r];
      rest := rest[n..];
    }
  }
}
