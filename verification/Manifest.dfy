/** The MANIFEST text codec of `src/manifest.cpp` and the file-name codec of `src/db.cpp`. */
module Manifest {
  import opened Base

  datatype ManifestData = ManifestData(generation: nat, liveSstables: seq<string>)

  // ── numbers ───────────────────────────────────────────────────────────────

  predicate IsDigit(c: char) {
    '0' <= c <= '9'
  }

  function DigitChar(d: nat): (c: char)
    requires d < 10
    ensures IsDigit(c) && DigitValue(c) == d
  {
    '0' + d as char
  }

  function DigitValue(c: char): (d: nat)
    requires IsDigit(c)
    ensures d < 10
  {
    (c - '0') as nat
  }

  /** `%llu` */
  function Decimal(n: nat): (s: string)
    ensures s != []
  {
    if n < 10 then [DigitChar(n)] else Decimal(n / 10) + [DigitChar(n % 10)]
  }

  function Zeros(n: nat): string {
    if n == 0 then "" else "0" + Zeros(n - 1)
  }

  /** `%06llu` */
  function Padded(n: nat): string {
    Zeros(if |Decimal(n)| < 6 then 6 - |Decimal(n)| else 0) + Decimal(n)
  }

  ghost predicate AllDigits(s: string) {
    forall i :: 0 <= i < |s| ==> IsDigit(s[i])
  }

  function LeadingDigits(s: string): (p: string)
    ensures forall i :: 0 <= i < |p| ==> IsDigit(p[i])
  {
    if s == "" || !IsDigit(s[0]) then "" else [s[0]] + LeadingDigits(s[1..])
  }

  function Value(s: string): nat
    requires forall i :: 0 <= i < |s| ==> IsDigit(s[i])
  {
    if s == "" then 0 else 10 * Value(s[..|s| - 1]) + DigitValue(s[|s| - 1])
  }

  /** The white space `strtoull` passes over. */
  predicate IsSpace(c: char) {
    c == ' ' || '\t' <= c <= '\r'
  }

  function SkipSpace(s: string): string {
    if s != "" && IsSpace(s[0]) then SkipSpace(s[1..]) else s
  }

  /** `std::stoull`: white space, an optional sign, digits, anything; a negated value wraps.
      None is either of its exceptions. */
  function Stoull(s: string): Option<nat> {
    var t := SkipSpace(s);
    var negative := t != "" && t[0] == '-';
    var p := LeadingDigits(if t != "" && (t[0] == '-' || t[0] == '+') then t[1..] else t);
    if p == "" || Value(p) >= U64_LIMIT then None
    else if negative then Some((U64_LIMIT - Value(p)) % U64_LIMIT)
    else Some(Value(p))
  }

  lemma {:induction false} DecimalBack(n: nat)
    ensures AllDigits(Decimal(n)) && Value(Decimal(n)) == n
  {
    if n < 10 {
      assert Decimal(n)[..0] == "";
    } else {
      DecimalBack(n / 10);
      assert Decimal(n)[..|Decimal(n)| - 1] == Decimal(n / 10);
    }
  }

  lemma {:induction false} LeadingOfAll(s: string)
    requires AllDigits(s)
    ensures LeadingDigits(s) == s
  {
    if s == "" {
    } else {
      LeadingOfAll(s[1..]);
    }
  }

  lemma {:induction false} ValueOfPadding(k: nat, s: string)
    requires AllDigits(s)
    ensures AllDigits(Zeros(k) + s) && Value(Zeros(k) + s) == Value(s)
    decreases k + |s|
  {
    if s == "" {
      assert Zeros(k) + s == Zeros(k);
      ZerosAreZero(k);
    } else {
      var front := s[..|s| - 1];
      ValueOfPadding(k, front);
      var t := Zeros(k) + s;
      assert t[..|t| - 1] == Zeros(k) + front && t[|t| - 1] == s[|s| - 1];
      assert t == (Zeros(k) + front) + [s[|s| - 1]];
    }
  }

  lemma {:induction false} ZerosAreZero(k: nat)
    ensures AllDigits(Zeros(k)) && Value(Zeros(k)) == 0 && (k > 0 ==> Zeros(k) == Zeros(k - 1) + "0")
  {
    if k == 0 {
    } else {
      ZerosAreZero(k - 1);
      if k > 1 { assert Zeros(k) == "0" + (Zeros(k - 2) + "0"); }
      assert Zeros(k)[..|Zeros(k)| - 1] == Zeros(k - 1);
    }
  }

  lemma StoullOfDecimal(n: nat)
    requires n < U64_LIMIT
    ensures Stoull(Decimal(n)) == Some(n) && Stoull(Padded(n)) == Some(n)
  {
    var pad := if |Decimal(n)| < 6 then 6 - |Decimal(n)| else 0;
    DecimalBack(n);
    ValueOfPadding(pad, Decimal(n));
    StoullOfDigits(Decimal(n), n);
    assert Padded(n) == Zeros(pad) + Decimal(n);
    StoullOfDigits(Padded(n), n);
  }

  lemma StoullOfDigits(s: string, n: nat)
    requires s != "" && AllDigits(s) && Value(s) == n < U64_LIMIT
    ensures Stoull(s) == Some(n)
  {
    LeadingOfAll(s);
  }

  // ── file names ────────────────────────────────────────────────────────────

  function SstName(id: nat): string {
    "sst_" + Padded(id) + ".sst"
  }

  /** The last dot and all after it removed. */
  function Stem(name: string): string {
    if name == "" then ""
    else if name[|name| - 1] == '.' then name[..|name| - 1]
    else if '.' !in name then name
    else Stem(name[..|name| - 1])
  }

  /** Recovery's reading of a table name; None is an exception. */
  function IdOf(name: string): Option<nat> {
    if |Stem(name)| < 4 then None else Stoull(Stem(name)[4..])
  }

  lemma {:induction false} StemOf(base: string, ext: string)
    requires '.' !in ext
    ensures Stem(base + "." + ext) == base
  {
    var name := base + "." + ext;
    if ext == "" {
      assert name[..|name| - 1] == base;
    } else {
      assert name[|base|] == '.' && name[..|name| - 1] == base + "." + ext[..|ext| - 1];
      StemOf(base, ext[..|ext| - 1]);
    }
  }

  // ── log segments ──────────────────────────────────────────────────────────

  function WalName(id: nat): string {
    "wal_" + Padded(id) + ".log"
  }

  function SealedName(id: nat): string {
    WalName(id) + ".done"
  }

  /** The last dot and all after it. */
  function Extension(name: string): string {
    if Stem(name) <= name then name[|Stem(name)|..] else ""
  }

  /** A segment that recovery replays, by its number; a file passed over; or an exception. */
  function SegmentOf(name: string): Option<Option<nat>> {
    if Extension(name) != ".log" || !("wal_" <= Stem(name)) then Some(None)
    else match Stoull(Stem(name)[4..])
      case None => None
      case Some(id) => Some(Some(id))
  }

  /** A sealed segment, which recovery deletes. */
  predicate IsSealedName(name: string) {
    Extension(name) == ".done" && Extension(Stem(name)) == ".log"
  }

  lemma ExtensionOf(base: string, ext: string)
    requires '.' !in ext
    ensures Stem(base + "." + ext) == base && Extension(base + "." + ext) == "." + ext
  {
    StemOf(base, ext);
    assert base + "." + ext == base + ("." + ext);
  }

  /** A live segment is found under its number and not taken for a sealed one; once renamed it
      is sealed and no longer replayed. Tables are neither. */
  lemma SegmentNames(id: nat)
    requires id < U64_LIMIT
    ensures SegmentOf(WalName(id)) == Some(Some(id)) && !IsSealedName(WalName(id))
    ensures SegmentOf(SealedName(id)) == Some(None) && IsSealedName(SealedName(id))
    ensures SegmentOf(SstName(id)) == Some(None) && !IsSealedName(SstName(id))
  {
    LiveSegment(id);
    SealedSegment(id);
    TableIsNoSegment(id);
  }

  lemma LiveSegment(id: nat)
    requires id < U64_LIMIT
    ensures Stem(WalName(id)) == "wal_" + Padded(id) && Extension(WalName(id)) == ".log"
    ensures SegmentOf(WalName(id)) == Some(Some(id))
  {
    ExtensionOf("wal_" + Padded(id), "log");
    assert WalName(id) == "wal_" + Padded(id) + "." + "log";
    assert ("wal_" + Padded(id))[4..] == Padded(id);
    StoullOfDecimal(id);
  }

  lemma SealedSegment(id: nat)
    ensures Stem(SealedName(id)) == WalName(id) && Extension(SealedName(id)) == ".done"
  {
    ExtensionOf(WalName(id), "done");
    assert SealedName(id) == WalName(id) + "." + "done";
  }

  lemma TableIsNoSegment(id: nat)
    ensures Extension(SstName(id)) == ".sst"
  {
    ExtensionOf("sst_" + Padded(id), "sst");
    assert SstName(id) == "sst_" + Padded(id) + "." + "sst";
  }

  // ── table names ───────────────────────────────────────────────────────────

  lemma {:induction false} ZerosLength(k: nat)
    ensures |Zeros(k)| == k && forall i :: 0 <= i < k ==> Zeros(k)[i] == '0'
  {
    if k == 0 {
    } else {
      ZerosLength(k - 1);
    }
  }

  /** The number of digits: at most k exactly below 10^k. */
  function Pow10(k: nat): (p: nat)
    ensures p > 0
  {
    if k == 0 then 1 else 10 * Pow10(k - 1)
  }

  lemma {:induction false} DecimalLength(n: nat, k: nat)
    requires k > 0
    ensures |Decimal(n)| <= k <==> n < Pow10(k)
  {
    if n < 10 {
      Pow10Grows(k);
    } else if k == 1 {
    } else {
      DecimalLength(n / 10, k - 1);
    }
  }

  lemma {:induction false} Pow10Grows(k: nat)
    requires k > 0
    ensures Pow10(k) >= 10
  {
    if k == 1 {
    } else {
      Pow10Grows(k - 1);
    }
  }

  /** At least six digits, exactly six below a million and no padding from there on. */
  lemma PaddedLength(id: nat)
    ensures |Padded(id)| >= 6 && (|Padded(id)| == 6 <==> id < 1000000)
    ensures id >= 1000000 ==> Padded(id) == Decimal(id)
  {
    ZerosLength(if |Decimal(id)| < 6 then 6 - |Decimal(id)| else 0);
    DecimalLength(id, 6);
    assert Pow10(6) == 1000000;
    if id >= 1000000 { DecimalLength(id, 5); }
  }

  /** The shape of a table's file name. */
  lemma NameShape(id: nat)
    ensures |SstName(id)| >= 14 && (|SstName(id)| == 14 <==> id < 1000000)
    ensures SstName(id)[..4] == "sst_" && SstName(id)[|SstName(id)| - 4..] == ".sst"
    ensures id >= 1000000 ==> SstName(id) == "sst_" + Decimal(id) + ".sst"
  {
    PaddedLength(id);
  }

  lemma NameOfThree()
    ensures SstName(3) == "sst_000003.sst"
  {
    assert Decimal(3) == "3" && Zeros(5) == "00000";
  }

  lemma {:induction false} ValueInjective(s: string, t: string)
    requires |s| == |t| && AllDigits(s) && AllDigits(t) && Value(s) == Value(t)
    ensures s == t
  {
    if s == "" {
    } else {
      var n := |s| - 1;
      ValueInjective(s[..n], t[..n]);
      assert s == s[..n] + [s[n]] && t == t[..n] + [t[n]];
    }
  }

  /** At their first difference, `s` has the smaller character. */
  ghost predicate SmallerAt(s: string, t: string, n: nat) {
    n < |s| && n < |t| && s[..n] == t[..n] && s[n] < t[n]
  }

  /** Digit strings of one length order as their values do. */
  lemma {:induction false} ValueOrder(s: string, t: string)
    requires |s| == |t| && AllDigits(s) && AllDigits(t)
    ensures Value(s) < Value(t) <==> exists n: nat :: SmallerAt(s, t, n)
  {
    if s == "" {
    } else {
      var k := |s| - 1;
      ValueOrder(s[..k], t[..k]);
      if Value(s[..k]) == Value(t[..k]) {
        ValueInjective(s[..k], t[..k]);
        assert SmallerAt(s, t, k) <==> s[k] < t[k];
      }
      FirstDifference(s, t, k);
    }
  }

  lemma FirstDifference(s: string, t: string, k: nat)
    requires |s| == |t| == k + 1
    ensures (exists n: nat :: SmallerAt(s, t, n)) <==>
            (exists n: nat :: SmallerAt(s[..k], t[..k], n)) || SmallerAt(s, t, k)
  {
    if n: nat :| SmallerAt(s, t, n) {
      if n < k { assert s[..k][..n] == s[..n] && t[..k][..n] == t[..n] && SmallerAt(s[..k], t[..k], n); }
    }
    if n: nat :| SmallerAt(s[..k], t[..k], n) {
      assert s[..k][..n] == s[..n] && t[..k][..n] == t[..n] && SmallerAt(s, t, n);
    }
  }

  /** Below a million, table names order as their ids do. */
  lemma NamesOrder(a: nat, b: nat)
    requires a < 1000000 && b < 1000000
    ensures a < b <==> exists n: nat :: SmallerAt(SstName(a), SstName(b), n)
  {
    PaddedLength(a);
    PaddedLength(b);
    PaddedValue(a);
    PaddedValue(b);
    ValueOrder(Padded(a), Padded(b));
    SameFrame("sst_", Padded(a), Padded(b), ".sst");
    assert SstName(a) == "sst_" + Padded(a) + ".sst" && SstName(b) == "sst_" + Padded(b) + ".sst";
  }

  lemma PaddedValue(n: nat)
    ensures AllDigits(Padded(n)) && Value(Padded(n)) == n
  {
    DecimalBack(n);
    ValueOfPadding(if |Decimal(n)| < 6 then 6 - |Decimal(n)| else 0, Decimal(n));
  }

  lemma SameFrame(pre: string, s: string, t: string, post: string)
    requires |s| == |t|
    ensures (exists n: nat :: SmallerAt(pre + s + post, pre + t + post, n)) <==> (exists n: nat :: SmallerAt(s, t, n))
  {
    var a, b, k := pre + s + post, pre + t + post, |pre|;
    if n: nat :| SmallerAt(s, t, n) {
      assert a[..k + n] == pre + s[..n] && b[..k + n] == pre + t[..n];
      assert SmallerAt(a, b, k + n);
    }
    if n: nat :| SmallerAt(a, b, n) {
      assert k <= n < k + |s|;
      assert a[k..n] == s[..n - k] && b[k..n] == t[..n - k];
      assert a[..n][k..] == a[k..n] && b[..n][k..] == b[k..n];
      assert SmallerAt(s, t, n - k);
    }
  }

  /** A table name gives its id back, for every 64-bit id. */
  lemma NameRoundTrip(id: nat)
    requires id < U64_LIMIT
    ensures IdOf(SstName(id)) == Some(id)
  {
    StemOf("sst_" + Padded(id), "sst");
    assert SstName(id) == "sst_" + Padded(id) + "." + "sst";
    assert ("sst_" + Padded(id))[4..] == Padded(id);
    StoullOfDecimal(id);
  }

  // ── the text ──────────────────────────────────────────────────────────────

  predicate NoNewline(s: string) {
    '\n' !in s
  }

  function FileLines(names: seq<string>): string {
    if names == [] then "" else FileLines(names[..|names| - 1]) + ("file " + names[|names| - 1] + "\n")
  }

  function Render(d: ManifestData): string {
    "generation " + Decimal(d.generation) + "\n" + FileLines(d.liveSstables)
  }

  /** `std::getline`: the line, and what follows it. */
  function GetLine(text: string): (r: (string, string))
    requires text != ""
    ensures |r.1| < |text|
  {
    if text[0] == '\n' then ("", text[1..])
    else if |text| == 1 then (text, "")
    else var (line, rest) := GetLine(text[1..]); ([text[0]] + line, rest)
  }

  /** One line's effect; unknown lines are ignored. */
  function TakeLine(d: ManifestData, line: string): Option<ManifestData> {
    if "generation " <= line then
      match Stoull(line[11..])
      case None => None
      case Some(n) => Some(d.(generation := n))
    else if "file " <= line then Some(d.(liveSstables := d.liveSstables + [line[5..]]))
    else Some(d)
  }

  function ReadFrom(d: ManifestData, text: string): Option<ManifestData>
    decreases |text|
  {
    if text == "" then Some(d)
    else
      var (line, rest) := GetLine(text);
      match TakeLine(d, line)
      case None => None
      case Some(e) => ReadFrom(e, rest)
  }

  lemma {:induction false} GetLineOf(line: string, rest: string)
    requires NoNewline(line)
    ensures GetLine(line + "\n" + rest) == (line, rest)
  {
    var text := line + "\n" + rest;
    if line == "" {
      assert text[1..] == rest;
    } else {
      assert text[1..] == line[1..] + "\n" + rest;
      GetLineOf(line[1..], rest);
      assert line == [line[0]] + line[1..];
    }
  }

  /** A last line without its newline is still a line. */
  lemma {:induction false} LastLine(line: string)
    requires NoNewline(line) && line != ""
    ensures GetLine(line) == (line, "")
  {
    if |line| == 1 {
    } else {
      LastLine(line[1..]);
      assert line == [line[0]] + line[1..];
    }
  }

  lemma {:induction false} ReadFileLines(d: ManifestData, names: seq<string>, rest: string)
    requires forall i :: 0 <= i < |names| ==> NoNewline(names[i])
    ensures ReadFrom(d, FileLines(names) + rest) == ReadFrom(d.(liveSstables := d.liveSstables + names), rest)
  {
    if names == [] {
      assert FileLines(names) + rest == rest && d.liveSstables + names == d.liveSstables;
    } else {
      var front, last := names[..|names| - 1], names[|names| - 1];
      var line := "file " + last;
      assert FileLines(names) + rest == FileLines(front) + (line + "\n" + rest);
      ReadFileLines(d, front, line + "\n" + rest);
      GetLineOf(line, rest);
      assert line[5..] == last && !("generation " <= line) by { assert line[0] == 'f' && "generation "[0] == 'g'; }
      assert (d.liveSstables + front) + [last] == d.liveSstables + names;
    }
  }

  /** Reading what was written returns the same generation and the same names in order. */
  lemma ReadOfWrite(d: ManifestData)
    requires d.generation < U64_LIMIT && forall i :: 0 <= i < |d.liveSstables| ==> NoNewline(d.liveSstables[i])
    ensures ReadFrom(ManifestData(0, []), Render(d)) == Some(d)
  {
    var line := "generation " + Decimal(d.generation);
    DecimalBack(d.generation);
    StoullOfDecimal(d.generation);
    assert NoNewline(line) by {
      forall i | 0 <= i < |line| ensures line[i] != '\n' {
        if i >= 11 { assert line[i] == Decimal(d.generation)[i - 11]; }
      }
    }
    GetLineOf(line, FileLines(d.liveSstables));
    assert line[11..] == Decimal(d.generation);
    var e := ManifestData(d.generation, []);
    ReadFileLines(e, d.liveSstables, "");
    assert FileLines(d.liveSstables) + "" == FileLines(d.liveSstables);
    assert [] + d.liveSstables == d.liveSstables;
  }

  /** The text of a small MANIFEST. */
  lemma TextOfOne()
    ensures Render(ManifestData(7, ["sst_000003.sst"])) == "generation 7\nfile sst_000003.sst\n"
  {
    var names := ["sst_000003.sst"];
    assert names[..0] == [] && FileLines(names) == "" + ("file " + "sst_000003.sst" + "\n");
  }

  /** A line that starts with neither word is passed over. */
  lemma UnknownLineIgnored(d: ManifestData, line: string, rest: string)
    requires NoNewline(line) && !("generation " <= line) && !("file " <= line)
    ensures ReadFrom(d, line + "\n" + rest) == ReadFrom(d, rest)
  {
    GetLineOf(line, rest);
  }

  lemma {:induction false} LeadingStops(s: string, tail: string)
    requires AllDigits(s) && (tail == "" || !IsDigit(tail[0]))
    ensures LeadingDigits(s + tail) == s
  {
    if s == "" {
      assert s + tail == tail;
    } else {
      assert (s + tail)[1..] == s[1..] + tail;
      LeadingStops(s[1..], tail);
    }
  }

  /** What `std::stoull` makes of a number with and without a sign, whatever follows it: the
      value, its negation modulo 2^64, or an exception when it does not fit 64 bits. */
  lemma StoullSigns(n: nat, sign: string, tail: string)
    requires sign == "" || sign == "+" || sign == "-"
    requires tail == "" || !('0' <= tail[0] <= '9')
    ensures Stoull(sign + (Decimal(n) + tail)) ==
            if n >= 0x1_0000_0000_0000_0000 then None
            else if sign == "-" then Some((0x1_0000_0000_0000_0000 - n) % 0x1_0000_0000_0000_0000)
            else Some(n)
  {
    var (d, body) := (Decimal(n), Decimal(n) + tail);
    DecimalBack(n);
    LeadingStops(d, tail);
    var t := sign + body;
    if sign == "" {
      assert t == body;
    } else {
      assert t[0] == sign[0] && t[1..] == body;
    }
    SignedNumber(t, body, d);
  }

  lemma SignedNumber(t: string, body: string, d: string)
    requires d != "" && AllDigits(d) && body != "" && LeadingDigits(body) == d && d[0] == body[0]
    requires t == body || (t != "" && (t[0] == '+' || t[0] == '-') && t[1..] == body)
    ensures Stoull(t) ==
            if Value(d) >= U64_LIMIT then None
            else if t[0] == '-' then Some((U64_LIMIT - Value(d)) % U64_LIMIT)
            else Some(Value(d))
  {
    assert SkipSpace(t) == t;
  }

  /** Leading white space does not count; without a digit there is no number. */
  lemma StoullSpace(c: char, s: string)
    requires c == ' ' || c == '\t' || c == '\n' || c == '\U{000B}' || c == '\U{000C}' || c == '\r'
    ensures Stoull([c] + s) == Stoull(s)
    ensures s == "" || !(IsSpace(s[0]) || IsDigit(s[0]) || s[0] == '+' || s[0] == '-') ==> Stoull(s) == None
  {
    assert ([c] + s)[1..] == s;
  }

  function Names(ids: seq<nat>): (ns: seq<string>)
    ensures |ns| == |ids|
  {
    seq(|ids|, i requires 0 <= i < |ids| => SstName(ids[i]))
  }

  lemma NameHasNoNewline(id: nat)
    ensures NoNewline(SstName(id))
  {
    DecimalBack(id);
    ValueOfPadding(if |Decimal(id)| < 6 then 6 - |Decimal(id)| else 0, Decimal(id));
    forall i | 0 <= i < |SstName(id)| ensures SstName(id)[i] != '\n' {
      if 4 <= i < 4 + |Padded(id)| { assert SstName(id)[i] == Padded(id)[i - 4]; }
    }
  }

  /** The list of table ids survives names and text together, newest first. */
  lemma ListRoundTrip(gen: nat, ids: seq<nat>)
    requires gen < U64_LIMIT && forall i :: 0 <= i < |ids| ==> ids[i] < U64_LIMIT
    ensures ReadFrom(ManifestData(0, []), Render(ManifestData(gen, Names(ids)))) == Some(ManifestData(gen, Names(ids)))
    ensures forall i :: 0 <= i < |ids| ==> IdOf(Names(ids)[i]) == Some(ids[i])
  {
    forall i | 0 <= i < |ids| ensures NoNewline(Names(ids)[i]) && IdOf(Names(ids)[i]) == Some(ids[i]) {
      NameHasNoNewline(ids[i]);
      NameRoundTrip(ids[i]);
    }
    ReadOfWrite(ManifestData(gen, Names(ids)));
  }

  // ── the loops ─────────────────────────────────────────────────────────────

  /** The contents of MANIFEST.tmp when `Manifest::write` closes it. */
  method WriteText(d: ManifestData) returns (text: string)
    ensures text == Render(d)
  {
    text := "generation " + Decimal(d.generation) + "\n";
    ghost var head := text;
    for i := 0 to |d.liveSstables|
      invariant text == head + FileLines(d.liveSstables[..i])
    {
      assert d.liveSstables[..i + 1][..i] == d.liveSstables[..i];
      text := text + ("file " + d.liveSstables[i] + "\n");
    }
    assert d.liveSstables[..|d.liveSstables|] == d.liveSstables;
  }

  /** `Manifest::read`; None is an exception from the generation number. */
  method ReadText(text: string) returns (r: Option<ManifestData>)
    ensures r == ReadFrom(ManifestData(0, []), text)
  {
    var d := ManifestData(0, []);
    var rest := text;
    while rest != ""
      invariant ReadFrom(d, rest) == ReadFrom(ManifestData(0, []), text)
      decreases |rest|
    {
      var (line, after) := GetLine(rest);
      rest := after;
      if "generation " <= line {
        var n := Stoull(line[11..]);
        if n.None? { return None; }
        d := d.(generation := n.value);
      } else if "file " <= line {
        d := d.(liveSstables := d.liveSstables + [line[5..]]);
      }
    }
    r := Some(d);
  }
}
