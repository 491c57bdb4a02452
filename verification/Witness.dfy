/** Runs that lose an acknowledged write: what the durability conditions rule out is reachable. */
module Witness {
  import opened Base
  import opened Wal
  import opened Layers
  import opened Machine
  import opened Safety
  import opened Durability
  import opened Runs

  // ── reachability, one step at a time ──────────────────────────────────────

  /** How carefully a run is made: never appending behind a torn tail, and beyond that never
      crashing but at rest with nothing in flight. */
  datatype Care = Careless | Careful | Calm

  ghost predicate Takes(care: Care, s: State, l: Label) {
    && (care != Careless ==> NotTorn(s, l))
    && (care == Calm && l.Crash? ==> IsAt(s, Ready) && s.pending == None)
  }

  /** Some run leads from `s` to `t` with that care. */
  ghost predicate Reaches(s: State, t: State, care: Care) {
    exists ss, ls :: Leads(s, t, care, ss, ls)
  }

  ghost predicate Leads(s: State, t: State, care: Care, ss: seq<State>, ls: seq<Label>) {
    IsRun(s, ss, ls) && ss[|ss| - 1] == t && forall i :: 0 <= i < |ls| ==> Takes(care, ss[i], ls[i])
  }

  lemma Here(s: State, care: Care)
    ensures Reaches(s, s, care)
  {
    assert Leads(s, s, care, [s], []);
  }

  lemma Then(s: State, t: State, care: Care, l: Label, u: State)
    requires Reaches(s, t, care) && IsStep(t, l, u) && Takes(care, t, l)
    ensures Reaches(s, u, care)
  {
    var ss, ls :| Leads(s, t, care, ss, ls);
    var ss', ls' := ss + [u], ls + [l];
    forall i | 0 <= i < |ls'| ensures IsStep(ss'[i], ls'[i], ss'[i + 1]) && Takes(care, ss'[i], ls'[i]) {
      if i < |ls| { assert IsStep(ss[i], ls[i], ss[i + 1]) && Takes(care, ss[i], ls[i]); }
    }
    assert Leads(s, u, care, ss', ls');
  }

  /** A serving state at rest, with everything spelled out. */
  ghost function Rest(ids: seq<nat>, gen: nat, ssts: map<nat, SstFile>, logs: map<nat, Bytes>,
                      mem: Entries, next: nat, wal: nat, acked: View, journal: seq<nat>): State
  {
    State(Disk(Some(ManifestRec(gen, ids)), None, ssts, logs, {}),
          Up(Ram(mem, ids, next, wal, gen), Ready), acked, None, journal)
  }

  ghost function Halted(ids: seq<nat>, gen: nat, ssts: map<nat, SstFile>, logs: map<nat, Bytes>,
                        acked: View, journal: seq<nat>): State
  {
    State(Disk(Some(ManifestRec(gen, ids)), None, ssts, logs, {}), Down, acked, None, journal)
  }

  ghost const STARTED := Rest([], 1, map[], map[0 := []], map[], 0, 0, map[], [])

  ghost function Starting(d: Disk, ram: Ram, pc: Pc): State {
    State(d, Up(ram, pc), map[], None, [])
  }

  ghost const FIRST_DISK := EMPTY_DISK.(manifest := Some(ManifestRec(1, [])))
  ghost const FIRST_RAM := FRESH_RAM.(gen := 1)

  lemma FirstManifest(care: Care)
    ensures Reaches(INITIAL, Starting(FIRST_DISK, FIRST_RAM, Committed(FirstJob)), care)
  {
    var d := EMPTY_DISK;
    Here(INITIAL, care);
    Then(INITIAL, INITIAL, care, Boot, Starting(d, FRESH_RAM, RemovingTmp));
    Then(INITIAL, Starting(d, FRESH_RAM, RemovingTmp), care, Advance, Starting(d, FRESH_RAM, RemovingSealed));
    Then(INITIAL, Starting(d, FRESH_RAM, RemovingSealed), care, Advance, Starting(d, FRESH_RAM, LoadingManifest));
    Then(INITIAL, Starting(d, FRESH_RAM, LoadingManifest), care, Advance,
         Starting(d, FRESH_RAM, Installed(FirstJob)));
    ManifestTo(INITIAL, care, Starting(d, FRESH_RAM, Installed(FirstJob)), FirstJob);
  }

  /** The first start on an empty directory. */
  lemma FirstStart(care: Care)
    ensures Reaches(INITIAL, STARTED, care)
  {
    FirstManifest(care);
    var d, ram := FIRST_DISK, FIRST_RAM;
    Then(INITIAL, Starting(d, ram, Committed(FirstJob)), care, Advance, Starting(d, ram, RemovingOrphans));
    Then(INITIAL, Starting(d, ram, RemovingOrphans), care, Advance, Starting(d, ram, ReplayingLogs));
    assert ReplayAll(map[]) == map[];
    assert Live(Tables(map[], []) + map[]) == map[];
    Then(INITIAL, Starting(d, ram, ReplayingLogs), care, Advance, STARTED);
  }

  /** A restart when nothing needs cleaning up. */
  lemma Restart(s: State, care: Care, ids: seq<nat>, gen: nat, ssts: map<nat, SstFile>, logs: map<nat, Bytes>,
                acked: View, journal: seq<nat>)
    requires Reaches(s, Halted(ids, gen, ssts, logs, acked, journal), care)
    requires ssts.Keys <= IdSet(ids)
    ensures var wal := ActiveId(logs, NextOf(ids));
            Reaches(s, Rest(ids, gen, ssts, WithSegment(logs, wal), ReplayAll(logs), NextOf(ids), wal,
                            Live(Tables(ssts, ids) + ReplayAll(logs)), journal), care)
  {
    var h := Halted(ids, gen, ssts, logs, acked, journal);
    var up := (ram: Ram, pc: Pc) => h.(proc := Up(ram, pc));
    var ram := FRESH_RAM.(ssts := ids, next := NextOf(ids), gen := gen);
    Then(s, h, care, Boot, up(FRESH_RAM, RemovingTmp));
    Then(s, up(FRESH_RAM, RemovingTmp), care, Advance, up(FRESH_RAM, RemovingSealed));
    Then(s, up(FRESH_RAM, RemovingSealed), care, Advance, up(FRESH_RAM, LoadingManifest));
    Then(s, up(FRESH_RAM, LoadingManifest), care, Advance, up(ram, RemovingOrphans));
    Then(s, up(ram, RemovingOrphans), care, Advance, up(ram, ReplayingLogs));
    var wal := ActiveId(logs, NextOf(ids));
    Then(s, up(ram, ReplayingLogs), care, Advance,
         Rest(ids, gen, ssts, WithSegment(logs, wal), ReplayAll(logs), NextOf(ids), wal,
              Live(Tables(ssts, ids) + ReplayAll(logs)), journal));
  }

  /** A put or delete that returns without flushing. */
  lemma Write(s: State, care: Care, t: State, r: Record)
    requires Reaches(s, t, care) && IsAt(t, Ready) && t.pending == None && ClientOp(r)
    requires t.proc.ram.wal in t.disk.logs && Takes(care, t, BeginOp(r))
    ensures var wal := t.proc.ram.wal;
            Reaches(s, t.(disk := t.disk.(logs := t.disk.logs[wal := t.disk.logs[wal] + Encode(r)]),
                          proc := Up(t.proc.ram.(mem := t.proc.ram.mem[r.key := EntryOf(r)]), Ready),
                          acked := Apply(t.acked, r), journal := t.journal + [wal]), care)
  {
    var ram, b := t.proc.ram, t.disk.logs[t.proc.ram.wal];
    var t1 := t.(pending := Some(r), proc := Up(ram, Appending(b, 0)));
    var t2 := t1.(disk := t.disk.(logs := t.disk.logs[ram.wal := b + Encode(r)]), journal := t.journal + [ram.wal],
                  proc := Up(ram, Appending(b, |Encode(r)|)));
    var t3 := t2.(proc := Up(ram.(mem := ram.mem[r.key := EntryOf(r)]), Ready));
    Then(s, t, care, BeginOp(r), t1);
    assert Encode(r)[0..|Encode(r)|] == Encode(r);
    Then(s, t1, care, WriteBytes(|Encode(r)|), t2);
    Then(s, t2, care, Advance, t3);
    Then(s, t3, care, Ack, t3.(acked := Apply(t.acked, r), pending := None));
  }

  ghost predicate Starts(t: State, l: Label, job: Job) {
    && IsAt(t, Ready) && Enabled(t, l)
    && ((l == BeginFlush && job == FlushJob) || (l == BeginCompact && job == CompactJob(t.proc.ram.ssts)))
  }

  /** The table the job builds. */
  ghost function Product(t: State, job: Job): Entries
    requires t.proc.Up?
  {
    JobEntries(t.disk.ssts[t.proc.ram.next := Partial], t.proc.ram, job)
  }

  /** A flush or compaction up to and including the MANIFEST rename. */
  lemma JobToCommit(s: State, care: Care, t: State, l: Label, job: Job)
    requires Reaches(s, t, care) && Starts(t, l, job)
    ensures var (ram, id) := (t.proc.ram, t.proc.ram.next);
            var list := NewList(job, ram.ssts, id);
            Reaches(s, t.(disk := t.disk.(manifest := Some(ManifestRec(ram.gen + 1, list)), tmp := None,
                                          ssts := t.disk.ssts[id := Complete(Product(t, job))]),
                          proc := Up(ram.(ssts := list, next := id + 1, gen := ram.gen + 1), Committed(job))), care)
  {
    var (d, ram, id) := (t.disk, t.proc.ram, t.proc.ram.next);
    var list := NewList(job, ram.ssts, id);
    var ram1 := ram.(next := id + 1);
    var ram2 := ram1.(ssts := list);
    var d1 := d.(ssts := d.ssts[id := Partial]);
    var d2 := d.(ssts := d.ssts[id := Complete(Product(t, job))]);
    assert d1.ssts[id := Complete(Product(t, job))] == d2.ssts;
    var t1 := t.(disk := d1, proc := Up(ram1, Building(job)));
    var t2 := t.(disk := d2, proc := Up(ram2, Installed(job)));
    Then(s, t, care, l, t1);
    Then(s, t1, care, Advance, t2);
    ManifestTo(s, care, t2, job);
  }

  lemma ManifestTo(s: State, care: Care, t: State, job: Job)
    requires Reaches(s, t, care) && IsAt(t, Installed(job))
    ensures var ram := t.proc.ram;
            Reaches(s, t.(disk := t.disk.(manifest := Some(ManifestRec(ram.gen + 1, ram.ssts)), tmp := None),
                          proc := Up(ram.(gen := ram.gen + 1), Committed(job))), care)
  {
    var (d, ram) := (t.disk, t.proc.ram.(gen := t.proc.ram.gen + 1));
    var rec := ManifestRec(ram.gen, ram.ssts);
    var t1 := t.(disk := d.(tmp := Some(HalfWritten)), proc := Up(ram, TmpHalf(job)));
    var t2 := t.(disk := d.(tmp := Some(Written(rec))), proc := Up(ram, TmpFull(job)));
    var t3 := t.(disk := d.(manifest := Some(rec), tmp := None), proc := Up(ram, Committed(job)));
    Then(s, t, care, Advance, t1);
    Then(s, t1, care, Advance, t2);
    Then(s, t2, care, Advance, t3);
  }

  // ── a stale segment comes back ────────────────────────────────────────────

  lemma OneRecordLog(r: Record)
    requires Fits(r)
    ensures EndsOnRecord(Encode(r)) && Parse(Encode(r)) == [r]
    ensures [] + Encode(r) == Encode(r)
  {
    RoundTripIffFits(r);
    assert EncodeAll([r]) == Encode(r) + EncodeAll([r][1..]);
    assert AllFit([r]) && EncodeAll([r]) == Encode(r);
  }

  lemma ReplayOne(id: nat, r: Record)
    requires Fits(r)
    ensures ReplayAll(map[id := Encode(r)]) == map[r.key := EntryOf(r)]
  {
    OneRecordLog(r);
    var logs := map[id := Encode(r)];
    ReplayTop(logs, id);
    assert logs - {id} == map[];
    assert [r][..0] == [];
    assert Replayed([r]) == map[r.key := EntryOf(r)];
  }

  ghost function Slot(r: Record): Entries {
    map[r.key := EntryOf(r)]
  }

  /** One put into an empty segment. */
  lemma PutInto(care: Care, ids: seq<nat>, gen: nat, ssts: map<nat, SstFile>, logs: map<nat, Bytes>, mem: Entries,
                next: nat, wal: nat, acked: View, journal: seq<nat>, r: Record)
    requires Reaches(INITIAL, Rest(ids, gen, ssts, logs, mem, next, wal, acked, journal), care)
    requires wal in logs && logs[wal] == [] && ClientOp(r)
    ensures Reaches(INITIAL, Rest(ids, gen, ssts, logs[wal := Encode(r)], mem[r.key := EntryOf(r)], next, wal,
                                  Apply(acked, r), journal + [wal]), care)
  {
    EmptyLogIsBoundary();
    OneRecordLog(r);
    Write(INITIAL, care, Rest(ids, gen, ssts, logs, mem, next, wal, acked, journal), r);
  }

  ghost function AtSeal(ids: seq<nat>, gen: nat, ssts: map<nat, SstFile>, logs: map<nat, Bytes>,
                        mem: Entries, next: nat, wal: nat, acked: View, journal: seq<nat>): State
  {
    State(Disk(Some(ManifestRec(gen, ids)), None, ssts, logs, {}),
          Up(Ram(mem, ids, next, wal, gen), Committed(FlushJob)), acked, None, journal)
  }

  lemma FlushOf(care: Care, ids: seq<nat>, gen: nat, ssts: map<nat, SstFile>, logs: map<nat, Bytes>, mem: Entries,
                next: nat, wal: nat, acked: View, journal: seq<nat>)
    requires Reaches(INITIAL, Rest(ids, gen, ssts, logs, mem, next, wal, acked, journal), care) && mem != map[]
    ensures Reaches(INITIAL, AtSeal([next] + ids, gen + 1, ssts[next := Complete(mem)], logs, mem, next + 1, wal,
                                    acked, journal), care)
  {
    JobToCommit(INITIAL, care, Rest(ids, gen, ssts, logs, mem, next, wal, acked, journal), BeginFlush, FlushJob);
  }

  /** First session: put, then a flush cut down between the MANIFEST rename and the seal. */
  lemma CutBeforeSeal(r: Record)
    requires ClientOp(r)
    ensures Reaches(INITIAL, Halted([0], 2, map[0 := Complete(Slot(r))], map[0 := Encode(r)],
                                    Apply(map[], r), [0]), Careful)
  {
    FirstStart(Careful);
    PutInto(Careful, [], 1, map[], map[0 := []], map[], 0, 0, map[], [], r);
    SingletonUpdates(r);
    FlushOf(Careful, [], 1, map[], map[0 := Encode(r)], Slot(r), 0, 0, Apply(map[], r), [0]);
    var c := AtSeal([0], 2, map[0 := Complete(Slot(r))], map[0 := Encode(r)], Slot(r), 1, 0, Apply(map[], r), [0]);
    Then(INITIAL, c, Careful, Crash, c.(proc := Down));
  }

  lemma SingletonUpdates(r: Record)
    ensures map[0 := []][0 := Encode(r)] == map[0 := Encode(r)]
    ensures map[][r.key := EntryOf(r)] == Slot(r)
    ensures map[][0 := Complete(Slot(r))] == map[0 := Complete(Slot(r))]
    ensures [] + [0] == [0] && [0] + [] == [0]
    ensures Slot(r) != map[]
  {
    assert r.key in Slot(r);
  }

  /** Second session: overwrite the key and flush up to the seal. */
  lemma OverwriteAndFlush(r: Record, q: Record)
    requires ClientOp(r) && ClientOp(q) && r.key == q.key
    ensures Reaches(INITIAL, AtSeal([1, 0], 3, map[0 := Complete(Slot(r)), 1 := Complete(Slot(q))],
                                    map[0 := Encode(r), 1 := Encode(q)], Slot(q), 2, 1,
                                    Apply(Live(Slot(r)), q), [0, 1]), Careful)
  {
    CutBeforeSeal(r);
    ReplayOne(0, r);
    var ssts, logs := map[0 := Complete(Slot(r))], map[0 := Encode(r)];
    NextOfCons(0, []);
    assert [0] + [] == [0] && NextOf([]) == 0;
    Restart(INITIAL, Careful, [0], 2, ssts, logs, Apply(map[], r), [0]);
    SecondUpdates(r, q);
    PutInto(Careful, [0], 2, ssts, map[0 := Encode(r), 1 := []], Slot(r), 1, 1, Live(Slot(r)), [0], q);
    FlushOf(Careful, [0], 2, ssts, map[0 := Encode(r), 1 := Encode(q)], Slot(q), 1, 1, Apply(Live(Slot(r)), q), [0, 1]);
  }

  lemma SecondUpdates(r: Record, q: Record)
    requires r.key == q.key
    ensures ActiveId(map[0 := Encode(r)], 1) == 1
    ensures WithSegment(map[0 := Encode(r)], 1) == map[0 := Encode(r), 1 := []]
    ensures Tables(map[0 := Complete(Slot(r))], [0]) + Slot(r) == Slot(r)
    ensures map[0 := Encode(r), 1 := []][1 := Encode(q)] == map[0 := Encode(r), 1 := Encode(q)]
    ensures Slot(r)[q.key := EntryOf(q)] == Slot(q)
    ensures map[0 := Complete(Slot(r))][1 := Complete(Slot(q))] == map[0 := Complete(Slot(r)), 1 := Complete(Slot(q))]
    ensures [0] + [1] == [0, 1] && [1] + [0] == [1, 0]
    ensures Slot(q) != map[]
  {
    assert q.key in Slot(q);
    assert [0][1..] == [];
  }

  /** A crash between the MANIFEST rename and the seal leaves a segment that no later flush
      seals. Overwrite the key, flush, crash: recovery replays the old value over the new. */
  lemma StaleSegment(k: Bytes, v: Bytes, w: Bytes) returns (t: State)
    requires |k| < U32_LIMIT && |v| < U32_LIMIT && |w| < U32_LIMIT && v != w
    ensures Reaches(INITIAL, t, Careful) && t.proc.Down? && t.pending == None
    ensures k in t.acked && t.acked[k] == w
    ensures k in RecView(t.disk) && RecView(t.disk)[k] == v
  {
    var r, q := Record(PUT, k, v), Record(PUT, k, w);
    OverwriteAndFlush(r, q);
    ReplayOne(0, r);
    var logs := map[0 := Encode(r)];
    var c := AtSeal([1, 0], 3, map[0 := Complete(Slot(r)), 1 := Complete(Slot(q))],
                    map[0 := Encode(r), 1 := Encode(q)], Slot(q), 2, 1, Apply(Live(Slot(r)), q), [0, 1]);
    var sealed := c.(disk := c.disk.(logs := logs, done := {1}), proc := Up(c.proc.ram, Sealed(1)));
    assert c.disk.logs - {1} == logs;
    Then(INITIAL, c, Careful, Advance, sealed);
    t := sealed.(proc := Down);
    Then(INITIAL, sealed, Careful, Crash, t);
  }

  // ── crashes at rest are enough ────────────────────────────────────────────

  /** A flush to its end: the segment is sealed and gone, an empty one is open. */
  lemma FlushAll(care: Care, ids: seq<nat>, gen: nat, ssts: map<nat, SstFile>, logs: map<nat, Bytes>, mem: Entries,
                 next: nat, wal: nat, acked: View, journal: seq<nat>)
    requires Reaches(INITIAL, Rest(ids, gen, ssts, logs, mem, next, wal, acked, journal), care) && mem != map[]
    requires next + 1 !in logs
    ensures Reaches(INITIAL, Rest([next] + ids, gen + 1, ssts[next := Complete(mem)], (logs - {wal})[next + 1 := []],
                                  map[], next + 1, next + 1, acked, journal), care)
  {
    FlushOf(care, ids, gen, ssts, logs, mem, next, wal, acked, journal);
    var c := AtSeal([next] + ids, gen + 1, ssts[next := Complete(mem)], logs, mem, next + 1, wal, acked, journal);
    var c1 := c.(disk := c.disk.(logs := logs - {wal}, done := {wal}), proc := Up(c.proc.ram, Sealed(wal)));
    var c2 := c1.(disk := c1.disk.(logs := (logs - {wal})[next + 1 := []]),
                  proc := Up(c.proc.ram.(wal := next + 1, mem := map[]), Opened(wal)));
    assert {} + {wal} == {wal};
    Then(INITIAL, c, care, Advance, c1);
    Then(INITIAL, c1, care, Advance, c2);
    assert {wal} - {wal} == {};
    Then(INITIAL, c2, care, Advance, c2.(disk := c2.disk.(done := {}), proc := Up(c2.proc.ram, Ready)));
  }

  /** Two tables compacted to one; the open segment keeps its number. */
  lemma CompactTwo(care: Care, b: nat, a: nat, gen: nat, ssts: map<nat, SstFile>, logs: map<nat, Bytes>,
                   next: nat, wal: nat, acked: View, journal: seq<nat>)
    requires Reaches(INITIAL, Rest([b, a], gen, ssts, logs, map[], next, wal, acked, journal), care)
    ensures var clean := DropTombstones(Tables(ssts[next := Partial], [b, a]));
            Reaches(INITIAL, Rest([next], gen + 1, (ssts[next := Complete(clean)] - {b}) - {a}, logs,
                                  map[], next + 1, wal, acked, journal), care)
  {
    var t := Rest([b, a], gen, ssts, logs, map[], next, wal, acked, journal);
    var job := CompactJob([b, a]);
    JobToCommit(INITIAL, care, t, BeginCompact, job);
    var all := ssts[next := Complete(Product(t, job))];
    var ram := Ram(map[], [next], next + 1, wal, gen + 1);
    var at := (files: map<nat, SstFile>, pc: Pc) =>
      State(Disk(Some(ManifestRec(gen + 1, [next])), None, files, logs, {}), Up(ram, pc), acked, None, journal);
    assert [b, a][1..] == [a] && [a][1..] == [];
    Then(INITIAL, at(all, Committed(job)), care, Advance, at(all - {b}, Committed(CompactJob([a]))));
    Then(INITIAL, at(all - {b}, Committed(CompactJob([a]))), care, Advance,
         at(all - {b} - {a}, Committed(CompactJob([]))));
    Then(INITIAL, at(all - {b} - {a}, Committed(CompactJob([]))), care, Advance, at(all - {b} - {a}, Ready));
  }

  /** Two flushed tables holding the same put, compacted while segment 2 stays open. */
  lemma ToCompacted(r: Record)
    requires ClientOp(r) && r.op == PUT
    ensures Reaches(INITIAL, Rest([2], 4, map[2 := Complete(Slot(r))], map[2 := []], map[], 3, 2,
                                  Apply(map[], r), [0, 1]), Calm)
  {
    var (c, m) := (Complete(Slot(r)), Apply(map[], r));
    FirstStart(Calm);
    PutInto(Calm, [], 1, map[], map[0 := []], map[], 0, 0, map[], [], r);
    SingletonUpdates(r);
    FlushAll(Calm, [], 1, map[], map[0 := Encode(r)], Slot(r), 0, 0, m, [0]);
    SegmentUpdates(r, 0, 1);
    PutInto(Calm, [0], 2, map[0 := c], map[1 := []], map[], 1, 1, m, [0], r);
    assert [1] + [0] == [1, 0] && [0] + [1] == [0, 1] && map[0 := c][1 := c] == map[0 := c, 1 := c];
    FlushAll(Calm, [0], 2, map[0 := c], map[1 := Encode(r)], Slot(r), 1, 1, m, [0, 1]);
    SegmentUpdates(r, 1, 2);
    CompactTwo(Calm, 1, 0, 3, map[0 := c, 1 := c], map[2 := []], 2, 2, m, [0, 1]);
    CompactedTables(r);
  }

  lemma SegmentUpdates(r: Record, was: nat, next: nat)
    requires was != next
    ensures (map[was := Encode(r)] - {was})[next := []] == map[next := []]
    ensures map[next := []][next := Encode(r)] == map[next := Encode(r)]
    ensures map[][r.key := EntryOf(r)] == Slot(r) && Slot(r) != map[]
    ensures r.op == PUT ==> Apply(Apply(map[], r), r) == Apply(map[], r)
  {
    assert r.key in Slot(r);
  }

  lemma CompactedTables(r: Record)
    requires r.op == PUT
    ensures var (c, ssts) := (Complete(Slot(r)), map[0 := Complete(Slot(r)), 1 := Complete(Slot(r))]);
            && DropTombstones(Tables(ssts[2 := Partial], [1, 0])) == Slot(r)
            && (ssts[2 := c] - {1}) - {0} == map[2 := c]
  {
    var ssts := map[0 := Complete(Slot(r)), 1 := Complete(Slot(r))][2 := Partial];
    assert [1, 0][1..] == [0] && [0][1..] == [];
    assert Tables(ssts, [0]) == map[] + Slot(r) == Slot(r);
    assert Tables(ssts, [1, 0]) == Slot(r) + Slot(r) == Slot(r);
  }

  lemma ToSecondCrash(r: Record)
    requires ClientOp(r) && r.op == PUT
    ensures Reaches(INITIAL, Halted([2], 4, map[2 := Complete(Slot(r))], map[2 := Encode(r)],
                                    Apply(map[], r), [0, 1, 2]), Calm)
  {
    var (ssts, m) := (map[2 := Complete(Slot(r))], Apply(map[], r));
    ToCompacted(r);
    PutInto(Calm, [2], 4, ssts, map[2 := []], map[], 3, 2, m, [0, 1], r);
    SegmentUpdates(r, 0, 2);
    assert [0, 1] + [2] == [0, 1, 2];
    var rest := Rest([2], 4, ssts, map[2 := Encode(r)], Slot(r), 3, 2, m, [0, 1, 2]);
    Then(INITIAL, rest, Calm, Crash, Halted([2], 4, ssts, map[2 := Encode(r)], m, [0, 1, 2]));
  }

  /** Next session, after a crash at rest with the put logged since the compaction. */
  lemma ToOverwritten(r: Record, q: Record)
    requires ClientOp(r) && ClientOp(q) && r.key == q.key && r.op == PUT
    ensures Reaches(INITIAL, Rest([3, 2], 5, map[2 := Complete(Slot(r)), 3 := Complete(Slot(q))],
                                  map[2 := Encode(r), 4 := []], map[], 4, 4, Apply(Live(Slot(r)), q),
                                  [0, 1, 2, 3]), Calm)
  {
    var (ssts, m) := (map[2 := Complete(Slot(r))], Apply(map[], r));
    ToSecondCrash(r);
    ReplayOne(2, r);
    NextOfCons(2, []);
    assert [2] + [] == [2];
    Restart(INITIAL, Calm, [2], 4, ssts, map[2 := Encode(r)], m, [0, 1, 2]);
    ReopenUpdates(r, q);
    PutInto(Calm, [2], 4, ssts, map[2 := Encode(r), 3 := []], Slot(r), 3, 3, Live(Slot(r)), [0, 1, 2], q);
    FlushAll(Calm, [2], 4, ssts, map[2 := Encode(r), 3 := Encode(q)], Slot(q), 3, 3, Apply(Live(Slot(r)), q),
             [0, 1, 2, 3]);
  }

  lemma ReopenUpdates(r: Record, q: Record)
    requires r.key == q.key
    ensures ActiveId(map[2 := Encode(r)], 3) == 3
    ensures WithSegment(map[2 := Encode(r)], 3) == map[2 := Encode(r), 3 := []]
    ensures Tables(map[2 := Complete(Slot(r))], [2]) + Slot(r) == Slot(r)
    ensures map[2 := Encode(r), 3 := []][3 := Encode(q)] == map[2 := Encode(r), 3 := Encode(q)]
    ensures (map[2 := Encode(r), 3 := Encode(q)] - {3})[4 := []] == map[2 := Encode(r), 4 := []]
    ensures Slot(r)[q.key := EntryOf(q)] == Slot(q) && Slot(q) != map[]
    ensures map[2 := Complete(Slot(r))][3 := Complete(Slot(q))] == map[2 := Complete(Slot(r)), 3 := Complete(Slot(q))]
    ensures [0, 1, 2] + [3] == [0, 1, 2, 3] && [3] + [2] == [3, 2]
  {
    assert q.key in Slot(q);
    assert [2][1..] == [];
  }

  /** No crash has to fall inside anything. Compact, put, crash at rest; restart, overwrite the
      key, flush, crash at rest: the segment left open by the compaction holds the old value,
      and recovery replays it over the new one. */
  lemma StaleAfterCompaction(k: Bytes, v: Bytes, w: Bytes) returns (t: State)
    requires |k| < U32_LIMIT && |v| < U32_LIMIT && |w| < U32_LIMIT && v != w
    ensures Reaches(INITIAL, t, Calm) && t.proc.Down? && t.pending == None
    ensures k in t.acked && t.acked[k] == w
    ensures k in RecView(t.disk) && RecView(t.disk)[k] == v
  {
    var r, q := Record(PUT, k, v), Record(PUT, k, w);
    ToOverwritten(r, q);
    var rest := Rest([3, 2], 5, map[2 := Complete(Slot(r)), 3 := Complete(Slot(q))], map[2 := Encode(r), 4 := []],
                     map[], 4, 4, Apply(Live(Slot(r)), q), [0, 1, 2, 3]);
    t := rest.(proc := Down);
    Then(INITIAL, rest, Calm, Crash, t);
    ReplayOne(2, r);
    var logs := map[2 := Encode(r)];
    ReplayNewSegment(logs, 4);
    assert logs[4 := []] == map[2 := Encode(r), 4 := []];
  }

  // ── a torn tail swallows the next write ───────────────────────────────────

  lemma TornThenWhole(x: uint8)
    ensures Parse([PUT] + Encode(Record(PUT, [x], []))) == []
  {
    var b: Bytes := [PUT] + Encode(Record(PUT, [x], []));
    LESmall(1, 4);
    assert |b| == 11 && b[1] == 0 && b[2] == 1 && b[3] == 0 && b[4] == 0;
    assert U32At(b, 1) == 256;
    assert StrAt(b, 1) == None;
  }

  /** One byte of a record reaches the log before a crash; the next session appends behind
      it, and the write it acknowledges is not replayed. */
  lemma TornTail(x: uint8) returns (t: State)
    ensures Reaches(INITIAL, t, Careless) && IsAt(t, Ready) && t.pending == None
    ensures [x] in t.acked && [x] !in RecView(t.disk)
  {
    var r := Record(PUT, [x], []);
    FirstStart(Careless);
    var s1 := STARTED.(pending := Some(r), proc := Up(STARTED.proc.ram, Appending([], 0)));
    Then(INITIAL, STARTED, Careless, BeginOp(r), s1);
    assert Encode(r)[0..1] == [PUT];
    var torn := map[0 := [PUT]];
    var s2 := s1.(disk := s1.disk.(logs := torn), journal := [0], proc := Up(STARTED.proc.ram, Appending([], 1)));
    var none: Bytes := [];
    assert none + [PUT] == [PUT];
    assert STARTED.disk.logs[0 := none + [PUT]] == torn;
    Then(INITIAL, s1, Careless, WriteBytes(1), s2);
    t := Reopened(s2, torn, r, x);
  }

  lemma Reopened(s2: State, torn: map<nat, Bytes>, r: Record, x: uint8) returns (t: State)
    requires Reaches(INITIAL, s2, Careless) && torn == map[0 := [PUT]] && r == Record(PUT, [x], [])
    requires s2 == State(Disk(Some(ManifestRec(1, [])), None, map[], torn, {}),
                         Up(Ram(map[], [], 0, 0, 1), Appending([], 1)), map[], Some(r), [0])
    ensures Reaches(INITIAL, t, Careless) && IsAt(t, Ready) && t.pending == None
    ensures [x] in t.acked && [x] !in RecView(t.disk)
  {
    Then(INITIAL, s2, Careless, Crash, s2.(proc := Down));
    assert Parse([PUT]) == [];
    ReplaySilent(torn);
    RestartPending(s2.(proc := Down), torn);
    var a := Rest([], 1, map[], torn, map[], 0, 0, map[], [0]);
    Write(INITIAL, Careless, a, r);
    var log := [PUT] + Encode(r);
    t := a.(disk := a.disk.(logs := map[0 := log]), proc := Up(a.proc.ram.(mem := map[r.key := EntryOf(r)]), Ready),
            acked := map[[x] := []], journal := [0, 0]);
    assert torn[0 := log] == map[0 := log] && [0] + [0] == [0, 0];
    assert map[][r.key := EntryOf(r)] == map[r.key := EntryOf(r)];
    TornThenWhole(x);
    ReplaySilent(map[0 := log]);
  }

  lemma RestartPending(h: State, torn: map<nat, Bytes>)
    requires Reaches(INITIAL, h, Careless) && ReplayAll(torn) == map[] && 0 in torn && torn.Keys == {0}
    requires h.proc == Down && h.disk == Disk(Some(ManifestRec(1, [])), None, map[], torn, {}) && h.journal == [0]
    ensures Reaches(INITIAL, Rest([], 1, map[], torn, map[], 0, 0, map[], [0]), Careless)
  {
    var up := (ram: Ram, pc: Pc) => h.(proc := Up(ram, pc));
    var ram := FRESH_RAM.(gen := 1);
    Then(INITIAL, h, Careless, Boot, up(FRESH_RAM, RemovingTmp));
    Then(INITIAL, up(FRESH_RAM, RemovingTmp), Careless, Advance, up(FRESH_RAM, RemovingSealed));
    Then(INITIAL, up(FRESH_RAM, RemovingSealed), Careless, Advance, up(FRESH_RAM, LoadingManifest));
    Then(INITIAL, up(FRESH_RAM, LoadingManifest), Careless, Advance, up(ram, RemovingOrphans));
    Then(INITIAL, up(ram, RemovingOrphans), Careless, Advance, up(ram, ReplayingLogs));
    assert Live(Tables(map[], []) + map[]) == map[];
    assert ActiveId(torn, 0) == 0;
    Then(INITIAL, up(ram, ReplayingLogs), Careless, Advance, Rest([], 1, map[], torn, map[], 0, 0, map[], [0]));
  }
}
