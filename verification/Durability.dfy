/** What clients may rely on: the live answers, what a recovery rebuilds, and exactly when
    the two agree across crashes. */
module Durability {
  import opened Base
  import opened Wal
  import opened Layers
  import opened Machine
  import opened Safety

  // ── specification ─────────────────────────────────────────────────────────

  /** The acknowledged map with the pending operation carried out. */
  ghost function Goal(s: State): View {
    if s.pending.Some? then Apply(s.acked, s.pending.value) else s.acked
  }

  ghost predicate Serving(s: State) {
    s.proc.Up? && !Recovering(s.proc.pc)
  }

  /** A running engine answers from the acknowledged map, plus the pending operation once it
      has reached the MemTable. */
  ghost predicate LiveOk(s: State) {
    Serving(s) ==> LiveView(s) == if s.proc.pc.Appending? then s.acked else Goal(s)
  }

  /** What recovery would rebuild: while serving, exactly what is logged so far; with the
      process down or restarting, the acknowledged map with or without the pending operation. */
  ghost predicate RecOk(s: State) {
    RecIs(s, RecView(s.disk))
  }

  ghost predicate RecIs(s: State, rec: View) {
    if !Serving(s) then rec == s.acked || rec == Goal(s)
    else if s.proc.pc.Appending? && s.pending.Some? && s.proc.pc.written < |Encode(s.pending.value)| then rec == s.acked
    else rec == Goal(s)
  }

  ghost predicate OnBoundary(s: State) {
    s.proc.Up? && s.proc.pc.Appending? ==> EndsOnRecord(s.proc.pc.before)
  }

  ghost predicate IsSeal(s: State, l: Label) {
    l.Advance? && IsAt(s, Committed(FlushJob))
  }

  /** Every key still held by an older segment was last logged there as it now reads. */
  ghost predicate SealSafe(s: State)
    requires s.proc.Up?
  {
    var rest := ReplayAll(s.disk.logs - {s.proc.ram.wal});
    forall k :: k in rest ==> Look(Live(rest), k) == Look(LiveView(s), k)
  }

  ghost predicate NotTorn(s: State, l: Label) {
    l.BeginOp? && s.proc.Up? && s.proc.ram.wal in s.disk.logs ==> EndsOnRecord(s.disk.logs[s.proc.ram.wal])
  }

  // ── live answers, unconditionally ─────────────────────────────────────────

  lemma StartBuildTables(s: State, l: Label)
    requires Inv(s) && Enabled(s, l) && (l.BeginFlush? || l.BeginCompact?)
    ensures Tables(Next(s, l).disk.ssts, Ids(s.disk)) == Tables(s.disk.ssts, Ids(s.disk))
  {
    forall id | id in Ids(s.disk) ensures id != s.proc.ram.next { BelowNext(Ids(s.disk), id); }
    TablesFrame(Next(s, l).disk.ssts, s.disk.ssts, Ids(s.disk));
  }

  lemma BuiltTables(ssts: map<nat, SstFile>, ids: seq<nat>, id: nat, e: Entries)
    requires forall i :: i in ids ==> i != id
    ensures Tables(ssts[id := Complete(e)], ids) == Tables(ssts, ids)
    ensures Tables(ssts[id := Complete(e)], [id] + ids) == Tables(ssts, ids) + e
    ensures Tables(ssts[id := Complete(e)], [id]) == e
  {
    TablesFrame(ssts[id := Complete(e)], ssts, ids);
    assert ([id] + ids)[1..] == ids && [id][1..] == [];
    assert map[] + e == e;
  }

  lemma BuildTables(s: State)
    requires Inv(s) && Enabled(s, Advance) && s.proc.pc.Building?
    ensures var t := Next(s, Advance);
            var base := Tables(s.disk.ssts, Ids(s.disk));
            && Tables(t.disk.ssts, Ids(s.disk)) == base
            && Tables(t.disk.ssts, t.proc.ram.ssts) ==
                 (if s.proc.pc.job.FlushJob? then base + s.proc.ram.mem else DropTombstones(base))
  {
    var (ids, id) := (Ids(s.disk), s.proc.ram.next - 1);
    BuiltDisk(s);
    forall i | i in ids ensures i != id { BelowNext(ids, i); }
    BuiltTables(s.disk.ssts, ids, id, JobEntries(s.disk.ssts, s.proc.ram, s.proc.pc.job));
  }

  lemma BuiltDisk(s: State)
    requires Inv(s) && Enabled(s, Advance) && s.proc.pc.Building?
    ensures var (t, id, job) := (Next(s, Advance), s.proc.ram.next - 1, s.proc.pc.job);
            && t.disk.ssts == s.disk.ssts[id := Complete(JobEntries(s.disk.ssts, s.proc.ram, job))]
            && t.proc.ram.ssts == NewList(job, Ids(s.disk), id)
  {
  }

  lemma VictimTables(s: State)
    requires Inv(s) && Enabled(s, Advance) && s.proc.pc.Committed?
    ensures Tables(Next(s, Advance).disk.ssts, Ids(s.disk)) == Tables(s.disk.ssts, Ids(s.disk))
  {
    if s.proc.pc.job.CompactJob? && s.proc.pc.job.victims != [] {
      assert s.proc.pc.job.victims[0] in s.proc.pc.job.victims;
      TablesFrame(Next(s, Advance).disk.ssts, s.disk.ssts, Ids(s.disk));
    }
  }

  /** After a flush the newest table already holds the MemTable. */
  lemma FlushedTables(d: Disk, ram: Ram)
    requires Synced(d, ram) && FlushedOk(d, ram)
    ensures Tables(d.ssts, ram.ssts) + ram.mem == Tables(d.ssts, ram.ssts)
  {
  }

  lemma LiveThroughWrite(s: State, l: Label)
    requires Inv(s) && LiveOk(s) && Enabled(s, l)
    requires l.BeginOp? || l.WriteBytes? || l.Ack? || (l.Advance? && s.proc.pc.Appending?)
    ensures LiveOk(Next(s, l))
  {
    if l.Advance? {
      var r := s.pending.value;
      OverlayWrite(Tables(s.disk.ssts, s.proc.ram.ssts), s.proc.ram.mem, r.key, EntryOf(r));
      LiveWrite(Tables(s.disk.ssts, s.proc.ram.ssts) + s.proc.ram.mem, r);
    }
  }

  lemma BuiltView(base: Entries, mem: Entries)
    ensures (base + mem) + mem == base + mem
    ensures Live(DropTombstones(base) + map[]) == Live(base + map[])
  {
    assert DropTombstones(base) + map[] == DropTombstones(base) && base + map[] == base;
    assert Live(DropTombstones(base)) == Live(base);
  }

  lemma LiveThroughBuild(s: State)
    requires Inv(s) && LiveOk(s) && Enabled(s, Advance) && s.proc.pc.Building?
    ensures LiveOk(Next(s, Advance))
  {
    BuildTables(s);
    BuiltView(Tables(s.disk.ssts, Ids(s.disk)), s.proc.ram.mem);
  }

  lemma LiveThroughStart(s: State, l: Label)
    requires Inv(s) && LiveOk(s) && Enabled(s, l) && (l.BeginFlush? || l.BeginCompact?)
    ensures LiveOk(Next(s, l))
  {
    StartBuildTables(s, l);
  }

  lemma LiveThroughJob(s: State)
    requires Inv(s) && LiveOk(s) && Enabled(s, Advance)
    requires s.proc.pc.Installed? || s.proc.pc.TmpHalf? || s.proc.pc.TmpFull? || s.proc.pc.Committed? ||
             s.proc.pc.Opened?
    ensures LiveOk(Next(s, Advance))
  {
    if s.proc.pc.Committed? { VictimTables(s); }
  }

  lemma LiveThroughOpen(s: State)
    requires Inv(s) && LiveOk(s) && Enabled(s, Advance) && s.proc.pc.Sealed?
    ensures LiveOk(Next(s, Advance))
  {
    FlushedTables(s.disk, s.proc.ram);
    var base := Tables(s.disk.ssts, s.proc.ram.ssts);
    assert base + map[] == base;
  }

  lemma RestartStaysDown(s: State, l: Label)
    requires Enabled(s, l) && !Serving(s) && !(l.Advance? && s.proc.pc.ReplayingLogs?)
    requires Inv(s)
    ensures var t := Next(s, l); !Serving(t) && t.acked == s.acked && t.pending == s.pending
  {
  }

  lemma LiveThroughRestart(s: State, l: Label)
    requires Inv(s) && Enabled(s, l) && !Serving(s)
    ensures LiveOk(Next(s, l))
  {
    if l.Advance? && s.proc.pc.ReplayingLogs? {
    } else {
      RestartStaysDown(s, l);
    }
  }

  lemma LiveThroughAdvance(s: State)
    requires Inv(s) && LiveOk(s) && Enabled(s, Advance) && Serving(s)
    ensures LiveOk(Next(s, Advance))
  {
    match s.proc.pc
    case Appending(before, written) => LiveThroughWrite(s, Advance);
    case Building(job) => LiveThroughBuild(s);
    case Installed(job) => LiveThroughJob(s);
    case TmpHalf(job) => LiveThroughJob(s);
    case TmpFull(job) => LiveThroughJob(s);
    case Committed(job) => LiveThroughJob(s);
    case Sealed(seg) => LiveThroughOpen(s);
    case Opened(seg) => LiveThroughJob(s);
  }

  lemma StepKeepsLive(s: State, l: Label)
    requires Inv(s) && LiveOk(s) && Enabled(s, l)
    ensures LiveOk(Next(s, l))
  {
    if !Serving(s) {
      LiveThroughRestart(s, l);
    } else {
      match l
      case Crash =>
      case BeginOp(r) => LiveThroughWrite(s, l);
      case WriteBytes(n) => LiveThroughWrite(s, l);
      case Ack => LiveThroughWrite(s, l);
      case BeginFlush => LiveThroughStart(s, l);
      case BeginCompact => LiveThroughStart(s, l);
      case Advance => LiveThroughAdvance(s);
    }
  }

  // ── what a recovery would rebuild ─────────────────────────────────────────

  /** Part of a record is invisible to replay, the whole record is one more write. */
  lemma ReplayPartial(logs: map<nat, Bytes>, wal: nat, before: Bytes, r: Record, v: nat, w: nat)
    requires EndsOnRecord(before) && Fits(r) && v < w <= |Encode(r)|
    requires wal in logs && LogsUpTo(logs, wal) && logs[wal] == before + Encode(r)[..v]
    ensures var log := before + Encode(r)[..w];
            ReplayAll(logs[wal := log]) ==
            if w < |Encode(r)| then ReplayAll(logs) else ReplayAll(logs)[r.key := EntryOf(r)]
  {
    var log := before + Encode(r)[..w];
    AppendToBoundary(before, r, v);
    AppendToBoundary(before, r, w);
    if w < |Encode(r)| {
      ReplayTop(logs, wal);
      ReplayTopChanged(logs, wal, log);
    } else {
      ReplayWrite(logs, wal, log, r);
    }
  }

  /** The view after `n` more bytes: unchanged until the record is whole. */
  lemma RecAfterWrite(s: State, n: nat)
    requires Inv(s) && OnBoundary(s) && Enabled(s, WriteBytes(n))
    ensures var (t, r) := (Next(s, WriteBytes(n)), s.pending.value);
            RecView(t.disk) ==
            if t.proc.pc.written < |Encode(r)| then RecView(s.disk) else Apply(RecView(s.disk), r)
  {
    var (d, wal, r, pc) := (s.disk, s.proc.ram.wal, s.pending.value, s.proc.pc);
    var w := pc.written + n;
    PrefixGrows(pc.before, Encode(r), pc.written, w);
    assert Next(s, WriteBytes(n)).disk == d.(logs := d.logs[wal := pc.before + Encode(r)[..w]]);
    WriteViews(d, wal, pc.before, r, pc.written, w);
  }

  lemma WriteViews(d: Disk, wal: nat, before: Bytes, r: Record, v: nat, w: nat)
    requires EndsOnRecord(before) && Fits(r) && v < w <= |Encode(r)|
    requires wal in d.logs && LogsUpTo(d.logs, wal) && d.logs[wal] == before + Encode(r)[..v]
    ensures RecView(d.(logs := d.logs[wal := before + Encode(r)[..w]])) ==
            if w < |Encode(r)| then RecView(d) else Apply(RecView(d), r)
  {
    ReplayPartial(d.logs, wal, before, r, v, w);
    var base := Tables(d.ssts, Ids(d));
    OverlayWrite(base, ReplayAll(d.logs), r.key, EntryOf(r));
    LiveWrite(base + ReplayAll(d.logs), r);
  }

  lemma RecThroughWrite(s: State, n: nat)
    requires Inv(s) && RecOk(s) && OnBoundary(s) && Enabled(s, WriteBytes(n))
    ensures RecOk(Next(s, WriteBytes(n)))
  {
    RecAfterWrite(s, n);
  }

  /** While the recovered and the live answers agree, the MANIFEST rename of a flush changes
      neither, log replay included; the other renames never do. */
  lemma RecThroughCommit(s: State)
    requires Inv(s) && Enabled(s, Advance) && s.proc.pc.TmpFull?
    requires IsAt(s, TmpFull(FlushJob)) ==> RecView(s.disk) == LiveView(s)
    ensures RecView(Next(s, Advance).disk) == RecView(s.disk)
  {
    var job := s.proc.pc.job;
    if !job.FirstJob? {
      CommittedView(s);
      var (base, r) := (Tables(s.disk.ssts, Ids(s.disk)), ReplayAll(s.disk.logs));
      if job.FlushJob? {
        BuiltView(base, s.proc.ram.mem);
        OverlayAfterFlush(base, s.proc.ram.mem, r);
      } else {
        MergeViews(base, r);
      }
    }
  }

  /** What recovery rebuilds behind the rename: the log over the new list. */
  lemma CommittedView(s: State)
    requires Inv(s) && Enabled(s, Advance) && s.proc.pc.TmpFull? && !s.proc.pc.job.FirstJob?
    ensures var (base, mem) := (Tables(s.disk.ssts, Ids(s.disk)), s.proc.ram.mem);
            var list := if s.proc.pc.job.FlushJob? then base + mem else DropTombstones(base);
            && Tables(s.disk.ssts, s.proc.ram.ssts) == list
            && RecView(Next(s, Advance).disk) == Live(list + ReplayAll(s.disk.logs))
  {
    var (d, ram, job) := (s.disk, s.proc.ram, s.proc.pc.job);
    RenamedDisk(s);
    assert ram.ssts == NewList(job, Ids(d), ram.next - 1);
    assert Contents(d.ssts, ram.next - 1) == JobEntries(d.ssts, ram.(ssts := Ids(d)), job);
    CommitTables(d.ssts, Ids(d), ram.next - 1);
  }

  lemma RenamedDisk(s: State)
    requires Inv(s) && Enabled(s, Advance) && s.proc.pc.TmpFull?
    ensures Next(s, Advance).disk ==
            s.disk.(manifest := Some(ManifestRec(s.proc.ram.gen, s.proc.ram.ssts)), tmp := None)
  {
  }

  /** Exactly when a flush's rename changes nothing recovery rebuilds: every MemTable key the
      logs do not replay already reads that way. Behind a torn tail it may not. */
  lemma CommitExact(s: State)
    requires Inv(s) && IsAt(s, TmpFull(FlushJob)) && Enabled(s, Advance)
    ensures var (base, mem) := (Tables(s.disk.ssts, Ids(s.disk)), s.proc.ram.mem);
            RecView(Next(s, Advance).disk) == RecView(s.disk) <==>
            forall k :: k in mem && k !in ReplayAll(s.disk.logs) ==> Look(Live(mem), k) == Look(Live(base), k)
  {
    CommittedView(s);
    UnderlayInvisible(Tables(s.disk.ssts, Ids(s.disk)), s.proc.ram.mem, ReplayAll(s.disk.logs));
  }

  lemma MergeViews(base: Entries, r: Entries)
    ensures Live(DropTombstones(base) + r) == Live(base + r)
  {
    assert Live(DropTombstones(base)) == Live(base);
    LiveOverlay(DropTombstones(base), base, r);
  }

  lemma CommitTables(ssts: map<nat, SstFile>, ids: seq<nat>, id: nat)
    ensures Tables(ssts, [id] + ids) == Tables(ssts, ids) + Contents(ssts, id)
    ensures Tables(ssts, [id]) == Contents(ssts, id)
  {
    assert ([id] + ids)[1..] == ids && [id][1..] == [];
    assert map[] + Contents(ssts, id) == Contents(ssts, id);
  }

  /** Sealing the open segment keeps recovery right exactly when the seal is safe. */
  lemma SealExact(s: State)
    requires Inv(s) && LiveOk(s) && IsSeal(s, Advance)
    ensures RecOk(Next(s, Advance)) <==> SealSafe(s)
  {
    var rest := ReplayAll(s.disk.logs - {s.proc.ram.wal});
    var base := Tables(s.disk.ssts, Ids(s.disk));
    FlushedTables(s.disk, s.proc.ram);
    assert LiveView(s) == Live(base) == Goal(s);
    SealViews(s, base, rest);
    OverlayInvisible(base, rest);
  }

  lemma SealViews(s: State, base: Entries, rest: Entries)
    requires Inv(s) && IsSeal(s, Advance)
    requires rest == ReplayAll(s.disk.logs - {s.proc.ram.wal}) && base == Tables(s.disk.ssts, Ids(s.disk))
    ensures RecView(Next(s, Advance).disk) == Live(base + rest)
    ensures RecOk(Next(s, Advance)) <==> Live(base + rest) == Goal(s)
  {
    var t := Next(s, Advance);
    assert t.disk.ssts == s.disk.ssts && Ids(t.disk) == Ids(s.disk);
    assert t.disk.logs == s.disk.logs - {s.proc.ram.wal};
    assert Goal(t) == Goal(s) && IsAt(t, Sealed(s.proc.ram.wal));
  }

  /** Some value that does not read as the client's answer for the key of `SmallPut`. */
  function Unseen(m: View): (v: uint8)
    ensures v > 1 && Look(m, [0]) != Some([v])
  {
    if Look(m, [0]) == Some([2]) then 3 else 2
  }

  /** Over any tables: every client operation appended to a log reads back as itself exactly
      when the log ends on a record boundary. Behind any torn tail some put is lost. */
  lemma AppendShowsIffBoundary(base: Entries, log: Bytes)
    ensures EndsOnRecord(log) <==>
            forall r :: ClientOp(r) ==>
              Live(base + Replayed(Parse(log + Encode(r)))) == Apply(Live(base + Replayed(Parse(log))), r)
  {
    var rs := Parse(log);
    var view := Live(base + Replayed(rs));
    if EndsOnRecord(log) {
      forall r | ClientOp(r) ensures Live(base + Replayed(Parse(log + Encode(r)))) == Apply(view, r) {
        AppendToBoundary(log, r, |Encode(r)|);
        assert Encode(r)[..|Encode(r)|] == Encode(r);
        ReplayedSnoc(rs, r);
        OverlayWrite(base, Replayed(rs), r.key, EntryOf(r));
        LiveWrite(base + Replayed(rs), r);
      }
    } else {
      BoundaryIffNoTail(log);
      var v := Unseen(view);
      var r := SmallPut(v);
      TornTailSwallows(log, v);
      if Live(base + Replayed(Parse(log + Encode(r)))) == Apply(view, r) {
        ShownBefore(base, rs, Parse(Tail(log) + Encode(r)), r);
      }
      assert ClientOp(r);
    }
  }

  /** The newest segment is replayed last, over everything else. */
  lemma RecOfNewest(d: Disk, wal: nat, log: Bytes)
    requires LogsUpTo(d.logs, wal)
    ensures RecView(d.(logs := d.logs[wal := log])) ==
            Live((Tables(d.ssts, Ids(d)) + ReplayAll(d.logs - {wal})) + Replayed(Parse(log)))
  {
    var (tables, rest, last) := (Tables(d.ssts, Ids(d)), ReplayAll(d.logs - {wal}), Replayed(Parse(log)));
    ReplayTopChanged(d.logs, wal, log);
    OverlayAssoc(tables, rest, last);
    var e := d.(logs := d.logs[wal := log]);
    assert Ids(e) == Ids(d) && ReplayAll(e.logs) == rest + last;
  }

  /** The same of a disk: on its newest segment every client operation survives a crash right
      after its last byte exactly when the segment ends on a record boundary. */
  lemma AppendSafeIffBoundary(d: Disk, wal: nat)
    requires wal in d.logs && LogsUpTo(d.logs, wal)
    ensures EndsOnRecord(d.logs[wal]) <==>
            forall r :: ClientOp(r) ==>
              RecView(d.(logs := d.logs[wal := d.logs[wal] + Encode(r)])) == Apply(RecView(d), r)
  {
    var log := d.logs[wal];
    var base := Tables(d.ssts, Ids(d)) + ReplayAll(d.logs - {wal});
    AppendShowsIffBoundary(base, log);
    RecOfNewest(d, wal, log);
    assert d.(logs := d.logs[wal := log]) == d;
    forall r | ClientOp(r)
      ensures RecView(d.(logs := d.logs[wal := log + Encode(r)])) == Live(base + Replayed(Parse(log + Encode(r))))
    {
      RecOfNewest(d, wal, log + Encode(r));
    }
  }

  /** The record logged and not yet applied. */
  ghost function Logged(s: State, r: Record): State
    requires Inv(s) && IsAt(s, Ready) && s.pending == None && ClientOp(r)
  {
    Next(Next(s, BeginOp(r)), WriteBytes(|Encode(r)|))
  }

  /** Which segments may be appended to: recovery stays right for every operation exactly
      when the open one ends on a record boundary. */
  lemma AppendExact(s: State)
    requires Inv(s) && RecOk(s) && IsAt(s, Ready) && s.pending == None
    ensures s.proc.ram.wal in s.disk.logs
    ensures EndsOnRecord(s.disk.logs[s.proc.ram.wal]) <==> forall r :: ClientOp(r) ==> RecOk(Logged(s, r))
  {
    AppendSafeIffBoundary(s.disk, s.proc.ram.wal);
    forall r | ClientOp(r)
      ensures RecOk(Logged(s, r)) <==>
              RecView(s.disk.(logs := s.disk.logs[s.proc.ram.wal := s.disk.logs[s.proc.ram.wal] + Encode(r)])) ==
              Apply(RecView(s.disk), r)
    {
      LoggedViews(s, r);
    }
  }

  lemma LoggedState(s: State, r: Record)
    requires Inv(s) && IsAt(s, Ready) && s.pending == None && ClientOp(r)
    ensures var (d, wal, t) := (s.disk, s.proc.ram.wal, Logged(s, r));
            && t.disk == d.(logs := d.logs[wal := d.logs[wal] + Encode(r)])
            && IsAt(t, Appending(d.logs[wal], |Encode(r)|)) && t.acked == s.acked && t.pending == Some(r)
  {
    assert Encode(r)[0..|Encode(r)|] == Encode(r);
  }

  lemma LoggedViews(s: State, r: Record)
    requires Inv(s) && RecOk(s) && IsAt(s, Ready) && s.pending == None && ClientOp(r)
    ensures var (d, wal) := (s.disk, s.proc.ram.wal);
            && Logged(s, r).disk == d.(logs := d.logs[wal := d.logs[wal] + Encode(r)])
            && (RecOk(Logged(s, r)) <==> RecView(Logged(s, r).disk) == Apply(RecView(d), r))
  {
    LoggedState(s, r);
    LoggedIsRight(s, Logged(s, r), r);
  }

  lemma LoggedIsRight(s: State, t: State, r: Record)
    requires RecOk(s) && IsAt(s, Ready) && s.pending == None
    requires t.proc.Up? && t.proc.pc.Appending? && t.proc.pc.written == |Encode(r)|
    requires t.acked == s.acked && t.pending == Some(r)
    ensures RecOk(t) <==> RecView(t.disk) == Apply(RecView(s.disk), r)
  {
  }

  lemma RecThroughNewSegment(s: State)
    requires Inv(s) && Enabled(s, Advance) && (s.proc.pc.Sealed? || s.proc.pc.ReplayingLogs?)
    ensures RecView(Next(s, Advance).disk) == RecView(s.disk)
  {
    var (logs, next) := (s.disk.logs, s.proc.ram.next);
    if s.proc.pc.ReplayingLogs? { FinishRecoveryKeeps(s); }
    if next !in logs { ReplayNewSegment(logs, next); }
  }

  lemma RecThroughCleanup(s: State, id: nat)
    requires Inv(s) && Enabled(s, RemoveOrphan(id))
    ensures RecView(Next(s, RemoveOrphan(id)).disk) == RecView(s.disk)
  {
    TablesFrame(Next(s, RemoveOrphan(id)).disk.ssts, s.disk.ssts, Ids(s.disk));
  }

  lemma RecThroughStart(s: State, l: Label)
    requires Inv(s) && Enabled(s, l) && (l.BeginFlush? || l.BeginCompact?)
    ensures RecView(Next(s, l).disk) == RecView(s.disk)
  {
    StartBuildTables(s, l);
  }

  lemma RecThroughBuild(s: State)
    requires Inv(s) && Enabled(s, Advance) && s.proc.pc.Building?
    ensures RecView(Next(s, Advance).disk) == RecView(s.disk)
  {
    BuildTables(s);
  }

  lemma RecThroughVictim(s: State)
    requires Inv(s) && Enabled(s, Advance) && s.proc.pc.Committed? && !s.proc.pc.job.FlushJob?
    ensures RecView(Next(s, Advance).disk) == RecView(s.disk)
  {
    VictimTables(s);
    var t := Next(s, Advance);
    assert t.disk.logs == s.disk.logs && Ids(t.disk) == Ids(s.disk);
  }

  /** Every step but a log write and a seal leaves the recovered view untouched, a flush's
      MANIFEST rename provided that view is the live one. */
  lemma RecUntouched(s: State, l: Label)
    requires Inv(s) && Enabled(s, l) && !l.WriteBytes? && !IsSeal(s, l)
    requires IsAt(s, TmpFull(FlushJob)) ==> RecView(s.disk) == LiveView(s)
    ensures RecView(Next(s, l).disk) == RecView(s.disk)
  {
    match l
    case Crash =>
    case Boot =>
    case RemoveSealed(id) =>
    case RemoveOrphan(id) => RecThroughCleanup(s, id);
    case BeginOp(r) =>
    case Ack =>
    case BeginFlush => RecThroughStart(s, l);
    case BeginCompact => RecThroughStart(s, l);
    case Advance => RecUntouchedAdvance(s);
  }

  lemma RecThroughJob(s: State)
    requires Inv(s) && Enabled(s, Advance) && !IsSeal(s, Advance)
    requires s.proc.pc.Building? || s.proc.pc.TmpFull? || s.proc.pc.Committed?
    requires IsAt(s, TmpFull(FlushJob)) ==> RecView(s.disk) == LiveView(s)
    ensures RecView(Next(s, Advance).disk) == RecView(s.disk)
  {
    match s.proc.pc
    case Building(job) => RecThroughBuild(s);
    case TmpFull(job) => RecThroughCommit(s);
    case Committed(job) => RecThroughVictim(s);
  }

  /** Steps that touch neither MANIFEST, nor tables, nor segments. */
  lemma RecThroughQuiet(s: State)
    requires Inv(s) && Enabled(s, Advance)
    requires s.proc.pc.RemovingTmp? || s.proc.pc.RemovingSealed? || s.proc.pc.LoadingManifest? ||
             s.proc.pc.RemovingOrphans? || s.proc.pc.Appending? || s.proc.pc.Installed? || s.proc.pc.TmpHalf? ||
             s.proc.pc.Opened?
    ensures RecView(Next(s, Advance).disk) == RecView(s.disk)
  {
  }

  lemma RecUntouchedAdvance(s: State)
    requires Inv(s) && Enabled(s, Advance) && !IsSeal(s, Advance)
    requires IsAt(s, TmpFull(FlushJob)) ==> RecView(s.disk) == LiveView(s)
    ensures RecView(Next(s, Advance).disk) == RecView(s.disk)
  {
    var pc := s.proc.pc;
    if pc.Building? || pc.TmpFull? || pc.Committed? {
      RecThroughJob(s);
    } else if pc.ReplayingLogs? || pc.Sealed? {
      RecThroughNewSegment(s);
    } else {
      RecThroughQuiet(s);
    }
  }

  lemma StepKeepsRec(s: State, l: Label)
    requires Inv(s) && LiveOk(s) && RecOk(s) && OnBoundary(s) && Enabled(s, l)
    requires NotTorn(s, l) && (IsSeal(s, l) ==> SealSafe(s))
    ensures RecOk(Next(s, l)) && OnBoundary(Next(s, l))
  {
    if l.WriteBytes? {
      RecThroughWrite(s, l.n);
    } else if IsSeal(s, l) {
      SealExact(s);
    } else {
      RecUntouched(s, l);
      QuietKeepsRec(s, l, RecView(s.disk));
    }
  }

  lemma QuietKeepsRec(s: State, l: Label, rec: View)
    requires Inv(s) && RecIs(s, rec) && OnBoundary(s) && Enabled(s, l)
    requires NotTorn(s, l) && !l.WriteBytes? && !IsSeal(s, l) && rec == RecView(s.disk)
    ensures RecIs(Next(s, l), rec) && OnBoundary(Next(s, l))
  {
    match l
    case Crash =>
    case Boot =>
    case RemoveSealed(id) =>
    case RemoveOrphan(id) =>
    case BeginOp(r) =>
    case Ack =>
    case BeginFlush =>
    case BeginCompact =>
    case Advance => QuietAdvance(s, rec);
  }

  lemma QuietRestart(s: State, rec: View)
    requires Inv(s) && RecIs(s, rec) && Enabled(s, Advance) && !Serving(s) && rec == RecView(s.disk)
    ensures RecIs(Next(s, Advance), rec) && OnBoundary(Next(s, Advance))
  {
    if s.proc.pc.ReplayingLogs? {
    } else {
      RestartStaysDown(s, Advance);
    }
  }

  lemma QuietServing(s: State, rec: View)
    requires Inv(s) && RecIs(s, rec) && Enabled(s, Advance) && Serving(s)
    ensures RecIs(Next(s, Advance), rec) && OnBoundary(Next(s, Advance))
  {
  }

  lemma QuietAdvance(s: State, rec: View)
    requires Inv(s) && RecIs(s, rec) && Enabled(s, Advance)
    requires !IsSeal(s, Advance) && rec == RecView(s.disk)
    ensures RecIs(Next(s, Advance), rec) && OnBoundary(Next(s, Advance))
  {
    if Serving(s) {
      QuietServing(s, rec);
    } else {
      QuietRestart(s, rec);
    }
  }
}
