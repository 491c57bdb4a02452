/** What holds of disk and process in every state any run of the engine can reach, whatever
    crashes and restarts it went through. */
module Safety {
  import opened Base
  import opened Wal
  import opened Layers
  import opened Machine

  // ── the invariant ─────────────────────────────────────────────────────────

  ghost predicate Distinct(ids: seq<nat>) {
    forall i, j :: 0 <= i < j < |ids| ==> ids[i] != ids[j]
  }

  ghost predicate ListOk(ssts: map<nat, SstFile>, ids: seq<nat>) {
    Distinct(ids) && forall id :: id in ids ==> id in ssts && ssts[id].Complete?
  }

  ghost predicate LogsUpTo(logs: map<nat, Bytes>, n: nat) {
    forall id :: id in logs ==> id <= n
  }

  /** The MANIFEST names complete, distinct tables; no segment id exceeds the next table id.
      Before the first MANIFEST there is nothing at all. */
  ghost predicate DiskOk(d: Disk) {
    if d.manifest.None? then d.ssts == map[] && d.logs == map[] && d.done == {}
    else ListOk(d.ssts, Ids(d)) && LogsUpTo(d.logs, NextOf(Ids(d)))
  }

  /** RAM mirrors the MANIFEST and `next_sst_id_` is one above every live id. */
  ghost predicate Synced(d: Disk, ram: Ram) {
    && d.manifest.Some? && ram.ssts == Ids(d) && ram.gen == d.manifest.value.gen
    && ram.next == NextOf(Ids(d))
  }

  /** The open segment exists and is the newest. */
  ghost predicate Active(d: Disk, ram: Ram) {
    ram.wal in d.logs && LogsUpTo(d.logs, ram.wal) && ram.wal <= NextOf(Ids(d))
  }

  /** A job other than the first start holds a table id above every live one. */
  ghost predicate JobOk(d: Disk, ram: Ram, job: Job) {
    && d.manifest.Some? && !job.FirstJob? && Active(d, ram)
    && ram.next == NextOf(Ids(d)) + 1 && d.ssts.Keys == IdSet(Ids(d)) + {ram.next - 1}
    && (job.CompactJob? ==> job.victims == Ids(d) && ram.mem == map[])
    && (job.FlushJob? ==> ram.mem != map[])
  }

  /** The job's table is complete and heads the in-memory list. */
  ghost predicate BuiltOk(d: Disk, ram: Ram, job: Job, gen: nat) {
    if job.FirstJob? then d.manifest.None? && ram == FRESH_RAM.(gen := gen)
    else
      && JobOk(d, ram, job) && ram.ssts == NewList(job, Ids(d), ram.next - 1)
      && ram.gen == d.manifest.value.gen + gen
      && d.ssts[ram.next - 1] == Complete(JobEntries(d.ssts, ram.(ssts := Ids(d)), job))
  }

  ghost predicate CommittedOk(d: Disk, ram: Ram, job: Job) {
    && Synced(d, ram)
    && match job
       case FirstJob => ram.mem == map[] && d.ssts == map[]
       case FlushJob => FlushedOk(d, ram) && Active(d, ram)
       case CompactJob(victims) =>
         && Active(d, ram) && ram.mem == map[] && d.ssts.Keys == IdSet(Ids(d)) + IdSet(victims)
         && Distinct(victims) && forall id :: id in victims ==> id !in Ids(d)
  }

  /** The newest live table holds exactly the MemTable, which was not empty. */
  ghost predicate FlushedOk(d: Disk, ram: Ram) {
    && Ids(d) != [] && ram.mem != map[] && Contents(d.ssts, Ids(d)[0]) == ram.mem
    && d.ssts.Keys == IdSet(Ids(d)) && ram.wal < NextOf(Ids(d))
  }

  ghost predicate AppendOk(d: Disk, ram: Ram, pending: Option<Record>, before: Bytes, written: nat) {
    && pending.Some? && ClientOp(pending.value) && written <= |Encode(pending.value)|
    && ram.wal in d.logs && d.logs[ram.wal] == before + Encode(pending.value)[..written]
  }

  ghost predicate PcOk(d: Disk, ram: Ram, pc: Pc, pending: Option<Record>) {
    match pc
    case RemovingTmp => ram == FRESH_RAM
    case RemovingSealed => ram == FRESH_RAM
    case LoadingManifest => ram == FRESH_RAM
    case RemovingOrphans => Synced(d, ram) && ram.mem == map[]
    case ReplayingLogs => Synced(d, ram) && ram.mem == map[] && d.ssts.Keys == IdSet(Ids(d))
    case Ready => Synced(d, ram) && Active(d, ram) && d.ssts.Keys == IdSet(Ids(d))
    case Appending(before, written) =>
      Synced(d, ram) && Active(d, ram) && d.ssts.Keys == IdSet(Ids(d)) && AppendOk(d, ram, pending, before, written)
    case Building(job) => JobOk(d, ram, job) && ram.ssts == Ids(d) && ram.gen == d.manifest.value.gen
    case Installed(job) => BuiltOk(d, ram, job, 0)
    case TmpHalf(job) => BuiltOk(d, ram, job, 1)
    case TmpFull(job) => BuiltOk(d, ram, job, 1) && d.tmp == Some(Written(ManifestRec(ram.gen, ram.ssts)))
    case Committed(job) => CommittedOk(d, ram, job)
    case Sealed(seg) =>
      && Synced(d, ram) && FlushedOk(d, ram) && seg == ram.wal
      && LogsUpTo(d.logs, ram.wal) && ram.wal !in d.logs
    case Opened(seg) =>
      && Synced(d, ram) && Active(d, ram) && d.ssts.Keys == IdSet(Ids(d))
      && ram.mem == map[] && d.logs[ram.wal] == [] && ram.wal == ram.next
  }

  /** Segment ids bound the segments written so far: the open one while running, the one
      recovery will open otherwise. */
  ghost function SegmentBound(s: State): nat {
    if s.proc.Up? && !Recovering(s.proc.pc) then s.proc.ram.wal else NextOf(Ids(s.disk))
  }

  /** Log writes went to segments in ascending order of id. */
  ghost predicate JournalOk(journal: seq<nat>, bound: nat) {
    && (forall i, j :: 0 <= i < j < |journal| ==> journal[i] <= journal[j])
    && (forall i :: 0 <= i < |journal| ==> journal[i] <= bound)
  }

  /** When there can be a MANIFEST.tmp and a sealed segment: at the start of recovery, while
      the MANIFEST is rewritten, and between sealing a segment and deleting it. */
  ghost predicate TidyOk(d: Disk, pc: Pc) {
    && (!pc.RemovingTmp? && !pc.TmpHalf? && !pc.TmpFull? ==> d.tmp == None)
    && match pc
       case RemovingTmp => true
       case RemovingSealed => true
       case Sealed(seg) => d.done == {seg}
       case Opened(seg) => d.done == {seg}
       case _ => d.done == {}
  }

  ghost predicate Inv(s: State) {
    && DiskOk(s.disk)
    && (s.proc.Up? ==> TidyOk(s.disk, s.proc.pc))
    && (s.proc.Up? ==> PcOk(s.disk, s.proc.ram, s.proc.pc, s.pending))
    && JournalOk(s.journal, SegmentBound(s))
  }

  // ── helpers ───────────────────────────────────────────────────────────────

  lemma NextOfCons(id: nat, ids: seq<nat>)
    ensures NextOf([id] + ids) == if id + 1 > NextOf(ids) then id + 1 else NextOf(ids)
    ensures NextOf([id]) == id + 1
  {
    assert ([id] + ids)[1..] == ids;
    assert [id][1..] == [];
  }

  /** It is the least such number: one above some listed id, 0 when there is none. */
  lemma {:induction false} NextIsLeast(ids: seq<nat>)
    ensures if ids == [] then NextOf(ids) == 0 else NextOf(ids) > 0 && NextOf(ids) - 1 in ids
  {
    if ids == [] {
    } else {
      NextIsLeast(ids[1..]);
      assert ids[0] in ids && forall i :: i in ids[1..] ==> i in ids;
    }
  }

  lemma BelowNext(ids: seq<nat>, id: nat)
    requires id in ids
    ensures id < NextOf(ids)
  {
  }

  /** Files outside the list do not matter to the flattened tables. */
  lemma {:induction false} TablesFrame(a: map<nat, SstFile>, b: map<nat, SstFile>, ids: seq<nat>)
    requires forall id :: id in ids ==> Contents(a, id) == Contents(b, id)
    ensures Tables(a, ids) == Tables(b, ids)
  {
    if ids == [] {
    } else {
      assert ids[0] in ids;
      forall id | id in ids[1..] ensures Contents(a, id) == Contents(b, id) { assert id in ids; }
      TablesFrame(a, b, ids[1..]);
    }
  }

  // ── every step keeps it ───────────────────────────────────────────────────

  lemma BootstrapKeeps(s: State, l: Label)
    requires Inv(s) && Enabled(s, l)
    requires l.Crash? || l.Boot? || l.Ack?
    ensures Inv(Next(s, l))
  {
  }

  lemma CleanupKeeps(s: State, l: Label)
    requires Inv(s) && Enabled(s, l) && (l.RemoveSealed? || l.RemoveOrphan?)
    ensures Inv(Next(s, l))
  {
  }

  lemma BeginOpKeeps(s: State, r: Record)
    requires Inv(s) && Enabled(s, BeginOp(r))
    ensures Inv(Next(s, BeginOp(r)))
  {
    var b := s.disk.logs[s.proc.ram.wal];
    assert b + Encode(r)[..0] == b;
  }

  lemma PrefixGrows(before: Bytes, e: Bytes, v: nat, w: nat)
    requires v <= w <= |e|
    ensures (before + e[..v]) + e[v..w] == before + e[..w]
  {
    assert e[..v] + e[v..w] == e[..w];
    Assoc(before, e[..v], e[v..w]);
  }

  lemma WriteKeeps(s: State, n: nat)
    requires Inv(s) && Enabled(s, WriteBytes(n))
    ensures Inv(Next(s, WriteBytes(n)))
  {
    PrefixGrows(s.proc.pc.before, Encode(s.pending.value), s.proc.pc.written, s.proc.pc.written + n);
    JournalSnoc(s.journal, s.proc.ram.wal);
  }

  lemma JournalSnoc(journal: seq<nat>, id: nat)
    requires JournalOk(journal, id)
    ensures JournalOk(journal + [id], id)
  {
  }

  lemma BeginJobKeeps(s: State, l: Label)
    requires Inv(s) && Enabled(s, l) && (l.BeginFlush? || l.BeginCompact?)
    ensures Inv(Next(s, l))
  {
    var ids := Ids(s.disk);
    assert s.proc.ram.next !in ids;
  }

  lemma RecoveryKeeps(s: State)
    requires Inv(s) && Enabled(s, Advance)
    requires s.proc.pc.RemovingTmp? || s.proc.pc.RemovingSealed? || s.proc.pc.LoadingManifest? ||
             s.proc.pc.RemovingOrphans?
    ensures Inv(Next(s, Advance))
  {
    if s.proc.pc.RemovingOrphans? {
      assert s.disk.ssts.Keys == IdSet(Ids(s.disk));
    }
  }

  /** Recovery always reopens, or creates, the segment numbered `next_sst_id_`. */
  lemma FinishRecoveryKeeps(s: State)
    requires Inv(s) && IsAt(s, ReplayingLogs)
    ensures Enabled(s, Advance) && Inv(Next(s, Advance))
    ensures Next(s, Advance).proc.ram.wal == s.proc.ram.next
  {
    assert ActiveId(s.disk.logs, s.proc.ram.next) == s.proc.ram.next;
  }

  lemma ApplyKeeps(s: State)
    requires Inv(s) && Enabled(s, Advance) && s.proc.pc.Appending?
    ensures Inv(Next(s, Advance))
  {
  }

  lemma BuiltFits(d: Disk, ram: Ram, job: Job, d': Disk, ram': Ram)
    requires DiskOk(d) && JobOk(d, ram, job) && ram.ssts == Ids(d) && ram.gen == d.manifest.value.gen
    requires d' == d.(ssts := d.ssts[ram.next - 1 := Complete(JobEntries(d.ssts, ram, job))])
    requires ram' == ram.(ssts := NewList(job, ram.ssts, ram.next - 1))
    ensures DiskOk(d') && BuiltOk(d', ram', job, 0)
  {
    forall id | id in Ids(d) ensures id != ram.next - 1 { BelowNext(Ids(d), id); }
    TablesFrame(d.ssts, d'.ssts, Ids(d));
    assert ram'.(ssts := Ids(d)) == ram;
  }

  lemma BuildKeeps(s: State)
    requires Inv(s) && Enabled(s, Advance) && s.proc.pc.Building?
    ensures Inv(Next(s, Advance))
  {
    var t := Next(s, Advance);
    BuiltFits(s.disk, s.proc.ram, s.proc.pc.job, t.disk, t.proc.ram);
  }

  lemma BuiltOkTmp(d: Disk, ram: Ram, job: Job, d': Disk, ram': Ram, gen: nat)
    requires BuiltOk(d, ram, job, gen) && gen <= 1
    requires d' == d.(tmp := d'.tmp) && ram' == ram.(gen := ram'.gen) && ram.gen <= ram'.gen
    ensures BuiltOk(d', ram', job, gen + (ram'.gen - ram.gen))
  {
    assert !job.FirstJob? ==> ram'.(ssts := Ids(d)) == ram.(ssts := Ids(d), gen := ram'.gen);
  }

  lemma TmpKeeps(s: State)
    requires Inv(s) && Enabled(s, Advance) && (s.proc.pc.Installed? || s.proc.pc.TmpHalf?)
    ensures Inv(Next(s, Advance))
  {
    var t := Next(s, Advance);
    BuiltOkTmp(s.disk, s.proc.ram, s.proc.pc.job, t.disk, t.proc.ram, if s.proc.pc.Installed? then 0 else 1);
  }

  /** Listing a table whose id is above all others. */
  lemma NewListOk(ssts: map<nat, SstFile>, ids: seq<nat>, job: Job)
    requires ListOk(ssts, ids) && NextOf(ids) in ssts && ssts[NextOf(ids)].Complete?
    ensures var t := NewList(job, ids, NextOf(ids));
            ListOk(ssts, t) && NextOf(t) == NextOf(ids) + 1
    ensures IdSet([NextOf(ids)] + ids) == IdSet(ids) + {NextOf(ids)}
    ensures IdSet([NextOf(ids)]) + IdSet(ids) == IdSet(ids) + {NextOf(ids)}
    ensures NextOf(ids) !in ids
  {
    NextOfCons(NextOf(ids), ids);
    if NextOf(ids) in ids { BelowNext(ids, NextOf(ids)); }
  }

  lemma CommitFirstKeeps(s: State)
    requires Inv(s) && IsAt(s, TmpFull(FirstJob))
    ensures Enabled(s, Advance) && Inv(Next(s, Advance))
  {
  }

  lemma CommitJobKeeps(s: State)
    requires Inv(s) && s.proc.Up? && s.proc.pc.TmpFull? && !s.proc.pc.job.FirstJob?
    ensures Enabled(s, Advance) && DiskOk(Next(s, Advance).disk)
    ensures CommittedOk(Next(s, Advance).disk, s.proc.ram, s.proc.pc.job)
  {
    NewListOk(s.disk.ssts, Ids(s.disk), s.proc.pc.job);
  }

  lemma CommitKeeps(s: State)
    requires Inv(s) && s.proc.Up? && s.proc.pc.TmpFull?
    ensures Enabled(s, Advance) && Inv(Next(s, Advance))
  {
    if s.proc.pc.job.FirstJob? {
      CommitFirstKeeps(s);
    } else {
      CommitJobKeeps(s);
    }
  }

  lemma VictimGone(ids: seq<nat>, victims: seq<nat>)
    requires victims != [] && Distinct(victims) && forall id :: id in victims ==> id !in ids
    ensures (IdSet(ids) + IdSet(victims)) - {victims[0]} == IdSet(ids) + IdSet(victims[1..])
    ensures Distinct(victims[1..]) && forall id :: id in victims[1..] ==> id !in ids
    ensures victims[0] !in ids
  {
    var v, rest := victims[0], victims[1..];
    assert v in victims && v !in rest;
    assert forall id :: id in victims <==> id == v || id in rest;
  }

  lemma VictimKeeps(s: State, victims: seq<nat>)
    requires Inv(s) && IsAt(s, Committed(CompactJob(victims))) && Enabled(s, Advance)
    ensures Inv(Next(s, Advance))
  {
    if victims != [] {
      VictimGone(Ids(s.disk), victims);
    } else {
      assert IdSet(Ids(s.disk)) + IdSet(victims) == IdSet(Ids(s.disk));
    }
  }

  lemma AfterCommitKeeps(s: State)
    requires Inv(s) && Enabled(s, Advance) && s.proc.pc.Committed?
    ensures Inv(Next(s, Advance))
  {
    match s.proc.pc.job
    case FirstJob =>
    case FlushJob =>
    case CompactJob(victims) => VictimKeeps(s, victims);
  }

  /** A flush opens a segment strictly above every existing one. */
  lemma OpenKeeps(s: State)
    requires Inv(s) && Enabled(s, Advance) && (s.proc.pc.Sealed? || s.proc.pc.Opened?)
    ensures Inv(Next(s, Advance))
    ensures s.proc.pc.Sealed? ==> forall id :: id in s.disk.logs ==> id < Next(s, Advance).proc.ram.wal
  {
  }

  lemma AdvanceKeepsInv(s: State)
    requires Inv(s) && Enabled(s, Advance)
    ensures Inv(Next(s, Advance))
  {
    match s.proc.pc
    case RemovingTmp => RecoveryKeeps(s);
    case RemovingSealed => RecoveryKeeps(s);
    case LoadingManifest => RecoveryKeeps(s);
    case RemovingOrphans => RecoveryKeeps(s);
    case ReplayingLogs => FinishRecoveryKeeps(s);
    case Appending(before, written) => ApplyKeeps(s);
    case Building(job) => BuildKeeps(s);
    case Installed(job) => TmpKeeps(s);
    case TmpHalf(job) => TmpKeeps(s);
    case TmpFull(job) => CommitKeeps(s);
    case Committed(job) => AfterCommitKeeps(s);
    case Sealed(seg) => OpenKeeps(s);
    case Opened(seg) => OpenKeeps(s);
  }

  lemma StepKeepsInv(s: State, l: Label)
    requires Inv(s) && Enabled(s, l)
    ensures Inv(Next(s, l))
  {
    match l
    case Crash => BootstrapKeeps(s, l);
    case Boot => BootstrapKeeps(s, l);
    case Ack => BootstrapKeeps(s, l);
    case RemoveSealed(id) => CleanupKeeps(s, l);
    case RemoveOrphan(id) => CleanupKeeps(s, l);
    case BeginOp(r) => BeginOpKeeps(s, r);
    case WriteBytes(n) => WriteKeeps(s, n);
    case BeginFlush => BeginJobKeeps(s, l);
    case BeginCompact => BeginJobKeeps(s, l);
    case Advance => AdvanceKeepsInv(s);
  }

  // ── over whole runs ───────────────────────────────────────────────────────

  lemma {:induction false} RunKeepsInv(first: State, ss: seq<State>, ls: seq<Label>, i: nat)
    requires IsRun(first, ss, ls) && Inv(first) && i < |ss|
    ensures Inv(ss[i])
  {
    if i == 0 {
    } else {
      RunKeepsInv(first, ss, ls, i - 1);
      assert IsStep(ss[i - 1], ls[i - 1], ss[i]);
      StepKeepsInv(ss[i - 1], ls[i - 1]);
    }
  }

  /** No step truncates, rewrites or deletes a table that is live before it, and every
      committed MANIFEST has the next generation. */
  ghost predicate StepSafe(s: State, t: State) {
    && (forall id :: id in Ids(s.disk) ==>
          id in s.disk.ssts && id in t.disk.ssts && t.disk.ssts[id] == s.disk.ssts[id])
    && (t.disk.manifest != s.disk.manifest ==>
          t.disk.manifest.Some? &&
          t.disk.manifest.value.gen == 1 + if s.disk.manifest.Some? then s.disk.manifest.value.gen else 0)
  }

  lemma AdvanceIsSafe(s: State)
    requires Inv(s) && Enabled(s, Advance)
    requires forall id :: id in Ids(s.disk) ==> id < NextOf(Ids(s.disk)) && id in s.disk.ssts
    ensures StepSafe(s, Next(s, Advance))
  {
    if s.proc.pc.Committed? && s.proc.pc.job.CompactJob? && s.proc.pc.job.victims != [] {
      VictimGone(Ids(s.disk), s.proc.pc.job.victims);
    }
  }

  lemma StepIsSafe(s: State, l: Label)
    requires Inv(s) && Enabled(s, l)
    ensures StepSafe(s, Next(s, l))
  {
    forall id | id in Ids(s.disk) ensures id < NextOf(Ids(s.disk)) && id in s.disk.ssts { BelowNext(Ids(s.disk), id); }
    if l.Advance? { AdvanceIsSafe(s); }
  }

  /** Recovery has read the MANIFEST, or found that there is none. */
  ghost predicate Loaded(pc: Pc) {
    !pc.RemovingTmp? && !pc.RemovingSealed? && !pc.LoadingManifest?
  }

  /** From an empty directory, through any number of crashes and restarts: MANIFEST only
      names complete tables, `next_sst_id_` clears every live id once loaded, segments are
      written in ascending order, and no step harms a live table. */
  lemma DiskSafety(ss: seq<State>, ls: seq<Label>, i: nat)
    requires IsRun(INITIAL, ss, ls) && i < |ss|
    ensures forall id :: id in Ids(ss[i].disk) ==> id in ss[i].disk.ssts && ss[i].disk.ssts[id].Complete?
    ensures ss[i].proc.Up? && Loaded(ss[i].proc.pc) ==>
              forall id :: id in Ids(ss[i].disk) ==> id < ss[i].proc.ram.next
    ensures forall id :: id in ss[i].disk.logs ==> id <= NextOf(Ids(ss[i].disk))
    ensures forall a, b :: 0 <= a < b < |ss[i].journal| ==> ss[i].journal[a] <= ss[i].journal[b]
    ensures i < |ls| ==> StepSafe(ss[i], ss[i + 1])
  {
    assert Inv(INITIAL);
    RunKeepsInv(INITIAL, ss, ls, i);
    forall id | id in Ids(ss[i].disk) ensures id < NextOf(Ids(ss[i].disk)) { BelowNext(Ids(ss[i].disk), id); }
    if ss[i].proc.Up? && Loaded(ss[i].proc.pc) { NextIsAbove(ss[i]); }
    if i < |ls| {
      assert IsStep(ss[i], ls[i], ss[i + 1]);
      StepIsSafe(ss[i], ls[i]);
    }
  }

  /** Every reachable state at rest, or writing a record, is tidy: the MANIFEST says what is in
      RAM and names all the table files there are, nothing is left of its rewriting or of
      sealed segments, and the open segment is the newest. */
  lemma RestIsTidy(ss: seq<State>, ls: seq<Label>, i: nat)
    requires IsRun(INITIAL, ss, ls) && i < |ss| && ss[i].proc.Up?
    requires ss[i].proc.pc.Ready? || ss[i].proc.pc.Appending?
    ensures var (d, ram) := (ss[i].disk, ss[i].proc.ram);
            && d.manifest == Some(ManifestRec(ram.gen, ram.ssts)) && d.tmp == None && d.done == {}
            && (forall id :: id in d.ssts <==> id in ram.ssts) && (forall id :: id in d.ssts ==> d.ssts[id].Complete?)
            && ram.wal in d.logs && forall id :: id in d.logs ==> id <= ram.wal
  {
    assert Inv(INITIAL);
    RunKeepsInv(INITIAL, ss, ls, i);
    RestOf(ss[i]);
  }

  lemma RestOf(s: State)
    requires Inv(s) && s.proc.Up? && (s.proc.pc.Ready? || s.proc.pc.Appending?)
    ensures var (d, ram) := (s.disk, s.proc.ram);
            && d.manifest == Some(ManifestRec(ram.gen, ram.ssts)) && d.tmp == None && d.done == {}
            && (forall id :: id in d.ssts <==> id in ram.ssts) && (forall id :: id in d.ssts ==> d.ssts[id].Complete?)
            && ram.wal in d.logs && forall id :: id in d.logs ==> id <= ram.wal
  {
    assert forall id :: id in s.disk.ssts.Keys <==> id in IdSet(Ids(s.disk));
  }

  /** A crash can come in every state, and takes the RAM and nothing else: every byte on disk
      stays as it was. */
  lemma CrashTakesRam(s: State)
    requires s.proc.Up?
    ensures Enabled(s, Crash) && Next(s, Crash) == State(s.disk, Down, s.acked, s.pending, s.journal)
  {
  }

  lemma NextIsAbove(s: State)
    requires Inv(s) && s.proc.Up? && Loaded(s.proc.pc)
    ensures NextOf(Ids(s.disk)) <= s.proc.ram.next
  {
  }
}
