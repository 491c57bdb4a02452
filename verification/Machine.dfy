/** The engine of `src/db.cpp` as a machine whose every step is one disk effect, so that a
    crash can fall between any two of them. */
module Machine {
  import opened Base
  import opened Wal
  import opened Layers

  // ── state ─────────────────────────────────────────────────────────────────

  /** An `.sst` file: cut short by a crash, or all of what the writer meant. */
  datatype SstFile = Partial | Complete(entries: Entries)

  /** Live table ids, newest first, under a generation number. */
  datatype ManifestRec = ManifestRec(gen: nat, ids: seq<nat>)

  datatype TmpFile = HalfWritten | Written(rec: ManifestRec)

  datatype Disk = Disk(manifest: Option<ManifestRec>, tmp: Option<TmpFile>,
                       ssts: map<nat, SstFile>, logs: map<nat, Bytes>, done: set<nat>)

  datatype Ram = Ram(mem: Entries, ssts: seq<nat>, next: nat, wal: nat, gen: nat)

  /** Why the MANIFEST is being rewritten; a compaction remembers the tables it replaces. */
  datatype Job = FirstJob | FlushJob | CompactJob(victims: seq<nat>)

  /** Where the running process stands. */
  datatype Pc =
    | RemovingTmp
    | RemovingSealed
    | LoadingManifest
    | RemovingOrphans
    | ReplayingLogs
    | Ready
    | Appending(before: Bytes, written: nat)
    | Building(job: Job)
    | Installed(job: Job)
    | TmpHalf(job: Job)
    | TmpFull(job: Job)
    | Committed(job: Job)
    | Sealed(seg: nat)
    | Opened(seg: nat)

  datatype Proc = Down | Up(ram: Ram, pc: Pc)

  /** `acked` is the client's map of acknowledged operations, `pending` the one operation
      not yet acknowledged, `journal` the segment each log write went to, in time order. */
  datatype State = State(disk: Disk, proc: Proc, acked: View, pending: Option<Record>, journal: seq<nat>)

  datatype Label =
    | Crash
    | Boot
    | RemoveSealed(id: nat)
    | RemoveOrphan(id: nat)
    | BeginOp(r: Record)
    | WriteBytes(n: nat)
    | BeginFlush
    | BeginCompact
    | Ack
    | Advance

  const EMPTY_DISK := Disk(None, None, map[], map[], {})
  const FRESH_RAM := Ram(map[], [], 0, 0, 0)
  const INITIAL := State(EMPTY_DISK, Down, map[], None, [])

  // ── reading the disk ──────────────────────────────────────────────────────

  function Contents(ssts: map<nat, SstFile>, id: nat): Entries {
    if id in ssts && ssts[id].Complete? then ssts[id].entries else map[]
  }

  /** The listed tables flattened, the first being the newest. */
  function Tables(ssts: map<nat, SstFile>, ids: seq<nat>): Entries {
    if ids == [] then map[] else Tables(ssts, ids[1..]) + Contents(ssts, ids[0])
  }

  function Ids(d: Disk): seq<nat> {
    if d.manifest.Some? then d.manifest.value.ids else []
  }

  /** One above every listed id: where recovery puts `next_sst_id_`. */
  function NextOf(ids: seq<nat>): (n: nat)
    ensures forall i :: 0 <= i < |ids| ==> ids[i] < n
  {
    if ids == [] then 0
    else
      var rest := NextOf(ids[1..]);
      assert forall i :: 1 <= i < |ids| ==> ids[i] == ids[1..][i - 1];
      if ids[0] + 1 > rest then ids[0] + 1 else rest
  }

  function IdSet(ids: seq<nat>): set<nat> {
    set i | i in ids
  }

  ghost function LiveView(s: State): View
    requires s.proc.Up?
  {
    Live(Tables(s.disk.ssts, s.proc.ram.ssts) + s.proc.ram.mem)
  }

  /** The view a recovery from this disk would rebuild. */
  ghost function RecView(d: Disk): View {
    Live(Tables(d.ssts, Ids(d)) + ReplayAll(d.logs))
  }

  // ── steps ─────────────────────────────────────────────────────────────────

  predicate ClientOp(r: Record) {
    Fits(r) && (r.op == PUT || (r.op == DEL && r.value == []))
  }

  ghost function At(s: State, d: Disk, ram: Ram, pc: Pc): State {
    s.(disk := d, proc := Up(ram, pc))
  }

  ghost predicate IsAt(s: State, pc: Pc) {
    s.proc.Up? && s.proc.pc == pc
  }

  ghost predicate Enabled(s: State, l: Label) {
    match l
    case Crash => s.proc.Up?
    case Boot => s.proc.Down?
    case RemoveSealed(id) => IsAt(s, RemovingSealed) && id in s.disk.done
    case RemoveOrphan(id) => IsAt(s, RemovingOrphans) && id in s.disk.ssts && id !in s.proc.ram.ssts
    case BeginOp(r) => IsAt(s, Ready) && s.pending == None && ClientOp(r) && s.proc.ram.wal in s.disk.logs
    case WriteBytes(n) => s.proc.Up? && s.proc.pc.Appending? && s.pending.Some? && n > 0 &&
                          s.proc.pc.written + n <= |Encode(s.pending.value)| && s.proc.ram.wal in s.disk.logs
    case BeginFlush => IsAt(s, Ready) && s.proc.ram.mem != map[]
    case BeginCompact => IsAt(s, Ready) && s.proc.ram.mem == map[] && |s.proc.ram.ssts| >= 2
    case Ack => IsAt(s, Ready) && s.pending.Some?
    case Advance => s.proc.Up? && CanAdvance(s)
  }

  ghost predicate CanAdvance(s: State)
    requires s.proc.Up?
  {
    var (d, ram) := (s.disk, s.proc.ram);
    match s.proc.pc
    case RemovingTmp => true
    case RemovingSealed => d.done == {}
    case LoadingManifest => d.manifest.Some? || d.ssts == map[]
    case RemovingOrphans => d.ssts.Keys <= IdSet(ram.ssts)
    case ReplayingLogs => true
    case Ready => false
    case Appending(before, written) => s.pending.Some? && written == |Encode(s.pending.value)|
    case Building(job) => ram.next > 0 && !job.FirstJob?
    case Installed(job) => true
    case TmpHalf(job) => true
    case TmpFull(job) => d.tmp.Some? && d.tmp.value.Written?
    case Committed(job) => true
    case Sealed(seg) => true
    case Opened(seg) => true
  }

  ghost function Next(s: State, l: Label): State
    requires Enabled(s, l)
  {
    var (d, ram) := (s.disk, if s.proc.Up? then s.proc.ram else FRESH_RAM);
    match l
    case Crash => s.(proc := Down)
    case Boot => At(s, d, FRESH_RAM, RemovingTmp)
    case RemoveSealed(id) => At(s, d.(done := d.done - {id}), ram, RemovingSealed)
    case RemoveOrphan(id) => At(s, d.(ssts := d.ssts - {id}), ram, RemovingOrphans)
    case BeginOp(r) => At(s.(pending := Some(r)), d, ram, Appending(d.logs[ram.wal], 0))
    case WriteBytes(n) => DoWrite(s, n)
    case BeginFlush => StartBuild(s, FlushJob)
    case BeginCompact => StartBuild(s, CompactJob(ram.ssts))
    case Ack => s.(acked := Apply(s.acked, s.pending.value), pending := None)
    case Advance => DoAdvance(s)
  }

  /** `n` more bytes of the record reach the segment. */
  ghost function DoWrite(s: State, n: nat): State
    requires Enabled(s, WriteBytes(n))
  {
    var (d, ram, pc) := (s.disk, s.proc.ram, s.proc.pc);
    var chunk := Encode(s.pending.value)[pc.written..pc.written + n];
    At(s.(journal := s.journal + [ram.wal]), d.(logs := d.logs[ram.wal := d.logs[ram.wal] + chunk]),
       ram, pc.(written := pc.written + n))
  }

  /** A fresh id is taken and its file created, still incomplete. */
  ghost function StartBuild(s: State, job: Job): State
    requires s.proc.Up?
  {
    var (d, ram) := (s.disk, s.proc.ram);
    At(s, d.(ssts := d.ssts[ram.next := Partial]), ram.(next := ram.next + 1), Building(job))
  }

  function JobEntries(ssts: map<nat, SstFile>, ram: Ram, job: Job): Entries {
    if job.FlushJob? then ram.mem else DropTombstones(Tables(ssts, ram.ssts))
  }

  function NewList(job: Job, ids: seq<nat>, id: nat): seq<nat> {
    if job.FlushJob? then [id] + ids else [id]
  }

  ghost function DoAdvance(s: State): State
    requires s.proc.Up? && CanAdvance(s)
  {
    var (d, ram) := (s.disk, s.proc.ram);
    match s.proc.pc
    case RemovingTmp => At(s, d.(tmp := None), ram, RemovingSealed)
    case RemovingSealed => At(s, d, ram, LoadingManifest)
    case LoadingManifest =>
      if d.manifest.Some? then
        At(s, d, ram.(ssts := Ids(d), next := NextOf(Ids(d)), gen := d.manifest.value.gen), RemovingOrphans)
      else At(s, d, ram, Installed(FirstJob))
    case RemovingOrphans => At(s, d, ram, ReplayingLogs)
    case ReplayingLogs => FinishRecovery(s)
    case Appending(before, written) =>
      At(s, d, ram.(mem := ram.mem[s.pending.value.key := EntryOf(s.pending.value)]), Ready)
    case Building(job) =>
      At(s, d.(ssts := d.ssts[ram.next - 1 := Complete(JobEntries(d.ssts, ram, job))]),
         ram.(ssts := NewList(job, ram.ssts, ram.next - 1)), Installed(job))
    case Installed(job) => At(s, d.(tmp := Some(HalfWritten)), ram.(gen := ram.gen + 1), TmpHalf(job))
    case TmpHalf(job) => At(s, d.(tmp := Some(Written(ManifestRec(ram.gen, ram.ssts)))), ram, TmpFull(job))
    case TmpFull(job) => At(s, d.(manifest := Some(d.tmp.value.rec), tmp := None), ram, Committed(job))
    case Committed(job) => AfterCommit(s, job)
    case Sealed(seg) => OpenLog(s, seg)
    case Opened(seg) => At(s, d.(done := d.done - {seg}), ram, Ready)
  }

  ghost function AfterCommit(s: State, job: Job): State
    requires s.proc.Up?
  {
    var (d, ram) := (s.disk, s.proc.ram);
    match job
    case FirstJob => At(s, d, ram, RemovingOrphans)
    case FlushJob => At(s, d.(logs := d.logs - {ram.wal}, done := d.done + {ram.wal}), ram, Sealed(ram.wal))
    case CompactJob(victims) =>
      if victims == [] then At(s, d, ram, Ready)
      else At(s, d.(ssts := d.ssts - {victims[0]}), ram, Committed(CompactJob(victims[1..])))
  }

  function WithSegment(logs: map<nat, Bytes>, id: nat): map<nat, Bytes> {
    if id in logs then logs else logs[id := []]
  }

  /** The next segment is opened and the MemTable cleared. */
  ghost function OpenLog(s: State, seg: nat): State
    requires s.proc.Up?
  {
    var (d, ram) := (s.disk, s.proc.ram);
    At(s, d.(logs := WithSegment(d.logs, ram.next)), ram.(wal := ram.next, mem := map[]), Opened(seg))
  }

  ghost function ActiveId(logs: map<nat, Bytes>, next: nat): nat {
    if logs == map[] || Top(logs.Keys) < next then next else Top(logs.Keys)
  }

  /** Replay and reopen; what the client may rely on from here is the recovered view. */
  ghost function FinishRecovery(s: State): State
    requires s.proc.Up?
  {
    var (d, ram) := (s.disk, s.proc.ram);
    var wal := ActiveId(d.logs, ram.next);
    var mem := ReplayAll(d.logs);
    At(s.(acked := Live(Tables(d.ssts, ram.ssts) + mem), pending := None),
       d.(logs := WithSegment(d.logs, wal)), ram.(mem := mem, wal := wal), Ready)
  }

  // ── runs ──────────────────────────────────────────────────────────────────

  /** `ss` lists the states passed through from `first` under the labels `ls`. */
  ghost predicate IsRun(first: State, ss: seq<State>, ls: seq<Label>) {
    && |ss| == |ls| + 1 && ss[0] == first
    && forall i :: 0 <= i < |ls| ==> IsStep(ss[i], ls[i], ss[i + 1])
  }

  ghost predicate IsStep(s: State, l: Label, t: State) {
    Enabled(s, l) && t == Next(s, l)
  }

  ghost predicate Recovering(pc: Pc) {
    || pc.RemovingTmp? || pc.RemovingSealed? || pc.LoadingManifest? || pc.RemovingOrphans?
    || pc.ReplayingLogs? || (pc.Installed? && pc.job.FirstJob?) || (pc.TmpHalf? && pc.job.FirstJob?)
    || (pc.TmpFull? && pc.job.FirstJob?) || (pc.Committed? && pc.job.FirstJob?)
  }
}
