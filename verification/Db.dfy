/** The engine object of `src/db.cpp`. Every disk effect of a method is followed by the step
    of the crash machine it performs, so each method's execution is a run of that machine
    and a crash between any two effects is covered by the theorems about runs. */
module Db {
  import opened Base
  import opened Wal
  import opened Layers
  import opened Machine
  import opened Safety
  import opened Durability
  import opened Runs
  import SSTable
  import SSTableReader
  import MT = MemTable

  // ── merging ───────────────────────────────────────────────────────────────

  /** `merged[e.key] = e` over all rows of a table, in order. */
  method MergeTable(merged: Entries, table: Entries) returns (r: Entries)
    ensures r == merged + table
  {
    var rows := SSTable.Iterate(table);
    r := merged;
    for i := 0 to |rows|
      invariant r == merged + SSTableReader.MapOf(rows[..i])
    {
      assert rows[..i + 1][..i] == rows[..i];
      OverlayWrite(merged, SSTableReader.MapOf(rows[..i]), rows[i].key, rows[i].entry);
      r := r[rows[i].key := rows[i].entry];
    }
    assert rows[..|rows|] == rows;
    SSTableReader.RowsBackToMap(table);
  }

  lemma DropStep(m: Entries, k: Bytes, e: MemEntry)
    requires k !in m
    ensures DropTombstones(m[k := e]) ==
            if e.tombstone then DropTombstones(m) else DropTombstones(m)[k := MemEntry(e.value, false)]
  {
  }

  lemma NewKey(rows: seq<SSTable.Row>, i: nat)
    requires SSTable.AscendingRows(rows) && i < |rows|
    ensures rows[i].key !in SSTableReader.MapOf(rows[..i])
    ensures SSTableReader.MapOf(rows[..i + 1]) == SSTableReader.MapOf(rows[..i])[rows[i].key := rows[i].entry]
  {
    assert rows[..i + 1][..i] == rows[..i];
    SSTableReader.MapOfRows(rows[..i]);
    if SSTableReader.Holds(rows[..i], rows[i].key) {
      var p :| 0 <= p < i && rows[p].key == rows[i].key;
      LessIrreflexive(rows[i].key);
    }
  }

  /** The rows worth keeping after a full merge. */
  method DropDeleted(merged: Entries) returns (clean: Entries)
    ensures clean == DropTombstones(merged)
  {
    var rows := SSTable.Iterate(merged);
    SSTableReader.RowsBackToMap(merged);
    clean := map[];
    for i := 0 to |rows|
      invariant clean == DropTombstones(SSTableReader.MapOf(rows[..i]))
    {
      NewKey(rows, i);
      DropStep(SSTableReader.MapOf(rows[..i]), rows[i].key, rows[i].entry);
      if !rows[i].entry.tombstone {
        clean := clean[rows[i].key := MemEntry(rows[i].entry.value, false)];
      }
    }
    assert rows[..|rows|] == rows;
  }

  method Oldest(ids: set<nat>) returns (id: nat)
    requires ids != {}
    ensures id in ids && forall i :: i in ids ==> id <= i
  {
    id :| id in ids;
    var rest := ids;
    while rest != {}
      invariant id in ids && rest <= ids && forall i :: i in ids && i !in rest ==> id <= i
      decreases rest
    {
      var x :| x in rest;
      id := if x < id then x else id;
      rest := rest - {x};
    }
  }

  function Max(a: nat, b: nat): nat {
    if a < b then b else a
  }

  // ── the machine alongside ─────────────────────────────────────────────────

  lemma RunSnoc(ss: seq<State>, ls: seq<Label>, l: Label)
    requires |ss| > 0 && IsRun(ss[0], ss, ls) && Enabled(ss[|ss| - 1], l)
    ensures IsRun(ss[0], ss + [Next(ss[|ss| - 1], l)], ls + [l])
  {
    var ss', ls' := ss + [Next(ss[|ss| - 1], l)], ls + [l];
    forall i | 0 <= i < |ls'| ensures IsStep(ss'[i], ls'[i], ss'[i + 1]) {
      if i < |ls| { assert IsStep(ss[i], ls[i], ss[i + 1]); }
    }
  }

  /** A run of the crash machine, grown one step at a time. */
  class Shadow {
    ghost var st: State
    ghost var states: seq<State>
    ghost var labels: seq<Label>

    ghost predicate Ok()
      reads this
    {
      && |states| > 0 && IsRun(states[0], states, labels) && states[|states| - 1] == st
      && Good(states[0]) && forall i :: 0 <= i < |labels| ==> !labels[i].Crash?
    }

    ghost constructor (first: State)
      requires Good(first)
      ensures Ok() && st == first
    {
      st, states, labels := first, [first], [];
    }

    ghost method Do(l: Label)
      requires Ok() && Enabled(st, l) && !l.Crash?
      modifies this
      ensures Ok() && st == Next(old(st), l) && states == old(states) + [st]
    {
      RunSnoc(states, labels, l);
      st := Next(st, l);
      states := states + [st];
      labels := labels + [l];
    }

    lemma Sound()
      requires Ok()
      ensures Good(st)
    {
      RunKeepsGood(states[0], states, labels, |states| - 1);
    }

    /** Cut the process down after any effect it has had on the disk, down to single log
        bytes: recovery would rebuild the acknowledged map, with or without the operation
        then in flight, and what is left is where a next process may start. Where the crash
        hands good logs over, that process has the same guarantee. */
    lemma CrashAnywhere(i: nat)
      requires Ok() && i < |states| && RecOk(states[0]) && SessionLogs(states[0])
      ensures RecView(states[i].disk) == states[i].acked || RecView(states[i].disk) == Goal(states[i])
      ensures states[i].proc.Up? ==> Good(Next(states[i], Crash)) && RecOk(Next(states[i], Crash))
      ensures states[i].proc.Up? && HandsOver(states[i]) ==> SessionLogs(Next(states[i], Crash))
    {
      SessionRecovers(states[0], states, labels, i);
      RunKeepsGood(states[0], states, labels, i);
      if states[i].proc.Up? {
        StepKeepsInv(states[i], Crash);
        HandoverExact(states[i]);
      }
    }

    /** After a clean stop the next process starts with everything this one started with, so
        sessions chain. */
    lemma StopPassesOn()
      requires Ok() && RecOk(states[0]) && SessionLogs(states[0]) && CleanStop(st)
      ensures var down := Next(st, Crash);
              Good(down) && RecOk(down) && SessionLogs(down) && RecView(down.disk) == st.acked
    {
      CrashAnywhere(|states| - 1);
      Sound();
      SessionRecovers(states[0], states, labels, |states| - 1);
      CleanStopHandsOver(st);
    }
  }

  class DB {
    var disk: Disk
    const memtable: MT.MemTable
    var wal: Log
    var sstables: seq<nat>
    var nextSstId: nat
    var currentWalId: nat
    var manifestGen: nat
    const flushBytes: nat
    const compactionThreshold: nat

    ghost const run: Shadow

    ghost predicate Stands(pc: Pc)
      reads this, memtable, run
    {
      && run.Ok() && memtable.Valid()
      && run.st.disk == disk
      && run.st.proc == Up(Ram(memtable.data, sstables, nextSstId, currentWalId, manifestGen), pc)
    }

    ghost predicate WalOpen()
      reads this, wal
    {
      currentWalId in disk.logs && wal.file == disk.logs[currentWalId] && wal.buffered == []
    }

    /** Disk, RAM and open segment are those of a machine run that has come to rest. */
    ghost predicate Valid()
      reads this, memtable, run, wal
    {
      Stands(Ready) && WalOpen()
    }

    /** What a client reads. */
    ghost function View(): View
      reads this, memtable
    {
      Live(Tables(disk.ssts, sstables) + memtable.data)
    }

    /** The acknowledged map and the operation in flight. */
    ghost function Promise(): (View, Option<Record>)
      reads run
    {
      (run.st.acked, run.st.pending)
    }

    lemma ViewIsGoal()
      requires Stands(Ready)
      ensures View() == Goal(run.st) && Good(run.st)
    {
      run.Sound();
    }

    // ── one disk effect at a time ───────────────────────────────────────────

    /** Take an id and create its file. */
    method CreateTable(ghost job: Job, ghost l: Label)
      requires Stands(Ready) && Enabled(run.st, l)
      requires (l == BeginFlush && job == FlushJob) || (l == BeginCompact && job == CompactJob(sstables))
      modifies `disk, `nextSstId, run
      ensures Stands(Building(job)) && old(run.states) <= run.states && Promise() == old(Promise())
      ensures nextSstId == old(nextSstId) + 1
      ensures disk == old(disk).(ssts := old(disk).ssts[nextSstId - 1 := Partial])
    {
      var id := nextSstId;
      nextSstId := nextSstId + 1;
      disk := disk.(ssts := disk.ssts[id := Partial]);
      run.Do(l);
    }

    lemma BuildStep(job: Job)
      requires Stands(Building(job)) && nextSstId > 0 && !job.FirstJob?
      ensures Enabled(run.st, Advance)
      ensures var entries := if job.FlushJob? then memtable.data else DropTombstones(Tables(disk.ssts, sstables));
              var list := NewList(job, sstables, nextSstId - 1);
              Next(run.st, Advance) ==
              run.st.(disk := disk.(ssts := disk.ssts[nextSstId - 1 := Complete(entries)]),
                      proc := Up(Ram(memtable.data, list, nextSstId, currentWalId, manifestGen), Installed(job)))
    {
    }

    /** Write the whole file and put it on the list. */
    method FinishTable(ghost job: Job, entries: Entries, list: seq<nat>)
      requires Stands(Building(job)) && nextSstId > 0 && !job.FirstJob?
      requires list == NewList(job, sstables, nextSstId - 1)
      requires entries == if job.FlushJob? then memtable.data else DropTombstones(Tables(disk.ssts, sstables))
      modifies `disk, `sstables, run
      ensures Stands(Installed(job)) && old(run.states) <= run.states && Promise() == old(Promise())
      ensures sstables == list && disk == old(disk).(ssts := old(disk).ssts[nextSstId - 1 := Complete(entries)])
    {
      BuildStep(job);
      disk := disk.(ssts := disk.ssts[nextSstId - 1 := Complete(entries)]);
      sstables := list;
      run.Do(Advance);
    }

    method CreateTmp(ghost job: Job)
      requires Stands(Installed(job))
      modifies `disk, `manifestGen, run
      ensures Stands(TmpHalf(job)) && old(run.states) <= run.states && Promise() == old(Promise())
      ensures manifestGen == old(manifestGen) + 1 && disk == old(disk).(tmp := Some(HalfWritten))
    {
      manifestGen := manifestGen + 1;
      disk := disk.(tmp := Some(HalfWritten));
      run.Do(Advance);
    }

    method WriteTmp(ghost job: Job)
      requires Stands(TmpHalf(job))
      modifies `disk, run
      ensures Stands(TmpFull(job)) && old(run.states) <= run.states && Promise() == old(Promise())
      ensures disk == old(disk).(tmp := Some(Written(ManifestRec(manifestGen, sstables))))
    {
      disk := disk.(tmp := Some(Written(ManifestRec(manifestGen, sstables))));
      run.Do(Advance);
    }

    method RenameTmp(ghost job: Job)
      requires Stands(TmpFull(job)) && disk.tmp.Some? && disk.tmp.value.Written?
      modifies `disk, run
      ensures Stands(Committed(job)) && old(run.states) <= run.states && Promise() == old(Promise())
      ensures disk == old(disk).(manifest := Some(old(disk).tmp.value.rec), tmp := None)
    {
      disk := disk.(manifest := Some(disk.tmp.value.rec), tmp := None);
      run.Do(Advance);
    }

    method UpdateManifest(ghost job: Job)
      requires Stands(Installed(job))
      modifies `disk, `manifestGen, run
      ensures Stands(Committed(job)) && old(run.states) <= run.states && Promise() == old(Promise())
      ensures manifestGen == old(manifestGen) + 1
      ensures disk == old(disk).(manifest := Some(ManifestRec(manifestGen, sstables)), tmp := None)
    {
      CreateTmp(job);
      WriteTmp(job);
      RenameTmp(job);
    }

    method SealSegment()
      requires Stands(Committed(FlushJob))
      modifies `disk, run
      ensures Stands(Sealed(currentWalId)) && old(run.states) <= run.states && Promise() == old(Promise())
      ensures disk == old(disk).(logs := old(disk).logs - {currentWalId}, done := old(disk).done + {currentWalId})
    {
      disk := disk.(logs := disk.logs - {currentWalId}, done := disk.done + {currentWalId});
      run.Do(Advance);
    }

    lemma NextIsNew(pc: Pc)
      requires Stands(pc) && (pc == Committed(FlushJob) || pc.Sealed?)
      ensures nextSstId !in disk.logs && nextSstId != currentWalId
      ensures WithSegment(disk.logs, nextSstId) == disk.logs[nextSstId := []]
    {
      run.Sound();
    }

    method OpenSegment(ghost seg: nat)
      requires Stands(Sealed(seg))
      modifies `disk, `wal, `currentWalId, memtable, run
      ensures Stands(Opened(seg)) && WalOpen() && fresh(wal)
      ensures old(run.states) <= run.states && Promise() == old(Promise())
      ensures memtable.data == map[] && memtable.bytes == 0
      ensures currentWalId == nextSstId && nextSstId !in old(disk).logs
      ensures disk == old(disk).(logs := old(disk).logs[nextSstId := []])
    {
      NextIsNew(Sealed(seg));
      currentWalId := nextSstId;
      disk := disk.(logs := WithSegment(disk.logs, currentWalId));
      wal := new Log(disk.logs[currentWalId]);
      memtable.Clear();
      run.Do(Advance);
    }

    method RemoveDone(seg: nat)
      requires Stands(Opened(seg)) && WalOpen()
      modifies `disk, run
      ensures Stands(Ready) && WalOpen() && old(run.states) <= run.states && Promise() == old(Promise())
      ensures disk == old(disk).(done := old(disk).done - {seg})
    {
      disk := disk.(done := disk.done - {seg});
      run.Do(Advance);
    }

    /** The open segment is sealed and gone; a new, empty one with the next number is open. */
    method RotateSegment()
      requires Stands(Committed(FlushJob))
      modifies `disk, `wal, `currentWalId, memtable, run
      ensures Valid() && fresh(wal) && old(run.states) <= run.states && Promise() == old(Promise())
      ensures memtable.data == map[] && memtable.bytes == 0
      ensures currentWalId == nextSstId && nextSstId !in old(disk).logs && wal.file == []
      ensures disk.logs == (old(disk).logs - {old(currentWalId)})[nextSstId := []]
      ensures disk == old(disk).(logs := disk.logs, done := old(disk).done - {old(currentWalId)})
    {
      NextIsNew(Committed(FlushJob));
      var seg := currentWalId;
      SealSegment();
      OpenSegment(seg);
      RemoveDone(seg);
    }

    // ── flush ───────────────────────────────────────────────────────────────

    /** At rest there is no sealed segment left. */
    lemma RestHasNoDone()
      requires Stands(Ready)
      ensures disk.done == {} && disk.tmp == None && sstables == Ids(disk)
      ensures disk.manifest == Some(ManifestRec(manifestGen, sstables))
      ensures disk.ssts.Keys == IdSet(sstables)
    {
      run.Sound();
      RestOf(run.st);
    }

    /** A flush moves the MemTable under the tables and changes no answer. The disk it leaves
        is stated in full; with nothing to flush it does nothing. */
    method FlushMemtable()
      requires Valid()
      modifies this, memtable, run
      ensures Valid() && old(run.states) <= run.states && Promise() == old(Promise())
      ensures wal == old(wal) || fresh(wal)
      ensures View() == old(View()) && memtable.data == map[]
      ensures old(memtable.data) == map[] ==>
                disk == old(disk) && sstables == old(sstables) && nextSstId == old(nextSstId) && wal == old(wal) &&
                currentWalId == old(currentWalId) && manifestGen == old(manifestGen) &&
                memtable.bytes == old(memtable.bytes)
      ensures old(memtable.data) != map[] ==>
                sstables == [old(nextSstId)] + old(sstables) && nextSstId == old(nextSstId) + 1 &&
                currentWalId == nextSstId && manifestGen == old(manifestGen) + 1 && memtable.bytes == 0 &&
                disk == Disk(Some(ManifestRec(manifestGen, sstables)), None,
                             old(disk).ssts[old(nextSstId) := Complete(old(memtable.data))],
                             (old(disk).logs - {old(currentWalId)})[nextSstId := []], {})
    {
      if memtable.data == map[] { return; }
      ViewIsGoal();
      RestHasNoDone();
      CommitFlush();
      RotateSegment();
      ViewIsGoal();
    }

    method CommitFlush()
      requires Valid() && memtable.data != map[]
      modifies `disk, `sstables, `nextSstId, `manifestGen, run
      ensures Stands(Committed(FlushJob)) && old(run.states) <= run.states && Promise() == old(Promise())
      ensures sstables == [old(nextSstId)] + old(sstables)
      ensures nextSstId == old(nextSstId) + 1 && manifestGen == old(manifestGen) + 1
      ensures disk == old(disk).(manifest := Some(ManifestRec(manifestGen, sstables)), tmp := None,
                                 ssts := old(disk).ssts[old(nextSstId) := Complete(memtable.data)])
    {
      CreateTable(FlushJob, BeginFlush);
      FinishTable(FlushJob, memtable.data, [nextSstId - 1] + sstables);
      UpdateManifest(FlushJob);
    }

    /** The destructor: nothing is left in memory only. */
    method Close()
      requires Valid()
      modifies this, memtable, run
      ensures Valid() && old(run.states) <= run.states && Promise() == old(Promise())
      ensures View() == old(View()) == Live(Tables(disk.ssts, Ids(disk)))
      ensures run.st.pending == None ==> CleanStop(run.st)
      ensures old(memtable.data) == map[] ==> disk == old(disk)
      ensures old(memtable.data) != map[] ==>
                disk == Disk(Some(ManifestRec(old(manifestGen) + 1, [old(nextSstId)] + old(sstables))), None,
                             old(disk).ssts[old(nextSstId) := Complete(old(memtable.data))],
                             (old(disk).logs - {old(currentWalId)})[old(nextSstId) + 1 := []], {})
    {
      if memtable.data != map[] {
        FlushMemtable();
      }
      run.Sound();
      assert Tables(disk.ssts, sstables) + map[] == Tables(disk.ssts, sstables);
    }

    // ── compaction ──────────────────────────────────────────────────────────

    /** Oldest table first, so that newer rows overwrite older ones. */
    method MergeAll() returns (merged: Entries)
      ensures merged == Tables(disk.ssts, sstables)
    {
      merged := map[];
      var i := |sstables|;
      while i > 0
        invariant 0 <= i <= |sstables| && merged == Tables(disk.ssts, sstables[i..])
      {
        i := i - 1;
        assert sstables[i..][1..] == sstables[i + 1..];
        merged := MergeTable(merged, Contents(disk.ssts, sstables[i]));
      }
    }

    /** With fewer than two tables nothing happens. Otherwise the MemTable is flushed and one
        table, holding exactly the client's map, takes the place of all others. */
    method Compact()
      requires Valid()
      modifies this, memtable, run
      ensures Valid() && old(run.states) <= run.states && Promise() == old(Promise())
      ensures wal == old(wal) || fresh(wal)
      ensures View() == old(View()) && memtable.bytes <= old(memtable.bytes)
      ensures |old(sstables)| < 2 ==>
                disk == old(disk) && sstables == old(sstables) && nextSstId == old(nextSstId) && wal == old(wal) &&
                currentWalId == old(currentWalId) && manifestGen == old(manifestGen) &&
                memtable.data == old(memtable.data) && memtable.bytes == old(memtable.bytes)
      ensures |old(sstables)| >= 2 ==>
                var flushes := if old(memtable.data) == map[] then 0 else 1;
                memtable.data == map[] && nextSstId == old(nextSstId) + flushes + 1 && sstables == [nextSstId - 1] &&
                manifestGen == old(manifestGen) + flushes + 1 &&
                currentWalId == (if flushes == 0 then old(currentWalId) else old(nextSstId) + 1) &&
                disk == Disk(Some(ManifestRec(manifestGen, sstables)), None,
                             map[nextSstId - 1 := Complete(map k | k in old(View()) :: MemEntry(old(View())[k], false))],
                             if flushes == 0 then old(disk).logs
                             else (old(disk).logs - {old(currentWalId)})[old(nextSstId) + 1 := []], {})
    {
      if |sstables| < 2 { return; }
      FlushMemtable();
      var merged := MergeAll();
      var clean := DropDeleted(merged);
      DropIsLive(merged);
      assert merged + map[] == merged;
      ReplaceTables(clean);
    }

    /** Swap the whole list for one table with the same live rows. */
    method ReplaceTables(clean: Entries)
      requires Valid() && memtable.data == map[] && |sstables| >= 2
      requires clean == DropTombstones(Tables(disk.ssts, sstables))
      modifies `disk, `sstables, `nextSstId, `manifestGen, run
      ensures Valid() && old(run.states) <= run.states && Promise() == old(Promise())
      ensures View() == old(View())
      ensures sstables == [old(nextSstId)] && nextSstId == old(nextSstId) + 1 && manifestGen == old(manifestGen) + 1
      ensures disk == Disk(Some(ManifestRec(manifestGen, sstables)), None, map[old(nextSstId) := Complete(clean)],
                           old(disk).logs, {})
    {
      ViewIsGoal();
      RestHasNoDone();
      var olds := sstables;
      CommitMerge(clean);
      RemoveTables(olds);
      ViewIsGoal();
      RestHasNoDone();
      OnlyTable(disk.ssts, old(nextSstId), Complete(clean));
    }

    lemma OnlyTable(ssts: map<nat, SstFile>, id: nat, file: SstFile)
      requires ssts.Keys == IdSet([id]) && ssts[id] == file
      ensures ssts == map[id := file]
    {
      assert forall i :: i in ssts <==> i == id;
    }

    method CommitMerge(clean: Entries)
      requires Valid() && memtable.data == map[] && |sstables| >= 2
      requires clean == DropTombstones(Tables(disk.ssts, sstables))
      modifies `disk, `sstables, `nextSstId, `manifestGen, run
      ensures Stands(Committed(CompactJob(old(sstables)))) && WalOpen()
      ensures old(run.states) <= run.states && Promise() == old(Promise())
      ensures sstables == [old(nextSstId)] && nextSstId == old(nextSstId) + 1 && manifestGen == old(manifestGen) + 1
      ensures disk == old(disk).(manifest := Some(ManifestRec(manifestGen, sstables)), tmp := None,
                                 ssts := old(disk).ssts[old(nextSstId) := Complete(clean)])
    {
      ghost var job := CompactJob(sstables);
      TablesThroughCreate(BeginCompact);
      CreateTable(job, BeginCompact);
      InstallMerge(job, clean);
    }

    method InstallMerge(ghost job: Job, clean: Entries)
      requires Stands(Building(job)) && job.CompactJob? && nextSstId > 0 && WalOpen()
      requires clean == DropTombstones(Tables(disk.ssts, sstables))
      modifies `disk, `sstables, `manifestGen, run
      ensures Stands(Committed(job)) && WalOpen() && old(run.states) <= run.states && Promise() == old(Promise())
      ensures sstables == [nextSstId - 1] && manifestGen == old(manifestGen) + 1
      ensures disk == old(disk).(manifest := Some(ManifestRec(manifestGen, sstables)), tmp := None,
                                 ssts := old(disk).ssts[nextSstId - 1 := Complete(clean)])
    {
      FinishTable(job, clean, [nextSstId - 1]);
      UpdateManifest(job);
    }

    lemma TablesThroughCreate(l: Label)
      requires Stands(Ready) && Enabled(run.st, l) && (l.BeginFlush? || l.BeginCompact?)
      ensures Tables(disk.ssts[nextSstId := Partial], sstables) == Tables(disk.ssts, sstables)
    {
      run.Sound();
      StartBuildTables(run.st, l);
    }

    method RemoveTables(olds: seq<nat>)
      requires Stands(Committed(CompactJob(olds))) && WalOpen()
      modifies `disk, run
      ensures Stands(Ready) && WalOpen() && old(run.states) <= run.states && Promise() == old(Promise())
      ensures disk == old(disk).(ssts := old(disk).ssts - IdSet(olds))
    {
      assert IdSet(olds[..0]) == {} && old(disk).ssts - {} == old(disk).ssts;
      for i := 0 to |olds|
        invariant Stands(Committed(CompactJob(olds[i..]))) && WalOpen()
        invariant old(run.states) <= run.states && Promise() == old(Promise())
        invariant disk == old(disk).(ssts := old(disk).ssts - IdSet(olds[..i]))
      {
        assert olds[i..][1..] == olds[i + 1..];
        RemoveOneMore(old(disk).ssts, olds, i);
        RemoveTable(olds[i..]);
      }
      assert olds[..|olds|] == olds;
      run.Do(Advance);
    }

    lemma RemoveOneMore(ssts: map<nat, SstFile>, olds: seq<nat>, i: nat)
      requires i < |olds|
      ensures (ssts - IdSet(olds[..i])) - {olds[i]} == ssts - IdSet(olds[..i + 1])
    {
      assert forall id :: id in olds[..i + 1] <==> id in olds[..i] || id == olds[i];
    }

    method RemoveTable(olds: seq<nat>)
      requires Stands(Committed(CompactJob(olds))) && WalOpen() && olds != []
      modifies `disk, run
      ensures Stands(Committed(CompactJob(olds[1..]))) && WalOpen()
      ensures old(run.states) <= run.states && Promise() == old(Promise())
      ensures disk == old(disk).(ssts := old(disk).ssts - {olds[0]})
    {
      disk := disk.(ssts := disk.ssts - {olds[0]});
      run.Do(Advance);
    }

    /** Below the byte threshold nothing happens. At it the MemTable is flushed, and when the
        tables then reach the other threshold all become one. */
    method MaybeFlush()
      requires Valid()
      modifies this, memtable, run
      ensures Valid() && old(run.states) <= run.states && Promise() == old(Promise())
      ensures wal == old(wal) || fresh(wal)
      ensures View() == old(View())
      ensures flushBytes > 0 ==> memtable.bytes < flushBytes
      ensures compactionThreshold >= 2 && |old(sstables)| < compactionThreshold ==>
                |sstables| < compactionThreshold
      ensures old(memtable.bytes) < flushBytes ==>
                disk == old(disk) && sstables == old(sstables) && nextSstId == old(nextSstId) && wal == old(wal) &&
                currentWalId == old(currentWalId) && manifestGen == old(manifestGen) &&
                memtable.data == old(memtable.data)
      ensures old(memtable.bytes) >= flushBytes && old(memtable.data) != map[] ==>
                var tables := |old(sstables)| + 1;
                memtable.data == map[] && currentWalId == old(nextSstId) + 1 &&
                disk.logs == (old(disk).logs - {old(currentWalId)})[currentWalId := []] &&
                if tables >= 2 && tables >= compactionThreshold then
                  sstables == [old(nextSstId) + 1] && manifestGen == old(manifestGen) + 2
                else
                  sstables == [old(nextSstId)] + old(sstables) && manifestGen == old(manifestGen) + 1
    {
      if memtable.bytes >= flushBytes {
        FlushMemtable();
        if |sstables| >= compactionThreshold {
          Compact();
        }
      }
    }

    // ── client operations ───────────────────────────────────────────────────

    method LogRecord(r: Record)
      requires Valid() && run.st.pending == None && ClientOp(r)
      modifies `disk, wal, run
      ensures Stands(Appending(old(disk).logs[currentWalId], |Encode(r)|)) && WalOpen()
      ensures old(run.states) <= run.states && Promise() == (old(run.st.acked), Some(r))
      ensures disk == old(disk).(logs := old(disk).logs[currentWalId := old(disk).logs[currentWalId] + Encode(r)])
    {
      ghost var before := disk.logs[currentWalId];
      run.Do(BeginOp(r));
      wal.Append(r.op, r.key, r.value);
      assert [] + Encode(r) == Encode(r);
      SyncRecord(r, before);
    }

    /** From `start` on the run has `n` states, one for each byte that reached the segment. */
    ghost predicate ByteByByte(states: seq<State>, start: nat, before: Bytes, n: nat) {
      && |states| == start + n
      && forall i :: start <= i < start + n ==> IsAt(states[i], Appending(before, i - start + 1))
    }

    lemma OneByteMore(states: seq<State>, start: nat, before: Bytes, n: nat, s: State)
      requires ByteByByte(states, start, before, n) && IsAt(s, Appending(before, n + 1))
      ensures ByteByByte(states + [s], start, before, n + 1)
    {
    }

    /** The buffered bytes reach the disk one after the other, so the run passes through
        every byte prefix of the record. */
    method SyncRecord(ghost r: Record, ghost before: Bytes)
      requires Stands(Appending(before, 0)) && run.st.pending == Some(r) && currentWalId in disk.logs
      requires wal.file == before == disk.logs[currentWalId] && wal.buffered == Encode(r)
      modifies `disk, wal, run
      ensures Stands(Appending(before, |Encode(r)|)) && WalOpen()
      ensures old(run.states) <= run.states && Promise() == old(Promise())
      ensures disk == old(disk).(logs := old(disk).logs[currentWalId := before + Encode(r)])
      ensures ByteByByte(run.states, |old(run.states)|, before, |Encode(r)|)
    {
      var n := |wal.buffered|;
      assert before + Encode(r)[..0] == before;
      for i := 0 to n
        invariant Stands(Appending(before, i)) && wal.buffered == Encode(r) && wal.file == before
        invariant old(run.states) <= run.states && Promise() == old(Promise())
        invariant disk == old(disk).(logs := old(disk).logs[currentWalId := before + Encode(r)[..i]])
        invariant ByteByByte(run.states, |old(run.states)|, before, i)
      {
        ghost var passed := run.states;
        WriteByte(wal.buffered[i], r, before, i);
        OneByteMore(passed, |old(run.states)|, before, i, run.st);
      }
      wal.Sync();
      assert Encode(r)[..n] == Encode(r);
    }

    method WriteByte(b: uint8, ghost r: Record, ghost before: Bytes, ghost i: nat)
      requires Stands(Appending(before, i)) && run.st.pending == Some(r) && i < |Encode(r)| && b == Encode(r)[i]
      requires currentWalId in disk.logs && disk.logs[currentWalId] == before + Encode(r)[..i]
      modifies `disk, run
      ensures Stands(Appending(before, i + 1)) && old(run.states) <= run.states && Promise() == old(Promise())
      ensures disk == old(disk).(logs := old(disk).logs[currentWalId := before + Encode(r)[..i + 1]])
      ensures run.states == old(run.states) + [run.st]
    {
      disk := disk.(logs := disk.logs[currentWalId := disk.logs[currentWalId] + [b]]);
      run.Do(WriteBytes(1));
      assert Encode(r)[i..i + 1] == [b];
      PrefixGrows(before, Encode(r), i, i + 1);
    }

    method ApplyRecord(r: Record, ghost before: Bytes)
      requires Stands(Appending(before, |Encode(r)|)) && WalOpen() && run.st.pending == Some(r) && ClientOp(r)
      modifies memtable, run
      ensures Valid() && old(run.states) <= run.states && Promise() == old(Promise())
      ensures memtable.data == old(memtable.data)[r.key := EntryOf(r)]
    {
      if r.op == PUT { memtable.Put(r.key, r.value); } else { memtable.Del(r.key); }
      run.Do(Advance);
    }

    method LogAndApply(r: Record)
      requires Valid() && run.st.pending == None && ClientOp(r)
      modifies `disk, wal, memtable, run
      ensures Valid() && old(run.states) <= run.states && Promise() == (old(run.st.acked), Some(r))
      ensures View() == Apply(old(View()), r) && memtable.data == old(memtable.data)[r.key := EntryOf(r)]
      ensures disk == old(disk).(logs := old(disk).logs[currentWalId := old(disk).logs[currentWalId] + Encode(r)])
    {
      ViewIsGoal();
      ghost var before := disk.logs[currentWalId];
      LogRecord(r);
      ApplyRecord(r, before);
      ViewIsGoal();
    }

    /** Log, sync, apply, maybe flush, return. */
    method Perform(r: Record)
      requires Valid() && run.st.pending == None && ClientOp(r)
      modifies this, memtable, wal, run
      ensures Valid() && run.st.pending == None && old(run.states) <= run.states
      ensures wal == old(wal) || fresh(wal)
      ensures View() == Apply(old(View()), r) && run.st.acked == View()
      ensures flushBytes > 0 ==> memtable.bytes < flushBytes
      ensures compactionThreshold >= 2 && |old(sstables)| < compactionThreshold ==>
                |sstables| < compactionThreshold
      ensures MT.Footprint(old(memtable.data)[r.key := EntryOf(r)]) < flushBytes ==>
                memtable.data == old(memtable.data)[r.key := EntryOf(r)] && sstables == old(sstables) &&
                nextSstId == old(nextSstId) && currentWalId == old(currentWalId) && manifestGen == old(manifestGen) &&
                disk == old(disk).(logs := old(disk).logs[old(currentWalId) :=
                                             old(disk).logs[old(currentWalId)] + Encode(r)])
      ensures MT.Footprint(old(memtable.data)[r.key := EntryOf(r)]) >= flushBytes ==>
                var tables := |old(sstables)| + 1;
                memtable.data == map[] && currentWalId == old(nextSstId) + 1 &&
                disk.logs == (old(disk).logs - {old(currentWalId)})[currentWalId := []] &&
                if tables >= 2 && tables >= compactionThreshold then
                  sstables == [old(nextSstId) + 1] && manifestGen == old(manifestGen) + 2
                else
                  sstables == [old(nextSstId)] + old(sstables) && manifestGen == old(manifestGen) + 1
    {
      LogAndApply(r);
      assert r.key in memtable.data && memtable.bytes == MT.Footprint(memtable.data);
      MaybeFlush();
      Acknowledge();
    }

    ghost method Acknowledge()
      requires Valid() && run.st.pending.Some?
      modifies run
      ensures Valid() && run.st.pending == None && old(run.states) <= run.states && run.st.acked == View()
    {
      ViewIsGoal();
      run.Do(Ack);
    }

    method Put(key: Bytes, value: Bytes)
      requires Valid() && run.st.pending == None && |key| < U32_LIMIT && |value| < U32_LIMIT
      modifies this, memtable, wal, run
      ensures Valid() && run.st.pending == None && old(run.states) <= run.states
      ensures wal == old(wal) || fresh(wal)
      ensures View() == old(View())[key := value] && run.st.acked == View()
      ensures flushBytes > 0 ==> memtable.bytes < flushBytes
      ensures compactionThreshold >= 2 && |old(sstables)| < compactionThreshold ==>
                |sstables| < compactionThreshold
      ensures MT.Footprint(old(memtable.data)[key := MemEntry(value, false)]) < flushBytes ==>
                memtable.data == old(memtable.data)[key := MemEntry(value, false)] && sstables == old(sstables) &&
                nextSstId == old(nextSstId) && currentWalId == old(currentWalId) && manifestGen == old(manifestGen) &&
                disk == old(disk).(logs := old(disk).logs[old(currentWalId) :=
                                             old(disk).logs[old(currentWalId)] + Encode(Record(PUT, key, value))])
      ensures MT.Footprint(old(memtable.data)[key := MemEntry(value, false)]) >= flushBytes ==>
                var tables := |old(sstables)| + 1;
                memtable.data == map[] && currentWalId == old(nextSstId) + 1 &&
                disk.logs == (old(disk).logs - {old(currentWalId)})[currentWalId := []] &&
                if tables >= 2 && tables >= compactionThreshold then
                  sstables == [old(nextSstId) + 1] && manifestGen == old(manifestGen) + 2
                else
                  sstables == [old(nextSstId)] + old(sstables) && manifestGen == old(manifestGen) + 1
    {
      Perform(Record(PUT, key, value));
    }

    method Del(key: Bytes)
      requires Valid() && run.st.pending == None && |key| < U32_LIMIT
      modifies this, memtable, wal, run
      ensures Valid() && run.st.pending == None && old(run.states) <= run.states
      ensures wal == old(wal) || fresh(wal)
      ensures View() == old(View()) - {key} && run.st.acked == View()
      ensures flushBytes > 0 ==> memtable.bytes < flushBytes
      ensures compactionThreshold >= 2 && |old(sstables)| < compactionThreshold ==>
                |sstables| < compactionThreshold
      ensures MT.Footprint(old(memtable.data)[key := MemEntry([], true)]) < flushBytes ==>
                memtable.data == old(memtable.data)[key := MemEntry([], true)] && sstables == old(sstables) &&
                nextSstId == old(nextSstId) && currentWalId == old(currentWalId) && manifestGen == old(manifestGen) &&
                disk == old(disk).(logs := old(disk).logs[old(currentWalId) :=
                                             old(disk).logs[old(currentWalId)] + Encode(Record(DEL, key, []))])
      ensures MT.Footprint(old(memtable.data)[key := MemEntry([], true)]) >= flushBytes ==>
                var tables := |old(sstables)| + 1;
                memtable.data == map[] && currentWalId == old(nextSstId) + 1 &&
                disk.logs == (old(disk).logs - {old(currentWalId)})[currentWalId := []] &&
                if tables >= 2 && tables >= compactionThreshold then
                  sstables == [old(nextSstId) + 1] && manifestGen == old(manifestGen) + 2
                else
                  sstables == [old(nextSstId)] + old(sstables) && manifestGen == old(manifestGen) + 1
    {
      Perform(Record(DEL, key, []));
    }

    /** MemTable, then tables newest first; the first layer that knows the key decides. */
    method Get(key: Bytes) returns (r: Option<Bytes>)
      requires Valid()
      ensures r == Look(View(), key)
      ensures run.st.pending == None ==> r == Look(run.st.acked, key)
    {
      ghost var tables := TableStack(disk.ssts, sstables);
      StackIsTables(disk.ssts, sstables);
      SearchIsMerge([memtable.data] + tables, key);
      assert ([memtable.data] + tables)[1..] == tables;
      ViewIsGoal();
      var e := memtable.Raw(key);
      if e.Some? {
        return if e.value.tombstone then None else Some(e.value.value);
      }
      for i := 0 to |sstables|
        invariant Search(tables, key) == Search(tables[i..], key)
      {
        assert tables[i..][1..] == tables[i + 1..];
        match SSTable.MapLookup(Contents(disk.ssts, sstables[i]), key) {
          case NotFound =>
          case Tombstone => return None;
          case Found(value) => return Some(value);
        }
      }
      r := None;
    }

    // ── recovery ────────────────────────────────────────────────────────────

    /** A process about to recover, over the disk the machine went down with. */
    constructor (ghost down: State, d: Disk, flushBytes: nat, compactionThreshold: nat)
      requires Good(down) && down.proc.Down? && down.disk == d
      ensures fresh(run) && fresh(memtable) && run.Ok() && run.st == down && disk == d
      ensures memtable.Valid() && Blank()
      ensures this.flushBytes == flushBytes && this.compactionThreshold == compactionThreshold
    {
      disk := d;
      memtable := new MT.MemTable();
      wal := new Log([]);
      sstables, nextSstId, currentWalId, manifestGen := [], 0, 0, 0;
      this.flushBytes, this.compactionThreshold := flushBytes, compactionThreshold;
      run := new Shadow(down);
    }

    ghost predicate Blank()
      reads this, memtable
    {
      memtable.data == map[] && sstables == [] && nextSstId == 0 && currentWalId == 0 && manifestGen == 0
    }

    /** Cleanup and loading leave alone what matters: list, tables on it, and logs. */
    ghost predicate Keeps(d: Disk)
      reads this
    {
      RecView(disk) == RecView(d) && Ids(disk) == Ids(d)
    }

    /** `DB::recover`: what is served afterwards is the view of the disk as it was found. No
        MANIFEST.tmp, sealed segment or unlisted table is left, the logs are as they were but
        for the active one, and a first start has written the empty list. */
    method Recover()
      requires run.Ok() && run.st.proc.Down? && run.st.disk == disk && memtable.Valid() && Blank()
      modifies this, memtable, run
      ensures Valid() && run.st.pending == None && old(run.states) <= run.states && fresh(wal)
      ensures sstables == Ids(old(disk)) && View() == RecView(old(disk)) && run.st.acked == View()
      ensures memtable.data == ReplayAll(old(disk).logs)
      ensures nextSstId == NextOf(sstables) && currentWalId == nextSstId
      ensures disk.manifest == if old(disk).manifest.Some? then old(disk).manifest else Some(ManifestRec(1, []))
      ensures disk.manifest == Some(ManifestRec(manifestGen, sstables)) && disk.tmp == None && disk.done == {}
      ensures disk.ssts.Keys == IdSet(sstables)
      ensures forall id :: id in disk.ssts ==> id in old(disk).ssts && disk.ssts[id] == old(disk).ssts[id]
      ensures disk.logs == old(disk).logs[nextSstId := if nextSstId in old(disk).logs then old(disk).logs[nextSstId] else []]
    {
      LoadTables();
      ReplaySegments();
      OpenActive();
      RestHasNoDone();
    }

    method LoadTables()
      requires run.Ok() && run.st.proc.Down? && run.st.disk == disk && memtable.Valid() && Blank()
      modifies `disk, `sstables, `nextSstId, `manifestGen, run
      ensures Stands(ReplayingLogs) && old(run.states) <= run.states && Keeps(old(disk))
      ensures memtable.data == map[] && currentWalId == 0 && sstables == Ids(old(disk)) && nextSstId == NextOf(sstables)
      ensures disk.manifest == if old(disk).manifest.Some? then old(disk).manifest else Some(ManifestRec(1, []))
      ensures disk.tmp == None && disk.done == {} && disk.logs == old(disk).logs
      ensures disk.ssts.Keys <= IdSet(sstables)
      ensures forall id :: id in disk.ssts ==> id in old(disk).ssts && disk.ssts[id] == old(disk).ssts[id]
    {
      RemoveTmp();
      RemoveSealedSegments();
      LoadManifest();
      RemoveOrphans();
    }

    method RemoveTmp()
      requires run.Ok() && run.st.proc.Down? && run.st.disk == disk && memtable.Valid() && Blank()
      modifies `disk, run
      ensures Stands(RemovingSealed) && Blank() && old(run.states) <= run.states && Keeps(old(disk))
      ensures disk == old(disk).(tmp := None)
    {
      run.Do(Boot);
      disk := disk.(tmp := None);
      run.Do(Advance);
    }

    method RemoveSealedSegments()
      requires Stands(RemovingSealed) && Blank()
      modifies `disk, run
      ensures Stands(LoadingManifest) && Blank() && old(run.states) <= run.states && Keeps(old(disk))
      ensures disk == old(disk).(done := {})
    {
      while disk.done != {}
        invariant Stands(RemovingSealed) && Blank() && old(run.states) <= run.states
        invariant disk == old(disk).(done := disk.done)
        decreases disk.done
      {
        var id :| id in disk.done;
        disk := disk.(done := disk.done - {id});
        run.Do(RemoveSealed(id));
      }
      run.Do(Advance);
    }

    method ReadList(ids: seq<nat>)
      requires sstables == [] && nextSstId == 0
      modifies `sstables, `nextSstId
      ensures sstables == ids && nextSstId == NextOf(ids)
    {
      for i := 0 to |ids|
        invariant sstables == ids[..i] && Max(nextSstId, NextOf(ids[i..])) == NextOf(ids)
      {
        assert ids[i..][1..] == ids[i + 1..];
        nextSstId := Max(nextSstId, ids[i] + 1);
        sstables := sstables + [ids[i]];
      }
      assert ids[..|ids|] == ids;
    }

    method LoadManifest()
      requires Stands(LoadingManifest) && Blank()
      modifies `disk, `sstables, `nextSstId, `manifestGen, run
      ensures Stands(RemovingOrphans) && old(run.states) <= run.states && Keeps(old(disk))
      ensures memtable.data == map[] && currentWalId == 0 && sstables == Ids(old(disk)) && nextSstId == NextOf(sstables)
      ensures old(disk).manifest.Some? ==> disk == old(disk)
      ensures old(disk).manifest.None? ==> disk == old(disk).(manifest := Some(ManifestRec(1, [])), tmp := None)
    {
      run.Sound();
      if disk.manifest.Some? {
        manifestGen := disk.manifest.value.gen;
        ReadList(disk.manifest.value.ids);
        run.Do(Advance);
      } else {
        run.Do(Advance);
        UpdateManifest(FirstJob);
        run.Do(Advance);
      }
    }

    method RemoveOrphans()
      requires Stands(RemovingOrphans)
      modifies `disk, run
      ensures Stands(ReplayingLogs) && old(run.states) <= run.states && Keeps(old(disk))
      ensures disk == old(disk).(ssts := disk.ssts) && disk.ssts.Keys <= IdSet(sstables)
      ensures forall id :: id in disk.ssts ==> id in old(disk).ssts && disk.ssts[id] == old(disk).ssts[id]
    {
      var live := set id | id in sstables;
      while !(disk.ssts.Keys <= live)
        invariant Stands(RemovingOrphans) && old(run.states) <= run.states && Keeps(old(disk))
        invariant disk == old(disk).(ssts := disk.ssts)
        invariant forall id :: id in disk.ssts ==> id in old(disk).ssts && disk.ssts[id] == old(disk).ssts[id]
        decreases disk.ssts.Keys - live
      {
        var id :| id in disk.ssts.Keys && id !in live;
        ghost var before := disk.ssts;
        RemoveOrphan(id);
        assert disk.ssts.Keys - live == (before.Keys - live) - {id};
      }
      run.Do(Advance);
    }

    method RemoveOrphan(id: nat)
      requires Stands(RemovingOrphans) && id in disk.ssts && id !in sstables
      modifies `disk, run
      ensures Stands(RemovingOrphans) && old(run.states) <= run.states && Keeps(old(disk))
      ensures disk == old(disk).(ssts := old(disk).ssts - {id})
    {
      run.Sound();
      RecThroughCleanup(run.st, id);
      disk := disk.(ssts := disk.ssts - {id});
      run.Do(Label.RemoveOrphan(id));
    }

    /** Oldest segment first. */
    method ReplaySegments()
      requires memtable.Valid() && memtable.data == map[] && currentWalId == 0
      modifies memtable, `currentWalId
      ensures memtable.Valid() && memtable.data == ReplayAll(disk.logs)
      ensures currentWalId == if disk.logs == map[] then 0 else Top(disk.logs.Keys)
    {
      var rest := disk.logs.Keys;
      while rest != {}
        invariant rest <= disk.logs.Keys && memtable.Valid()
        invariant memtable.data == ReplayAll(disk.logs - rest)
        invariant forall i, j :: i in disk.logs && i !in rest && j in rest ==> i < j
        invariant currentWalId == if disk.logs.Keys - rest == {} then 0 else Top(disk.logs.Keys - rest)
        decreases rest
      {
        var id := Oldest(rest);
        NextSegment(disk.logs, rest, id);
        currentWalId := Max(currentWalId, id);
        var records := Replay(disk.logs[id]);
        ApplyRecords(records);
        rest := rest - {id};
      }
      assert disk.logs - {} == disk.logs && disk.logs.Keys - {} == disk.logs.Keys;
    }

    method ApplyRecords(records: seq<Record>)
      requires memtable.Valid()
      modifies memtable
      ensures memtable.Valid() && memtable.data == old(memtable.data) + Replayed(records)
    {
      for i := 0 to |records|
        invariant memtable.Valid() && memtable.data == old(memtable.data) + Replayed(records[..i])
      {
        assert records[..i + 1] == records[..i] + [records[i]];
        ReplayedSnoc(records[..i], records[i]);
        OverlayWrite(old(memtable.data), Replayed(records[..i]), records[i].key, EntryOf(records[i]));
        if records[i].op == PUT {
          memtable.Put(records[i].key, records[i].value);
        } else {
          memtable.Del(records[i].key);
        }
      }
      assert records[..|records|] == records;
    }

    /** Where the last step of recovery leads: the segment it opens, and what is served. */
    lemma OpeningServes()
      requires run.Ok() && IsAt(run.st, ReplayingLogs) && run.st.disk == disk
      requires run.st.proc.ram.ssts == sstables && run.st.proc.ram.next == nextSstId
      requires currentWalId == if disk.logs == map[] then 0 else Top(disk.logs.Keys)
      ensures Max(currentWalId, nextSstId) == nextSstId && sstables == Ids(disk)
      ensures var t := Next(run.st, Advance);
              && t.proc == Up(Ram(ReplayAll(disk.logs), sstables, nextSstId, nextSstId, run.st.proc.ram.gen), Ready)
              && t.disk == disk.(logs := WithSegment(disk.logs, nextSstId))
              && t.acked == RecView(disk) && t.pending == None
    {
      run.Sound();
      FinishRecoveryKeeps(run.st);
      RestartDone(run.st);
    }

    method OpenActive()
      requires run.Ok() && run.st.disk == disk && memtable.Valid()
      requires run.st.proc == Up(Ram(map[], sstables, nextSstId, 0, manifestGen), ReplayingLogs)
      requires memtable.data == ReplayAll(disk.logs)
      requires currentWalId == if disk.logs == map[] then 0 else Top(disk.logs.Keys)
      modifies `disk, `wal, `currentWalId, run
      ensures Valid() && run.st.pending == None && old(run.states) <= run.states && fresh(wal)
      ensures View() == RecView(old(disk)) && run.st.acked == View() && sstables == Ids(old(disk))
      ensures currentWalId == nextSstId && disk == old(disk).(logs := WithSegment(old(disk).logs, nextSstId))
    {
      OpeningServes();
      currentWalId := Max(currentWalId, nextSstId);
      disk := disk.(logs := WithSegment(disk.logs, currentWalId));
      wal := new Log(disk.logs[currentWalId]);
      run.Do(Advance);
    }
  }

  /** Replaying the oldest segment left is replaying the newest so far. */
  lemma NextSegment(logs: map<nat, Bytes>, rest: set<nat>, id: nat)
    requires rest <= logs.Keys && id in rest && forall i :: i in rest ==> id <= i
    requires forall i, j :: i in logs && i !in rest && j in rest ==> i < j
    ensures ReplayAll(logs - (rest - {id})) == ReplayAll(logs - rest) + Replayed(Parse(logs[id]))
    ensures logs.Keys - (rest - {id}) == (logs.Keys - rest) + {id}
    ensures Top(logs.Keys - (rest - {id})) == id
    ensures logs.Keys - rest != {} ==> Top(logs.Keys - rest) < id
  {
    var done := logs - (rest - {id});
    assert done - {id} == logs - rest;
    ReplayTop(done, id);
  }
}
