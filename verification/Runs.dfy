/** Whole runs: exact durability across any number of crashes, one session with its crash
    and recovery, and refinement of a plain map. */
module Runs {
  import opened Base
  import opened Wal
  import opened Layers
  import opened Machine
  import opened Safety
  import opened Durability

  // ── runs of any length, with any number of crashes ────────────────────────

  ghost predicate Good(s: State) {
    Inv(s) && LiveOk(s)
  }

  /** No torn segment is appended to anywhere in the run. */
  ghost predicate NeverTorn(ss: seq<State>, ls: seq<Label>)
    requires |ss| == |ls| + 1
  {
    forall i :: 0 <= i < |ls| ==> NotTorn(ss[i], ls[i])
  }

  ghost predicate SealsSafe(ss: seq<State>, ls: seq<Label>)
    requires |ss| == |ls| + 1
  {
    forall i :: 0 <= i < |ls| ==> SealOk(ss[i], ls[i])
  }

  ghost predicate SealOk(s: State, l: Label) {
    IsSeal(s, l) ==> SealSafe(s)
  }

  lemma {:induction false} RunKeepsGood(first: State, ss: seq<State>, ls: seq<Label>, i: nat)
    requires IsRun(first, ss, ls) && Good(first) && i < |ss|
    ensures Good(ss[i])
  {
    if i == 0 {
    } else {
      RunKeepsGood(first, ss, ls, i - 1);
      assert IsStep(ss[i - 1], ls[i - 1], ss[i]);
      StepKeepsInv(ss[i - 1], ls[i - 1]);
      StepKeepsLive(ss[i - 1], ls[i - 1]);
    }
  }

  lemma {:induction false} SafeRunRecovers(first: State, ss: seq<State>, ls: seq<Label>, i: nat)
    requires IsRun(first, ss, ls) && Good(first) && RecOk(first) && OnBoundary(first) && i < |ss|
    requires NeverTorn(ss, ls) && SealsSafe(ss, ls)
    ensures RecOk(ss[i]) && OnBoundary(ss[i])
  {
    if i == 0 {
    } else {
      SafeRunRecovers(first, ss, ls, i - 1);
      RunKeepsGood(first, ss, ls, i - 1);
      assert IsStep(ss[i - 1], ls[i - 1], ss[i]);
      assert NotTorn(ss[i - 1], ls[i - 1]) && SealOk(ss[i - 1], ls[i - 1]);
      StepKeepsRec(ss[i - 1], ls[i - 1]);
    }
  }

  /** Runs from an empty directory that never append behind a torn tail: recovery would
      rebuild the right map at every moment if and only if every seal was safe. */
  lemma DurableIffSealsSafe(ss: seq<State>, ls: seq<Label>)
    requires IsRun(INITIAL, ss, ls) && NeverTorn(ss, ls)
    ensures (forall i :: 0 <= i < |ss| ==> RecOk(ss[i])) <==> SealsSafe(ss, ls)
  {
    InitialIsGood();
    if SealsSafe(ss, ls) {
      forall i | 0 <= i < |ss| ensures RecOk(ss[i]) {
        SafeRunRecovers(INITIAL, ss, ls, i);
      }
    }
    if forall i :: 0 <= i < |ss| ==> RecOk(ss[i]) {
      forall i | 0 <= i < |ls| ensures SealOk(ss[i], ls[i]) {
        RunKeepsGood(INITIAL, ss, ls, i);
        assert IsStep(ss[i], ls[i], ss[i + 1]);
        if IsSeal(ss[i], ls[i]) {
          SealExact(ss[i]);
          assert RecOk(ss[i + 1]);
        }
      }
    }
  }

  lemma InitialIsGood()
    ensures Good(INITIAL) && RecOk(INITIAL) && OnBoundary(INITIAL) && SessionLogs(INITIAL)
  {
  }

  /** In every run, whatever crashes came before, a serving engine at rest answers each read
      from the map acknowledged since the last restart completed, on top of what that restart
      served. */
  lemma ReadsAreAcknowledged(ss: seq<State>, ls: seq<Label>, i: nat, key: Bytes)
    requires IsRun(INITIAL, ss, ls) && i < |ss| && IsAt(ss[i], Ready) && ss[i].pending == None
    ensures Search(Stack(ss[i]), key) == Look(ss[i].acked, key)
  {
    InitialIsGood();
    RunKeepsGood(INITIAL, ss, ls, i);
    StackIsTables(ss[i].disk.ssts, ss[i].proc.ram.ssts);
    var tables := TableStack(ss[i].disk.ssts, ss[i].proc.ram.ssts);
    assert Stack(ss[i])[1..] == tables;
    SearchIsMerge(Stack(ss[i]), key);
  }

  function TableStack(ssts: map<nat, SstFile>, ids: seq<nat>): (ts: seq<Entries>)
    ensures |ts| == |ids|
  {
    seq(|ids|, i requires 0 <= i < |ids| => Contents(ssts, ids[i]))
  }

  /** MemTable over tables, newest first: what `get` searches. */
  function Stack(s: State): seq<Entries>
    requires s.proc.Up?
  {
    [s.proc.ram.mem] + TableStack(s.disk.ssts, s.proc.ram.ssts)
  }

  lemma {:induction false} StackIsTables(ssts: map<nat, SstFile>, ids: seq<nat>)
    ensures Merge(TableStack(ssts, ids)) == Tables(ssts, ids)
  {
    if ids == [] {
    } else {
      StackIsTables(ssts, ids[1..]);
      assert TableStack(ssts, ids)[1..] == TableStack(ssts, ids[1..]);
    }
  }

  // ── when seals are safe ───────────────────────────────────────────────────

  /** Segments other than the open one hold no record. */
  ghost predicate NoStaleRecords(logs: map<nat, Bytes>, wal: nat) {
    forall id :: id in logs && id != wal ==> Parse(logs[id]) == []
  }

  lemma NoStaleRecordsSealSafe(s: State)
    requires s.proc.Up? && NoStaleRecords(s.disk.logs, s.proc.ram.wal)
    ensures SealSafe(s)
  {
    ReplaySilent(s.disk.logs - {s.proc.ram.wal});
  }

  // ── a stale segment is never cleared ──────────────────────────────────────

  lemma BelowStaysServing(s: State, id: nat)
    requires Inv(s) && Enabled(s, Advance) && Serving(s) && id in s.disk.logs && id < SessionWal(s)
    ensures var t := Next(s, Advance);
            id in t.disk.logs && t.disk.logs[id] == s.disk.logs[id] && id < SessionWal(t)
  {
  }

  lemma BelowStaysAdvance(s: State, id: nat)
    requires Inv(s) && Enabled(s, Advance) && id in s.disk.logs && id < SessionWal(s)
    ensures var t := Next(s, Advance);
            id in t.disk.logs && t.disk.logs[id] == s.disk.logs[id] && id < SessionWal(t)
  {
    if Serving(s) {
      BelowStaysServing(s, id);
    } else if s.proc.pc.ReplayingLogs? {
      FinishRecoveryKeeps(s);
    } else {
      RestartQuiet(s);
    }
  }

  lemma BelowStays(s: State, l: Label, id: nat)
    requires Inv(s) && Enabled(s, l) && id in s.disk.logs && id < SessionWal(s)
    ensures var t := Next(s, l);
            id in t.disk.logs && t.disk.logs[id] == s.disk.logs[id] && id < SessionWal(t)
  {
    if l.Advance? { BelowStaysAdvance(s, id); }
  }

  /** A segment numbered below the one in use is never written or removed again, whatever is
      done and however often the process crashes: every later restart replays it once more. */
  lemma {:induction false} BelowStaysForever(first: State, ss: seq<State>, ls: seq<Label>, i: nat, id: nat)
    requires IsRun(first, ss, ls) && Inv(first) && i < |ss| && id in first.disk.logs && id < SessionWal(first)
    ensures id in ss[i].disk.logs && ss[i].disk.logs[id] == first.disk.logs[id] && id < SessionWal(ss[i])
    ensures forall k :: k in Replayed(Parse(first.disk.logs[id])) ==> k in ReplayAll(ss[i].disk.logs)
  {
    if i == 0 {
    } else {
      BelowStaysForever(first, ss, ls, i - 1, id);
      RunKeepsInv(first, ss, ls, i - 1);
      assert IsStep(ss[i - 1], ls[i - 1], ss[i]);
      BelowStays(ss[i - 1], ls[i - 1], id);
    }
    forall k | k in Replayed(Parse(first.disk.logs[id])) ensures k in ReplayAll(ss[i].disk.logs) {
      ReplayCovers(ss[i].disk.logs, id, k);
    }
  }

  /** Once an older segment holds a record, no continuation brings good logs back. */
  lemma NeverHeals(first: State, ss: seq<State>, ls: seq<Label>, i: nat)
    requires IsRun(first, ss, ls) && Inv(first) && i < |ss| && !NoStaleRecords(first.disk.logs, SessionWal(first))
    ensures !NoStaleRecords(ss[i].disk.logs, SessionWal(ss[i])) && !SessionLogs(ss[i])
  {
    var id :| id in first.disk.logs && id != SessionWal(first) && Parse(first.disk.logs[id]) != [];
    LogsUpToSession(first);
    BelowStaysForever(first, ss, ls, i, id);
  }

  lemma LogsUpToSession(s: State)
    requires Inv(s)
    ensures LogsUpTo(s.disk.logs, SessionWal(s))
  {
  }

  // ── one session, its crash, and the recovery after it ─────────────────────

  /** The segment the session appends to: the open one, or the one recovery will open. */
  ghost function SessionWal(s: State): nat {
    if Serving(s) then s.proc.ram.wal else NextOf(Ids(s.disk))
  }

  /** The segment in use up to its last acknowledged or applied record. */
  ghost function Settled(s: State): Bytes
    requires SessionWal(s) in s.disk.logs
  {
    if s.proc.Up? && s.proc.pc.Appending? then s.proc.pc.before else s.disk.logs[SessionWal(s)]
  }

  /** Older segments hold no record, the one in use stops on a record boundary, and it holds
      a record exactly when the MemTable does. */
  ghost predicate SessionLogs(s: State) {
    && NoStaleRecords(s.disk.logs, SessionWal(s))
    && OnBoundary(s)
    && (SessionWal(s) in s.disk.logs ==>
          && EndsOnRecord(Settled(s))
          && (Serving(s) ==> (s.proc.ram.mem == map[] <==> Parse(Settled(s)) == [])))
  }

  lemma EmptyLogIsBoundary()
    ensures EndsOnRecord([]) && Parse([]) == []
  {
    assert EncodeAll([]) == [];
    assert AllFit([]);
  }

  lemma SessionThroughWrite(s: State, l: Label)
    requires Inv(s) && SessionLogs(s) && Enabled(s, l) && (l.BeginOp? || l.WriteBytes?)
    ensures SessionLogs(Next(s, l))
  {
    SessionAppending(s, Next(s, l));
  }

  lemma SessionThroughApply(s: State)
    requires Inv(s) && SessionLogs(s) && Enabled(s, Advance) && s.proc.pc.Appending?
    ensures SessionLogs(Next(s, Advance))
  {
    var (r, before) := (s.pending.value, s.proc.pc.before);
    AppendToBoundary(before, r, |Encode(r)|);
    var t := Next(s, Advance);
    assert t.disk.logs[SessionWal(t)] == before + Encode(r)[..|Encode(r)|];
    assert r.key in t.proc.ram.mem;
  }

  lemma SessionAppending(s: State, t: State)
    requires SessionLogs(s) && Serving(s) && t.proc.Up? && t.proc.pc.Appending? && OnBoundary(t)
    requires SessionWal(t) == SessionWal(s) && SessionWal(s) in t.disk.logs && SessionWal(s) in s.disk.logs
    requires Settled(t) == Settled(s) && t.proc.ram.mem == s.proc.ram.mem
    requires t.disk.logs == s.disk.logs[SessionWal(s) := t.disk.logs[SessionWal(s)]]
    ensures SessionLogs(t)
  {
  }

  lemma SessionThroughSegments(s: State)
    requires Inv(s) && SessionLogs(s) && Enabled(s, Advance)
    requires s.proc.pc.Sealed? || IsSeal(s, Advance)
    ensures SessionLogs(Next(s, Advance))
  {
    EmptyLogIsBoundary();
  }

  /** With silent older segments, replay yields something exactly when the newest holds a record. */
  lemma ReplayedNonempty(logs: map<nat, Bytes>, wal: nat)
    requires NoStaleRecords(logs, wal) && LogsUpTo(logs, wal)
    ensures ReplayAll(logs) == map[] <==> wal !in logs || Parse(logs[wal]) == []
  {
    if wal in logs {
      var rs := Parse(logs[wal]);
      ReplayTop(logs, wal);
      ReplaySilent(logs - {wal});
      if rs != [] { assert rs[|rs| - 1].key in Replayed(rs); }
    } else {
      ReplaySilent(logs);
    }
  }

  lemma SessionThroughRestart(s: State)
    requires Inv(s) && SessionLogs(s) && IsAt(s, ReplayingLogs)
    ensures Enabled(s, Advance) && SessionLogs(Next(s, Advance))
  {
    EmptyLogIsBoundary();
    FinishRecoveryKeeps(s);
    ReplayedNonempty(s.disk.logs, s.proc.ram.next);
  }

  lemma SessionSame(s: State, t: State)
    requires SessionLogs(s) && !(s.proc.Up? && s.proc.pc.Appending?) && !(t.proc.Up? && t.proc.pc.Appending?)
    requires t.disk.logs == s.disk.logs && SessionWal(t) == SessionWal(s)
    requires Serving(t) ==> Serving(s) && t.proc.ram.mem == s.proc.ram.mem
    ensures SessionLogs(t)
  {
  }

  /** Such steps leave segments and MemTable alone. */
  lemma JobLeavesLogs(s: State)
    requires Inv(s) && Enabled(s, Advance)
    requires s.proc.pc.Building? || s.proc.pc.Installed? || s.proc.pc.TmpHalf? || s.proc.pc.TmpFull?
    ensures var t := Next(s, Advance);
            && t.proc.Up? && !t.proc.pc.Appending? && t.disk.logs == s.disk.logs
            && SessionWal(t) == SessionWal(s) && Serving(t) == Serving(s) && t.proc.ram.mem == s.proc.ram.mem
  {
  }

  lemma SessionThroughJob(s: State)
    requires Inv(s) && SessionLogs(s) && Enabled(s, Advance)
    requires s.proc.pc.Building? || s.proc.pc.Installed? || s.proc.pc.TmpHalf? || s.proc.pc.TmpFull?
    ensures SessionLogs(Next(s, Advance))
  {
    JobLeavesLogs(s);
    SessionSame(s, Next(s, Advance));
  }

  lemma SessionThroughVictim(s: State)
    requires Inv(s) && SessionLogs(s) && Enabled(s, Advance) && s.proc.pc.Committed? && !s.proc.pc.job.FlushJob?
    ensures SessionLogs(Next(s, Advance))
  {
    SessionSame(s, Next(s, Advance));
  }

  lemma SessionThroughCleanup(s: State)
    requires Inv(s) && SessionLogs(s) && Enabled(s, Advance) && !Serving(s) && !s.proc.pc.ReplayingLogs?
    ensures SessionLogs(Next(s, Advance))
  {
    RestartQuiet(s);
    SessionSame(s, Next(s, Advance));
  }

  lemma SessionThroughServing(s: State)
    requires Inv(s) && SessionLogs(s) && Enabled(s, Advance) && Serving(s)
    ensures SessionLogs(Next(s, Advance))
  {
    match s.proc.pc
    case Appending(before, written) => SessionThroughApply(s);
    case Building(job) => SessionThroughJob(s);
    case Installed(job) => SessionThroughJob(s);
    case TmpHalf(job) => SessionThroughJob(s);
    case TmpFull(job) => SessionThroughJob(s);
    case Committed(job) => if job.FlushJob? { SessionThroughSegments(s); } else { SessionThroughVictim(s); }
    case Sealed(seg) => SessionThroughSegments(s);
    case Opened(seg) => SessionSame(s, Next(s, Advance));
  }

  lemma SessionThroughAdvance(s: State)
    requires Inv(s) && SessionLogs(s) && Enabled(s, Advance)
    ensures SessionLogs(Next(s, Advance))
  {
    if Serving(s) {
      SessionThroughServing(s);
    } else if s.proc.pc.ReplayingLogs? {
      SessionThroughRestart(s);
    } else {
      SessionThroughCleanup(s);
    }
  }

  lemma SessionThroughQuiet(s: State, l: Label)
    requires Inv(s) && SessionLogs(s) && Enabled(s, l)
    requires !l.Crash? && !l.BeginOp? && !l.WriteBytes? && !l.Advance?
    ensures SessionLogs(Next(s, l))
  {
    SessionSame(s, Next(s, l));
  }

  lemma SessionIsSafe(s: State, l: Label)
    requires Inv(s) && SessionLogs(s) && Enabled(s, l)
    ensures NotTorn(s, l) && SealOk(s, l)
  {
    if IsSeal(s, l) { NoStaleRecordsSealSafe(s); }
  }

  /** Within a session the log hypothesis keeps itself. */
  lemma SessionKeepsLogs(s: State, l: Label)
    requires Inv(s) && SessionLogs(s) && Enabled(s, l) && !l.Crash?
    ensures SessionLogs(Next(s, l))
    ensures NotTorn(s, l) && SealOk(s, l)
  {
    SessionIsSafe(s, l);
    if l.BeginOp? || l.WriteBytes? {
      SessionThroughWrite(s, l);
    } else if l.Advance? {
      SessionThroughAdvance(s);
    } else {
      SessionThroughQuiet(s, l);
    }
  }

  /** Stopped at rest with nothing in memory only, as the destructor leaves it. */
  ghost predicate CleanStop(s: State) {
    IsAt(s, Ready) && s.pending == None && s.proc.ram.mem == map[]
  }

  /** The crash points that hand the next session good logs: during recovery; behind a
      sealed segment; with the open segment still the one recovery reopens, unless part of a
      record is in it; and otherwise with nothing in the MemTable and no record written that
      should be there. */
  ghost predicate HandsOver(s: State)
    requires s.proc.Up?
  {
    var wal := s.proc.ram.wal;
    || !Serving(s) || wal !in s.disk.logs
    || if wal == NextOf(Ids(s.disk)) then !MidRecord(s) else s.proc.ram.mem == map[] && !WholeRecord(s)
  }

  ghost predicate MidRecord(s: State) {
    && s.proc.Up? && s.proc.pc.Appending? && s.pending.Some?
    && 0 < s.proc.pc.written < |Encode(s.pending.value)|
  }

  ghost predicate WholeRecord(s: State) {
    s.proc.Up? && s.proc.pc.Appending? && s.pending.Some? && s.proc.pc.written == |Encode(s.pending.value)|
  }

  /** The segment in use at a crash inside an append. */
  lemma CutRecord(before: Bytes, r: Record, w: nat)
    requires EndsOnRecord(before) && Fits(r) && w <= |Encode(r)|
    ensures var log := before + Encode(r)[..w];
            && (EndsOnRecord(log) <==> w == 0 || w == |Encode(r)|)
            && Parse(log) == Parse(before) + if w < |Encode(r)| then [] else [r]
  {
    AppendToBoundary(before, r, w);
    if w == 0 {
      assert before + Encode(r)[..w] == before;
    } else if w < |Encode(r)| {
      LongerIsTorn(before, before + Encode(r)[..w]);
    }
  }

  lemma LongerIsTorn(before: Bytes, log: Bytes)
    requires EndsOnRecord(before) && Parse(log) == Parse(before) && |before| < |log|
    ensures !EndsOnRecord(log)
  {
    BoundaryIffNoTail(before);
    BoundaryIffNoTail(log);
  }

  /** Exactly which crash points hand the next session good logs. */
  lemma HandoverExact(s: State)
    requires Inv(s) && SessionLogs(s) && s.proc.Up?
    ensures SessionLogs(Next(s, Crash)) <==> HandsOver(s)
  {
    if Serving(s) && s.proc.ram.wal in s.disk.logs && s.proc.pc.Appending? {
      CutRecord(s.proc.pc.before, s.pending.value, s.proc.pc.written);
    }
  }

  /** Not between a flush's MANIFEST rename and its seal. */
  lemma LostBeforeSeal(s: State)
    requires Inv(s) && SessionLogs(s) && IsAt(s, Committed(FlushJob))
    ensures !SessionLogs(Next(s, Crash))
  {
    HandoverExact(s);
  }

  /** Nor, at rest, with writes in memory since a compaction took the number recovery would
      have reopened. */
  lemma LostAfterCompaction(s: State)
    requires Inv(s) && SessionLogs(s) && IsAt(s, Ready)
    ensures SessionLogs(Next(s, Crash)) <==> s.proc.ram.wal == s.proc.ram.next || s.proc.ram.mem == map[]
  {
    HandoverExact(s);
  }

  lemma CleanStopHandsOver(s: State)
    requires Inv(s) && SessionLogs(s) && CleanStop(s)
    ensures HandsOver(s) && SessionLogs(Next(s, Crash))
  {
    HandoverExact(s);
  }

  /** Any number of sessions, all but the last ended where they hand good logs on, as a clean
      stop does; the last may crash anywhere. */
  ghost predicate HandedOn(ss: seq<State>, ls: seq<Label>)
    requires |ss| == |ls| + 1
  {
    forall i :: 0 <= i < |ls| - 1 && ls[i].Crash? && ss[i].proc.Up? ==> HandsOver(ss[i])
  }

  lemma {:induction false} SessionRecovers(first: State, ss: seq<State>, ls: seq<Label>, i: nat)
    requires IsRun(first, ss, ls) && HandedOn(ss, ls) && i < |ss|
    requires Good(first) && RecOk(first) && SessionLogs(first)
    ensures RecOk(ss[i]) && OnBoundary(ss[i])
    ensures i < |ls| || i == 0 || !ls[i - 1].Crash? ==> SessionLogs(ss[i])
  {
    if i == 0 {
    } else {
      var s, l := ss[i - 1], ls[i - 1];
      SessionRecovers(first, ss, ls, i - 1);
      RunKeepsGood(first, ss, ls, i - 1);
      assert IsStep(s, l, ss[i]);
      if !l.Crash? {
        SessionKeepsLogs(s, l);
      } else if i < |ls| {
        HandoverExact(s);
      }
      StepKeepsRec(s, l);
    }
  }

  /** Recovery steps only, up to the moment the engine serves again. */
  ghost predicate Restarting(ss: seq<State>) {
    forall i :: 0 <= i < |ss| - 1 ==> !Serving(ss[i])
  }

  /** Recovery may itself crash and start over, any number of times and from any reachable
      disk, damaged logs included: the view it is about to rebuild and the table list never
      change, and the client's operations wait for it. */
  lemma {:induction false} RecoveryRestartable(first: State, ss: seq<State>, ls: seq<Label>, i: nat)
    requires IsRun(first, ss, ls) && Good(first) && Restarting(ss) && i < |ss|
    ensures RecView(ss[i].disk) == RecView(first.disk) && Ids(ss[i].disk) == Ids(first.disk)
    ensures !Serving(ss[i]) ==> ss[i].acked == first.acked && ss[i].pending == first.pending
    ensures i > 0 && Serving(ss[i]) ==>
              ss[i].acked == LiveView(ss[i]) == RecView(first.disk) && ss[i].pending == None &&
              ss[i].proc.ram.ssts == Ids(first.disk)
    ensures RecOk(first) ==> RecOk(ss[i])
  {
    if i == 0 {
    } else {
      var s, l := ss[i - 1], ls[i - 1];
      RecoveryRestartable(first, ss, ls, i - 1);
      RunKeepsGood(first, ss, ls, i - 1);
      assert IsStep(s, l, ss[i]) && !Serving(s);
      RecoveryStep(s, l);
    }
  }

  /** What one step of a restart leaves alone, and what its last step serves. */
  ghost predicate CarriesOn(s: State, t: State) {
    && RecView(t.disk) == RecView(s.disk) && Ids(t.disk) == Ids(s.disk)
    && if Serving(t) then
         t.acked == LiveView(t) == RecView(s.disk) && t.pending == None && t.proc.ram.ssts == Ids(s.disk)
       else t.acked == s.acked && t.pending == s.pending
  }

  lemma RecoveryStep(s: State, l: Label)
    requires Good(s) && Enabled(s, l) && !Serving(s)
    ensures CarriesOn(s, Next(s, l)) && (RecOk(s) ==> RecOk(Next(s, l)))
  {
    if IsAt(s, ReplayingLogs) && l.Advance? {
      RestartDone(s);
    } else if l.Advance? {
      RestartAdvance(s);
    } else {
      RestartStep(s, l);
    }
    RecOkCarries(s, Next(s, l));
  }

  lemma RecOkCarries(s: State, t: State)
    requires !Serving(s) && CarriesOn(s, t) && (Serving(t) ==> IsAt(t, Ready))
    ensures RecOk(s) ==> RecOk(t)
  {
  }

  lemma RestartDone(s: State)
    requires Good(s) && IsAt(s, ReplayingLogs)
    ensures CarriesOn(s, Next(s, Advance)) && IsAt(Next(s, Advance), Ready)
  {
    RecThroughNewSegment(s);
  }

  lemma RestartStep(s: State, l: Label)
    requires Good(s) && Enabled(s, l) && !Serving(s) && !l.Advance?
    ensures CarriesOn(s, Next(s, l)) && !Serving(Next(s, l))
  {
    RecUntouched(s, l);
  }

  lemma RestartQuiet(s: State)
    requires Inv(s) && Enabled(s, Advance) && !Serving(s) && !s.proc.pc.ReplayingLogs?
    ensures var t := Next(s, Advance);
            && !Serving(t) && Ids(t.disk) == Ids(s.disk) && t.disk.logs == s.disk.logs
            && t.acked == s.acked && t.pending == s.pending
  {
  }

  lemma RestartAdvance(s: State)
    requires Good(s) && Enabled(s, Advance) && !Serving(s) && !s.proc.pc.ReplayingLogs?
    ensures CarriesOn(s, Next(s, Advance)) && !Serving(Next(s, Advance))
  {
    RestartQuiet(s);
    RecUntouchedAdvance(s);
  }

  /** Crash refinement: on well-ended logs, any number of sessions that hand good logs on, as
      a clean stop does, and one that runs any operations and crashes after any disk effect,
      then recovery, however often that is interrupted. What the client reads then is exactly
      the acknowledged map, or that map with the one operation that was in flight. */
  lemma CrashRefinement(first: State, ss: seq<State>, ls: seq<Label>, rs: seq<State>, rl: seq<Label>)
    requires Good(first) && RecOk(first) && SessionLogs(first)
    requires IsRun(first, ss, ls) && HandedOn(ss, ls) && ss[|ss| - 1].proc.Down?
    requires IsRun(ss[|ss| - 1], rs, rl) && Restarting(rs) && Serving(rs[|rs| - 1])
    ensures var crashed, back := ss[|ss| - 1], rs[|rs| - 1];
            LiveView(back) == crashed.acked || LiveView(back) == Goal(crashed)
  {
    SessionRecovers(first, ss, ls, |ss| - 1);
    RunKeepsGood(first, ss, ls, |ss| - 1);
    RecoveryRestartable(ss[|ss| - 1], rs, rl, |rs| - 1);
  }

  // ── refinement of a plain map ─────────────────────────────────────────────

  /** The specification machine: a map and at most one operation in flight. */
  ghost predicate SpecStep(acked: View, pending: Option<Record>, acked': View, pending': Option<Record>) {
    || (acked' == acked && pending' == pending)
    || (pending == None && pending'.Some? && acked' == acked)
    || (pending.Some? && pending' == None && acked' == Apply(acked, pending.value))
    || (pending' == None && acked' == acked)
  }

  lemma ServingStep(s: State, l: Label)
    requires Serving(s) && Enabled(s, l)
    ensures SpecStep(s.acked, s.pending, Next(s, l).acked, Next(s, l).pending)
    ensures Next(s, l).pending == None && s.pending.Some? ==> l.Ack?
  {
  }

  /** Every safe step is a step of the specification or invisible to it; only a completed
      restart may drop the operation in flight, or keep it. */
  lemma StepRefines(s: State, l: Label)
    requires Good(s) && RecOk(s) && Enabled(s, l)
    ensures SpecStep(s.acked, s.pending, Next(s, l).acked, Next(s, l).pending)
    ensures Next(s, l).pending == None && s.pending.Some? && !l.Ack? ==> IsAt(s, ReplayingLogs)
  {
    if Serving(s) {
      ServingStep(s, l);
    } else {
      RecoveryStep(s, l);
      if Serving(Next(s, l)) { OnlyReplayServes(s, l); }
    }
  }

  lemma OnlyReplayServes(s: State, l: Label)
    requires Enabled(s, l) && !Serving(s) && Serving(Next(s, l))
    ensures IsAt(s, ReplayingLogs)
  {
  }

  lemma SafeRunRefines(ss: seq<State>, ls: seq<Label>, i: nat)
    requires IsRun(INITIAL, ss, ls) && NeverTorn(ss, ls) && SealsSafe(ss, ls) && i < |ls|
    ensures SpecStep(ss[i].acked, ss[i].pending, ss[i + 1].acked, ss[i + 1].pending)
    ensures ss[i + 1].pending == None && ss[i].pending.Some? && !ls[i].Ack? ==> IsAt(ss[i], ReplayingLogs)
  {
    InitialIsGood();
    SafeRunRecovers(INITIAL, ss, ls, i);
    RunKeepsGood(INITIAL, ss, ls, i);
    assert IsStep(ss[i], ls[i], ss[i + 1]);
    StepRefines(ss[i], ls[i]);
  }
}
