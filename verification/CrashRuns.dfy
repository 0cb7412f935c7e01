/**
 Whole runs of cycles with crashes: operations on many paths interleave, each writing
 its journal rows, side effect and state changes in its own order; a crash, a failed
 operation or a commit can come at any point, and recovery can be interrupted.

 `gone` is ghost: the paths whose delete was applied and that got no new record since.
*/
module CrashRuns {
  import opened Wrappers
  import opened Paths
  import opened Records
  import opened Persistence
  import opened Journal

  /** Where the operation on one path is. */
  datatype Operation = Operation(kind: Kind, stage: Stage, applied: bool, cleared: bool)

  /** `memory` is there while a cycle runs; `ops` are the operations of that cycle. */
  datatype World = World(disk: Disk, memory: Option<Memory>, ops: map<string, Operation>, gone: set<string>)

  datatype Step =
    | Recover
    | InterruptedRecovery(left: Disk)
    | WriteRow(path: string, kind: Kind, stage: Stage, row: Blob)
    | Apply(path: string)
    | Clear(path: string)
    | DropRow(path: string)
    | Write(path: string, memory: Memory)
    | Tombstone(rows: Table)
    | Commit(pageToken: Option<string>, cleanup: seq<string>)
    | Crash

  predicate Running(w: World) {
    w.memory.Some?
  }

  /** The order in which an operation writes its stages. */
  predicate MayJournal(w: World, path: string, kind: Kind, stage: Stage) {
    match stage
    case Planned => path !in w.ops
    case SideEffectStarted => path in w.ops && w.ops[path].kind == kind && w.ops[path].stage.Planned?
    case SideEffectDone =>
      && path in w.ops && w.ops[path].kind == kind && w.ops[path].stage.SideEffectStarted?
      && (kind.Deletes() ==> w.ops[path].applied)
    case MetadataCommitted =>
      && path in w.ops && w.ops[path].kind == kind
      && (kind.Deletes() ==> w.ops[path].stage.SideEffectDone? && w.ops[path].cleared)
  }

  function CommittedKeys(c: Coding, pending: Table): set<string> {
    set k | k in pending && c.ops.decode(pending[k]).Some? && c.ops.decode(pending[k]).value.stage.MetadataCommitted?
  }

  /** The rows that record `op` at some time of writing. */
  ghost predicate RowRecords(c: Coding, row: Blob, kind: Kind, stage: Stage) {
    exists t :: c.ops.encode(PendingOp(kind, stage, t)) == Some(row)
  }

  predicate DeletePending(w: World, path: string) {
    path in w.ops && w.ops[path].kind.Deletes()
  }

  ghost predicate Next(c: Coding, w: World, step: Step, w': World) {
    match step
    case Recover =>
      !Running(w)
      && w' == w.(disk := Recovered(c, w.disk), ops := map[],
                  memory := Some(Forget(LoadedMemory(c.tables, w.disk), PurgeKeys(c, w.disk.pendingOps))))
    case InterruptedRecovery(left) => !Running(w) && MayLeave(c, w.disk, left) && w' == w.(disk := left)
    case WriteRow(path, kind, stage, row) =>
      && Running(w) && IsSafeNonEmpty(path) && MayJournal(w, path, kind, stage) && RowRecords(c, row, kind, stage)
      && var op := if stage.Planned? then Operation(kind, stage, false, false) else w.ops[path].(stage := stage);
         w' == w.(disk := w.disk.(pendingOps := w.disk.pendingOps[path := row]), ops := w.ops[path := op])
    case Apply(path) =>
      && Running(w) && DeletePending(w, path) && w.ops[path].stage.SideEffectStarted? && !w.ops[path].applied
      && w' == w.(ops := w.ops[path := w.ops[path].(applied := true)], gone := w.gone + {path})
    case Clear(path) =>
      && Running(w) && DeletePending(w, path) && w.ops[path].stage.SideEffectDone?
      && w' == w.(memory := Some(Forget(w.memory.value, {path})), ops := w.ops[path := w.ops[path].(cleared := true)])
    case DropRow(path) =>
      && Running(w) && path in w.ops && !w.ops[path].applied
      && w' == w.(disk := w.disk.(pendingOps := w.disk.pendingOps - {path}), ops := w.ops - {path})
    case Write(path, memory) =>
      && Running(w) && !DeletePending(w, path)
      && memory.records - {path} == w.memory.value.records - {path}
      && w' == w.(memory := Some(memory), gone := if path in memory.records then w.gone - {path} else w.gone)
    case Tombstone(rows) => w' == w.(disk := w.disk.(tombstones := rows))
    case Commit(pageToken, cleanup) =>
      && Running(w) && (set k | k in cleanup) == CommittedKeys(c, w.disk.pendingOps)
      && w' == w.(disk := Persisted(c.tables, w.memory.value, w.disk, pageToken, cleanup), memory := None, ops := map[])
    case Crash => w' == w.(memory := None, ops := map[])
  }

  ghost predicate IsRun(c: Coding, run: seq<World>, steps: seq<Step>) {
    && |run| == |steps| + 1 && !Running(run[0]) && run[0].ops == map[] && run[0].gone == {}
    && forall i :: 0 <= i < |steps| ==> Next(c, run[i], steps[i], run[i + 1])
  }

  // --------------------------------------------------------------------- invariant

  predicate HasRecord(c: Coding, d: Disk, path: string) {
    path in LoadedMemory(c.tables, d).records
  }

  predicate RowPurges(c: Coding, d: Disk, path: string) {
    path in d.pendingOps && PurgesRow(c, path, d.pendingOps[path])
  }

  /**
   On disk, only a purging row may stand beside the record of an applied delete. In
   memory, such a record belongs to an operation that has still to clear it.
  */
  ghost predicate PathOk(c: Coding, w: World, p: string) {
    && (p in w.ops ==> Running(w) && OpOk(c, w, p, w.ops[p]))
    && (p in w.gone && HasRecord(c, w.disk, p) ==>
          RowPurges(c, w.disk, p) && (Running(w) ==> DeletePending(w, p) && w.ops[p].applied))
    && (p in w.gone && w.memory.Some? && p in w.memory.value.records ==>
          DeletePending(w, p) && w.ops[p].applied && !w.ops[p].cleared)
  }

  /** The row of an operation, and how far it can be. */
  ghost predicate OpOk(c: Coding, w: World, p: string, op: Operation) {
    && IsSafeNonEmpty(p) && p in w.disk.pendingOps && RowRecords(c, w.disk.pendingOps[p], op.kind, op.stage)
    && (op.kind.Deletes() && op.applied ==> !op.stage.Planned?)
    && (op.kind.Deletes() && op.stage.MetadataCommitted? ==> op.cleared)
    && (op.cleared ==> op.stage.SideEffectDone? || op.stage.MetadataCommitted?)
  }

  ghost predicate Inv(c: Coding, w: World) {
    forall p :: PathOk(c, w, p)
  }

  lemma RowOf(c: Coding, row: Blob, kind: Kind, stage: Stage)
    requires c.Lawful() && RowRecords(c, row, kind, stage)
    ensures c.ops.decode(row).Some?
    ensures c.ops.decode(row).value.kind == kind && c.ops.decode(row).value.stage == stage
  {
    var t :| c.ops.encode(PendingOp(kind, stage, t)) == Some(row);
  }

  /** The row of a delete that got past its first stage purges. */
  lemma DeleteRowPurges(c: Coding, w: World, p: string)
    requires c.Lawful() && p in w.ops && OpOk(c, w, p, w.ops[p])
    ensures w.ops[p].kind.Deletes() && !w.ops[p].stage.Planned? ==> RowPurges(c, w.disk, p)
    ensures p in CommittedKeys(c, w.disk.pendingOps) <==> w.ops[p].stage.MetadataCommitted?
  {
    hide IsSafeNonEmpty;
    RowOf(c, w.disk.pendingOps[p], w.ops[p].kind, w.ops[p].stage);
  }

  // ------------------------------------------------------------------------- steps

  lemma RecoverKeeps(c: Coding, w: World, w': World, p: string)
    requires c.Lawful() && PathOk(c, w, p) && Next(c, w, Recover, w')
    ensures PathOk(c, w', p) && (p in w.gone ==> p !in w'.memory.value.records)
  {
    RecoveryDropsExactlyPurged(c, w.disk, p);
    assert p in PurgeKeys(c, w.disk.pendingOps) <==> RowPurges(c, w.disk, p);
    hide Recovered, LoadedMemory, RowPurges, PurgeKeys, OpOk;
  }

  lemma InterruptedRecoveryKeeps(c: Coding, w: World, left: Disk, p: string)
    requires c.Lawful() && PathOk(c, w, p) && MayLeave(c, w.disk, left) && !Running(w)
    ensures PathOk(c, w.(disk := left), p)
  {
    var purged := PurgeKeys(c, w.disk.pendingOps);
    assert p in purged <==> RowPurges(c, w.disk, p);
    if Discarded(c, w.disk, left) {
      SameTables(c, w.disk, left);
      assert p in purged ==> RowPurges(c, left, p);
    } else {
      if HasRecord(c, left, p) { LeftBehind(c, w.disk, left, p); }
    }
    hide LoadedMemory, RowPurges, Persisted, PurgeKeys;
  }

  lemma LeftBehind(c: Coding, d: Disk, left: Disk, p: string)
    requires c.Lawful() && Saved(c, d, left) && HasRecord(c, left, p)
    ensures HasRecord(c, d, p) && !RowPurges(c, d, p)
  {
    var purged := PurgeKeys(c, d.pendingOps);
    var m := Forget(LoadedMemory(c.tables, d), purged);
    SaveLoadRoundTrip(c.tables, m, d, None, []);
    SameTables(c, Persisted(c.tables, m, d, None, []), left);
    assert RowPurges(c, d, p) ==> p in purged;
    hide PurgesRow, Persisted, LoadedMemory, PathRows, SessionRows, FolderRows, PurgeKeys;
  }

  lemma SameTables(c: Coding, d: Disk, d': Disk)
    requires d' == d.(pendingOps := d'.pendingOps, tombstones := d'.tombstones)
    ensures LoadedMemory(c.tables, d') == LoadedMemory(c.tables, d)
  {
    hide Loaded, PathRows, SessionRows, FolderRows;
  }

  lemma CommitKeeps(c: Coding, w: World, w': World, token: Option<string>, cleanup: seq<string>, p: string)
    requires c.Lawful() && PathOk(c, w, p) && Next(c, w, Commit(token, cleanup), w')
    ensures PathOk(c, w', p)
  {
    var m, keys := w.memory.value, CommittedKeys(c, w.disk.pendingOps);
    assert w'.disk.pendingOps == w.disk.pendingOps - keys;
    hide LoadedMemory, PurgesRow, CommittedKeys, Persisted, RowRecords, IsSafeNonEmpty;
    if p in w.gone && HasRecord(c, w'.disk, p) {
      SavedRecordWasInMemory(c.tables, m, w.disk, token, cleanup, p);
      DeleteRowPurges(c, w, p);
    }
  }

  lemma SavedRecordWasInMemory(f: Format, m: Memory, d: Disk, token: Option<string>, cleanup: seq<string>, p: string)
    requires FaithfulFormat(f) && p in LoadedMemory(f, Persisted(f, m, d, token, cleanup)).records
    ensures p in m.records
  {
    SaveLoadRoundTrip(f, m, d, token, cleanup);
    hide Persisted, LoadedMemory, PathRows, SessionRows, FolderRows;
  }

  lemma WriteRowKeeps(c: Coding, w: World, step: Step, w': World, p: string)
    requires c.Lawful() && PathOk(c, w, p) && step.WriteRow? && Next(c, w, step, w')
    ensures PathOk(c, w', p)
  {
    SameTables(c, w.disk, w'.disk);
    hide LoadedMemory, IsSafeNonEmpty, RowRecords, PurgesRow;
    if p == step.path {
      assert OpOk(c, w', p, w'.ops[p]);
      DeleteRowPurges(c, w', p);
    }
  }

  lemma OperationKeeps(c: Coding, w: World, step: Step, w': World, p: string)
    requires c.Lawful() && PathOk(c, w, p) && (step.Apply? || step.Clear? || step.DropRow?) && Next(c, w, step, w')
    ensures PathOk(c, w', p)
  {
    SameTables(c, w.disk, w'.disk);
    hide LoadedMemory, IsSafeNonEmpty, RowRecords, PurgesRow;
    if p in w.ops { DeleteRowPurges(c, w, p); }
  }

  lemma WriteKeeps(c: Coding, w: World, step: Step, w': World, p: string)
    requires PathOk(c, w, p) && step.Write? && Next(c, w, step, w')
    ensures PathOk(c, w', p)
  {
    hide HasRecord, RowPurges, OpOk;
    if p in w.ops { SameOp(c, w, w', p); }
    assert p != step.path ==> (p in step.memory.records <==> p in step.memory.records - {step.path});
  }

  lemma TombstoneKeeps(c: Coding, w: World, step: Step, w': World, p: string)
    requires PathOk(c, w, p) && step.Tombstone? && Next(c, w, step, w')
    ensures PathOk(c, w', p)
  {
    SameTables(c, w.disk, w'.disk);
    hide LoadedMemory, PurgesRow, RowRecords, IsSafeNonEmpty;
  }

  lemma SameOp(c: Coding, w: World, w': World, p: string)
    requires w.disk == w'.disk && p in w.ops
    ensures OpOk(c, w', p, w.ops[p]) == OpOk(c, w, p, w.ops[p])
  {
  }

  lemma NextKeeps(c: Coding, w: World, step: Step, w': World, p: string)
    requires c.Lawful() && PathOk(c, w, p) && Next(c, w, step, w')
    ensures PathOk(c, w', p)
  {
    match step
    case Recover => RecoverKeeps(c, w, w', p);
    case InterruptedRecovery(left) => InterruptedRecoveryKeeps(c, w, left, p);
    case WriteRow(_, _, _, _) => WriteRowKeeps(c, w, step, w', p);
    case Commit(token, cleanup) => CommitKeeps(c, w, w', token, cleanup, p);
    case Write(_, _) => WriteKeeps(c, w, step, w', p);
    case Tombstone(_) => TombstoneKeeps(c, w, step, w', p);
    case Crash => hide HasRecord, RowPurges, OpOk;
    case _ => OperationKeeps(c, w, step, w', p);
  }

  lemma {:induction false} RunKeepsInv(c: Coding, run: seq<World>, steps: seq<Step>, n: nat)
    requires c.Lawful() && IsRun(c, run, steps) && n <= |steps|
    ensures Inv(c, run[n])
  {
    hide Next, HasRecord, RowPurges, OpOk;
    if n > 0 {
      RunKeepsInv(c, run, steps, n - 1);
      forall p ensures PathOk(c, run[n], p) {
        assert PathOk(c, run[n - 1], p) && Next(c, run[n - 1], steps[n - 1], run[n]);
        NextKeeps(c, run[n - 1], steps[n - 1], run[n], p);
      }
    }
  }

  // ------------------------------------------------------------------ main result

  /**
   Whatever crashed and however often: when a cycle comes to decide, it has no record of
   a path whose delete was applied and that was not recorded anew.
  */
  lemma NoDecisionUsesADeletedRecord(c: Coding, run: seq<World>, steps: seq<Step>, n: nat, path: string)
    requires c.Lawful() && IsRun(c, run, steps) && n < |steps| && steps[n].Recover?
    requires path in run[n + 1].gone
    ensures Running(run[n + 1]) && path !in run[n + 1].memory.value.records
  {
    hide PathOk, LoadedMemory, PurgeKeys, Recovered;
    RunKeepsInv(c, run, steps, n);
    assert PathOk(c, run[n], path) && Next(c, run[n], steps[n], run[n + 1]);
    RecoverKeeps(c, run[n], run[n + 1], path);
  }

  /**
   Between cycles a record of an applied delete can only stand beside a journal row that
   purges it, so a record without such a row is of a delete that never ran.
  */
  lemma SurvivingRecordWasNotDeleted(c: Coding, run: seq<World>, steps: seq<Step>, n: nat, path: string)
    requires c.Lawful() && IsRun(c, run, steps) && n <= |steps|
    requires HasRecord(c, run[n].disk, path) && !RowPurges(c, run[n].disk, path)
    ensures path !in run[n].gone
  {
    hide HasRecord, RowPurges, Next;
    RunKeepsInv(c, run, steps, n);
    assert PathOk(c, run[n], path);
  }

  // ------------------------------------------------- completed transfers are not undone

  /** The stored record of the path, which recovery has no reason to drop. */
  predicate Kept(c: Coding, d: Disk, path: string, record: SyncRecord) {
    && HasRecord(c, d, path) && LoadedMemory(c.tables, d).records[path] == record
    && (path in d.pendingOps ==> !Untrusted(c, d.pendingOps[path]))
  }

  lemma KeptThroughRecovery(c: Coding, d: Disk, path: string, record: SyncRecord)
    requires c.Lawful() && Kept(c, d, path, record)
    ensures Kept(c, Recovered(c, d), path, record)
    ensures var m := Forget(LoadedMemory(c.tables, d), PurgeKeys(c, d.pendingOps));
            path in m.records && m.records[path] == record
  {
    RecoveryKeepsTrusted(c, d, path);
    RecoveredIsClean(c, d);
    RecoveryDropsExactlyPurged(c, d, path);
    assert path in PurgeKeys(c, d.pendingOps) <==> RowPurges(c, d, path);
    hide LoadedMemory, Untrusted, PurgesRow, Recovered, PurgeKeys;
  }

  lemma KeptThroughInterruption(c: Coding, d: Disk, left: Disk, path: string, record: SyncRecord)
    requires c.Lawful() && Kept(c, d, path, record) && MayLeave(c, d, left)
    ensures Kept(c, left, path, record)
  {
    if Discarded(c, d, left) {
      SameTables(c, d, left);
      hide LoadedMemory, Untrusted, PurgesRow;
    } else {
      KeptThroughRecovery(c, d, path, record);
      SavedIsRecovered(c, d, left);
      TrustedIsNotPurged(c, path, d.pendingOps);
      hide LoadedMemory, Untrusted, PurgesRow, Recovered, PurgeKeys, Persisted;
    }
  }

  lemma TrustedIsNotPurged(c: Coding, path: string, pending: Table)
    requires path in pending ==> !Untrusted(c, pending[path])
    ensures path !in PurgeKeys(c, pending)
  {
    hide IsSafeNonEmpty;
  }

  lemma SavedIsRecovered(c: Coding, d: Disk, left: Disk)
    requires Saved(c, d, left)
    ensures LoadedMemory(c.tables, left) == LoadedMemory(c.tables, Recovered(c, d))
  {
    hide LoadedMemory, PurgeKeys, Persisted;
    var clean := Persisted(c.tables, Forget(LoadedMemory(c.tables, d), PurgeKeys(c, d.pendingOps)), d, None, []);
    SameTables(c, clean, left);
    SameTables(c, clean, Recovered(c, d));
  }

  /** Nothing but the next commit and the next operation on the path touches it. */
  predicate Untouched(step: Step, path: string) {
    !step.Commit? && !(step.WriteRow? && step.path == path)
  }

  lemma KeptThroughStep(c: Coding, w: World, step: Step, w': World, path: string, record: SyncRecord)
    requires c.Lawful() && Kept(c, w.disk, path, record) && Next(c, w, step, w') && Untouched(step, path)
    ensures Kept(c, w'.disk, path, record)
    ensures step.Recover? ==>
              var m := w'.memory; m.Some? && path in m.value.records && m.value.records[path] == record
  {
    match step
    case Recover => KeptThroughRecovery(c, w.disk, path, record); hide Kept, LoadedMemory, Recovered, PurgeKeys;
    case InterruptedRecovery(left) => KeptThroughInterruption(c, w.disk, left, path, record); hide Kept, MayLeave;
    case Write(_, _) =>
    case Crash =>
    case Apply(_) =>
    case Clear(_) =>
    case _ => SameTables(c, w.disk, w'.disk); hide LoadedMemory, Untrusted, RowRecords, IsSafeNonEmpty;
  }

  lemma {:induction false} KeptThroughRun(
    c: Coding, run: seq<World>, steps: seq<Step>, n: nat, m: nat, path: string, record: SyncRecord)
    requires c.Lawful() && IsRun(c, run, steps) && n <= m <= |steps|
    requires Kept(c, run[n].disk, path, record) && forall i :: n <= i < m ==> Untouched(steps[i], path)
    ensures Kept(c, run[m].disk, path, record)
    ensures m > n && steps[m - 1].Recover? ==>
              var memory := run[m].memory;
              memory.Some? && path in memory.value.records && memory.value.records[path] == record
  {
    hide Next, Kept;
    if m > n {
      KeptThroughRun(c, run, steps, n, m - 1, path, record);
      KeptThroughStep(c, run[m - 1], steps[m - 1], run[m], path, record);
    }
  }

  /**
   Once an upload or a download is past its side effect, the stored record of its path
   survives every crash: until the next commit, whatever other operations, crashes and
   interrupted recoveries come in between, recovery gives that record back.
  */
  lemma CompletedTransferSurvives(c: Coding, run: seq<World>, steps: seq<Step>, n: nat, m: nat, path: string)
    requires c.Lawful() && IsRun(c, run, steps) && n < m <= |steps| && steps[m - 1].Recover?
    requires path in run[n].ops && run[n].ops[path].kind in {OpUpload, OpDownload}
    requires run[n].ops[path].stage in {SideEffectDone, MetadataCommitted}
    requires path in LoadedMemory(c.tables, run[n].disk).records
    requires forall i :: n <= i < m ==> Untouched(steps[i], path)
    ensures var (record, memory) := (LoadedMemory(c.tables, run[n].disk).records[path], run[m].memory);
            memory.Some? && path in memory.value.records && memory.value.records[path] == record
  {
    hide Next, LoadedMemory, OpOk, IsSafeNonEmpty;
    RunKeepsInv(c, run, steps, n);
    assert PathOk(c, run[n], path);
    CompletedIsTrusted(c, run[n], path);
    KeptThroughRun(c, run, steps, n, m, path, LoadedMemory(c.tables, run[n].disk).records[path]);
  }

  lemma CompletedIsTrusted(c: Coding, w: World, path: string)
    requires c.Lawful() && path in w.ops && OpOk(c, w, path, w.ops[path])
    requires w.ops[path].kind in {OpUpload, OpDownload} && w.ops[path].stage in {SideEffectDone, MetadataCommitted}
    ensures path in w.disk.pendingOps && !Untrusted(c, w.disk.pendingOps[path])
  {
    hide IsSafeNonEmpty;
    RowOf(c, w.disk.pendingOps[path], w.ops[path].kind, w.ops[path].stage);
  }
}
