/**
 The two delete operations as the executor runs them, write by write. Each is shown to be
 a run of the crash machine, so at every database state it leaves behind the results of
 `CrashRuns` apply.
*/
module Deletes {
  import opened Wrappers
  import opened Paths
  import opened Records
  import opened Persistence
  import opened Journal
  import opened CrashRuns

  /** The world that the delete acts on: `replies` says whether each request acts and answers. */
  class Target {
    var deleted: set<string>
    var replies: seq<(bool, bool)>

    constructor (replies: seq<(bool, bool)>)
      ensures deleted == {}
    {
      deleted := {};
      this.replies := replies;
    }

    /** Whether the next request acts, and whether it answers. */
    function NextReply(): (bool, bool) reads this {
      if replies == [] then (false, false) else replies[0]
    }

    /** A request that answers has acted; one that fails may have acted too. */
    method Trash(id: string) returns (ok: bool)
      modifies this
      ensures ok <==> old(NextReply()) == (true, true)
      ensures deleted == if old(NextReply()).0 then old(deleted) + {id} else old(deleted)
    {
      if replies == [] { return false; }
      var (acts, answers) := replies[0];
      replies := replies[1..];
      if acts { deleted := deleted + {id}; }
      ok := acts && answers;
    }

    /** A local delete that fails has not acted. */
    method Remove(id: string) returns (ok: bool)
      modifies this
      ensures ok <==> old(NextReply()).0
      ensures deleted == if ok then old(deleted) + {id} else old(deleted)
    {
      if replies == [] { return false; }
      ok := replies[0].0;
      replies := replies[1..];
      if ok { deleted := deleted + {id}; }
    }
  }

  /** A stretch of a run of the crash machine. */
  ghost predicate Trace(c: Coding, run: seq<World>, steps: seq<Step>) {
    |run| == |steps| + 1 && forall i :: 0 <= i < |steps| ==> Next(c, run[i], steps[i], run[i + 1])
  }

  lemma TraceNext(c: Coding, run: seq<World>, steps: seq<Step>, step: Step, w: World)
    requires Trace(c, run, steps) && Next(c, run[|run| - 1], step, w)
    ensures Trace(c, run + [w], steps + [step])
  {
    hide Next;
    var r, s := run + [w], steps + [step];
    forall i | 0 <= i < |s| ensures Next(c, r[i], s[i], r[i + 1]) {
      if i < |steps| { assert r[i] == run[i] && r[i + 1] == run[i + 1] && s[i] == steps[i]; }
    }
  }

  ghost predicate IsDiskOf(run: seq<World>, d: Disk) {
    exists k :: 0 <= k < |run| && run[k].disk == d
  }

  /** Every database state since `before` is one of the run. */
  ghost predicate LeavesOnly(run: seq<World>, before: seq<Disk>, after: seq<Disk>) {
    before <= after && forall i :: |before| <= i < |after| ==> IsDiskOf(run, after[i])
  }

  lemma LeavesNext(run: seq<World>, before: seq<Disk>, after: seq<Disk>, w: World)
    requires LeavesOnly(run, before, after)
    ensures LeavesOnly(run + [w], before, after) && LeavesOnly(run + [w], before, after + [w.disk])
  {
    var r, more := run + [w], after + [w.disk];
    forall d | IsDiskOf(run, d) ensures IsDiskOf(r, d) {
      var k :| 0 <= k < |run| && run[k].disk == d;
      assert r[k] == run[k];
    }
    assert r[|run|] == w && IsDiskOf(r, w.disk);
    hide IsDiskOf;
    assert forall i :: |before| <= i < |more| ==> more[i] == w.disk || (i < |after| && more[i] == after[i]);
  }

  /** The operation so far: a trace that ends in the present, and nothing else left behind. */
  ghost predicate Doing(
    c: Coding, w0: World, run: seq<World>, steps: seq<Step>, before: seq<Disk>, disk: Disk, memory: Memory,
    after: seq<Disk>)
  {
    && run != [] && Trace(c, run, steps) && run[0] == w0 && LeavesOnly(run, before, after)
    && run[|run| - 1].disk == disk && run[|run| - 1].memory == Some(memory)
  }

  lemma DoingNext(
    c: Coding, w0: World, run: seq<World>, steps: seq<Step>, before: seq<Disk>, disk: Disk, memory: Memory,
    after: seq<Disk>,
    step: Step, w: World)
    requires Doing(c, w0, run, steps, before, disk, memory, after) && Next(c, run[|run| - 1], step, w) && w.memory.Some?
    ensures Doing(c, w0, run + [w], steps + [step], before, w.disk, w.memory.value, after + [w.disk])
    ensures w.disk == disk ==> Doing(c, w0, run + [w], steps + [step], before, w.disk, w.memory.value, after)
  {
    hide Next, Trace, LeavesOnly;
    TraceNext(c, run, steps, step, w);
    LeavesNext(run, before, after, w);
    var r := run + [w];
    assert r[0] == run[0] && r[|r| - 1] == w;
  }

  // ------------------------------------------------------------------- journal rows

  /** `set_pending_op`: one row, one durable state. */
  method SetPendingOp(redb: Redb, c: Coding, path: string, kind: Kind, stage: Stage,
      now: Instant) returns (row: Option<Blob>)
    requires redb.Valid()
    modifies redb
    ensures redb.Valid()
    ensures row == c.ops.encode(PendingOp(kind, stage, now))
    ensures row.Some? ==> RowRecords(c, row.value, kind, stage)
    ensures row.Some? ==> redb.disk == old(redb.disk).(pendingOps := old(redb.disk).pendingOps[path := row.value])
                          && redb.durable == old(redb.durable) + [redb.disk]
    ensures row.None? ==> redb.disk == old(redb.disk) && redb.durable == old(redb.durable)
  {
    row := c.ops.encode(PendingOp(kind, stage, now));
    if row.None? { return; }
    redb.SetPendingOp(path, row.value);
  }

  function Last(run: seq<World>): World
    requires run != []
  {
    run[|run| - 1]
  }

  function NextOperation(w: World, path: string, kind: Kind, stage: Stage): Operation
    requires stage.Planned? || path in w.ops
  {
    if stage.Planned? then Operation(kind, stage, false, false) else w.ops[path].(stage := stage)
  }

  /** The journal row can be encoded. */
  predicate Journals(c: Coding, kind: Kind, stage: Stage, now: Instant) {
    c.ops.encode(PendingOp(kind, stage, now)).Some?
  }

  function WithRow(c: Coding, d: Disk, path: string, kind: Kind, stage: Stage, now: Instant): Disk {
    match c.ops.encode(PendingOp(kind, stage, now))
    case Some(row) => d.(pendingOps := d.pendingOps[path := row])
    case None => d
  }

  /** A row replaces the one before it, whatever tombstones were written in between. */
  lemma RowReplaces(c: Coding, d: Disk, path: string, kind: Kind, s: Stage, t: Stage, now: Instant, tombstones: Table)
    requires Journals(c, kind, t, now)
    ensures var first := WithRow(c, d, path, kind, s, now);
            && WithRow(c, first, path, kind, t, now) == WithRow(c, d, path, kind, t, now)
            && WithRow(c, first.(tombstones := tombstones), path, kind, t, now)
               == WithRow(c, d, path, kind, t, now).(tombstones := tombstones)
  {
    var first, last := WithRow(c, d, path, kind, s, now), WithRow(c, d, path, kind, t, now);
    assert WithRow(c, first, path, kind, t, now).pendingOps == last.pendingOps;
  }

  /** The last row over the row of the start. */
  lemma FinishedRow(c: Coding, d: Disk, path: string, kind: Kind, last: Stage, now: Instant, tombstones: Table)
    ensures Journals(c, kind, last, now) ==>
              var started := WithRow(c, d, path, kind, SideEffectStarted, now);
              WithRow(c, started, path, kind, last, now).(tombstones := tombstones)
              == WithRow(c, d, path, kind, last, now).(tombstones := tombstones)
  {
    if Journals(c, kind, last, now) { RowReplaces(c, d, path, kind, SideEffectStarted, last, now, tombstones); }
  }

  lemma RowDropped(c: Coding, d: Disk, path: string, kind: Kind, s: Stage, now: Instant)
    ensures var first := WithRow(c, d, path, kind, s, now);
            first.(pendingOps := first.pendingOps - {path}) == d.(pendingOps := d.pendingOps - {path})
  {
    var first := WithRow(c, d, path, kind, s, now);
    assert first.pendingOps - {path} == d.pendingOps - {path};
  }

  /** One journal write as a step of the machine. */
  method WriteStage(
    session: Session, redb: Redb, c: Coding, path: string, kind: Kind, stage: Stage, now: Instant,
    ghost w0: World, ghost run: seq<World>, ghost steps: seq<Step>, ghost before: seq<Disk>)
    returns (ok: bool, ghost run': seq<World>, ghost steps': seq<Step>)
    requires redb.Valid() && run != []
    requires Doing(c, w0, run, steps, before, redb.disk, session.Contents(), redb.durable)
    requires IsSafeNonEmpty(path) && MayJournal(Last(run), path, kind, stage)
    modifies redb
    ensures redb.Valid() && run' != []
    ensures Doing(c, w0, run', steps', before, redb.disk, session.Contents(), redb.durable)
    ensures Last(run').gone == Last(run).gone
    ensures ok <==> Journals(c, kind, stage, now)
    ensures redb.disk == if ok then WithRow(c, old(redb.disk), path, kind, stage, now) else old(redb.disk)
    ensures Last(run').ops ==
              if ok then Last(run).ops[path := NextOperation(Last(run), path, kind, stage)] else Last(run).ops
  {
    run', steps' := run, steps;
    ghost var w := Last(run);
    var row := SetPendingOp(redb, c, path, kind, stage, now);
    ok := row.Some?;
    if ok {
      ghost var op := NextOperation(w, path, kind, stage);
      ghost var w' := w.(disk := redb.disk, ops := w.ops[path := op]);
      ghost var step := WriteRow(path, kind, stage, row.value);
      assert Next(c, w, step, w');
      DoingNext(c, w0, run, steps, before, old(redb.disk), session.Contents(), old(redb.durable), step, w');
      run', steps' := run + [w'], steps + [step];
    }
  }

  /** A step that writes nothing to the database. */
  lemma QuietStep(
    c: Coding, w0: World, run: seq<World>, steps: seq<Step>, before: seq<Disk>, disk: Disk, memory: Memory,
    after: seq<Disk>,
    step: Step, w: World)
    requires Doing(c, w0, run, steps, before, disk, memory, after) && Next(c, Last(run), step, w)
    requires w.disk == disk && w.memory.Some?
    ensures Doing(c, w0, run + [w], steps + [step], before, disk, w.memory.value, after)
  {
    hide Next, Trace, LeavesOnly;
    DoingNext(c, w0, run, steps, before, disk, memory, after, step, w);
  }

  /** The rows written before the side effect. */
  predicate Starts(c: Coding, kind: Kind, now: Instant) {
    Journals(c, kind, Planned, now) && Journals(c, kind, SideEffectStarted, now)
  }

  /** The last row of a delete whose own result does not depend on it. */
  function LastStage(c: Coding, kind: Kind, now: Instant): Stage {
    if Journals(c, kind, MetadataCommitted, now) then MetadataCommitted else SideEffectDone
  }

  /** Both rows that come before the side effect. */
  method StartDelete(
    session: Session, redb: Redb, c: Coding, path: string, kind: Kind, now: Instant, ghost w0: World)
    returns (ok: bool, ghost run: seq<World>, ghost steps: seq<Step>)
    requires redb.Valid() && w0.disk == redb.disk && w0.memory == Some(session.Contents())
    requires IsSafeNonEmpty(path) && path !in w0.ops && kind.Deletes()
    modifies redb
    ensures redb.Valid() && run != []
    ensures Doing(c, w0, run, steps, old(redb.durable), redb.disk, session.Contents(), redb.durable)
    ensures ok <==> Starts(c, kind, now)
    ensures Last(run).gone == w0.gone
    ensures ok ==>
              && redb.disk == WithRow(c, old(redb.disk), path, kind, SideEffectStarted, now)
              && path in Last(run).ops && Last(run).ops[path] == Operation(kind, SideEffectStarted, false, false)
  {
    ghost var before := redb.durable;
    hide Next, LeavesOnly, Trace, Doing, Journals, WithRow;
    StartsDoing(c, w0, before);
    if Journals(c, kind, SideEffectStarted, now) {
      RowReplaces(c, redb.disk, path, kind, Planned, SideEffectStarted, now, map[]);
    }
    ok, run, steps := WriteStage(session, redb, c, path, kind, Planned, now, w0, [w0], [], before);
    if !ok { return; }
    ok, run, steps := WriteStage(session, redb, c, path, kind, SideEffectStarted, now, w0, run, steps, before);
  }

  /**
   What `run_trash_remote` writes once the request answered: the row, the tombstone, the
   cleared path, the row again.
  */
  method FinishTrash(
    session: Session, redb: Redb, c: Coding, path: string, now: Instant, tombstones: Table, ghost w0: World,
    ghost run0: seq<World>, ghost steps0: seq<Step>, ghost before: seq<Disk>)
    returns (ok: bool, ghost run: seq<World>, ghost steps: seq<Step>)
    requires redb.Valid() && run0 != [] && IsSafeNonEmpty(path)
    requires Doing(c, w0, run0, steps0, before, redb.disk, session.Contents(), redb.durable)
    requires path in Last(run0).ops && Last(run0).ops[path] == Operation(OpDeleteRemote, SideEffectStarted, true, false)
    modifies session, redb
    ensures redb.Valid() && run != []
    ensures Doing(c, w0, run, steps, before, redb.disk, session.Contents(), redb.durable)
    ensures Last(run).gone == Last(run0).gone
    ensures ok <==>
              Journals(c, OpDeleteRemote, SideEffectDone, now) && Journals(c, OpDeleteRemote, MetadataCommitted, now)
    ensures ok ==>
              && session.Contents() == Forget(old(session.Contents()), {path})
              && redb.disk
                 == WithRow(c, old(redb.disk), path, OpDeleteRemote, MetadataCommitted, now).(tombstones := tombstones)
              && path in Last(run).ops
              && Last(run).ops[path] == Operation(OpDeleteRemote, MetadataCommitted, true, true)
  {
    hide Next, LeavesOnly, Trace, Forget, Doing, Journals, WithRow;
    if Journals(c, OpDeleteRemote, MetadataCommitted, now) {
      RowReplaces(c, redb.disk, path, OpDeleteRemote, SideEffectDone, MetadataCommitted, now, tombstones);
    }
    ok, run, steps := WriteStage(session, redb, c, path, OpDeleteRemote, SideEffectDone, now, w0, run0, steps0, before);
    if !ok { return; }
    run, steps := WriteTombstone(session, redb, c, tombstones, w0, run, steps, before);
    run, steps := Cleared(session, redb, c, path, w0, run, steps, before);
    ok, run, steps := WriteStage(session, redb, c, path, OpDeleteRemote, MetadataCommitted, now, w0, run, steps,
        before);
  }

  /**
   `run_trash_remote`. Whatever fails on the way, what happened is a run of the machine; if
   the object may have been trashed the path counts as gone. It succeeds exactly when every
   row can be written and the request acts and answers, and then the state is forgotten.
  */
  method RunTrashRemote(
    session: Session, redb: Redb, drive: Target, c: Coding, path: string, remoteId: string, now: Instant,
    tombstones: Table,
    ghost w0: World)
    returns (ok: bool, ghost run: seq<World>, ghost steps: seq<Step>)
    requires redb.Valid() && w0.disk == redb.disk && w0.memory == Some(session.Contents())
    requires IsSafeNonEmpty(path) && path !in w0.ops
    modifies session, redb, drive
    ensures redb.Valid() && run != []
    ensures Doing(c, w0, run, steps, old(redb.durable), redb.disk, session.Contents(), redb.durable)
    ensures var acts := Starts(c, OpDeleteRemote, now) && old(drive.NextReply()).0;
            && drive.deleted == (if acts then old(drive.deleted) + {remoteId} else old(drive.deleted))
            && Last(run).gone == if acts then w0.gone + {path} else w0.gone
    ensures ok <==>
              && Starts(c, OpDeleteRemote, now) && old(drive.NextReply()) == (true, true)
              && Journals(c, OpDeleteRemote, SideEffectDone, now) && Journals(c, OpDeleteRemote, MetadataCommitted, now)
    ensures ok ==>
              && session.Contents() == Forget(old(session.Contents()), {path})
              && redb.disk
                 == WithRow(c, old(redb.disk), path, OpDeleteRemote, MetadataCommitted, now).(tombstones := tombstones)
              && path in Last(run).ops
              && Last(run).ops[path] == Operation(OpDeleteRemote, MetadataCommitted, true, true)
    ensures old(drive.NextReply()) != (true, true) ==> session.Contents() == old(session.Contents())
  {
    ghost var before := redb.durable;
    hide Next, LeavesOnly, Trace, Forget, Doing, Journals, Starts, WithRow;
    ok, run, steps := StartDelete(session, redb, c, path, OpDeleteRemote, now, w0);
    if !ok { return; }
    ghost var acts := drive.NextReply().0;
    ok := drive.Trash(remoteId);
    if acts {
      run, steps := Applied(c, w0, run, steps, before, redb.disk, session.Contents(), redb.durable, path);
    }
    if !ok { return; }
    FinishedRow(c, old(redb.disk), path, OpDeleteRemote, MetadataCommitted, now, tombstones);
    ok, run, steps := FinishTrash(session, redb, c, path, now, tombstones, w0, run, steps, before);
  }

  /** What a local delete writes once the file is gone; only the first row can stop it. */
  method FinishDeleteLocal(
    session: Session, redb: Redb, c: Coding, path: string, now: Instant, tombstones: Table, ghost w0: World,
    ghost run0: seq<World>, ghost steps0: seq<Step>, ghost before: seq<Disk>)
    returns (ok: bool, ghost run: seq<World>, ghost steps: seq<Step>)
    requires redb.Valid() && run0 != [] && IsSafeNonEmpty(path)
    requires Doing(c, w0, run0, steps0, before, redb.disk, session.Contents(), redb.durable)
    requires path in Last(run0).ops && Last(run0).ops[path] == Operation(OpDeleteLocal, SideEffectStarted, true, false)
    modifies session, redb
    ensures redb.Valid() && run != []
    ensures Doing(c, w0, run, steps, before, redb.disk, session.Contents(), redb.durable)
    ensures Last(run).gone == Last(run0).gone
    ensures ok <==> Journals(c, OpDeleteLocal, SideEffectDone, now)
    ensures !ok ==> redb.disk == old(redb.disk) && session.Contents() == old(session.Contents())
    ensures ok ==>
              var last := LastStage(c, OpDeleteLocal, now);
              && session.Contents() == Forget(old(session.Contents()), {path})
              && redb.disk == WithRow(c, old(redb.disk), path, OpDeleteLocal, last, now).(tombstones := tombstones)
  {
    hide Next, LeavesOnly, Trace, Forget, Doing, Journals, WithRow;
    if Journals(c, OpDeleteLocal, MetadataCommitted, now) {
      RowReplaces(c, redb.disk, path, OpDeleteLocal, SideEffectDone, MetadataCommitted, now, tombstones);
    }
    ok, run, steps := WriteStage(session, redb, c, path, OpDeleteLocal, SideEffectDone, now, w0, run0, steps0, before);
    if !ok { return; }
    run, steps := Cleared(session, redb, c, path, w0, run, steps, before);
    var committed;
    committed, run, steps := WriteStage(session, redb, c, path, OpDeleteLocal, MetadataCommitted, now, w0, run,
        steps, before);
    run, steps := WriteTombstone(session, redb, c, tombstones, w0, run, steps, before);
  }

  /** `DeleteLocal`, after its confirmation: a delete that failed drops its journal row. */
  method RunDeleteLocal(
    session: Session, redb: Redb, files: Target, c: Coding, path: string, now: Instant, tombstones: Table,
    ghost w0: World)
    returns (ok: bool, tried: bool, ghost run: seq<World>, ghost steps: seq<Step>)
    requires redb.Valid() && w0.disk == redb.disk && w0.memory == Some(session.Contents())
    requires IsSafeNonEmpty(path) && path !in w0.ops
    modifies session, redb, files
    ensures redb.Valid() && run != []
    ensures Doing(c, w0, run, steps, old(redb.durable), redb.disk, session.Contents(), redb.durable)
    ensures tried <==> Starts(c, OpDeleteLocal, now)
    ensures var acts := tried && old(files.NextReply()).0;
            && files.deleted == (if acts then old(files.deleted) + {path} else old(files.deleted))
            && Last(run).gone == (if acts then w0.gone + {path} else w0.gone)
            && (ok <==> acts && Journals(c, OpDeleteLocal, SideEffectDone, now))
    ensures tried && !old(files.NextReply()).0 ==>
              && redb.disk == old(redb.disk).(pendingOps := old(redb.disk).pendingOps - {path})
              && session.Contents() == old(session.Contents()) && path !in Last(run).ops
    ensures ok ==>
              var last := LastStage(c, OpDeleteLocal, now);
              && session.Contents() == Forget(old(session.Contents()), {path})
              && redb.disk == WithRow(c, old(redb.disk), path, OpDeleteLocal, last, now).(tombstones := tombstones)
  {
    ghost var before := redb.durable;
    hide Next, LeavesOnly, Trace, Forget, Doing, Journals, Starts, WithRow;
    ok, run, steps := StartDelete(session, redb, c, path, OpDeleteLocal, now, w0);
    tried := ok;
    if !ok { return; }
    ok := files.Remove(path);
    if !ok {
      RowDropped(c, old(redb.disk), path, OpDeleteLocal, SideEffectStarted, now);
      run, steps := Dropped(session, redb, c, path, w0, run, steps, before);
      return;
    }
    run, steps := Applied(c, w0, run, steps, before, redb.disk, session.Contents(), redb.durable, path);
    FinishedRow(c, old(redb.disk), path, OpDeleteLocal, LastStage(c, OpDeleteLocal, now), now, tombstones);
    ok, run, steps := FinishDeleteLocal(session, redb, c, path, now, tombstones, w0, run, steps, before);
  }

  lemma StartsDoing(c: Coding, w0: World, before: seq<Disk>)
    requires w0.memory.Some?
    ensures Doing(c, w0, [w0], [], before, w0.disk, w0.memory.value, before)
  {
  }

  /** The side effect as a step of the machine. */
  lemma Applied(
    c: Coding, w0: World, run: seq<World>, steps: seq<Step>, before: seq<Disk>, disk: Disk, memory: Memory,
    after: seq<Disk>, path: string)
    returns (run': seq<World>, steps': seq<Step>)
    requires run != [] && Doing(c, w0, run, steps, before, disk, memory, after)
    requires DeletePending(Last(run), path) && Last(run).ops[path].stage.SideEffectStarted?
        && !Last(run).ops[path].applied
    ensures run' != [] && Doing(c, w0, run', steps', before, disk, memory, after)
    ensures Last(run').gone == Last(run).gone + {path}
    ensures Last(run').ops == Last(run).ops[path := Last(run).ops[path].(applied := true)]
  {
    var w := Last(run);
    var w' := w.(ops := w.ops[path := w.ops[path].(applied := true)], gone := w.gone + {path});
    QuietStep(c, w0, run, steps, before, disk, memory, after, Apply(path), w');
    run', steps' := run + [w'], steps + [Apply(path)];
  }

  /** `clear_path_state`, in memory only. */
  method Cleared(
    session: Session, redb: Redb, c: Coding, path: string, ghost w0: World, ghost run: seq<World>,
    ghost steps: seq<Step>,
    ghost before: seq<Disk>)
    returns (ghost run': seq<World>, ghost steps': seq<Step>)
    requires redb.Valid() && run != []
    requires Doing(c, w0, run, steps, before, redb.disk, session.Contents(), redb.durable)
    requires DeletePending(Last(run), path) && Last(run).ops[path].stage.SideEffectDone?
    modifies session
    ensures run' != [] && Doing(c, w0, run', steps', before, redb.disk, session.Contents(), redb.durable)
    ensures Last(run').gone == Last(run).gone
    ensures Last(run').ops == Last(run).ops[path := Last(run).ops[path].(cleared := true)]
    ensures session.Contents() == Forget(old(session.Contents()), {path})
  {
    ghost var w := Last(run);
    ghost var m := session.Contents();
    session.ClearPathState(path);
    ghost var w' := w.(memory := Some(Forget(m, {path})), ops := w.ops[path := w.ops[path].(cleared := true)]);
    QuietStep(c, w0, run, steps, before, redb.disk, m, redb.durable, Clear(path), w');
    run', steps' := run + [w'], steps + [Clear(path)];
  }

  /** `write_tombstone`; its errors are ignored. */
  method WriteTombstone(
    session: Session, redb: Redb, c: Coding, tombstones: Table, ghost w0: World, ghost run: seq<World>,
    ghost steps: seq<Step>,
    ghost before: seq<Disk>)
    returns (ghost run': seq<World>, ghost steps': seq<Step>)
    requires redb.Valid() && run != []
    requires Doing(c, w0, run, steps, before, redb.disk, session.Contents(), redb.durable)
    modifies redb
    ensures redb.Valid() && run' != []
    ensures Doing(c, w0, run', steps', before, redb.disk, session.Contents(), redb.durable)
    ensures Last(run').gone == Last(run).gone && Last(run').ops == Last(run).ops
    ensures redb.disk == old(redb.disk).(tombstones := tombstones)
  {
    ghost var w := Last(run);
    redb.Commit(redb.disk.(tombstones := tombstones));
    ghost var w' := w.(disk := redb.disk);
    DoingNext(c, w0, run, steps, before, old(redb.disk), session.Contents(), old(redb.durable),
        Tombstone(tombstones), w');
    run', steps' := run + [w'], steps + [Tombstone(tombstones)];
  }

  /** `clear_pending_op` of a delete that did not happen. */
  method Dropped(
    session: Session, redb: Redb, c: Coding, path: string, ghost w0: World, ghost run: seq<World>,
    ghost steps: seq<Step>,
    ghost before: seq<Disk>)
    returns (ghost run': seq<World>, ghost steps': seq<Step>)
    requires redb.Valid() && run != []
    requires Doing(c, w0, run, steps, before, redb.disk, session.Contents(), redb.durable)
    requires path in Last(run).ops && !Last(run).ops[path].applied
    modifies redb
    ensures redb.Valid() && run' != []
    ensures Doing(c, w0, run', steps', before, redb.disk, session.Contents(), redb.durable)
    ensures Last(run').gone == Last(run).gone && Last(run').ops == Last(run).ops - {path}
    ensures redb.disk == old(redb.disk).(pendingOps := old(redb.disk).pendingOps - {path})
  {
    ghost var w := Last(run);
    redb.DeletePendingOp(path);
    ghost var w' := w.(disk := redb.disk, ops := w.ops - {path});
    DoingNext(c, w0, run, steps, before, old(redb.disk), session.Contents(), old(redb.durable), DropRow(path), w');
    run', steps' := run + [w'], steps + [DropRow(path)];
  }

  lemma {:induction false} TraceKeepsInv(c: Coding, run: seq<World>, steps: seq<Step>, k: nat)
    requires c.Lawful() && Trace(c, run, steps) && Inv(c, run[0]) && k < |run|
    ensures Inv(c, run[k])
  {
    hide Next, PathOk;
    if k > 0 {
      TraceKeepsInv(c, run, steps, k - 1);
      forall p ensures PathOk(c, run[k], p) {
        assert PathOk(c, run[k - 1], p) && Next(c, run[k - 1], steps[k - 1], run[k]);
        NextKeeps(c, run[k - 1], steps[k - 1], run[k], p);
      }
    }
  }

  ghost predicate Recoverable(c: Coding, w: World) {
    forall p :: p in w.gone && HasRecord(c, w.disk, p) ==> RowPurges(c, w.disk, p)
  }

  /**
   A crash after any write of the operation: the state left behind is one in which every
   record of an applied delete stands beside a row that purges it.
  */
  lemma CrashAnywhereIsRecoverable(
    c: Coding, w0: World, run: seq<World>, steps: seq<Step>, before: seq<Disk>, disk: Disk, memory: Memory,
    after: seq<Disk>, i: nat)
    requires c.Lawful() && Inv(c, w0) && Doing(c, w0, run, steps, before, disk, memory, after)
        && |before| <= i < |after|
    ensures exists k :: 0 <= k < |run| && run[k].disk == after[i] && Recoverable(c, run[k])
  {
    hide Next, HasRecord, RowPurges;
    assert IsDiskOf(run, after[i]);
    var k :| 0 <= k < |run| && run[k].disk == after[i];
    TraceKeepsInv(c, run, steps, k);
    forall p | p in run[k].gone && HasRecord(c, run[k].disk, p) ensures RowPurges(c, run[k].disk, p) {
      assert PathOk(c, run[k], p);
    }
  }
}
