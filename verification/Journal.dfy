/**
 The crash journal. Recovery can be interrupted at every write and still ends in the
 same database, and no decision ever uses the record of a delete that was applied.
*/
module Journal {
  import opened Wrappers
  import opened Paths
  import opened Records
  import opened Persistence

  datatype Kind = OpUpload | OpDownload | OpDeleteLocal | OpDeleteRemote {
    predicate Deletes() {
      OpDeleteLocal? || OpDeleteRemote?
    }
  }

  datatype Stage = Planned | SideEffectStarted | SideEffectDone | MetadataCommitted

  datatype PendingOp = PendingOp(kind: Kind, stage: Stage, updatedAt: Instant)

  ghost predicate Reencodes<V>(c: Codec<V>) {
    forall b: Blob :: c.decode(b).Some? ==> c.encode(c.decode(b).value).Some?
  }

  /** The encodings of the database; what was decoded can be encoded again. */
  datatype Coding = Coding(tables: Format, ops: Codec<PendingOp>) {
    ghost predicate Lawful() {
      && FaithfulFormat(tables) && Faithful(ops)
      && Reencodes(tables.records)
      && Reencodes(tables.conversions)
      && Reencodes(tables.sessions)
      && Reencodes(tables.utf8)
    }
  }

  // --------------------------------------------------------------------- recovery

  predicate Purges(op: PendingOp) {
    op.stage.SideEffectStarted? || (op.kind.Deletes() && !op.stage.Planned?)
  }

  /** Rows whose path state recovery discards. Every other row is dropped at once. */
  predicate PurgesRow(c: Coding, key: string, row: Blob) {
    IsSafeNonEmpty(key) && c.ops.decode(row).Some? && Purges(c.ops.decode(row).value)
  }

  function PurgeKeys(c: Coding, pending: Table): set<string> {
    set k | k in pending && PurgesRow(c, k, pending[k])
  }

  function Forget(m: Memory, keys: set<string>): Memory {
    m.(records := m.records - keys, conversions := m.conversions - keys, uploadSessions := m.uploadSessions - keys)
  }

  /** What a complete recovery makes of the database. */
  function Recovered(c: Coding, d: Disk): Disk {
    var purged := PurgeKeys(c, d.pendingOps);
    if purged == {} then d.(pendingOps := map[])
    else Persisted(c.tables, Forget(LoadedMemory(c.tables, d), purged), d, None, []).(pendingOps := map[])
  }

  /** Some rows that purge nothing are gone. */
  predicate Discarded(c: Coding, d: Disk, d': Disk) {
    && d'.pendingOps.Keys <= d.pendingOps.Keys
    && (forall k :: k in d'.pendingOps ==> d'.pendingOps[k] == d.pendingOps[k])
    && PurgeKeys(c, d.pendingOps) <= d'.pendingOps.Keys
    && d' == d.(pendingOps := d'.pendingOps)
  }

  /** The purged state is saved; some of the purging rows are still there. */
  predicate Saved(c: Coding, d: Disk, d': Disk) {
    var purged := PurgeKeys(c, d.pendingOps);
    && purged != {}
    && d'.pendingOps.Keys <= purged
    && (forall k :: k in d'.pendingOps ==> d'.pendingOps[k] == d.pendingOps[k])
    && d' == Persisted(c.tables, Forget(LoadedMemory(c.tables, d), purged), d, None, []).(pendingOps := d'.pendingOps)
  }

  predicate MayLeave(c: Coding, d: Disk, d': Disk) {
    Discarded(c, d, d') || Saved(c, d, d')
  }

  /** Every durable state since `before` is one that recovery from `d` may leave. */
  ghost predicate Leaves(c: Coding, d: Disk, before: seq<Disk>, after: seq<Disk>) {
    && |before| <= |after| && after[..|before|] == before
    && forall i :: |before| <= i < |after| ==> MayLeave(c, d, after[i])
  }

  lemma LeavesNext(c: Coding, d: Disk, before: seq<Disk>, after: seq<Disk>, next: Disk)
    requires Leaves(c, d, before, after) && MayLeave(c, d, next)
    ensures Leaves(c, d, before, after + [next])
  {
    hide MayLeave;
  }

  lemma LeavesNothing(c: Coding, d: Disk, before: seq<Disk>)
    ensures Leaves(c, d, before, before)
  {
  }

  lemma LeavesBoth(c: Coding, d: Disk, a: seq<Disk>, b: seq<Disk>, e: seq<Disk>)
    requires Leaves(c, d, a, b) && Leaves(c, d, b, e)
    ensures Leaves(c, d, a, e)
  {
    hide MayLeave;
    assert e[..|b|][..|a|] == e[..|a|];
  }

  lemma PersistedPending(f: Format, m: Memory, d: Disk, pending: Table)
    ensures Persisted(f, m, d.(pendingOps := pending), None, []) == Persisted(f, m, d, None, []).(pendingOps := pending)
  {
    hide Storable, PathRows, SessionRows, FolderRows;
    assert (set k: string | k in []) == {};
  }

  function Only(t: Table, keys: set<string>): Table {
    map k | k in t && k in keys :: t[k]
  }

  lemma OnlyWithout(t: Table, keys: set<string>, k: string)
    ensures Only(t, keys) - {k} == Only(t, keys - {k})
    ensures t.Keys <= keys ==> Only(t, keys) == t
  {
  }

  lemma OnlyDiscarded(c: Coding, d: Disk, keys: set<string>)
    requires PurgeKeys(c, d.pendingOps) <= keys
    ensures Discarded(c, d, d.(pendingOps := Only(d.pendingOps, keys)))
  {
    hide PurgesRow;
  }

  lemma ForgetNext(m: Memory, keys: set<string>, k: string)
    ensures Forget(Forget(m, keys), {k}) == Forget(m, keys + {k}) && Forget(m, {}) == m
  {
    assert m.records - keys - {k} == m.records - (keys + {k});
    assert m.conversions - keys - {k} == m.conversions - (keys + {k});
    assert m.uploadSessions - keys - {k} == m.uploadSessions - (keys + {k});
  }

  /** Where the first loop is when the rows of `todo` are still to be read. */
  ghost predicate Classifying(
    c: Coding, d: Disk, m0: Memory, before: seq<Disk>, todo: set<string>, recovered: set<string>, disk: Disk,
    m: Memory, durable: seq<Disk>)
  {
    && todo <= d.pendingOps.Keys
    && recovered == PurgeKeys(c, d.pendingOps) - todo
    && disk == d.(pendingOps := Only(d.pendingOps, todo + recovered))
    && m == Forget(m0, recovered)
    && Leaves(c, d, before, durable)
  }

  lemma ClassifyPurge(
    c: Coding, d: Disk, m0: Memory, before: seq<Disk>, todo: set<string>, recovered: set<string>, disk: Disk,
    m: Memory, durable: seq<Disk>,
    k: string)
    requires Classifying(c, d, m0, before, todo, recovered, disk, m, durable)
    requires k in todo && PurgesRow(c, k, d.pendingOps[k])
    ensures var m' := Memory(m.records - {k}, m.conversions - {k}, m.uploadSessions - {k}, m.folderIds);
            Classifying(c, d, m0, before, todo - {k}, recovered + {k}, disk, m', durable)
  {
    ForgetNext(m0, recovered, k);
    assert Forget(m, {k}) == Memory(m.records - {k}, m.conversions - {k}, m.uploadSessions - {k}, m.folderIds);
    hide PurgesRow, Leaves, Forget, Only;
    assert (todo - {k}) + (recovered + {k}) == todo + recovered;
    assert recovered + {k} == PurgeKeys(c, d.pendingOps) - (todo - {k});
  }

  lemma ClassifyDiscard(
    c: Coding, d: Disk, m0: Memory, before: seq<Disk>, todo: set<string>, recovered: set<string>, disk: Disk,
    m: Memory, durable: seq<Disk>,
    k: string)
    requires Classifying(c, d, m0, before, todo, recovered, disk, m, durable)
    requires k in todo && !PurgesRow(c, k, d.pendingOps[k])
    ensures var disk' := disk.(pendingOps := disk.pendingOps - {k});
            Classifying(c, d, m0, before, todo - {k}, recovered, disk', m, durable + [disk'])
  {
    var kept := (todo - {k}) + recovered;
    OnlyWithout(d.pendingOps, todo + recovered, k);
    assert todo + recovered - {k} == kept;
    assert PurgeKeys(c, d.pendingOps) <= kept;
    OnlyDiscarded(c, d, kept);
    hide PurgesRow, Forget, Only, MayLeave, Leaves;
    assert recovered == PurgeKeys(c, d.pendingOps) - (todo - {k});
    assert MayLeave(c, d,
        d.(pendingOps := Only(d.pendingOps, kept)))
        by { DiscardedMayBeLeft(c, d, d.(pendingOps := Only(d.pendingOps, kept))); }
    LeavesNext(c, d, before, durable, d.(pendingOps := Only(d.pendingOps, kept)));
  }

  lemma DiscardedMayBeLeft(c: Coding, d: Disk, d': Disk)
    requires Discarded(c, d, d')
    ensures MayLeave(c, d, d')
  {
    hide Discarded, Saved;
  }

  lemma ClassifyStart(c: Coding, d: Disk, m0: Memory, before: seq<Disk>)
    ensures Classifying(c, d, m0, before, d.pendingOps.Keys, {}, d, m0, before)
  {
    hide PurgesRow, MayLeave;
    OnlyWithout(d.pendingOps, d.pendingOps.Keys, "");
    ForgetNext(m0, {}, "");
    assert d.pendingOps.Keys + {} == d.pendingOps.Keys;
  }

  lemma ClassifyEnd(c: Coding, d: Disk, m0: Memory, before: seq<Disk>, recovered: set<string>, disk: Disk, m: Memory,
      durable: seq<Disk>)
    requires Classifying(c, d, m0, before, {}, recovered, disk, m, durable)
    ensures recovered == PurgeKeys(c, d.pendingOps) && disk == d.(pendingOps := Only(d.pendingOps, recovered))
    ensures m == Forget(m0, recovered) && Leaves(c, d, before, durable)
  {
    hide PurgesRow, MayLeave, Forget, Only, Leaves;
    assert {} + recovered == recovered;
  }

  /** The first loop: drops rows that purge nothing, forgets the paths of the others. */
  method ClassifyRows(session: Session, redb: Redb, c: Coding) returns (recovered: set<string>)
    requires redb.Valid()
    modifies session, redb
    ensures recovered == PurgeKeys(c, old(redb.disk.pendingOps))
    ensures redb.disk == old(redb.disk).(pendingOps := Only(old(redb.disk.pendingOps), recovered))
    ensures session.Contents() == Forget(old(session.Contents()), recovered)
    ensures Leaves(c, old(redb.disk), old(redb.durable), redb.durable)
    ensures redb.Valid()
  {
    ghost var d, m0, before := redb.disk, session.Contents(), redb.durable;
    ClassifyStart(c, d, m0, before);
    var rows := redb.disk.pendingOps;
    var todo := rows.Keys;
    recovered := {};
    hide PurgesRow, Classifying, PurgeKeys, Only, Forget, Leaves;
    while todo != {}
      invariant redb.Valid() && todo <= rows.Keys
      invariant Classifying(c, d, m0, before, todo, recovered, redb.disk, session.Contents(), redb.durable)
      decreases |todo|
    {
      var k :| k in todo;
      if PurgesRow(c, k, rows[k]) {
        ClassifyPurge(c, d, m0, before, todo, recovered, redb.disk, session.Contents(), redb.durable, k);
        session.ClearPathState(k);
        recovered := recovered + {k};
      } else {
        ClassifyDiscard(c, d, m0, before, todo, recovered, redb.disk, session.Contents(), redb.durable, k);
        redb.DeletePendingOp(k);
      }
      todo := todo - {k};
    }
    ClassifyEnd(c, d, m0, before, recovered, redb.disk, session.Contents(), redb.durable);
  }

  /** The last loop: drops the rows of the paths whose purged state was saved. */
  method FinishRows(redb: Redb, c: Coding, recovered: set<string>, ghost d: Disk)
    requires redb.Valid() && recovered == PurgeKeys(c, d.pendingOps) == redb.disk.pendingOps.Keys
    requires Saved(c, d, redb.disk)
    modifies redb
    ensures Saved(c, d, redb.disk) && redb.disk.pendingOps == map[]
    ensures Leaves(c, d, old(redb.durable), redb.durable)
    ensures redb.Valid()
  {
    LeavesNothing(c, d, redb.durable);
    hide PurgesRow, Persisted, LoadedMemory, Leaves;
    var todo := recovered;
    while todo != {}
      invariant redb.Valid() && todo <= recovered
      invariant redb.disk.pendingOps.Keys == todo && Saved(c, d, redb.disk)
      invariant Leaves(c, d, old(redb.durable), redb.durable)
      decreases |todo|
    {
      var k :| k in todo;
      LeavesNext(c, d, old(redb.durable), redb.durable, redb.disk.(pendingOps := redb.disk.pendingOps - {k}));
      redb.DeletePendingOp(k);
      todo := todo - {k};
    }
  }

  /** `recover_pending_operations`, right after the session was loaded. */
  method RecoverPendingOperations(session: Session, redb: Redb, c: Coding) returns (ok: bool)
    requires redb.Valid() && c.tables == session.format
    requires session.Contents() == LoadedMemory(c.tables, redb.disk)
    modifies session, redb
    ensures ok ==> redb.disk == Recovered(c, old(redb.disk))
    ensures session.Contents() == Forget(old(session.Contents()), PurgeKeys(c, old(redb.disk.pendingOps)))
    ensures !ok ==> !EncodableMemory(c.tables, session.Contents())
    ensures Leaves(c, old(redb.disk), old(redb.durable), redb.durable)
    ensures redb.Valid()
  {
    hide Persisted, LoadedMemory, EncodableMemory, PurgesRow, Discarded, Leaves;
    ghost var d := redb.disk;
    var recovered := ClassifyRows(session, redb, c);
    if recovered == {} {
      return true;
    }
    ghost var m, rest := session.Contents(), redb.disk.pendingOps;
    ghost var classified := redb.durable;
    ok := session.Persist(redb, None, []);
    if !ok { return; }
    PersistedPending(c.tables, m, d, rest);
    assert Saved(c, d, redb.disk) by {
      PersistedKeepsPending(c.tables, m, d.(pendingOps := rest));
    }
    LeavesNext(c, d, old(redb.durable), classified, redb.disk);
    ghost var saved := redb.durable;
    FinishRows(redb, c, recovered, d);
    LeavesBoth(c, d, old(redb.durable), saved, redb.durable);
  }

  lemma PersistedKeepsPending(f: Format, m: Memory, d: Disk)
    ensures Persisted(f, m, d, None, []).pendingOps == d.pendingOps
  {
    assert (set k: string | k in []) == {};
  }

  // ------------------------------------------------- interrupted recovery converges

  lemma DiscardedConverges(c: Coding, d: Disk, d': Disk)
    requires Discarded(c, d, d')
    ensures Recovered(c, d') == Recovered(c, d)
  {
    hide PurgesRow, Storable, Loaded, PathRows, SessionRows, FolderRows;
    assert PurgeKeys(c, d'.pendingOps) == PurgeKeys(c, d.pendingOps);
    assert LoadedMemory(c.tables, d') == LoadedMemory(c.tables, d);
  }

  /** What survives a save has no row for a forgotten path. */
  lemma ForgottenStaysForgotten(f: Format, m: Memory, purged: set<string>, keys: set<string>)
    requires keys <= purged
    ensures Forget(SurvivingMemory(f, Forget(m, purged)), keys) == SurvivingMemory(f, Forget(m, purged))
  {
    hide PathRows, SessionRows, FolderRows;
    var s := SurvivingMemory(f, Forget(m, purged));
    assert s.records - keys == s.records && s.conversions - keys == s.conversions
        && s.uploadSessions - keys == s.uploadSessions;
  }

  lemma SavedConverges(c: Coding, d: Disk, d': Disk)
    requires c.Lawful() && Saved(c, d, d')
    ensures Recovered(c, d') == Recovered(c, d)
  {
    var f, purged, rest := c.tables, PurgeKeys(c, d.pendingOps), d'.pendingOps;
    var m := Forget(LoadedMemory(f, d), purged);
    SaveLoadRoundTrip(f, m, d, None, []);
    PersistedPending(f, m, d, rest);
    var clean := Persisted(f, m, d, None, []);
    assert LoadedMemory(f, d') == LoadedMemory(f, clean) by { hide Loaded, Persisted; }
    assert PurgeKeys(c, rest) == rest.Keys;
    ForgottenStaysForgotten(f, LoadedMemory(f, d), purged, rest.Keys);
    hide LoadedMemory, SurvivingMemory, PurgesRow, Forget, PurgeKeys, Persisted, Saved;
    assert Forget(LoadedMemory(f, d'), rest.Keys) == LoadedMemory(f, clean);
    PersistedPending(f, LoadedMemory(f, clean), clean, rest);
    PersistedPending(f, LoadedMemory(f, clean), clean, map[]);
  }

  /** Interrupted anywhere and started again, recovery ends in the same database. */
  lemma {:induction false} InterruptedRecoveryConverges(c: Coding, left: seq<Disk>)
    requires c.Lawful() && left != []
    requires forall i :: 0 < i < |left| ==> MayLeave(c, left[i - 1], left[i])
    ensures Recovered(c, left[|left| - 1]) == Recovered(c, left[0])
  {
    hide MayLeave, Recovered;
    if |left| > 1 {
      var n := |left| - 1;
      var init := left[..n];
      assert forall i :: 0 <= i < n ==> init[i] == left[i];
      InterruptedRecoveryConverges(c, init);
      assert MayLeave(c, left[n - 1], left[n]);
      MayLeaveConverges(c, left[n - 1], left[n]);
    }
  }

  lemma MayLeaveConverges(c: Coding, d: Disk, d': Disk)
    requires c.Lawful() && MayLeave(c, d, d')
    ensures Recovered(c, d') == Recovered(c, d)
  {
    hide Discarded, Saved, Recovered;
    if Discarded(c, d, d') { DiscardedConverges(c, d, d'); } else { SavedConverges(c, d, d'); }
  }

  /** A complete recovery has nothing left to do. */
  lemma RecoveredIsClean(c: Coding, d: Disk)
    ensures Recovered(c, d).pendingOps == map[]
    ensures Recovered(c, Recovered(c, d)) == Recovered(c, d)
  {
    hide Persisted, LoadedMemory;
  }

  /** Recovery drops the record of a path exactly when the journal row of the path purges. */
  lemma RecoveryDropsExactlyPurged(c: Coding, d: Disk, path: string)
    requires c.Lawful()
    ensures var before, after := LoadedMemory(c.tables, d).records, LoadedMemory(c.tables, Recovered(c, d)).records;
            && (path in after <==> path in before && !(path in d.pendingOps && PurgesRow(c, path, d.pendingOps[path])))
            && (path in after ==> after[path] == before[path])
  {
    LoadedAfterRecovery(c, d);
    LoadedIsEncodable(c, d, path);
    hide LoadedMemory, Recovered, PurgesRow, PathRows, SessionRows, FolderRows;
    var purged, before := PurgeKeys(c, d.pendingOps), LoadedMemory(c.tables, d);
    assert path in purged <==> path in d.pendingOps && PurgesRow(c, path, d.pendingOps[path]);
    assert path in before.records && path !in purged ==> path in Forget(before, purged).records;
  }

  /**
   The row says that the state of its path cannot be trusted: the side effect started and
   is not known to have ended, or a delete was carried out. An upload or a download that
   got past its side effect leaves its path alone.
  */
  predicate Untrusted(c: Coding, row: Blob) {
    c.ops.decode(row).Some?
    && match c.ops.decode(row).value
       case PendingOp(_, Planned, _) => false
       case PendingOp(_, SideEffectStarted, _) => true
       case PendingOp(OpUpload, _, _) => false
       case PendingOp(OpDownload, _, _) => false
       case PendingOp(OpDeleteLocal, _, _) => true
       case PendingOp(OpDeleteRemote, _, _) => true
  }

  /** The entry of the path is the same, and is gone exactly when `dropped`. */
  predicate KeptUnless<V(==)>(dropped: bool, before: map<string, V>, after: map<string, V>, path: string) {
    && (path in after <==> path in before && !dropped)
    && (path in after ==> after[path] == before[path])
  }

  /** Recovery keeps the state of every path except those with an untrusted row. */
  lemma RecoveryKeepsTrusted(c: Coding, d: Disk, path: string)
    requires c.Lawful()
    ensures var (before, after) := (LoadedMemory(c.tables, d), LoadedMemory(c.tables, Recovered(c, d)));
            var untrusted := path in d.pendingOps && Untrusted(c, d.pendingOps[path]);
            && KeptUnless(untrusted, before.records, after.records, path)
            && KeptUnless(untrusted, before.conversions, after.conversions, path)
            && (path in after.uploadSessions ==>
                  KeptUnless(untrusted, before.uploadSessions, after.uploadSessions, path))
            && after.folderIds == before.folderIds
  {
    LoadedAfterRecovery(c, d);
    LoadedIsSafe(c, d, path);
    LoadedIsEncodable(c, d, path);
    assert IsSafeNonEmpty(path) && path in d.pendingOps ==>
             (PurgesRow(c, path, d.pendingOps[path]) <==> Untrusted(c, d.pendingOps[path])) by { hide IsSafeNonEmpty; }
    var purged, before := PurgeKeys(c, d.pendingOps), LoadedMemory(c.tables, d);
    assert path in purged <==> path in d.pendingOps && PurgesRow(c, path, d.pendingOps[path]);
    hide LoadedMemory, Recovered, PurgesRow, PathRows, SessionRows, FolderRows, Untrusted, IsSafeNonEmpty, PurgeKeys;
    FoldersSurvive(c, d, purged);
    if purged != {} { SurvivingPath(c.tables, Forget(before, purged), path); }
  }

  /** Without an untrusted row recovery only empties the journal. */
  lemma NothingToRecover(c: Coding, d: Disk)
    requires forall k :: k in d.pendingOps && IsSafeNonEmpty(k) ==> !Untrusted(c, d.pendingOps[k])
    ensures Recovered(c, d) == d.(pendingOps := map[])
  {
    hide IsSafeNonEmpty, Persisted, LoadedMemory;
  }

  lemma SurvivingPath(f: Format, m: Memory, path: string)
    ensures var s := SurvivingMemory(f, m);
            && (path in s.records <==> path in m.records && PathRows(f.records).write(path, m.records[path]).Stored?)
            && (path in s.conversions <==>
                  path in m.conversions && PathRows(f.conversions).write(path, m.conversions[path]).Stored?)
            && (path in s.uploadSessions ==> path in m.uploadSessions)
            && (path in s.records ==> s.records[path] == m.records[path])
            && (path in s.conversions ==> s.conversions[path] == m.conversions[path])
            && (path in s.uploadSessions ==> s.uploadSessions[path] == m.uploadSessions[path])
  {
    hide PathRows, SessionRows, FolderRows;
  }

  lemma FoldersSurvive(c: Coding, d: Disk, purged: set<string>)
    requires c.Lawful()
    ensures var m := LoadedMemory(c.tables, d);
            SurvivingMemory(c.tables, Forget(m, purged)).folderIds == m.folderIds
  {
    hide IsSafeNonEmpty, PathRows, SessionRows;
    var f := c.tables;
    var folders := LoadedMemory(f, d).folderIds;
    forall k | k in folders ensures FolderRows(f.utf8).write(k, folders[k]).Stored? {
      assert f.utf8.decode(d.folderIds[k]).Some?;
    }
  }

  lemma LoadedIsSafe(c: Coding, d: Disk, path: string)
    ensures var m := LoadedMemory(c.tables, d);
            path in m.records || path in m.conversions || path in m.uploadSessions ==> IsSafeNonEmpty(path)
  {
    hide IsSafeNonEmpty;
  }

  lemma LoadedAfterRecovery(c: Coding, d: Disk)
    requires c.Lawful()
    ensures var purged := PurgeKeys(c, d.pendingOps);
            LoadedMemory(c.tables, Recovered(c, d))
            == if purged == {} then LoadedMemory(c.tables, d)
                else SurvivingMemory(c.tables, Forget(LoadedMemory(c.tables, d), purged))
  {
    var purged := PurgeKeys(c, d.pendingOps);
    var m := Forget(LoadedMemory(c.tables, d), purged);
    SaveLoadRoundTrip(c.tables, m, d, None, []);
    hide Loaded, Persisted, PurgesRow, SurvivingMemory, Forget;
    assert LoadedMemory(c.tables, d.(pendingOps := map[])) == LoadedMemory(c.tables, d);
    assert LoadedMemory(c.tables, Persisted(c.tables, m, d, None, []).(pendingOps := map[]))
        == LoadedMemory(c.tables, Persisted(c.tables, m, d, None, []));
  }

  lemma LoadedIsEncodable(c: Coding, d: Disk, path: string)
    requires c.Lawful()
    ensures var m := LoadedMemory(c.tables, d);
            && (path in m.records ==> PathRows(c.tables.records).write(path, m.records[path]).Stored?)
            && (path in m.conversions ==> PathRows(c.tables.conversions).write(path, m.conversions[path]).Stored?)
  {
    hide IsSafeNonEmpty;
    var m := LoadedMemory(c.tables, d);
    if path in m.records {
      assert c.tables.records.decode(d.syncMetadata[path]) == Some(m.records[path]);
    }
    if path in m.conversions {
      assert c.tables.conversions.decode(d.conversions[path]) == Some(m.conversions[path]);
    }
  }
}
