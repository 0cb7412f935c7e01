/**
 Saving and loading the session: memory maps, database tables, one atomic commit.
 `durable` is the ghost list of every state the database file has been in, so it is
 what a crash can leave behind.
*/
module Persistence {
  import opened Wrappers
  import opened Text
  import opened Ordering
  import opened Paths
  import opened Records

  newtype byte = n: int | 0 <= n < 256
  type Blob = seq<byte>
  type Table = map<string, Blob>

  const MAX_UPLOAD_SESSION_BLOB_BYTES := 16 * 1024

  datatype UploadSessionMode =
    | Create(parentId: string, name: string)
    | Update(driveId: string)
    | Convert(driveId: string, googleMime: string)

  datatype UploadSession = UploadSession(
    mode: UploadSessionMode, sessionUrl: string, nextOffset: nat, fileSize: nat, localMd5: string, updatedAt: Instant)

  // ------------------------------------------------------------------------- rows

  /** A serializer: `encode` may fail, and `decode` reads back what `encode` wrote. */
  datatype Codec<!V> = Codec(encode: V -> Option<Blob>, decode: Blob -> Option<V>)

  ghost predicate Faithful<V(!new)>(c: Codec<V>) {
    forall v: V :: c.encode(v).Some? ==> c.decode(c.encode(v).value) == Some(v)
  }

  /** What saving does with one row. */
  datatype Written = Stored(blob: Blob) | Skipped | Failed

  datatype Rows<!V> = Rows(write: (string, V) -> Written, read: (string, Blob) -> Option<V>)

  ghost predicate ReadsBack<V(!new)>(rows: Rows<V>) {
    forall k: string, v: V :: rows.write(k, v).Stored? ==> rows.read(k, rows.write(k, v).blob) == Some(v)
  }

  function PathRows<V>(c: Codec<V>): Rows<V> {
    Rows(
      (k: string, v: V) =>
        if !IsSafeNonEmpty(k) then Skipped
        else match c.encode(v) case Some(b) => Stored(b) case None => Failed,
      (k: string, b: Blob) => if IsSafeNonEmpty(k) then c.decode(b) else None)
  }

  function SessionRows(c: Codec<UploadSession>): Rows<UploadSession> {
    Rows(
      (k: string, v: UploadSession) =>
        if !IsSafeNonEmpty(k) then Skipped
        else match c.encode(v)
             case Some(b) => if |b| > MAX_UPLOAD_SESSION_BLOB_BYTES then Skipped else Stored(b)
             case None => Failed,
      (k: string, b: Blob) => if |b| <= MAX_UPLOAD_SESSION_BLOB_BYTES && IsSafeNonEmpty(k) then c.decode(b) else None)
  }

  function FolderRows(c: Codec<string>): Rows<string> {
    Rows(
      (k: string, v: string) =>
        if !IsSafeNonEmpty(k) || Trim(v) == "" then Skipped
        else match c.encode(v) case Some(b) => Stored(b) case None => Failed,
      (k: string, b: Blob) =>
        if !IsSafeNonEmpty(k) then None
        else match c.decode(b) case Some(id) => (if Trim(id) == "" then None else Some(id)) case None => None)
  }

  // ----------------------------------------------------------------------- tables

  /** The table that stands for `memory`: exactly its storable rows. */
  function Storable<V>(rows: Rows<V>, memory: map<string, V>): Table {
    map k | k in memory && rows.write(k, memory[k]).Stored? :: rows.write(k, memory[k]).blob
  }

  function Loaded<V>(rows: Rows<V>, table: Table): map<string, V> {
    map k | k in table && rows.read(k, table[k]).Some? :: rows.read(k, table[k]).value
  }

  predicate Encodable<V>(rows: Rows<V>, memory: map<string, V>) {
    forall k :: k in memory ==> !rows.write(k, memory[k]).Failed?
  }

  /** The part of the memory that a save and a load give back. */
  function Surviving<V>(rows: Rows<V>, memory: map<string, V>): map<string, V> {
    map k | k in memory && rows.write(k, memory[k]).Stored? :: memory[k]
  }

  lemma LoadAfterSave<V(!new)>(rows: Rows<V>, memory: map<string, V>)
    requires ReadsBack(rows)
    ensures Loaded(rows, Storable(rows, memory)) == Surviving(rows, memory)
    ensures Storable(rows, Loaded(rows, Storable(rows, memory))) == Storable(rows, memory)
  {
    var table := Storable(rows, memory);
    forall k | k in table ensures rows.read(k, table[k]) == Some(memory[k]) {
      assert rows.write(k, memory[k]).Stored?;
    }
    assert Loaded(rows, table) == Surviving(rows, memory);
  }

  /** Rows to insert and keys to remove. */
  datatype Batch = Batch(upserts: seq<(string, Blob)>, stale: set<string>)

  function Upserted(table: Table, upserts: seq<(string, Blob)>): Table {
    if upserts == [] then table
    else
      var last := upserts[|upserts| - 1];
      Upserted(table, upserts[..|upserts| - 1])[last.0 := last.1]
  }

  function Applied(table: Table, batch: Batch): Table {
    Upserted(table, batch.upserts) - batch.stale
  }

  ghost predicate Writes(upserts: seq<(string, Blob)>, written: Table) {
    forall table: Table :: Upserted(table, upserts) == table + written
  }

  lemma WritesNext(upserts: seq<(string, Blob)>, written: Table, k: string, blob: Blob)
    requires Writes(upserts, written)
    ensures Writes(upserts + [(k, blob)], written[k := blob])
  {
    var next := upserts + [(k, blob)];
    assert next[..|next| - 1] == upserts;
    forall table: Table ensures Upserted(table, next) == table + written[k := blob] {
      assert Upserted(table, upserts) == table + written;
    }
  }

  /** `written` is the table of the rows already visited. */
  ghost predicate Visited<V>(rows: Rows<V>, memory: map<string, V>, todo: set<string>, written: Table) {
    && (forall k :: k in memory && k !in todo ==> !rows.write(k, memory[k]).Failed?)
    && (forall k :: k in written <==> k in memory && k !in todo && rows.write(k, memory[k]).Stored?)
    && (forall k :: k in written ==> written[k] == rows.write(k, memory[k]).blob)
  }

  lemma VisitedNext<V>(rows: Rows<V>, memory: map<string, V>, todo: set<string>, written: Table, k: string)
    requires Visited(rows, memory, todo, written) && todo <= memory.Keys && k in todo
        && !rows.write(k, memory[k]).Failed?
    ensures var w := rows.write(k, memory[k]);
            Visited(rows, memory, todo - {k}, if w.Stored? then written[k := w.blob] else written)
  {
  }

  lemma VisitedAll<V>(rows: Rows<V>, memory: map<string, V>, written: Table, upserts: seq<(string, Blob)>,
      existing: set<string>)
    requires Visited(rows, memory, {}, written) && Writes(upserts, written)
    ensures Encodable(rows, memory)
    ensures forall table: Table :: table.Keys == existing ==>
              Applied(table, Batch(upserts, existing - written.Keys)) == Storable(rows, memory)
  {
    assert written == Storable(rows, memory);
    forall table: Table | table.Keys == existing
      ensures Applied(table, Batch(upserts, existing - written.Keys)) == written
    {
      assert Upserted(table, upserts) == table + written;
    }
  }

  /** The rows to write for `memory` and the keys of `existing` that have to go. */
  method PrepareTable<V>(rows: Rows<V>, memory: map<string, V>,
      existing: set<string>) returns (r: Result<Batch, string>)
    ensures r.Ok? <==> Encodable(rows, memory)
    ensures r.Ok? ==> forall table: Table :: table.Keys == existing ==>
              Applied(table, r.value) == Storable(rows, memory)
  {
    hide Writes, Applied, Storable, Visited, Encodable;
    var upserts: seq<(string, Blob)> := [];
    var desired: set<string> := {};
    var todo := memory.Keys;
    ghost var written: Table := map[];
    NothingWritten(rows, memory);
    while todo != {}
      invariant todo <= memory.Keys
      invariant Visited(rows, memory, todo, written)
      invariant desired == written.Keys && Writes(upserts, written)
      decreases |todo|
    {
      var k :| k in todo;
      var w := rows.write(k, memory[k]);
      if w.Failed? {
        assert !Encodable(rows, memory) by { NotEncodable(rows, memory, k); }
        return Err("encode " + k);
      }
      VisitedNext(rows, memory, todo, written, k);
      if w.Stored? {
        WritesNext(upserts, written, k, w.blob);
        upserts := upserts + [(k, w.blob)];
        desired := desired + {k};
        written := written[k := w.blob];
      }
      todo := todo - {k};
    }
    VisitedAll(rows, memory, written, upserts, existing);
    r := Ok(Batch(upserts, existing - desired));
  }

  lemma NothingWritten<V>(rows: Rows<V>, memory: map<string, V>)
    ensures Writes([], map[]) && Visited(rows, memory, memory.Keys, map[])
  {
    forall table: Table ensures Upserted(table, []) == table + map[] {
    }
  }

  lemma NotEncodable<V>(rows: Rows<V>, memory: map<string, V>, k: string)
    requires k in memory && rows.write(k, memory[k]).Failed?
    ensures !Encodable(rows, memory)
  {
  }

  /** The inserts and removals of one table inside a write transaction. */
  method ApplyBatch(table: Table, batch: Batch) returns (r: Table)
    ensures r == Applied(table, batch)
  {
    r := table;
    var i := 0;
    while i < |batch.upserts|
      invariant 0 <= i <= |batch.upserts|
      invariant r == Upserted(table, batch.upserts[..i])
    {
      r := r[batch.upserts[i].0 := batch.upserts[i].1];
      i := i + 1;
      assert batch.upserts[..i][..i - 1] == batch.upserts[..i - 1];
    }
    assert batch.upserts[..i] == batch.upserts;
    var todo := batch.stale;
    while todo != {}
      invariant todo <= batch.stale
      invariant r == Upserted(table, batch.upserts) - (batch.stale - todo)
      decreases |todo|
    {
      var key :| key in todo;
      r := r - {key};
      todo := todo - {key};
    }
  }

  // ---------------------------------------------------------------------- loading

  /** The keys of readable rows that are spellings of `path`. */
  function Spellings<V>(rows: Rows<V>, table: Table, path: RelativePath): set<string> {
    set k | k in table && Normalize(k) == path && rows.read(path, table[k]).Some?
  }

  ghost predicate IsLast(k: string, keys: set<string>) {
    k in keys && forall other :: other in keys ==> StringLeq(other, k)
  }

  ghost predicate HasLastSpelling<V>(rows: Rows<V>, table: Table, path: RelativePath, v: V) {
    exists k :: IsLast(k, Spellings(rows, table, path)) && rows.read(path, table[k]) == Some(v)
  }

  /** A path is loaded when some spelling of it can be read, with the value of the last one. */
  ghost predicate LoadsTo<V>(rows: Rows<V>, table: Table, memory: map<RelativePath, V>) {
    && (forall p :: p in memory <==> Spellings(rows, table, p) != {})
    && (forall p :: p in memory ==> HasLastSpelling(rows, table, p, memory[p]))
  }

  predicate NormalKeys(table: Table) {
    forall k :: k in table ==> Normal(k)
  }

  function AfterRow<V>(rows: Rows<V>, memory: map<RelativePath, V>, k: string, blob: Blob): map<RelativePath, V> {
    var path := Normalize(k);
    match rows.read(path, blob)
    case Some(v) => memory[path := v]
    case None => memory
  }

  lemma SpellingsNext<V>(rows: Rows<V>, seen: Table, k: string, blob: Blob, path: RelativePath)
    requires k !in seen
    ensures var more := Normalize(k) == path && rows.read(path, blob).Some?;
            Spellings(rows, seen[k := blob], path)
            == if more then Spellings(rows, seen, path) + {k} else Spellings(rows, seen, path)
  {
    hide Normalize;
  }

  lemma LoadsNext<V>(rows: Rows<V>, seen: Table, memory: map<RelativePath, V>, k: string, blob: Blob)
    requires LoadsTo(rows, seen, memory) && k !in seen && StringLeq(k, k) && forall x :: x in seen ==> StringLeq(x, k)
    ensures LoadsTo(rows, seen[k := blob], AfterRow(rows, memory, k, blob))
  {
    hide Normalize, Spellings;
    var seen', memory' := seen[k := blob], AfterRow(rows, memory, k, blob);
    forall p ensures p in memory' <==> Spellings(rows, seen', p) != {} { SpellingsNext(rows, seen, k, blob, p); }
    forall p | p in memory' ensures HasLastSpelling(rows, seen', p, memory'[p]) {
      SpellingsNext(rows, seen, k, blob, p);
      LastSpellingNext(rows, seen, memory, k, blob, p);
    }
  }

  lemma LastSpellingNext<V>(
    rows: Rows<V>, seen: Table, memory: map<RelativePath, V>, k: string, blob: Blob, p: RelativePath)
    requires LoadsTo(rows, seen, memory) && k !in seen && StringLeq(k, k) && forall x :: x in seen ==> StringLeq(x, k)
    requires p in AfterRow(rows, memory, k, blob)
    ensures HasLastSpelling(rows, seen[k := blob], p, AfterRow(rows, memory, k, blob)[p])
  {
    hide Normalize, StringLeq;
    var seen' := seen[k := blob];
    SpellingsNext(rows, seen, k, blob, p);
    if Normalize(k) == p && rows.read(p, blob).Some? {
      assert IsLast(k, Spellings(rows, seen', p));
    } else {
      var last :| IsLast(last, Spellings(rows, seen, p)) && rows.read(p, seen[last]) == Some(memory[p]);
      assert IsLast(last, Spellings(rows, seen', p));
    }
  }

  /** `seen` holds the rows of the first keys. */
  ghost predicate IsPrefix(table: Table, keys: seq<string>, i: nat, seen: Table) {
    && i <= |keys| && (forall k :: k in seen <==> k in keys[..i])
    && (forall k :: k in keys ==> k in table) && (forall k :: k in seen && k in table ==> seen[k] == table[k])
  }

  lemma PrefixNext(table: Table, keys: seq<string>, i: nat, seen: Table)
    requires IsPrefix(table, keys, i, seen) && i < |keys| && StrictlyAscending(StringLeq, keys)
    ensures keys[i] in table && IsPrefix(table, keys, i + 1, seen[keys[i] := table[keys[i]]])
    ensures keys[i] !in seen && StringLeq(keys[i], keys[i]) && forall k :: k in seen ==> StringLeq(k, keys[i])
  {
    hide StringLeq;
    StringLeqTotal(keys[i], keys[i]);
    assert keys[..i + 1] == keys[..i] + [keys[i]];
  }

  lemma PrefixEnds(table: Table, keys: seq<string>, seen: Table)
    requires IsPrefix(table, keys, |keys|, seen) && forall k :: k in table ==> k in keys
    ensures seen == table
  {
    assert keys[..|keys|] == keys;
  }

  /** The keys of a table in the order in which the database lists them. */
  function KeyOrder(table: Table): (keys: seq<string>)
    ensures forall k :: k in keys <==> k in table
    ensures StrictlyAscending(StringLeq, keys)
  {
    StringOrder();
    AscendingIsSorted(StringLeq, table.Keys);
    Ascending(StringLeq, table.Keys)
  }

  method LoadTable<V>(rows: Rows<V>, table: Table) returns (memory: map<RelativePath, V>)
    ensures LoadsTo(rows, table, memory)
    ensures NormalKeys(table) ==> memory == Loaded(rows, table)
  {
    var keys := KeyOrder(table);
    hide KeyOrder, LoadsTo, Loaded, NormalKeys, StringLeq, Normalize, AfterRow, StrictlyAscending;
    memory := map[];
    ghost var seen: Table := map[];
    NothingLoaded(rows);
    var i := 0;
    while i < |keys|
      invariant IsPrefix(table, keys, i, seen) && LoadsTo(rows, seen, memory)
    {
      PrefixNext(table, keys, i, seen);
      LoadsNext(rows, seen, memory, keys[i], table[keys[i]]);
      memory := AfterRow(rows, memory, keys[i], table[keys[i]]);
      seen := seen[keys[i] := table[keys[i]]];
      hide IsPrefix;
      i := i + 1;
    }
    PrefixEnds(table, keys, seen);
    if NormalKeys(table) { NormalKeysLoadExactly(rows, table, memory); }
  }

  lemma NothingLoaded<V>(rows: Rows<V>)
    ensures LoadsTo(rows, map[], map[])
  {
  }

  /** What a table loads to is determined. */
  lemma LoadIsDetermined<V>(rows: Rows<V>, table: Table, a: map<RelativePath, V>, b: map<RelativePath, V>)
    requires LoadsTo(rows, table, a) && LoadsTo(rows, table, b)
    ensures a == b
  {
    hide HasLastSpelling, Spellings;
    assert a.Keys == b.Keys;
    forall p | p in a ensures a[p] == b[p] { LastSpellingIsOne(rows, table, p, a[p], b[p]); }
  }

  lemma LastSpellingIsOne<V>(rows: Rows<V>, table: Table, p: RelativePath, a: V, b: V)
    requires HasLastSpelling(rows, table, p, a) && HasLastSpelling(rows, table, p, b)
    ensures a == b
  {
    hide StringLeq, Normalize;
    var k :| k in table && IsLast(k, Spellings(rows, table, p)) && rows.read(p, table[k]) == Some(a);
    var l :| l in table && IsLast(l, Spellings(rows, table, p)) && rows.read(p, table[l]) == Some(b);
    StringLeqTotal(k, l);
  }

  /** Under normal keys every path has one spelling. */
  lemma NormalKeysLoadExactly<V>(rows: Rows<V>, table: Table, memory: map<RelativePath, V>)
    requires NormalKeys(table) && LoadsTo(rows, table, memory)
    ensures memory == Loaded(rows, table)
  {
    hide LoadsTo, StringLeq, Normalize;
    forall p ensures Spellings(rows, table, p) == if p in Loaded(rows, table) then {p} else {} {
      OneSpelling(rows, table, p);
    }
    assert LoadsTo(rows, table, Loaded(rows, table)) by { LoadedLoads(rows, table); }
    LoadIsDetermined(rows, table, memory, Loaded(rows, table));
  }

  lemma OneSpelling<V>(rows: Rows<V>, table: Table, p: RelativePath)
    requires NormalKeys(table)
    ensures Spellings(rows, table, p) == if p in Loaded(rows, table) then {p} else {}
  {
    hide Normalize;
    forall k | k in table ensures Normalize(k) == k { NormalizeNormal(k); }
  }

  lemma LoadedLoads<V>(rows: Rows<V>, table: Table)
    requires NormalKeys(table)
    ensures LoadsTo(rows, table, Loaded(rows, table))
  {
    hide Spellings, StringLeq, NormalKeys;
    var memory := Loaded(rows, table);
    forall p ensures p in memory <==> Spellings(rows, table, p) != {} { OneSpelling(rows, table, p); }
    forall p | p in memory ensures HasLastSpelling(rows, table, p, memory[p]) {
      OneSpelling(rows, table, p);
      StringLeqTotal(p, p);
      assert IsLast(p, Spellings(rows, table, p));
    }
  }

  // --------------------------------------------------------------------- database

  datatype Disk = Disk(
    syncMetadata: Table, conversions: Table, uploadSessions: Table, folderIds: Table,
    pageToken: Option<string>, pendingOps: Table, tombstones: Table)

  datatype SessionBatch = SessionBatch(syncMetadata: Batch, conversions: Batch, uploadSessions: Batch, folderIds: Batch)

  class Redb {
    var disk: Disk
    ghost var durable: seq<Disk>

    ghost predicate Valid() reads this {
      durable != [] && durable[|durable| - 1] == disk
    }

    constructor (disk: Disk)
      ensures Valid() && this.disk == disk && durable == [disk]
    {
      this.disk := disk;
      durable := [disk];
    }

    /** Every write transaction makes one new durable state. */
    method Commit(next: Disk)
      modifies this
      ensures disk == next && durable == old(durable) + [next] && Valid()
    {
      disk := next;
      durable := durable + [next];
    }

    method SetPendingOp(key: string, op: Blob)
      modifies this
      ensures disk == old(disk).(pendingOps := old(disk).pendingOps[key := op])
      ensures durable == old(durable) + [disk] && Valid()
    {
      Commit(disk.(pendingOps := disk.pendingOps[key := op]));
    }

    method DeletePendingOp(key: string)
      modifies this
      ensures disk == old(disk).(pendingOps := old(disk).pendingOps - {key})
      ensures durable == old(durable) + [disk] && Valid()
    {
      Commit(disk.(pendingOps := disk.pendingOps - {key}));
    }

    /** `replace_session_state_and_page_token_and_pending_cleanup`. */
    method ReplaceSessionState(batch: SessionBatch, pageToken: Option<string>, pendingCleanup: seq<string>)
      modifies this
      ensures disk == Replaced(old(disk), batch, pageToken, pendingCleanup)
      ensures durable == old(durable) + [disk] && Valid()
    {
      var syncMetadata := ApplyBatch(disk.syncMetadata, batch.syncMetadata);
      var conversions := ApplyBatch(disk.conversions, batch.conversions);
      var uploadSessions := ApplyBatch(disk.uploadSessions, batch.uploadSessions);
      var folderIds := ApplyBatch(disk.folderIds, batch.folderIds);
      var pendingOps := disk.pendingOps;
      var i := 0;
      while i < |pendingCleanup|
        invariant 0 <= i <= |pendingCleanup|
        invariant pendingOps == disk.pendingOps - (set j | 0 <= j < i :: pendingCleanup[j])
        invariant disk == old(disk) && durable == old(durable)
      {
        pendingOps := pendingOps - {pendingCleanup[i]};
        i := i + 1;
      }
      assert (set j | 0 <= j < i :: pendingCleanup[j]) == (set k | k in pendingCleanup);
      var token := if pageToken.Some? then pageToken else disk.pageToken;
      Commit(Disk(syncMetadata, conversions, uploadSessions, folderIds, token, pendingOps, disk.tombstones));
    }
  }

  function Replaced(disk: Disk, batch: SessionBatch, pageToken: Option<string>, pendingCleanup: seq<string>): Disk {
    Disk(
      Applied(disk.syncMetadata, batch.syncMetadata),
      Applied(disk.conversions, batch.conversions),
      Applied(disk.uploadSessions, batch.uploadSessions),
      Applied(disk.folderIds, batch.folderIds),
      if pageToken.Some? then pageToken else disk.pageToken,
      disk.pendingOps - (set k | k in pendingCleanup),
      disk.tombstones)
  }

  // ---------------------------------------------------------------------- session

  datatype Memory = Memory(
    records: map<string, SyncRecord>,
    conversions: map<string, WorkspaceConversion>,
    uploadSessions: map<string, UploadSession>,
    folderIds: map<string, string>)

  datatype Format = Format(
    records: Codec<SyncRecord>, conversions: Codec<WorkspaceConversion>, sessions: Codec<UploadSession>,
    utf8: Codec<string>)

  ghost predicate FaithfulFormat(f: Format) {
    Faithful(f.records) && Faithful(f.conversions) && Faithful(f.sessions) && Faithful(f.utf8)
  }

  function LoadedMemory(f: Format, disk: Disk): Memory {
    Memory(
      Loaded(PathRows(f.records), disk.syncMetadata),
      Loaded(PathRows(f.conversions), disk.conversions),
      Loaded(SessionRows(f.sessions), disk.uploadSessions),
      Loaded(FolderRows(f.utf8), disk.folderIds))
  }

  ghost predicate DiskLoadsTo(f: Format, disk: Disk, m: Memory) {
    && LoadsTo(PathRows(f.records), disk.syncMetadata, m.records)
    && LoadsTo(PathRows(f.conversions), disk.conversions, m.conversions)
    && LoadsTo(SessionRows(f.sessions), disk.uploadSessions, m.uploadSessions)
    && LoadsTo(FolderRows(f.utf8), disk.folderIds, m.folderIds)
  }

  predicate NormalDisk(disk: Disk) {
    && NormalKeys(disk.syncMetadata) && NormalKeys(disk.conversions)
    && NormalKeys(disk.uploadSessions) && NormalKeys(disk.folderIds)
  }

  function SurvivingMemory(f: Format, m: Memory): Memory {
    Memory(
      Surviving(PathRows(f.records), m.records),
      Surviving(PathRows(f.conversions), m.conversions),
      Surviving(SessionRows(f.sessions), m.uploadSessions),
      Surviving(FolderRows(f.utf8), m.folderIds))
  }

  predicate EncodableMemory(f: Format, m: Memory) {
    && Encodable(PathRows(f.records), m.records) && Encodable(PathRows(f.conversions), m.conversions)
    && Encodable(SessionRows(f.sessions), m.uploadSessions) && Encodable(FolderRows(f.utf8), m.folderIds)
  }

  /** The database after a save: the storable memory, the new cursor, the journal cleaned. */
  function Persisted(f: Format, m: Memory, disk: Disk, pageToken: Option<string>, pendingCleanup: seq<string>): Disk {
    Disk(
      Storable(PathRows(f.records), m.records),
      Storable(PathRows(f.conversions), m.conversions),
      Storable(SessionRows(f.sessions), m.uploadSessions),
      Storable(FolderRows(f.utf8), m.folderIds),
      if pageToken.Some? then pageToken else disk.pageToken,
      disk.pendingOps - (set k | k in pendingCleanup),
      disk.tombstones)
  }

  class Session {
    const format: Format
    var records: map<string, SyncRecord>
    var conversions: map<string, WorkspaceConversion>
    var uploadSessions: map<string, UploadSession>
    var folderIds: map<string, string>

    constructor (format: Format)
      ensures this.format == format && Contents() == Memory(map[], map[], map[], map[])
    {
      this.format := format;
      records, conversions, uploadSessions, folderIds := map[], map[], map[], map[];
    }

    function Contents(): Memory reads this {
      Memory(records, conversions, uploadSessions, folderIds)
    }

    /** `clear_path_state`: the record, the conversion and the upload session of a path. */
    method ClearPathState(path: string)
      modifies this
      ensures records == old(records) - {path} && conversions == old(conversions) - {path}
      ensures uploadSessions == old(uploadSessions) - {path} && folderIds == old(folderIds)
    {
      records := records - {path};
      conversions := conversions - {path};
      uploadSessions := uploadSessions - {path};
    }

    method LoadFromRedb(redb: Redb)
      modifies this
      ensures DiskLoadsTo(format, redb.disk, Contents())
      ensures NormalDisk(redb.disk) ==> Contents() == LoadedMemory(format, redb.disk)
    {
      var r := LoadTable(PathRows(format.records), redb.disk.syncMetadata);
      var c := LoadTable(PathRows(format.conversions), redb.disk.conversions);
      var u := LoadTable(SessionRows(format.sessions), redb.disk.uploadSessions);
      var f := LoadTable(FolderRows(format.utf8), redb.disk.folderIds);
      hide PathRows, SessionRows, FolderRows, LoadsTo, Loaded, NormalKeys;
      records, conversions, uploadSessions, folderIds := r, c, u, f;
    }

    method PrepareSessionStateBatch(redb: Redb) returns (r: Result<SessionBatch, string>)
      ensures r.Ok? <==> EncodableMemory(format, Contents())
      ensures r.Ok? ==> forall token, cleanup ::
                Replaced(redb.disk, r.value, token, cleanup) == Persisted(format, Contents(), redb.disk, token, cleanup)
    {
      var a := PrepareTable(PathRows(format.records), records, redb.disk.syncMetadata.Keys);
      if a.Err? { return Err(a.error); }
      var b := PrepareTable(PathRows(format.conversions), conversions, redb.disk.conversions.Keys);
      if b.Err? { return Err(b.error); }
      var c := PrepareTable(SessionRows(format.sessions), uploadSessions, redb.disk.uploadSessions.Keys);
      if c.Err? { return Err(c.error); }
      var d := PrepareTable(FolderRows(format.utf8), folderIds, redb.disk.folderIds.Keys);
      if d.Err? { return Err(d.error); }
      hide PathRows, SessionRows, FolderRows, Storable, Applied;
      r := Ok(SessionBatch(a.value, b.value, c.value, d.value));
    }

    /** One commit, or none when a row cannot be encoded. */
    method Persist(redb: Redb, pageToken: Option<string>, pendingCleanup: seq<string>) returns (ok: bool)
      requires redb.Valid()
      modifies redb
      ensures ok <==> EncodableMemory(format, Contents())
      ensures ok ==> redb.disk == Persisted(format, Contents(), old(redb.disk), pageToken, pendingCleanup)
      ensures ok ==> redb.durable == old(redb.durable) + [redb.disk]
      ensures !ok ==> redb.disk == old(redb.disk) && redb.durable == old(redb.durable)
      ensures redb.Valid()
    {
      var batch := PrepareSessionStateBatch(redb);
      if batch.Err? { return false; }
      hide Persisted, Replaced, EncodableMemory;
      redb.ReplaceSessionState(batch.value, pageToken, pendingCleanup);
      ok := true;
    }
  }

  // ------------------------------------------------------------------ main results

  lemma FormatsReadBack(f: Format)
    requires FaithfulFormat(f)
    ensures ReadsBack(PathRows(f.records)) && ReadsBack(PathRows(f.conversions))
    ensures ReadsBack(SessionRows(f.sessions)) && ReadsBack(FolderRows(f.utf8))
  {
    hide IsSafeNonEmpty, Trim;
    assert forall v :: f.records.encode(v).Some? ==> f.records.decode(f.records.encode(v).value) == Some(v);
    assert forall v :: f.conversions.encode(v).Some? ==> f.conversions.decode(f.conversions.encode(v).value) == Some(v);
    assert forall v :: f.sessions.encode(v).Some? ==> f.sessions.decode(f.sessions.encode(v).value) == Some(v);
    assert forall v :: f.utf8.encode(v).Some? ==> f.utf8.decode(f.utf8.encode(v).value) == Some(v);
  }

  /** Loading after a save gives back the storable part of the memory, and saving it again changes nothing. */
  lemma SaveLoadRoundTrip(f: Format, m: Memory, disk: Disk, token: Option<string>, cleanup: seq<string>)
    requires FaithfulFormat(f)
    ensures var saved := Persisted(f, m, disk, token, cleanup);
            && LoadedMemory(f, saved) == SurvivingMemory(f, m)
            && Persisted(f, LoadedMemory(f, saved), saved, None, []) == saved
  {
    FormatsReadBack(f);
    hide PathRows, SessionRows, FolderRows, Storable, Loaded, Surviving, ReadsBack;
    LoadAfterSave(PathRows(f.records), m.records);
    LoadAfterSave(PathRows(f.conversions), m.conversions);
    LoadAfterSave(SessionRows(f.sessions), m.uploadSessions);
    LoadAfterSave(FolderRows(f.utf8), m.folderIds);
    var saved := Persisted(f, m, disk, token, cleanup);
    assert saved.pendingOps - (set k | k in []) == saved.pendingOps;
  }

  /** Keys in memory are relative paths, so after any save the keys on disk are normal. */
  lemma SavedKeysAreNormal(f: Format, m: Memory, disk: Disk, token: Option<string>, cleanup: seq<string>)
    requires forall p :: p in m.records.Keys + m.conversions.Keys + m.uploadSessions.Keys + m.folderIds.Keys ==>
               Normal(p)
    ensures NormalDisk(Persisted(f, m, disk, token, cleanup))
  {
    hide Normal, PathRows, SessionRows, FolderRows;
  }

  /** Loading any table, whatever the spelling of its keys, gives relative paths. */
  lemma LoadedPathsAreNormal<V>(rows: Rows<V>, table: Table, memory: map<RelativePath, V>, p: RelativePath)
    requires LoadsTo(rows, table, memory) && p in memory
    ensures Normal(p)
  {
    var k :| k in Spellings(rows, table, p);
    NormalizeNormal(k);
  }

  /** One load and save collapses the spellings: what is on disk afterwards loads to the same memory again. */
  lemma SpellingsCollapse<V(!new)>(
    rows: Rows<V>, table: Table, memory: map<RelativePath, V>, again: map<RelativePath, V>)
    requires ReadsBack(rows) && LoadsTo(rows, table, memory)
    requires forall p :: p in memory ==> rows.write(p, memory[p]).Stored?
    requires LoadsTo(rows, Storable(rows, memory), again)
    ensures NormalKeys(Storable(rows, memory)) && again == memory
  {
    hide LoadsTo, ReadsBack, Normal, Loaded;
    forall p | p in memory ensures Normal(p) { LoadedPathsAreNormal(rows, table, memory, p); }
    NormalKeysLoadExactly(rows, Storable(rows, memory), again);
    LoadAfterSave(rows, memory);
  }

  // ---------------------------------------------------- what is stored, what is read

  /** Something of the id is not white space. */
  predicate Visible(s: string) {
    exists i :: 0 <= i < |s| && !IsWhitespace(s[i])
  }

  lemma {:induction false} TrimEndIsEmpty(s: string)
    ensures TrimEnd(s) == "" <==> !Visible(s)
  {
    if s != [] && IsWhitespace(s[|s| - 1]) {
      var init := s[..|s| - 1];
      TrimEndIsEmpty(init);
      assert forall i :: 0 <= i < |init| ==> init[i] == s[i];
    }
  }

  lemma {:induction false} TrimStartSame(s: string)
    ensures Visible(TrimStart(s)) <==> Visible(s)
  {
    if s != [] && IsWhitespace(s[0]) {
      var rest := s[1..];
      TrimStartSame(rest);
      assert forall i :: 0 <= i < |rest| ==> rest[i] == s[i + 1];
      assert forall i :: 0 < i < |s| ==> s[i] == rest[i - 1];
    }
  }

  lemma TrimIsEmpty(s: string)
    ensures Trim(s) == "" <==> !Visible(s)
  {
    TrimStartSame(s);
    TrimEndIsEmpty(TrimStart(s));
  }

  /**
   A save stores a row for exactly the safe paths in memory, with the encoding of what is
   in memory; an upload session only up to 16 KiB, a folder id only when it is not blank.
  */
  lemma PersistedMeaning(
    f: Format, m: Memory, disk: Disk, token: Option<string>, cleanup: seq<string>, k: string)
    requires EncodableMemory(f, m)
    ensures var saved := Persisted(f, m, disk, token, cleanup);
            && (k in saved.syncMetadata <==> k in m.records && IsSafeNonEmpty(k))
            && (k in saved.syncMetadata ==> f.records.encode(m.records[k]) == Some(saved.syncMetadata[k]))
            && (k in saved.conversions <==> k in m.conversions && IsSafeNonEmpty(k))
            && (k in saved.conversions ==> f.conversions.encode(m.conversions[k]) == Some(saved.conversions[k]))
            && (k in saved.uploadSessions <==>
                  k in m.uploadSessions && IsSafeNonEmpty(k)
                  && match f.sessions.encode(m.uploadSessions[k])
                     case Some(blob) => |blob| <= 16384
                     case None => false)
            && (k in saved.uploadSessions ==> f.sessions.encode(m.uploadSessions[k]) == Some(saved.uploadSessions[k]))
            && (k in saved.folderIds <==> k in m.folderIds && IsSafeNonEmpty(k) && Visible(m.folderIds[k]))
            && (k in saved.folderIds ==> f.utf8.encode(m.folderIds[k]) == Some(saved.folderIds[k]))
            && (saved.pageToken == if token.Some? then token else disk.pageToken)
            && (k in saved.pendingOps <==> k in disk.pendingOps && k !in cleanup)
            && (k in saved.pendingOps ==> saved.pendingOps[k] == disk.pendingOps[k])
            && saved.tombstones == disk.tombstones
  {
    hide IsSafeNonEmpty, Trim;
    if k in m.folderIds { TrimIsEmpty(m.folderIds[k]); }
    StoredRecord(f.records, m.records, k);
    StoredRecord(f.conversions, m.conversions, k);
    StoredSession(f, m.uploadSessions, k);
    StoredFolder(f, m.folderIds, k);
    hide Storable, PathRows, SessionRows, FolderRows;
  }

  lemma StoredRecord<V>(c: Codec<V>, memory: map<string, V>, k: string)
    requires Encodable(PathRows(c), memory)
    ensures var t := Storable(PathRows(c), memory);
            && (k in t <==> k in memory && IsSafeNonEmpty(k))
            && (k in t ==> c.encode(memory[k]) == Some(t[k]))
  {
    hide IsSafeNonEmpty;
  }

  lemma StoredSession(f: Format, memory: map<string, UploadSession>, k: string)
    requires Encodable(SessionRows(f.sessions), memory)
    ensures var t := Storable(SessionRows(f.sessions), memory);
            && (k in t <==>
                  k in memory && IsSafeNonEmpty(k)
                  && match f.sessions.encode(memory[k])
                     case Some(blob) => |blob| <= 16384
                     case None => false)
            && (k in t ==> f.sessions.encode(memory[k]) == Some(t[k]))
  {
    hide IsSafeNonEmpty;
  }

  lemma StoredFolder(f: Format, memory: map<string, string>, k: string)
    requires Encodable(FolderRows(f.utf8), memory)
    ensures var t := Storable(FolderRows(f.utf8), memory);
            && (k in t <==> k in memory && IsSafeNonEmpty(k) && Trim(memory[k]) != "")
            && (k in t ==> f.utf8.encode(memory[k]) == Some(t[k]))
  {
    hide IsSafeNonEmpty, Trim;
  }

  /** A save fails exactly when some row that has to be stored cannot be encoded. */
  lemma EncodableMeaning(f: Format, m: Memory)
    ensures EncodableMemory(f, m) <==>
              && (forall k :: k in m.records && IsSafeNonEmpty(k) ==> f.records.encode(m.records[k]).Some?)
              && (forall k :: k in m.conversions && IsSafeNonEmpty(k) ==> f.conversions.encode(m.conversions[k]).Some?)
              && (forall k :: k in m.uploadSessions && IsSafeNonEmpty(k) ==>
                    f.sessions.encode(m.uploadSessions[k]).Some?)
              && (forall k :: k in m.folderIds && IsSafeNonEmpty(k) && Visible(m.folderIds[k]) ==>
                    f.utf8.encode(m.folderIds[k]).Some?)
  {
    forall s: string ensures Trim(s) == "" <==> !Visible(s) { TrimIsEmpty(s); }
    hide IsSafeNonEmpty, Trim, Visible;
  }

  /** `k` is the last of the spellings of `p` whose row can be read. */
  ghost predicate IsLastReadable<V>(table: Table, p: RelativePath, k: string, decode: Blob -> Option<V>) {
    && k in table && Normalize(k) == p && decode(table[k]).Some?
    && forall other :: other in table && Normalize(other) == p && decode(table[other]).Some? ==> StringLeq(other, k)
  }

  ghost predicate ReadsTable<V>(table: Table, memory: map<RelativePath, V>, decode: Blob -> Option<V>) {
    forall p :: && (p in memory ==>
                      IsSafeNonEmpty(p)
                      && exists k :: IsLastReadable(table, p, k, decode) && decode(table[k]) == Some(memory[p]))
                && (p !in memory ==>
                      !IsSafeNonEmpty(p)
                      || forall k :: k in table && Normalize(k) == p ==> decode(table[k]).None?)
  }

  /**
   A load reads exactly the safe paths with a row that decodes, and of several spellings
   the last; an upload session only up to 16 KiB, a folder id only when it is not blank.
  */
  lemma LoadedMeaning(f: Format, disk: Disk, m: Memory)
    requires DiskLoadsTo(f, disk, m)
    ensures ReadsTable(disk.syncMetadata, m.records, f.records.decode)
    ensures ReadsTable(disk.conversions, m.conversions, f.conversions.decode)
    ensures ReadsTable(disk.uploadSessions, m.uploadSessions,
                       (b: Blob) => if |b| <= 16384 then f.sessions.decode(b) else None)
    ensures ReadsTable(disk.folderIds, m.folderIds, FolderDecode(f))
  {
    hide IsSafeNonEmpty, LoadsTo, ReadsTable;
    ReadsLikeRows(PathRows(f.records), disk.syncMetadata, m.records, f.records.decode);
    ReadsLikeRows(PathRows(f.conversions), disk.conversions, m.conversions, f.conversions.decode);
    ReadsLikeRows(SessionRows(f.sessions), disk.uploadSessions, m.uploadSessions,
                  (b: Blob) => if |b| <= 16384 then f.sessions.decode(b) else None);
    FolderRowsRead(f);
    ReadsLikeRows(FolderRows(f.utf8), disk.folderIds, m.folderIds, FolderDecode(f));
  }

  /** A folder id is read unless it is blank. */
  function FolderDecode(f: Format): Blob -> Option<string> {
    (b: Blob) => match f.utf8.decode(b)
                 case Some(id) => (if Visible(id) then Some(id) else None)
                 case None => None
  }

  lemma FolderRowsRead(f: Format)
    ensures forall p, b :: FolderRows(f.utf8).read(p, b) == if IsSafeNonEmpty(p) then FolderDecode(f)(b) else None
  {
    forall p, b ensures FolderRows(f.utf8).read(p, b) == if IsSafeNonEmpty(p) then FolderDecode(f)(b) else None {
      if f.utf8.decode(b).Some? { TrimIsEmpty(f.utf8.decode(b).value); }
      hide IsSafeNonEmpty, Trim, Visible;
    }
  }

  lemma ReadsLikeRows<V>(rows: Rows<V>, table: Table, memory: map<RelativePath, V>, decode: Blob -> Option<V>)
    requires LoadsTo(rows, table, memory)
    requires forall p, b :: rows.read(p, b) == if IsSafeNonEmpty(p) then decode(b) else None
    ensures ReadsTable(table, memory, decode)
  {
    hide IsSafeNonEmpty, StringLeq, Normalize;
    forall p | p in memory
      ensures IsSafeNonEmpty(p)
      ensures exists k :: IsLastReadable(table, p, k, decode) && decode(table[k]) == Some(memory[p])
    {
      var k :| IsLast(k, Spellings(rows, table, p)) && k in table && rows.read(p, table[k]) == Some(memory[p]);
      forall other | other in table && Normalize(other) == p && decode(table[other]).Some? ensures StringLeq(other, k) {
        assert rows.read(p, table[other]).Some?;
        assert other in Spellings(rows, table, p);
      }
      assert IsLastReadable(table, p, k, decode);
    }
    forall p, k | p !in memory && IsSafeNonEmpty(p) && k in table && Normalize(k) == p
      ensures decode(table[k]).None?
    {
      assert rows.read(p, table[k]).None? by { assert k !in Spellings(rows, table, p); }
    }
  }
}
