/**
 The incremental remote view: a view rebuilt from the records, to which a batch of Drive
 changes is applied in passes until nothing more can be placed.
*/
module RemoteView {
  import opened Wrappers
  import opened Text
  import opened Coordination
  import opened Paths
  import opened Records
  import opened Naming

  datatype DriveChange = DriveChange(fileId: string, file: Option<DriveFile>, removed: bool)

  datatype View = View(
    remote: map<RelativePath, DriveFile>, idToPath: map<string, RelativePath>, folderById: map<string, string>)

  // ------------------------------------------------------------------ path parts

  function FileName(path: RelativePath): string {
    match RSplitOnce(path, '/')
    case Some((_, name)) => name
    case None => path
  }

  function ParentPath(path: RelativePath): string {
    match RSplitOnce(path, '/')
    case Some((parent, _)) => parent
    case None => ""
  }

  // ----------------------------------------------------------------------- stubs

  function PropertiesFromRecord(r: SyncRecord): Properties {
    if r.versionVector == map[] then map[] else map[APP_PROP_VERSION_VECTOR := Print(r.versionVector)]
  }

  /** `stub_drive_file_from_record`. */
  function Stub(path: RelativePath, r: SyncRecord, root: string): Option<DriveFile> {
    match r.driveFileId
    case None => None
    case Some(id) =>
      var md5 := if r.remoteMd5.Some? && !(MTIME_PREFIX <= r.remoteMd5.value) then r.remoteMd5 else None;
      Some(DriveFile(
             id, FileName(path), r.remoteMimeType.GetOr("application/octet-stream"), md5,
             r.remoteModifiedAt.GetOr(r.lastSyncedAt), Some(r.localSize), r.remoteHeadRevisionId, r.remoteVersion,
             PropertiesFromRecord(r), [root], false))
  }

  /** The stub stands for the object as last recorded: same id, type, fingerprint, causal history. */
  lemma StubStandsForTheObject(path: RelativePath, local: LocalFile, file: DriveFile, now: Instant, root: string)
    requires PlainChecksum(file)
    ensures var stub := Stub(path, RecordFrom(local, file, now), root);
            && stub.Some? && stub.value.id == file.id && stub.value.mimeType == file.mimeType
            && RemoteContentFingerprint(stub.value) == RemoteContentFingerprint(file)
            && FromProperties(stub.value.appProperties) == FromProperties(file.appProperties)
  {
    var v := FromProperties(file.appProperties);
    assert Clean(v) by {
      if APP_PROP_VERSION_VECTOR in file.appProperties { ParseIsClean(file.appProperties[APP_PROP_VERSION_VECTOR]); }
    }
    ParseOfPrint(v);
    hide Print, Parse, IntToString;
  }

  // ----------------------------------------------------------------- placing changes

  datatype Placement = Apply(path: RelativePath) | Later | Ignore

  /** The first listed parent under which the file gets a safe path. */
  function PathUnderKnownParent(f: DriveFile, parents: seq<string>, folderById: map<string, string>,
      root: string): Option<RelativePath> {
    if parents == [] then None
    else
      var p := parents[0];
      var relative :=
        if p == root then Some(Normalize(SyncName(f)))
        else if p in folderById then
          Some(Normalize(if folderById[p] == "" then SyncName(f) else folderById[p] + "/" + SyncName(f)))
        else None;
      if relative.Some? && IsSafeNonEmpty(relative.value) then relative
      else PathUnderKnownParent(f, parents[1..], folderById, root)
  }

  predicate SameParent(f: DriveFile, path: RelativePath, folderById: map<string, string>, root: string) {
    if ParentPath(path) == "" then root in f.parents
    else exists p :: p in f.parents && p in folderById && folderById[p] == ParentPath(path)
  }

  /** `resolve_change_path`. A rename or a move cannot be applied. */
  function Resolve(v: View, c: DriveChange, root: string): Result<Placement, string> {
    if c.fileId in v.idToPath then
      var existing := v.idToPath[c.fileId];
      if c.file.Some? && SyncName(c.file.value) != FileName(existing) then Err("remote rename")
      else if c.file.Some? && !SameParent(c.file.value, existing, v.folderById, root) then Err("remote move")
      else Ok(Apply(existing))
    else if c.removed then Ok(Ignore)
    else
      match c.file
      case None => Ok(Later)
      case Some(f) =>
        match PathUnderKnownParent(f, f.parents, v.folderById, root)
        case Some(path) => Ok(Apply(path))
        case None => Ok(Later)
  }

  /** `place_without_clobber`: the path itself, or the first free numbered name beside it. */
  function Place(remote: map<RelativePath, DriveFile>, path: RelativePath, id: string): RelativePath {
    if path !in remote || remote[path].id == id then path
    else
      var (dir, name) := SplitDir(path);
      var (stem, ext) := SplitFileName(name);
      Candidate(dir + stem, ext, FirstFree(dir + stem, ext, 2, remote.Keys))
  }

  method PlaceWithoutClobber(remote: map<RelativePath, DriveFile>, path: RelativePath,
      id: string) returns (r: RelativePath)
    ensures r == Place(remote, path, id)
    ensures r !in remote || (r == path && remote[r].id == id)
  {
    if path !in remote || remote[path].id == id { return path; }
    var (dir, name) := SplitDir(path);
    var (stem, ext) := SplitFileName(name);
    r := FindFree(dir + stem, ext, remote.Keys);
  }

  function Without(v: View, path: RelativePath, id: string): View {
    View(v.remote - {path}, v.idToPath - {id}, v.folderById - {id})
  }

  function With(v: View, path: RelativePath, f: DriveFile): View {
    View(v.remote[path := f], v.idToPath[f.id := path],
         if f.mimeType == FOLDER then v.folderById[f.id := path] else v.folderById)
  }

  /** `apply_remote_change`. */
  function Applied(v: View, c: DriveChange, path: RelativePath): Result<View, string> {
    if c.removed then Ok(Without(v, path, c.fileId))
    else match c.file
         case None => Err("missing file metadata")
         case Some(f) =>
           if f.trashed then Ok(Without(v, path, c.fileId)) else Ok(With(v, Place(v.remote, path, f.id), f))
  }

  method ApplyRemoteChange(v: View, c: DriveChange, path: RelativePath) returns (r: Result<View, string>)
    ensures r == Applied(v, c, path)
  {
    var remote, idToPath, folderById := v.remote, v.idToPath, v.folderById;
    if c.removed || (c.file.Some? && c.file.value.trashed) {
      remote := remote - {path};
      idToPath := idToPath - {c.fileId};
      folderById := folderById - {c.fileId};
      return Ok(View(remote, idToPath, folderById));
    }
    if c.file.None? { return Err("missing file metadata"); }
    var f := c.file.value;
    var placed := PlaceWithoutClobber(remote, path, f.id);
    if f.mimeType == FOLDER {
      folderById := folderById[f.id := placed];
    }
    idToPath := idToPath[f.id := placed];
    remote := remote[placed := f];
    r := Ok(View(remote, idToPath, folderById));
  }

  // -------------------------------------------------------------------- the passes

  datatype PassResult = PassResult(view: View, deferred: seq<DriveChange>, applied: nat)

  function Step(s: PassResult, c: DriveChange, root: string): Result<PassResult, string> {
    match Resolve(s.view, c, root)
    case Err(e) => Err(e)
    case Ok(Ignore) => Ok(s)
    case Ok(Later) => Ok(s.(deferred := s.deferred + [c]))
    case Ok(Apply(path)) =>
      match Applied(s.view, c, path)
      case Err(e) => Err(e)
      case Ok(v) => Ok(s.(view := v, applied := s.applied + 1))
  }

  /** One pass over the pending changes. */
  function Pass(v: View, pending: seq<DriveChange>, root: string): (r: Result<PassResult, string>)
    ensures r.Ok? ==> |r.value.deferred| + r.value.applied <= |pending|
  {
    if pending == [] then Ok(PassResult(v, [], 0))
    else
      match Pass(v, pending[..|pending| - 1], root)
      case Err(e) => Err(e)
      case Ok(s) => Step(s, pending[|pending| - 1], root)
  }

  /** Passes until one places nothing new. */
  function Retry(v: View, pending: seq<DriveChange>, root: string): Result<View, string>
    decreases |pending|
  {
    match Pass(v, pending, root)
    case Err(e) => Err(e)
    case Ok(s) => if s.deferred == [] || s.applied == 0 then Ok(s.view) else Retry(s.view, s.deferred, root)
  }

  method RunPass(v: View, pending: seq<DriveChange>, root: string) returns (r: Result<PassResult, string>)
    ensures r == Pass(v, pending, root)
  {
    var s := PassResult(v, [], 0);
    for i := 0 to |pending|
      invariant Pass(v, pending[..i], root) == Ok(s)
    {
      var c := pending[i];
      assert pending[..i + 1][..i] == pending[..i];
      var placement := Resolve(s.view, c, root);
      match placement {
        case Err(e) =>
          PassFails(v, pending, i + 1, root);
          return Err(e);
        case Ok(Ignore) =>
        case Ok(Later) => s := s.(deferred := s.deferred + [c]);
        case Ok(Apply(path)) =>
          var applied := ApplyRemoteChange(s.view, c, path);
          if applied.Err? {
            PassFails(v, pending, i + 1, root);
            return Err(applied.error);
          }
          s := s.(view := applied.value, applied := s.applied + 1);
      }
    }
    assert pending[..|pending|] == pending;
    r := Ok(s);
  }

  lemma {:induction false} PassFails(v: View, pending: seq<DriveChange>, n: nat, root: string)
    requires n <= |pending| && Pass(v, pending[..n], root).Err?
    ensures Pass(v, pending, root) == Pass(v, pending[..n], root)
  {
    if n < |pending| {
      var init := pending[..|pending| - 1];
      assert init[..n] == pending[..n];
      PassFails(v, init, n, root);
    } else {
      assert pending[..n] == pending;
    }
  }

  function ViewFromRecords(records: map<RelativePath, SyncRecord>, root: string): map<RelativePath, DriveFile> {
    map p | p in records && Stub(p, records[p], root).Some? :: Stub(p, records[p], root).value
  }

  /** The loop of `build_incremental_remote_view`, from the view of the records. */
  method ApplyChanges(start: View, changes: seq<DriveChange>, root: string) returns (r: Result<View, string>)
    ensures r == Retry(start, changes, root)
  {
    var v, pending := start, changes;
    while true
      invariant Retry(v, pending, root) == Retry(start, changes, root)
      decreases |pending|
    {
      var s := RunPass(v, pending, root);
      if s.Err? { return Err(s.error); }
      v := s.value.view;
      if s.value.deferred == [] || s.value.applied == 0 { return Ok(v); }
      pending := s.value.deferred;
    }
  }

  // ------------------------------------------------------- the maps stay inverse

  /** `idToPath` is the exact inverse of the view. */
  ghost predicate Inverse(v: View) {
    && (forall p :: p in v.remote ==> v.remote[p].id in v.idToPath && v.idToPath[v.remote[p].id] == p)
    && (forall id :: id in v.idToPath ==> v.idToPath[id] in v.remote && v.remote[v.idToPath[id]].id == id)
  }

  /** The change says that its object is gone. */
  predicate Gone(c: DriveChange) {
    c.removed || (c.file.Some? && c.file.value.trashed)
  }

  /** A gone change of an unknown object whose computed path belongs to another object. */
  predicate EvictsStranger(v: View, c: DriveChange, path: RelativePath) {
    Gone(c) && c.fileId !in v.idToPath && path in v.remote
  }

  /**
   One applied change keeps the maps inverse, leaves every other object in place and
   accounts for its own, exactly when it does not evict a stranger.
  */
  lemma AppliedKeepsOthers(v: View, c: DriveChange, path: RelativePath, v': View, root: string)
    requires Inverse(v) && Resolve(v, c, root) == Ok(Apply(path)) && Applied(v, c, path) == Ok(v')
    requires c.file.Some? ==> c.file.value.id == c.fileId
    ensures Inverse(v') <==> !EvictsStranger(v, c, path)
    ensures (forall id :: id in v.idToPath && id != c.fileId ==>
               id in v'.idToPath && v'.idToPath[id] == v.idToPath[id]
               && v.idToPath[id] in v'.remote && v'.remote[v.idToPath[id]] == v.remote[v.idToPath[id]])
            <==> !EvictsStranger(v, c, path)
    ensures v'.idToPath.Keys == if Gone(c) then v.idToPath.Keys - {c.fileId} else v.idToPath.Keys + {c.fileId}
  {
    hide Candidate, FirstFree, PathUnderKnownParent, SameParent, SplitDir, SplitFileName, RSplitOnce;
    if EvictsStranger(v, c, path) {
      EvictionBreaks(v, c, path, v');
    } else if Gone(c) {
      RemovalKeeps(v, c, path, v', root);
    } else {
      PlacementKeeps(v, c.file.value, Place(v.remote, path, c.fileId));
    }
  }

  lemma EvictionBreaks(v: View, c: DriveChange, path: RelativePath, v': View)
    requires Inverse(v) && EvictsStranger(v, c, path) && v' == Without(v, path, c.fileId)
    ensures var id := v.remote[path].id;
            id in v.idToPath && id != c.fileId && id in v'.idToPath && v'.idToPath[id] == path && path !in v'.remote
    ensures !Inverse(v') && v'.idToPath.Keys == v.idToPath.Keys - {c.fileId}
  {
    var id := v.remote[path].id;
    assert v'.idToPath[id] == path;
  }

  lemma RemovalKeeps(v: View, c: DriveChange, path: RelativePath, v': View, root: string)
    requires Inverse(v) && Gone(c) && !EvictsStranger(v, c, path) && v' == Without(v, path, c.fileId)
    requires c.fileId in v.idToPath ==> path == v.idToPath[c.fileId]
    ensures Inverse(v') && v'.idToPath.Keys == v.idToPath.Keys - {c.fileId}
    ensures forall id :: id in v.idToPath && id != c.fileId ==>
              id in v'.idToPath && v'.idToPath[id] == v.idToPath[id]
              && v.idToPath[id] in v'.remote && v'.remote[v.idToPath[id]] == v.remote[v.idToPath[id]]
  {
  }

  /** Placing at a free path, or at the object's own, replaces nothing of another object. */
  lemma PlacementKeeps(v: View, f: DriveFile, path: RelativePath)
    requires Inverse(v) && (path !in v.remote || v.remote[path].id == f.id)
    requires f.id in v.idToPath ==> path == v.idToPath[f.id]
    ensures var v' := With(v, path, f);
            && Inverse(v') && v'.idToPath.Keys == v.idToPath.Keys + {f.id}
            && forall id :: id in v.idToPath && id != f.id ==>
                 id in v'.idToPath && v'.idToPath[id] == v.idToPath[id]
                 && v.idToPath[id] in v'.remote && v'.remote[v.idToPath[id]] == v.remote[v.idToPath[id]]
  {
    var v' := With(v, path, f);
    forall p | p in v'.remote ensures v'.remote[p].id in v'.idToPath && v'.idToPath[v'.remote[p].id] == p {
      if p != path { assert v.remote[p].id in v.idToPath && v.idToPath[v.remote[p].id] == p; }
    }
    forall id | id in v.idToPath && id != f.id
      ensures id in v'.idToPath && v'.idToPath[id] == v.idToPath[id]
              && v.idToPath[id] in v'.remote && v'.remote[v.idToPath[id]] == v.remote[v.idToPath[id]]
    {
      assert v.idToPath[id] in v.remote && v.remote[v.idToPath[id]].id == id;
      assert v.idToPath[id] != path;
    }
    assert v'.idToPath[f.id] == path && v'.remote[path] == f;
  }

  // ---------------------------------------------------------- over a whole batch

  predicate Consistent(changes: seq<DriveChange>) {
    forall c :: c in changes && c.file.Some? ==> c.file.value.id == c.fileId
  }

  predicate Applies(v: View, c: DriveChange, root: string) {
    Resolve(v, c, root).Ok? && Resolve(v, c, root).value.Apply?
  }

  /** Applying the change, if it is applied, evicts nobody. */
  predicate QuietStep(v: View, c: DriveChange, root: string) {
    Applies(v, c, root) ==> !EvictsStranger(v, c, Resolve(v, c, root).value.path)
  }

  predicate QuietPass(v: View, pending: seq<DriveChange>, root: string) {
    pending == []
    || var (init, last) := (pending[..|pending| - 1], pending[|pending| - 1]);
       QuietPass(v, init, root) && (Pass(v, init, root).Ok? ==> QuietStep(Pass(v, init, root).value.view, last, root))
  }

  predicate QuietRetry(v: View, pending: seq<DriveChange>, root: string)
    decreases |pending|
  {
    && QuietPass(v, pending, root)
    && match Pass(v, pending, root)
       case Err(_) => true
       case Ok(s) => s.deferred == [] || s.applied == 0 || QuietRetry(s.view, s.deferred, root)
  }

  /** The changes that a pass applies, in order. */
  function AppliedInPass(v: View, pending: seq<DriveChange>, root: string): seq<DriveChange>
    requires Pass(v, pending, root).Ok?
  {
    if pending == [] then []
    else
      var (init, last) := (pending[..|pending| - 1], pending[|pending| - 1]);
      AppliedInPass(v, init, root) + if Applies(Pass(v, init, root).value.view, last, root) then [last] else []
  }

  function AppliedInRetry(v: View, pending: seq<DriveChange>, root: string): seq<DriveChange>
    requires Retry(v, pending, root).Ok?
    decreases |pending|
  {
    var s := Pass(v, pending, root).value;
    AppliedInPass(v, pending, root)
    + if s.deferred == [] || s.applied == 0 then [] else AppliedInRetry(s.view, s.deferred, root)
  }

  /** The last of the changes to an object. */
  function LastChange(changes: seq<DriveChange>, id: string): Option<DriveChange> {
    if changes == [] then None
    else if changes[|changes| - 1].fileId == id then Some(changes[|changes| - 1])
    else LastChange(changes[..|changes| - 1], id)
  }

  function Placed(changes: seq<DriveChange>): set<string> {
    set c | c in changes && LastChange(changes, c.fileId).Some?
        && !Gone(LastChange(changes, c.fileId).value) :: c.fileId
  }

  function Removed(changes: seq<DriveChange>): set<string> {
    set c | c in changes && LastChange(changes, c.fileId).Some? && Gone(LastChange(changes, c.fileId).value) :: c.fileId
  }

  predicate SameEntry(a: View, b: View, id: string) {
    && (id in a.idToPath <==> id in b.idToPath)
    && (id in a.idToPath ==>
          && b.idToPath[id] == a.idToPath[id] && a.idToPath[id] in a.remote && a.idToPath[id] in b.remote
          && b.remote[a.idToPath[id]] == a.remote[a.idToPath[id]])
  }

  /**
   `b` comes from `a` by the changes `applied`: the maps are inverse, untouched objects
   are where they were, and an object is there by its last change or by its start.
  */
  ghost predicate Accounts(a: View, b: View, applied: seq<DriveChange>) {
    && Inverse(b)
    && (forall id :: LastChange(applied, id).None? ==> SameEntry(a, b, id))
    && (forall id :: LastChange(applied, id).Some? ==> (id in b.idToPath <==> !Gone(LastChange(applied, id).value)))
  }

  lemma AccountsStart(a: View)
    requires Inverse(a)
    ensures Accounts(a, a, [])
  {
  }

  lemma {:induction false} LastChangeAppend(xs: seq<DriveChange>, ys: seq<DriveChange>, id: string)
    ensures LastChange(xs + ys, id) == if LastChange(ys, id).Some? then LastChange(ys, id) else LastChange(xs, id)
  {
    if ys == [] {
      assert xs + ys == xs;
    } else {
      assert (xs + ys)[..|xs + ys| - 1] == xs + ys[..|ys| - 1];
      LastChangeAppend(xs, ys[..|ys| - 1], id);
    }
  }

  lemma AccountsOn(a: View, b: View, c: View, xs: seq<DriveChange>, ys: seq<DriveChange>)
    requires Accounts(a, b, xs) && Accounts(b, c, ys)
    ensures Accounts(a, c, xs + ys)
  {
    hide Inverse, LastChange;
    forall id ensures LastChange(xs + ys, id).None? ==> SameEntry(a, c, id) {
      LastChangeAppend(xs, ys, id);
    }
    forall id | LastChange(xs + ys, id).Some?
      ensures id in c.idToPath <==> !Gone(LastChange(xs + ys, id).value)
    {
      LastChangeAppend(xs, ys, id);
      if LastChange(ys, id).None? { assert SameEntry(b, c, id); }
    }
  }

  lemma OneChangeAccounts(v: View, c: DriveChange, path: RelativePath, v': View, root: string)
    requires Inverse(v) && Resolve(v, c, root) == Ok(Apply(path)) && Applied(v, c, path) == Ok(v')
    requires c.file.Some? ==> c.file.value.id == c.fileId
    requires !EvictsStranger(v, c, path)
    ensures Accounts(v, v', [c])
  {
    AppliedKeepsOthers(v, c, path, v', root);
    hide Resolve, Applied, Gone, EvictsStranger;
    assert forall id :: LastChange([c], id) == if id == c.fileId then Some(c) else None by { OneLastChange(c); }
    forall id | id != c.fileId ensures SameEntry(v, v', id) {
      assert id in v'.idToPath.Keys <==> id in v.idToPath.Keys;
    }
    assert c.fileId in v'.idToPath.Keys <==> !Gone(c);
  }

  lemma OneLastChange(c: DriveChange)
    ensures forall id :: LastChange([c], id) == if id == c.fileId then Some(c) else None
  {
    assert [c][..0] == [];
    assert forall id :: LastChange([], id).None?;
  }

  lemma {:induction false} PassAccounts(v: View, pending: seq<DriveChange>, root: string)
    requires Inverse(v) && Consistent(pending) && QuietPass(v, pending, root) && Pass(v, pending, root).Ok?
    ensures Accounts(v, Pass(v, pending, root).value.view, AppliedInPass(v, pending, root))
  {
    if pending == [] {
      AccountsStart(v);
    } else {
      var init, last := pending[..|pending| - 1], pending[|pending| - 1];
      assert Consistent(init) && last in pending;
      PassAccounts(v, init, root);
      var s := Pass(v, init, root).value;
      var applied := AppliedInPass(v, init, root);
      hide Inverse, Resolve, Applied, EvictsStranger;
      if Applies(s.view, last, root) {
        var v' := Pass(v, pending, root).value.view;
        OneChangeAccounts(s.view, last, Resolve(s.view, last, root).value.path, v', root);
        AccountsOn(v, s.view, v', applied, [last]);
      } else {
        assert applied + [] == applied;
      }
    }
  }

  /**
   Over a whole batch, with retries: when no applied change evicts a stranger, the final
   map is the exact inverse of the final view, objects without an applied change keep
   their paths and rows, and the others are there as their last applied change says.
  */
  lemma {:induction false} RetryAccounts(v: View, pending: seq<DriveChange>, root: string)
    requires Inverse(v) && Consistent(pending) && QuietRetry(v, pending, root) && Retry(v, pending, root).Ok?
    ensures Accounts(v, Retry(v, pending, root).value, AppliedInRetry(v, pending, root))
    decreases |pending|
  {
    PassAccounts(v, pending, root);
    var s := Pass(v, pending, root).value;
    var applied := AppliedInPass(v, pending, root);
    hide QuietPass, Inverse;
    if s.deferred == [] || s.applied == 0 {
      assert applied + [] == applied;
    } else {
      DeferredArePending(v, pending, root);
      RetryAccounts(s.view, s.deferred, root);
      AccountsOn(v, s.view, Retry(v, pending, root).value, applied, AppliedInRetry(s.view, s.deferred, root));
    }
  }

  lemma {:induction false} DeferredArePending(v: View, pending: seq<DriveChange>, root: string)
    requires Pass(v, pending, root).Ok?
    ensures forall c :: c in Pass(v, pending, root).value.deferred ==> c in pending
  {
    hide Resolve, Applied;
    if pending != [] { DeferredArePending(v, pending[..|pending| - 1], root); }
  }

  lemma {:induction false} LastChangeIsThere(changes: seq<DriveChange>, id: string)
    ensures LastChange(changes, id).Some? <==> exists c :: c in changes && c.fileId == id
    ensures LastChange(changes, id).Some? ==>
              LastChange(changes, id).value in changes && LastChange(changes, id).value.fileId == id
  {
    if changes != [] {
      LastChangeIsThere(changes[..|changes| - 1], id);
      assert changes[|changes| - 1] in changes;
    }
  }

  /** The final ids are the initial ones, plus the placed, minus the removed. */
  lemma IdsAreInitialPlusPlacedMinusRemoved(a: View, b: View, applied: seq<DriveChange>)
    requires Accounts(a, b, applied)
    ensures b.idToPath.Keys == a.idToPath.Keys + Placed(applied) - Removed(applied)
    ensures Placed(applied) !! Removed(applied)
  {
    hide Inverse, Gone, LastChange;
    forall id ensures id in b.idToPath.Keys <==> id in a.idToPath.Keys + Placed(applied) - Removed(applied) {
      LastChangeIsThere(applied, id);
      if LastChange(applied, id).None? { assert SameEntry(a, b, id); }
    }
  }

  // ----------------------------------------------------- a condition on the batch

  predicate Trashed(c: DriveChange) {
    !c.removed && c.file.Some? && c.file.value.trashed
  }

  /** Trashed objects are listed at the start, and no other change takes them away first. */
  predicate TrashIsKnown(v: View, changes: seq<DriveChange>) {
    && (forall i :: 0 <= i < |changes| && Trashed(changes[i]) ==> changes[i].fileId in v.idToPath)
    && (forall i, j | 0 <= i < |changes| && 0 <= j < |changes| && i != j ::
          Trashed(changes[i]) && changes[j].fileId == changes[i].fileId ==> !Gone(changes[j]))
  }

  /** The trashed changes from `n` on are of listed objects, and none was deferred. */
  ghost predicate TrashStaysKnown(s: PassResult, changes: seq<DriveChange>, n: nat) {
    && (forall i :: n <= i < |changes| && Trashed(changes[i]) ==> changes[i].fileId in s.view.idToPath)
    && (forall c :: c in s.deferred ==> !Trashed(c))
  }

  lemma KnownTrashIsQuiet(v: View, c: DriveChange, root: string)
    requires Trashed(c) ==> c.fileId in v.idToPath
    ensures QuietStep(v, c, root)
    ensures Trashed(c) ==> Resolve(v, c, root) != Ok(Later)
  {
    hide PathUnderKnownParent, SameParent;
  }

  lemma StepKeepsTrashKnown(s: PassResult, changes: seq<DriveChange>, n: nat, root: string)
    requires Inverse(s.view) && Consistent(changes) && n < |changes| && TrashStaysKnown(s, changes, n)
    requires forall i :: n < i < |changes| && Trashed(changes[i]) && changes[n].fileId == changes[i].fileId ==>
               !Gone(changes[n])
    requires Step(s, changes[n], root).Ok?
    ensures Inverse(Step(s, changes[n], root).value.view)
    ensures TrashStaysKnown(Step(s, changes[n], root).value, changes, n + 1)
  {
    var c, s' := changes[n], Step(s, changes[n], root).value;
    assert c in changes;
    KnownTrashIsQuiet(s.view, c, root);
    hide Resolve, Applied, EvictsStranger, Trashed, Gone;
    if Applies(s.view, c, root) {
      OneChangeAccounts(s.view, c, Resolve(s.view, c, root).value.path, s'.view, root);
      OneLastChange(c);
      forall i | n < i < |changes| && Trashed(changes[i]) ensures changes[i].fileId in s'.view.idToPath {
        if changes[i].fileId != c.fileId { assert SameEntry(s.view, s'.view, changes[i].fileId); }
      }
    }
  }

  lemma {:induction false} PassIsQuiet(v: View, changes: seq<DriveChange>, n: nat, root: string)
    requires Inverse(v) && Consistent(changes) && TrashIsKnown(v, changes) && n <= |changes|
    ensures QuietPass(v, changes[..n], root)
    ensures var r := Pass(v, changes[..n], root); r.Ok? ==>
              Inverse(r.value.view) && TrashStaysKnown(r.value, changes, n)
  {
    hide Inverse, Trashed, Gone, Step, QuietStep;
    if n > 0 {
      PassIsQuiet(v, changes, n - 1, root);
      assert changes[..n][..n - 1] == changes[..n - 1];
      var r := Pass(v, changes[..n - 1], root);
      if r.Ok? {
        KnownTrashIsQuiet(r.value.view, changes[n - 1], root);
        if Step(r.value, changes[n - 1], root).Ok? { StepKeepsTrashKnown(r.value, changes, n - 1, root); }
      }
    }
  }

  /** A batch whose trashed objects are known evicts nobody, in any number of passes. */
  lemma {:induction false} KnownTrashEvictsNobody(v: View, changes: seq<DriveChange>, root: string)
    requires Inverse(v) && Consistent(changes) && TrashIsKnown(v, changes)
    ensures QuietRetry(v, changes, root)
    decreases |changes|
  {
    hide Inverse, Trashed, Gone, QuietPass;
    PassIsQuiet(v, changes, |changes|, root);
    assert changes[..|changes|] == changes;
    var r := Pass(v, changes, root);
    if r.Ok? && r.value.deferred != [] && r.value.applied != 0 {
      DeferredArePending(v, changes, root);
      KnownTrashEvictsNobody(r.value.view, r.value.deferred, root);
    }
  }

  /**
   From a view with distinct ids, any consistent batch whose trashed objects are known
   ends in inverse maps, with the final ids the initial plus the placed minus the removed.
  */
  lemma BatchKeepsInverse(v: View, changes: seq<DriveChange>, root: string)
    requires Inverse(v) && Consistent(changes) && TrashIsKnown(v, changes) && Retry(v, changes, root).Ok?
    ensures var (v', applied) := (Retry(v, changes, root).value, AppliedInRetry(v, changes, root));
            && Inverse(v')
            && v'.idToPath.Keys == v.idToPath.Keys + Placed(applied) - Removed(applied)
            && forall id :: LastChange(applied, id).None? ==> SameEntry(v, v', id)
  {
    KnownTrashEvictsNobody(v, changes, root);
    RetryAccounts(v, changes, root);
    hide Retry, AppliedInRetry, LastChange, Inverse;
    IdsAreInitialPlusPlacedMinusRemoved(v, Retry(v, changes, root).value, AppliedInRetry(v, changes, root));
  }
}
