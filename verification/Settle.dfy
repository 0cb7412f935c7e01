/**
 One successful action settles a path: with nothing else changing, the next decision
 for it is `Skip`, for plain files and for Workspace exports. The exceptions are stated
 exactly: what is not mirrored at its own path, and deletes that name another object.
*/
module Settle {
  import opened Wrappers
  import opened Text
  import opened Coordination
  import opened Paths
  import opened Records
  import opened Decision

  /** What a cycle sees of one path; `ids` are the Drive ids of the whole listing. */
  datatype PathState = PathState(
    local: Option<LocalFile>,
    remote: Option<DriveFile>,
    record: Option<SyncRecord>,
    conversion: Option<WorkspaceConversion>,
    ids: set<string>)

  /** What Drive and the file system answer: the row after an upload, the file written. */
  datatype Answer = Answer(row: DriveFile, written: LocalFile, now: Instant)

  function Decide(path: RelativePath, s: PathState, policy: ConflictPolicy, stamp: string): SyncAction {
    match s.conversion
    case Some(c) => DetermineActionConverted(path, s.local, s.remote, s.record, policy, stamp, c.lastExportMd5, s.ids)
    case None => DetermineAction(path, s.local, s.remote, s.record, policy, stamp, s.ids)
  }

  /** Drive exposes no checksum of a Workspace file. */
  predicate Consistent(s: PathState) {
    s.remote.Some? && IsGoogleWorkspace(s.remote.value.mimeType) ==> s.remote.value.md5Checksum.None?
  }

  predicate SameObject(s: PathState) {
    s.remote.Some? && s.record.Some? && s.record.value.driveFileId.Some? ==>
      s.record.value.driveFileId == Some(s.remote.value.id)
  }

  // ----------------------------------------------------------- effects of success

  function AfterUpload(s: PathState, id: Option<string>, a: Answer): PathState
    requires s.local.Some?
  {
    var record := Some(RecordFrom(s.local.value, a.row, a.now));
    var conversion := if s.conversion.Some? then Some(s.conversion.value.(lastExportMd5 := Some(s.local.value.md5)))
        else None;
    if id.Some? && id.value != "" then
      var remote := if s.remote.Some? && s.remote.value.id == id.value then Some(a.row) else s.remote;
      s.(remote := remote, record := record, conversion := conversion)
    else
      s.(remote := Some(a.row), record := record, conversion := conversion, ids := s.ids + {a.row.id})
  }

  function AfterDownload(path: RelativePath, s: PathState, a: Answer): PathState
    requires s.remote.Some?
  {
    var r := s.remote.value;
    var record := Some(RecordFrom(a.written, r, a.now));
    if r.mimeType == FOLDER then s
    else if IsGoogleWorkspace(r.mimeType) && ExportExtension(r.mimeType).Some? then
      if ConvertedRelativePath(path, ExportExtension(r.mimeType).value) == path then
        s.(local := Some(a.written), record := record,
           conversion := Some(WorkspaceConversion(r.id, r.mimeType, Some(a.written.md5))))
      else
        s.(record := None, conversion := None)
    else s.(local := Some(a.written), record := record, conversion := None)
  }

  function Cleared(s: PathState): PathState {
    s.(record := None, conversion := None)
  }

  function AfterDeleteRemote(s: PathState, id: string): PathState {
    var remote := if s.remote.Some? && s.remote.value.id == id then None else s.remote;
    Cleared(s.(remote := remote, ids := s.ids - {id}))
  }

  /** Downloads that cannot succeed: no export format, or a folder where a file is. */
  predicate CanDownload(s: PathState) {
    s.remote.Some? ==>
      var mime := s.remote.value.mimeType;
      (mime == FOLDER ==> s.local.None?) && (IsGoogleWorkspace(mime) ==> ExportExtension(mime).Some?)
  }

  /** The state after `action` succeeded. A copy made by a conflict is another path. */
  ghost predicate Succeeds(path: RelativePath, s: PathState, action: SyncAction, a: Answer, s': PathState) {
    match action
    case Skip(_) => s' == s
    case Upload(_, id) => s.local.Some? && (id.Some? ==> a.row.id == id.value) && a.row.id != ""
        && s' == AfterUpload(s, id, a)
    case Download(_, _) => s.remote.Some? && CanDownload(s) && s' == AfterDownload(path, s, a)
    case DeleteLocal(_) => s' == Cleared(s.(local := None))
    case DeleteRemote(_, id) => s' == AfterDeleteRemote(s, id)
    case CleanupMetadata(_) => s' == Cleared(s)
    case TouchMetadata(_) =>
      s.local.Some? && s.record.Some? && s' == s.(record := Some(TouchedRecord(s.record.value, s.local.value, a.now)))
    case Conflict(_, id, _, resolution) =>
      if resolution == RemoteWins then
        s.remote.Some? && id.Some? && CanDownload(s) && s' == AfterDownload(path, s, a)
      else
        s.local.Some? && id.Some? && a.row.id == id.value && s' == AfterUpload(s, id, a)
  }

  // --------------------------------------------------------------------- settling

  /** A download of this row ends up at this path. */
  predicate Mirrored(path: RelativePath, r: DriveFile) {
    && r.mimeType != FOLDER
    && (IsGoogleWorkspace(r.mimeType) && ExportExtension(r.mimeType).Some? ==>
          ConvertedRelativePath(path, ExportExtension(r.mimeType).value) == path)
  }

  predicate Downloads(action: SyncAction) {
    action.Download? || (action.Conflict? && action.resolution == RemoteWins)
  }

  /**
   The next decision is `Skip` exactly when what was downloaded, if anything, is
   mirrored at its path. In particular a folder is downloaded again in every cycle.
  */
  lemma SettledIffMirrored(
    path: RelativePath, s: PathState, policy: ConflictPolicy, stamp: string, a: Answer, s': PathState, stamp': string)
    requires Consistent(s) && SameObject(s)
    requires Succeeds(path, s, Decide(path, s, policy, stamp), a, s')
    ensures Decide(path, s', policy, stamp') == Skip(path)
            <==> (Downloads(Decide(path, s, policy, stamp)) ==> s.remote.Some? && Mirrored(path, s.remote.value))
  {
    hide Decide, Succeeds, Mirrored, SameObject;
    var action := Decide(path, s, policy, stamp);
    if Downloads(action) {
      SettledDownload(path, s, policy, stamp, a, s', stamp');
    } else if action.Upload? || action.Conflict? {
      SettledUpload(path, s, policy, stamp, a, s', stamp');
    } else {
      SettledOther(path, s, policy, stamp, a, s', stamp');
    }
  }

  lemma SettledOther(
    path: RelativePath, s: PathState, policy: ConflictPolicy, stamp: string, a: Answer, s': PathState, stamp': string)
    requires Consistent(s) && SameObject(s)
    requires var action := Decide(path, s, policy, stamp);
             !Downloads(action) && !action.Upload? && !action.Conflict? && Succeeds(path, s, action, a, s')
    ensures Decide(path, s', policy, stamp') == Skip(path)
  {
    hide RemoteContentFingerprint, FromProperties, Compare, IsGoogleWorkspace;
    var action := Decide(path, s, policy, stamp);
    if action.DeleteLocal? || action.DeleteRemote? || action.CleanupMetadata? {
      assert s'.local.None? && s'.remote.None? && s'.record.None?;
    } else if action.TouchMetadata? {
      assert s'.local == s.local && s'.remote == s.remote && s.remote.Some?;
    }
  }

  lemma SettledUpload(
    path: RelativePath, s: PathState, policy: ConflictPolicy, stamp: string, a: Answer, s': PathState, stamp': string)
    requires Consistent(s) && SameObject(s)
    requires var action := Decide(path, s, policy, stamp);
             (action.Upload? || action.Conflict?) && !Downloads(action) && Succeeds(path, s, action, a, s')
    ensures Decide(path, s', policy, stamp') == Skip(path)
  {
    hide RemoteContentFingerprint, FromProperties, IsGoogleWorkspace, Compare;
    var action := Decide(path, s, policy, stamp);
    assert s'.record == Some(RecordFrom(s.local.value, a.row, a.now)) && s'.local == s.local;
    assert s'.remote == Some(a.row) || (s'.remote.None? && a.row.id in s'.ids);
  }

  lemma SettledDownload(
    path: RelativePath, s: PathState, policy: ConflictPolicy, stamp: string, a: Answer, s': PathState, stamp': string)
    requires Consistent(s)
    requires var action := Decide(path, s, policy, stamp); Downloads(action) && Succeeds(path, s, action, a, s')
    ensures s.remote.Some?
    ensures Decide(path, s', policy, stamp') == Skip(path) <==> Mirrored(path, s.remote.value)
  {
    hide RemoteContentFingerprint, ConvertedRelativePath, FromProperties, Compare;
    var r := s.remote.value;
    if Mirrored(path, r) {
      assert s'.local == Some(a.written) && s'.remote == Some(r) && s'.record == Some(RecordFrom(a.written, r, a.now));
    } else if r.mimeType == FOLDER {
      assert s' == s && s.local.None?;
    }
  }

  /** Listed names settle: a Workspace file is listed under the name of its export. */
  lemma ListedNameIsMirrored(dir: string, r: DriveFile)
    requires r.name != "" && Lacks(r.name, '/') && (dir == "" || dir[|dir| - 1] == '/')
    requires Normal(dir + LocalSyncName(r.name, r.mimeType)) && r.mimeType != FOLDER
    ensures Mirrored(dir + LocalSyncName(r.name, r.mimeType), r)
  {
    hide Normalize, Normal, NameHasExtension;
    var name := LocalSyncName(r.name, r.mimeType);
    LocalSyncNameIsStable(r.name, r.mimeType);
    assert Lacks(name, '/');
    SplitDirOf(dir, name);
    NormalizeNormal(dir + name);
  }

  /** A delete that names the recorded object settles only if that is the listed one. */
  lemma DeleteSettlesIffSameObject(
    path: RelativePath, s: PathState, policy: ConflictPolicy, stamp: string, a: Answer, s': PathState, stamp': string)
    requires Consistent(s)
    requires var action := Decide(path, s, policy, stamp); action.DeleteRemote? && Succeeds(path, s, action, a, s')
    ensures Decide(path, s', policy, stamp') ==
              if SameObject(s) then Skip(path) else Download(path, s.remote.value.id)
  {
    hide RemoteContentFingerprint, FromProperties;
  }

  /** An export is compared with the bytes of the last export, other files with their record. */
  lemma EditedMeaning(path: RelativePath, s: PathState, policy: ConflictPolicy, stamp: string)
    requires s.local.Some? && s.remote.Some? && s.record.Some? && RemoteAsRecorded(s.remote.value, s.record.value)
    ensures var md5, base := s.local.value.md5, s.record.value.localMd5;
            Decide(path, s, policy, stamp).Upload? <==>
              match s.conversion
              case None => md5 != base
              case Some(c) => if c.lastExportMd5.Some? then c.lastExportMd5 != Some(md5) else md5 != base
  {
    hide RemoteContentFingerprint, FromProperties, Compare;
  }

  /** An update touches only the row of its object; a new file is added to the listing. */
  lemma UploadTouchesItsObject(s: PathState, id: Option<string>, a: Answer)
    requires s.local.Some?
    ensures var s' := AfterUpload(s, id, a);
            && (id.Some? && id.value != "" ==>
                  && s'.ids == s.ids
                  && (s.remote.None? || s.remote.value.id != id.value ==> s'.remote == s.remote)
                  && (s.remote.Some? && s.remote.value.id == id.value ==> s'.remote == Some(a.row)))
            && (id.None? || id.value == "" ==> s'.remote == Some(a.row) && s'.ids == s.ids + {a.row.id})
  {
    hide RecordFrom;
  }
}
