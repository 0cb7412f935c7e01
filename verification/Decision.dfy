/** The reconciliation matrix and the revision guard of uploads. */
module Decision {
  import opened Wrappers
  import opened Coordination
  import opened Paths
  import opened Records

  datatype LocalDelta = Unchanged | MetaOnly | Content

  function LocalDeltaOf(local: LocalFile, meta: SyncRecord): LocalDelta {
    if local.md5 != meta.localMd5 then Content
    else if local.size == meta.localSize && local.mtime == meta.localMtime then Unchanged
    else MetaOnly
  }

  function LocalDeltaConverted(local: LocalFile, meta: SyncRecord, lastExportMd5: Option<string>): LocalDelta {
    if local.md5 != lastExportMd5.GetOr(meta.localMd5) then Content
    else if local.size == meta.localSize && local.mtime == meta.localMtime then Unchanged
    else MetaOnly
  }

  predicate RemoteChanged(remote: DriveFile, meta: SyncRecord) {
    match meta.remoteMd5
    case Some(stored) => stored != RemoteContentFingerprint(remote)
    case None => meta.remoteModifiedAt != Some(remote.modifiedTime)
  }

  predicate DriveObjectStillPresent(meta: SyncRecord, remoteFileIds: set<string>) {
    meta.driveFileId.Some? && meta.driveFileId.value in remoteFileIds
  }

  /** `stamp` is the formatted clock reading of the conflict. */
  function ResolutionFromPolicy(policy: ConflictPolicy, stamp: string): ConflictResolution {
    match policy
    case CopyPolicy => ConflictCopy(".conflict." + stamp)
    case LocalWinsPolicy => LocalWins
    case RemoteWinsPolicy => RemoteWins
    case RenamePolicy(suffix) => Rename(if suffix == "" then ".conflict." + stamp else suffix + "." + stamp)
  }

  function ConflictAction(path: RelativePath, remote: DriveFile, local: LocalFile, policy: ConflictPolicy,
      stamp: string): SyncAction {
    Conflict(path, Some(remote.id), Some(local.md5), ResolutionFromPolicy(policy, stamp))
  }

  function OrElse<T>(a: Option<T>, b: Option<T>): Option<T> {
    if a.Some? then a else b
  }

  function UploadAction(path: RelativePath, remote: DriveFile, meta: SyncRecord): SyncAction {
    Upload(path, OrElse(meta.driveFileId, Some(remote.id)))
  }

  /** How the remote vector compares with the one stored at the last sync. */
  function Verdict(remote: DriveFile, meta: SyncRecord): Ordering3 {
    Compare(FromProperties(remote.appProperties), meta.versionVector)
  }

  function ResolveDualContentChange(
    path: RelativePath, local: LocalFile, remote: DriveFile, meta: SyncRecord, policy: ConflictPolicy,
    stamp: string): SyncAction
  {
    if FromProperties(remote.appProperties) == map[] && meta.versionVector == map[] then
      ConflictAction(path, remote, local, policy, stamp)
    else
      match Verdict(remote, meta)
      case Equal => UploadAction(path, remote, meta)
      case DominatedBy => UploadAction(path, remote, meta)
      case Dominates => ConflictAction(path, remote, local, policy, stamp)
      case Concurrent => ConflictAction(path, remote, local, policy, stamp)
  }

  function AllPresent(
    delta: LocalDelta, path: RelativePath, l: LocalFile, r: DriveFile, m: SyncRecord, policy: ConflictPolicy,
    stamp: string): SyncAction
  {
    match (delta, RemoteChanged(r, m))
    case (Unchanged, false) => Skip(path)
    case (Unchanged, true) => Download(path, r.id)
    case (MetaOnly, false) => TouchMetadata(path)
    case (MetaOnly, true) => Download(path, r.id)
    case (Content, false) => UploadAction(path, r, m)
    case (Content, true) => ResolveDualContentChange(path, l, r, m, policy, stamp)
  }

  function RemoteMissing(delta: LocalDelta, path: RelativePath, m: SyncRecord, remoteFileIds: set<string>): SyncAction {
    if delta.Content? then Upload(path, if DriveObjectStillPresent(m, remoteFileIds) then m.driveFileId else None)
    else if DriveObjectStillPresent(m, remoteFileIds) then Skip(path)
    else DeleteLocal(path)
  }

  function DetermineAction(
    path: RelativePath,
    local: Option<LocalFile>,
    remote: Option<DriveFile>,
    metadata: Option<SyncRecord>,
    policy: ConflictPolicy,
    stamp: string,
    remoteFileIds: set<string>): SyncAction
  {
    match (local, remote, metadata)
    case (Some(l), Some(r), Some(m)) => AllPresent(LocalDeltaOf(l, m), path, l, r, m, policy, stamp)
    case (Some(l), Some(r), None) =>
      if r.md5Checksum == Some(l.md5) then Skip(path) else ConflictAction(path, r, l, policy, stamp)
    case (Some(l), None, Some(m)) => RemoteMissing(LocalDeltaOf(l, m), path, m, remoteFileIds)
    case (Some(_), None, None) => Upload(path, None)
    case (None, Some(r), Some(m)) =>
      if RemoteChanged(r, m) then Download(path, r.id) else DeleteRemote(path, m.driveFileId.GetOr(r.id))
    case (None, Some(r), None) => Download(path, r.id)
    case (None, None, Some(_)) => CleanupMetadata(path)
    case (None, None, None) => Skip(path)
  }

  /** The same for a path that mirrors a Workspace export. */
  function DetermineActionConverted(
    path: RelativePath,
    local: Option<LocalFile>,
    remote: Option<DriveFile>,
    metadata: Option<SyncRecord>,
    policy: ConflictPolicy,
    stamp: string,
    lastExportMd5: Option<string>,
    remoteFileIds: set<string>): SyncAction
  {
    match (local, remote, metadata)
    case (Some(l), Some(r), Some(m)) =>
      AllPresent(LocalDeltaConverted(l, m, lastExportMd5), path, l, r, m, policy, stamp)
    case (Some(l), None, Some(m)) => RemoteMissing(LocalDeltaConverted(l, m, lastExportMd5), path, m, remoteFileIds)
    case _ => DetermineAction(path, local, remote, metadata, policy, stamp, remoteFileIds)
  }

  // ---------------------------------------------------------------- revision guard

  datatype RevisionGuard = RevisionGuard(
    headRevisionId: Option<string>,
    version: Option<int>,
    remoteFingerprint: Option<string>,
    modifiedTime: Option<Instant>)

  function GuardFromRecord(record: Option<SyncRecord>): RevisionGuard {
    match record
    case None => RevisionGuard(None, None, None, None)
    case Some(r) => RevisionGuard(r.remoteHeadRevisionId, r.remoteVersion, r.remoteMd5, r.remoteModifiedAt)
  }

  predicate RevisionGuardMatches(remote: DriveFile, expected: RevisionGuard) {
    if expected.headRevisionId.Some? then remote.headRevisionId == expected.headRevisionId
    else if expected.version.Some? then remote.version == expected.version
    else if expected.remoteFingerprint.Some? then expected.remoteFingerprint == Some(RemoteContentFingerprint(remote))
    else if expected.modifiedTime.Some? then expected.modifiedTime == Some(remote.modifiedTime)
    else true
  }

  /** A record without revision, version and fingerprint guards by its time, if it has one. */
  lemma GuardByTime(remote: DriveFile, record: SyncRecord)
    requires record.remoteHeadRevisionId.None? && record.remoteVersion.None? && record.remoteMd5.None?
    ensures RevisionGuardMatches(remote, GuardFromRecord(Some(record))) <==>
              record.remoteModifiedAt in {None, Some(remote.modifiedTime)}
    ensures RevisionGuardMatches(remote, GuardFromRecord(None))
  {
  }

  // ---------------------------------------------------------- what is decided when

  /** The file has the content of the last sync: of the last export, or else of the record. */
  predicate LocalAsRecorded(l: LocalFile, m: SyncRecord, lastExportMd5: Option<string>) {
    l.md5 == if lastExportMd5.Some? then lastExportMd5.value else m.localMd5
  }

  /** The row has the recorded fingerprint, or the recorded time when no fingerprint was recorded. */
  predicate RemoteAsRecorded(r: DriveFile, m: SyncRecord) {
    || m.remoteMd5 == Some(RemoteContentFingerprint(r))
    || (m.remoteMd5.None? && m.remoteModifiedAt == Some(r.modifiedTime))
  }

  /** The object of the record is listed, at whatever path. */
  predicate ObjectListed(m: SyncRecord, ids: set<string>) {
    exists id :: id in ids && m.driveFileId == Some(id)
  }

  /** Without an export baseline both decisions are the same. */
  lemma PlainIsUnconverted(
    path: RelativePath, local: Option<LocalFile>, remote: Option<DriveFile>, metadata: Option<SyncRecord>,
    policy: ConflictPolicy, stamp: string, ids: set<string>)
    ensures DetermineAction(path, local, remote, metadata, policy, stamp, ids)
            == DetermineActionConverted(path, local, remote, metadata, policy, stamp, None, ids)
  {
    hide RemoteContentFingerprint, FromProperties, Compare;
  }

  /** After a sync with a row, `RemoteAsRecorded` means the content of that row. */
  lemma RecordedContent(l: LocalFile, synced: DriveFile, r: DriveFile, now: Instant)
    requires PlainChecksum(synced) && PlainChecksum(r)
    ensures RemoteAsRecorded(r, RecordFrom(l, synced, now)) <==>
              r.md5Checksum == synced.md5Checksum
              && (r.md5Checksum.None? ==> r.modifiedTime == synced.modifiedTime)
    ensures RemoteChanged(r, RecordFrom(l, synced, now)) <==> !RemoteAsRecorded(r, RecordFrom(l, synced, now))
  {
    FingerprintMeaning(r, synced);
    hide RemoteContentFingerprint, FromProperties;
  }

  predicate EndsWith(s: string, tail: string) {
    |tail| <= |s| && s[|s| - |tail|..] == tail
  }

  /** When nothing is done: nothing is there, nothing changed, or both sides agree. */
  lemma SkipMeaning(
    path: RelativePath, local: Option<LocalFile>, remote: Option<DriveFile>, metadata: Option<SyncRecord>,
    policy: ConflictPolicy, stamp: string, exported: Option<string>, ids: set<string>)
    ensures DetermineActionConverted(path, local, remote, metadata, policy, stamp, exported, ids) == Skip(path) <==>
              || (local.None? && remote.None? && metadata.None?)
              || (local.Some? && remote.Some? && metadata.Some?
                  && LocalAsRecorded(local.value, metadata.value, exported)
                  && local.value.size == metadata.value.localSize && local.value.mtime == metadata.value.localMtime
                  && RemoteAsRecorded(remote.value, metadata.value))
              || (local.Some? && remote.Some? && metadata.None? && remote.value.md5Checksum == Some(local.value.md5))
              || (local.Some? && remote.None? && metadata.Some?
                  && LocalAsRecorded(local.value, metadata.value, exported) && ObjectListed(metadata.value, ids))
  {
    hide RemoteContentFingerprint, FromProperties, Compare;
  }

  /** Only the facts of the file differ from the record, or only the record is left. */
  lemma RecordOnlyMeaning(
    path: RelativePath, local: Option<LocalFile>, remote: Option<DriveFile>, metadata: Option<SyncRecord>,
    policy: ConflictPolicy, stamp: string, exported: Option<string>, ids: set<string>)
    ensures var a := DetermineActionConverted(path, local, remote, metadata, policy, stamp, exported, ids);
            && (a == TouchMetadata(path) <==>
                  local.Some? && remote.Some? && metadata.Some?
                  && LocalAsRecorded(local.value, metadata.value, exported)
                  && (local.value.size != metadata.value.localSize || local.value.mtime != metadata.value.localMtime)
                  && RemoteAsRecorded(remote.value, metadata.value))
            && (a == CleanupMetadata(path) <==> local.None? && remote.None? && metadata.Some?)
  {
    hide RemoteContentFingerprint, FromProperties, Compare;
  }

  /**
   When a file is uploaded, and onto which object: a new file, an edit of an unchanged or a
   missing row, and an edit that the version vectors show the row does not contradict.
  */
  lemma UploadMeaning(
    path: RelativePath, local: Option<LocalFile>, remote: Option<DriveFile>, metadata: Option<SyncRecord>,
    policy: ConflictPolicy, stamp: string, exported: Option<string>, ids: set<string>)
    ensures var a := DetermineActionConverted(path, local, remote, metadata, policy, stamp, exported, ids);
            && (a.Upload? <==>
                  local.Some?
                  && match (remote, metadata)
                     case (None, None) => true
                     case (Some(_), None) => false
                     case (None, Some(m)) => !LocalAsRecorded(local.value, m, exported)
                     case (Some(r), Some(m)) =>
                       var vector := FromProperties(r.appProperties);
                       && !LocalAsRecorded(local.value, m, exported)
                       && (RemoteAsRecorded(r, m)
                           || (Below(vector, m.versionVector) && (vector != map[] || m.versionVector != map[]))))
            && (a.Upload? ==>
                  && a.path == path
                  && (metadata.None? ==> a.remoteId == None)
                  && (metadata.Some? && remote.None? ==>
                        if ObjectListed(metadata.value, ids) then a.remoteId == metadata.value.driveFileId
                        else a.remoteId == None)
                  && (metadata.Some? && remote.Some? ==>
                        if metadata.value.driveFileId.Some? then a.remoteId == metadata.value.driveFileId
                        else a.remoteId == Some(remote.value.id)))
  {
    hide RemoteContentFingerprint, FromProperties, Below;
  }

  /** When the listed object is downloaded: there is no edit of its own to lose. */
  lemma DownloadMeaning(
    path: RelativePath, local: Option<LocalFile>, remote: Option<DriveFile>, metadata: Option<SyncRecord>,
    policy: ConflictPolicy, stamp: string, exported: Option<string>, ids: set<string>)
    ensures var a := DetermineActionConverted(path, local, remote, metadata, policy, stamp, exported, ids);
            && (a.Download? <==>
                  remote.Some?
                  && match (local, metadata)
                     case (None, None) => true
                     case (Some(_), None) => false
                     case (None, Some(m)) => !RemoteAsRecorded(remote.value, m)
                     case (Some(l), Some(m)) => LocalAsRecorded(l, m, exported) && !RemoteAsRecorded(remote.value, m))
            && (a.Download? ==> a == Download(path, remote.value.id))
  {
    hide RemoteContentFingerprint, FromProperties, Compare;
  }

  /** When a side is deleted: the other side is gone and this one is as recorded. */
  lemma DeleteMeaning(
    path: RelativePath, local: Option<LocalFile>, remote: Option<DriveFile>, metadata: Option<SyncRecord>,
    policy: ConflictPolicy, stamp: string, exported: Option<string>, ids: set<string>)
    ensures var a := DetermineActionConverted(path, local, remote, metadata, policy, stamp, exported, ids);
            && (a == DeleteLocal(path) <==>
                  local.Some? && remote.None? && metadata.Some?
                  && LocalAsRecorded(local.value, metadata.value, exported) && !ObjectListed(metadata.value, ids))
            && (a.DeleteRemote? <==>
                  local.None? && remote.Some? && metadata.Some? && RemoteAsRecorded(remote.value, metadata.value))
            && (a.DeleteRemote? ==>
                  a.path == path
                  && (metadata.value.driveFileId.Some? ==> metadata.value.driveFileId == Some(a.driveId))
                  && (metadata.value.driveFileId.None? ==> a.driveId == remote.value.id))
  {
    hide RemoteContentFingerprint, FromProperties, Compare;
  }

  /**
   When there is a conflict: both sides have content of their own and neither equal
   checksums nor the version vectors settle it. The action names both contents.
  */
  lemma ConflictMeaning(
    path: RelativePath, local: Option<LocalFile>, remote: Option<DriveFile>, metadata: Option<SyncRecord>,
    policy: ConflictPolicy, stamp: string, exported: Option<string>, ids: set<string>)
    ensures var a := DetermineActionConverted(path, local, remote, metadata, policy, stamp, exported, ids);
            && (a.Conflict? <==>
                  local.Some? && remote.Some?
                  && match metadata
                     case None => remote.value.md5Checksum != Some(local.value.md5)
                     case Some(m) =>
                       var vector := FromProperties(remote.value.appProperties);
                       && !LocalAsRecorded(local.value, m, exported) && !RemoteAsRecorded(remote.value, m)
                       && (!Below(vector, m.versionVector) || (vector == map[] && m.versionVector == map[])))
  {
    hide RemoteContentFingerprint, FromProperties, Below;
  }

  /** A conflict names both contents and resolves by the policy; a copy gets a new suffix each time. */
  lemma ConflictNamesBoth(
    path: RelativePath, local: Option<LocalFile>, remote: Option<DriveFile>, metadata: Option<SyncRecord>,
    policy: ConflictPolicy, stamp: string, exported: Option<string>, ids: set<string>)
    requires DetermineActionConverted(path, local, remote, metadata, policy, stamp, exported, ids).Conflict?
    ensures local.Some? && remote.Some?
    ensures var a := DetermineActionConverted(path, local, remote, metadata, policy, stamp, exported, ids);
            && a.path == path && a.remoteId == Some(remote.value.id) && a.localMd5 == Some(local.value.md5)
            && (a.resolution.LocalWins? <==> policy.LocalWinsPolicy?)
            && (a.resolution.RemoteWins? <==> policy.RemoteWinsPolicy?)
            && (a.resolution.ConflictCopy? <==> policy.CopyPolicy?)
            && (a.resolution.ConflictCopy? || a.resolution.Rename? ==>
                  EndsWith(a.resolution.suffix, "." + stamp)
                  && (policy.RenamePolicy? && policy.suffix != "" ==> policy.suffix <= a.resolution.suffix))
  {
    hide RemoteContentFingerprint, FromProperties, Below;
  }

  // ------------------------------------------------------------- what actions risk

  /** Local bytes are replaced or removed only when they are the recorded ones. */
  lemma LocalBytesAtRiskAreRecorded(
    path: RelativePath, local: LocalFile, remote: Option<DriveFile>, metadata: Option<SyncRecord>,
    policy: ConflictPolicy, stamp: string, ids: set<string>)
    ensures var a := DetermineAction(path, Some(local), remote, metadata, policy, stamp, ids);
            a.Download? || a.DeleteLocal? ==> metadata.Some? && metadata.value.localMd5 == local.md5
  {
    hide RemoteContentFingerprint, FromProperties, Below;
  }

  /** Two-sided changes upload only when the remote vector did not move past the stored one. */
  lemma DualChangeUploadsOnlyBehind(
    path: RelativePath, l: LocalFile, r: DriveFile, m: SyncRecord, policy: ConflictPolicy, stamp: string,
    ids: set<string>)
    requires l.md5 != m.localMd5 && RemoteChanged(r, m)
    ensures var a := DetermineAction(path, Some(l), Some(r), Some(m), policy, stamp, ids);
            var remote, stored := FromProperties(r.appProperties), m.versionVector;
            && (a.Upload? <==> Below(remote, stored) && !(remote == map[] && stored == map[]))
            && (!a.Upload? <==> a.Conflict?)
  {
    hide RemoteContentFingerprint, FromProperties, Below;
  }
}
