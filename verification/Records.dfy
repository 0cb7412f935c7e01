/**
 The values that the sync engine compares: Drive objects, local files, sync records,
 actions. Time stamps are integers; MD5 checksums are strings that identify content.
*/
module Records {
  import opened Wrappers
  import opened Text
  import opened Coordination
  import opened Paths

  const FOLDER := "application/vnd.google-apps.folder"
  const GOOGLE_DOC := "application/vnd.google-apps.document"
  const GOOGLE_SHEET := "application/vnd.google-apps.spreadsheet"
  const GOOGLE_SLIDES := "application/vnd.google-apps.presentation"
  const GOOGLE_DRAWING := "application/vnd.google-apps.drawing"

  type Instant = int

  datatype DriveFile = DriveFile(
    id: string,
    name: string,
    mimeType: string,
    md5Checksum: Option<string>,
    modifiedTime: Instant,
    size: Option<nat>,
    headRevisionId: Option<string>,
    version: Option<int>,
    appProperties: Properties,
    parents: seq<string>,
    trashed: bool)

  datatype LocalFile = LocalFile(md5: string, mtime: Instant, size: nat)

  datatype SyncRecord = SyncRecord(
    driveFileId: Option<string>,
    remoteMd5: Option<string>,
    remoteMimeType: Option<string>,
    remoteModifiedAt: Option<Instant>,
    localMd5: string,
    localMtime: Instant,
    localSize: nat,
    lastSyncedAt: Instant,
    remoteHeadRevisionId: Option<string>,
    remoteVersion: Option<int>,
    versionVector: Vector)

  datatype WorkspaceConversion =
    WorkspaceConversion(driveFileId: string, googleMime: string, lastExportMd5: Option<string>)

  datatype ConflictPolicy = CopyPolicy | LocalWinsPolicy | RemoteWinsPolicy | RenamePolicy(suffix: string)

  datatype ConflictResolution =
    | LocalWins
    | RemoteWins
    | Rename(suffix: string)
    | ConflictCopy(suffix: string)

  datatype SyncAction =
    | Skip(path: RelativePath)
    | Upload(path: RelativePath, remoteId: Option<string>)
    | Download(path: RelativePath, driveId: string)
    | DeleteLocal(path: RelativePath)
    | DeleteRemote(path: RelativePath, driveId: string)
    | Conflict(path: RelativePath, remoteId: Option<string>, localMd5: Option<string>, resolution: ConflictResolution)
    | CleanupMetadata(path: RelativePath)
    | TouchMetadata(path: RelativePath)

  // ---------------------------------------------------------------- fingerprint

  function IntToString(n: int): string {
    if n < 0 then "-" + NatToString(-n) else NatToString(n)
  }

  lemma IntToStringInjective(m: int, n: int)
    requires IntToString(m) == IntToString(n)
    ensures m == n
  {
    assert m < 0 ==> IntToString(m)[0] == '-' && IntToString(m)[1..] == NatToString(-m);
    assert n < 0 ==> IntToString(n)[0] == '-' && IntToString(n)[1..] == NatToString(-n);
    assert m >= 0 ==> IsDigit(IntToString(m)[0]);
    assert n >= 0 ==> IsDigit(IntToString(n)[0]);
    if m < 0 { NatToStringInjective(-m, -n); } else { NatToStringInjective(m, n); }
  }

  const MTIME_PREFIX := "mtime:"

  /** The MD5 when Drive exposes it, else the modification time. */
  function RemoteContentFingerprint(remote: DriveFile): string {
    remote.md5Checksum.GetOr(MTIME_PREFIX + IntToString(remote.modifiedTime))
  }

  /** Checksums are hexadecimal, so never look like the time-stamp form. */
  predicate PlainChecksum(remote: DriveFile) {
    remote.md5Checksum.Some? ==> !(MTIME_PREFIX <= remote.md5Checksum.value)
  }

  /** Equal fingerprints mean equal checksums, or equal times when there is none. */
  lemma FingerprintMeaning(a: DriveFile, b: DriveFile)
    requires PlainChecksum(a) && PlainChecksum(b)
    ensures RemoteContentFingerprint(a) == RemoteContentFingerprint(b)
            <==> a.md5Checksum == b.md5Checksum && (a.md5Checksum.None? ==> a.modifiedTime == b.modifiedTime)
  {
    hide IntToString;
    if RemoteContentFingerprint(a) == RemoteContentFingerprint(b) && a.md5Checksum.None? && b.md5Checksum.None? {
      var x, y := IntToString(a.modifiedTime), IntToString(b.modifiedTime);
      assert (MTIME_PREFIX + x)[6..] == x && (MTIME_PREFIX + y)[6..] == y;
      IntToStringInjective(a.modifiedTime, b.modifiedTime);
    }
  }

  // ------------------------------------------------------------ Workspace names

  predicate IsGoogleWorkspace(mime: string) {
    "application/vnd.google-apps." <= mime && mime != FOLDER
  }

  /** Extension of the export used for a Workspace file, if it can be exported. */
  function ExportExtension(mime: string): (r: Option<string>)
    ensures r.Some? ==> r.value != ""
  {
    if mime == GOOGLE_DOC then Some("docx")
    else if mime == GOOGLE_SHEET then Some("xlsx")
    else if mime == GOOGLE_SLIDES then Some("pptx")
    else if mime == GOOGLE_DRAWING then Some("svg")
    else None
  }

  function ToLowerAscii(c: char): char {
    if 'A' <= c <= 'Z' then (c as int + 32) as char else c
  }

  predicate EqIgnoreAsciiCase(a: string, b: string) {
    |a| == |b| && forall i :: 0 <= i < |a| ==> ToLowerAscii(a[i]) == ToLowerAscii(b[i])
  }

  predicate NameHasExtension(name: string, extension: string) {
    match RSplitOnce(name, '.')
    case None => false
    case Some((stem, ext)) => stem != "" && ext != "" && EqIgnoreAsciiCase(ext, extension)
  }

  function WithExportExtension(name: string, extension: string): string {
    if extension == "" || NameHasExtension(name, extension) then name else name + "." + extension
  }

  function LocalSyncName(driveName: string, mime: string): string {
    match ExportExtension(mime)
    case None => driveName
    case Some(extension) => WithExportExtension(driveName, extension)
  }

  /** The name under which an object is listed. */
  function SyncName(f: DriveFile): string {
    LocalSyncName(f.name, f.mimeType)
  }

  /** Converting a name that already carries the export extension changes nothing. */
  lemma LocalSyncNameIsStable(name: string, mime: string)
    requires name != ""
    ensures LocalSyncName(LocalSyncName(name, mime), mime) == LocalSyncName(name, mime)
  {
    match ExportExtension(mime)
    case None =>
    case Some(extension) =>
      assert extension in {"docx", "xlsx", "pptx", "svg"};
      assert Lacks(extension, '.');
      if !NameHasExtension(name, extension) {
        assert name + "." + extension == name + ['.'] + extension;
        RSplitOnceOf(name, '.', extension);
      }
  }

  /** `converted_relative_path`: the export extension on the file name. */
  function ConvertedRelativePath(path: RelativePath, extension: string): RelativePath {
    var (dir, file) := SplitDir(path);
    Normalize(dir + WithExportExtension(file, extension))
  }

  /** Every type in Google's own name space but the folder. */
  lemma WorkspaceMeaning(mime: string)
    ensures IsGoogleWorkspace(mime) <==>
              exists kind :: mime == "application/vnd.google-apps." + kind && kind != "folder"
  {
    var prefix := "application/vnd.google-apps.";
    assert FOLDER == prefix + "folder";
    if prefix <= mime { assert mime == prefix + mime[|prefix|..]; }
    if kind :| mime == prefix + kind && kind != "folder" {
      assert mime[|prefix|..] == kind && FOLDER[|prefix|..] == "folder";
    }
  }

  /** The name ends in the extension, whatever its letter case, behind a non-empty stem. */
  ghost predicate Carries(name: string, extension: string) {
    exists stem, ext ::
      && name == stem + "." + ext && Lacks(ext, '.') && stem != "" && ext != ""
      && EqIgnoreAsciiCase(ext, extension)
  }

  lemma CarriesMeaning(name: string, extension: string)
    ensures NameHasExtension(name, extension) <==> Carries(name, extension)
  {
    if RSplitOnce(name, '.').Some? {
      var (stem, ext) := RSplitOnce(name, '.').value;
      assert name == stem + "." + ext && Lacks(ext, '.');
    }
    if stem, ext :| && name == stem + "." + ext && Lacks(ext, '.') && stem != "" && ext != ""
                    && EqIgnoreAsciiCase(ext, extension)
    {
      assert name == stem + ['.'] + ext;
      RSplitOnceOf(stem, '.', ext);
    }
  }

  /** The export formats: documents, sheets, slides and drawings; nothing else has one. */
  function ExportOf(mime: string): string {
    match mime
    case "application/vnd.google-apps.document" => "docx"
    case "application/vnd.google-apps.spreadsheet" => "xlsx"
    case "application/vnd.google-apps.presentation" => "pptx"
    case "application/vnd.google-apps.drawing" => "svg"
    case _ => ""
  }

  /** Only exported Workspace objects are renamed, and only to carry their extension. */
  lemma SyncNameMeaning(f: DriveFile)
    ensures var extension := ExportOf(f.mimeType);
            && SyncName(f) == (if extension == "" || Carries(f.name, extension) then f.name
                               else f.name + "." + extension)
            && (extension != "" && f.name != "" ==> Carries(SyncName(f), extension))
  {
    var extension := ExportOf(f.mimeType);
    CarriesMeaning(f.name, extension);
    if extension != "" && f.name != "" && !Carries(f.name, extension) {
      assert SyncName(f) == f.name + "." + extension;
      assert Lacks(extension, '.') && EqIgnoreAsciiCase(extension, extension);
    }
  }

  /** The converted path appends the extension to the path, unless its file name carries it. */
  lemma ConvertedPathMeaning(path: RelativePath, dir: string, name: string, extension: string)
    requires path == dir + name && Lacks(name, '/') && (dir == "" || dir[|dir| - 1] == '/')
    ensures ConvertedRelativePath(path, extension) ==
              Normalize(if extension == "" || Carries(name, extension) then path else path + "." + extension)
  {
    SplitDirOf(dir, name);
    CarriesMeaning(name, extension);
    hide SplitDir, NameHasExtension, Normalize;
    assert dir + (name + "." + extension) == path + "." + extension;
  }

  // ----------------------------------------------------------------- new records

  /** The record written after a transfer, from local facts and the given metadata. */
  function RecordFrom(local: LocalFile, remote: DriveFile, now: Instant): SyncRecord {
    SyncRecord(
      Some(remote.id),
      Some(RemoteContentFingerprint(remote)),
      Some(remote.mimeType),
      Some(remote.modifiedTime),
      local.md5,
      local.mtime,
      local.size,
      now,
      remote.headRevisionId,
      remote.version,
      FromProperties(remote.appProperties))
  }

  /** The record after `TouchMetadata`: local facts refreshed, remote facts kept. */
  function TouchedRecord(record: SyncRecord, local: LocalFile, now: Instant): SyncRecord {
    record.(localMd5 := local.md5, localMtime := local.mtime, localSize := local.size, lastSyncedAt := now)
  }
}
