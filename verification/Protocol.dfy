/**
 Any number of devices reconciling one Drive object, with local edits, edits in the
 Drive web interface, listings that may be out of date, and transfers that stop part
 way. Contents are identified by their MD5. Every edit makes new content.

 The results: no version that nobody edited on top of is ever lost (`NoVersionIsLost`),
 every replacement is of recorded or copied content (`ReplacementIsSafe`), and no version
 is lost under any policy whose one-sided writes discard none (`ConsiderateRunsLoseNothing`).
*/
module Protocol {
  import opened Wrappers
  import opened Coordination
  import opened Paths
  import opened Records
  import opened Decision

  // ------------------------------------------------------------------- the Drive

  /** Which optional metadata Drive exposes for the object. */
  datatype Exposure = Exposure(md5: bool, headRevision: bool, version: bool)

  /** One state of the object; `rev` numbers its media revisions. */
  datatype Snapshot = Snapshot(file: DriveFile, content: string, rev: nat)

  predicate PlainContent(c: string) {
    !(MTIME_PREFIX <= c)
  }

  predicate Shaped(e: Exposure, s: Snapshot) {
    && s.file.md5Checksum == (if e.md5 then Some(s.content) else None)
    && (s.file.headRevisionId.Some? <==> e.headRevision)
    && (s.file.version.Some? <==> e.version)
    && PlainContent(s.content)
  }

  /** `b` is a later state than `a`. */
  predicate Later(e: Exposure, a: Snapshot, b: Snapshot) {
    && a.file.id == b.file.id
    && a.rev <= b.rev && (a.rev == b.rev ==> a.content == b.content)
    && a.file.modifiedTime <= b.file.modifiedTime
    && (a.file.modifiedTime == b.file.modifiedTime ==> a.rev == b.rev)
    && (e.headRevision && a.file.headRevisionId == b.file.headRevisionId ==> a.rev == b.rev)
    && (e.version ==> a.file.version != b.file.version)
  }

  ghost predicate Lawful(e: Exposure, h: seq<Snapshot>) {
    && h != []
    && (forall i :: 0 <= i < |h| ==> Shaped(e, h[i]))
    && (forall i, j :: 0 <= i < j < |h| ==> Later(e, h[i], h[j]))
  }

  function Last(h: seq<Snapshot>): Snapshot
    requires h != []
  {
    h[|h| - 1]
  }

  /** New media: a new revision; app properties stay. */
  predicate MediaWrite(h: seq<Snapshot>, s: Snapshot)
    requires h != []
  {
    s.rev == Last(h).rev + 1 && s.file.appProperties == Last(h).file.appProperties
  }

  /** Patched app properties: the revision stays. */
  predicate PropertiesWrite(h: seq<Snapshot>, patch: Properties, s: Snapshot)
    requires h != []
  {
    && s.rev == Last(h).rev && s.content == Last(h).content
    && s.file.headRevisionId == Last(h).file.headRevisionId
    && s.file.appProperties == Patched(Last(h).file.appProperties, patch)
  }

  // -------------------------------------------------------------------- the world

  /** `syncedAt`: how many uploads had completed when the record was written. */
  datatype Device = Device(local: Option<LocalFile>, record: Option<SyncRecord>, syncedAt: nat)

  datatype Setup = Setup(path: RelativePath, policy: ConflictPolicy, exposure: Exposure, vector0: Vector) {
    predicate KeepsBoth() {
      policy.CopyPolicy? || policy.RenamePolicy?
    }
  }

  /**
   `history` ends with the current state of the object. `copies` holds the contents of
   conflict copies. `parent` maps every version to the one it was edited on top of.
   `uploads` lists the devices of completed uploads in order.
  */
  datatype World = World(
    history: seq<Snapshot>,
    devices: map<string, Device>,
    copies: set<string>,
    parent: map<string, Option<string>>,
    uploads: seq<string>)

  function Current(w: World): Snapshot
    requires w.history != []
  {
    Last(w.history)
  }

  predicate HasLocal(w: World, d: string, c: string) {
    d in w.devices && w.devices[d].local.Some? && w.devices[d].local.value.md5 == c
  }

  predicate EditedOn(w: World, v: string) {
    exists child :: child in w.parent && w.parent[child] == Some(v)
  }

  predicate Readable(w: World, v: string)
    requires w.history != []
  {
    v == Current(w).content || v in w.copies || exists d :: d in w.devices && HasLocal(w, d, v)
  }

  predicate Superseded(w: World, v: string) {
    v in w.copies || EditedOn(w, v)
  }

  // -------------------------------------------------------------------- the steps

  /** How far a transfer got before it stopped. */
  datatype Stage = Nothing | CopySaved | MediaWritten | PropertiesWritten | Done

  /** What the environment contributes to one sync of the path. */
  datatype Outcome = Outcome(stage: Stage, media: Snapshot, patched: Snapshot, written: LocalFile, now: Instant)

  datatype Step =
    | LocalEdit(d: string, file: LocalFile)
    | LocalTouch(d: string, mtime: Instant, size: nat)
    | WebEdit(media: Snapshot)
    | ForgetRecord(d: string)
    | Sync(d: string, listed: nat, stamp: string, outcome: Outcome)

  function SetDevice(w: World, d: string, device: Device): World {
    w.(devices := w.devices[d := device])
  }

  function Append(w: World, s: Snapshot): World {
    w.(history := w.history + [s])
  }

  function AddVersion(w: World, v: string, base: Option<string>): World {
    w.(parent := w.parent[v := base])
  }

  function SaveCopy(w: World): World
    requires w.history != []
  {
    w.(copies := w.copies + {Current(w).content})
  }

  function WithRecord(w: World, d: string, record: SyncRecord): World
    requires d in w.devices
  {
    SetDevice(w, d, w.devices[d].(record := Some(record), syncedAt := |w.uploads|))
  }

  /** The vector an upload writes: both sides merged, own counter incremented. */
  function NextVector(record: Option<SyncRecord>, listedRow: DriveFile, d: string): Vector {
    var stored := if record.Some? then record.value.versionVector else map[];
    Incremented(Merged(stored, FromProperties(listedRow.appProperties)), d)
  }

  function UploadPatch(record: Option<SyncRecord>, listedRow: DriveFile, d: string): Properties {
    WithVector(listedRow.appProperties, NextVector(record, listedRow, d), d)
  }

  ghost predicate UploadAnswers(e: Exposure, w: World, d: string, row: DriveFile, o: Outcome)
    requires w.history != [] && d in w.devices && w.devices[d].local.Some?
  {
    var h := w.history;
    && o.media.content == o.patched.content == w.devices[d].local.value.md5
    && MediaWrite(h, o.media) && Lawful(e, h + [o.media])
    && PropertiesWrite(h + [o.media], UploadPatch(w.devices[d].record, row, d), o.patched)
    && Lawful(e, h + [o.media] + [o.patched])
  }

  /** Media, then properties, then the record. */
  function AfterUpload(w: World, d: string, o: Outcome): World
    requires d in w.devices && w.devices[d].local.Some?
  {
    match o.stage
    case MediaWritten => Append(w, o.media)
    case PropertiesWritten => Append(Append(w, o.media), o.patched)
    case Done =>
      var stored := Append(Append(w, o.media), o.patched).(uploads := w.uploads + [d]);
      WithRecord(stored, d, RecordFrom(w.devices[d].local.value, o.patched.file, o.now))
    case _ => w
  }

  /** The current content goes to a copy, then the upload runs without a guard. */
  function AfterConflict(w: World, d: string, o: Outcome): World
    requires w.history != [] && d in w.devices && w.devices[d].local.Some?
  {
    if o.stage.Nothing? then w else AfterUpload(SaveCopy(w), d, o)
  }

  /** The current content is written to disk; the record describes the listed row. */
  function AfterDownload(w: World, d: string, row: DriveFile, o: Outcome): World
    requires w.history != [] && d in w.devices
  {
    match o.stage
    case Done => WithRecord(SetDevice(w, d, w.devices[d].(local := Some(o.written))), d, RecordFrom(o.written, row,
        o.now))
    case MediaWritten => SetDevice(w, d, w.devices[d].(local := Some(o.written)))
    case _ => w
  }

  function Decide(setup: Setup, w: World, d: string, listed: nat, stamp: string): SyncAction
    requires d in w.devices && listed < |w.history|
  {
    var row := w.history[listed].file;
    DetermineAction(setup.path, w.devices[d].local, Some(row), w.devices[d].record, setup.policy, stamp, {row.id})
  }

  ghost predicate SyncStep(setup: Setup, w: World, d: string, listed: nat, stamp: string, o: Outcome, w': World)
    requires w.history != [] && d in w.devices && listed < |w.history|
  {
    var dev := w.devices[d];
    var row := w.history[listed].file;
    match Decide(setup, w, d, listed, stamp)
    case Skip(_) => w' == w
    case TouchMetadata(_) =>
      w' == w || (dev.local.Some? && dev.record.Some?
                  && w' == SetDevice(w, d,
                         dev.(record := Some(TouchedRecord(dev.record.value, dev.local.value, o.now)))))
    case Download(_, _) => o.written.md5 == Current(w).content && w' == AfterDownload(w, d, row, o)
    case Upload(_, _) =>
      && dev.local.Some?
      && (if RevisionGuardMatches(Current(w).file, GuardFromRecord(dev.record))
          then UploadAnswers(setup.exposure, w, d, row, o) && w' == AfterUpload(w, d, o)
          else UploadAnswers(setup.exposure, w, d, Current(w).file, o) && w' == AfterConflict(w, d, o))
    case Conflict(_, _, _, resolution) =>
      && dev.local.Some?
      && (match resolution
          case LocalWins => UploadAnswers(setup.exposure, w, d, row, o) && w' == AfterUpload(w, d, o)
          case RemoteWins => o.written.md5 == Current(w).content && w' == AfterDownload(w, d, row, o)
          case _ => UploadAnswers(setup.exposure, w, d, row, o) && w' == AfterConflict(w, d, o))
    case _ => false
  }

  ghost predicate Next(setup: Setup, w: World, step: Step, w': World)
    requires w.history != []
  {
    match step
    case LocalEdit(d, file) =>
      && d in w.devices && file.md5 !in w.parent && PlainContent(file.md5)
      && var dev := w.devices[d];
         var base := if dev.local.Some? then Some(dev.local.value.md5) else None;
         w' == SetDevice(AddVersion(w, file.md5, base), d, dev.(local := Some(file)))
    case LocalTouch(d, mtime, size) =>
      && d in w.devices && w.devices[d].local.Some?
      && w' == SetDevice(w, d, w.devices[d].(local := Some(w.devices[d].local.value.(mtime := mtime, size := size))))
    case WebEdit(media) =>
      && media.content !in w.parent
      && MediaWrite(w.history, media) && Lawful(setup.exposure, w.history + [media])
      && w' == Append(AddVersion(w, media.content, Some(Current(w).content)), media)
    case ForgetRecord(d) =>
      d in w.devices && w' == SetDevice(w, d, w.devices[d].(record := None))
    case Sync(d, listed, stamp, o) =>
      d in w.devices && listed < |w.history| && SyncStep(setup, w, d, listed, stamp, o, w')
  }

  /** One state of the object, devices that never synced, no copies. */
  ghost predicate Init(setup: Setup, w: World) {
    && |w.history| == 1 && Lawful(setup.exposure, w.history)
    && FromProperties(w.history[0].file.appProperties) == setup.vector0
    && w.copies == {} && w.uploads == []
    && (forall d :: d in w.devices ==> w.devices[d].record.None?)
    && w.history[0].content in w.parent
    && (forall d :: d in w.devices && w.devices[d].local.Some? ==> w.devices[d].local.value.md5 in w.parent)
    && (forall v :: v in w.parent ==> w.parent[v].None? && Readable(w, v))
  }

  ghost predicate IsRun(setup: Setup, run: seq<World>, steps: seq<Step>) {
    && |run| == |steps| + 1 && Init(setup, run[0])
    && forall i :: 0 <= i < |steps| ==> run[i].history != [] && Next(setup, run[i], steps[i], run[i + 1])
  }

  // ------------------------------------------------------------ the revision guard

  function GuardOf(file: DriveFile): RevisionGuard {
    RevisionGuard(file.headRevisionId, file.version, Some(RemoteContentFingerprint(file)), Some(file.modifiedTime))
  }

  predicate Matches(s: Snapshot, base: Snapshot) {
    RevisionGuardMatches(s.file, GuardOf(base.file))
  }

  lemma MatchMeaning(e: Exposure, s: Snapshot, base: Snapshot)
    requires Shaped(e, s) && Shaped(e, base)
    ensures Matches(s, base) <==>
            if e.headRevision then s.file.headRevisionId == base.file.headRevisionId
            else if e.version then s.file.version == base.file.version
            else if e.md5 then s.content == base.content
            else s.file.modifiedTime == base.file.modifiedTime
  {
    FingerprintMeaning(s.file, base.file);
    hide RemoteContentFingerprint;
  }

  /** A matching guard means that the object still has the recorded content. */
  lemma GuardIdentifiesContent(e: Exposure, h: seq<Snapshot>, base: nat)
    requires Lawful(e, h) && base < |h| && Matches(Last(h), h[base])
    ensures h[base].content == Last(h).content
  {
    hide Matches;
    MatchMeaning(e, Last(h), h[base]);
    assert base < |h| - 1 ==> Later(e, h[base], h[|h| - 1]);
  }

  /** A guard that matches after a write matched before, or its base was replaced since. */
  lemma GuardAfterWrite(e: Exposure, h: seq<Snapshot>, s: Snapshot, base: nat)
    requires h != [] && Lawful(e, h + [s]) && base < |h|
    requires || MediaWrite(h, s)
             || (s.rev == Last(h).rev && s.file.headRevisionId == Last(h).file.headRevisionId
                 && s.content == Last(h).content)
    requires Matches(s, h[base])
    ensures h[base].content == s.content
    ensures Matches(Last(h), h[base]) || h[base].content != Last(h).content
  {
    hide Matches;
    var h' := h + [s];
    assert h'[base] == h[base] && h'[|h|] == s && h'[|h| - 1] == Last(h);
    assert Shaped(e, h'[base]) && Shaped(e, h'[|h|]) && Shaped(e, h'[|h| - 1]);
    assert Later(e, h'[base], h'[|h|]) && Later(e, h'[|h| - 1], h'[|h|]);
    assert base < |h| - 1 ==> Later(e, h'[base], h'[|h| - 1]);
    MatchMeaning(e, s, h[base]);
    MatchMeaning(e, Last(h), h[base]);
  }

  // --------------------------------------------------------------------- invariant

  /** The record describes some state of the object and content that once was remote. */
  ghost predicate RecordBase(w: World, record: SyncRecord, base: nat) {
    && base < |w.history|
    && GuardFromRecord(Some(record)) == GuardOf(w.history[base].file)
    && exists i :: 0 <= i < |w.history| && w.history[i].content == record.localMd5
  }

  /** With a matching guard, what an upload of `dev` would replace is safe to replace. */
  ghost predicate GuardIsSound(w: World, dev: Device)
    requires w.history != [] && dev.record.Some? && dev.local.Some?
  {
    RevisionGuardMatches(Current(w).file, GuardFromRecord(dev.record)) ==>
      && (dev.record.value.localMd5 == Current(w).content || Superseded(w, Current(w).content))
      && (dev.local.value.md5 != dev.record.value.localMd5 ==> Superseded(w, Current(w).content))
  }

  ghost predicate DeviceOk(w: World, dev: Device)
    requires w.history != []
  {
    && (dev.local.Some? ==> dev.local.value.md5 in w.parent)
    && (dev.record.Some? ==>
          && dev.local.Some?
          && (exists base :: RecordBase(w, dev.record.value, base))
          && GuardIsSound(w, dev))
  }

  ghost predicate PublishedOk(w: World, c: string)
    requires w.history != []
  {
    c in w.parent && (c == Current(w).content || Superseded(w, c))
  }

  /** Every version outside `open` was edited on top of, or can be read. */
  ghost predicate VersionsOk(w: World, open: set<string>)
    requires w.history != []
  {
    forall v :: v in w.parent && v !in open ==> EditedOn(w, v) || Readable(w, v)
  }

  ghost predicate InvBut(setup: Setup, w: World, open: set<string>) {
    && w.history != [] && Lawful(setup.exposure, w.history)
    && (forall d :: d in w.devices ==> DeviceOk(w, w.devices[d]))
    && (forall i :: 0 <= i < |w.history| ==> PublishedOk(w, w.history[i].content))
    && VersionsOk(w, open)
  }

  ghost predicate Inv(setup: Setup, w: World) {
    InvBut(setup, w, {})
  }

  // ------------------------------------------------------- what each change keeps

  /** The Drive object is the same and nothing that was superseded is forgotten. */
  ghost predicate Grows(w: World, w': World) {
    && w.history == w'.history && w.parent.Keys <= w'.parent.Keys
    && forall v :: Superseded(w, v) ==> Superseded(w', v)
  }

  lemma DeviceOkGrows(w: World, w': World, dev: Device)
    requires w.history != [] && Grows(w, w') && DeviceOk(w, dev)
    ensures DeviceOk(w', dev)
  {
    hide RevisionGuardMatches, GuardFromRecord, Superseded, GuardOf;
    if dev.record.Some? {
      var base: nat :| RecordBase(w, dev.record.value, base);
      assert RecordBase(w', dev.record.value, base);
    }
  }

  lemma PublishedGrows(setup: Setup, w: World, w': World, open: set<string>)
    requires InvBut(setup, w, open) && Grows(w, w')
    ensures forall i :: 0 <= i < |w'.history| ==> PublishedOk(w', w'.history[i].content)
    ensures Lawful(setup.exposure, w'.history)
  {
    hide Lawful, DeviceOk, VersionsOk, Superseded;
    forall i | 0 <= i < |w'.history| ensures PublishedOk(w', w'.history[i].content) {
      assert PublishedOk(w, w.history[i].content);
    }
  }

  /** Replacing the current content keeps the invariant when it was safe to replace. */
  lemma AppendKeeps(setup: Setup, w: World, s: Snapshot, open: set<string>)
    requires InvBut(setup, w, open) && open <= {s.content}
    requires Lawful(setup.exposure, w.history + [s])
    requires MediaWrite(w.history, s) || SameMedia(w, s)
    requires s.content in w.parent
    requires s.content == Current(w).content || Superseded(w, Current(w).content)
    ensures Inv(setup, Append(w, s))
  {
    var w' := Append(w, s);
    hide RevisionGuardMatches, Lawful, DeviceOk;
    forall d | d in w'.devices ensures DeviceOk(w', w'.devices[d]) {
      AppendKeepsDevice(setup, w, s, open, w.devices[d]);
    }
    forall i | 0 <= i < |w'.history| ensures PublishedOk(w', w'.history[i].content) {
      assert i < |w.history| ==> w'.history[i] == w.history[i];
    }
    forall v | v in w'.parent ensures EditedOn(w', v) || Readable(w', v) {
      AppendKeepsVersion(w, s, v, open);
    }
  }

  predicate SameMedia(w: World, s: Snapshot)
    requires w.history != []
  {
    s.rev == Current(w).rev && s.file.headRevisionId == Current(w).file.headRevisionId
        && s.content == Current(w).content
  }

  lemma AppendKeepsVersion(w: World, s: Snapshot, v: string, open: set<string>)
    requires w.history != [] && VersionsOk(w, open) && open <= {s.content} && v in w.parent
    requires s.content == Current(w).content || Superseded(w, Current(w).content)
    ensures EditedOn(Append(w, s), v) || Readable(Append(w, s), v)
  {
    var w' := Append(w, s);
    if EditedOn(w, v) {
      assert EditedOn(w', v);
    } else if v != s.content && v != Current(w).content && v !in w.copies {
      assert Readable(w, v);
      var d :| d in w.devices && HasLocal(w, d, v);
      assert HasLocal(w', d, v);
    }
  }

  lemma AppendKeepsDevice(setup: Setup, w: World, s: Snapshot, open: set<string>, dev: Device)
    requires InvBut(setup, w, open) && DeviceOk(w, dev)
    requires Lawful(setup.exposure, w.history + [s])
    requires MediaWrite(w.history, s) || SameMedia(w, s)
    ensures DeviceOk(Append(w, s), dev)
  {
    hide Lawful, RemoteContentFingerprint, RevisionGuardMatches, VersionsOk;
    var w' := Append(w, s);
    if dev.record.Some? {
      var base: nat :| RecordBase(w, dev.record.value, base);
      RecordBaseAppend(w, s, dev.record.value, base);
      if RevisionGuardMatches(s.file, GuardFromRecord(dev.record)) {
        MatchAfterAppend(setup, w, s, open, dev, base);
      }
    }
  }

  lemma RecordBaseAppend(w: World, s: Snapshot, record: SyncRecord, base: nat)
    requires RecordBase(w, record, base)
    ensures RecordBase(Append(w, s), record, base)
  {
    var w' := Append(w, s);
    var i :| 0 <= i < |w.history| && w.history[i].content == record.localMd5;
    assert w'.history[base] == w.history[base] && w'.history[i] == w.history[i];
  }

  lemma MatchAfterAppend(setup: Setup, w: World, s: Snapshot, open: set<string>, dev: Device, base: nat)
    requires InvBut(setup, w, open) && DeviceOk(w, dev) && dev.record.Some?
    requires RecordBase(w, dev.record.value, base)
    requires Lawful(setup.exposure, w.history + [s])
    requires MediaWrite(w.history, s) || SameMedia(w, s)
    requires RevisionGuardMatches(s.file, GuardFromRecord(dev.record))
    ensures GuardIsSound(Append(w, s), dev)
  {
    hide Lawful, RemoteContentFingerprint, RevisionGuardMatches, VersionsOk, GuardFromRecord;
    GuardAfterWrite(setup.exposure, w.history, s, base);
    assert PublishedOk(w, w.history[base].content);
    assert Superseded(w, s.content) ==> Superseded(Append(w, s), s.content);
    if Matches(Last(w.history), w.history[base]) {
      GuardIdentifiesContent(setup.exposure, w.history, base);
    }
  }

  /** Saving the current content as a copy only makes more of it readable. */
  lemma SaveCopyKeeps(setup: Setup, w: World)
    requires Inv(setup, w)
    ensures Inv(setup, SaveCopy(w)) && Superseded(SaveCopy(w), Current(w).content)
  {
    hide RevisionGuardMatches, Lawful, GuardFromRecord, DeviceOk;
    var w' := SaveCopy(w);
    assert Grows(w, w');
    forall d | d in w'.devices ensures DeviceOk(w', w'.devices[d]) {
      DeviceOkGrows(w, w', w.devices[d]);
    }
    PublishedGrows(setup, w, w', {});
    forall v | v in w'.parent ensures EditedOn(w', v) || Readable(w', v) {
      assert EditedOn(w, v) || Readable(w, v);
      if d :| d in w.devices && HasLocal(w, d, v) { assert HasLocal(w', d, v); }
    }
  }

  /** A device may change as long as it stays sound and leaves no version behind. */
  lemma SetDeviceKeeps(setup: Setup, w: World, d: string, dev: Device, open: set<string>)
    requires InvBut(setup, w, open) && d in w.devices && DeviceOk(w, dev)
    requires open <= (if dev.local.Some? then {dev.local.value.md5} else {})
    requires LeavesNothing(w, w.devices[d], dev)
    ensures Inv(setup, SetDevice(w, d, dev))
  {
    hide RevisionGuardMatches, Lawful, GuardFromRecord, DeviceOk;
    var w' := SetDevice(w, d, dev);
    assert Grows(w, w') by { assert forall v :: EditedOn(w, v) ==> EditedOn(w', v); }
    forall x | x in w'.devices ensures DeviceOk(w', w'.devices[x]) {
      DeviceOkGrows(w, w', w'.devices[x]);
    }
    PublishedGrows(setup, w, w', open);
    forall v | v in w'.parent ensures EditedOn(w', v) || Readable(w', v) {
      SetDeviceKeepsVersion(w, d, dev, v, open);
    }
  }

  /** The content that `dev` replaces is still on the device, on Drive or superseded. */
  predicate LeavesNothing(w: World, before: Device, dev: Device)
    requires w.history != []
  {
    before.local.Some? ==>
      var c := before.local.value.md5;
      (dev.local.Some? && dev.local.value.md5 == c) || c == Current(w).content || Superseded(w, c)
  }

  lemma SetDeviceKeepsVersion(w: World, d: string, dev: Device, v: string, open: set<string>)
    requires w.history != [] && VersionsOk(w, open) && v in w.parent && d in w.devices
    requires open <= (if dev.local.Some? then {dev.local.value.md5} else {})
    requires LeavesNothing(w, w.devices[d], dev)
    ensures EditedOn(SetDevice(w, d, dev), v) || Readable(SetDevice(w, d, dev), v)
  {
    var w' := SetDevice(w, d, dev);
    if EditedOn(w, v) {
      assert EditedOn(w', v);
    } else if v in open {
      assert HasLocal(w', d, v);
    } else if v != Current(w).content && v !in w.copies {
      assert Readable(w, v);
      var x :| x in w.devices && HasLocal(w, x, v);
      assert x != d ==> HasLocal(w', x, v);
      assert x == d ==> HasLocal(w', d, v);
    }
  }

  /** A version made on top of `base` is left to be stored by the rest of the step. */
  lemma AddVersionKeeps(setup: Setup, w: World, v: string, base: Option<string>)
    requires Inv(setup, w) && v !in w.parent
    ensures InvBut(setup, AddVersion(w, v, base), {v})
    ensures base.Some? ==> Superseded(AddVersion(w, v, base), base.value)
  {
    hide RevisionGuardMatches, Lawful, GuardFromRecord, DeviceOk;
    var w' := AddVersion(w, v, base);
    assert w'.parent[v] == base;
    forall c | EditedOn(w, c) ensures EditedOn(w', c) {
      var child :| child in w.parent && w.parent[child] == Some(c);
      assert w'.parent[child] == Some(c);
    }
    assert Grows(w, w');
    forall d | d in w'.devices ensures DeviceOk(w', w'.devices[d]) {
      DeviceOkGrows(w, w', w.devices[d]);
    }
    PublishedGrows(setup, w, w', {});
    forall c | c in w'.parent && c !in {v} ensures EditedOn(w', c) || Readable(w', c) {
      assert EditedOn(w, c) || Readable(w, c);
      if d :| d in w.devices && HasLocal(w, d, c) { assert HasLocal(w', d, c); }
    }
  }

  // ------------------------------------------------------------------- the steps

  lemma InitInv(setup: Setup, w: World)
    requires Init(setup, w)
    ensures Inv(setup, w)
  {
    hide Lawful;
  }

  lemma LocalEditKeeps(setup: Setup, w: World, d: string, file: LocalFile, w': World)
    requires Inv(setup, w) && Next(setup, w, LocalEdit(d, file), w')
    ensures Inv(setup, w')
  {
    hide Lawful, VersionsOk, GuardFromRecord, RevisionGuardMatches;
    var dev := w.devices[d];
    var base := if dev.local.Some? then Some(dev.local.value.md5) else None;
    var w1 := AddVersion(w, file.md5, base);
    AddVersionKeeps(setup, w, file.md5, base);
    var dev' := dev.(local := Some(file));
    assert DeviceOk(w, dev) && DeviceOk(w1, w1.devices[d]);
    SetDeviceKeeps(setup, w1, d, dev', {file.md5});
  }

  lemma WebEditKeeps(setup: Setup, w: World, media: Snapshot, w': World)
    requires Inv(setup, w) && Next(setup, w, WebEdit(media), w')
    ensures Inv(setup, w')
  {
    hide Lawful, VersionsOk, DeviceOk, RevisionGuardMatches;
    AddVersionKeeps(setup, w, media.content, Some(Current(w).content));
    AppendKeeps(setup, AddVersion(w, media.content, Some(Current(w).content)), media, {media.content});
  }

  lemma LocalChangesKeep(setup: Setup, w: World, step: Step, w': World)
    requires Inv(setup, w) && Next(setup, w, step, w')
    requires step.LocalTouch? || step.ForgetRecord?
    ensures Inv(setup, w')
  {
    hide Lawful, VersionsOk, GuardFromRecord, RevisionGuardMatches;
    assert DeviceOk(w, w.devices[step.d]);
    SetDeviceKeeps(setup, w, step.d, w'.devices[step.d], {});
  }

  /** Content once remote is safe to replace locally: it is still remote or superseded. */
  lemma RecordedContentIsPublished(setup: Setup, w: World, dev: Device)
    requires Inv(setup, w) && DeviceOk(w, dev) && dev.record.Some?
    ensures PublishedOk(w, dev.record.value.localMd5)
  {
    hide Lawful, VersionsOk, RevisionGuardMatches, GuardFromRecord;
    var base: nat :| RecordBase(w, dev.record.value, base);
    var i :| 0 <= i < |w.history| && w.history[i].content == dev.record.value.localMd5;
    assert PublishedOk(w, w.history[i].content);
  }

  /** A record written for the listed row and the current content is sound. */
  lemma FreshRecordIsSound(w: World, dev: Device, listed: nat, now: Instant)
    requires w.history != [] && listed < |w.history|
    requires dev.local.Some? && dev.local.value.md5 == Current(w).content
    requires Current(w).content in w.parent
    requires dev.record == Some(RecordFrom(dev.local.value, w.history[listed].file, now))
    ensures DeviceOk(w, dev)
  {
    hide RemoteContentFingerprint, RevisionGuardMatches, FromProperties;
    assert RecordBase(w, dev.record.value, listed);
  }

  lemma DownloadKeeps(setup: Setup, w: World, d: string, listed: nat, o: Outcome)
    requires Inv(setup, w) && d in w.devices && listed < |w.history|
    requires w.devices[d].local.Some? ==> Replaceable(w, w.devices[d].local.value.md5)
    requires o.written.md5 == Current(w).content
    ensures Inv(setup, AfterDownload(w, d, w.history[listed].file, o))
  {
    hide Lawful, VersionsOk, RevisionGuardMatches, GuardFromRecord, RecordFrom;
    var dev := w.devices[d];
    var dev' := AfterDownload(w, d, w.history[listed].file, o).devices[d];
    assert DeviceOk(w, dev) && PublishedOk(w, w.history[|w.history| - 1].content);
    if o.stage.Done? { FreshRecordIsSound(w, dev', listed, o.now); }
    if o.stage.Done? || o.stage.MediaWritten? {
      assert AfterDownload(w, d, w.history[listed].file, o).devices == w.devices[d := dev'];
      SetDeviceKeeps(setup, w, d, dev', {});
    }
  }

  /** An upload is safe when what it replaces is superseded, or is what it writes. */
  lemma UploadKeeps(setup: Setup, w: World, d: string, row: DriveFile, o: Outcome)
    requires Inv(setup, w) && d in w.devices && w.devices[d].local.Some?
    requires Superseded(w, Current(w).content) || Current(w).content == w.devices[d].local.value.md5
    requires UploadAnswers(setup.exposure, w, d, row, o)
    ensures Inv(setup, AfterUpload(w, d, o))
  {
    hide Lawful, VersionsOk, DeviceOk, RevisionGuardMatches, GuardFromRecord, RecordFrom, UploadPatch, Patched;
    assert w.devices[d].local.value.md5 in w.parent by { LocalIsAVersion(setup, w, d); }
    var w1 := Append(w, o.media);
    AppendKeeps(setup, w, o.media, {});
    assert Superseded(w1, o.media.content) || o.media.content == Current(w1).content;
    var w2 := Append(w1, o.patched);
    AppendKeeps(setup, w1, o.patched, {});
    if o.stage.Done? { UploadRecordKeeps(setup, w2, d, o); }
  }

  lemma LocalIsAVersion(setup: Setup, w: World, d: string)
    requires Inv(setup, w) && d in w.devices && w.devices[d].local.Some?
    ensures w.devices[d].local.value.md5 in w.parent
  {
    hide Lawful, VersionsOk, RecordBase, GuardIsSound;
    assert DeviceOk(w, w.devices[d]);
  }

  lemma UploadRecordKeeps(setup: Setup, w: World, d: string, o: Outcome)
    requires Inv(setup, w) && d in w.devices && w.devices[d].local.Some?
    requires Current(w) == o.patched && o.patched.content == w.devices[d].local.value.md5
    ensures Inv(setup, WithRecord(w.(uploads := w.uploads + [d]), d,
        RecordFrom(w.devices[d].local.value, o.patched.file, o.now)))
  {
    hide Lawful, RevisionGuardMatches, GuardFromRecord, RecordFrom, DeviceOk;
    var u := w.(uploads := w.uploads + [d]);
    UploadCountIsInert(setup, w, u);
    LocalIsAVersion(setup, w, d);
    var dev := WithRecord(u, d, RecordFrom(w.devices[d].local.value, o.patched.file, o.now)).devices[d];
    FreshRecordIsSound(u, dev, |u.history| - 1, o.now);
    SetDeviceKeeps(setup, u, d, dev, {});
  }

  lemma UploadCountIsInert(setup: Setup, w: World, u: World)
    requires Inv(setup, w) && u == w.(uploads := u.uploads)
    ensures Inv(setup, u)
  {
    hide Lawful, RevisionGuardMatches, GuardFromRecord, DeviceOk;
    assert forall v :: EditedOn(w, v) <==> EditedOn(u, v);
    assert Grows(w, u);
    forall x | x in u.devices ensures DeviceOk(u, u.devices[x]) { DeviceOkGrows(w, u, w.devices[x]); }
    PublishedGrows(setup, w, u, {});
    forall v | v in u.parent ensures EditedOn(u, v) || Readable(u, v) {
      assert EditedOn(w, v) || Readable(w, v);
      if x :| x in w.devices && HasLocal(w, x, v) { assert HasLocal(u, x, v); }
    }
  }

  lemma ConflictKeeps(setup: Setup, w: World, d: string, row: DriveFile, o: Outcome)
    requires Inv(setup, w) && d in w.devices && w.devices[d].local.Some?
    requires UploadAnswers(setup.exposure, w, d, row, o)
    ensures Inv(setup, AfterConflict(w, d, o))
  {
    hide Lawful, VersionsOk, DeviceOk, PublishedOk, UploadPatch, Superseded, Patched;
    if !o.stage.Nothing? {
      SaveCopyKeeps(setup, w);
      assert Current(SaveCopy(w)) == Current(w) && SaveCopy(w).history == w.history && SaveCopy(w).devices == w.devices;
      UploadKeeps(setup, SaveCopy(w), d, row, o);
    }
  }

  lemma GuardedUploadKeeps(setup: Setup, w: World, d: string, row: DriveFile, o: Outcome)
    requires Inv(setup, w) && d in w.devices
    requires var dev := w.devices[d];
             dev.local.Some? && dev.record.Some? && dev.local.value.md5 != dev.record.value.localMd5
    requires RevisionGuardMatches(Current(w).file, GuardFromRecord(w.devices[d].record))
    requires UploadAnswers(setup.exposure, w, d, row, o)
    ensures Inv(setup, AfterUpload(w, d, o))
  {
    assert Superseded(w, Current(w).content) by {
      hide Lawful, VersionsOk, RevisionGuardMatches, GuardFromRecord;
      assert DeviceOk(w, w.devices[d]);
    }
    UploadKeeps(setup, w, d, row, o);
  }

  /** What the decision says about the device's bytes. */
  lemma DecisionMeaning(setup: Setup, w: World, d: string, listed: nat, stamp: string)
    requires d in w.devices && listed < |w.history|
    ensures var dev, a := w.devices[d], Decide(setup, w, d, listed, stamp);
            && (a.Download? && dev.local.Some? ==> dev.record.Some? && dev.record.value.localMd5 == dev.local.value.md5)
            && (a.Upload? ==> dev.local.Some? && dev.record.Some? && dev.record.value.localMd5 != dev.local.value.md5)
            && (a.TouchMetadata? && dev.local.Some? && dev.record.Some?
                ==> dev.record.value.localMd5 == dev.local.value.md5)
            && (a.Conflict? ==> dev.local.Some?)
            && (a.Conflict? && setup.KeepsBoth() ==> a.resolution.ConflictCopy? || a.resolution.Rename?)
  {
    hide RemoteContentFingerprint, FromProperties, Below;
  }

  /** Content that a device may replace: it is on Drive, in a copy, or was edited on top of. */
  predicate Replaceable(w: World, c: string)
    requires w.history != []
  {
    c == Current(w).content || Superseded(w, c)
  }

  /**
   The step does not discard a version: a `LocalWins` write replaces superseded content or
   writes the same, and so does the local write of a `RemoteWins`. Steps of a policy that
   keeps both sides never discard one.
  */
  predicate Considerate(setup: Setup, w: World, step: Step) {
    step.Sync? && step.d in w.devices && step.listed < |w.history| ==>
      var (dev, a, stage) := (w.devices[step.d], Decide(setup, w, step.d, step.listed, step.stamp), step.outcome.stage);
      a.Conflict? && dev.local.Some? ==>
        && (a.resolution.LocalWins? && stage in {MediaWritten, PropertiesWritten, Done} ==>
              Superseded(w, Current(w).content) || Current(w).content == dev.local.value.md5)
        && (a.resolution.RemoteWins? && stage in {MediaWritten, Done} ==> Replaceable(w, dev.local.value.md5))
  }

  lemma KeepsBothIsConsiderate(setup: Setup, w: World, step: Step)
    requires setup.KeepsBoth()
    ensures Considerate(setup, w, step)
  {
    hide Superseded;
    if step.Sync? && step.d in w.devices && step.listed < |w.history| {
      DecisionMeaning(setup, w, step.d, step.listed, step.stamp);
    }
  }

  lemma SyncKeeps(setup: Setup, w: World, d: string, listed: nat, stamp: string, o: Outcome, w': World)
    requires Inv(setup, w) && Considerate(setup, w, Sync(d, listed, stamp, o))
    requires d in w.devices && listed < |w.history| && SyncStep(setup, w, d, listed, stamp, o, w')
    ensures Inv(setup, w')
  {
    hide InvBut, Decide, DeviceOk, RevisionGuardMatches, UploadAnswers, AfterDownload, Superseded;
    var dev, row := w.devices[d], w.history[listed].file;
    DecisionMeaning(setup, w, d, listed, stamp);
    match Decide(setup, w, d, listed, stamp)
    case TouchMetadata(_) =>
      if w' != w { TouchKeeps(setup, w, d, o.now); }
    case Download(_, _) =>
      if dev.local.Some? { RecordedIsReplaceable(setup, w, d); }
      DownloadKeeps(setup, w, d, listed, o);
    case Upload(_, _) =>
      if RevisionGuardMatches(Current(w).file, GuardFromRecord(dev.record)) {
        GuardedUploadKeeps(setup, w, d, row, o);
      } else {
        ConflictKeeps(setup, w, d, Current(w).file, o);
      }
    case Conflict(_, _, _, resolution) =>
      if resolution.LocalWins? {
        if o.stage in {MediaWritten, PropertiesWritten, Done} { UploadKeeps(setup, w, d, row, o); }
      } else if resolution.RemoteWins? {
        RemoteWinsKeeps(setup, w, d, listed, o);
      } else {
        ConflictKeeps(setup, w, d, row, o);
      }
    case _ =>
  }

  lemma RemoteWinsKeeps(setup: Setup, w: World, d: string, listed: nat, o: Outcome)
    requires Inv(setup, w) && d in w.devices && listed < |w.history| && w.devices[d].local.Some?
    requires o.stage in {MediaWritten, Done} ==> Replaceable(w, w.devices[d].local.value.md5)
    requires o.written.md5 == Current(w).content
    ensures Inv(setup, AfterDownload(w, d, w.history[listed].file, o))
  {
    hide InvBut, Superseded;
    if o.stage in {MediaWritten, Done} { DownloadKeeps(setup, w, d, listed, o); }
  }

  lemma RecordedIsReplaceable(setup: Setup, w: World, d: string)
    requires Inv(setup, w) && d in w.devices && w.devices[d].local.Some? && w.devices[d].record.Some?
    requires w.devices[d].record.value.localMd5 == w.devices[d].local.value.md5
    ensures Replaceable(w, w.devices[d].local.value.md5)
  {
    hide Lawful, VersionsOk, RecordBase, GuardIsSound;
    assert DeviceOk(w, w.devices[d]);
    RecordedContentIsPublished(setup, w, w.devices[d]);
  }

  lemma TouchKeeps(setup: Setup, w: World, d: string, now: Instant)
    requires Inv(setup, w) && d in w.devices
    requires var dev := w.devices[d];
             dev.local.Some? && dev.record.Some? && dev.record.value.localMd5 == dev.local.value.md5
    ensures var dev := w.devices[d];
            Inv(setup, SetDevice(w, d, dev.(record := Some(TouchedRecord(dev.record.value, dev.local.value, now)))))
  {
    hide Lawful, VersionsOk, RevisionGuardMatches;
    var dev := w.devices[d];
    var dev' := dev.(record := Some(TouchedRecord(dev.record.value, dev.local.value, now)));
    assert DeviceOk(w, dev);
    var base: nat :| RecordBase(w, dev.record.value, base);
    assert RecordBase(w, dev'.record.value, base);
    SetDeviceKeeps(setup, w, d, dev', {});
  }

  lemma NextKeepsInv(setup: Setup, w: World, step: Step, w': World)
    requires Inv(setup, w) && Considerate(setup, w, step) && Next(setup, w, step, w')
    ensures Inv(setup, w')
  {
    hide InvBut, SyncStep;
    match step
    case LocalEdit(d, file) => LocalEditKeeps(setup, w, d, file, w');
    case WebEdit(media) => WebEditKeeps(setup, w, media, w');
    case Sync(d, listed, stamp, o) => SyncKeeps(setup, w, d, listed, stamp, o, w');
    case _ => LocalChangesKeep(setup, w, step, w');
  }

  ghost predicate ConsiderateRun(setup: Setup, run: seq<World>, steps: seq<Step>) {
    IsRun(setup, run, steps) && forall i :: 0 <= i < |steps| ==> Considerate(setup, run[i], steps[i])
  }

  lemma {:induction false} RunKeepsInv(setup: Setup, run: seq<World>, steps: seq<Step>, n: nat)
    requires ConsiderateRun(setup, run, steps) && n <= |steps|
    ensures Inv(setup, run[n])
  {
    hide Inv, Next, Init, Considerate;
    if n == 0 {
      InitInv(setup, run[0]);
    } else {
      RunKeepsInv(setup, run, steps, n - 1);
      NextKeepsInv(setup, run[n - 1], steps[n - 1], run[n]);
    }
  }

  lemma RunThatKeepsBoth(setup: Setup, run: seq<World>, steps: seq<Step>)
    requires IsRun(setup, run, steps) && setup.KeepsBoth()
    ensures ConsiderateRun(setup, run, steps)
  {
    hide Init, Next, Considerate;
    forall i | 0 <= i < |steps| ensures Considerate(setup, run[i], steps[i]) {
      KeepsBothIsConsiderate(setup, run[i], steps[i]);
    }
  }

  // ------------------------------------------------------------------ main results

  /**
   Under any policy, a run whose one-sided writes discard no version loses none: whatever
   nobody edited on top of can be read on a device, on Drive or in a conflict copy, at
   every point of the run. `Policies.LocalWinsIsExact` and `Policies.RemoteWinsIsExact` show
   that no weaker condition on those writes does.
  */
  lemma ConsiderateRunsLoseNothing(setup: Setup, run: seq<World>, steps: seq<Step>, n: nat, v: string)
    requires ConsiderateRun(setup, run, steps) && n <= |steps|
    requires v in run[n].parent
    ensures run[n].history != [] && (EditedOn(run[n], v) || Readable(run[n], v))
  {
    hide ConsiderateRun, Lawful, DeviceOk, EditedOn, Readable;
    RunKeepsInv(setup, run, steps, n);
  }

  /**
   With a policy that keeps both sides, no run of edits and syncs by any number of
   devices loses a version.
  */
  lemma NoVersionIsLost(setup: Setup, run: seq<World>, steps: seq<Step>, n: nat, v: string)
    requires IsRun(setup, run, steps) && setup.KeepsBoth() && n <= |steps|
    requires v in run[n].parent
    ensures run[n].history != [] && (EditedOn(run[n], v) || Readable(run[n], v))
  {
    hide IsRun, ConsiderateRun, EditedOn, Readable;
    RunThatKeepsBoth(setup, run, steps);
    ConsiderateRunsLoseNothing(setup, run, steps, n, v);
  }

  /** What the record of `dev` describes: the object still has that content. */
  ghost predicate RecordedRemoteContent(w: World, dev: Device, c: string) {
    dev.record.Some? && exists base: nat :: RecordBase(w, dev.record.value, base) && w.history[base].content == c
  }

  lemma SyncReplacesOnlySafeContent(setup: Setup, w: World, d: string, listed: nat, stamp: string, o: Outcome,
      w': World)
    requires Inv(setup, w) && setup.KeepsBoth()
    requires d in w.devices && listed < |w.history| && SyncStep(setup, w, d, listed, stamp, o, w')
    ensures w'.history != [] && d in w'.devices
    ensures Current(w').content != Current(w).content ==>
              Current(w).content in w'.copies || RecordedRemoteContent(w, w.devices[d], Current(w).content)
    ensures w.devices[d].local.Some? && w'.devices[d].local != w.devices[d].local ==>
              w.devices[d].record.Some? && w.devices[d].record.value.localMd5 == w.devices[d].local.value.md5
  {
    hide Decide, RevisionGuardMatches, UploadAnswers, InvBut, RecordedRemoteContent, AfterUpload, AfterDownload,
      AfterConflict;
    var dev, row := w.devices[d], w.history[listed].file;
    DecisionMeaning(setup, w, d, listed, stamp);
    if dev.local.Some? {
      UploadEffect(w, d, o);
      ConflictEffect(w, d, o);
    }
    DownloadEffect(w, d, row, o);
    var guarded := RevisionGuardMatches(Current(w).file, GuardFromRecord(dev.record));
    if Decide(setup, w, d, listed, stamp).Upload? && guarded {
      MatchMeansRecorded(setup, w, d);
    }
  }

  lemma UploadEffect(w: World, d: string, o: Outcome)
    requires w.history != [] && d in w.devices && w.devices[d].local.Some?
    ensures var w' := AfterUpload(w, d, o);
            && w'.history != [] && d in w'.devices && w'.devices[d].local == w.devices[d].local
            && w'.copies == w.copies && w'.parent == w.parent
  {
    hide RecordFrom;
  }

  lemma ConflictEffect(w: World, d: string, o: Outcome)
    requires w.history != [] && d in w.devices && w.devices[d].local.Some?
    ensures var w' := AfterConflict(w, d, o);
            && w'.history != [] && d in w'.devices && w'.devices[d].local == w.devices[d].local
            && (w' == w || Current(w).content in w'.copies) && w.copies <= w'.copies && w'.parent == w.parent
  {
    hide AfterUpload;
    UploadEffect(SaveCopy(w), d, o);
  }

  lemma DownloadEffect(w: World, d: string, row: DriveFile, o: Outcome)
    requires w.history != [] && d in w.devices
    ensures var w' := AfterDownload(w, d, row, o);
            w'.history == w.history && d in w'.devices && w'.copies == w.copies && w'.parent == w.parent
  {
    hide RecordFrom;
  }

  lemma MatchMeansRecorded(setup: Setup, w: World, d: string)
    requires Inv(setup, w) && d in w.devices && w.devices[d].record.Some?
    requires RevisionGuardMatches(Current(w).file, GuardFromRecord(w.devices[d].record))
    ensures RecordedRemoteContent(w, w.devices[d], Current(w).content)
  {
    hide RevisionGuardMatches, Lawful, VersionsOk, GuardFromRecord;
    assert DeviceOk(w, w.devices[d]);
    var base: nat :| RecordBase(w, w.devices[d].record.value, base);
    GuardIdentifiesContent(setup.exposure, w.history, base);
  }

  /**
   A sync replaces remote content only when it is what the device's record describes or
   was just saved as a copy, and local content only when it is the recorded content.
  */
  lemma ReplacementIsSafe(setup: Setup, run: seq<World>, steps: seq<Step>, n: nat)
    requires IsRun(setup, run, steps) && setup.KeepsBoth() && n < |steps| && steps[n].Sync?
    ensures var w, w', d := run[n], run[n + 1], steps[n].d;
      && w.history != [] && w'.history != [] && d in w.devices && d in w'.devices
      && (Current(w').content != Current(w).content ==>
            Current(w).content in w'.copies || RecordedRemoteContent(w, w.devices[d], Current(w).content))
      && (w.devices[d].local.Some? && w'.devices[d].local != w.devices[d].local ==>
            w.devices[d].record.Some? && w.devices[d].record.value.localMd5 == w.devices[d].local.value.md5)
  {
    hide Inv, SyncStep, Init, RecordedRemoteContent, ConsiderateRun;
    RunThatKeepsBoth(setup, run, steps);
    RunKeepsInv(setup, run, steps, n);
    assert Next(setup, run[n], steps[n], run[n + 1]);
    var Sync(d, listed, stamp, o) := steps[n];
    SyncReplacesOnlySafeContent(setup, run[n], d, listed, stamp, o, run[n + 1]);
  }

  // ------------------------------------------------------ right after a one-sided write

  /**
   Right after a completed `local_wins` write the replaced content is still readable exactly
   when a copy, a version on top of it or another device has it. What later syncs do to it
   is the subject of `Policies.LocalWinsIsExact`.
  */
  lemma LocalWinsLeavesReadable(setup: Setup, w: World, d: string, listed: nat, stamp: string, o: Outcome, w': World)
    requires w.history != [] && d in w.devices && listed < |w.history| && SyncStep(setup, w, d, listed, stamp, o, w')
    requires var a := Decide(setup, w, d, listed, stamp); a.Conflict? && a.resolution == LocalWins
    requires o.stage.Done? && w.devices[d].local.value.md5 != Current(w).content
    ensures w'.history != []
    ensures EditedOn(w', Current(w).content) || Readable(w', Current(w).content)
            <==> Superseded(w, Current(w).content) || exists x :: x in w.devices && HasLocal(w, x, Current(w).content)
  {
    hide Decide, RecordFrom, UploadPatch, Patched, Lawful;
    var v := Current(w).content;
    assert w' == AfterUpload(w, d, o) && w'.devices.Keys == w.devices.Keys;
    assert forall x :: x in w.devices ==> w'.devices[x].local == w.devices[x].local;
    assert forall x :: HasLocal(w, x, v) <==> HasLocal(w', x, v);
  }

  /** The same for the local content that a completed `remote_wins` write replaced. */
  lemma RemoteWinsLeavesReadable(setup: Setup, w: World, d: string, listed: nat, stamp: string, o: Outcome, w': World)
    requires w.history != [] && d in w.devices && listed < |w.history| && SyncStep(setup, w, d, listed, stamp, o, w')
    requires var a := Decide(setup, w, d, listed, stamp); a.Conflict? && a.resolution == RemoteWins
    requires o.stage.Done? && w.devices[d].local.value.md5 != Current(w).content
    ensures w'.history != []
    ensures var v := w.devices[d].local.value.md5;
            EditedOn(w', v) || Readable(w', v) <==>
              Superseded(w, v) || exists x :: x in w.devices && x != d && HasLocal(w, x, v)
  {
    hide Decide, RecordFrom;
    var v := w.devices[d].local.value.md5;
    assert w' == AfterDownload(w, d, w.history[listed].file, o) && w'.devices.Keys == w.devices.Keys;
    assert forall x :: x in w.devices && x != d ==> w'.devices[x].local == w.devices[x].local;
    assert forall x :: HasLocal(w', x, v) <==> x != d && HasLocal(w, x, v);
  }
}
