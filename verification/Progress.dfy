/**
 What syncing achieves. A completed sync with a current listing brings its device in step
 with Drive, and when nobody edits any more all devices come to hold the same content.
 Without edits a device uploads at most once, so as many rounds as there are devices, and
 one more, are always enough.
*/
module Progress {
  import opened Wrappers
  import opened Coordination
  import opened Records
  import opened Decision
  import opened Protocol
  import opened Policies

  // ----------------------------------------------------------------- being in step

  /** The record was made from a listing that had the content it was made with. */
  ghost predicate TrueRecord(w: World, m: SyncRecord) {
    exists base :: 0 <= base < |w.history|
      && m.remoteMd5 == Some(RemoteContentFingerprint(w.history[base].file))
      && m.localMd5 == w.history[base].content
  }

  ghost predicate TrueRecords(w: World) {
    forall d :: d in w.devices && w.devices[d].record.Some? ==> TrueRecord(w, w.devices[d].record.value)
  }

  /** The device has the content that is on Drive, and nothing is left to do for it. */
  predicate InStep(w: World, d: string)
    requires w.history != []
  {
    && HasLocal(w, d, Current(w).content)
    && match w.devices[d].record
       case None => Current(w).file.md5Checksum == Some(Current(w).content)
       case Some(m) => m.localMd5 == Current(w).content && RemoteAsRecorded(Current(w).file, m)
  }

  /** The file is the recorded one. */
  predicate Unedited(w: World, d: string) {
    d in w.devices && w.devices[d].local.Some? && w.devices[d].record.Some?
    && LocalAsRecorded(w.devices[d].local.value, w.devices[d].record.value, None)
  }

  /** A sync that sees the current state and runs to its end. */
  predicate CompletedSync(w: World, step: Step) {
    step.Sync? && step.listed == |w.history| - 1 && step.outcome.stage.Done?
  }

  // ------------------------------------------------------------ one stopped transfer

  /**
   What an upload that stops on the way leaves: after the media Drive has the content under
   the old vector, after the properties under the new one, and the record is the old one.
  */
  lemma StoppedUploadLeaves(e: Exposure, w: World, d: string, row: DriveFile, o: Outcome)
    requires w.history != [] && d in w.devices && w.devices[d].local.Some? && UploadAnswers(e, w, d, row, o)
    ensures var w' := AfterUpload(w, d, o);
            && w'.history != []
            && (o.stage.MediaWritten? || o.stage.PropertiesWritten? ==>
                  Current(w').content == w.devices[d].local.value.md5 && w'.devices == w.devices
                  && w'.uploads == w.uploads)
            && (o.stage.MediaWritten? ==> Current(w').file.appProperties == Current(w).file.appProperties)
            && (o.stage.PropertiesWritten? ==>
                  Current(w').file.appProperties
                  == Patched(Current(w).file.appProperties, UploadPatch(w.devices[d].record, row, d)))
            && (o.stage.Nothing? || o.stage.CopySaved? ==> w' == w)
  {
    hide Lawful, Patched, UploadPatch;
  }

  /** A download that stops after the file leaves the old record beside the new content. */
  lemma StoppedDownloadLeaves(w: World, d: string, row: DriveFile, o: Outcome)
    requires w.history != [] && d in w.devices
    ensures var w' := AfterDownload(w, d, row, o);
            && d in w'.devices
            && (w'.devices[d].local == Some(o.written) || w' == w)
            && (o.stage.MediaWritten? ==>
                  w'.devices[d].local == Some(o.written) && w'.devices[d].record == w.devices[d].record)
  {
    hide RecordFrom;
  }

  // ------------------------------------------------------------ one completed sync

  lemma InStepIsQuiet(setup: Setup, w: World, d: string, stamp: string)
    requires w.history != [] && InStep(w, d)
    ensures var a := Decide(setup, w, d, |w.history| - 1, stamp); a.Skip? || a.TouchMetadata?
  {
    hide RemoteContentFingerprint, FromProperties, Compare;
  }

  /** Equal fingerprints in one history mean equal contents. */
  lemma SameFingerprintSameContent(e: Exposure, h: seq<Snapshot>, i: int, j: int)
    requires Lawful(e, h) && 0 <= i <= j < |h|
    requires RemoteContentFingerprint(h[i].file) == RemoteContentFingerprint(h[j].file)
    ensures h[i].content == h[j].content
  {
    FingerprintMeaning(h[i].file, h[j].file);
    hide RemoteContentFingerprint;
    if i < j { assert Later(e, h[i], h[j]); }
  }

  /** A true record whose remote side is as recorded has the current content. */
  lemma TrueRecordIsCurrent(setup: Setup, w: World, m: SyncRecord)
    requires Lawful(setup.exposure, w.history) && TrueRecord(w, m)
    requires RemoteAsRecorded(Current(w).file, m)
    ensures m.localMd5 == Current(w).content
  {
    hide RemoteContentFingerprint;
    var base :| 0 <= base < |w.history|
      && m.remoteMd5 == Some(RemoteContentFingerprint(w.history[base].file))
      && m.localMd5 == w.history[base].content;
    SameFingerprintSameContent(setup.exposure, w.history, base, |w.history| - 1);
  }

  /** The sync wrote the content of the device to Drive. */
  predicate Uploaded(w: World, w': World) {
    |w'.history| > |w.history|
  }

  /**
   After a completed sync the device is in step, and it either took the content of Drive
   or put its own there. `TrueRecord` cannot be dropped, see `StaleRecordStaysApart`.
  */
  lemma CompletedSyncMeets(setup: Setup, w: World, step: Step, w': World)
    requires w.history != [] && Lawful(setup.exposure, w.history)
    requires CompletedSync(w, step) && Next(setup, w, step, w')
    requires w.devices[step.d].record.Some? ==> TrueRecord(w, w.devices[step.d].record.value)
    ensures w'.history != [] && InStep(w', step.d)
    ensures Uploaded(w, w') ==>
              && w.devices[step.d].local.Some? && w.devices[step.d].local.value.md5 == Current(w').content
              && !Unedited(w, step.d) && Unedited(w', step.d)
    ensures !Uploaded(w, w') ==> w'.history == w.history && (Unedited(w, step.d) ==> Unedited(w', step.d))
  {
    hide Decide, UploadAnswers, InStep;
    var Sync(d, listed, stamp, o) := step;
    match Decide(setup, w, d, listed, stamp)
    case Skip(_) => QuietSyncMeets(setup, w, step, w');
    case TouchMetadata(_) => QuietSyncMeets(setup, w, step, w');
    case Download(_, _) => DownloadMeets(setup, w, step, w');
    case Upload(_, _) => UploadMeets(setup, w, step, w');
    case Conflict(_, _, _, resolution) =>
      if resolution.RemoteWins? { DownloadMeets(setup, w, step, w'); } else { UploadMeets(setup, w, step, w'); }
    case _ =>
  }

  lemma QuietSyncMeets(setup: Setup, w: World, step: Step, w': World)
    requires w.history != [] && Lawful(setup.exposure, w.history)
    requires CompletedSync(w, step) && Next(setup, w, step, w')
    requires w.devices[step.d].record.Some? ==> TrueRecord(w, w.devices[step.d].record.value)
    requires var a := Decide(setup, w, step.d, step.listed, step.stamp); a.Skip? || a.TouchMetadata?
    ensures w'.history == w.history && InStep(w', step.d) && (Unedited(w, step.d) ==> Unedited(w', step.d))
  {
    var d, dev := step.d, w.devices[step.d];
    QuietMeaning(setup, w, d, step.stamp);
    if dev.record.Some? { TrueRecordIsCurrent(setup, w, dev.record.value); }
    hide Lawful, TrueRecord, RemoteContentFingerprint, Decide;
    assert Shaped(setup.exposure, Current(w)) by { LastIsShaped(setup.exposure, w.history); }
  }

  lemma LastIsShaped(e: Exposure, h: seq<Snapshot>)
    requires Lawful(e, h)
    ensures h != [] && Shaped(e, Last(h))
  {
  }

  lemma QuietMeaning(setup: Setup, w: World, d: string, stamp: string)
    requires w.history != [] && d in w.devices
    requires var a := Decide(setup, w, d, |w.history| - 1, stamp); a.Skip? || a.TouchMetadata?
    ensures var dev := w.devices[d];
            && dev.local.Some?
            && (dev.record.None? ==> Current(w).file.md5Checksum == Some(dev.local.value.md5))
            && (dev.record.Some? ==> Unedited(w, d) && RemoteAsRecorded(Current(w).file, dev.record.value))
  {
    hide RemoteContentFingerprint, FromProperties, Compare;
  }

  lemma DownloadMeets(setup: Setup, w: World, step: Step, w': World)
    requires w.history != [] && CompletedSync(w, step) && Next(setup, w, step, w')
    requires var a := Decide(setup, w, step.d, step.listed, step.stamp);
             a.Download? || (a.Conflict? && a.resolution.RemoteWins?)
    ensures w'.history == w.history && InStep(w', step.d) && Unedited(w', step.d)
  {
    hide Decide, RemoteContentFingerprint, FromProperties;
  }

  lemma UploadMeets(setup: Setup, w: World, step: Step, w': World)
    requires w.history != [] && CompletedSync(w, step) && Next(setup, w, step, w')
    requires var a := Decide(setup, w, step.d, step.listed, step.stamp);
             a.Upload? || (a.Conflict? && !a.resolution.RemoteWins?)
    ensures w'.history != [] && InStep(w', step.d) && Uploaded(w, w')
    ensures w.devices[step.d].local.Some? && w.devices[step.d].local.value.md5 == Current(w').content
    ensures !Unedited(w, step.d) && Unedited(w', step.d)
  {
    hide Decide, Next, InStep, Unedited, AfterUpload;
    UploadWrites(setup, w, step, w');
    var Sync(d, listed, stamp, o) := step;
    UploadIsOfAnEdit(setup, w, d, stamp);
    if w' == AfterUpload(w, d, o) {
      WrittenIsInStep(w, d, o);
    } else {
      WrittenIsInStep(SaveCopy(w), d, o);
    }
  }

  lemma UploadWrites(setup: Setup, w: World, step: Step, w': World)
    requires w.history != [] && CompletedSync(w, step) && Next(setup, w, step, w')
    requires var a := Decide(setup, w, step.d, step.listed, step.stamp);
             a.Upload? || (a.Conflict? && !a.resolution.RemoteWins?)
    ensures step.d in w.devices
    ensures var (dev, o) := (w.devices[step.d], step.outcome);
            && dev.local.Some? && o.patched.content == dev.local.value.md5
            && (w' == AfterUpload(w, step.d, o) || w' == AfterUpload(SaveCopy(w), step.d, o))
  {
    hide Decide, RevisionGuardMatches, Lawful, PropertiesWrite, MediaWrite, UploadPatch, AfterUpload;
  }

  /** A complete upload leaves its device in step. */
  lemma WrittenIsInStep(w: World, d: string, o: Outcome)
    requires d in w.devices && w.devices[d].local.Some? && o.stage.Done?
    requires o.patched.content == w.devices[d].local.value.md5
    ensures var w' := AfterUpload(w, d, o);
            && |w'.history| == |w.history| + 2 && Current(w') == o.patched
            && InStep(w', d) && Unedited(w', d)
  {
    hide RemoteContentFingerprint, FromProperties;
  }

  lemma UploadIsOfAnEdit(setup: Setup, w: World, d: string, stamp: string)
    requires w.history != [] && d in w.devices
    requires var a := Decide(setup, w, d, |w.history| - 1, stamp); a.Upload? || a.Conflict?
    ensures !Unedited(w, d)
  {
    hide RemoteContentFingerprint, FromProperties, Compare;
  }

  /** An edit of a file whose row is as recorded reaches Drive. */
  lemma EditReachesDrive(setup: Setup, w: World, step: Step, w': World)
    requires w.history != [] && CompletedSync(w, step) && Next(setup, w, step, w')
    requires var dev := w.devices[step.d];
             && dev.local.Some? && dev.record.Some? && dev.local.value.md5 != dev.record.value.localMd5
             && RemoteAsRecorded(Current(w).file, dev.record.value)
    ensures w'.history != [] && Current(w').content == w.devices[step.d].local.value.md5 && InStep(w', step.d)
  {
    OneSided(setup, w, step.d, step.stamp);
    hide Decide, InStep, Unedited, SyncStep, RemoteAsRecorded;
    UploadMeets(setup, w, step, w');
  }

  /** An upload whose guard does not match, or which settles a conflict, keeps what it replaces. */
  lemma ReplacedIsCopied(setup: Setup, w: World, step: Step, w': World)
    requires w.history != [] && CompletedSync(w, step) && Next(setup, w, step, w')
    requires var a := Decide(setup, w, step.d, step.listed, step.stamp);
             || (a.Upload? && !RevisionGuardMatches(Current(w).file, GuardFromRecord(w.devices[step.d].record)))
             || (a.Conflict? && !a.resolution.RemoteWins? && !a.resolution.LocalWins?)
    ensures Current(w).content in w'.copies
  {
    hide Decide, AfterUpload, UploadAnswers, RevisionGuardMatches;
    UploadEffect(SaveCopy(w), step.d, step.outcome);
  }

  /** A change on Drive reaches a device whose file is as recorded. */
  lemma RemoteChangeReachesDevice(setup: Setup, w: World, step: Step, w': World)
    requires w.history != [] && CompletedSync(w, step) && Next(setup, w, step, w')
    requires Unedited(w, step.d) && !RemoteAsRecorded(Current(w).file, w.devices[step.d].record.value)
    ensures w'.history == w.history && HasLocal(w', step.d, Current(w).content) && InStep(w', step.d)
  {
    OneSided(setup, w, step.d, step.stamp);
    DownloadMeets(setup, w, step, w');
  }

  lemma OneSided(setup: Setup, w: World, d: string, stamp: string)
    requires w.history != [] && d in w.devices && w.devices[d].local.Some? && w.devices[d].record.Some?
    ensures var (a, m) := (Decide(setup, w, d, |w.history| - 1, stamp), w.devices[d].record.value);
            && (w.devices[d].local.value.md5 != m.localMd5 && RemoteAsRecorded(Current(w).file, m) ==> a.Upload?)
            && (Unedited(w, d) && !RemoteAsRecorded(Current(w).file, m) ==> a.Download?)
  {
    hide RemoteContentFingerprint, FromProperties, Compare;
  }

  /** Without the assumption on the record, exactly one case does not end in step. */
  lemma InStepExactly(setup: Setup, w: World, step: Step, w': World)
    requires w.history != [] && Lawful(setup.exposure, w.history)
    requires CompletedSync(w, step) && Next(setup, w, step, w')
    ensures w'.history != []
    ensures InStep(w', step.d) <==>
              (Unedited(w, step.d) && RemoteAsRecorded(Current(w).file, w.devices[step.d].record.value) ==>
                 HasLocal(w, step.d, Current(w).content))
  {
    hide Decide, UploadAnswers, InStep;
    var Sync(d, listed, stamp, o) := step;
    match Decide(setup, w, d, listed, stamp)
    case Skip(_) => QuietSyncExactly(setup, w, step, w');
    case TouchMetadata(_) => QuietSyncExactly(setup, w, step, w');
    case Download(_, _) => DownloadMeets(setup, w, step, w'); ChangedOrEdited(setup, w, d, stamp);
    case Upload(_, _) => UploadMeets(setup, w, step, w');
    case Conflict(_, _, _, resolution) =>
      ChangedOrEdited(setup, w, d, stamp);
      if resolution.RemoteWins? { DownloadMeets(setup, w, step, w'); } else { UploadMeets(setup, w, step, w'); }
    case _ =>
  }

  lemma ChangedOrEdited(setup: Setup, w: World, d: string, stamp: string)
    requires w.history != [] && d in w.devices
    requires var a := Decide(setup, w, d, |w.history| - 1, stamp); a.Download? || a.Conflict?
    ensures !Unedited(w, d) || !RemoteAsRecorded(Current(w).file, w.devices[d].record.value)
  {
    hide RemoteContentFingerprint, FromProperties, Compare;
  }

  lemma QuietSyncExactly(setup: Setup, w: World, step: Step, w': World)
    requires w.history != [] && Lawful(setup.exposure, w.history)
    requires CompletedSync(w, step) && Next(setup, w, step, w')
    requires var a := Decide(setup, w, step.d, step.listed, step.stamp); a.Skip? || a.TouchMetadata?
    ensures w'.history != []
    ensures InStep(w', step.d) <==>
              (Unedited(w, step.d) && RemoteAsRecorded(Current(w).file, w.devices[step.d].record.value) ==>
                 HasLocal(w, step.d, Current(w).content))
  {
    QuietMeaning(setup, w, step.d, step.stamp);
    hide Lawful, RemoteContentFingerprint, Decide;
    assert Shaped(setup.exposure, Current(w)) by { LastIsShaped(setup.exposure, w.history); }
  }

  // ------------------------------------------------------------ records stay true

  /** A download that completes used a listing with the content that it downloaded. */
  predicate Timely(w: World, step: Step) {
    step.Sync? && step.listed < |w.history| && step.outcome.stage.Done? ==>
      w.history[step.listed].content == Current(w).content
  }

  lemma TrueRecordGrows(w: World, w': World, m: SyncRecord)
    requires TrueRecord(w, m) && w.history <= w'.history
    ensures TrueRecord(w', m)
  {
    hide RemoteContentFingerprint;
    var base :| 0 <= base < |w.history|
      && m.remoteMd5 == Some(RemoteContentFingerprint(w.history[base].file))
      && m.localMd5 == w.history[base].content;
    assert w'.history[base] == w.history[base];
  }

  /** The step changes at most the device `d` and only adds to the history. */
  ghost predicate OnlyDevice(w: World, w': World, d: string) {
    && w.history <= w'.history && w'.devices.Keys == w.devices.Keys
    && forall x :: x in w.devices && x != d ==> w'.devices[x] == w.devices[x]
  }

  function Actor(step: Step): string {
    match step
    case LocalEdit(d, _) => d
    case LocalTouch(d, _, _) => d
    case WebEdit(_) => ""
    case ForgetRecord(d) => d
    case Sync(d, _, _, _) => d
  }

  lemma NextIsLocal(setup: Setup, w: World, step: Step, w': World)
    requires w.history != [] && Lawful(setup.exposure, w.history) && Next(setup, w, step, w')
    ensures w'.history != [] && Lawful(setup.exposure, w'.history) && OnlyDevice(w, w', Actor(step))
  {
    hide SyncStep, Lawful;
    if step.Sync? { SyncIsLocal(setup, w, step.d, step.listed, step.stamp, step.outcome, w'); }
  }

  lemma SyncIsLocal(setup: Setup, w: World, d: string, listed: nat, stamp: string, o: Outcome, w': World)
    requires w.history != [] && Lawful(setup.exposure, w.history)
    requires d in w.devices && listed < |w.history| && SyncStep(setup, w, d, listed, stamp, o, w')
    ensures Lawful(setup.exposure, w'.history) && OnlyDevice(w, w', d)
  {
    hide Decide, RevisionGuardMatches, RecordFrom, UploadAnswers, AfterUpload, AfterDownload, Lawful, OnlyDevice;
    DownloadIsLocal(w, d, w.history[listed].file, o);
    StayingIsLocal(w, d);
    if w.devices[d].local.Some? {
      if UploadAnswers(setup.exposure, w, d, w.history[listed].file, o) {
        UploadIsLocal(setup.exposure, w, w, d, w.history[listed].file, o);
        UploadIsLocal(setup.exposure, w, SaveCopy(w), d, w.history[listed].file, o);
      }
      if UploadAnswers(setup.exposure, w, d, Current(w).file, o) {
        UploadIsLocal(setup.exposure, w, SaveCopy(w), d, Current(w).file, o);
      }
    }
  }

  lemma StayingIsLocal(w: World, d: string)
    ensures OnlyDevice(w, w, d)
    ensures forall dev: Device :: d in w.devices ==> OnlyDevice(w, SetDevice(w, d, dev), d)
  {
  }

  lemma DownloadIsLocal(w: World, d: string, row: DriveFile, o: Outcome)
    requires w.history != [] && d in w.devices
    ensures var w' := AfterDownload(w, d, row, o); w'.history == w.history && OnlyDevice(w, w', d)
  {
    hide RecordFrom;
  }

  lemma UploadIsLocal(e: Exposure, w: World, base: World, d: string, row: DriveFile, o: Outcome)
    requires w.history != [] && Lawful(e, w.history) && d in w.devices && w.devices[d].local.Some?
    requires UploadAnswers(e, w, d, row, o)
    requires base.history == w.history && base.devices == w.devices
    ensures var w' := AfterUpload(base, d, o); w'.history != [] && Lawful(e, w'.history) && OnlyDevice(w, w', d)
  {
    hide RecordFrom, UploadPatch, Lawful, MediaWrite, PropertiesWrite;
  }

  /** The record that a step leaves is true when the step is timely. */
  lemma TimelyKeepsTrueRecords(setup: Setup, w: World, step: Step, w': World)
    requires w.history != [] && Lawful(setup.exposure, w.history) && TrueRecords(w)
    requires Next(setup, w, step, w') && Timely(w, step)
    ensures w'.history != [] && Lawful(setup.exposure, w'.history) && TrueRecords(w')
  {
    NextIsLocal(setup, w, step, w');
    var d := Actor(step);
    hide Next, Lawful, TrueRecord;
    forall x | x in w'.devices && w'.devices[x].record.Some? ensures TrueRecord(w', w'.devices[x].record.value) {
      if x == d && w'.devices[x].record != w.devices[x].record {
        NewRecordIsTrue(setup, w, step, w');
      } else {
        TrueRecordGrows(w, w', w.devices[x].record.value);
      }
    }
  }

  lemma NewRecordIsTrue(setup: Setup, w: World, step: Step, w': World)
    requires w.history != [] && TrueRecords(w) && Next(setup, w, step, w') && Timely(w, step)
    requires var d := Actor(step); d in w.devices && d in w'.devices && w'.devices[d].record.Some?
                                   && w'.devices[d].record != w.devices[d].record
    ensures TrueRecord(w', w'.devices[Actor(step)].record.value)
  {
    hide Decide, SyncStep, TrueRecord;
    if step.Sync? { SyncedRecordIsTrue(setup, w, step, w'); }
  }

  lemma SyncedRecordIsTrue(setup: Setup, w: World, step: Step, w': World)
    requires w.history != [] && TrueRecords(w) && step.Sync? && Next(setup, w, step, w') && Timely(w, step)
    requires var d := step.d; d in w'.devices && w'.devices[d].record.Some?
                              && w'.devices[d].record != w.devices[d].record
    ensures TrueRecord(w', w'.devices[step.d].record.value)
  {
    hide Decide, UploadAnswers, AfterUpload, AfterDownload, TrueRecord, RevisionGuardMatches;
    var Sync(d, listed, stamp, o) := step;
    var a := Decide(setup, w, d, listed, stamp);
    if a.TouchMetadata? {
      TouchedIsTrue(setup, w, step, w');
    } else if a.Download? || (a.Conflict? && a.resolution.RemoteWins?) {
      DownloadedIsTrue(w, d, listed, o);
    } else if w' == AfterUpload(w, d, o) {
      UploadedContent(setup, w, step, w');
      UploadedIsTrue(w, d, o);
    } else {
      assert w' == AfterUpload(SaveCopy(w), d, o);
      UploadedContent(setup, w, step, w');
      UploadedIsTrue(SaveCopy(w), d, o);
    }
  }

  lemma TouchedIsTrue(setup: Setup, w: World, step: Step, w': World)
    requires w.history != [] && TrueRecords(w) && step.Sync? && Next(setup, w, step, w')
    requires Decide(setup, w, step.d, step.listed, step.stamp).TouchMetadata?
    requires w'.devices[step.d].record.Some?
    ensures TrueRecord(w', w'.devices[step.d].record.value)
  {
    hide RemoteContentFingerprint, FromProperties, Compare;
  }

  lemma DownloadedIsTrue(w: World, d: string, listed: nat, o: Outcome)
    requires w.history != [] && d in w.devices && listed < |w.history|
    requires o.written.md5 == Current(w).content
    requires o.stage.Done? ==> w.history[listed].content == Current(w).content
    requires var w' := AfterDownload(w, d, w.history[listed].file, o);
             w'.devices[d].record.Some? && w'.devices[d].record != w.devices[d].record
    ensures var w' := AfterDownload(w, d, w.history[listed].file, o); TrueRecord(w', w'.devices[d].record.value)
  {
    hide RemoteContentFingerprint, FromProperties;
  }

  lemma UploadedIsTrue(w: World, d: string, o: Outcome)
    requires d in w.devices && w.devices[d].local.Some?
    requires o.patched.content == w.devices[d].local.value.md5
    requires var w' := AfterUpload(w, d, o);
             w'.devices[d].record.Some? && w'.devices[d].record != w.devices[d].record
    ensures var w' := AfterUpload(w, d, o); TrueRecord(w', w'.devices[d].record.value)
  {
    hide RemoteContentFingerprint, FromProperties;
    assert o.stage.Done?;
    var w' := AfterUpload(w, d, o);
    assert w'.history[|w'.history| - 1] == o.patched;
  }

  lemma UploadedContent(setup: Setup, w: World, step: Step, w': World)
    requires w.history != [] && step.Sync? && Next(setup, w, step, w')
    requires var a := Decide(setup, w, step.d, step.listed, step.stamp);
             a.Upload? || (a.Conflict? && !a.resolution.RemoteWins?)
    ensures w.devices[step.d].local.Some? && step.outcome.patched.content == w.devices[step.d].local.value.md5
  {
    hide Decide, RevisionGuardMatches, Lawful, PropertiesWrite, MediaWrite, UploadPatch, AfterUpload;
  }

  /** In a run of timely steps all records are true. */
  lemma {:induction false} TimelyRunsHaveTrueRecords(setup: Setup, run: seq<World>, steps: seq<Step>, n: nat)
    requires IsRun(setup, run, steps) && n <= |steps|
    requires forall i :: 0 <= i < n ==> Timely(run[i], steps[i])
    ensures run[n].history != [] && Lawful(setup.exposure, run[n].history) && TrueRecords(run[n])
  {
    hide Next, Lawful, Timely, TrueRecord;
    if n > 0 {
      TimelyRunsHaveTrueRecords(setup, run, steps, n - 1);
      TimelyKeepsTrueRecords(setup, run[n - 1], steps[n - 1], run[n]);
    }
  }

  // ---------------------------------------------------------- a device left behind

  const StaleSetup := Setup("name", CopyPolicy, Exposure(true, false, false), map[])

  function Row(md5: string, time: int): DriveFile {
    DriveFile("id", "name", "text/plain", Some(md5), time, None, None, None, map[], [], false)
  }

  function StaleStart(a: string): World {
    var e := Device(Some(LocalFile(a, 0, 1)), None, 0);
    World([Snapshot(Row(a, 0), a, 0)], map["d" := Device(None, None, 0), "e" := e], {}, map[a := None], [])
  }

  /** `d` downloads the web edit `b` with a listing from before it, then `e` brings `a` back. */
  function WebEdited(a: string, b: string): World {
    Append(AddVersion(StaleStart(a), b, Some(a)), Snapshot(Row(b, 1), b, 1))
  }

  const StaleOutcome: string -> Outcome :=
    b => Outcome(Done, Snapshot(Row(b, 1), b, 1), Snapshot(Row(b, 1), b, 1), LocalFile(b, 5, 1), 5)

  function StaleDownloaded(a: string, b: string): World {
    AfterDownload(WebEdited(a, b), "d", Row(a, 0), StaleOutcome(b))
  }

  /**
   A stale listing can leave a device apart from Drive for good: after this run a sync of
   `d` with a current listing is a `Skip`, although `d` has `b` and Drive has `a`.
  */
  lemma StaleRecordStaysApart(a: string, b: string, stamp: string) returns (run: seq<World>, steps: seq<Step>)
    requires PlainContent(a) && PlainContent(b) && a != b
    ensures IsRun(StaleSetup, run, steps)
    ensures var w := run[|run| - 1];
            && w.history != [] && Current(w).content == a && HasLocal(w, "d", b)
            && Decide(StaleSetup, w, "d", |w.history| - 1, stamp) == Skip("name")
  {
    hide Next, Init, PlainContent, StaleStart, WebEdited, StaleDownloaded, AfterConflict, Decide, UploadAnswers;
    var w0, w1, w2 := StaleStart(a), WebEdited(a, b), StaleDownloaded(a, b);
    StaleStartIsInitial(a);
    var s1, s2 := WebEdit(Snapshot(Row(b, 1), b, 1)), Sync("d", 0, "", StaleOutcome(b));
    WebEditHappens(a, b);
    StaleDownloadHappens(a, b);
    var o := ReturnOfTheOld(a, b);
    var s3 := Sync("e", 1, "", o);
    var w3 := AfterReturn(a, b, o);
    LeftBehind(a, b, o, stamp);
    run, steps := [w0, w1, w2, w3], [s1, s2, s3];
    assert forall i :: 0 <= i < 3 ==> run[i].history != [] && Next(StaleSetup, run[i], steps[i], run[i + 1]);
  }

  function AfterReturn(a: string, b: string, o: Outcome): World {
    AfterConflict(StaleDownloaded(a, b), "e", o)
  }

  lemma StaleStartIsInitial(a: string)
    requires PlainContent(a)
    ensures Init(StaleSetup, StaleStart(a)) && StaleStart(a).history != []
  {
    hide PlainContent;
    assert HasLocal(StaleStart(a), "e", a);
  }

  lemma WebEditHappens(a: string, b: string)
    requires PlainContent(a) && PlainContent(b) && a != b
    ensures WebEdited(a, b).history != [] && Lawful(StaleSetup.exposure, WebEdited(a, b).history)
    ensures Next(StaleSetup, StaleStart(a), WebEdit(Snapshot(Row(b, 1), b, 1)), WebEdited(a, b))
  {
    hide PlainContent;
  }

  lemma StaleDownloadHappens(a: string, b: string)
    requires a != b
    ensures Next(StaleSetup, WebEdited(a, b), Sync("d", 0, "", StaleOutcome(b)), StaleDownloaded(a, b))
  {
  }

  lemma SameHistory(a: string, b: string)
    ensures StaleDownloaded(a, b).history == WebEdited(a, b).history
  {
  }

  lemma StaleFacts(a: string, b: string)
    ensures var w := StaleDownloaded(a, b);
            && w.history == [Snapshot(Row(a, 0), a, 0), Snapshot(Row(b, 1), b, 1)]
            && w.devices.Keys == {"d", "e"} && w.devices["e"] == Device(Some(LocalFile(a, 0, 1)), None, 0)
            && w.devices["d"].local == Some(LocalFile(b, 5, 1)) && w.devices["d"].record.Some?
            && var m := w.devices["d"].record.value;
               m.localMd5 == b && m.localMtime == 5 && m.localSize == 1 && m.remoteMd5 == Some(a)
  {
  }

  lemma ReturnOfTheOld(a: string, b: string) returns (o: Outcome)
    requires PlainContent(a) && PlainContent(b) && a != b
    ensures StaleDownloaded(a, b).history != []
    ensures o.stage.Done? && "e" in StaleDownloaded(a, b).devices && StaleDownloaded(a, b).devices["e"].local.Some?
    ensures UploadAnswers(StaleSetup.exposure, StaleDownloaded(a, b), "e", Row(b, 1), o)
    ensures Next(StaleSetup, StaleDownloaded(a, b), Sync("e", 1, "", o), AfterReturn(a, b, o))
  {
    WebEditHappens(a, b);
    StaleFacts(a, b);
    hide StaleDownloaded, StaleStart, UploadAnswers, Lawful, PlainContent, AfterConflict, Decide;
    var w := StaleDownloaded(a, b);
    SameHistory(a, b);
    o := FreshAnswers(StaleSetup, w, "e", Row(b, 1));
    UnrecordedConflicts(StaleSetup, w, "e");
    ConflictStep(StaleSetup, w, "e", o);
  }

  /** A conflict under a policy that keeps both sides. */
  lemma ConflictStep(setup: Setup, w: World, d: string, o: Outcome)
    requires w.history != [] && d in w.devices && w.devices[d].local.Some?
    requires var a := Decide(setup, w, d, |w.history| - 1, "");
             a.Conflict? && !a.resolution.LocalWins? && !a.resolution.RemoteWins?
    requires UploadAnswers(setup.exposure, w, d, Current(w).file, o)
    ensures Next(setup, w, Sync(d, |w.history| - 1, "", o), AfterConflict(w, d, o))
  {
    hide Decide, UploadAnswers, AfterConflict;
  }

  lemma LeftBehind(a: string, b: string, o: Outcome, stamp: string)
    requires PlainContent(a) && PlainContent(b) && a != b && o.stage.Done? && StaleDownloaded(a, b).history != []
    requires "e" in StaleDownloaded(a, b).devices && StaleDownloaded(a, b).devices["e"].local.Some?
    requires UploadAnswers(StaleSetup.exposure, StaleDownloaded(a, b), "e", Row(b, 1), o)
    ensures var w := AfterReturn(a, b, o);
            && w.history != [] && Current(w).content == a && HasLocal(w, "d", b)
            && Decide(StaleSetup, w, "d", |w.history| - 1, stamp) == Skip("name")
  {
    hide StaleDownloaded, WebEdited, StaleStart, UploadAnswers, Lawful, AfterConflict, Decide, Next, PlainContent;
    StaleFacts(a, b);
    WebEditHappens(a, b);
    var w := StaleDownloaded(a, b);
    assert w.history == WebEdited(a, b).history by { SameHistory(a, b); }
    ReturnedFacts(w, "e", Row(b, 1), o);
    assert w.devices["d"] == AfterReturn(a, b, o).devices["d"];
    SkipsWhenRecorded(AfterReturn(a, b, o), "d", stamp);
  }

  lemma ReturnedFacts(w: World, d: string, row: DriveFile, o: Outcome)
    requires Lawful(StaleSetup.exposure, w.history) && d in w.devices && w.devices[d].local.Some? && o.stage.Done?
    requires UploadAnswers(StaleSetup.exposure, w, d, row, o)
    ensures var w' := AfterConflict(w, d, o);
            && w'.history != [] && Current(w').content == w.devices[d].local.value.md5
            && Current(w').file.md5Checksum == Some(Current(w').content)
            && OnlyDevice(w, w', d)
  {
    LastIsShaped(StaleSetup.exposure, w.history + [o.media] + [o.patched]);
    AnswerContent(StaleSetup.exposure, w, d, row, o);
    hide UploadAnswers, AfterUpload, InStep, OnlyDevice, Lawful;
    WrittenIsInStep(SaveCopy(w), d, o);
    UploadIsLocal(StaleSetup.exposure, w, SaveCopy(w), d, row, o);
  }

  lemma AnswerContent(e: Exposure, w: World, d: string, row: DriveFile, o: Outcome)
    requires w.history != [] && d in w.devices && w.devices[d].local.Some? && UploadAnswers(e, w, d, row, o)
    ensures o.patched.content == w.devices[d].local.value.md5
  {
  }

  lemma SkipsWhenRecorded(w: World, d: string, stamp: string)
    requires w.history != [] && d in w.devices && w.devices[d].local.Some? && w.devices[d].record.Some?
    requires var (l, m) := (w.devices[d].local.value, w.devices[d].record.value);
             && l == LocalFile(m.localMd5, m.localMtime, m.localSize)
             && m.remoteMd5.Some? && m.remoteMd5 == Current(w).file.md5Checksum
    ensures Decide(StaleSetup, w, d, |w.history| - 1, stamp) == Skip("name")
  {
  }

  // -------------------------------------------------------------------- convergence

  /** From `ws[0]` on nobody edits: devices run completed syncs, in any order. */
  ghost predicate Calm(setup: Setup, ws: seq<World>, steps: seq<Step>)
    requires |ws| == |steps| + 1
  {
    && ws[0].history != [] && Lawful(setup.exposure, ws[0].history) && TrueRecords(ws[0])
    && forall i :: 0 <= i < |steps| ==> Syncs(setup, ws[i], steps[i], ws[i + 1])
  }

  ghost predicate Syncs(setup: Setup, w: World, step: Step, w': World) {
    w.history != [] && CompletedSync(w, step) && Next(setup, w, step, w')
  }

  /** Every device syncs between the two moments. */
  predicate Round(devices: set<string>, steps: seq<Step>, from: nat, to: nat) {
    && from <= to <= |steps|
    && forall d :: d in devices ==> exists i :: from <= i < to && steps[i].Sync? && steps[i].d == d
  }

  predicate Converged(w: World)
    requires w.history != []
  {
    forall d :: d in w.devices ==> InStep(w, d)
  }

  ghost predicate CalmAt(setup: Setup, ws: seq<World>, n: nat)
    requires n < |ws|
  {
    && ws[n].history != [] && Lawful(setup.exposure, ws[n].history) && TrueRecords(ws[n])
    && ws[n].devices.Keys == ws[0].devices.Keys
  }

  lemma {:induction false} CalmStays(setup: Setup, ws: seq<World>, steps: seq<Step>, n: nat)
    requires |ws| == |steps| + 1 && Calm(setup, ws, steps) && n <= |steps|
    ensures CalmAt(setup, ws, n)
  {
    hide Next, Lawful, TrueRecords;
    if n > 0 {
      assert Syncs(setup, ws[n - 1], steps[n - 1], ws[n]);
      CalmStays(setup, ws, steps, n - 1);
      NextIsLocal(setup, ws[n - 1], steps[n - 1], ws[n]);
      TimelyKeepsTrueRecords(setup, ws[n - 1], steps[n - 1], ws[n]);
    }
  }

  /** What one step of a calm run does. */
  lemma CalmStep(setup: Setup, ws: seq<World>, steps: seq<Step>, i: nat)
    requires |ws| == |steps| + 1 && Calm(setup, ws, steps) && i < |steps|
    ensures CalmAt(setup, ws, i) && CalmAt(setup, ws, i + 1) && steps[i].Sync? && steps[i].d in ws[i].devices
    ensures OnlyDevice(ws[i], ws[i + 1], steps[i].d) && InStep(ws[i + 1], steps[i].d)
    ensures Uploaded(ws[i], ws[i + 1]) ==> !Unedited(ws[i], steps[i].d) && Unedited(ws[i + 1], steps[i].d)
    ensures !Uploaded(ws[i], ws[i + 1]) ==>
              && ws[i + 1].history == ws[i].history
              && (Unedited(ws[i], steps[i].d) ==> Unedited(ws[i + 1], steps[i].d))
  {
    hide Lawful, InStep, Unedited, SyncStep, TrueRecord;
    CalmStays(setup, ws, steps, i);
    CalmStays(setup, ws, steps, i + 1);
    assert Syncs(setup, ws[i], steps[i], ws[i + 1]);
    NextIsLocal(setup, ws[i], steps[i], ws[i + 1]);
    assert steps[i].d in ws[i].devices;
    hide Next, OnlyDevice;
    CompletedSyncMeets(setup, ws[i], steps[i], ws[i + 1]);
  }

  /** A device without an edit of its own never uploads again. */
  lemma {:induction false} UneditedStays(setup: Setup, ws: seq<World>, steps: seq<Step>, i: nat, j: nat, d: string)
    requires |ws| == |steps| + 1 && Calm(setup, ws, steps) && i <= j <= |steps| && Unedited(ws[i], d)
    ensures Unedited(ws[j], d)
  {
    hide Calm, InStep, Lawful, TrueRecords;
    if i < j {
      UneditedStays(setup, ws, steps, i, j - 1, d);
      CalmStep(setup, ws, steps, j - 1);
    }
  }

  /** Without edits every device uploads at most once. */
  lemma UploadsOnce(setup: Setup, ws: seq<World>, steps: seq<Step>, i: nat, j: nat)
    requires |ws| == |steps| + 1 && Calm(setup, ws, steps) && i < j < |steps|
    requires Uploaded(ws[i], ws[i + 1]) && steps[i].Sync? && steps[j].Sync? && steps[i].d == steps[j].d
    ensures !Uploaded(ws[j], ws[j + 1])
  {
    hide Calm, InStep, Unedited;
    CalmStep(setup, ws, steps, i);
    UneditedStays(setup, ws, steps, i + 1, j, steps[i].d);
    CalmStep(setup, ws, steps, j);
  }

  /** While nobody uploads, devices that are in step stay so. */
  lemma {:induction false} InStepStays(setup: Setup, ws: seq<World>, steps: seq<Step>, i: nat, j: nat, d: string)
    requires |ws| == |steps| + 1 && Calm(setup, ws, steps) && i <= j <= |steps|
    requires ws[i].history != [] && InStep(ws[i], d)
    requires forall k :: i <= k < j ==> !Uploaded(ws[k], ws[k + 1])
    ensures ws[j].history != [] && InStep(ws[j], d)
  {
    hide Calm, Uploaded, Lawful, TrueRecords, Unedited, InStep;
    if i < j {
      InStepStays(setup, ws, steps, i, j - 1, d);
      CalmStep(setup, ws, steps, j - 1);
      InStepHasDevice(ws[j - 1], d);
      if steps[j - 1].d != d { SameDeviceInStep(ws[j - 1], ws[j], d); }
    }
  }

  /** A round without an upload ends with all devices in step. */
  lemma QuietRoundConverges(setup: Setup, ws: seq<World>, steps: seq<Step>, from: nat, to: nat)
    requires |ws| == |steps| + 1 && Calm(setup, ws, steps) && Round(ws[0].devices.Keys, steps, from, to)
    requires forall k :: from <= k < to ==> !Uploaded(ws[k], ws[k + 1])
    ensures ws[to].history != [] && Converged(ws[to])
  {
    hide Calm, Uploaded, InStep, Lawful, TrueRecords, OnlyDevice, Unedited;
    CalmStays(setup, ws, steps, to);
    forall d | d in ws[to].devices ensures InStep(ws[to], d) {
      var i :| from <= i < to && steps[i].Sync? && steps[i].d == d;
      CalmStep(setup, ws, steps, i);
      InStepStays(setup, ws, steps, i + 1, to, d);
    }
  }

  /** Once all devices are in step, every further sync changes neither Drive nor any content. */
  lemma {:induction false} ConvergedStays(setup: Setup, ws: seq<World>, steps: seq<Step>, i: nat, j: nat)
    requires |ws| == |steps| + 1 && Calm(setup, ws, steps) && i <= j <= |steps|
    requires ws[i].history != [] && Converged(ws[i])
    ensures ws[j].history == ws[i].history && Converged(ws[j])
  {
    hide Calm, Lawful, TrueRecords, InStep, Unedited;
    if i < j {
      ConvergedStays(setup, ws, steps, i, j - 1);
      CalmStep(setup, ws, steps, j - 1);
      var d := steps[j - 1].d;
      assert InStep(ws[j - 1], d);
      QuietStepStays(setup, ws, steps, j - 1);
      forall x | x in ws[j].devices ensures InStep(ws[j], x) {
        if x != d { SameDeviceInStep(ws[j - 1], ws[j], x); }
      }
    }
  }

  lemma InStepHasDevice(w: World, x: string)
    requires w.history != [] && InStep(w, x)
    ensures x in w.devices
  {
  }

  lemma SameDeviceInStep(w: World, w': World, x: string)
    requires w.history != [] && w'.history == w.history && InStep(w, x)
    requires x in w.devices && x in w'.devices && w'.devices[x] == w.devices[x]
    ensures InStep(w', x)
  {
  }

  lemma QuietStepStays(setup: Setup, ws: seq<World>, steps: seq<Step>, i: nat)
    requires |ws| == |steps| + 1 && Calm(setup, ws, steps) && i < |steps| && steps[i].Sync?
    requires ws[i].history != [] && InStep(ws[i], steps[i].d)
    ensures ws[i + 1].history == ws[i].history
  {
    hide Decide, InStep, Lawful, TrueRecords, UploadAnswers;
    assert Syncs(setup, ws[i], steps[i], ws[i + 1]);
    InStepIsQuiet(setup, ws[i], steps[i].d, steps[i].stamp);
  }

  function Uploaders(ws: seq<World>, steps: seq<Step>, n: nat): set<string>
    requires |ws| == |steps| + 1 && n <= |steps|
  {
    if n == 0 then {}
    else
      Uploaders(ws, steps, n - 1)
      + if Uploaded(ws[n - 1], ws[n]) && steps[n - 1].Sync? then {steps[n - 1].d} else {}
  }

  lemma {:induction false} UploadersMeaning(ws: seq<World>, steps: seq<Step>, n: nat)
    requires |ws| == |steps| + 1 && n <= |steps|
    ensures forall d :: d in Uploaders(ws, steps, n) <==>
              exists i :: 0 <= i < n && Uploaded(ws[i], ws[i + 1]) && steps[i].Sync? && steps[i].d == d
  {
    hide Uploaded;
    if n > 0 { UploadersMeaning(ws, steps, n - 1); }
  }

  lemma UploadersAreDevices(setup: Setup, ws: seq<World>, steps: seq<Step>, n: nat)
    requires |ws| == |steps| + 1 && Calm(setup, ws, steps) && n <= |steps|
    ensures |Uploaders(ws, steps, n)| <= |ws[0].devices|
  {
    UploadersMeaning(ws, steps, n);
    forall d | d in Uploaders(ws, steps, n) ensures d in ws[0].devices {
      var i :| 0 <= i < n && Uploaded(ws[i], ws[i + 1]) && steps[i].Sync? && steps[i].d == d;
      CalmStep(setup, ws, steps, i);
    }
    SubsetSize(Uploaders(ws, steps, n), ws[0].devices.Keys);
  }

  lemma {:induction false} SubsetSize(a: set<string>, b: set<string>)
    requires a <= b
    ensures |a| <= |b| && (a != b ==> |a| < |b|)
  {
    if a != {} {
      var x :| x in a;
      SubsetSize(a - {x}, b - {x});
    } else if b != {} {
      var x :| x in b;
      assert |b| == |b - {x}| + 1;
    }
  }

  /** A round in which somebody uploads has an uploader who never uploaded before. */
  lemma RoundAddsUploader(setup: Setup, ws: seq<World>, steps: seq<Step>, from: nat, to: nat, k: nat)
    requires |ws| == |steps| + 1 && Calm(setup, ws, steps) && from <= k < to <= |steps| && Uploaded(ws[k], ws[k + 1])
    ensures |Uploaders(ws, steps, from)| < |Uploaders(ws, steps, to)|
  {
    hide Calm, Uploaded, OnlyDevice, InStep, Unedited, CalmAt;
    UploadersMeaning(ws, steps, from);
    UploadersMeaning(ws, steps, to);
    CalmStep(setup, ws, steps, k);
    var d := steps[k].d;
    if d in Uploaders(ws, steps, from) {
      var i :| 0 <= i < from && Uploaded(ws[i], ws[i + 1]) && steps[i].Sync? && steps[i].d == d;
      UploadsOnce(setup, ws, steps, i, k);
    }
    assert d in Uploaders(ws, steps, to);
    SubsetSize(Uploaders(ws, steps, from), Uploaders(ws, steps, to));
  }

  /** `cut[r]` is the end of round `r`. */
  predicate Rounds(devices: set<string>, steps: seq<Step>, cut: seq<nat>) {
    && cut != [] && (forall r :: 0 <= r < |cut| ==> cut[r] <= |steps|)
    && forall r :: 0 <= r < |cut| - 1 ==> Round(devices, steps, cut[r], cut[r + 1])
  }

  lemma {:induction false} ConvergedOrUploads(
    setup: Setup, ws: seq<World>, steps: seq<Step>, cut: seq<nat>, r: nat)
    requires |ws| == |steps| + 1 && Calm(setup, ws, steps) && Rounds(ws[0].devices.Keys, steps, cut) && r < |cut|
    ensures ws[cut[r]].history != [] && (Converged(ws[cut[r]]) || |Uploaders(ws, steps, cut[r])| >= r)
  {
    hide Calm, Uploaded, Round, Converged, Lawful, TrueRecords;
    CalmStays(setup, ws, steps, cut[r]);
    if r > 0 {
      ConvergedOrUploads(setup, ws, steps, cut, r - 1);
      var from, to := cut[r - 1], cut[r];
      assert Round(ws[0].devices.Keys, steps, from, to);
      RoundIsOrdered(ws[0].devices.Keys, steps, from, to);
      if Converged(ws[from]) {
        ConvergedStays(setup, ws, steps, from, to);
      } else if k :| from <= k < to && Uploaded(ws[k], ws[k + 1]) {
        RoundAddsUploader(setup, ws, steps, from, to, k);
      } else {
        QuietRoundConverges(setup, ws, steps, from, to);
      }
    }
  }

  lemma RoundIsOrdered(devices: set<string>, steps: seq<Step>, from: nat, to: nat)
    requires Round(devices, steps, from, to)
    ensures from <= to
  {
  }

  lemma CutInRange(devices: set<string>, steps: seq<Step>, cut: seq<nat>, r: nat)
    requires Rounds(devices, steps, cut) && r < |cut|
    ensures cut[r] <= |steps|
  {
  }

  lemma InStepHasContent(w: World, d: string)
    requires w.history != [] && InStep(w, d)
    ensures HasLocal(w, d, Current(w).content)
  {
  }

  /**
   When nobody edits, one round more than there are devices brings every device to the
   content that is on Drive, in whatever order they sync and whatever they held before.
  */
  lemma DevicesConverge(setup: Setup, ws: seq<World>, steps: seq<Step>, cut: seq<nat>)
    requires |ws| == |steps| + 1 && Calm(setup, ws, steps)
    requires Rounds(ws[0].devices.Keys, steps, cut) && |cut| > |ws[0].devices| + 1
    ensures var w := ws[|steps|];
            w.history != [] && forall d :: d in w.devices ==> HasLocal(w, d, Current(w).content) && InStep(w, d)
  {
    hide Calm, Rounds, InStep;
    var r := |ws[0].devices| + 1;
    CutInRange(ws[0].devices.Keys, steps, cut, r);
    ConvergedOrUploads(setup, ws, steps, cut, r);
    UploadersAreDevices(setup, ws, steps, cut[r]);
    ConvergedStays(setup, ws, steps, cut[r], |steps|);
    forall d | d in ws[|steps|].devices
      ensures HasLocal(ws[|steps|], d, Current(ws[|steps|]).content)
    {
      InStepHasContent(ws[|steps|], d);
    }
  }

  // ------------------------------------------------------------- devices with records

  lemma {:induction false} RecordsStay(setup: Setup, ws: seq<World>, steps: seq<Step>, n: nat, d: string)
    requires |ws| == |steps| + 1 && Calm(setup, ws, steps) && n <= |steps|
    requires d in ws[0].devices && ws[0].devices[d].record.Some?
    ensures d in ws[n].devices && ws[n].devices[d].record.Some?
  {
    hide Lawful, TrueRecords, InStep, Next, Unedited, OnlyDevice;
    if n > 0 {
      RecordsStay(setup, ws, steps, n - 1, d);
      CalmStep(setup, ws, steps, n - 1);
      assert Syncs(setup, ws[n - 1], steps[n - 1], ws[n]);
      KeepsRecord(setup, ws[n - 1], steps[n - 1], ws[n], d);
    }
  }

  lemma KeepsRecord(setup: Setup, w: World, step: Step, w': World, d: string)
    requires w.history != [] && step.Sync? && Next(setup, w, step, w') && OnlyDevice(w, w', step.d)
    requires d in w.devices && w.devices[d].record.Some?
    ensures d in w'.devices && w'.devices[d].record.Some?
  {
    hide Decide, UploadAnswers, RevisionGuardMatches, RecordFrom;
  }

  lemma RecordedInStep(w: World, d: string)
    requires w.history != [] && InStep(w, d) && w.devices[d].record.Some?
    ensures Unedited(w, d)
  {
  }

  /** Devices that all have a record need two rounds. */
  lemma RecordedDevicesConverge(setup: Setup, ws: seq<World>, steps: seq<Step>, mid: nat)
    requires |ws| == |steps| + 1 && Calm(setup, ws, steps)
    requires forall d :: d in ws[0].devices ==> ws[0].devices[d].record.Some?
    requires Round(ws[0].devices.Keys, steps, 0, mid) && Round(ws[0].devices.Keys, steps, mid, |steps|)
    ensures ws[|steps|].history != [] && Converged(ws[|steps|])
  {
    hide Calm, Uploaded, OnlyDevice, Lawful, TrueRecords, Unedited, InStep;
    forall k | mid <= k < |steps| ensures !Uploaded(ws[k], ws[k + 1]) {
      CalmStep(setup, ws, steps, k);
      var d := steps[k].d;
      assert d in ws[0].devices.Keys;
      var i :| 0 <= i < mid && steps[i].Sync? && steps[i].d == d;
      CalmStep(setup, ws, steps, i);
      RecordsStay(setup, ws, steps, i + 1, d);
      RecordedInStep(ws[i + 1], d);
      UneditedStays(setup, ws, steps, i + 1, k, d);
    }
    QuietRoundConverges(setup, ws, steps, mid, |steps|);
  }
}
