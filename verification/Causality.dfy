/**
 What a version vector says over whole runs of the protocol: the vector on Drive
 counts the uploads of every device, the vector in a record counts those up to the
 device's last transfer, so the verdict tells exactly whether another device uploaded.
*/
module Causality {
  import opened Wrappers
  import opened Text
  import opened Coordination
  import opened Records
  import opened Decision
  import opened Protocol

  function Uploads(uploads: seq<string>, device: string): nat {
    if uploads == [] then 0
    else Uploads(uploads[..|uploads| - 1], device) + if uploads[|uploads| - 1] == device then 1 else 0
  }

  ghost predicate CountsUploads(v: Vector, v0: Vector, uploads: seq<string>) {
    forall x :: Count(v, x) == Count(v0, x) + Uploads(uploads, x)
  }

  /**
   The sync works from the current listing and its transfer is not interrupted; the
   vector it would write is neither trimmed nor saturated.
  */
  ghost predicate Orderly(w: World, step: Step) {
    step.Sync? ==>
      && w.history != [] && step.listed == |w.history| - 1
      && step.outcome.stage in {Nothing, CopySaved, Done}
      && CleanId(step.d)
      && (step.d in w.devices ==>
            var record, row := w.devices[step.d].record, Current(w).file;
            Fits(NextVector(record, row, step.d)) && Count(FromProperties(row.appProperties), step.d) < U64_MAX)
  }

  ghost predicate OrderlyRun(setup: Setup, run: seq<World>, steps: seq<Step>) {
    IsRun(setup, run, steps) && forall i :: 0 <= i < |steps| ==> Orderly(run[i], steps[i])
  }

  ghost predicate RecordCounts(setup: Setup, w: World, d: string)
    requires d in w.devices
  {
    var dev := w.devices[d];
    dev.record.Some? ==>
      && dev.syncedAt <= |w.uploads|
      && Clean(dev.record.value.versionVector)
      && CountsUploads(dev.record.value.versionVector, setup.vector0, w.uploads[..dev.syncedAt])
      && forall k :: dev.syncedAt <= k < |w.uploads| ==> w.uploads[k] != d
  }

  ghost predicate RemoteCounts(setup: Setup, w: World) {
    w.history != [] && CountsUploads(FromProperties(Current(w).file.appProperties), setup.vector0, w.uploads)
  }

  ghost predicate CausalInv(setup: Setup, w: World) {
    RemoteCounts(setup, w) && forall d :: d in w.devices ==> RecordCounts(setup, w, d)
  }

  // ---------------------------------------------------------------- what a vector counts

  lemma {:induction false} UploadsGrow(uploads: seq<string>, n: nat, device: string)
    requires n <= |uploads|
    ensures Uploads(uploads[..n], device) <= Uploads(uploads, device)
    ensures (exists k :: n <= k < |uploads| && uploads[k] == device)
            <==> Uploads(uploads[..n], device) < Uploads(uploads, device)
  {
    if n == |uploads| {
      assert uploads[..n] == uploads;
    } else {
      var init := uploads[..|uploads| - 1];
      UploadsGrow(init, n, device);
      assert init[..n] == uploads[..n];
      assert forall k :: n <= k < |init| ==> init[k] == uploads[k];
      assert uploads[|uploads| - 1] == device || forall k :: n <= k < |uploads| && uploads[k] == device ==> k < |init|;
    }
  }

  lemma FromPropertiesIsClean(props: Properties)
    ensures Clean(FromProperties(props))
  {
    if APP_PROP_VERSION_VECTOR in props { ParseIsClean(props[APP_PROP_VERSION_VECTOR]); }
  }

  /** Merging a record that is behind leaves the remote counts as they are. */
  lemma MergedCounts(setup: Setup, w: World, d: string, x: string)
    requires CausalInv(setup, w) && d in w.devices
    ensures Count(MergedVector(w, d), x) == Count(FromProperties(Current(w).file.appProperties), x)
  {
    hide FromProperties, Clean;
    assert RecordCounts(setup, w, d);
    if w.devices[d].record.Some? { UploadsGrow(w.uploads, w.devices[d].syncedAt, x); }
  }

  function MergedVector(w: World, d: string): Vector
    requires w.history != [] && d in w.devices
  {
    var record := w.devices[d].record;
    Merged(if record.Some? then record.value.versionVector else map[], FromProperties(Current(w).file.appProperties))
  }

  lemma MergedVectorIsClean(setup: Setup, w: World, d: string)
    requires CausalInv(setup, w) && d in w.devices
    ensures Clean(MergedVector(w, d))
  {
    hide FromProperties, CountsUploads, CleanId;
    FromPropertiesIsClean(Current(w).file.appProperties);
    assert RecordCounts(setup, w, d);
  }

  /** The vector of an upload counts one upload more. */
  lemma NextVectorCounts(setup: Setup, w: World, d: string)
    requires CausalInv(setup, w) && d in w.devices && CleanId(d)
    requires Count(FromProperties(Current(w).file.appProperties), d) < U64_MAX
    ensures var v := NextVector(w.devices[d].record, Current(w).file, d);
            Clean(v) && v != map[] && CountsUploads(v, setup.vector0, w.uploads + [d])
  {
    hide FromProperties, Merged, RecordCounts;
    var remote := FromProperties(Current(w).file.appProperties);
    var merged := MergedVector(w, d);
    MergedVectorIsClean(setup, w, d);
    MergedCounts(setup, w, d, d);
    assert d in Incremented(merged, d);
    forall x ensures Count(Incremented(merged, d), x) == Count(setup.vector0, x) + Uploads(w.uploads + [d], x) {
      MergedCounts(setup, w, d, x);
      assert (w.uploads + [d])[..|w.uploads|] == w.uploads;
    }
  }

  // ------------------------------------------------------------------------- the steps

  lemma StoredVectorReadsBack(setup: Setup, w: World, d: string, o: Outcome)
    requires CausalInv(setup, w) && d in w.devices && w.devices[d].local.Some? && CleanId(d)
    requires Fits(NextVector(w.devices[d].record, Current(w).file, d))
    requires Count(FromProperties(Current(w).file.appProperties), d) < U64_MAX
    requires UploadAnswers(setup.exposure, w, d, Current(w).file, o)
    ensures Clean(FromProperties(o.patched.file.appProperties))
    ensures CountsUploads(FromProperties(o.patched.file.appProperties), setup.vector0, w.uploads + [d])
  {
    var v := NextVector(w.devices[d].record, Current(w).file, d);
    NextVectorCounts(setup, w, d);
    hide NextVector, CountsUploads, Lawful, Fits, Clean, WithVector, Patched, FromProperties, CausalInv;
    PatchNeverErases(Current(w).file.appProperties, Current(w).file.appProperties, v, d);
    assert Last(w.history + [o.media]) == o.media;
  }

  lemma UploadCounts(setup: Setup, w: World, d: string, o: Outcome, w': World)
    requires CausalInv(setup, w) && d in w.devices && w.devices[d].local.Some?
    requires Clean(FromProperties(o.patched.file.appProperties))
    requires CountsUploads(FromProperties(o.patched.file.appProperties), setup.vector0, w.uploads + [d])
    requires IsUpload(w, d, o, w')
    ensures CausalInv(setup, w')
  {
    hide CountsUploads, Clean, FromProperties, RemoteContentFingerprint;
    assert Current(w') == o.patched;
    assert w'.uploads[..|w'.uploads|] == w'.uploads;
    assert RecordCounts(setup, w', d);
    forall x | x in w'.devices ensures RecordCounts(setup, w', x) {
      if x != d { UploadByAnother(setup, w, w', d, x); }
    }
  }

  /** The effect of a completed upload, whatever the copies. */
  ghost predicate IsUpload(w: World, d: string, o: Outcome, w': World)
    requires d in w.devices && w.devices[d].local.Some?
  {
    var local := w.devices[d].local;
    && w'.history == w.history + [o.media] + [o.patched] && w'.uploads == w.uploads + [d]
    && w'.devices == w.devices[d := Device(local, Some(RecordFrom(local.value, o.patched.file, o.now)), |w'.uploads|)]
  }

  lemma UploadByAnother(setup: Setup, w: World, w': World, d: string, x: string)
    requires x in w.devices && x in w'.devices && x != d && w'.devices[x] == w.devices[x]
    requires w'.uploads == w.uploads + [d] && RecordCounts(setup, w, x)
    ensures RecordCounts(setup, w', x)
  {
    var n := w.devices[x].syncedAt;
    if n <= |w.uploads| { assert w'.uploads[..n] == w.uploads[..n]; }
  }

  lemma UnchangedCounts(setup: Setup, w: World, d: string, w': World)
    requires CausalInv(setup, w) && d in w.devices && IsQuiet(w, d, w')
    ensures CausalInv(setup, w')
  {
    hide CountsUploads, FromProperties, Clean;
    FromPropertiesIsClean(Current(w).file.appProperties);
    assert w.uploads[..|w.uploads|] == w.uploads;
    forall x | x in w'.devices ensures RecordCounts(setup, w', x) {
      assert RecordCounts(setup, w, x);
    }
  }

  /** Nothing changed but what a device holds; a record written now is of the current row. */
  ghost predicate IsQuiet(w: World, d: string, w': World)
    requires w.history != [] && d in w.devices
  {
    && w'.history == w.history && w'.uploads == w.uploads && w'.devices.Keys == w.devices.Keys
    && (forall x :: x in w.devices && x != d ==> w'.devices[x] == w.devices[x])
    && var a, b := w.devices[d], w'.devices[d];
       || b.record.None?
       || (a.record.Some? && b.record.value.versionVector == a.record.value.versionVector && a.syncedAt == b.syncedAt)
       || (b.record.value.versionVector == FromProperties(Current(w).file.appProperties) && b.syncedAt == |w.uploads|)
  }

  lemma AtomicUpload(w: World, d: string, o: Outcome)
    requires w.history != [] && d in w.devices && w.devices[d].local.Some?
    requires o.stage in {Nothing, CopySaved, Done}
    ensures IsUpload(w, d, o, AfterUpload(w, d, o)) || AfterUpload(w, d, o) == w
  {
    hide RecordFrom;
  }

  lemma AtomicConflict(w: World, d: string, o: Outcome)
    requires w.history != [] && d in w.devices && w.devices[d].local.Some?
    requires o.stage in {Nothing, CopySaved, Done}
    ensures IsUpload(w, d, o, AfterConflict(w, d, o)) || IsQuiet(w, d, AfterConflict(w, d, o))
  {
    hide RecordFrom, AfterUpload;
    AtomicUpload(SaveCopy(w), d, o);
  }

  lemma AtomicDownload(w: World, d: string, o: Outcome)
    requires w.history != [] && d in w.devices
    requires o.stage in {Nothing, CopySaved, Done}
    ensures IsQuiet(w, d, AfterDownload(w, d, Current(w).file, o))
  {
    hide FromProperties, RemoteContentFingerprint;
  }

  lemma OrderlySync(setup: Setup, w: World, step: Step, w': World)
    requires CausalInv(setup, w) && step.Sync? && Orderly(w, step) && Next(setup, w, step, w')
    ensures CausalInv(setup, w')
  {
    hide Decide, CausalInv, UploadAnswers, RevisionGuardMatches, NextVector, FromProperties, Fits,
         AfterUpload, AfterConflict, AfterDownload, RecordFrom, CleanId, CountsUploads, Clean;
    var Sync(d, listed, stamp, o) := step;
    var dev := w.devices[d];
    AtomicDownload(w, d, o);
    if dev.local.Some? {
      AtomicUpload(w, d, o);
      AtomicConflict(w, d, o);
    }
    if dev.local.Some? && IsUpload(w, d, o, w') {
      StoredVectorReadsBack(setup, w, d, o);
      UploadCounts(setup, w, d, o, w');
    } else {
      assert IsQuiet(w, d, w');
      UnchangedCounts(setup, w, d, w');
    }
  }

  lemma OtherSteps(setup: Setup, w: World, step: Step, w': World)
    requires CausalInv(setup, w) && !step.Sync? && Next(setup, w, step, w')
    ensures CausalInv(setup, w')
  {
    hide CountsUploads, FromProperties, Clean, Lawful;
    forall x | x in w'.devices ensures RecordCounts(setup, w', x) {
      assert RecordCounts(setup, w, x);
    }
  }

  lemma {:induction false} RunIsCausal(setup: Setup, run: seq<World>, steps: seq<Step>, n: nat)
    requires OrderlyRun(setup, run, steps) && n <= |steps|
    ensures CausalInv(setup, run[n])
  {
    hide CausalInv, Orderly, Next;
    if n == 0 {
      InitIsCausal(setup, run[0]);
    } else {
      RunIsCausal(setup, run, steps, n - 1);
      assert Next(setup, run[n - 1], steps[n - 1], run[n]);
      if steps[n - 1].Sync? {
        OrderlySync(setup, run[n - 1], steps[n - 1], run[n]);
      } else {
        OtherSteps(setup, run[n - 1], steps[n - 1], run[n]);
      }
    }
  }

  lemma InitIsCausal(setup: Setup, w: World)
    requires Init(setup, w)
    ensures CausalInv(setup, w)
  {
    hide Lawful, FromProperties;
  }

  /**
   In every run of uninterrupted syncs, by any number of devices and under any policy,
   the verdict on a recorded path is `Equal` or `Dominates`, and it is `Dominates`
   exactly when another device completed an upload since this device's last transfer.
  */
  lemma VerdictMeaning(setup: Setup, run: seq<World>, steps: seq<Step>, n: nat, d: string)
    requires OrderlyRun(setup, run, steps) && n <= |steps|
    requires d in run[n].devices && run[n].devices[d].record.Some?
    ensures run[n].history != []
    ensures var w := run[n];
            var dev := w.devices[d];
            var verdict := Verdict(Current(w).file, dev.record.value);
            && dev.syncedAt <= |w.uploads|
            && verdict in {Equal, Dominates}
            && (verdict == Dominates <==> exists k :: dev.syncedAt <= k < |w.uploads| && w.uploads[k] != d)
  {
    hide Orderly, Next, Init, FromProperties, Clean;
    RunIsCausal(setup, run, steps, n);
    var w, dev := run[n], run[n].devices[d];
    assert RecordCounts(setup, w, d);
    VerdictCounts(FromProperties(Current(w).file.appProperties), dev.record.value.versionVector, setup.vector0,
        w.uploads, dev.syncedAt);
  }

  lemma VerdictCounts(remote: Vector, stored: Vector, v0: Vector, uploads: seq<string>, n: nat)
    requires n <= |uploads| && CountsUploads(remote, v0, uploads) && CountsUploads(stored, v0, uploads[..n])
    ensures Compare(remote, stored) == if n < |uploads| then Dominates else Equal
  {
    forall x ensures Count(stored, x) <= Count(remote, x) { UploadsGrow(uploads, n, x); }
    assert forall x :: x in stored ==> stored[x] == Count(stored, x);
    if n < |uploads| {
      var x := uploads[|uploads| - 1];
      UploadsGrow(uploads, n, x);
      assert Count(stored, x) < Count(remote, x) && x in remote;
    } else {
      assert uploads[..n] == uploads;
      assert forall x :: x in remote ==> remote[x] == Count(remote, x);
    }
  }
}
