/**
 The one-sided policies over whole runs. A version that a `local_wins` or `remote_wins`
 write replaced can be lost by some continuation exactly when it was neither saved as a
 copy nor edited on top of: devices that still hold it give it up in later syncs.
*/
module Policies {
  import opened Wrappers
  import opened Coordination
  import opened Records
  import opened Decision
  import opened Protocol

  // ----------------------------------------------------------------- continuations

  /** `n` steps lead from `a` to `b`. */
  ghost predicate LeadsIn(setup: Setup, a: World, b: World, n: nat)
    decreases n
  {
    if n == 0 then a == b
    else a.history != [] && exists step, mid :: Next(setup, a, step, mid) && LeadsIn(setup, mid, b, n - 1)
  }

  ghost predicate Leads(setup: Setup, a: World, b: World) {
    exists n: nat :: LeadsIn(setup, a, b, n)
  }

  lemma LeadsOne(setup: Setup, a: World, step: Step, b: World)
    requires a.history != [] && Next(setup, a, step, b)
    ensures LeadsIn(setup, a, b, 1) && Leads(setup, a, b)
  {
    hide Next;
    assert LeadsIn(setup, b, b, 0);
    assert LeadsIn(setup, a, b, 1);
  }

  lemma {:induction false} LeadsInOn(setup: Setup, a: World, b: World, c: World, m: nat, n: nat)
    requires LeadsIn(setup, a, b, m) && LeadsIn(setup, b, c, n)
    ensures LeadsIn(setup, a, c, m + n)
    decreases m
  {
    hide Next;
    if m > 0 {
      var step, mid :| Next(setup, a, step, mid) && LeadsIn(setup, mid, b, m - 1);
      LeadsInOn(setup, mid, b, c, m - 1, n);
    }
  }

  lemma LeadsOn(setup: Setup, a: World, b: World, c: World)
    requires Leads(setup, a, b) && Leads(setup, b, c)
    ensures Leads(setup, a, c)
  {
    hide LeadsIn;
    var m: nat :| LeadsIn(setup, a, b, m);
    var n: nat :| LeadsIn(setup, b, c, n);
    LeadsInOn(setup, a, b, c, m, n);
  }

  /** A continuation of the last world of a run is a longer run. */
  lemma {:induction false} RunOn(setup: Setup, run: seq<World>, steps: seq<Step>, b: World, n: nat)
    returns (run': seq<World>, steps': seq<Step>)
    requires IsRun(setup, run, steps) && LeadsIn(setup, run[|run| - 1], b, n)
    ensures IsRun(setup, run', steps') && run <= run' && run'[|run'| - 1] == b
    decreases n
  {
    hide Next, Init;
    run', steps' := run, steps;
    if n > 0 {
      var last := run[|run| - 1];
      var step, mid :| Next(setup, last, step, mid) && LeadsIn(setup, mid, b, n - 1);
      RunStep(setup, run, steps, step, mid);
      run', steps' := RunOn(setup, run + [mid], steps + [step], b, n - 1);
    }
  }

  lemma RunStep(setup: Setup, run: seq<World>, steps: seq<Step>, step: Step, w: World)
    requires IsRun(setup, run, steps) && run[|run| - 1].history != [] && Next(setup, run[|run| - 1], step, w)
    ensures IsRun(setup, run + [w], steps + [step])
  {
    hide Next, Init;
    var r, s := run + [w], steps + [step];
    forall i | 0 <= i < |s| ensures r[i].history != [] && Next(setup, r[i], s[i], r[i + 1]) {
      if i < |steps| { assert r[i] == run[i] && r[i + 1] == run[i + 1] && s[i] == steps[i]; }
    }
  }

  // ------------------------------------------------------------------------ losing

  ghost predicate Lost(w: World, v: string) {
    w.history != [] && v in w.parent && !EditedOn(w, v) && !Readable(w, v)
  }

  /** Some continuation loses the version. */
  ghost predicate CanBeLost(setup: Setup, w: World, v: string) {
    exists b :: Leads(setup, w, b) && Lost(b, v)
  }

  lemma NextKeepsSuperseded(setup: Setup, a: World, step: Step, b: World, v: string)
    requires a.history != [] && Next(setup, a, step, b) && Superseded(a, v)
    ensures Superseded(b, v)
  {
    NextGrows(setup, a, step, b);
    hide Next;
    if child :| child in a.parent && a.parent[child] == Some(v) {
      assert child in b.parent && b.parent[child] == Some(v);
    }
  }

  /** Copies stay, and so does what every version was edited on. */
  lemma NextGrows(setup: Setup, a: World, step: Step, b: World)
    requires a.history != [] && Next(setup, a, step, b)
    ensures a.copies <= b.copies
    ensures forall x :: x in a.parent ==> x in b.parent && b.parent[x] == a.parent[x]
  {
    hide SyncStep, Lawful;
    if step.Sync? { SyncGrows(setup, a, step.d, step.listed, step.stamp, step.outcome, b); }
  }

  lemma SyncGrows(setup: Setup, w: World, d: string, listed: nat, stamp: string, o: Outcome, w': World)
    requires w.history != [] && d in w.devices && listed < |w.history| && SyncStep(setup, w, d, listed, stamp, o, w')
    ensures w.copies <= w'.copies && w'.parent == w.parent
  {
    hide Decide, UploadAnswers, RevisionGuardMatches, RecordFrom, AfterUpload, AfterConflict, AfterDownload;
    DownloadEffect(w, d, w.history[listed].file, o);
    if w.devices[d].local.Some? {
      UploadEffect(w, d, o);
      ConflictEffect(w, d, o);
    }
  }

  lemma {:induction false} SupersededStays(setup: Setup, a: World, b: World, n: nat, v: string)
    requires LeadsIn(setup, a, b, n) && Superseded(a, v)
    ensures Superseded(b, v)
    decreases n
  {
    hide Next, Superseded;
    if n > 0 {
      var step, mid :| Next(setup, a, step, mid) && LeadsIn(setup, mid, b, n - 1);
      NextKeepsSuperseded(setup, a, step, mid, v);
      SupersededStays(setup, mid, b, n - 1, v);
    }
  }

  /** A superseded version is safe for ever, whatever the policy. */
  lemma SupersededIsSafe(setup: Setup, w: World, v: string)
    requires Superseded(w, v)
    ensures !CanBeLost(setup, w, v)
  {
    hide LeadsIn;
    forall b | Leads(setup, w, b) ensures !Lost(b, v) {
      var n: nat :| LeadsIn(setup, w, b, n);
      SupersededStays(setup, w, b, n, v);
    }
  }

  // ------------------------------------------------------------- Drive can answer

  lemma {:induction false} LongerThanAll(h: seq<Snapshot>) returns (n: nat)
    ensures forall i :: 0 <= i < |h| && h[i].file.headRevisionId.Some? ==> |h[i].file.headRevisionId.value| <= n
  {
    n := 0;
    if h != [] {
      var last := h[|h| - 1].file.headRevisionId;
      n := LongerThanAll(h[..|h| - 1]);
      if last.Some? && |last.value| > n { n := |last.value|; }
      assert forall i :: 0 <= i < |h| - 1 ==> h[..|h| - 1][i] == h[i];
    }
  }

  lemma {:induction false} GreaterThanAll(h: seq<Snapshot>) returns (n: int)
    ensures forall i :: 0 <= i < |h| && h[i].file.version.Some? ==> h[i].file.version.value < n
  {
    n := 0;
    if h != [] {
      var last := h[|h| - 1].file.version;
      n := GreaterThanAll(h[..|h| - 1]);
      if last.Some? && last.value >= n { n := last.value + 1; }
      assert forall i :: 0 <= i < |h| - 1 ==> h[..|h| - 1][i] == h[i];
    }
  }

  lemma LawfulSnoc(e: Exposure, h: seq<Snapshot>, s: Snapshot)
    requires Lawful(e, h) && Shaped(e, s) && forall i :: 0 <= i < |h| ==> Later(e, h[i], s)
    ensures Lawful(e, h + [s])
  {
    hide Shaped, Later;
    var h' := h + [s];
    forall i, j | 0 <= i < j < |h'| ensures Later(e, h'[i], h'[j]) {
      assert h'[i] == h[i] && (j < |h| ==> h'[j] == h[j]);
    }
  }

  /** New media with a fresh revision, version and time. */
  lemma FreshMedia(e: Exposure, h: seq<Snapshot>, c: string) returns (s: Snapshot)
    requires Lawful(e, h) && PlainContent(c)
    ensures s.content == c && MediaWrite(h, s) && Lawful(e, h + [s])
  {
    var last := Last(h);
    var n := LongerThanAll(h);
    var version := GreaterThanAll(h);
    var head := seq(n + 1, _ => 'r');
    var file := last.file.(
      md5Checksum := if e.md5 then Some(c) else None,
      headRevisionId := if e.headRevision then Some(head) else None,
      version := if e.version then Some(version) else None,
      modifiedTime := last.file.modifiedTime + 1);
    s := Snapshot(file, c, last.rev + 1);
    assert Shaped(e, s) by { assert Shaped(e, last); }
    forall i | 0 <= i < |h| ensures Later(e, h[i], s) {
      assert i < |h| - 1 ==> Later(e, h[i], h[|h| - 1]);
      assert Shaped(e, h[i]);
    }
    LawfulSnoc(e, h, s);
  }

  /** Patched properties with a fresh version and time. */
  lemma FreshProperties(e: Exposure, h: seq<Snapshot>, patch: Properties) returns (s: Snapshot)
    requires Lawful(e, h)
    ensures PropertiesWrite(h, patch, s) && Lawful(e, h + [s])
  {
    var last := Last(h);
    var version := GreaterThanAll(h);
    var file := last.file.(
      version := if e.version then Some(version) else None,
      modifiedTime := last.file.modifiedTime,
      appProperties := Patched(last.file.appProperties, patch));
    s := Snapshot(file, last.content, last.rev);
    assert Shaped(e, s) by { assert Shaped(e, last); }
    hide Patched;
    forall i | 0 <= i < |h| ensures Later(e, h[i], s) {
      assert i < |h| - 1 ==> Later(e, h[i], h[|h| - 1]);
      assert Shaped(e, h[i]) && Shaped(e, last);
    }
    LawfulSnoc(e, h, s);
  }

  lemma FreshAnswers(setup: Setup, w: World, d: string, row: DriveFile) returns (o: Outcome)
    requires Lawful(setup.exposure, w.history) && d in w.devices && w.devices[d].local.Some?
    requires PlainContent(w.devices[d].local.value.md5)
    ensures UploadAnswers(setup.exposure, w, d, row, o) && o.stage == Done
  {
    hide Lawful, UploadPatch, Patched, PlainContent;
    var media := FreshMedia(setup.exposure, w.history, w.devices[d].local.value.md5);
    var patched := FreshProperties(setup.exposure, w.history + [media], UploadPatch(w.devices[d].record, row, d));
    o := Outcome(Done, media, patched, w.devices[d].local.value, 0);
    assert Last(w.history + [media]) == media;
  }

  // -------------------------------------------------------- how devices give a version up

  /** `b` is `a` with more history and another state of the devices. */
  ghost predicate SameVersions(a: World, b: World) {
    b.parent == a.parent && b.copies == a.copies && b.devices.Keys == a.devices.Keys
  }

  ghost predicate OthersSame(a: World, b: World, d: string) {
    forall x :: x in a.devices && x in b.devices && x != d ==> b.devices[x] == a.devices[x]
  }

  /** Without a record, a device whose file differs from the listed one has a conflict. */
  lemma UnrecordedConflicts(setup: Setup, w: World, d: string)
    requires Lawful(setup.exposure, w.history) && d in w.devices
    requires w.devices[d].record.None? && w.devices[d].local.Some? && w.devices[d].local.value.md5 != Current(w).content
    ensures var a := Decide(setup, w, d, |w.history| - 1, "");
            a.Conflict? && a.resolution == ResolutionFromPolicy(setup.policy, "")
  {
    assert Shaped(setup.exposure, w.history[|w.history| - 1]);
  }

  lemma LocalWinsStep(setup: Setup, w: World, d: string, o: Outcome)
    requires w.history != [] && d in w.devices && w.devices[d].local.Some?
    requires var a := Decide(setup, w, d, |w.history| - 1, ""); a.Conflict? && a.resolution == LocalWins
    requires UploadAnswers(setup.exposure, w, d, Current(w).file, o)
    ensures Next(setup, w, Sync(d, |w.history| - 1, "", o), AfterUpload(w, d, o))
  {
    hide Decide, UploadAnswers, AfterUpload;
  }

  /** `d` wrote its file over the current content and recorded it; nothing else changed. */
  ghost predicate WonOver(e: Exposure, w: World, b: World, d: string) {
    && SameVersions(w, b) && OthersSame(w, b, d) && w.history < b.history && Lawful(e, b.history)
    && d in w.devices && d in b.devices && w.devices[d].local.Some? && b.devices[d].local == w.devices[d].local
    && Current(b).content == w.devices[d].local.value.md5 && b.devices[d].record.Some?
    && var r := b.devices[d].record.value;
       r.localMd5 == w.devices[d].local.value.md5 && r.remoteMd5 == Some(RemoteContentFingerprint(Current(b).file))
  }

  lemma UploadDone(setup: Setup, w: World, d: string, row: DriveFile, o: Outcome)
    requires w.history != [] && d in w.devices && w.devices[d].local.Some?
    requires UploadAnswers(setup.exposure, w, d, row, o) && o.stage == Done
    ensures WonOver(setup.exposure, w, AfterUpload(w, d, o), d)
  {
    hide UploadPatch, Patched, RemoteContentFingerprint, FromProperties, Shaped, Later, Lawful;
    var b := AfterUpload(w, d, o);
    assert b.history == w.history + [o.media] + [o.patched];
  }

  lemma WonOverWithoutRecord(e: Exposure, w: World, b: World, d: string)
    requires d in w.devices && WonOver(e, SetDevice(w, d, w.devices[d].(record := None)), b, d)
    ensures WonOver(e, w, b, d)
  {
    hide RemoteContentFingerprint, Lawful;
  }

  /** Under `local_wins` a device without its record writes its file over the current one. */
  lemma WinOver(setup: Setup, w: World, d: string) returns (b: World)
    requires Lawful(setup.exposure, w.history) && setup.policy == LocalWinsPolicy && d in w.devices
    requires var l := w.devices[d].local; l.Some? && PlainContent(l.value.md5) && l.value.md5 != Current(w).content
    ensures Leads(setup, w, b) && WonOver(setup.exposure, w, b, d)
  {
    var w1 := SetDevice(w, d, w.devices[d].(record := None));
    LeadsOne(setup, w, ForgetRecord(d), w1);
    UnrecordedConflicts(setup, w1, d);
    var o := FreshAnswers(setup, w1, d, Current(w1).file);
    LocalWinsStep(setup, w1, d, o);
    hide Leads, LeadsIn, Lawful, Next, Decide, UploadAnswers, AfterUpload, PlainContent, WonOver;
    UploadDone(setup, w1, d, Current(w1).file, o);
    b := AfterUpload(w1, d, o);
    LeadsOne(setup, w1, Sync(d, |w1.history| - 1, "", o), b);
    LeadsOn(setup, w, w1, b);
    WonOverWithoutRecord(setup.exposure, w, b, d);
  }

  // ---------------------------------------------------------------- losing for good

  function Holders(w: World, v: string): set<string> {
    set x | x in w.devices && HasLocal(w, x, v)
  }

  /** The file of `x` is the recorded one, and the current row is not. */
  predicate Outdated(w: World, x: string)
    requires w.history != []
  {
    && x in w.devices && w.devices[x].local.Some? && w.devices[x].record.Some?
    && var r := w.devices[x].record.value;
       && r.localMd5 == w.devices[x].local.value.md5
       && r.remoteMd5.Some? && r.remoteMd5 != Some(RemoteContentFingerprint(Current(w).file))
  }

  /** An outdated device downloads. */
  lemma DownloadOver(setup: Setup, w: World, x: string) returns (b: World)
    requires w.history != [] && Outdated(w, x)
    ensures LeadsIn(setup, w, b, 1) && Leads(setup, w, b) && SameVersions(w, b) && OthersSame(w, b, x)
        && b.history == w.history
    ensures x in b.devices && b.devices[x].local.Some? && b.devices[x].local.value.md5 == Current(w).content
  {
    var o := Outcome(Done, Current(w), Current(w), LocalFile(Current(w).content, 0, 0), 0);
    hide Decide, RemoteContentFingerprint, Next, LeadsIn, Leads, AfterDownload, SameVersions, OthersSame;
    DownloadDone(w, x, o);
    OutdatedDownloads(setup, w, x);
    b := AfterDownload(w, x, Current(w).file, o);
    DownloadStep(setup, w, x, o);
    LeadsOne(setup, w, Sync(x, |w.history| - 1, "", o), b);
  }

  lemma DownloadDone(w: World, x: string, o: Outcome)
    requires w.history != [] && x in w.devices && o.stage == Done
    ensures var b := AfterDownload(w, x, Current(w).file, o);
            && SameVersions(w, b) && OthersSame(w, b, x) && b.history == w.history && x in b.devices
            && b.devices[x].local == Some(o.written)
  {
    hide RecordFrom;
  }

  lemma OutdatedDownloads(setup: Setup, w: World, x: string)
    requires w.history != [] && Outdated(w, x)
    ensures Decide(setup, w, x, |w.history| - 1, "").Download?
  {
    hide RemoteContentFingerprint;
  }

  lemma DownloadStep(setup: Setup, w: World, x: string, o: Outcome)
    requires w.history != [] && x in w.devices && o.written.md5 == Current(w).content
    requires Decide(setup, w, x, |w.history| - 1, "").Download?
    ensures Next(setup, w, Sync(x, |w.history| - 1, "", o), AfterDownload(w, x, Current(w).file, o))
  {
    hide Decide, AfterDownload;
  }

  /** Rows of one object with different contents have different fingerprints. */
  lemma RowsDiffer(e: Exposure, h: seq<Snapshot>, base: nat)
    requires Lawful(e, h) && base < |h| && h[base].content != Last(h).content
    ensures RemoteContentFingerprint(h[base].file) != RemoteContentFingerprint(Last(h).file)
  {
    assert Shaped(e, h[base]) && Shaped(e, h[|h| - 1]) && Later(e, h[base], h[|h| - 1]);
    hide Lawful, RemoteContentFingerprint;
    FingerprintMeaning(h[base].file, Last(h).file);
  }

  /** A holder gives up its version: it writes it, is written over, and downloads. */
  lemma HolderGivesUp(setup: Setup, w: World, d: string, x: string, v: string) returns (b: World)
    requires w.history != [] && Lawful(setup.exposure, w.history) && setup.policy == LocalWinsPolicy
    requires HasLocal(w, d, Current(w).content) && PlainContent(Current(w).content)
    requires HasLocal(w, x, v) && PlainContent(v) && v != Current(w).content
    ensures Leads(setup, w, b) && SameVersions(w, b) && b.history != [] && Lawful(setup.exposure, b.history)
    ensures Current(b).content == Current(w).content && HasLocal(b, d, Current(b).content)
    ensures Holders(b, v) == Holders(w, v) - {x}
  {
    hide Lawful, Leads, LeadsIn, PlainContent, RemoteContentFingerprint;
    var c := Current(w).content;
    var w1 := WinOver(setup, w, x);
    var w2 := WinOver(setup, w1, d);
    var base := |w1.history| - 1;
    assert w2.history[base] == w1.history[base];
    RowsDiffer(setup.exposure, w2.history, base);
    b := DownloadOver(setup, w2, x);
    LeadsOn(setup, w, w1, w2);
    LeadsOn(setup, w, w2, b);
  }

  lemma {:induction false} HoldersGiveUp(setup: Setup, w: World, d: string, v: string, holders: set<string>)
      returns (b: World)
    requires w.history != [] && Lawful(setup.exposure, w.history) && setup.policy == LocalWinsPolicy
    requires HasLocal(w, d, Current(w).content) && PlainContent(Current(w).content)
    requires PlainContent(v) && v != Current(w).content && holders == Holders(w, v)
    ensures Leads(setup, w, b) && SameVersions(w, b) && b.history != [] && Current(b).content == Current(w).content
    ensures Holders(b, v) == {}
    decreases |holders|
  {
    hide Lawful, PlainContent, LeadsIn;
    if holders == {} {
      b := w;
      assert LeadsIn(setup, w, w, 0) by { StaysInPlace(setup, w); }
    } else {
      var x :| x in holders;
      var w1 := HolderGivesUp(setup, w, d, x, v);
      b := HoldersGiveUp(setup, w1, d, v, holders - {x});
      LeadsOn(setup, w, w1, b);
    }
  }

  lemma StaysInPlace(setup: Setup, w: World)
    ensures LeadsIn(setup, w, w, 0)
  {
  }

  lemma NothingHoldsIt(w: World, b: World, v: string)
    requires SameVersions(w, b) && b.history != [] && Current(b).content != v && Holders(b, v) == {}
    requires v in w.parent && !Superseded(w, v)
    ensures Lost(b, v)
  {
    forall x | x in b.devices ensures !HasLocal(b, x, v) {
      assert x !in Holders(b, v);
    }
  }

  /**
   A `local_wins` write over content `v`, however far it got after the media, puts `v` at
   risk exactly when `v` was neither saved as a copy nor edited on top of. That another
   device still holds `v` is no protection.
  */
  lemma LocalWinsIsExact(setup: Setup, w: World, d: string, listed: nat, stamp: string, o: Outcome, w': World)
    requires Inv(setup, w)
    requires d in w.devices && listed < |w.history| && SyncStep(setup, w, d, listed, stamp, o, w')
    requires var a := Decide(setup, w, d, listed, stamp); a.Conflict? && a.resolution == LocalWins
    requires o.stage in {MediaWritten, PropertiesWritten, Done}
    requires w.devices[d].local.value.md5 != Current(w).content
    ensures CanBeLost(setup, w', Current(w).content) <==> !Superseded(w, Current(w).content)
  {
    hide InvBut, Decide, SyncStep, CanBeLost, Lawful, Superseded, PlainContent;
    LocalWinsWrote(setup, w, d, listed, stamp, o, w');
    CurrentIsAPlainVersion(setup, w);
    LocalWinsPolicyOnly(setup, w, d, listed, stamp);
    SameSuperseded(w, w', Current(w).content);
    if Superseded(w, Current(w).content) {
      SupersededIsSafe(setup, w', Current(w).content);
    } else {
      HeldContentCanBeLost(setup, w', d, Current(w).content);
    }
  }

  /** When every holder is outdated, one ordinary download by each of them loses the version. */
  lemma {:induction false} OutdatedHoldersLoseIt(setup: Setup, w: World, v: string, holders: set<string>)
      returns (b: World)
    requires w.history != [] && v != Current(w).content && v in w.parent && !Superseded(w, v)
    requires holders == Holders(w, v) && forall x :: x in holders ==> Outdated(w, x)
    ensures LeadsIn(setup, w, b, |holders|) && Lost(b, v)
    decreases |holders|
  {
    hide Superseded, RemoteContentFingerprint, Lost, LeadsIn;
    if holders == {} {
      b := w;
      StaysInPlace(setup, w);
      NothingHoldsIt(w, b, v);
    } else {
      var x :| x in holders;
      var w1 := DownloadOver(setup, w, x);
      SameSuperseded(w, w1, v);
      forall y | y in holders - {x} ensures Outdated(w1, y) {
        assert Outdated(w, y) && w1.devices[y] == w.devices[y];
      }
      assert Holders(w1, v) == holders - {x};
      b := OutdatedHoldersLoseIt(setup, w1, v, holders - {x});
      LeadsInOn(setup, w, w1, b, 1, |holders - {x}|);
    }
  }

  lemma HeldContentCanBeLost(setup: Setup, w: World, d: string, v: string)
    requires w.history != [] && Lawful(setup.exposure, w.history) && setup.policy == LocalWinsPolicy
    requires HasLocal(w, d, Current(w).content) && PlainContent(Current(w).content)
    requires PlainContent(v) && v != Current(w).content && v in w.parent && !Superseded(w, v)
    ensures CanBeLost(setup, w, v)
  {
    hide Lawful, Superseded, PlainContent, HasLocal, Holders;
    var b := HoldersGiveUp(setup, w, d, v, Holders(w, v));
    NothingHoldsIt(w, b, v);
    LosesIt(setup, w, b, v);
  }

  lemma CurrentIsAPlainVersion(setup: Setup, w: World)
    requires Inv(setup, w)
    ensures w.history != [] && PlainContent(Current(w).content) && Current(w).content in w.parent
  {
    hide DeviceOk, VersionsOk;
    assert PublishedOk(w, w.history[|w.history| - 1].content) && Shaped(setup.exposure, w.history[|w.history| - 1]);
  }

  lemma LocalWinsPolicyOnly(setup: Setup, w: World, d: string, listed: nat, stamp: string)
    requires d in w.devices && listed < |w.history|
    requires var a := Decide(setup, w, d, listed, stamp); a.Conflict? && a.resolution == LocalWins
    ensures setup.policy == LocalWinsPolicy
  {
    hide RemoteContentFingerprint, FromProperties, Compare;
  }

  lemma SameSuperseded(a: World, b: World, v: string)
    requires a.parent == b.parent && a.copies == b.copies
    ensures Superseded(a, v) <==> Superseded(b, v)
  {
  }

  lemma LosesIt(setup: Setup, w: World, b: World, v: string)
    requires Leads(setup, w, b) && Lost(b, v)
    ensures CanBeLost(setup, w, v)
  {
  }

  lemma LocalWinsWrote(setup: Setup, w: World, d: string, listed: nat, stamp: string, o: Outcome, w': World)
    requires w.history != [] && d in w.devices && listed < |w.history| && SyncStep(setup, w, d, listed, stamp, o, w')
    requires var a := Decide(setup, w, d, listed, stamp); a.Conflict? && a.resolution == LocalWins
    requires o.stage in {MediaWritten, PropertiesWritten, Done}
    ensures w'.history != []
    ensures w'.parent == w.parent && w'.copies == w.copies && Lawful(setup.exposure, w'.history)
    ensures w.devices[d].local.Some? && HasLocal(w', d, Current(w').content)
    ensures Current(w').content == w.devices[d].local.value.md5 && PlainContent(Current(w').content)
  {
    hide Decide, UploadPatch, Patched, RecordFrom;
    assert Shaped(setup.exposure, (w.history + [o.media])[|w.history|]);
  }

  // ------------------------------------------------------------------- remote_wins

  /** Under `remote_wins` a holder without its record overwrites its file. */
  lemma HolderIsOverwritten(setup: Setup, w: World, x: string, v: string) returns (b: World)
    requires w.history != [] && Lawful(setup.exposure, w.history) && setup.policy == RemoteWinsPolicy
    requires HasLocal(w, x, v) && v != Current(w).content
    ensures Leads(setup, w, b) && SameVersions(w, b) && b.history == w.history
    ensures Holders(b, v) == Holders(w, v) - {x}
  {
    var w1 := SetDevice(w, x, w.devices[x].(record := None));
    LeadsOne(setup, w, ForgetRecord(x), w1);
    UnrecordedConflicts(setup, w1, x);
    var o := Outcome(Done, Current(w), Current(w), LocalFile(Current(w).content, 0, 0), 0);
    b := AfterDownload(w1, x, Current(w1).file, o);
    RemoteWinsStep(setup, w1, x, o);
    hide Decide, Lawful, Next, RecordFrom, LeadsIn, Leads;
    LeadsOne(setup, w1, Sync(x, |w1.history| - 1, "", o), b);
    LeadsOn(setup, w, w1, b);
  }

  lemma RemoteWinsStep(setup: Setup, w: World, x: string, o: Outcome)
    requires w.history != [] && x in w.devices && w.devices[x].local.Some? && o.written.md5 == Current(w).content
    requires var a := Decide(setup, w, x, |w.history| - 1, ""); a.Conflict? && a.resolution == RemoteWins
    ensures Next(setup, w, Sync(x, |w.history| - 1, "", o), AfterDownload(w, x, Current(w).file, o))
  {
    hide Decide, AfterDownload;
  }

  lemma {:induction false} HoldersAreOverwritten(setup: Setup, w: World, v: string, holders: set<string>)
      returns (b: World)
    requires w.history != [] && Lawful(setup.exposure, w.history) && setup.policy == RemoteWinsPolicy
    requires v != Current(w).content && holders == Holders(w, v)
    ensures Leads(setup, w, b) && SameVersions(w, b) && b.history == w.history && Holders(b, v) == {}
    decreases |holders|
  {
    hide Lawful, LeadsIn;
    if holders == {} {
      b := w;
      assert LeadsIn(setup, w, w, 0) by { StaysInPlace(setup, w); }
    } else {
      var x :| x in holders;
      var w1 := HolderIsOverwritten(setup, w, x, v);
      b := HoldersAreOverwritten(setup, w1, v, holders - {x});
      LeadsOn(setup, w, w1, b);
    }
  }

  lemma RemoteWinsPolicyOnly(setup: Setup, w: World, d: string, listed: nat, stamp: string)
    requires d in w.devices && listed < |w.history|
    requires var a := Decide(setup, w, d, listed, stamp); a.Conflict? && a.resolution == RemoteWins
    ensures setup.policy == RemoteWinsPolicy && w.devices[d].local.Some?
  {
    hide RemoteContentFingerprint, FromProperties, Compare;
  }

  lemma RemoteWinsWrote(setup: Setup, w: World, d: string, listed: nat, stamp: string, o: Outcome, w': World)
    requires w.history != [] && d in w.devices && listed < |w.history| && SyncStep(setup, w, d, listed, stamp, o, w')
    requires var a := Decide(setup, w, d, listed, stamp); a.Conflict? && a.resolution == RemoteWins
    ensures w'.parent == w.parent && w'.copies == w.copies && w'.history == w.history
  {
    hide Decide, RecordFrom;
  }

  /**
   A `remote_wins` write over the local content `v` puts `v` at risk exactly when `v` was
   neither saved as a copy nor edited on top of.
  */
  lemma RemoteWinsIsExact(setup: Setup, w: World, d: string, listed: nat, stamp: string, o: Outcome, w': World)
    requires Inv(setup, w)
    requires d in w.devices && listed < |w.history| && SyncStep(setup, w, d, listed, stamp, o, w')
    requires var a := Decide(setup, w, d, listed, stamp); a.Conflict? && a.resolution == RemoteWins
    requires o.stage in {MediaWritten, Done} && w.devices[d].local.value.md5 != Current(w).content
    ensures CanBeLost(setup, w', w.devices[d].local.value.md5) <==> !Superseded(w, w.devices[d].local.value.md5)
  {
    hide Decide, SyncStep, CanBeLost, Superseded, DeviceOk, VersionsOk;
    RemoteWinsWrote(setup, w, d, listed, stamp, o, w');
    RemoteWinsPolicyOnly(setup, w, d, listed, stamp);
    LocalIsAVersion(setup, w, d);
    var v := w.devices[d].local.value.md5;
    SameSuperseded(w, w', v);
    hide InvBut, Lawful;
    if Superseded(w, v) {
      SupersededIsSafe(setup, w', v);
    } else {
      var b := HoldersAreOverwritten(setup, w', v, Holders(w', v));
      NothingHoldsIt(w', b, v);
      LosesIt(setup, w', b, v);
    }
  }

  // --------------------------------------------------------------------- together

  /** The version that a step of a one-sided policy may discard. */
  function Discarded(setup: Setup, w: World, step: Step): string
    requires step.Sync? && w.history != [] && step.d in w.devices && w.devices[step.d].local.Some?
        && step.listed < |w.history|
  {
    var a := Decide(setup, w, step.d, step.listed, step.stamp);
    if a.Conflict? && a.resolution == LocalWins then Current(w).content else w.devices[step.d].local.value.md5
  }

  /** Every step that is not considerate puts a version at risk, so the condition is exact. */
  lemma InconsiderateStepsCanLose(setup: Setup, w: World, step: Step, w': World)
    requires Inv(setup, w) && Next(setup, w, step, w') && !Considerate(setup, w, step)
    ensures step.Sync? && w.history != [] && step.d in w.devices && w.devices[step.d].local.Some?
        && step.listed < |w.history|
    ensures CanBeLost(setup, w', Discarded(setup, w, step))
  {
    hide InvBut, Decide, SyncStep, CanBeLost, Superseded;
    var Sync(d, listed, stamp, o) := step;
    var a := Decide(setup, w, d, listed, stamp);
    if a.resolution == LocalWins {
      LocalWinsIsExact(setup, w, d, listed, stamp, o, w');
    } else {
      RemoteWinsIsExact(setup, w, d, listed, stamp, o, w');
    }
  }

  // ---------------------------------------------------------------- a losing run

  function FirstRow(md5: string): DriveFile {
    DriveFile("id", "name", "text/plain", Some(md5), 0, None, None, None, map[], [], false)
  }

  /** The object has content `v`; a device that never synced has `c`. */
  function FirstWorld(v: string, c: string): World {
    World([Snapshot(FirstRow(v), v, 0)], map["d" := Device(Some(LocalFile(c, 0, 1)), None, 0)], {},
        map[v := None, c := None], [])
  }

  lemma FirstWorldIsInitial(v: string, c: string)
    requires PlainContent(v) && PlainContent(c)
    ensures Init(Setup("name", LocalWinsPolicy, Exposure(true, false, false), map[]), FirstWorld(v, c))
    ensures !Superseded(FirstWorld(v, c), v)
  {
    hide PlainContent;
    assert HasLocal(FirstWorld(v, c), "d", c);
  }

  /** Under `local_wins` the first sync of a new device loses the only copy of `v`. */
  lemma LocalWinsLosesInARun(v: string, c: string) returns (setup: Setup, run: seq<World>, steps: seq<Step>)
    requires PlainContent(v) && PlainContent(c) && v != c
    ensures setup.policy == LocalWinsPolicy && IsRun(setup, run, steps) && Lost(run[|run| - 1], v)
  {
    setup := Setup("name", LocalWinsPolicy, Exposure(true, false, false), map[]);
    var w := FirstWorld(v, c);
    FirstWorldIsInitial(v, c);
    var b := WinOver(setup, w, "d");
    assert Holders(b, v) == {};
    hide Init, PlainContent, Superseded, LeadsIn;
    NothingHoldsIt(w, b, v);
    var n: nat :| LeadsIn(setup, w, b, n);
    run, steps := RunOn(setup, [w], [], b, n);
  }
}
