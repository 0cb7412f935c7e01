/**
 What becomes of a conflict copy. Its record has the local facts of the copy and the
 remote facts of the original, so it is never a file of its own for the other devices.
*/
module Copies {
  import opened Wrappers
  import opened Paths
  import opened Records
  import opened Decision
  import opened RemoteView
  import opened Tombstones

  /** The record of a conflict copy: local facts of the copy, remote facts of the original. */
  function CopyRecord(copy: LocalFile, original: DriveFile, now: Instant): SyncRecord {
    RecordFrom(copy, original, now)
  }

  /**
   The documentation says that a conflict copy propagates to the other devices. It does
   not: a full listing has nothing at its path, and an untouched copy is not uploaded. It
   is kept while the original exists and deleted locally once that is gone.
  */
  lemma UntouchedCopyIsNotUploaded(
    path: RelativePath, copy: LocalFile, seen: LocalFile, original: DriveFile, now: Instant,
    policy: ConflictPolicy, stamp: string, ids: set<string>)
    requires seen.md5 == copy.md5
    ensures DetermineAction(path, Some(seen), None, Some(CopyRecord(copy, original, now)), policy, stamp, ids)
            == if original.id in ids then Skip(path) else DeleteLocal(path)
  {
    hide RemoteContentFingerprint;
  }

  /** An edited copy is uploaded over the original, or as a new file once that is gone. */
  lemma EditedCopyGoesToTheOriginal(
    path: RelativePath, copy: LocalFile, edited: LocalFile, original: DriveFile, now: Instant,
    policy: ConflictPolicy, stamp: string, ids: set<string>)
    requires edited.md5 != copy.md5
    ensures DetermineAction(path, Some(edited), None, Some(CopyRecord(copy, original, now)), policy, stamp, ids)
            == Upload(path, if original.id in ids then Some(original.id) else None)
  {
    hide RemoteContentFingerprint;
  }

  /**
   In an incremental view the record of the copy yields a row with the original's id, so
   removing the copy plans a delete of the original; after a full listing it does not.
  */
  lemma RemovingACopyTargetsTheOriginal(
    path: RelativePath, copy: LocalFile, original: DriveFile, now: Instant, root: string,
    policy: ConflictPolicy, stamp: string, ids: set<string>)
    requires PlainChecksum(original)
    ensures var record := CopyRecord(copy, original, now);
            && DetermineAction(path, None, Stub(path, record, root), Some(record), policy, stamp, ids)
                == DeleteRemote(path, original.id)
            && DetermineAction(path, None, None, Some(record), policy, stamp, ids) == CleanupMetadata(path)
  {
    StubStandsForTheObject(path, copy, original, now, root);
    hide RemoteContentFingerprint, Stub;
  }

  /** The delete that the removed copy plans while its record is there. */
  predicate PlansDelete(
    path: RelativePath, copy: LocalFile, original: DriveFile, now: Instant, root: string,
    policy: ConflictPolicy, stamp: string, ids: set<string>)
  {
    var record := CopyRecord(copy, original, now);
    DetermineAction(path, None, Stub(path, record, root), Some(record), policy, stamp, ids)
        == DeleteRemote(path, original.id)
  }

  /**
   When incremental cycles carry out what they plan, a removed copy gets its original
   trashed: the delete that names the original is attempted within `required + 1` cycles.
  */
  lemma RemovedCopyReachesTheOriginal(
    path: RelativePath, copy: LocalFile, original: DriveFile, now: Instant, root: string,
    policy: ConflictPolicy, stamps: seq<string>, ids: set<string>,
    cycles: seq<Cycle>, start: nat, device: string, required: nat)
    requires PlainChecksum(original) && 1 <= required <= U32_MAX
    requires start + required < |cycles| == |stamps| && forall i :: 0 <= i < |cycles| ==> cycles[i].Valid()
    requires forall i :: start <= i <= start + required ==>
               (PlansDelete(path, copy, original, now, root, policy, stamps[i], ids) ==> path in cycles[i].observed)
    ensures exists i :: start <= i <= start + required && Attempted(cycles, i, path, device, required)
  {
    hide Attempted;
    forall i | start <= i <= start + required ensures path in cycles[i].observed {
      RemovingACopyTargetsTheOriginal(path, copy, original, now, root, policy, stamps[i], ids);
      assert PlansDelete(path, copy, original, now, root, policy, stamps[i], ids);
    }
    PersistentDeleteIsAttempted(cycles, start, path, device, required);
  }
}
