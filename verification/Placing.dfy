/**
 Where the incremental view puts a change, on the strings and maps themselves: a recorded
 object stays where it is or the batch fails, a new one goes below its first known parent,
 and a taken path gets the first free number before the extension.
*/
module Placing {
  import opened Wrappers
  import opened Text
  import opened Paths
  import opened Records
  import opened Naming
  import opened RemoteView

  /** `path` is the entry `name` of the directory `dir`. */
  predicate IsEntry(path: string, dir: string, name: string) {
    Lacks(name, '/') && (path == dir + "/" + name || (dir == "" && path == name))
  }

  /** One of the parents is the folder at `dir`. */
  predicate InFolder(parents: seq<string>, dir: string, folderById: map<string, string>, root: string) {
    if dir == "" then root in parents
    else exists p :: p in parents && p in folderById && folderById[p] == dir
  }

  /** The object still has the name and the folder of `path`. */
  ghost predicate StaysAt(f: DriveFile, path: string, folderById: map<string, string>, root: string) {
    exists dir :: IsEntry(path, dir, SyncName(f)) && InFolder(f.parents, dir, folderById, root)
  }

  /** The parent `p` puts the object at `path`. */
  predicate Puts(f: DriveFile, p: string, folderById: map<string, string>, root: string, path: string) {
    && (p == root || p in folderById)
    && IsSafeNonEmpty(path)
    && path == Normalize(
         if p == root || folderById[p] == "" then SyncName(f) else folderById[p] + "/" + SyncName(f))
  }

  lemma EntryIsUnique(path: string, dir: string, name: string)
    requires IsEntry(path, dir, name)
    ensures FileName(path) == name && ParentPath(path) == dir
  {
    if path == dir + "/" + name {
      assert path == dir + ['/'] + name;
      RSplitOnceOf(dir, '/', name);
    }
  }

  lemma PathIsEntry(path: string)
    ensures IsEntry(path, ParentPath(path), FileName(path))
  {
  }

  /** A change of a recorded object is applied at its path exactly when it has its name and folder. */
  lemma RecordedStaysOrFails(v: View, c: DriveChange, root: string)
    requires c.fileId in v.idToPath && c.file.Some?
    ensures var path := v.idToPath[c.fileId];
            && (Resolve(v, c, root) == Ok(Apply(path)) <==> StaysAt(c.file.value, path, v.folderById, root))
            && (Resolve(v, c, root).Err? <==> !StaysAt(c.file.value, path, v.folderById, root))
  {
    var f, path := c.file.value, v.idToPath[c.fileId];
    hide FileName, ParentPath, SyncName;
    PathIsEntry(path);
    forall dir | IsEntry(path, dir, SyncName(f)) ensures FileName(path) == SyncName(f) && ParentPath(path) == dir {
      EntryIsUnique(path, dir, SyncName(f));
    }
    if FileName(path) == SyncName(f) && SameParent(f, path, v.folderById, root) {
      assert IsEntry(path, ParentPath(path), SyncName(f));
    }
  }

  /** Without metadata a recorded object is found at its path. */
  lemma RecordedWithoutFile(v: View, c: DriveChange, root: string)
    requires c.fileId in v.idToPath && c.file.None?
    ensures Resolve(v, c, root) == Ok(Apply(v.idToPath[c.fileId]))
  {
  }

  lemma {:induction false} FirstParentPuts(
    f: DriveFile, parents: seq<string>, folderById: map<string, string>, root: string)
    ensures var r := PathUnderKnownParent(f, parents, folderById, root);
            match r
            case None => forall p, path :: p in parents ==> !Puts(f, p, folderById, root, path)
            case Some(path) =>
              exists i :: 0 <= i < |parents| && Puts(f, parents[i], folderById, root, path)
                && forall j, other :: 0 <= j < i ==> !Puts(f, parents[j], folderById, root, other)
  {
    hide IsSafeNonEmpty, SyncName, Normalize;
    if parents != [] {
      var rest := parents[1..];
      FirstParentPuts(f, rest, folderById, root);
      var r := PathUnderKnownParent(f, parents, folderById, root);
      if r.Some? && !Puts(f, parents[0], folderById, root, r.value) {
        var i :| 0 <= i < |rest| && Puts(f, rest[i], folderById, root, r.value)
          && forall j, other :: 0 <= j < i ==> !Puts(f, rest[j], folderById, root, other);
        assert parents[i + 1] == rest[i];
        assert forall j :: 0 < j < i + 1 ==> parents[j] == rest[j - 1];
      }
    }
  }

  /** An object without a record is ignored, put below its first usable parent, or tried later. */
  lemma UnrecordedMeaning(v: View, c: DriveChange, root: string)
    requires c.fileId !in v.idToPath
    ensures Resolve(v, c, root).Ok?
    ensures Resolve(v, c, root) == Ok(Ignore) <==> c.removed
    ensures Resolve(v, c, root) == Ok(Later) <==>
              !c.removed
              && (c.file.None?
                  || forall p, path :: p in c.file.value.parents ==> !Puts(c.file.value, p, v.folderById, root, path))
    ensures forall path :: Resolve(v, c, root) == Ok(Apply(path)) <==>
              !c.removed && c.file.Some?
              && var (f, parents) := (c.file.value, c.file.value.parents);
                 exists i :: 0 <= i < |parents| && Puts(f, parents[i], v.folderById, root, path)
                   && forall j, other :: 0 <= j < i ==> !Puts(f, parents[j], v.folderById, root, other)
  {
    if !c.removed && c.file.Some? {
      var f := c.file.value;
      FirstParentPuts(f, f.parents, v.folderById, root);
      hide Puts, PathUnderKnownParent;
      forall path, i | 0 <= i < |f.parents| && Puts(f, f.parents[i], v.folderById, root, path)
        && forall j, other :: 0 <= j < i ==> !Puts(f, f.parents[j], v.folderById, root, other)
        ensures PathUnderKnownParent(f, f.parents, v.folderById, root) == Some(path)
      {
        FirstIsUnique(f, v.folderById, root, i, path);
      }
    }
  }

  lemma FirstIsUnique(f: DriveFile, folderById: map<string, string>, root: string, i: int, path: string)
    requires 0 <= i < |f.parents| && Puts(f, f.parents[i], folderById, root, path)
    requires forall j, other :: 0 <= j < i ==> !Puts(f, f.parents[j], folderById, root, other)
    ensures PathUnderKnownParent(f, f.parents, folderById, root) == Some(path)
  {
    FirstParentPuts(f, f.parents, folderById, root);
    hide PathUnderKnownParent, IsSafeNonEmpty, SyncName, Normalize;
    var r := PathUnderKnownParent(f, f.parents, folderById, root);
    assert f.parents[i] in f.parents;
    var k :| 0 <= k < |f.parents| && Puts(f, f.parents[k], folderById, root, r.value)
      && forall j, other :: 0 <= j < k ==> !Puts(f, f.parents[j], folderById, root, other);
    assert k == i;
  }

  // ------------------------------------------------------------------- taken paths

  /** `dir` with its separator, the name up to the extension, and the extension with its dot. */
  predicate IsSplit(path: string, dir: string, stem: string, ext: string) {
    && path == dir + stem + ext && IsNameSplit(stem + ext, stem, ext)
    && Lacks(stem + ext, '/') && (dir == "" || dir[|dir| - 1] == '/')
  }

  function Numbered(dir: string, stem: string, ext: string, n: nat): string {
    dir + stem + " (" + NatToString(n) + ")" + ext
  }

  /** `r` is the path with the first free number. */
  ghost predicate IsNumbered(remote: map<RelativePath, DriveFile>, path: RelativePath, r: RelativePath) {
    exists dir, stem, ext, n: nat ::
      && IsSplit(path, dir, stem, ext) && n >= 2 && r == Numbered(dir, stem, ext, n) && r !in remote
      && forall k: nat :: 2 <= k < n ==> Numbered(dir, stem, ext, k) in remote
  }

  /** A free path is kept; a taken one gets the first free number, in its directory and before the extension. */
  lemma PlaceMeaning(remote: map<RelativePath, DriveFile>, path: RelativePath, id: string)
    ensures var r := Place(remote, path, id);
            if path !in remote || remote[path].id == id then r == path else IsNumbered(remote, path, r)
  {
    hide NatToString, SplitDir, SplitFileName;
    if path in remote && remote[path].id != id {
      var (dir, name) := SplitDir(path);
      var (stem, ext) := SplitFileName(name);
      SplitFileNameMeaning(name);
      var n := FirstFree(dir + stem, ext, 2, remote.Keys);
      NumberedCandidates(dir, stem, ext);
      TakenIsNumbered(remote, path, id, dir, stem, ext, n);
    }
  }

  lemma NumberedCandidates(dir: string, stem: string, ext: string)
    ensures forall k: nat :: Candidate(dir + stem, ext, k) == Numbered(dir, stem, ext, k)
  {
    hide NatToString;
  }

  lemma TakenIsNumbered(
    remote: map<RelativePath, DriveFile>, path: RelativePath, id: string, dir: string, stem: string, ext: string,
    n: nat)
    requires path in remote && remote[path].id != id && SplitDir(path) == (dir, stem + ext)
    requires SplitFileName(stem + ext) == (stem, ext) && IsSplit(path, dir, stem, ext)
    requires n == FirstFree(dir + stem, ext, 2, remote.Keys)
    requires forall k: nat :: Candidate(dir + stem, ext, k) == Numbered(dir, stem, ext, k)
    ensures IsNumbered(remote, path, Place(remote, path, id))
  {
    hide Candidate, Numbered, IsSplit, SplitDir, SplitFileName;
    assert Place(remote, path, id) == Candidate(dir + stem, ext, n);
    forall k: nat | 2 <= k < n ensures Numbered(dir, stem, ext, k) in remote {
      assert Candidate(dir + stem, ext, k) in remote.Keys;
    }
  }

  // ------------------------------------------------------- renames and moves in a batch

  /** Entries that no change is about are the same after any number of changes. */
  lemma {:induction false} PassKeepsEntries(v: View, changes: seq<DriveChange>, root: string, id: string)
    requires Consistent(changes) && Pass(v, changes, root).Ok?
    requires forall c :: c in changes ==> c.fileId != id
    ensures var v' := Pass(v, changes, root).value.view;
            && (id in v'.idToPath <==> id in v.idToPath)
            && (id in v.idToPath ==> v'.idToPath[id] == v.idToPath[id])
            && (id in v'.folderById <==> id in v.folderById)
            && (id in v.folderById ==> v'.folderById[id] == v.folderById[id])
  {
    hide Resolve, Place;
    if changes != [] {
      var init, last := changes[..|changes| - 1], changes[|changes| - 1];
      assert last in changes;
      PassKeepsEntries(v, init, root, id);
    }
  }

  /**
   A batch that renames a recorded object, and says nothing else about it, cannot be
   applied, in whatever order its changes come: the engine then lists the whole tree.
  */
  lemma RenameFailsBatch(v: View, changes: seq<DriveChange>, i: nat, root: string)
    requires Consistent(changes) && i < |changes| && changes[i].fileId in v.idToPath && changes[i].file.Some?
    requires forall j :: 0 <= j < |changes| && j != i ==> changes[j].fileId != changes[i].fileId
    requires var path := v.idToPath[changes[i].fileId];
             forall dir :: !IsEntry(path, dir, SyncName(changes[i].file.value))
    ensures Retry(v, changes, root).Err?
  {
    var c, before := changes[i], changes[..i];
    hide Resolve, IsEntry, Retry, InFolder, SyncName;
    if Pass(v, before, root).Ok? {
      PassKeepsEntries(v, before, root, c.fileId);
      RecordedStaysOrFails(Pass(v, before, root).value.view, c, root);
    }
    FailureFailsBatch(v, changes, i, root);
  }

  /** The same for a move: the folders that the object is now in are not changed by the batch. */
  lemma MoveFailsBatch(v: View, changes: seq<DriveChange>, i: nat, root: string)
    requires Consistent(changes) && i < |changes| && changes[i].fileId in v.idToPath && changes[i].file.Some?
    requires forall j :: 0 <= j < |changes| && j != i ==>
               changes[j].fileId != changes[i].fileId && changes[j].fileId !in changes[i].file.value.parents
    requires !StaysAt(changes[i].file.value, v.idToPath[changes[i].fileId], v.folderById, root)
    ensures Retry(v, changes, root).Err?
  {
    var c, before := changes[i], changes[..i];
    var f, path := c.file.value, v.idToPath[c.fileId];
    hide Resolve, StaysAt, Retry, SyncName;
    if Pass(v, before, root).Ok? {
      var v' := Pass(v, before, root).value.view;
      PassKeepsEntries(v, before, root, c.fileId);
      forall p | p in f.parents ensures SameFolder(v, v', p) { PassKeepsEntries(v, before, root, p); }
      StaysAtFollows(f, path, v, v', root);
      RecordedStaysOrFails(v', c, root);
    }
    FailureFailsBatch(v, changes, i, root);
  }

  predicate SameFolder(a: View, b: View, p: string) {
    (p in a.folderById <==> p in b.folderById) && (p in a.folderById ==> b.folderById[p] == a.folderById[p])
  }

  lemma StaysAtFollows(f: DriveFile, path: string, a: View, b: View, root: string)
    requires forall p :: p in f.parents ==> SameFolder(a, b, p)
    ensures StaysAt(f, path, b.folderById, root) ==> StaysAt(f, path, a.folderById, root)
  {
    hide IsEntry, SyncName;
    if dir :| IsEntry(path, dir, SyncName(f)) && InFolder(f.parents, dir, b.folderById, root) {
      assert InFolder(f.parents, dir, a.folderById, root);
    }
  }

  lemma FailureFailsBatch(v: View, changes: seq<DriveChange>, i: nat, root: string)
    requires i < |changes|
    requires Pass(v, changes[..i], root).Ok? ==> Resolve(Pass(v, changes[..i], root).value.view, changes[i], root).Err?
    ensures Retry(v, changes, root).Err?
  {
    hide Resolve;
    assert changes[..i + 1][..i] == changes[..i];
    PassFails(v, changes, i + 1, root);
  }

  /**
   A folder has no record, so its rename is not caught: the folder moves and the rows below
   its old path stay.
  */
  lemma RenamedFolderIsNotCaught(v: View, c: DriveChange, root: string, path: RelativePath, p: RelativePath)
    requires c.fileId !in v.idToPath && c.file.Some? && !Gone(c) && c.file.value.id == c.fileId
    requires c.file.value.mimeType == FOLDER && Resolve(v, c, root) == Ok(Apply(path))
    requires p in v.remote && p != Place(v.remote, path, c.fileId)
    ensures Applied(v, c, path).Ok?
    ensures var v' := Applied(v, c, path).value;
            && c.fileId in v'.folderById && v'.folderById[c.fileId] == Place(v.remote, path, c.fileId)
            && p in v'.remote && v'.remote[p] == v.remote[p]
  {
    hide Resolve, Place;
  }
}
