/**
 Applying the difference between two Drive trees to the view of the records gives what a
 full listing of the new tree gives, in whatever order the changes arrive and however
 deep new folders are nested. Changes that cannot be applied (renames, moves) are errors,
 and the engine then falls back to the full listing.
*/
module ViewAgreement {
  import opened Wrappers
  import opened Text
  import opened Paths
  import opened Records
  import opened RemoteView

  datatype Node = Node(path: RelativePath, file: DriveFile) {
    predicate IsFolder() {
      file.mimeType == FOLDER
    }
  }

  /** The objects of a tree by id. */
  type Catalog = map<string, Node>

  /** The object sits under its one parent, under its own name. */
  ghost predicate WellPlaced(c: Catalog, root: string, id: string)
    requires id in c
  {
    var (path, f) := (c[id].path, c[id].file);
    && f.id == id && !f.trashed && IsSafeNonEmpty(path) && Normal(path) && Lacks(SyncName(f), '/')
    && |f.parents| == 1
    && var p := f.parents[0];
       if p == root then path == SyncName(f)
       else p in c && c[p].IsFolder() && c[p].path != "" && path == c[p].path + "/" + SyncName(f)
  }

  ghost predicate Sound(c: Catalog, root: string) {
    && root !in c
    && (forall id :: id in c ==> WellPlaced(c, root, id))
    && (forall a, b :: a in c && b in c && c[a].path == c[b].path ==> a == b)
  }

  /** Nothing is renamed or moved, and no new object takes the path of an old one. */
  ghost predicate Aligned(o: Catalog, n: Catalog) {
    && (forall id :: id in o && id in n ==> o[id].path == n[id].path && o[id].IsFolder() == n[id].IsFolder())
    && (forall a, b :: a in o && b in n && o[a].path == n[b].path ==> a == b)
  }

  /** A change tells the new state of its object; strangers live outside the tree. */
  predicate Truthful(o: Catalog, n: Catalog, root: string, c: DriveChange) {
    && (c.file.Some? ==> c.file.value.id == c.fileId)
    && if c.fileId in n then !c.removed && c.file == Some(n[c.fileId].file)
       else if c.fileId in o then
         c.removed
         || (c.file.Some? && c.file.value.trashed && c.file.value.parents == o[c.fileId].file.parents
             && SyncName(c.file.value) == SyncName(o[c.fileId].file))
       else
         c.removed || c.file.None? || forall p :: p in c.file.value.parents ==> p != root && p !in o && p !in n
  }

  predicate HasChange(changes: seq<DriveChange>, id: string) {
    exists i :: 0 <= i < |changes| && changes[i].fileId == id
  }

  /** The batch is the difference between the two trees. */
  ghost predicate Difference(o: Catalog, n: Catalog, root: string, changes: seq<DriveChange>) {
    && Sound(o, root) && Sound(n, root) && Aligned(o, n)
    && (forall i :: 0 <= i < |changes| ==> Truthful(o, n, root, changes[i]))
    && (forall id :: id in n && (id !in o || o[id].file != n[id].file) ==> HasChange(changes, id))
    && (forall id :: id in o && id !in n ==> HasChange(changes, id))
  }

  // ------------------------------------------------------------- the state of the view

  predicate Known(o: Catalog, n: Catalog, id: string) {
    id in o || id in n
  }

  function NodeOf(o: Catalog, n: Catalog, id: string): Node
    requires Known(o, n, id)
  {
    if id in n then n[id] else o[id]
  }

  /** `done`: the objects whose change has been dealt with. */
  ghost predicate IdOk(o: Catalog, n: Catalog, v: View, done: set<string>, id: string) {
    && (id in v.idToPath ==> Known(o, n, id) && v.idToPath[id] == NodeOf(o, n, id).path)
    && (id in v.folderById ==>
          Known(o, n, id) && NodeOf(o, n, id).IsFolder() && v.folderById[id] == NodeOf(o, n, id).path)
    && (id in n && (id in o || id in done) ==> if n[id].IsFolder() then id in v.folderById else id in v.idToPath)
    && (id in o && id !in n && id in done ==> id !in v.idToPath)
  }

  /** The row of an object is its new one, or stands for the old one. */
  ghost predicate RowOk(o: Catalog, n: Catalog, done: set<string>, row: DriveFile) {
    && Known(o, n, row.id)
    && ((row.mimeType == FOLDER) <==> NodeOf(o, n, row.id).IsFolder())
    && if row.id in n && row.id in done then row == n[row.id].file
       else row.id in o && RemoteContentFingerprint(row) == RemoteContentFingerprint(o[row.id].file)
  }

  ghost predicate Agrees(o: Catalog, n: Catalog, v: View, done: set<string>) {
    && Inverse(v)
    && (forall id :: IdOk(o, n, v, done, id))
    && (forall p :: p in v.remote ==> RowOk(o, n, done, v.remote[p]))
  }

  /** Different objects never share a path. */
  lemma PathsApart(o: Catalog, n: Catalog, root: string, a: string, b: string)
    requires Sound(o, root) && Sound(n, root) && Aligned(o, n) && Known(o, n, a) && Known(o, n, b)
    requires NodeOf(o, n, a).path == NodeOf(o, n, b).path
    ensures a == b
  {
    hide WellPlaced;
  }

  /** The entry at an object's path, if there is one, is the object's. */
  lemma EntryIsOwn(o: Catalog, n: Catalog, root: string, v: View, done: set<string>, id: string)
    requires Sound(o, root) && Sound(n, root) && Aligned(o, n) && Agrees(o, n, v, done) && Known(o, n, id)
    requires NodeOf(o, n, id).path in v.remote
    ensures v.remote[NodeOf(o, n, id).path].id == id && id in v.idToPath
  {
    hide Sound, Aligned, RowOk;
    var p := NodeOf(o, n, id).path;
    var other := v.remote[p].id;
    assert IdOk(o, n, v, done, other);
    PathsApart(o, n, root, other, id);
  }

  /** Under a known parent an object of either tree gets the path it has there. */
  lemma KnownParentGivesPath(o: Catalog, n: Catalog, root: string, v: View, done: set<string>, t: Catalog,
      id: string, f: DriveFile)
    requires Sound(o, root) && Sound(n, root) && Aligned(o, n) && Agrees(o, n, v, done)
    requires (t == o || t == n) && id in t && f.parents == t[id].file.parents && SyncName(f) == SyncName(t[id].file)
    ensures var r := PathUnderKnownParent(f, f.parents, v.folderById, root);
            && (r.Some? ==> r.value == t[id].path)
            && (r.Some? <==> f.parents[0] == root || f.parents[0] in v.folderById)
  {
    hide Inverse, RowOk, IsSafeNonEmpty, SyncName, PathUnderKnownParent, Normalize;
    assert WellPlaced(t, root, id);
    var p := f.parents[0];
    assert f.parents == [p];
    PathUnderOneParent(f, p, v.folderById, root);
    assert IdOk(o, n, v, done, p);
    assert p in t ==> NodeOf(o, n, p).path == t[p].path;
    NormalizeNormal(t[id].path);
  }

  lemma PathUnderOneParent(f: DriveFile, p: string, folderById: map<string, string>, root: string)
    ensures PathUnderKnownParent(f, [p], folderById, root)
            == if p != root && p !in folderById then None
               else
                 var relative := Normalize(if p == root || folderById[p] == "" then SyncName(f)
                     else folderById[p] + "/" + SyncName(f));
                 if IsSafeNonEmpty(relative) then Some(relative) else None
  {
    hide Normalize, IsSafeNonEmpty, SyncName;
    assert [p][1..] == [];
  }

  ghost predicate Setting(o: Catalog, n: Catalog, root: string) {
    Sound(o, root) && Sound(n, root) && Aligned(o, n)
  }

  // --------------------------------------------------------------- one change applied

  /** Where a truthful change is applied, if it is. */
  lemma AppliedAtOwnPath(o: Catalog, n: Catalog, root: string, v: View, done: set<string>, c: DriveChange,
      path: RelativePath)
    requires Setting(o, n, root) && Agrees(o, n, v, done) && Truthful(o, n, root, c)
    requires Resolve(v, c, root) == Ok(Apply(path))
    ensures Known(o, n, c.fileId) && path == NodeOf(o, n, c.fileId).path
  {
    hide Inverse, RowOk, SameParent, Sound, Aligned;
    var id := c.fileId;
    assert IdOk(o, n, v, done, id);
    if id !in v.idToPath {
      var f := c.file.value;
      if id in n {
        KnownParentGivesPath(o, n, root, v, done, n, id, f);
      } else if id in o {
        KnownParentGivesPath(o, n, root, v, done, o, id, f);
      } else {
        StrangersHaveNoPath(o, n, root, v, done, f, f.parents);
      }
    }
  }

  lemma {:induction false} StrangersHaveNoPath(
    o: Catalog, n: Catalog, root: string, v: View, done: set<string>, f: DriveFile, parents: seq<string>)
    requires Agrees(o, n, v, done) && forall p :: p in parents ==> p != root && p !in o && p !in n
    ensures PathUnderKnownParent(f, parents, v.folderById, root).None?
  {
    hide Inverse, RowOk, IsSafeNonEmpty;
    if parents != [] {
      assert IdOk(o, n, v, done, parents[0]);
      assert forall p :: p in parents[1..] ==> p in parents;
      StrangersHaveNoPath(o, n, root, v, done, f, parents[1..]);
    }
  }

  lemma PlacedAgrees(o: Catalog, n: Catalog, root: string, v: View, done: set<string>, id: string)
    requires Setting(o, n, root) && Agrees(o, n, v, done) && id in n
    ensures Place(v.remote, n[id].path, id) == n[id].path
    ensures Agrees(o, n, With(v, n[id].path, n[id].file), done + {id})
  {
    var path, f := n[id].path, n[id].file;
    assert f.id == id by { NotTrashed(o, n, root, id); }
    assert IdOk(o, n, v, done, id);
    PlacedInverse(o, n, root, v, done, id);
    var v' := With(v, path, f);
    hide Setting, IdOk, RowOk, Inverse, With, Place;
    forall x ensures IdOk(o, n, v', done + {id}, x) {
      PlacedIdOk(o, n, v, done, id, x);
    }
    forall p | p in v'.remote ensures RowOk(o, n, done + {id}, v'.remote[p]) {
      PlacedRowOk(o, n, v, done, id, p);
    }
  }

  lemma KnownPath(o: Catalog, n: Catalog, v: View, done: set<string>, id: string)
    requires IdOk(o, n, v, done, id) && id in v.idToPath
    ensures Known(o, n, id) && v.idToPath[id] == NodeOf(o, n, id).path
  {
  }

  lemma PlacedInverse(o: Catalog, n: Catalog, root: string, v: View, done: set<string>, id: string)
    requires Setting(o, n, root) && Agrees(o, n, v, done) && id in n && n[id].file.id == id
    ensures Inverse(With(v, n[id].path, n[id].file)) && Place(v.remote, n[id].path, id) == n[id].path
  {
    if n[id].path in v.remote { EntryIsOwn(o, n, root, v, done, id); }
    assert IdOk(o, n, v, done, id);
    if id in v.idToPath { KnownPath(o, n, v, done, id); }
    hide Setting, IdOk, RowOk, Inverse, With;
    PlacementKeeps(v, n[id].file, n[id].path);
  }

  lemma PlacedIdOk(o: Catalog, n: Catalog, v: View, done: set<string>, id: string, x: string)
    requires IdOk(o, n, v, done, x) && id in n && n[id].file.id == id
    ensures IdOk(o, n, With(v, n[id].path, n[id].file), done + {id}, x)
  {
  }

  lemma PlacedRowOk(o: Catalog, n: Catalog, v: View, done: set<string>, id: string, p: RelativePath)
    requires Inverse(v) && IdOk(o, n, v, done, id) && id in n && n[id].file.id == id
    requires p in v.remote ==> RowOk(o, n, done, v.remote[p])
    requires p in With(v, n[id].path, n[id].file).remote
    ensures RowOk(o, n, done + {id}, With(v, n[id].path, n[id].file).remote[p])
  {
    hide RemoteContentFingerprint;
    if p != n[id].path { assert v.remote[p].id in v.idToPath && v.idToPath[v.remote[p].id] == p; }
  }

  lemma RemovedAgrees(o: Catalog, n: Catalog, root: string, v: View, done: set<string>, c: DriveChange)
    requires Setting(o, n, root) && Agrees(o, n, v, done) && c.fileId in o && c.fileId !in n && Gone(c)
    ensures Agrees(o, n, Without(v, o[c.fileId].path, c.fileId), done + {c.fileId})
  {
    var id := c.fileId;
    var v' := Without(v, o[id].path, id);
    RemovedInverse(o, n, root, v, done, c);
    hide Setting, IdOk, RowOk, Inverse, Without;
    forall x ensures IdOk(o, n, v', done + {id}, x) {
      RemovedIdOk(o, n, v, done, id, x);
    }
    forall p | p in v'.remote ensures RowOk(o, n, done + {id}, v'.remote[p]) {
      RemovedRowOk(o, n, v, done, id, p);
    }
  }

  lemma RemovedInverse(o: Catalog, n: Catalog, root: string, v: View, done: set<string>, c: DriveChange)
    requires Setting(o, n, root) && Agrees(o, n, v, done) && c.fileId in o && c.fileId !in n && Gone(c)
    ensures Inverse(Without(v, o[c.fileId].path, c.fileId))
  {
    var id, path := c.fileId, o[c.fileId].path;
    if path in v.remote { EntryIsOwn(o, n, root, v, done, id); }
    if id in v.idToPath { KnownPath(o, n, v, done, id); }
    hide Setting, IdOk, RowOk;
    RemovalKeeps(v, c, path, Without(v, path, id), root);
  }

  lemma RemovedIdOk(o: Catalog, n: Catalog, v: View, done: set<string>, id: string, x: string)
    requires IdOk(o, n, v, done, x) && id in o && id !in n
    ensures IdOk(o, n, Without(v, o[id].path, id), done + {id}, x)
  {
  }

  lemma RemovedRowOk(o: Catalog, n: Catalog, v: View, done: set<string>, id: string, p: RelativePath)
    requires id in o && id !in n && p in Without(v, o[id].path, id).remote && RowOk(o, n, done, v.remote[p])
    ensures RowOk(o, n, done + {id}, Without(v, o[id].path, id).remote[p])
  {
    hide RemoteContentFingerprint;
  }

  lemma IgnoredAgrees(o: Catalog, n: Catalog, v: View, done: set<string>, id: string)
    requires Agrees(o, n, v, done) && id !in n && id !in v.idToPath
    ensures Agrees(o, n, v, done + {id})
  {
    hide Inverse;
    forall x ensures IdOk(o, n, v, done + {id}, x) {
      assert IdOk(o, n, v, done, x);
    }
    forall p | p in v.remote ensures RowOk(o, n, done + {id}, v.remote[p]) {
      assert RowOk(o, n, done, v.remote[p]);
    }
  }

  /**
   One change keeps the agreement, and unless it is deferred its object is dealt with. Only
   changes that cannot be placed yet are deferred; for a new object that means that its
   parent folder is not known (`UnplacedHasUnknownParent`).
  */
  lemma StepAgrees(o: Catalog, n: Catalog, root: string, s: PassResult, done: set<string>, c: DriveChange)
    requires Setting(o, n, root) && Agrees(o, n, s.view, done) && Truthful(o, n, root, c)
    requires Step(s, c, root).Ok?
    ensures var s' := Step(s, c, root).value;
            && Agrees(o, n, s'.view, if s'.deferred == s.deferred then done + {c.fileId} else done)
            && (s'.deferred == s.deferred || s'.deferred == s.deferred + [c])
            && (s'.deferred != s.deferred <==> Resolve(s.view, c, root) == Ok(Later))
  {
    hide Agrees, Setting;
    match Resolve(s.view, c, root)
    case Ok(Apply(path)) =>
      AppliedAtOwnPath(o, n, root, s.view, done, c, path);
      if c.fileId in n {
        PlacedAgrees(o, n, root, s.view, done, c.fileId);
        assert !n[c.fileId].file.trashed by { NotTrashed(o, n, root, c.fileId); }
      } else {
        RemovedAgrees(o, n, root, s.view, done, c);
      }
    case Ok(Ignore) => IgnoredAgrees(o, n, s.view, done, c.fileId);
    case Ok(Later) => assert s.deferred + [c] != s.deferred;
  }

  lemma NotTrashed(o: Catalog, n: Catalog, root: string, id: string)
    requires Setting(o, n, root) && id in n
    ensures !n[id].file.trashed && n[id].file.id == id
  {
    assert WellPlaced(n, root, id);
  }

  // ----------------------------------------------------------------- passes and retries

  /** Every change of `pending` is dealt with or deferred. */
  ghost predicate Accounted(pending: seq<DriveChange>, done: set<string>, deferred: seq<DriveChange>) {
    && (forall c :: c in pending ==> c.fileId in done || c in deferred)
    && (forall c :: c in deferred ==> c in pending)
  }

  lemma {:induction false} PassAgrees(o: Catalog, n: Catalog, root: string, v: View, done: set<string>,
      pending: seq<DriveChange>)
    returns (done': set<string>)
    requires Setting(o, n, root) && Agrees(o, n, v, done) && Pass(v, pending, root).Ok?
    requires forall c :: c in pending ==> Truthful(o, n, root, c)
    ensures var s := Pass(v, pending, root).value;
            Agrees(o, n, s.view, done') && done <= done' && Accounted(pending, done', s.deferred)
  {
    hide Agrees, Setting, Truthful, Step;
    if pending == [] {
      done' := done;
    } else {
      var init, last := pending[..|pending| - 1], pending[|pending| - 1];
      assert forall c :: c in pending <==> c in init || c == last;
      var done0 := PassAgrees(o, n, root, v, done, init);
      var s := Pass(v, init, root).value;
      StepAgrees(o, n, root, s, done0, last);
      var s' := Step(s, last, root).value;
      done' := if s'.deferred == s.deferred then done0 + {last.fileId} else done0;
      assert s'.deferred != s.deferred ==> forall c :: c in s'.deferred <==> c in s.deferred || c == last;
    }
  }

  /** A pass that applied nothing left the view alone and deferred what it cannot place. */
  lemma {:induction false} IdlePass(v: View, pending: seq<DriveChange>, root: string)
    requires Pass(v, pending, root).Ok? && Pass(v, pending, root).value.applied == 0
    ensures var s := Pass(v, pending, root).value;
            s.view == v && forall c :: c in s.deferred ==> Resolve(v, c, root) == Ok(Later)
  {
    hide Resolve, RemoteView.Applied;
    if pending != [] { IdlePass(v, pending[..|pending| - 1], root); }
  }

  /** What is left when the retries end cannot be placed in the final view. */
  lemma {:induction false} RetryAgrees(o: Catalog, n: Catalog, root: string, v: View, done: set<string>,
      pending: seq<DriveChange>)
    returns (done': set<string>)
    requires Setting(o, n, root) && Agrees(o, n, v, done) && Retry(v, pending, root).Ok?
    requires forall c :: c in pending ==> Truthful(o, n, root, c)
    ensures var v' := Retry(v, pending, root).value;
            && Agrees(o, n, v', done') && done <= done'
            && forall c :: c in pending ==> c.fileId in done' || Resolve(v', c, root) == Ok(Later)
    decreases |pending|
  {
    hide Agrees, Setting, Truthful, Resolve;
    done' := PassAgrees(o, n, root, v, done, pending);
    var s := Pass(v, pending, root).value;
    if s.applied == 0 {
      IdlePass(v, pending, root);
    } else if s.deferred != [] {
      done' := RetryAgrees(o, n, root, s.view, done', s.deferred);
    }
  }

  // ----------------------------------------------------------------------- the end

  lemma LaterIsUnknown(v: View, c: DriveChange, root: string)
    requires Resolve(v, c, root) == Ok(Later)
    ensures c.fileId !in v.idToPath
    ensures c.file.Some? ==> PathUnderKnownParent(c.file.value, c.file.value.parents, v.folderById, root).None?
  {
    hide PathUnderKnownParent, SameParent;
  }

  /** A new object that cannot be placed has a new parent folder that is not known yet. */
  lemma UnplacedHasUnknownParent(o: Catalog, n: Catalog, root: string, v: View, done: set<string>, c: DriveChange)
    requires Setting(o, n, root) && Agrees(o, n, v, done) && c.fileId in n && Truthful(o, n, root, c)
    requires Resolve(v, c, root) == Ok(Later)
    ensures |n[c.fileId].file.parents| == 1
    ensures var p := n[c.fileId].file.parents[0];
            p in n && n[p].IsFolder() && p !in v.folderById && |n[p].path| < |n[c.fileId].path|
  {
    LaterIsUnknown(v, c, root);
    hide Agrees, Resolve, SyncName;
    assert WellPlaced(n, root, c.fileId);
    KnownParentGivesPath(o, n, root, v, done, n, c.fileId, c.file.value);
  }

  lemma KnownFolder(o: Catalog, n: Catalog, v: View, done: set<string>, p: string)
    requires Agrees(o, n, v, done) && p in n && n[p].IsFolder() && (p in o || p in done)
    ensures p in v.folderById
  {
    hide Inverse, RowOk;
    assert IdOk(o, n, v, done, p);
  }

  /** Every object of the new tree is dealt with: parents have shorter paths. */
  lemma {:induction false} NothingIsLeftBehind(
    o: Catalog, n: Catalog, root: string, v: View, done: set<string>, changes: seq<DriveChange>, id: string)
    requires Difference(o, n, root, changes) && Agrees(o, n, v, done) && id in n
    requires forall c :: c in changes ==> c.fileId in done || Resolve(v, c, root) == Ok(Later)
    ensures id in o || id in done
    decreases |n[id].path|
  {
    hide Agrees, Sound, Aligned, Truthful, Resolve;
    if id !in o && id !in done {
      assert HasChange(changes, id);
      var i :| 0 <= i < |changes| && changes[i].fileId == id;
      assert changes[i] in changes && Truthful(o, n, root, changes[i]);
      UnplacedHasUnknownParent(o, n, root, v, done, changes[i]);
      var p := n[id].file.parents[0];
      NothingIsLeftBehind(o, n, root, v, done, changes, p);
      KnownFolder(o, n, v, done, p);
    }
  }

  /** A listed object with a change was dealt with. */
  lemma ChangedIsDealtWith(v: View, done: set<string>, changes: seq<DriveChange>, root: string, id: string)
    requires HasChange(changes, id) && id in v.idToPath
    requires forall c :: c in changes ==> c.fileId in done || Resolve(v, c, root) == Ok(Later)
    ensures id in done
  {
    var i :| 0 <= i < |changes| && changes[i].fileId == id;
    assert changes[i] in changes;
    if id !in done { LaterIsUnknown(v, changes[i], root); }
  }

  /** The view of a session that is in step with the old tree. */
  ghost predicate InStep(o: Catalog, v: View) {
    && Inverse(v)
    && (forall id :: id in v.idToPath <==> id in o && !o[id].IsFolder())
    && (forall id :: id in v.idToPath ==> v.idToPath[id] == o[id].path)
    && (forall id :: id in v.folderById <==> id in o && o[id].IsFolder())
    && (forall id :: id in v.folderById ==> v.folderById[id] == o[id].path)
    && (forall p :: p in v.remote ==>
          && v.remote[p].id in o && v.remote[p].mimeType != FOLDER
          && RemoteContentFingerprint(v.remote[p]) == RemoteContentFingerprint(o[v.remote[p].id].file))
  }

  lemma StartAgrees(o: Catalog, n: Catalog, root: string, v: View)
    requires Setting(o, n, root) && InStep(o, v)
    ensures Agrees(o, n, v, {})
  {
    hide RemoteContentFingerprint, Sound, Node.IsFolder;
    forall id ensures IdOk(o, n, v, {}, id) { StartIdOk(o, n, v, id); }
    forall p | p in v.remote ensures RowOk(o, n, {}, v.remote[p]) { StartRowOk(o, n, v, p); }
  }

  lemma StartIdOk(o: Catalog, n: Catalog, v: View, id: string)
    requires Aligned(o, n) && InStep(o, v)
    ensures IdOk(o, n, v, {}, id)
  {
    hide RemoteContentFingerprint, Node.IsFolder, Inverse;
  }

  lemma StartRowOk(o: Catalog, n: Catalog, v: View, p: RelativePath)
    requires Aligned(o, n) && InStep(o, v) && p in v.remote
    ensures RowOk(o, n, {}, v.remote[p])
  {
    hide RemoteContentFingerprint;
    assert v.remote[p].id in v.idToPath;
  }

  /** The row of an object that the view and the new tree agree on. */
  predicate SameRow(a: DriveFile, b: DriveFile) {
    a.id == b.id && RemoteContentFingerprint(a) == RemoteContentFingerprint(b)
  }

  /**
   When the batch can be applied, the view and the new tree have the same files at the
   same paths, with the same ids and fingerprints.
  */
  lemma IncrementalAgrees(o: Catalog, n: Catalog, root: string, start: View, changes: seq<DriveChange>)
    requires Difference(o, n, root, changes) && InStep(o, start) && Retry(start, changes, root).Ok?
    ensures var v := Retry(start, changes, root).value;
            && Inverse(v)
            && (forall id :: id in n && !n[id].IsFolder() ==>
                  n[id].path in v.remote && v.remote[n[id].path].mimeType != FOLDER
                      && SameRow(v.remote[n[id].path], n[id].file))
            && (forall p :: p in v.remote && v.remote[p].mimeType != FOLDER ==>
                  v.remote[p].id in n && n[v.remote[p].id].path == p && !n[v.remote[p].id].IsFolder())
  {
    StartAgrees(o, n, root, start);
    var v := Retry(start, changes, root).value;
    var done := RetryAgrees(o, n, root, start, {}, changes);
    assert Inverse(v);
    hide Difference, Agrees, Inverse;
    forall id | id in n && !n[id].IsFolder()
      ensures n[id].path in v.remote && v.remote[n[id].path].mimeType != FOLDER
          && SameRow(v.remote[n[id].path], n[id].file)
    {
      NewFileIsThere(o, n, root, v, done, changes, id);
    }
    forall p | p in v.remote && v.remote[p].mimeType != FOLDER
      ensures v.remote[p].id in n && n[v.remote[p].id].path == p && !n[v.remote[p].id].IsFolder()
    {
      OnlyNewFiles(o, n, root, v, done, changes, p);
    }
  }

  lemma NewFileIsThere(o: Catalog, n: Catalog, root: string, v: View, done: set<string>, changes: seq<DriveChange>,
      id: string)
    requires Difference(o, n, root, changes) && Agrees(o, n, v, done) && id in n && !n[id].IsFolder()
    requires forall c :: c in changes ==> c.fileId in done || Resolve(v, c, root) == Ok(Later)
    ensures n[id].path in v.remote && v.remote[n[id].path].mimeType != FOLDER
        && SameRow(v.remote[n[id].path], n[id].file)
  {
    NothingIsLeftBehind(o, n, root, v, done, changes, id);
    hide RemoteContentFingerprint, Sound, Aligned, Truthful;
    assert IdOk(o, n, v, done, id);
    var row := v.remote[v.idToPath[id]];
    assert row.id == id && RowOk(o, n, done, row);
    if HasChange(changes, id) { ChangedIsDealtWith(v, done, changes, root, id); }
  }

  lemma OnlyNewFiles(o: Catalog, n: Catalog, root: string, v: View, done: set<string>, changes: seq<DriveChange>,
      p: RelativePath)
    requires Difference(o, n, root, changes) && Agrees(o, n, v, done) && p in v.remote && v.remote[p].mimeType != FOLDER
    requires forall c :: c in changes ==> c.fileId in done || Resolve(v, c, root) == Ok(Later)
    ensures var id := v.remote[p].id; id in n && n[id].path == p && !n[id].IsFolder()
  {
    hide RemoteContentFingerprint, Sound, Aligned, Truthful;
    var id := v.remote[p].id;
    assert IdOk(o, n, v, done, id) && RowOk(o, n, done, v.remote[p]);
    if HasChange(changes, id) { ChangedIsDealtWith(v, done, changes, root, id); }
  }

  // --------------------------------------------------------- when no fallback is needed

  /** Objects that left the tree are reported without metadata. */
  predicate PlainRemovals(n: Catalog, changes: seq<DriveChange>) {
    forall c :: c in changes && c.fileId !in n ==> c.removed && c.file.None?
  }

  /** The parent of every listed new object is known. */
  ghost predicate ParentsKnown(n: Catalog, root: string, v: View) {
    forall id :: id in v.idToPath && id in n && |n[id].file.parents| == 1 ==>
      n[id].file.parents[0] == root || n[id].file.parents[0] in v.folderById
  }

  /** The parts of an object's path. */
  lemma PathParts(c: Catalog, root: string, id: string)
    requires Sound(c, root) && id in c
    ensures |c[id].file.parents| == 1 && FileName(c[id].path) == SyncName(c[id].file)
    ensures var p := c[id].file.parents[0];
            if p == root then ParentPath(c[id].path) == ""
            else p in c && c[p].IsFolder() && ParentPath(c[id].path) == c[p].path != ""
  {
    hide SyncName, IsSafeNonEmpty, RSplitOnce, RFind;
    assert WellPlaced(c, root, id);
    var (p, f, path) := (c[id].file.parents[0], c[id].file, c[id].path);
    var name := SyncName(f);
    if p == root {
      assert RSplitOnce(path, '/').None? by { RSplitOnceNone(path); }
    } else {
      assert path == c[p].path + ['/'] + name;
      RSplitOnceOf(c[p].path, '/', name);
    }
  }

  lemma RSplitOnceNone(s: string)
    requires Lacks(s, '/')
    ensures RSplitOnce(s, '/').None?
  {
  }

  /** An object of both trees has the same parent in both. */
  lemma SharedParent(o: Catalog, n: Catalog, root: string, id: string)
    requires Setting(o, n, root) && id in o && id in n
    ensures |n[id].file.parents| == 1
    ensures var p := n[id].file.parents[0]; p == root || (p in o && o[p].IsFolder())
  {
    PathParts(o, root, id);
    PathParts(n, root, id);
    hide WellPlaced, RSplitOnce, FileName, ParentPath;
  }

  lemma StartKnowsParents(o: Catalog, n: Catalog, root: string, v: View)
    requires Setting(o, n, root) && InStep(o, v)
    ensures ParentsKnown(n, root, v)
  {
    hide Setting, Inverse, RemoteContentFingerprint;
    forall id | id in v.idToPath && id in n && |n[id].file.parents| == 1
      ensures n[id].file.parents[0] == root || n[id].file.parents[0] in v.folderById
    {
      SharedParent(o, n, root, id);
    }
  }

  /** A listed object of the new tree passes the name and parent checks. */
  lemma ChecksPass(o: Catalog, n: Catalog, root: string, v: View, done: set<string>, c: DriveChange)
    requires Setting(o, n, root) && Agrees(o, n, v, done) && ParentsKnown(n, root, v) && Truthful(o, n, root, c)
    requires c.fileId in n || (c.removed && c.file.None?)
    ensures Resolve(v, c, root).Ok?
  {
    hide RSplitOnce, PathUnderKnownParent, Inverse, RowOk, WellPlaced;
    var id := c.fileId;
    assert IdOk(o, n, v, done, id);
    if id in v.idToPath && id in n {
      PathParts(n, root, id);
      var f, path := c.file.value, v.idToPath[id];
      var p := f.parents[0];
      assert p in f.parents;
      if p != root {
        assert IdOk(o, n, v, done, p);
      }
      assert SameParent(f, path, v.folderById, root);
    }
  }

  lemma StepKnowsParents(o: Catalog, n: Catalog, root: string, s: PassResult, done: set<string>, c: DriveChange)
    requires Setting(o, n, root) && Agrees(o, n, s.view, done) && ParentsKnown(n, root, s.view)
        && Truthful(o, n, root, c)
    requires c.fileId in n || (c.removed && c.file.None?)
    ensures Step(s, c, root).Ok? && ParentsKnown(n, root, Step(s, c, root).value.view)
  {
    ChecksPass(o, n, root, s.view, done, c);
    hide Agrees, Setting, PathUnderKnownParent, SameParent;
    var v := s.view;
    match Resolve(v, c, root)
    case Ok(Apply(path)) =>
      AppliedAtOwnPath(o, n, root, v, done, c, path);
      if c.fileId in n {
        PlacedAgrees(o, n, root, v, done, c.fileId);
        NotTrashed(o, n, root, c.fileId);
        PlacedParentIsKnown(o, n, root, v, done, c, path);
        PlacingKeepsParents(n, root, v, c.fileId);
      } else {
        RemovingKeepsParents(o, n, root, v, path, c.fileId);
      }
    case _ =>
  }

  lemma PlacedParentIsKnown(o: Catalog, n: Catalog, root: string, v: View, done: set<string>, c: DriveChange,
      path: RelativePath)
    requires Setting(o, n, root) && Agrees(o, n, v, done) && ParentsKnown(n, root, v) && Truthful(o, n, root, c)
        && c.fileId in n
    requires Resolve(v, c, root) == Ok(Apply(path))
    ensures |n[c.fileId].file.parents| == 1
    ensures n[c.fileId].file.parents[0] == root || n[c.fileId].file.parents[0] in v.folderById
  {
    hide Agrees, PathUnderKnownParent, SameParent;
    assert WellPlaced(n, root, c.fileId);
    KnownParentGivesPath(o, n, root, v, done, n, c.fileId, c.file.value);
  }

  lemma PlacingKeepsParents(n: Catalog, root: string, v: View, id: string)
    requires ParentsKnown(n, root, v) && id in n && n[id].file.id == id && |n[id].file.parents| == 1
    requires n[id].file.parents[0] == root || n[id].file.parents[0] in v.folderById
    ensures ParentsKnown(n, root, With(v, n[id].path, n[id].file))
  {
  }

  lemma RemovingKeepsParents(o: Catalog, n: Catalog, root: string, v: View, path: RelativePath, id: string)
    requires Setting(o, n, root) && ParentsKnown(n, root, v) && id !in n
    ensures ParentsKnown(n, root, Without(v, path, id))
  {
    hide SyncName, IsSafeNonEmpty;
    forall x | x in v.idToPath && x in n ensures n[x].file.parents[0] == root || n[x].file.parents[0] in n {
      assert WellPlaced(n, root, x);
    }
  }

  lemma {:induction false} PassSucceeds(o: Catalog, n: Catalog, root: string, v: View, done: set<string>,
      pending: seq<DriveChange>)
    requires Setting(o, n, root) && Agrees(o, n, v, done) && ParentsKnown(n, root, v)
    requires PlainRemovals(n, pending) && forall c :: c in pending ==> Truthful(o, n, root, c)
    ensures Pass(v, pending, root).Ok? && ParentsKnown(n, root, Pass(v, pending, root).value.view)
  {
    hide Agrees, Setting, Truthful, Step, ParentsKnown;
    if pending != [] {
      var init, last := pending[..|pending| - 1], pending[|pending| - 1];
      assert forall c :: c in pending <==> c in init || c == last;
      PassSucceeds(o, n, root, v, done, init);
      var done0 := PassAgrees(o, n, root, v, done, init);
      StepKnowsParents(o, n, root, Pass(v, init, root).value, done0, last);
    }
  }

  lemma {:induction false} RetrySucceeds(o: Catalog, n: Catalog, root: string, v: View, done: set<string>,
      pending: seq<DriveChange>)
    requires Setting(o, n, root) && Agrees(o, n, v, done) && ParentsKnown(n, root, v)
    requires PlainRemovals(n, pending) && forall c :: c in pending ==> Truthful(o, n, root, c)
    ensures Retry(v, pending, root).Ok?
    decreases |pending|
  {
    hide Agrees, Setting, Truthful, ParentsKnown;
    PassSucceeds(o, n, root, v, done, pending);
    var done' := PassAgrees(o, n, root, v, done, pending);
    var s := Pass(v, pending, root).value;
    if s.deferred != [] && s.applied != 0 {
      RetrySucceeds(o, n, root, s.view, done', s.deferred);
    }
  }

  /** A difference whose removals carry no metadata is applied without falling back. */
  lemma PlainDifferenceIsApplied(o: Catalog, n: Catalog, root: string, start: View, changes: seq<DriveChange>)
    requires Difference(o, n, root, changes) && InStep(o, start) && PlainRemovals(n, changes)
    ensures Retry(start, changes, root).Ok?
  {
    StartAgrees(o, n, root, start);
    StartKnowsParents(o, n, root, start);
    RetrySucceeds(o, n, root, start, {}, changes);
  }
}
