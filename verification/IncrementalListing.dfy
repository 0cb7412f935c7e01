/**
 The incremental view of a session and the full listing of the Drive tree: started from
 records that are in step with the old tree, it gives what listing the new tree gives.
*/
module IncrementalListing {
  import opened Wrappers
  import opened Paths
  import opened Records
  import opened RemoteView
  import opened ViewAgreement
  import DriveTree

  // ------------------------------------------------------------- the starting view

  ghost predicate DistinctIds(remote: map<RelativePath, DriveFile>) {
    forall p, q :: p in remote && q in remote && remote[p].id == remote[q].id ==> p == q
  }

  ghost predicate DistinctFolderIds(folderIds: map<string, string>) {
    forall p, q :: p in folderIds && q in folderIds && folderIds[p] == folderIds[q] ==> p == q
  }

  /** Every id has one of the paths that carry it: the last one of an arbitrary order. */
  ghost predicate Indexes(v: View, folderIds: map<string, string>) {
    && (forall p :: p in v.remote ==> v.remote[p].id in v.idToPath)
    && (forall id :: id in v.idToPath ==> v.idToPath[id] in v.remote && v.remote[v.idToPath[id]].id == id)
    && (forall p :: p in folderIds ==> folderIds[p] in v.folderById)
    && (forall id :: id in v.folderById ==> v.folderById[id] in folderIds && folderIds[v.folderById[id]] == id)
  }

  /** `view` inverts the rows and the folder ids. */
  ghost predicate Inverts(v: View, folderIds: map<string, string>) {
    && Inverse(v) && Indexes(v, folderIds)
    && (forall p :: p in folderIds ==> v.folderById[folderIds[p]] == p)
  }

  /** The starting index is the exact inverse exactly when no two records share an id. */
  lemma IndexInvertsIffDistinct(v: View, folderIds: map<string, string>)
    requires Indexes(v, folderIds)
    ensures Inverse(v) <==> DistinctIds(v.remote)
    ensures Inverts(v, folderIds) <==> DistinctIds(v.remote) && DistinctFolderIds(folderIds)
  {
  }

  method InvertRows(remote: map<RelativePath, DriveFile>) returns (idToPath: map<string, RelativePath>)
    ensures forall p :: p in remote ==> remote[p].id in idToPath
    ensures forall id :: id in idToPath ==> idToPath[id] in remote && remote[idToPath[id]].id == id
  {
    idToPath := map[];
    var todo := remote.Keys;
    while todo != {}
      invariant todo <= remote.Keys
      invariant forall p :: p in remote && p !in todo ==> remote[p].id in idToPath
      invariant forall id :: id in idToPath ==> idToPath[id] in remote && remote[idToPath[id]].id == id
      decreases |todo|
    {
      var p :| p in todo;
      idToPath := idToPath[remote[p].id := p];
      todo := todo - {p};
    }
  }

  method InvertFolders(folderIds: map<string, string>) returns (folderById: map<string, string>)
    ensures forall p :: p in folderIds ==> folderIds[p] in folderById
    ensures forall id :: id in folderById ==> folderById[id] in folderIds && folderIds[folderById[id]] == id
  {
    folderById := map[];
    var todo := folderIds.Keys;
    while todo != {}
      invariant todo <= folderIds.Keys
      invariant forall p :: p in folderIds && p !in todo ==> folderIds[p] in folderById
      invariant forall id :: id in folderById ==> folderById[id] in folderIds && folderIds[folderById[id]] == id
      decreases |todo|
    {
      var p :| p in todo;
      folderById := folderById[folderIds[p] := p];
      todo := todo - {p};
    }
  }

  /** `build_incremental_remote_view`, for any records; shared ids get one of their paths. */
  method BuildIncrementalRemoteView(
    records: map<RelativePath, SyncRecord>, folderIds: map<string, string>, changes: seq<DriveChange>, root: string)
    returns (r: Result<map<RelativePath, DriveFile>, string>, ghost start: View)
    ensures start.remote == ViewFromRecords(records, root) && Indexes(start, folderIds)
    ensures r.Ok? <==> Retry(start, changes, root).Ok?
    ensures r.Ok? ==> r.value == Retry(start, changes, root).value.remote
  {
    var remote := ViewFromRecords(records, root);
    var idToPath := InvertRows(remote);
    var folderById := InvertFolders(folderIds);
    start := View(remote, idToPath, folderById);
    hide Retry, ViewFromRecords;
    var v := ApplyChanges(View(remote, idToPath, folderById), changes, root);
    match v {
      case Ok(view) => r := Ok(view.remote);
      case Err(e) => r := Err(e);
    }
  }

  // ------------------------------------------------------ a session in step with a tree

  /** The record was written for this object, whatever local file it has. */
  ghost predicate RecordedFrom(record: SyncRecord, file: DriveFile) {
    exists local, now :: record == RecordFrom(local, file, now)
  }

  /** The session has a record for every file of the tree and the id of every folder. */
  ghost predicate SessionInStep(o: Catalog, records: map<RelativePath, SyncRecord>, folderIds: map<string, string>) {
    && (forall id :: id in o && !o[id].IsFolder() ==>
          && o[id].path in records && RecordedFrom(records[o[id].path], o[id].file) && PlainChecksum(o[id].file))
    && (forall p :: p in records ==> exists id :: id in o && !o[id].IsFolder() && o[id].path == p)
    && FoldersInStep(o, folderIds)
  }

  lemma StubOfObject(o: Catalog, root: string, records: map<RelativePath, SyncRecord>,
      folderIds: map<string, string>, id: string)
    requires Sound(o, root) && SessionInStep(o, records, folderIds) && id in o && !o[id].IsFolder()
    ensures var remote, p := ViewFromRecords(records, root), o[id].path;
            p in remote && remote[p].id == id && RowInStep(o, p, remote[p])
  {
    hide RemoteContentFingerprint, Stub, RecordFrom, SyncName, IsSafeNonEmpty;
    var p := o[id].path;
    var local, now :| records[p] == RecordFrom(local, o[id].file, now);
    assert WellPlaced(o, root, id);
    StubStandsForTheObject(p, local, o[id].file, now, root);
  }

  /** The rows stand for exactly the files of the tree. */
  ghost predicate RowsInStep(o: Catalog, remote: map<RelativePath, DriveFile>) {
    && (forall p :: p in remote ==> RowInStep(o, p, remote[p]))
    && (forall id :: id in o && !o[id].IsFolder() ==> o[id].path in remote && remote[o[id].path].id == id)
  }

  ghost predicate RowInStep(o: Catalog, p: RelativePath, row: DriveFile) {
    && row.id in o && o[row.id].path == p && !o[row.id].IsFolder() && row.mimeType != FOLDER
    && RemoteContentFingerprint(row) == RemoteContentFingerprint(o[row.id].file)
  }

  lemma RowIsObject(
    o: Catalog, root: string, records: map<RelativePath, SyncRecord>, folderIds: map<string, string>, p: RelativePath)
    requires Sound(o, root) && SessionInStep(o, records, folderIds) && p in ViewFromRecords(records, root)
    ensures RowInStep(o, p, ViewFromRecords(records, root)[p])
  {
    assert p in records;
    hide ViewFromRecords, RowInStep, RecordedFrom, Sound, PlainChecksum;
    var id :| id in o && !o[id].IsFolder() && o[id].path == p;
    StubOfObject(o, root, records, folderIds, id);
  }

  lemma SessionRowsInStep(
    o: Catalog, root: string, records: map<RelativePath, SyncRecord>, folderIds: map<string, string>)
    requires Sound(o, root) && SessionInStep(o, records, folderIds)
    ensures RowsInStep(o, ViewFromRecords(records, root))
  {
    hide ViewFromRecords, RowInStep, SessionInStep, Sound;
    var remote := ViewFromRecords(records, root);
    forall p | p in remote ensures RowInStep(o, p, remote[p]) {
      RowIsObject(o, root, records, folderIds, p);
    }
    forall id | id in o && !o[id].IsFolder() ensures o[id].path in remote && remote[o[id].path].id == id {
      StubOfObject(o, root, records, folderIds, id);
    }
  }

  ghost predicate FoldersInStep(o: Catalog, folderIds: map<string, string>) {
    && (forall id :: id in o && o[id].IsFolder() ==> o[id].path in folderIds && folderIds[o[id].path] == id)
    && (forall p :: p in folderIds ==> exists id :: id in o && o[id].IsFolder() && o[id].path == p)
  }

  lemma StartIsInStep(o: Catalog, start: View, folderIds: map<string, string>)
    requires RowsInStep(o, start.remote) && FoldersInStep(o, folderIds) && Inverts(start, folderIds)
    ensures InStep(o, start)
  {
    hide RemoteContentFingerprint, Node.IsFolder;
    forall id ensures id in start.idToPath <==> id in o && !o[id].IsFolder() {
      if id in start.idToPath { assert RowInStep(o, start.idToPath[id], start.remote[start.idToPath[id]]); }
    }
    forall id ensures id in start.folderById <==> id in o && o[id].IsFolder() {
      if id in start.folderById { assert start.folderById[id] in folderIds; }
    }
    forall p | p in start.remote
      ensures start.remote[p].id in o && start.remote[p].mimeType != FOLDER
              && RemoteContentFingerprint(start.remote[p]) == RemoteContentFingerprint(o[start.remote[p].id].file)
    {
      assert RowInStep(o, p, start.remote[p]);
    }
  }

  lemma FoldersAreDistinct(o: Catalog, folderIds: map<string, string>)
    requires FoldersInStep(o, folderIds)
    ensures DistinctFolderIds(folderIds)
  {
  }

  /** A session in step can be inverted and starts the view in step with the tree. */
  lemma SessionStartsInStep(o: Catalog, root: string, records: map<RelativePath, SyncRecord>,
      folderIds: map<string, string>, start: View)
    requires Sound(o, root) && SessionInStep(o, records, folderIds)
    ensures DistinctIds(ViewFromRecords(records, root)) && DistinctFolderIds(folderIds)
    ensures start.remote == ViewFromRecords(records, root) && Indexes(start, folderIds) ==> InStep(o, start)
  {
    SessionRowsInStep(o, root, records, folderIds);
    assert FoldersInStep(o, folderIds);
    hide ViewFromRecords, RemoteContentFingerprint, SessionInStep, Indexes, Inverts, InStep, Sound, Node.IsFolder;
    var remote := ViewFromRecords(records, root);
    forall p, q | p in remote && q in remote && remote[p].id == remote[q].id ensures p == q {
      assert RowInStep(o, p, remote[p]) && RowInStep(o, q, remote[q]);
    }
    assert DistinctFolderIds(folderIds) by { FoldersAreDistinct(o, folderIds); }
    if start.remote == remote && Indexes(start, folderIds) {
      IndexInvertsIffDistinct(start, folderIds);
      StartIsInStep(o, start, folderIds);
    }
  }

  // ------------------------------------------------------------- catalogs of listings

  /** The objects that a full listing finds, by id. */
  ghost predicate IsCatalogOf(tree: DriveTree.Tree, root: string, c: Catalog) {
    && (forall t :: t != [] && DriveTree.Located(tree, root, t) ==> Lists(tree, root, c, t))
    && (forall id :: id in c ==>
         exists t :: t != [] && DriveTree.Located(tree, root, t) && DriveTree.PlaceOf(tree, root, t).id == id)
  }

  ghost predicate Lists(tree: DriveTree.Tree, root: string, c: Catalog, t: DriveTree.Trail)
    requires DriveTree.Located(tree, root, t)
  {
    var place := DriveTree.PlaceOf(tree, root, t);
    place.file.Some? && place.id in c && c[place.id] == Node(place.path, place.file.value)
  }

  /** Files of one folder have different local names and name that folder as their parent. */
  ghost predicate PlainTree(tree: DriveTree.Tree, root: string) {
    && DriveTree.IsTree(tree, root)
    && (forall p, i :: p in tree && 0 <= i < |DriveTree.NamesIn(tree[p])| ==>
          DriveTree.NamesIn(tree[p])[i].0 == SyncName(DriveTree.NamesIn(tree[p])[i].1))
    && (forall p, f :: p in tree && f in tree[p] ==> f.parents == [p] && !f.trashed)
  }

  lemma LocatedIsWellPlaced(tree: DriveTree.Tree, root: string, c: Catalog, t: DriveTree.Trail)
    requires PlainTree(tree, root) && IsCatalogOf(tree, root, c) && t != [] && DriveTree.Located(tree, root, t)
    ensures var id := DriveTree.PlaceOf(tree, root, t).id; id in c && id != root && WellPlaced(c, root, id)
  {
    hide DriveTree.ChildPlace, DriveTree.NamesIn, SyncName, IsSafeNonEmpty;
    var up, i := DriveTree.Up(t), t[|t| - 1];
    var parent := DriveTree.Locate(tree, root, up).value;
    DriveTree.LocatedIsNormal(tree, root, up);
    DriveTree.ChildMeaning(tree, root, parent, i);
    LocatedIsSafe(tree, root, t);
    assert Lists(tree, root, c, t);
    if up != [] {
      assert Lists(tree, root, c, up);
      ParentIsNotRoot(tree, root, up);
    }
  }

  lemma LocatedIsSafe(tree: DriveTree.Tree, root: string, t: DriveTree.Trail)
    requires t != [] && DriveTree.Located(tree, root, t)
    ensures IsSafeNonEmpty(DriveTree.PlaceOf(tree, root, t).path)
  {
    hide DriveTree.NamesIn, IsSafeNonEmpty;
  }

  lemma ParentIsNotRoot(tree: DriveTree.Tree, root: string, t: DriveTree.Trail)
    requires PlainTree(tree, root) && t != [] && DriveTree.Located(tree, root, t)
    ensures DriveTree.PlaceOf(tree, root, t).id != root
  {
    hide DriveTree.ChildPlace, DriveTree.NamesIn;
    var up := DriveTree.Up(t);
    DriveTree.LocatedIsNormal(tree, root, up);
    DriveTree.ChildMeaning(tree, root, DriveTree.Locate(tree, root, up).value, t[|t| - 1]);
  }

  lemma CatalogIsSound(tree: DriveTree.Tree, root: string, c: Catalog)
    requires PlainTree(tree, root) && IsCatalogOf(tree, root, c)
    ensures Sound(c, root)
  {
    hide PlainTree, WellPlaced, DriveTree.Located, DriveTree.PlaceOf;
    forall id | id in c ensures id != root && WellPlaced(c, root, id) {
      var t: DriveTree.Trail :| t != [] && DriveTree.Located(tree, root, t)
          && DriveTree.PlaceOf(tree, root, t).id == id;
      LocatedIsWellPlaced(tree, root, c, t);
    }
    forall a, b | a in c && b in c && c[a].path == c[b].path ensures a == b {
      var s: DriveTree.Trail :| s != [] && DriveTree.Located(tree, root, s) && DriveTree.PlaceOf(tree, root, s).id == a;
      var t: DriveTree.Trail :| t != [] && DriveTree.Located(tree, root, t) && DriveTree.PlaceOf(tree, root, t).id == b;
      assert Lists(tree, root, c, s) && Lists(tree, root, c, t);
      SamePlace(tree, root, s, t);
    }
  }

  lemma SamePlace(tree: DriveTree.Tree, root: string, s: DriveTree.Trail, t: DriveTree.Trail)
    requires PlainTree(tree, root) && DriveTree.Located(tree, root, s) && DriveTree.Located(tree, root, t)
    requires DriveTree.PlaceOf(tree, root, s).path == DriveTree.PlaceOf(tree, root, t).path
    ensures s == t
  {
    DriveTree.PathsAreDistinct(tree, root, s, t);
  }

  // ------------------------------------------------------------------- main result

  lemma ListingOfCatalog(tree: DriveTree.Tree, root: string, c: Catalog, result: map<RelativePath, DriveFile>)
    requires IsCatalogOf(tree, root, c) && DriveTree.IsListing(tree, root, result)
    ensures forall id :: id in c ==> c[id].path in result && result[c[id].path] == c[id].file
    ensures forall p :: p in result ==> exists id :: id in c && c[id].path == p
  {
    hide DriveTree.Located, DriveTree.PlaceOf;
    forall id | id in c ensures c[id].path in result && result[c[id].path] == c[id].file {
      var t: DriveTree.Trail :| t != [] && DriveTree.Located(tree, root, t)
          && DriveTree.PlaceOf(tree, root, t).id == id;
      assert Lists(tree, root, c, t) && DriveTree.Holds(tree, root, result, t);
    }
    forall p | p in result ensures exists id :: id in c && c[id].path == p {
      assert DriveTree.IsLocatedPath(tree, root, p);
      var t: DriveTree.Trail :| t != [] && DriveTree.Located(tree, root, t)
          && DriveTree.PlaceOf(tree, root, t).path == p;
      assert Lists(tree, root, c, t);
    }
  }

  /**
   Whatever the order of the changes and however deep the new folders: if the batch can
   be applied, the incremental view and the full listing have the same files at the same
   paths, with the same ids and fingerprints.
  */
  lemma IncrementalEqualsListing(
    o: Catalog, tree: DriveTree.Tree, n: Catalog, root: string, start: View, changes: seq<DriveChange>,
    listing: map<RelativePath, DriveFile>, p: RelativePath)
    requires Difference(o, n, root, changes) && InStep(o, start) && Retry(start, changes, root).Ok?
    requires IsCatalogOf(tree, root, n) && DriveTree.IsListing(tree, root, listing)
    ensures var remote := Retry(start, changes, root).value.remote;
            && (p in remote && remote[p].mimeType != FOLDER <==> p in listing && listing[p].mimeType != FOLDER)
            && (p in listing && listing[p].mimeType != FOLDER ==> SameRow(remote[p], listing[p]))
  {
    IncrementalAgrees(o, n, root, start, changes);
    ListingOfCatalog(tree, root, n, listing);
    hide Retry, SameRow, InStep, IsCatalogOf, DriveTree.IsListing, Difference;
    if p in listing {
      var id :| id in n && n[id].path == p;
    }
  }
}
