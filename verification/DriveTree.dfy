/**
 `list_all_files`: the breadth-first walk over a finite folder tree. An object is located
 by its trail, the positions of its ancestors and itself among the named files of their
 folders. The walk returns every located object at its own path and nothing else.
*/
module DriveTree {
  import opened Wrappers
  import opened Text
  import opened Paths
  import opened Records
  import opened Naming
  import opened Listing

  /** What Drive returns for each folder id, in any order. */
  type Tree = map<string, seq<DriveFile>>

  type Trail = seq<nat>

  predicate CleanName(name: string) {
    Lacks(name, '/') && Lacks(name, '\\')
  }

  /** Every object has one parent and an id of its own; names contain no separators. */
  ghost predicate IsTree(tree: Tree, root: string) {
    && root in tree
    && (forall p :: p in tree ==> DistinctIds(tree[p]))
    && (forall p, f :: p in tree && f in tree[p] ==> f.id != root && CleanName(f.name))
    && (forall p, f :: p in tree && f in tree[p] && f.mimeType == FOLDER ==> f.id in tree)
    && (forall p, q, f, g :: p in tree && q in tree && f in tree[p] && g in tree[q] && f.id == g.id ==> p == q)
  }

  function NamesIn(files: seq<DriveFile>): seq<Named> {
    LocalNames(Sorted(files))
  }

  /** The names in a folder do not depend on the order in which Drive returned the files. */
  lemma NamesForgetTheOrder(a: seq<DriveFile>, b: seq<DriveFile>)
    requires DistinctIds(a) && DistinctIds(b) && forall f :: f in a <==> f in b
    ensures NamesIn(a) == NamesIn(b)
  {
    hide LocalNames, Sorted, IsSort;
    SortedIsSort(a);
    SortedIsSort(b);
    SortingForgetsTheOrder(a, b, Sorted(a), Sorted(b));
  }

  /** A located object; the root has no file. */
  datatype Place = Place(path: RelativePath, id: string, file: Option<DriveFile>) {
    predicate IsFolder() {
      file.None? || file.value.mimeType == FOLDER
    }
  }

  function Child(prefix: RelativePath, name: string): RelativePath {
    if prefix == "" then name else prefix + "/" + name
  }

  function ChildPlace(tree: Tree, parent: Place, i: nat): (r: Option<Place>)
    ensures r.Some? ==> r.value.file.Some?
  {
    if !parent.IsFolder() || parent.id !in tree || i >= |NamesIn(tree[parent.id])| then None
    else
      var (name, file) := NamesIn(tree[parent.id])[i];
      var path := Normalize(Child(parent.path, name));
      if IsSafeNonEmpty(path) then Some(Place(path, file.id, Some(file))) else None
  }

  /** Objects below an unsafe path are not located. */
  function Locate(tree: Tree, root: string, trail: Trail): Option<Place> {
    if trail == [] then Some(Place("", root, None))
    else
      match Locate(tree, root, trail[..|trail| - 1])
      case None => None
      case Some(parent) => ChildPlace(tree, parent, trail[|trail| - 1])
  }

  lemma LocateChild(tree: Tree, root: string, trail: Trail, i: nat)
    ensures Locate(tree, root, trail + [i])
            == match Locate(tree, root, trail) case None => None case Some(parent) => ChildPlace(tree, parent, i)
  {
    hide ChildPlace;
    assert (trail + [i])[..|trail|] == trail;
  }

  // --------------------------------------------------------------- distinct places

  lemma {:induction false} AssignedFilesAreFiles(files: seq<DriveFile>, i: nat)
    requires i < |LocalNames(files)|
    ensures LocalNames(files)[i].1 in files
  {
    var all := Plain(files) + Exports(files);
    assert LocalNames(files)[i].1 == all[i];
    assert all[i] in all;
  }

  lemma CleanSyncName(f: DriveFile)
    requires CleanName(f.name)
    ensures CleanName(SyncName(f))
  {
    hide NameHasExtension;
  }

  lemma CleanCandidate(stem: string, ext: string, n: nat)
    requires CleanName(stem) && CleanName(ext)
    ensures CleanName(Candidate(stem, ext, n))
  {
    hide NatToString;
    var digits := NatToString(n);
    assert CleanName(" (") && CleanName(digits) && CleanName(")");
  }

  lemma CleanDedupe(name: string, taken: set<string>)
    requires CleanName(name)
    ensures CleanName(Dedupe(name, taken))
  {
    hide Candidate, RFind;
    var (stem, ext) := SplitFileName(name);
    assert forall i :: 0 <= i < |stem| ==> stem[i] == name[i];
    assert forall i :: 0 <= i < |ext| ==> ext[i] == name[|stem| + i];
    CleanCandidate(stem, ext, FirstFree(stem, ext, 2, taken));
  }

  lemma {:induction false} CleanAssign(files: seq<DriveFile>, i: nat)
    requires i < |files| && forall f :: f in files ==> CleanName(f.name)
    ensures CleanName(Assign(files)[i].0)
  {
    hide Dedupe, SyncName, CleanName;
    var n := |files| - 1;
    CleanSyncName(files[n]);
    CleanDedupe(SyncName(files[n]), NameSet(Assign(files[..n])));
    if i < n { CleanAssign(files[..n], i); }
  }

  lemma NamesInFolder(tree: Tree, root: string, p: string, i: nat)
    requires IsTree(tree, root) && p in tree && i < |NamesIn(tree[p])|
    ensures var (name, file) := NamesIn(tree[p])[i]; CleanName(name) && file in tree[p]
  {
    hide CleanName, DistinctIds, Assign;
    var sorted := Sorted(tree[p]);
    AssignedFilesAreFiles(sorted, i);
    assert forall f :: f in sorted ==> CleanName(f.name);
    var all := Plain(sorted) + Exports(sorted);
    assert forall f :: f in all ==> f in sorted;
    CleanAssign(all, i);
  }

  lemma NamesInFolderDistinct(files: seq<DriveFile>, i: nat, j: nat)
    requires i < |NamesIn(files)| && j < |NamesIn(files)| && NamesIn(files)[i].0 == NamesIn(files)[j].0
    ensures i == j
  {
    hide Assign;
    AssignedNamesAreDistinct(Plain(Sorted(files)) + Exports(Sorted(files)));
  }

  /** The place of a child: below its parent, under a clean non-empty name, with a listed file. */
  lemma ChildMeaning(tree: Tree, root: string, parent: Place, i: nat)
    requires IsTree(tree, root) && ChildPlace(tree, parent, i).Some? && Normal(parent.path)
    ensures parent.IsFolder() && parent.id in tree && i < |NamesIn(tree[parent.id])|
    ensures var place, (name, file) := ChildPlace(tree, parent, i).value, NamesIn(tree[parent.id])[i];
            && place == Place(Child(parent.path, name), file.id, Some(file)) && place.path != ""
            && Normal(place.path) && Lacks(name, '/') && file in tree[parent.id]
  {
    hide NamesIn, IsSafeNonEmpty, IsTree;
    NamesInFolder(tree, root, parent.id, i);
    var (name, file) := NamesIn(tree[parent.id])[i];
    assert Normal(Child(parent.path, name));
    NormalizeNormal(Child(parent.path, name));
    assert ChildPlace(tree, parent, i).value.path != "" by { SafeIsNotEmpty(ChildPlace(tree, parent, i).value.path); }
  }

  lemma SafeIsNotEmpty(p: string)
    requires IsSafeNonEmpty(p)
    ensures p != ""
  {
  }

  lemma {:induction false} LocatedIsNormal(tree: Tree, root: string, trail: Trail)
    requires IsTree(tree, root) && Locate(tree, root, trail).Some?
    ensures Normal(Locate(tree, root, trail).value.path)
    ensures trail != [] ==> Locate(tree, root, trail).value.path != ""
  {
    hide IsTree, ChildPlace, Normal;
    if trail != [] {
      var up := trail[..|trail| - 1];
      LocatedIsNormal(tree, root, up);
      ChildMeaning(tree, root, Locate(tree, root, up).value, trail[|trail| - 1]);
    } else {
      assert Normal("") by { NormalizeNormal(""); }
    }
  }

  lemma ChildIsSplit(p: RelativePath, m: string, q: RelativePath, n: string)
    requires Lacks(m, '/') && Lacks(n, '/') && Child(p, m) == Child(q, n)
    ensures p == q && m == n
  {
    var dirP, dirQ := if p == "" then "" else p + "/", if q == "" then "" else q + "/";
    assert Child(p, m) == dirP + m && Child(q, n) == dirQ + n;
    SplitDirOf(dirP, m);
    SplitDirOf(dirQ, n);
    assert p == "" || p == dirP[..|dirP| - 1];
    assert q == "" || q == dirQ[..|dirQ| - 1];
  }

  /** Different objects have different paths. */
  lemma {:induction false} PathsAreDistinct(tree: Tree, root: string, a: Trail, b: Trail)
    requires IsTree(tree, root) && Locate(tree, root, a).Some? && Locate(tree, root, b).Some?
    requires Locate(tree, root, a).value.path == Locate(tree, root, b).value.path
    ensures a == b
  {
    hide IsTree, ChildPlace, Normal, NamesIn, Child;
    LocatedIsNormal(tree, root, a);
    LocatedIsNormal(tree, root, b);
    if a != [] && b != [] {
      var upA, upB := a[..|a| - 1], b[..|b| - 1];
      var i, j := a[|a| - 1], b[|b| - 1];
      LocatedIsNormal(tree, root, upA);
      LocatedIsNormal(tree, root, upB);
      var parentA, parentB := Locate(tree, root, upA).value, Locate(tree, root, upB).value;
      ChildMeaning(tree, root, parentA, i);
      ChildMeaning(tree, root, parentB, j);
      ChildIsSplit(parentA.path, NamesIn(tree[parentA.id])[i].0, parentB.path, NamesIn(tree[parentB.id])[j].0);
      PathsAreDistinct(tree, root, upA, upB);
      NamesInFolderDistinct(tree[parentA.id], i, j);
      assert a == upA + [i] && b == upB + [j];
    }
  }

  lemma ListedIdsDistinct(tree: Tree, root: string, p: string, i: nat, j: nat)
    requires IsTree(tree, root) && p in tree && i < |NamesIn(tree[p])| && j < |NamesIn(tree[p])|
    requires NamesIn(tree[p])[i].1.id == NamesIn(tree[p])[j].1.id
    ensures i == j
  {
    var sorted := Sorted(tree[p]);
    SortedIsSort(tree[p]);
    FilesOnce(sorted, i, j);
  }

  /** Splitting keeps every file once. */
  lemma FilesOnce(sorted: seq<DriveFile>, i: nat, j: nat)
    requires DistinctIds(sorted) && i < |LocalNames(sorted)| && j < |LocalNames(sorted)|
    requires LocalNames(sorted)[i].1.id == LocalNames(sorted)[j].1.id
    ensures i == j
  {
    var plain, exported := Plain(sorted), Exports(sorted);
    PartsDistinct(sorted);
    var all := plain + exported;
    hide Assign, Plain, Exports;
    assert LocalNames(sorted)[i].1 == all[i] && LocalNames(sorted)[j].1 == all[j];
    assert forall k :: 0 <= k < |plain| ==> plain[k] in plain;
    assert forall k :: 0 <= k < |exported| ==> exported[k] in exported;
    assert forall f, g :: f in sorted && g in sorted && f.id == g.id ==> f == g;
  }

  lemma SnocDistinct(part: seq<DriveFile>, last: DriveFile)
    requires DistinctIds(part) && forall f :: f in part ==> f.id != last.id
    ensures DistinctIds(part + [last])
  {
    var all := part + [last];
    forall i, j | 0 <= i < j < |all| ensures all[i].id != all[j].id {
      assert all[i] == part[i] && all[i] in part;
    }
  }

  lemma {:induction false} PartsDistinct(files: seq<DriveFile>)
    requires DistinctIds(files)
    ensures DistinctIds(Plain(files)) && DistinctIds(Exports(files))
  {
    if files != [] {
      var n := |files| - 1;
      var init, last := files[..n], files[n];
      PartsDistinct(init);
      assert forall i :: 0 <= i < n ==> init[i] == files[i] && init[i].id != last.id;
      SnocDistinct(Plain(init), last);
      SnocDistinct(Exports(init), last);
    }
  }

  /** Different objects have different ids. */
  lemma {:induction false} IdsAreDistinct(tree: Tree, root: string, a: Trail, b: Trail)
    requires IsTree(tree, root) && Locate(tree, root, a).Some? && Locate(tree, root, b).Some?
    requires Locate(tree, root, a).value.id == Locate(tree, root, b).value.id
    ensures a == b
  {
    hide ChildPlace, Normal, NamesIn, Child, CleanName, DistinctIds;
    if a != [] {
      var upA := a[..|a| - 1];
      LocatedIsNormal(tree, root, upA);
      ChildMeaning(tree, root, Locate(tree, root, upA).value, a[|a| - 1]);
    }
    if b != [] {
      var upB := b[..|b| - 1];
      LocatedIsNormal(tree, root, upB);
      ChildMeaning(tree, root, Locate(tree, root, upB).value, b[|b| - 1]);
    }
    if a != [] && b != [] {
      IdsAreDistinct(tree, root, a[..|a| - 1], b[..|b| - 1]);
      ListedIdsDistinct(tree, root, Locate(tree, root, a[..|a| - 1]).value.id, a[|a| - 1], b[|b| - 1]);
      assert a == a[..|a| - 1] + [a[|a| - 1]] && b == b[..|b| - 1] + [b[|b| - 1]];
    }
  }

  // ------------------------------------------------------------------- the walk

  /** The located children of a folder before position `n`, by path. */
  function ChildMap(tree: Tree, parent: Place, n: nat): map<RelativePath, DriveFile> {
    if n == 0 then map[]
    else
      var upper := ChildMap(tree, parent, n - 1);
      match ChildPlace(tree, parent, n - 1)
      case None => upper
      case Some(place) => upper[place.path := place.file.value]
  }

  /** The located folders among them, in order. */
  function ChildFolders(tree: Tree, parent: Place, n: nat): seq<nat> {
    if n == 0 then []
    else
      var upper := ChildFolders(tree, parent, n - 1);
      match ChildPlace(tree, parent, n - 1)
      case None => upper
      case Some(place) => if place.IsFolder() then upper + [n - 1] else upper
  }

  predicate FolderAt(tree: Tree, parent: Place, i: nat) {
    ChildPlace(tree, parent, i).Some? && ChildPlace(tree, parent, i).value.IsFolder()
  }

  lemma {:induction false} ChildFoldersMeaning(tree: Tree, parent: Place, n: nat)
    ensures forall i: nat :: i in ChildFolders(tree, parent, n) <==> i < n && FolderAt(tree, parent, i)
    ensures var r := ChildFolders(tree, parent, n); forall j, k :: 0 <= j < k < |r| ==> r[j] < r[k]
  {
    hide ChildPlace;
    if n > 0 {
      ChildFoldersMeaning(tree, parent, n - 1);
      var upper := ChildFolders(tree, parent, n - 1);
      forall k | 0 <= k < |upper| ensures upper[k] < n - 1 {
        var i := upper[k];
        assert i in upper;
        assert i in ChildFolders(tree, parent, n - 1);
      }
      var all := ChildFolders(tree, parent, n);
      assert all == if FolderAt(tree, parent, n - 1) then upper + [n - 1] else upper;
      forall i: nat ensures i in all <==> i < n && FolderAt(tree, parent, i) {
        assert i in upper <==> i < n - 1 && FolderAt(tree, parent, i);
      }
    }
  }

  lemma {:induction false} ChildMapMeaning(tree: Tree, root: string, trail: Trail, parent: Place, n: nat)
    requires IsTree(tree, root) && Locate(tree, root, trail) == Some(parent)
    ensures forall i: nat :: i < n && ChildPlace(tree, parent, i).Some? ==>
              var place := ChildPlace(tree, parent, i).value;
              place.path in ChildMap(tree, parent, n) && ChildMap(tree, parent, n)[place.path] == place.file.value
  {
    hide ChildPlace, IsTree, Locate;
    if n > 0 {
      ChildMapMeaning(tree, root, trail, parent, n - 1);
      var last := ChildPlace(tree, parent, n - 1);
      forall i: nat | i < n && ChildPlace(tree, parent, i).Some?
        ensures var place := ChildPlace(tree, parent, i).value;
                place.path in ChildMap(tree, parent, n) && ChildMap(tree, parent, n)[place.path] == place.file.value
      {
        if last.Some? && last.value.path == ChildPlace(tree, parent, i).value.path {
          LocateChild(tree, root, trail, i);
          LocateChild(tree, root, trail, n - 1);
          PathsAreDistinct(tree, root, trail + [i], trail + [n - 1]);
          assert (trail + [i])[|trail|] == (trail + [n - 1])[|trail|];
        }
      }
    }
  }

  /** Every path in the map is the path of a child. */
  lemma {:induction false} ChildOfPath(tree: Tree, parent: Place, n: nat, p: RelativePath) returns (i: nat)
    requires p in ChildMap(tree, parent, n)
    ensures i < n && ChildPlace(tree, parent, i).Some? && ChildPlace(tree, parent, i).value.path == p
  {
    hide ChildPlace;
    i := n - 1;
    var last := ChildPlace(tree, parent, i);
    if last.None? || last.value.path != p {
      i := ChildOfPath(tree, parent, n - 1, p);
    }
  }

  /** The queue entries of the folders at `positions`. */
  function Entries(tree: Tree, parent: Place, positions: seq<nat>): seq<(string, RelativePath)> {
    if positions == [] then []
    else
      var place := ChildPlace(tree, parent, positions[|positions| - 1]);
      Entries(tree, parent, positions[..|positions| - 1])
      + if place.Some? then [(place.value.id, place.value.path)] else []
  }

  lemma NextChild(tree: Tree, parent: Place, i: nat)
    ensures var place, upper := ChildPlace(tree, parent, i), ChildFolders(tree, parent, i);
            && ChildMap(tree, parent, i + 1)
               == (if place.Some? then ChildMap(tree, parent, i)[place.value.path := place.value.file.value]
                   else ChildMap(tree, parent, i))
            && Entries(tree, parent, ChildFolders(tree, parent, i + 1))
               == Entries(tree, parent, upper)
                  + if place.Some? && place.value.IsFolder() then [(place.value.id, place.value.path)] else []
  {
    hide ChildPlace;
    var upper := ChildFolders(tree, parent, i);
    assert (upper + [i])[..|upper|] == upper;
  }

  lemma ChildPlaceIs(tree: Tree, parent: Place, i: nat, name: string, file: DriveFile)
    requires parent.IsFolder() && parent.id in tree && i < |NamesIn(tree[parent.id])|
        && NamesIn(tree[parent.id])[i] == (name, file)
    ensures ChildPlace(tree, parent, i)
            == var path := Normalize(Child(parent.path, name));
               if IsSafeNonEmpty(path) then Some(Place(path, file.id, Some(file))) else None
  {
    hide NamesIn, IsSafeNonEmpty, Normalize;
  }

  type Listed = (map<RelativePath, DriveFile>, seq<(string, RelativePath)>)

  /** One named file, added to the listing and, if it is a folder, to the queue. */
  function AddNamed(prefix: RelativePath, named: Named, so: Listed): Listed {
    var rel := Normalize(Child(prefix, named.0));
    if !IsSafeNonEmpty(rel) then so
    else (so.0[rel := named.1], if named.1.mimeType == FOLDER then so.1 + [(named.1.id, rel)] else so.1)
  }

  function AddAll(prefix: RelativePath, named: seq<Named>, result: map<RelativePath, DriveFile>): Listed {
    if named == [] then (result, [])
    else AddNamed(prefix, named[|named| - 1], AddAll(prefix, named[..|named| - 1], result))
  }

  /** The loop over the named files of one folder. */
  method ListFolder(named: seq<Named>, prefix: RelativePath, result: map<RelativePath, DriveFile>)
    returns (r: map<RelativePath, DriveFile>, folders: seq<(string, RelativePath)>)
    ensures (r, folders) == AddAll(prefix, named, result)
  {
    r, folders := result, [];
    hide Normalize, Child, IsSafeNonEmpty;
    for i := 0 to |named|
      invariant (r, folders) == AddAll(prefix, named[..i], result)
    {
      assert named[..i + 1][..i] == named[..i];
      var (name, file) := named[i];
      var rel := Normalize(Child(prefix, name));
      if IsSafeNonEmpty(rel) {
        if file.mimeType == FOLDER {
          folders := folders + [(file.id, rel)];
        }
        r := r[rel := file];
      }
    }
    assert named[..|named|] == named;
  }

  function ListedUpTo(tree: Tree, parent: Place, result: map<RelativePath, DriveFile>, n: nat): Listed {
    (result + ChildMap(tree, parent, n), Entries(tree, parent, ChildFolders(tree, parent, n)))
  }

  lemma MapStep(result: map<RelativePath, DriveFile>, m: map<RelativePath, DriveFile>, rel: RelativePath,
      file: DriveFile)
    ensures result + m[rel := file] == (result + m)[rel := file]
  {
  }

  lemma ListedPlace(tree: Tree, parent: Place, result: map<RelativePath, DriveFile>, i: nat)
    ensures var so := ListedUpTo(tree, parent, result, i);
            ListedUpTo(tree, parent, result, i + 1)
            == match ChildPlace(tree, parent, i)
               case None => so
               case Some(place) =>
                 (so.0[place.path := place.file.value],
                  if place.IsFolder() then so.1 + [(place.id, place.path)] else so.1)
  {
    NextChild(tree, parent, i);
    hide ChildMap, ChildFolders, Entries, ChildPlace;
    var place := ChildPlace(tree, parent, i);
    var e := Entries(tree, parent, ChildFolders(tree, parent, i));
    assert e + [] == e;
    if place.Some? {
      MapStep(result, ChildMap(tree, parent, i), place.value.path, place.value.file.value);
    }
  }

  lemma AddNamedIsChild(tree: Tree, parent: Place, result: map<RelativePath, DriveFile>, i: nat)
    requires parent.IsFolder() && parent.id in tree && i < |NamesIn(tree[parent.id])|
    ensures AddNamed(parent.path, NamesIn(tree[parent.id])[i], ListedUpTo(tree, parent, result, i))
            == ListedUpTo(tree, parent, result, i + 1)
  {
    ListedPlace(tree, parent, result, i);
    ChildPlaceIs(tree, parent, i, NamesIn(tree[parent.id])[i].0, NamesIn(tree[parent.id])[i].1);
    hide ListedUpTo, NamesIn, Child, Normalize, IsSafeNonEmpty, ChildPlace;
  }

  lemma AddNothing(tree: Tree, parent: Place, result: map<RelativePath, DriveFile>)
    ensures AddAll(parent.path, [], result) == ListedUpTo(tree, parent, result, 0)
  {
    hide ChildPlace;
    assert result + map[] == result;
  }

  lemma {:induction false} AddAllIsChildren(tree: Tree, parent: Place, result: map<RelativePath, DriveFile>, n: nat)
    requires parent.IsFolder() && parent.id in tree && n <= |NamesIn(tree[parent.id])|
    ensures AddAll(parent.path, NamesIn(tree[parent.id])[..n], result) == ListedUpTo(tree, parent, result, n)
  {
    hide NamesIn, AddNamed, ListedUpTo, Place.IsFolder;
    var named := NamesIn(tree[parent.id])[..n];
    if n == 0 {
      AddNothing(tree, parent, result);
    } else {
      AddAllIsChildren(tree, parent, result, n - 1);
      AddNamedIsChild(tree, parent, result, n - 1);
      assert named[..n - 1] == NamesIn(tree[parent.id])[..n - 1];
    }
  }

  // ------------------------------------------------------------ the state of the walk

  predicate Located(tree: Tree, root: string, t: Trail) {
    Locate(tree, root, t).Some?
  }

  predicate FolderTrail(tree: Tree, root: string, t: Trail) {
    Located(tree, root, t) && Locate(tree, root, t).value.IsFolder()
  }

  function PlaceOf(tree: Tree, root: string, t: Trail): Place
    requires Located(tree, root, t)
  {
    Locate(tree, root, t).value
  }

  function Up(t: Trail): Trail
    requires t != []
  {
    t[..|t| - 1]
  }

  predicate Reached(done: set<Trail>, t: Trail) {
    t == [] || Up(t) in done
  }

  /** Which folders wait: exactly those reached and not done, each once. */
  ghost predicate QueueOk(tree: Tree, root: string, done: set<Trail>, trails: seq<Trail>) {
    && (forall t :: t in trails <==> FolderTrail(tree, root, t) && Reached(done, t) && t !in done)
    && (forall j, k :: 0 <= j < k < |trails| ==> trails[j] != trails[k])
    && (forall t :: t in done ==> Reached(done, t))
  }

  ghost predicate EntriesOk(tree: Tree, root: string, trails: seq<Trail>, queue: seq<(string, RelativePath)>) {
    && |queue| == |trails|
    && forall k :: 0 <= k < |trails| ==>
         && Located(tree, root, trails[k])
         && queue[k] == (PlaceOf(tree, root, trails[k]).id, PlaceOf(tree, root, trails[k]).path)
  }

  ghost predicate Holds(tree: Tree, root: string, result: map<RelativePath, DriveFile>, t: Trail) {
    && t != [] && Located(tree, root, t) && PlaceOf(tree, root, t).file.Some?
    && PlaceOf(tree, root, t).path in result && result[PlaceOf(tree, root, t).path] == PlaceOf(tree, root, t).file.value
  }

  /** The listing so far: the located children of the folders that are done. */
  ghost predicate ResultOk(tree: Tree, root: string, done: set<Trail>, result: map<RelativePath, DriveFile>) {
    && (forall t :: t != [] && Located(tree, root, t) && Up(t) in done ==> Holds(tree, root, result, t))
    && (forall p :: p in result ==> IsPathBelow(tree, root, done, p))
  }

  lemma ChildTrail(tree: Tree, root: string, t: Trail, i: nat)
    requires Located(tree, root, t)
    ensures Located(tree, root, t + [i]) <==> ChildPlace(tree, PlaceOf(tree, root, t), i).Some?
    ensures Located(tree, root, t + [i]) ==>
              PlaceOf(tree, root, t + [i]) == ChildPlace(tree, PlaceOf(tree, root, t), i).value
    ensures FolderTrail(tree, root, t + [i]) <==> FolderAt(tree, PlaceOf(tree, root, t), i)
    ensures Up(t + [i]) == t
  {
    hide ChildPlace;
    LocateChild(tree, root, t, i);
  }

  lemma ChildInRange(tree: Tree, parent: Place, i: nat)
    requires ChildPlace(tree, parent, i).Some?
    ensures parent.id in tree && i < |NamesIn(tree[parent.id])|
  {
    hide NamesIn, IsSafeNonEmpty;
  }

  lemma TrailOfUp(t: Trail)
    requires t != []
    ensures t == Up(t) + [t[|t| - 1]]
  {
  }

  function Extended(t: Trail, positions: seq<nat>): (r: seq<Trail>)
    ensures |r| == |positions| && forall k :: 0 <= k < |r| ==> r[k] == t + [positions[k]]
  {
    seq(|positions|, k requires 0 <= k < |positions| => t + [positions[k]])
  }

  ghost predicate IsChildren(tree: Tree, root: string, t: Trail, positions: seq<nat>)
    requires Located(tree, root, t)
  {
    && (forall i: nat :: i in positions <==> FolderAt(tree, PlaceOf(tree, root, t), i))
    && (forall j, k :: 0 <= j < k < |positions| ==> positions[j] < positions[k])
  }

  lemma ExtendedAreTheChildren(tree: Tree, root: string, t: Trail, positions: seq<nat>, x: Trail)
    requires Located(tree, root, t) && IsChildren(tree, root, t, positions)
    ensures x in Extended(t, positions) <==> FolderTrail(tree, root, x) && x != [] && Up(x) == t
  {
    hide Located, FolderTrail, FolderAt, PlaceOf;
    var added := Extended(t, positions);
    if x in added {
      var k :| 0 <= k < |added| && added[k] == x;
      assert positions[k] in positions;
      ChildTrail(tree, root, t, positions[k]);
    }
    if FolderTrail(tree, root, x) && x != [] && Up(x) == t {
      TrailOfUp(x);
      var i := x[|x| - 1];
      ChildTrail(tree, root, t, i);
      var k :| 0 <= k < |positions| && positions[k] == i;
      assert added[k] == x;
    }
  }

  lemma QueueNextMembers(tree: Tree, root: string, done: set<Trail>, trails: seq<Trail>, positions: seq<nat>, x: Trail)
    requires QueueOk(tree, root, done, trails) && trails != [] && Located(tree, root, trails[0])
    requires IsChildren(tree, root, trails[0], positions)
    ensures var done' := done + {trails[0]};
            x in trails[1..] + Extended(trails[0], positions) <==>
              FolderTrail(tree, root, x) && Reached(done', x) && x !in done'
  {
    hide Located, FolderTrail, IsChildren;
    var t := trails[0];
    assert t in trails;
    ExtendedAreTheChildren(tree, root, t, positions, x);
    assert x in trails <==> x == t || x in trails[1..];
    assert x in trails[1..] ==> x != t;
    if x != [] { assert |Up(x)| < |x|; }
  }

  lemma QueueNextDistinct(tree: Tree, root: string, done: set<Trail>, trails: seq<Trail>, positions: seq<nat>,
      j: nat, k: nat)
    requires QueueOk(tree, root, done, trails) && trails != [] && Located(tree, root, trails[0])
    requires IsChildren(tree, root, trails[0], positions)
    requires j < k < |trails| - 1 + |positions|
    ensures (trails[1..] + Extended(trails[0], positions))[j] != (trails[1..] + Extended(trails[0], positions))[k]
  {
    hide Located, FolderTrail, FolderAt;
    var t, added := trails[0], Extended(trails[0], positions);
    var n := |trails| - 1;
    if k >= n {
      var b := k - n;
      assert added[b] == t + [positions[b]] && added[b] in added;
      ExtendedAreTheChildren(tree, root, t, positions, added[b]);
      if j >= n {
        assert added[j - n][|t|] == positions[j - n] && added[b][|t|] == positions[b];
      } else {
        assert trails[j + 1] in trails && t in trails;
      }
    }
  }

  lemma QueueNext(tree: Tree, root: string, done: set<Trail>, trails: seq<Trail>, positions: seq<nat>)
    requires QueueOk(tree, root, done, trails) && trails != [] && Located(tree, root, trails[0])
    requires IsChildren(tree, root, trails[0], positions)
    ensures QueueOk(tree, root, done + {trails[0]}, trails[1..] + Extended(trails[0], positions))
  {
    hide Located, FolderTrail, IsChildren;
    var trails' := trails[1..] + Extended(trails[0], positions);
    forall x: Trail
      ensures x in trails' <==> FolderTrail(tree, root, x) && Reached(done + {trails[0]}, x) && x !in done + {trails[0]}
    {
      QueueNextMembers(tree, root, done, trails, positions, x);
    }
    forall j, k | 0 <= j < k < |trails'| ensures trails'[j] != trails'[k] {
      QueueNextDistinct(tree, root, done, trails, positions, j, k);
    }
    assert trails[0] in trails;
  }

  lemma EntriesNext(tree: Tree, root: string, t: Trail, positions: seq<nat>)
    requires Located(tree, root, t) && IsChildren(tree, root, t, positions)
    ensures EntriesOk(tree, root, Extended(t, positions), Entries(tree, PlaceOf(tree, root, t), positions))
  {
    hide IsChildren, Located, ChildPlace, PlaceOf;
    assert forall k :: 0 <= k < |positions| ==> FolderAt(tree, PlaceOf(tree, root, t), positions[k]) by {
      ChildrenAre(tree, root, t, positions);
    }
    EntriesAt(tree, PlaceOf(tree, root, t), positions);
    forall k | 0 <= k < |positions| ensures Located(tree, root, t + [positions[k]]) {
      ChildTrail(tree, root, t, positions[k]);
    }
    forall k | 0 <= k < |positions|
      ensures PlaceOf(tree, root, t + [positions[k]]) == ChildPlace(tree, PlaceOf(tree, root, t), positions[k]).value
    {
      ChildTrail(tree, root, t, positions[k]);
    }
  }

  lemma ChildrenAre(tree: Tree, root: string, t: Trail, positions: seq<nat>)
    requires Located(tree, root, t) && IsChildren(tree, root, t, positions)
    ensures forall k :: 0 <= k < |positions| ==> FolderAt(tree, PlaceOf(tree, root, t), positions[k])
  {
    hide FolderAt;
    assert forall k :: 0 <= k < |positions| ==> positions[k] in positions;
  }

  lemma {:induction false} EntriesAt(tree: Tree, parent: Place, positions: seq<nat>)
    requires forall k :: 0 <= k < |positions| ==> ChildPlace(tree, parent, positions[k]).Some?
    ensures |Entries(tree, parent, positions)| == |positions|
    ensures forall k :: 0 <= k < |positions| ==>
              var place := ChildPlace(tree, parent, positions[k]).value;
                  Entries(tree, parent, positions)[k] == (place.id, place.path)
  {
    hide ChildPlace;
    if positions != [] { EntriesAt(tree, parent, positions[..|positions| - 1]); }
  }

  /** The located children of one folder are in its map. */
  lemma ChildHolds(tree: Tree, root: string, t: Trail, n: nat, i: nat)
    requires IsTree(tree, root) && Located(tree, root, t) && Located(tree, root, t + [i])
    requires ChildPlace(tree, PlaceOf(tree, root, t), i).Some? ==> i < n
    ensures Holds(tree, root, ChildMap(tree, PlaceOf(tree, root, t), n), t + [i])
  {
    ChildMapMeaning(tree, root, t, PlaceOf(tree, root, t), n);
    ChildTrail(tree, root, t, i);
    hide IsTree, ChildPlace, ChildMap, Located, PlaceOf;
  }

  ghost predicate IsPathBelow(tree: Tree, root: string, up: set<Trail>, p: RelativePath) {
    exists x: Trail :: x != [] && Located(tree, root, x) && Up(x) in up && PlaceOf(tree, root, x).path == p
  }

  lemma ChildPathIsBelow(tree: Tree, root: string, t: Trail, n: nat, p: RelativePath)
    requires IsTree(tree, root) && Located(tree, root, t) && p in ChildMap(tree, PlaceOf(tree, root, t), n)
    ensures IsPathBelow(tree, root, {t}, p)
  {
    hide IsTree, ChildPlace, ChildMap, Located, PlaceOf;
    var i := ChildOfPath(tree, PlaceOf(tree, root, t), n, p);
    ChildTrail(tree, root, t, i);
    assert t + [i] != [];
  }

  lemma ResultNextHolds(tree: Tree, root: string, done: set<Trail>, t: Trail, result: map<RelativePath, DriveFile>,
      n: nat, x: Trail)
    requires IsTree(tree, root) && ResultOk(tree, root, done, result) && Located(tree, root, t)
    requires forall i: nat :: ChildPlace(tree, PlaceOf(tree, root, t), i).Some? ==> i < n
    requires x != [] && Located(tree, root, x) && Up(x) in done + {t}
    ensures Holds(tree, root, result + ChildMap(tree, PlaceOf(tree, root, t), n), x)
  {
    hide IsTree, ChildPlace, ChildMap, Located, PlaceOf;
    if Up(x) == t {
      TrailOfUp(x);
      ChildHolds(tree, root, t, n, x[|x| - 1]);
    } else {
      assert Holds(tree, root, result, x);
      NotAChild(tree, root, t, n, x);
    }
  }

  lemma ResultNext(tree: Tree, root: string, done: set<Trail>, t: Trail, result: map<RelativePath, DriveFile>, n: nat)
    requires IsTree(tree, root) && ResultOk(tree, root, done, result) && Located(tree, root, t)
    requires forall i: nat :: ChildPlace(tree, PlaceOf(tree, root, t), i).Some? ==> i < n
    ensures ResultOk(tree, root, done + {t}, result + ChildMap(tree, PlaceOf(tree, root, t), n))
  {
    hide IsTree, ChildPlace, ChildMap, Located, PlaceOf, Holds;
    var children, done' := ChildMap(tree, PlaceOf(tree, root, t), n), done + {t};
    forall x | x != [] && Located(tree, root, x) && Up(x) in done' ensures Holds(tree, root, result + children, x) {
      ResultNextHolds(tree, root, done, t, result, n, x);
    }
    forall p | p in result + children ensures IsPathBelow(tree, root, done', p) {
      if p in children {
        ChildPathIsBelow(tree, root, t, n, p);
        PathBelowMore(tree, root, {t}, done', p);
      } else {
        PathBelowMore(tree, root, done, done', p);
      }
    }
  }

  lemma PathBelowMore(tree: Tree, root: string, a: set<Trail>, b: set<Trail>, p: RelativePath)
    requires a <= b && IsPathBelow(tree, root, a, p)
    ensures IsPathBelow(tree, root, b, p)
  {
    hide Located, PlaceOf;
    var x: Trail :| x != [] && Located(tree, root, x) && Up(x) in a && PlaceOf(tree, root, x).path == p;
    assert Up(x) in b;
  }

  /** An object outside a folder has a path that no child of the folder has. */
  lemma NotAChild(tree: Tree, root: string, t: Trail, n: nat, x: Trail)
    requires IsTree(tree, root) && Located(tree, root, t) && x != [] && Located(tree, root, x) && Up(x) != t
    ensures PlaceOf(tree, root, x).path !in ChildMap(tree, PlaceOf(tree, root, t), n)
  {
    var parent := PlaceOf(tree, root, t);
    hide IsTree, ChildPlace, ChildMap, Locate;
    if PlaceOf(tree, root, x).path in ChildMap(tree, parent, n) {
      var i := ChildOfPath(tree, parent, n, PlaceOf(tree, root, x).path);
      ChildTrail(tree, root, t, i);
      assert PlaceOf(tree, root, t + [i]).path == PlaceOf(tree, root, x).path;
      SamePathSameTrail(tree, root, t + [i], x);
    }
  }

  lemma SamePathSameTrail(tree: Tree, root: string, a: Trail, b: Trail)
    requires IsTree(tree, root) && Located(tree, root, a) && Located(tree, root, b)
    requires PlaceOf(tree, root, a).path == PlaceOf(tree, root, b).path
    ensures a == b
  {
    hide IsTree, Locate;
    PathsAreDistinct(tree, root, a, b);
  }

  // -------------------------------------------------------------------- the main loop

  lemma FolderIdInTree(tree: Tree, root: string, t: Trail)
    requires IsTree(tree, root) && FolderTrail(tree, root, t)
    ensures PlaceOf(tree, root, t).id in tree
  {
    hide ChildPlace, CleanName, DistinctIds, NamesIn;
    if t != [] {
      LocatedIsNormal(tree, root, Up(t));
      ChildMeaning(tree, root, Locate(tree, root, Up(t)).value, t[|t| - 1]);
    }
  }

  /** When nothing waits, every folder is done. */
  lemma {:induction false} EverythingIsDone(tree: Tree, root: string, done: set<Trail>, t: Trail)
    requires IsTree(tree, root) && QueueOk(tree, root, done, []) && FolderTrail(tree, root, t)
    ensures t in done
  {
    if t != [] {
      UpIsFolder(tree, root, t);
      EverythingIsDone(tree, root, done, Up(t));
    }
    assert t !in [];
  }

  lemma UpIsFolder(tree: Tree, root: string, t: Trail)
    requires t != [] && Located(tree, root, t)
    ensures FolderTrail(tree, root, Up(t))
  {
    hide NamesIn, IsSafeNonEmpty;
  }

  /** The folder ids not yet listed. */
  ghost predicate RemainingOk(tree: Tree, root: string, done: set<Trail>, remaining: set<string>) {
    forall t :: FolderTrail(tree, root, t) && t !in done ==> PlaceOf(tree, root, t).id in remaining
  }

  lemma RemainingNext(tree: Tree, root: string, done: set<Trail>, remaining: set<string>, t: Trail)
    requires IsTree(tree, root) && RemainingOk(tree, root, done, remaining) && FolderTrail(tree, root, t)
    ensures RemainingOk(tree, root, done + {t}, remaining - {PlaceOf(tree, root, t).id})
  {
    hide IsTree, Locate;
    forall x | FolderTrail(tree, root, x) && x !in done + {t}
      ensures PlaceOf(tree, root, x).id in remaining - {PlaceOf(tree, root, t).id}
    {
      if PlaceOf(tree, root, x).id == PlaceOf(tree, root, t).id { IdsAreDistinct(tree, root, x, t); }
    }
  }

  /** The state between two folders. */
  ghost predicate Walking(
    tree: Tree, root: string, done: set<Trail>, trails: seq<Trail>, remaining: set<string>,
    queue: seq<(string, RelativePath)>,
    result: map<RelativePath, DriveFile>)
  {
    && QueueOk(tree, root, done, trails) && EntriesOk(tree, root, trails, queue)
    && ResultOk(tree, root, done, result) && RemainingOk(tree, root, done, remaining)
  }

  lemma WalkStarts(tree: Tree, root: string)
    requires IsTree(tree, root)
    ensures Walking(tree, root, {}, [[]], tree.Keys, [(root, "")], map[])
  {
    hide IsTree, ChildPlace;
    var trails: seq<Trail> := [[]];
    forall t: Trail ensures t in trails <==> FolderTrail(tree, root, t) && Reached({}, t) && t !in {} {
      assert trails[0] == [];
    }
    forall t | FolderTrail(tree, root, t) ensures PlaceOf(tree, root, t).id in tree.Keys {
      FolderIdInTree(tree, root, t);
    }
  }

  lemma WalkNext(
    tree: Tree, root: string, done: set<Trail>, trails: seq<Trail>, remaining: set<string>,
    queue: seq<(string, RelativePath)>,
    result: map<RelativePath, DriveFile>)
    requires IsTree(tree, root) && Walking(tree, root, done, trails, remaining, queue, result) && queue != []
    ensures trails != [] && FolderTrail(tree, root, trails[0])
    ensures var t := trails[0];
            var parent := PlaceOf(tree, root, t);
            && queue[0] == (parent.id, parent.path) && parent.id in remaining && parent.id in tree && t !in done
            && var n := |NamesIn(tree[parent.id])|;
               var so := ListedUpTo(tree, parent, result, n);
               Walking(tree, root, done + {t}, trails[1..] + Extended(t, ChildFolders(tree, parent, n)),
                   remaining - {parent.id},
                       queue[1..] + so.1, so.0)
  {
    hide IsTree, Located, FolderTrail, PlaceOf, ResultOk, RemainingOk, NamesIn, Entries, ChildMap, ChildFolders,
      ChildPlace, Extended;
    var t := trails[0];
    assert t in trails;
    FolderIsLocated(tree, root, t);
    FolderIdInTree(tree, root, t);
    var parent := PlaceOf(tree, root, t);
    var n := |NamesIn(tree[parent.id])|;
    forall i: nat | ChildPlace(tree, parent, i).Some? ensures i < n { ChildInRange(tree, parent, i); }
    ResultNext(tree, root, done, t, result, n);
    RemainingNext(tree, root, done, remaining, t);
    RemainingHas(tree, root, done, remaining, t);
    ChildFoldersAreChildren(tree, root, t, n);
    QueueNext(tree, root, done, trails, ChildFolders(tree, parent, n));
    EntriesNext(tree, root, t, ChildFolders(tree, parent, n));
    EntriesJoin(tree, root, trails, queue, Extended(t, ChildFolders(tree, parent, n)),
        Entries(tree, parent, ChildFolders(tree, parent, n)));
  }

  lemma FolderIsLocated(tree: Tree, root: string, t: Trail)
    requires FolderTrail(tree, root, t)
    ensures Located(tree, root, t)
  {
  }

  lemma RemainingHas(tree: Tree, root: string, done: set<Trail>, remaining: set<string>, t: Trail)
    requires RemainingOk(tree, root, done, remaining) && FolderTrail(tree, root, t) && t !in done
    ensures PlaceOf(tree, root, t).id in remaining
  {
  }

  lemma ChildFoldersAreChildren(tree: Tree, root: string, t: Trail, n: nat)
    requires Located(tree, root, t)
    requires forall i: nat :: ChildPlace(tree, PlaceOf(tree, root, t), i).Some? ==> i < n
    ensures IsChildren(tree, root, t, ChildFolders(tree, PlaceOf(tree, root, t), n))
  {
    hide ChildPlace, Locate;
    ChildFoldersMeaning(tree, PlaceOf(tree, root, t), n);
  }

  lemma EntriesJoin(
    tree: Tree, root: string, trails: seq<Trail>, queue: seq<(string, RelativePath)>, added: seq<Trail>,
    entries: seq<(string, RelativePath)>)
    requires EntriesOk(tree, root, trails, queue) && trails != [] && EntriesOk(tree, root, added, entries)
    ensures EntriesOk(tree, root, trails[1..] + added, queue[1..] + entries)
  {
    hide Located, PlaceOf;
    var a, b := trails[1..] + added, queue[1..] + entries;
    var n := |trails| - 1;
    forall k | 0 <= k < |a|
      ensures Located(tree, root, a[k]) && b[k] == (PlaceOf(tree, root, a[k]).id, PlaceOf(tree, root, a[k]).path)
    {
      if k < n {
        assert a[k] == trails[k + 1] && b[k] == queue[k + 1];
      } else {
        assert a[k] == added[k - n] && b[k] == entries[k - n];
      }
    }
  }

  lemma WalkEnds(tree: Tree, root: string, done: set<Trail>, trails: seq<Trail>, remaining: set<string>,
      result: map<RelativePath, DriveFile>)
    requires IsTree(tree, root) && Walking(tree, root, done, trails, remaining, [], result)
    ensures IsListing(tree, root, result)
  {
    hide IsTree, Located, FolderTrail, PlaceOf, Holds;
    assert trails == [];
    forall t | t != [] && Located(tree, root, t) ensures Holds(tree, root, result, t) {
      UpIsFolder(tree, root, t);
      EverythingIsDone(tree, root, done, Up(t));
    }
  }

  /** The files of one folder, sorted and named. */
  method NamesOfFolder(files: seq<DriveFile>) returns (named: seq<Named>)
    ensures named == NamesIn(files)
  {
    named := LocalNamesInAssignmentOrder(Sorted(files));
  }

  lemma FolderPlace(tree: Tree, root: string, t: Trail)
    requires FolderTrail(tree, root, t)
    ensures PlaceOf(tree, root, t).IsFolder()
  {
  }

  /** One turn of the main loop. */
  method WalkFolder(
    tree: Tree, root: string, ghost done: set<Trail>, ghost trails: seq<Trail>, ghost remaining: set<string>,
    queue: seq<(string, RelativePath)>, result: map<RelativePath, DriveFile>)
    returns (ghost done': set<Trail>, ghost trails': seq<Trail>, ghost remaining': set<string>,
             queue': seq<(string, RelativePath)>, result': map<RelativePath, DriveFile>)
    requires IsTree(tree, root) && Walking(tree, root, done, trails, remaining, queue, result) && queue != []
    ensures Walking(tree, root, done', trails', remaining', queue', result')
    ensures remaining' < remaining
  {
    hide Walking, IsTree, NamesIn, Located, FolderTrail, PlaceOf, ListedUpTo, Holds, ChildFolders, Extended, AddAll,
      Place.IsFolder;
    WalkNext(tree, root, done, trails, remaining, queue, result);
    ghost var t := trails[0];
    FolderIsLocated(tree, root, t);
    FolderPlace(tree, root, t);
    ghost var parent := PlaceOf(tree, root, t);
    ghost var n := |NamesIn(tree[parent.id])|;
    AddAllIsChildren(tree, parent, result, n);
    assert NamesIn(tree[parent.id])[..n] == NamesIn(tree[parent.id]);
    var (currentId, prefix) := queue[0];
    var named := NamesOfFolder(tree[currentId]);
    var listed, folders := ListFolder(named, prefix, result);
    assert (listed, folders) == ListedUpTo(tree, parent, result, n);
    done', remaining' := done + {t}, remaining - {parent.id};
    trails' := trails[1..] + Extended(t, ChildFolders(tree, parent, n));
    queue', result' := queue[1..] + folders, listed;
  }

  /**
   `list_all_files`: terminates, lists every located object at its own path (see
   `PathsAreDistinct`), and lists nothing else.
  */
  method ListAllFiles(tree: Tree, root: string) returns (result: map<RelativePath, DriveFile>)
    requires IsTree(tree, root)
    ensures IsListing(tree, root, result)
  {
    result := map[];
    var queue: seq<(string, RelativePath)> := [(root, "")];
    ghost var done: set<Trail>, trails: seq<Trail>, remaining := {}, [[]], tree.Keys;
    WalkStarts(tree, root);
    hide Walking, IsTree, Located, PlaceOf, Holds;
    while queue != []
      invariant Walking(tree, root, done, trails, remaining, queue, result)
      decreases remaining
    {
      done, trails, remaining, queue, result := WalkFolder(tree, root, done, trails, remaining, queue, result);
    }
    WalkEnds(tree, root, done, trails, remaining, result);
  }

  // ----------------------------------------------------------------- return order

  /** What `ListAllFiles` returns for the tree. */
  ghost predicate IsListing(tree: Tree, root: string, result: map<RelativePath, DriveFile>) {
    && (forall t :: t != [] && Located(tree, root, t) ==> Holds(tree, root, result, t))
    && (forall p :: p in result ==> IsLocatedPath(tree, root, p))
  }

  ghost predicate IsLocatedPath(tree: Tree, root: string, p: RelativePath) {
    exists t :: t != [] && Located(tree, root, t) && PlaceOf(tree, root, t).path == p
  }

  /** The same files in every folder, in whatever order Drive returned them. */
  ghost predicate SameFiles(a: Tree, b: Tree) {
    a.Keys == b.Keys && forall p :: p in a ==> forall f :: f in a[p] <==> f in b[p]
  }

  lemma SameNamesInFolder(a: Tree, b: Tree, root: string, p: string)
    requires IsTree(a, root) && IsTree(b, root) && SameFiles(a, b) && p in a
    ensures p in b && NamesIn(a[p]) == NamesIn(b[p])
  {
    hide NamesIn, DistinctIds, CleanName;
    NamesForgetTheOrder(a[p], b[p]);
  }

  lemma SameChildPlace(a: Tree, b: Tree, root: string, parent: Place, i: nat)
    requires IsTree(a, root) && IsTree(b, root) && SameFiles(a, b)
    ensures ChildPlace(a, parent, i) == ChildPlace(b, parent, i)
  {
    hide NamesIn, IsSafeNonEmpty, IsTree, Normalize;
    if parent.id in a { SameNamesInFolder(a, b, root, parent.id); }
  }

  lemma {:induction false} SameFilesSamePlaces(a: Tree, b: Tree, root: string, t: Trail)
    requires IsTree(a, root) && IsTree(b, root) && SameFiles(a, b)
    ensures Locate(a, root, t) == Locate(b, root, t)
  {
    hide IsTree, SameFiles, ChildPlace;
    if t != [] {
      var up := t[..|t| - 1];
      SameFilesSamePlaces(a, b, root, up);
      if Locate(a, root, up).Some? {
        SameChildPlace(a, b, root, Locate(a, root, up).value, t[|t| - 1]);
      }
    }
  }

  lemma SameFilesSameRows(
    a: Tree, b: Tree, root: string, ra: map<RelativePath, DriveFile>, rb: map<RelativePath, DriveFile>, p: RelativePath)
    requires IsTree(a, root) && IsTree(b, root) && SameFiles(a, b)
    requires IsListing(a, root, ra) && IsListing(b, root, rb) && p in ra
    ensures p in rb && rb[p] == ra[p]
  {
    hide IsTree, SameFiles, Locate;
    assert IsLocatedPath(a, root, p);
    var t: Trail :| t != [] && Located(a, root, t) && PlaceOf(a, root, t).path == p;
    SameFilesSamePlaces(a, b, root, t);
    assert Holds(a, root, ra, t) && Holds(b, root, rb, t);
  }

  /** Two trees with the same files in every folder have the same listing. */
  lemma ListingForgetsTheOrder(
    a: Tree, b: Tree, root: string, ra: map<RelativePath, DriveFile>, rb: map<RelativePath, DriveFile>)
    requires IsTree(a, root) && IsTree(b, root) && SameFiles(a, b)
    requires IsListing(a, root, ra) && IsListing(b, root, rb)
    ensures ra == rb
  {
    hide IsTree, IsListing;
    assert SameFiles(b, a);
    hide SameFiles;
    forall p | p in ra ensures p in rb && rb[p] == ra[p] { SameFilesSameRows(a, b, root, ra, rb, p); }
    forall p | p in rb ensures p in ra { SameFilesSameRows(b, a, root, rb, ra, p); }
  }
}
