/** Creating the Drive folders that uploads need, parents before children. */
module Folders {
  import opened Wrappers
  import opened Text
  import opened Ordering
  import opened Paths

  // ------------------------------------------------------------------- ancestors

  function TrimSlashes(s: string): string {
    if s != "" && s[0] == '/' then TrimSlashes(s[1..])
    else if s != "" && s[|s| - 1] == '/' then TrimSlashes(s[..|s| - 1])
    else s
  }

  /** The directory part of a raw path. */
  function Parent(raw: string): string {
    match RSplitOnce(TrimSlashes(Normalize(raw)), '/')
    case None => ""
    case Some((prefix, _)) => TrimSlashes(prefix)
  }

  function NonEmpty(parts: seq<string>): seq<string> {
    if parts == [] then []
    else (if parts[0] == "" then [] else [parts[0]]) + NonEmpty(parts[1..])
  }

  /** The folder names above a raw path, outermost first. */
  function Segments(raw: string): seq<string> {
    NonEmpty(Split(Parent(raw), '/'))
  }

  /** A folder as the names on the way to it. */
  ghost predicate Names(segs: seq<string>) {
    forall i :: 0 <= i < |segs| ==> segs[i] != "" && Lacks(segs[i], '/')
  }

  function FolderPath(segs: seq<string>): string {
    Join(segs, '/')
  }

  function AncestorAt(segs: seq<string>, k: nat): string
    requires k <= |segs|
  {
    FolderPath(segs[..k])
  }

  /** `folder` contains, at some depth, the file of a raw path. */
  ghost predicate AncestorOf(folder: string, raw: string) {
    var segs := Segments(raw);
    exists k :: 1 <= k <= |segs| && folder == AncestorAt(segs, k)
  }

  ghost predicate Needed(folder: string, paths: seq<string>) {
    exists i :: 0 <= i < |paths| && AncestorOf(folder, paths[i])
  }

  lemma {:induction false} NonEmptyNames(parts: seq<string>)
    requires forall i :: 0 <= i < |parts| ==> Lacks(parts[i], '/')
    ensures Names(NonEmpty(parts))
  {
    if parts != [] { NonEmptyNames(parts[1..]); }
  }

  lemma SegmentsAreNames(raw: string)
    ensures Names(Segments(raw))
  {
    SplitPartsLack(Parent(raw), '/');
    NonEmptyNames(Split(Parent(raw), '/'));
  }

  // --------------------------------------------------------- structure of a folder

  function Depth(folder: string): nat {
    |Split(folder, '/')|
  }

  /** The parent of a folder, empty for a top-level one, and its own name. */
  function SplitFolder(folder: string): (string, string) {
    match RSplitOnce(folder, '/')
    case Some((parent, child)) => (parent, child)
    case None => ("", folder)
  }

  lemma FolderOfNames(segs: seq<string>)
    requires Names(segs) && segs != []
    ensures Depth(FolderPath(segs)) == |segs|
    ensures SplitFolder(FolderPath(segs)) == (FolderPath(segs[..|segs| - 1]), segs[|segs| - 1])
    ensures FolderPath(segs) != ""
  {
    SplitOfJoin(segs, '/');
    var n := |segs| - 1;
    var last := segs[n];
    assert segs == segs[..n] + [last];
    if n == 0 {
      assert FolderPath(segs) == last;
    } else {
      JoinSnoc(segs[..n], '/', last);
      RSplitOnceOf(FolderPath(segs[..n]), '/', last);
    }
  }

  lemma AncestorAtDepth(segs: seq<string>, k: nat)
    requires Names(segs) && 1 <= k <= |segs|
    ensures Depth(AncestorAt(segs, k)) == k && AncestorAt(segs, k) != "" && AncestorAt(segs, 0) == ""
    ensures SplitFolder(AncestorAt(segs, k)) == (AncestorAt(segs, k - 1), segs[k - 1])
    ensures AncestorAt(segs, k) == if k == 1 then segs[0] else AncestorAt(segs, k - 1) + "/" + segs[k - 1]
  {
    var upper := segs[..k];
    FolderOfNames(upper);
    assert upper[..k - 1] == segs[..k - 1];
    assert upper == segs[..k - 1] + [segs[k - 1]];
    hide Names, Depth, SplitFolder;
    if k > 1 { JoinSnoc(segs[..k - 1], '/', segs[k - 1]); } else { assert upper == [segs[0]]; }
  }

  /** An ancestor is at the top or below another ancestor, one level up. */
  lemma ParentIsAncestor(folder: string, raw: string)
    requires AncestorOf(folder, raw)
    ensures folder != ""
    ensures var parent := SplitFolder(folder).0;
            parent == "" || (AncestorOf(parent, raw) && Depth(parent) < Depth(folder))
  {
    SegmentsAreNames(raw);
    hide Segments, AncestorAt, Depth, SplitFolder, Names;
    var segs := Segments(raw);
    var k: nat :| 1 <= k <= |segs| && folder == AncestorAt(segs, k);
    AncestorAtDepth(segs, k);
    if k > 1 { AncestorAtDepth(segs, k - 1); }
  }

  // ------------------------------------------------------- collect_parent_folders

  function ShallowFirst(): (string, string) -> bool {
    (a: string, b: string) => Depth(a) < Depth(b) || (Depth(a) == Depth(b) && StringLeq(a, b))
  }

  lemma ShallowFirstIsTotal()
    ensures TotalOrder(ShallowFirst())
  {
    StringOrder();
    hide StringLeq, Depth;
    var leq := ShallowFirst();
    assert forall a, b :: StringLeq(a, b) || StringLeq(b, a);
    assert forall a, b :: StringLeq(a, b) && StringLeq(b, a) ==> a == b;
    assert forall a, b, c :: StringLeq(a, b) && StringLeq(b, c) ==> StringLeq(a, c);
    forall a, b, c | leq(a, b) && leq(b, c) ensures leq(a, c) {
    }
  }

  /** The prefixes of one path, collected segment by segment. */
  method CollectAncestors(raw: string, before: set<string>) returns (unique: set<string>)
    ensures forall f :: f in unique <==> f in before || AncestorOf(f, raw)
  {
    unique := before;
    var segs := Segments(raw);
    SegmentsAreNames(raw);
    var current := "";
    var k := 0;
    hide Segments, AncestorAt, Depth, SplitFolder, Names;
    while k < |segs|
      invariant 0 <= k <= |segs| && (k == 0 ==> current == "") && (k > 0 ==> current == AncestorAt(segs, k) != "")
      invariant forall f :: f in unique <==> f in before || exists j :: 1 <= j <= k && f == AncestorAt(segs, j)
    {
      AncestorAtDepth(segs, k + 1);
      if current == "" {
        current := segs[k];
      } else {
        current := current + "/" + segs[k];
      }
      k := k + 1;
      unique := unique + {current};
    }
  }

  /** `collect_parent_folders`: every ancestor once, shallower folders first. */
  method CollectParentFolders(paths: seq<string>) returns (ordered: seq<string>)
    ensures forall f :: f in ordered <==> Needed(f, paths)
    ensures StrictlyAscending(ShallowFirst(), ordered)
  {
    var unique: set<string> := {};
    var i := 0;
    while i < |paths|
      invariant 0 <= i <= |paths|
      invariant forall f :: f in unique <==> exists j :: 0 <= j < i && AncestorOf(f, paths[j])
    {
      unique := CollectAncestors(paths[i], unique);
      i := i + 1;
    }
    ShallowFirstIsTotal();
    ordered := Ascending(ShallowFirst(), unique);
    AscendingIsSorted(ShallowFirst(), unique);
  }

  /** The list is closed under parents, and each parent stands before its children. */
  lemma ParentsComeFirst(paths: seq<string>, ordered: seq<string>, i: nat)
    requires forall f :: f in ordered <==> Needed(f, paths)
    requires StrictlyAscending(ShallowFirst(), ordered)
    requires i < |ordered| && SplitFolder(ordered[i]).0 != ""
    ensures exists j :: 0 <= j < i && ordered[j] == SplitFolder(ordered[i]).0
  {
    hide AncestorOf, Depth, StringLeq, SplitFolder;
    var f, parent := ordered[i], SplitFolder(ordered[i]).0;
    assert f in ordered;
    var p :| 0 <= p < |paths| && AncestorOf(f, paths[p]);
    ParentIsAncestor(f, paths[p]);
    assert Needed(parent, paths);
    var j :| 0 <= j < |ordered| && ordered[j] == parent;
    assert i < j ==> ShallowFirst()(f, parent);
  }

  // ----------------------------------------------------- ensure_folder_hierarchy

  datatype FolderError = MissingParent(parent: string, folder: string) | Service(message: string)

  /** Drive folders by parent id and name; calls fail after `quota` of them. */
  class DriveFolders {
    var children: map<(string, string), string>
    var quota: nat
    var names: seq<string>

    constructor (children: map<(string, string), string>, quota: nat, names: seq<string>)
      ensures this.children == children
    {
      this.children, this.quota, this.names := children, quota, names;
    }

    method FindOrCreateFolder(name: string, parentId: string) returns (r: Result<string, FolderError>)
      modifies this
      ensures r.Ok? ==> children == old(children)[(parentId, name) := r.value]
      ensures r.Ok? && (parentId, name) in old(children) ==> children == old(children)
      ensures r.Err? ==> r.error.Service? && children == old(children)
      ensures r.Ok? <==> old(quota) > 0 && ((parentId, name) in old(children) || old(names) != [])
      ensures r.Ok? ==> quota == old(quota) - 1 && |names| + 1 >= |old(names)|
    {
      if quota == 0 { return Err(Service("request failed")); }
      quota := quota - 1;
      if (parentId, name) in children {
        assert children[(parentId, name) := children[(parentId, name)]] == children;
        return Ok(children[(parentId, name)]);
      }
      if names == [] { return Err(Service("no id in the response")); }
      var id := names[0];
      names := names[1..];
      children := children[(parentId, name) := id];
      r := Ok(id);
    }
  }

  function ParentId(all: map<string, string>, root: string, folder: string): Option<string> {
    var parent := SplitFolder(folder).0;
    if parent == "" then Some(root) else if parent in all then Some(all[parent]) else None
  }

  /** The Drive child that `folder` stands for is the one registered under its own parent. */
  ghost predicate UnderItsParent(all: map<string, string>, root: string, children: map<(string, string), string>,
      folder: string) {
    && folder in all && ParentId(all, root, folder).Some?
    && var key := (ParentId(all, root, folder).value, SplitFolder(folder).1);
       key in children && children[key] == all[folder]
  }

  ghost predicate AllUnderParents(
    all: map<string, string>, root: string, children: map<(string, string), string>, existing: map<string, string>)
  {
    forall f :: f in all && f !in existing ==> UnderItsParent(all, root, children, f)
  }

  lemma NothingNew(root: string, children: map<(string, string), string>, existing: map<string, string>)
    ensures AllUnderParents(existing, root, children, existing)
  {
  }

  lemma InsertedUnderParent(
    all: map<string, string>, root: string, children: map<(string, string), string>, existing: map<string, string>,
    children': map<(string, string), string>, rel: string, id: string)
    requires AllUnderParents(all, root, children, existing) && rel !in all
    requires ParentId(all, root, rel).Some?
    requires var key := (ParentId(all, root, rel).value, SplitFolder(rel).1);
             children' == children[key := id] && (key in children ==> children' == children)
    ensures AllUnderParents(all[rel := id], root, children', existing)
  {
    hide UnderItsParent, ParentId, SplitFolder;
    var all' := all[rel := id];
    forall f | f in all' && f !in existing ensures UnderItsParent(all', root, children', f) {
      if f == rel {
        SameParent(all, root, rel, id, rel);
        NewFolder(all', root, children', rel);
      } else {
        StaysUnder(all, root, children, children', rel, id, f);
      }
    }
  }

  lemma SameParent(all: map<string, string>, root: string, rel: string, id: string, f: string)
    requires rel !in all && ParentId(all, root, f).Some?
    ensures ParentId(all[rel := id], root, f) == ParentId(all, root, f)
  {
    hide SplitFolder;
  }

  lemma NewFolder(all: map<string, string>, root: string, children: map<(string, string), string>, rel: string)
    requires rel in all && ParentId(all, root, rel).Some?
    requires var key := (ParentId(all, root, rel).value, SplitFolder(rel).1);
        key in children && children[key] == all[rel]
    ensures UnderItsParent(all, root, children, rel)
  {
    hide ParentId, SplitFolder;
  }

  lemma StaysUnder(
    all: map<string, string>, root: string, children: map<(string, string), string>,
    children': map<(string, string), string>,
    rel: string, id: string, f: string)
    requires UnderItsParent(all, root, children, f) && rel !in all
    requires forall k :: k in children ==> k in children' && children'[k] == children[k]
    ensures UnderItsParent(all[rel := id], root, children', f)
  {
    SameParent(all, root, rel, id, f);
    hide ParentId, SplitFolder;
  }

  ghost function NeededFolders(paths: seq<string>): (r: set<string>)
    ensures forall f :: f in r <==> Needed(f, paths)
  {
    hide Segments, AncestorAt;
    set i, k | 0 <= i < |paths| && 1 <= k <= |Segments(paths[i])| :: AncestorAt(Segments(paths[i]), k)
  }

  /** The folders that have to be looked up or created: one request each. */
  ghost function Missing(paths: seq<string>, existing: map<string, string>): set<string> {
    NeededFolders(paths) - existing.Keys
  }

  lemma {:induction false} SubsetSize(a: set<string>, b: set<string>)
    requires a <= b
    ensures |a| <= |b| && (a != b ==> |a| < |b|)
  {
    if a != {} {
      var x :| x in a;
      SubsetSize(a - {x}, b - {x});
    } else if b != {} {
      var x :| x in b;
      assert |b| == |b - {x}| + 1;
    }
  }

  lemma InMissing(paths: seq<string>, existing: map<string, string>, done: set<string>, rel: string)
    requires Needed(rel, paths) && rel !in existing && rel !in done && done <= Missing(paths, existing)
    ensures done + {rel} <= Missing(paths, existing) && |done + {rel}| == |done| + 1 <= |Missing(paths, existing)|
  {
    hide Needed;
    SubsetSize(done + {rel}, Missing(paths, existing));
  }

  lemma MissingIsDone(
    paths: seq<string>, existing: map<string, string>, done: set<string>, all: map<string, string>)
    requires done <= Missing(paths, existing) && all.Keys == existing.Keys + done
    requires forall f :: Needed(f, paths) ==> f in all
    ensures done == Missing(paths, existing)
    ensures forall f :: f in all <==> f in existing || Needed(f, paths)
  {
    hide Needed;
  }

  /** The folders found or created so far, and the requests spent on them. */
  ghost predicate Ensuring(
    paths: seq<string>, existing: map<string, string>, root: string, all: map<string, string>, done: set<string>,
    children: map<(string, string), string>, quota: nat, names: nat, quota0: nat, names0: nat)
  {
    && (forall f :: f in existing ==> f in all && all[f] == existing[f])
    && all.Keys == existing.Keys + done && done <= Missing(paths, existing)
    && AllUnderParents(all, root, children, existing)
    && quota + |done| == quota0 && names + |done| >= names0
  }

  lemma EnsuringNext(
    paths: seq<string>, existing: map<string, string>, root: string, all: map<string, string>, done: set<string>,
    children: map<(string, string), string>, quota: nat, names: nat, quota0: nat, names0: nat,
    rel: string, id: string, children': map<(string, string), string>, names': nat)
    requires Ensuring(paths, existing, root, all, done, children, quota, names, quota0, names0)
    requires Needed(rel, paths) && rel !in all && quota > 0 && names' + 1 >= names
    requires ParentId(all, root, rel).Some?
    requires var key := (ParentId(all, root, rel).value, SplitFolder(rel).1);
             children' == children[key := id] && (key in children ==> children' == children)
    ensures Ensuring(paths, existing, root, all[rel := id], done + {rel}, children', quota - 1, names', quota0, names0)
  {
    hide Needed, SplitFolder, AllUnderParents, Missing, ParentId;
    InMissing(paths, existing, done, rel);
    KeysNext(existing, all, done, rel, id);
    InsertedUnderParent(all, root, children, existing, children', rel, id);
  }

  lemma KeysNext(existing: map<string, string>, all: map<string, string>, done: set<string>, rel: string, id: string)
    requires all.Keys == existing.Keys + done && rel !in all
    ensures all[rel := id].Keys == existing.Keys + (done + {rel}) && rel !in existing && rel !in done
  {
    assert rel !in existing.Keys + done;
  }

  /** Enough requests are left while a folder is missing. */
  lemma RequestsLeft(
    paths: seq<string>, existing: map<string, string>, root: string, all: map<string, string>, done: set<string>,
    children: map<(string, string), string>, quota: nat, names: nat, quota0: nat, names0: nat, rel: string)
    requires Ensuring(paths, existing, root, all, done, children, quota, names, quota0, names0)
    requires Needed(rel, paths) && rel !in all
    ensures |Missing(paths, existing)| <= quota0 ==> quota > 0
    ensures |Missing(paths, existing)| <= names0 ==> names > 0
  {
    hide Needed, AllUnderParents, Missing;
    InMissing(paths, existing, done, rel);
  }

  /** No registered child is lost or replaced. */
  ghost predicate ChildrenKept(before: map<(string, string), string>, after: map<(string, string), string>) {
    forall k :: k in before ==> k in after && after[k] == before[k]
  }

  lemma KeptOn(
    a: map<(string, string), string>, b: map<(string, string), string>, c: map<(string, string), string>)
    requires ChildrenKept(a, b) && ChildrenKept(b, c)
    ensures ChildrenKept(a, c)
  {
  }

  /** One missing folder below a parent that is there. */
  method EnsureFolder(
    drive: DriveFolders, paths: seq<string>, root: string, existing: map<string, string>, all: map<string, string>,
    rel: string, ghost done: set<string>, ghost quota0: nat, ghost names0: nat)
    returns (r: Result<map<string, string>, FolderError>, ghost done': set<string>)
    requires Ensuring(paths, existing, root, all, done, drive.children, drive.quota, |drive.names|, quota0, names0)
    requires Needed(rel, paths) && rel !in all && ParentId(all, root, rel).Some?
    modifies drive
    ensures r.Err? ==> r.error.Service?
    ensures |Missing(paths, existing)| <= quota0 && |Missing(paths, existing)| <= names0 ==> r.Ok?
    ensures r.Ok? ==>
              && Ensuring(paths, existing, root, r.value, done', drive.children, drive.quota, |drive.names|, quota0,
                          names0)
              && r.value.Keys == all.Keys + {rel}
    ensures ChildrenKept(old(drive.children), drive.children)
  {
    hide Needed, SplitFolder, AllUnderParents, Missing, Ensuring;
    done' := done;
    RequestsLeft(paths, existing, root, all, done, drive.children, drive.quota, |drive.names|, quota0, names0, rel);
    var (parent, name) := SplitFolder(rel);
    if parent != "" && parent !in all { return Err(MissingParent(parent, rel)), done; }
    var parentId := if parent == "" then root else all[parent];
    ghost var children, quota, names := drive.children, drive.quota, |drive.names|;
    var created := drive.FindOrCreateFolder(name, parentId);
    if created.Err? { return Err(created.error), done; }
    EnsuringNext(paths, existing, root, all, done, children, quota, names, quota0, names0, rel, created.value,
        drive.children, |drive.names|);
    r, done' := Ok(all[rel := created.value]), done + {rel};
  }

  ghost predicate Covered(needed: seq<string>, i: nat, all: map<string, string>) {
    i <= |needed| && forall f :: f in needed[..i] ==> f in all
  }

  lemma CoveredNext(needed: seq<string>, i: nat, all: map<string, string>, more: map<string, string>)
    requires Covered(needed, i, all) && i < |needed| && needed[i] in more && all.Keys <= more.Keys
    ensures Covered(needed, i + 1, more)
  {
    assert needed[..i + 1] == needed[..i] + [needed[i]];
  }

  lemma CoveredAll(needed: seq<string>, all: map<string, string>)
    requires Covered(needed, |needed|, all)
    ensures forall f :: f in needed ==> f in all
  {
    assert needed[..|needed|] == needed;
  }

  /** The needed folders, shallower first. */
  ghost predicate InCreationOrder(needed: seq<string>, paths: seq<string>) {
    (forall f :: f in needed <==> Needed(f, paths)) && StrictlyAscending(ShallowFirst(), needed)
  }

  /** The loop over the needed folders. */
  method EnsureAll(
    drive: DriveFolders, paths: seq<string>, needed: seq<string>, root: string, existing: map<string, string>)
    returns (r: Result<map<string, string>, FolderError>, ghost done: set<string>)
    requires InCreationOrder(needed, paths)
    modifies drive
    ensures r.Err? ==> r.error.Service?
    ensures |Missing(paths, existing)| <= old(drive.quota) && |Missing(paths, existing)| <= |old(drive.names)| ==> r.Ok?
    ensures r.Ok? ==>
              && (forall f :: f in needed ==> f in r.value)
              && Ensuring(paths, existing, root, r.value, done, drive.children, drive.quota, |drive.names|,
                          old(drive.quota), |old(drive.names)|)
    ensures ChildrenKept(old(drive.children), drive.children)
  {
    hide Needed, ShallowFirst, SplitFolder, AllUnderParents, Missing, ParentId, StrictlyAscending;
    var all := existing;
    done := {};
    ghost var quota0, names0 := drive.quota, |drive.names|;
    NothingNew(root, drive.children, existing);
    assert Ensuring(paths, existing, root, all, done, drive.children, drive.quota, |drive.names|, quota0, names0);
    assert ChildrenKept(drive.children, drive.children) && Covered(needed, 0, all);
    hide Ensuring, ChildrenKept, Covered, InCreationOrder;
    var i := 0;
    while i < |needed|
      invariant 0 <= i <= |needed| && Covered(needed, i, all)
      invariant Ensuring(paths, existing, root, all, done, drive.children, drive.quota, |drive.names|, quota0, names0)
      invariant ChildrenKept(old(drive.children), drive.children)
    {
      ghost var before := all;
      if needed[i] !in all {
        ParentIsThere(paths, needed, i, all, root);
        ghost var children := drive.children;
        var one;
        one, done := EnsureFolder(drive, paths, root, existing, all, needed[i], done, quota0, names0);
        KeptOn(old(drive.children), children, drive.children);
        if one.Err? { return Err(one.error), done; }
        all := one.value;
      }
      CoveredNext(needed, i, before, all);
      i := i + 1;
    }
    CoveredAll(needed, all);
    r := Ok(all);
  }

  /**
   `ensure_folder_hierarchy`: one request for each missing folder, and the only errors are
   those of the service.
  */
  method EnsureFolderHierarchy(drive: DriveFolders, paths: seq<string>, root: string, existing: map<string, string>)
    returns (r: Result<map<string, string>, FolderError>)
    modifies drive
    ensures r.Err? ==> r.error.Service?
    ensures |Missing(paths, existing)| <= old(drive.quota) && |Missing(paths, existing)| <= |old(drive.names)| ==> r.Ok?
    ensures r.Ok? ==> drive.quota + |Missing(paths, existing)| == old(drive.quota)
    ensures r.Ok? ==> forall f :: f in existing ==> f in r.value && r.value[f] == existing[f]
    ensures r.Ok? ==> forall f :: f in r.value <==> f in existing || Needed(f, paths)
    ensures r.Ok? ==> AllUnderParents(r.value, root, drive.children, existing)
    ensures ChildrenKept(old(drive.children), drive.children)
  {
    hide Needed, ShallowFirst, SplitFolder, AllUnderParents, Missing, ParentId, StrictlyAscending, Ensuring;
    var needed := CollectParentFolders(paths);
    ghost var done;
    r, done := EnsureAll(drive, paths, needed, root, existing);
    if r.Ok? {
      Ensured(paths, existing, root, r.value, done, drive.children, drive.quota, |drive.names|, old(drive.quota),
          |old(drive.names)|);
    }
  }

  lemma ParentIsThere(paths: seq<string>, needed: seq<string>, i: nat, all: map<string, string>, root: string)
    requires InCreationOrder(needed, paths) && i < |needed| && Covered(needed, i, all)
    ensures ParentId(all, root, needed[i]).Some? && Needed(needed[i], paths)
  {
    hide Needed, ShallowFirst, SplitFolder;
    if SplitFolder(needed[i]).0 != "" { ParentsComeFirst(paths, needed, i); }
  }

  lemma Ensured(
    paths: seq<string>, existing: map<string, string>, root: string, all: map<string, string>, done: set<string>,
    children: map<(string, string), string>, quota: nat, names: nat, quota0: nat, names0: nat)
    requires Ensuring(paths, existing, root, all, done, children, quota, names, quota0, names0)
    requires forall f :: Needed(f, paths) ==> f in all
    ensures done == Missing(paths, existing) && quota + |Missing(paths, existing)| == quota0
    ensures forall f :: f in existing ==> f in all && all[f] == existing[f]
    ensures forall f :: f in all <==> f in existing || Needed(f, paths)
    ensures AllUnderParents(all, root, children, existing)
  {
    hide Needed, AllUnderParents, Missing;
    MissingIsDone(paths, existing, done, all);
  }

  // -------------------------------------------------------- folders above a safe path

  lemma {:induction false} TrimsAround(a: string, core: string, b: string)
    requires (forall i :: 0 <= i < |a| ==> a[i] == '/') && (forall i :: 0 <= i < |b| ==> b[i] == '/')
    requires core != "" && core[0] != '/' && core[|core| - 1] != '/'
    ensures TrimSlashes(a + core + b) == core
    decreases |a| + |b|
  {
    var whole := a + core + b;
    if a != "" {
      assert whole[0] == '/' && whole[1..] == a[1..] + core + b;
      TrimsAround(a[1..], core, b);
    } else if b != "" {
      assert whole[0] == core[0] && whole[|whole| - 1] == '/' && whole[..|whole| - 1] == a + core + b[..|b| - 1];
      TrimsAround(a, core, b[..|b| - 1]);
    } else {
      assert whole == core;
    }
  }

  lemma {:induction false} AllNonEmpty(parts: seq<string>)
    requires forall i :: 0 <= i < |parts| ==> parts[i] != ""
    ensures NonEmpty(parts) == parts
  {
    if parts != [] { AllNonEmpty(parts[1..]); }
  }

  lemma SegmentsAreSafe(s: string)
    requires IsSafe(s)
    ensures s != "" ==> forall i :: 0 <= i < |Split(s, '/')| ==> Split(s, '/')[i] != ""
  {
    if s != "" {
      forall i | 0 <= i < |Split(s, '/')| ensures Split(s, '/')[i] != "" {
        assert Split(s, '/')[i] in Split(s, '/');
        assert SafeSegment(Split(s, '/')[i]);
      }
    }
  }

  /** The directory of a safe path and its segments. */
  lemma SafeParent(raw: string, path: string, a: string, b: string)
    requires IsSafeNonEmpty(path) && Normal(path) && Normalize(raw) == a + path + b
    requires (forall i :: 0 <= i < |a| ==> a[i] == '/') && (forall i :: 0 <= i < |b| ==> b[i] == '/')
    ensures var (dir, name) := SplitFolder(path);
            && Parent(raw) == dir && Segments(raw) == (if dir == "" then [] else Split(dir, '/'))
            && (dir != "" ==> path == dir + "/" + name) && (dir == "" ==> path == name)
            && Lacks(name, '/') && name != ""
  {
    hide IsSafeNonEmpty, TrimSlashes, SplitFolder, Split, Join, NonEmpty, Names, Normalize, RSplitOnce, Depth;
    SafeEnds(path);
    TrimsAround(a, path, b);
    var segs := Split(path, '/');
    SafeNames(path);
    SplitJoins(path, '/');
    FolderOfNames(segs);
    var dirSegs, name := segs[..|segs| - 1], segs[|segs| - 1];
    assert segs == dirSegs + [name];
    LastSegment(segs);
    if dirSegs == [] {
      JoinOfOne(name);
      assert segs == [name];
      TopLevel(raw, path);
    } else {
      BelowTop(raw, path, dirSegs, name);
    }
  }

  lemma SafeEnds(path: string)
    requires IsSafeNonEmpty(path)
    ensures path != "" && path[0] != '/' && path[|path| - 1] != '/'
  {
  }

  lemma SafeNames(path: string)
    requires IsSafeNonEmpty(path)
    ensures Names(Split(path, '/'))
  {
    SegmentsAreSafe(path);
    SplitPartsLack(path, '/');
  }

  lemma LastSegment(segs: seq<string>)
    requires Names(segs) && segs != []
    ensures Lacks(segs[|segs| - 1], '/') && segs[|segs| - 1] != "" && Names(segs[..|segs| - 1])
  {
  }

  lemma JoinOfOne(name: string)
    ensures Join([name], '/') == name
  {
  }

  lemma TopLevel(raw: string, path: string)
    requires TrimSlashes(Normalize(raw)) == path && Names([path])
    ensures Parent(raw) == "" && Segments(raw) == [] && SplitFolder(path) == ("", path)
  {
    assert Lacks([path][0], '/');
    assert RSplitOnce(path, '/').None?;
    assert Split("", '/') == [""];
    assert NonEmpty([""]) == NonEmpty([""][1..]) && NonEmpty([]) == [];
  }

  lemma BelowTop(raw: string, path: string, dirSegs: seq<string>, name: string)
    requires TrimSlashes(Normalize(raw)) == path && path == Join(dirSegs + [name], '/')
    requires Names(dirSegs) && dirSegs != [] && Lacks(name, '/')
    ensures var dir := FolderPath(dirSegs);
            && dir != "" && path == dir + "/" + name && SplitFolder(path) == (dir, name)
            && Parent(raw) == dir && Segments(raw) == Split(dir, '/')
  {
    var dir := FolderPath(dirSegs);
    JoinSnoc(dirSegs, '/', name);
    EndsAreNoSlash(dirSegs);
    RSplitOnceOf(dir, '/', name);
    hide RSplitOnce, Join, Normalize;
    TrimsAround("", dir, "");
    assert "" + dir + "" == dir;
    hide TrimSlashes;
    SplitOfJoin(dirSegs, '/');
    AllNonEmpty(dirSegs);
  }

  lemma EndsAreNoSlash(segs: seq<string>)
    requires Names(segs) && segs != []
    ensures var f := FolderPath(segs); f != "" && f[0] != '/' && f[|f| - 1] != '/'
  {
    JoinedEnds(segs);
  }

  lemma {:induction false} JoinAppend(a: seq<string>, b: seq<string>, c: char)
    requires a != [] && b != []
    ensures Join(a + b, c) == Join(a, c) + [c] + Join(b, c)
  {
    var whole := a + b;
    if |a| == 1 {
      assert whole[1..] == b;
    } else {
      assert whole[1..] == a[1..] + b;
      JoinAppend(a[1..], b, c);
    }
  }

  /** The segments of the directory of a safe path are those of the path without the last. */
  lemma DirectorySegments(raw: string, path: string, a: string, b: string)
    requires IsSafeNonEmpty(path) && Normal(path) && Normalize(raw) == a + path + b
    requires (forall i :: 0 <= i < |a| ==> a[i] == '/') && (forall i :: 0 <= i < |b| ==> b[i] == '/')
    ensures Segments(raw) == Split(path, '/')[..|Split(path, '/')| - 1]
  {
    SafeParent(raw, path, a, b);
    var (dir, name) := SplitFolder(path);
    hide IsSafeNonEmpty, SplitFolder, Normalize, Segments;
    NameIsOneSegment(name);
    if dir != "" {
      assert path == dir + ['/'] + name;
      SplitAppend(dir, '/', name, path);
      assert (Split(dir, '/') + [name])[..|Split(dir, '/')|] == Split(dir, '/');
    }
  }

  lemma NameIsOneSegment(name: string)
    requires Lacks(name, '/')
    ensures Split(name, '/') == [name]
  {
  }

  /**
   The folders of a safe path, however many slashes surround it, are the non-empty texts
   that it continues with a separator.
  */
  lemma FoldersOfPath(raw: string, path: string, a: string, b: string, folder: string)
    requires IsSafeNonEmpty(path) && Normal(path) && Normalize(raw) == a + path + b
    requires (forall i :: 0 <= i < |a| ==> a[i] == '/') && (forall i :: 0 <= i < |b| ==> b[i] == '/')
    ensures AncestorOf(folder, raw) <==> folder != "" && folder + "/" <= path
  {
    hide IsSafeNonEmpty, Normalize, Segments, Split, Join, Normal;
    DirectorySegments(raw, path, a, b);
    SafeNames(path);
    SplitJoins(path, '/');
    var all := Split(path, '/');
    if k :| 1 <= k <= |Segments(raw)| && folder == AncestorAt(Segments(raw), k) {
      assert Segments(raw)[..k] == all[..k];
      PrefixContinues(all, k);
    }
    if folder != "" && folder + "/" <= path {
      var k := PrefixIsFolder(path, folder);
      assert Segments(raw)[..k] == all[..k];
      assert folder == AncestorAt(Segments(raw), k);
    }
  }

  lemma PrefixContinues(all: seq<string>, k: nat)
    requires Names(all) && 1 <= k < |all|
    ensures FolderPath(all[..k]) != "" && FolderPath(all[..k]) + "/" <= FolderPath(all)
  {
    NamesPrefix(all, k);
    FolderOfNames(all[..k]);
    hide Join, Names;
    assert all == all[..k] + all[k..];
    JoinAppend(all[..k], all[k..], '/');
  }

  lemma PrefixIsFolder(path: string, folder: string) returns (k: nat)
    requires folder != "" && folder + "/" <= path
    ensures 1 <= k < |Split(path, '/')| && folder == FolderPath(Split(path, '/')[..k])
  {
    hide Split, Join;
    var rest := path[|folder| + 1..];
    assert path == folder + ['/'] + rest;
    SplitAppend(folder, '/', rest, path);
    SplitJoins(folder, '/');
    k := |Split(folder, '/')|;
    assert Split(path, '/')[..k] == Split(folder, '/');
  }

  lemma NamesPrefix(segs: seq<string>, k: nat)
    requires Names(segs) && k <= |segs|
    ensures Names(segs[..k])
  {
  }

  /** Shallower folders first, and folders of one depth in the order of their names. */
  lemma CreationOrder(paths: seq<string>, needed: seq<string>, i: nat, j: nat)
    requires InCreationOrder(needed, paths) && i < j < |needed|
    ensures var (a, b) := (Split(needed[i], '/'), Split(needed[j], '/'));
            |a| < |b| || (|a| == |b| && needed[i] != needed[j] && StringLeq(needed[i], needed[j]))
  {
    hide StringLeq, Needed;
  }
}
