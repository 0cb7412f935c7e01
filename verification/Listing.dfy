/**
 The local names of the files of one Drive folder: sorted by name and id, plain files and
 folders choose first, Workspace exports follow, and a taken name gets the first free number.
*/
module Listing {
  import opened Text
  import opened Ordering
  import opened Paths
  import opened Records
  import opened Naming

  // ------------------------------------------------------------- names in a folder

  /** `dedupe_name_for_folder`. */
  function Dedupe(name: string, taken: set<string>): (r: string)
    ensures r !in taken
    ensures name !in taken ==> r == name
  {
    if name !in taken then name
    else
      var (stem, ext) := SplitFileName(name);
      Candidate(stem, ext, FirstFree(stem, ext, 2, taken))
  }

  method DedupeNameForFolder(name: string, chosen: map<string, string>) returns (r: string)
    ensures r == Dedupe(name, chosen.Keys)
  {
    if name !in chosen { return name; }
    var (stem, ext) := SplitFileName(name);
    r := FindFree(stem, ext, chosen.Keys);
  }

  type Named = (string, DriveFile)

  function NameSet(named: seq<Named>): (r: set<string>)
    ensures forall i :: 0 <= i < |named| ==> named[i].0 in r
  {
    if named == [] then {} else NameSet(named[..|named| - 1]) + {named[|named| - 1].0}
  }

  /** Names for `files` in this order, each avoiding those before. */
  function Assign(files: seq<DriveFile>): (r: seq<Named>)
    ensures |r| == |files| && forall i :: 0 <= i < |files| ==> r[i].1 == files[i]
  {
    if files == [] then []
    else
      var last := files[|files| - 1];
      var r := Assign(files[..|files| - 1]);
      r + [(Dedupe(SyncName(last), NameSet(r)), last)]
  }

  lemma AssignSnoc(files: seq<DriveFile>, last: DriveFile)
    ensures var r, one := Assign(files), (Dedupe(SyncName(last), NameSet(Assign(files))), last);
            Assign(files + [last]) == r + [one] && NameSet(r + [one]) == NameSet(r) + {one.0}
  {
    hide Dedupe, SyncName;
    var r, one := Assign(files), (Dedupe(SyncName(last), NameSet(Assign(files))), last);
    assert (files + [last])[..|files|] == files;
    assert (r + [one])[..|r|] == r;
  }

  predicate Exported(f: DriveFile) {
    ExportExtension(f.mimeType).Some?
  }

  function Plain(files: seq<DriveFile>): (r: seq<DriveFile>)
    ensures forall f :: f in r <==> f in files && !Exported(f)
  {
    if files == [] then []
    else
      var last := files[|files| - 1];
      Plain(files[..|files| - 1]) + if Exported(last) then [] else [last]
  }

  function Exports(files: seq<DriveFile>): (r: seq<DriveFile>)
    ensures forall f :: f in r <==> f in files && Exported(f)
  {
    if files == [] then []
    else
      var last := files[|files| - 1];
      Exports(files[..|files| - 1]) + if Exported(last) then [last] else []
  }

  /** Plain files and folders choose first, then the exports of Workspace files. */
  function LocalNames(files: seq<DriveFile>): seq<Named> {
    Assign(Plain(files) + Exports(files))
  }

  method SplitByExport(files: seq<DriveFile>) returns (plain: seq<DriveFile>, exported: seq<DriveFile>)
    ensures plain == Plain(files) && exported == Exports(files)
  {
    plain, exported := [], [];
    for i := 0 to |files|
      invariant plain == Plain(files[..i]) && exported == Exports(files[..i])
    {
      assert files[..i + 1][..i] == files[..i];
      if Exported(files[i]) {
        exported := exported + [files[i]];
      } else {
        plain := plain + [files[i]];
      }
    }
    assert files[..|files|] == files;
  }

  /** The names so far and the table of chosen names. */
  ghost predicate NamingSoFar(files: seq<DriveFile>, named: seq<Named>, chosen: map<string, string>) {
    named == Assign(files) && chosen.Keys == NameSet(named)
  }

  lemma NamingStarts()
    ensures NamingSoFar([], [], map[])
  {
  }

  lemma NamingNext(files: seq<DriveFile>, named: seq<Named>, chosen: map<string, string>, f: DriveFile)
    requires NamingSoFar(files, named, chosen)
    ensures var name := Dedupe(SyncName(f), chosen.Keys);
            NamingSoFar(files + [f], named + [(name, f)], chosen[name := f.id])
  {
    hide Dedupe, SyncName, Assign, NameSet;
    AssignSnoc(files, f);
  }

  method AssignNames(files: seq<DriveFile>) returns (named: seq<Named>)
    ensures named == Assign(files)
  {
    var chosen: map<string, string> := map[];
    named := [];
    NamingStarts();
    assert files[..0] == [];
    hide NamingSoFar, Dedupe, SyncName, Assign;
    for i := 0 to |files|
      invariant NamingSoFar(files[..i], named, chosen)
    {
      assert files[..i + 1] == files[..i] + [files[i]];
      NamingNext(files[..i], named, chosen, files[i]);
      var unique := DedupeNameForFolder(SyncName(files[i]), chosen);
      chosen := chosen[unique := files[i].id];
      named := named + [(unique, files[i])];
    }
    assert files[..|files|] == files;
    assert named == Assign(files) by { NamingEnds(files, named, chosen); }
  }

  lemma NamingEnds(files: seq<DriveFile>, named: seq<Named>, chosen: map<string, string>)
    requires NamingSoFar(files, named, chosen)
    ensures named == Assign(files)
  {
  }

  /** `local_names_in_assignment_order`. */
  method LocalNamesInAssignmentOrder(files: seq<DriveFile>) returns (named: seq<Named>)
    ensures named == LocalNames(files)
  {
    var plain, exported := SplitByExport(files);
    named := AssignNames(plain + exported);
  }

  /** Every file gets a name of its own. */
  lemma {:induction false} AssignedNamesAreDistinct(files: seq<DriveFile>)
    ensures forall i, j :: 0 <= i < j < |files| ==> Assign(files)[i].0 != Assign(files)[j].0
  {
    if files != [] { AssignedNamesAreDistinct(files[..|files| - 1]); }
  }

  lemma {:induction false} AssignPrefix(a: seq<DriveFile>, b: seq<DriveFile>)
    ensures Assign(a + b)[..|a|] == Assign(a)
  {
    hide Assign, Dedupe, SyncName, NameSet;
    if b == [] {
      assert a + b == a;
    } else {
      var init := b[..|b| - 1];
      AssignPrefix(a, init);
      assert a + b == (a + init) + [b[|b| - 1]];
      AssignSnoc(a + init, b[|b| - 1]);
    }
  }

  /** Workspace files never change the name of a plain file or folder. */
  lemma PlainNamesIgnoreExports(files: seq<DriveFile>, others: seq<DriveFile>)
    requires Plain(files) == Plain(others)
    ensures LocalNames(files)[..|Plain(files)|] == LocalNames(others)[..|Plain(files)|] == Assign(Plain(files))
  {
    AssignPrefix(Plain(files), Exports(files));
    AssignPrefix(Plain(others), Exports(others));
  }

  /** `r` is the name with the first number from 2 on that is not taken, before the extension. */
  ghost predicate IsNumbered(name: string, taken: set<string>, r: string) {
    exists stem, ext, n: nat ::
      && IsNameSplit(name, stem, ext) && n >= 2 && r == stem + " (" + NatToString(n) + ")" + ext && r !in taken
      && forall k: nat :: 2 <= k < n ==> stem + " (" + NatToString(k) + ")" + ext in taken
  }

  lemma DedupeMeaning(name: string, taken: set<string>)
    ensures var r := Dedupe(name, taken); if name !in taken then r == name else IsNumbered(name, taken, r)
  {
    hide NatToString;
    if name in taken {
      var (stem, ext) := SplitFileName(name);
      SplitFileNameMeaning(name);
      hide SplitFileName;
      var n := FirstFree(stem, ext, 2, taken);
      assert forall k: nat :: Candidate(stem, ext, k) == stem + " (" + NatToString(k) + ")" + ext;
    }
  }

  /** Each file in turn gets its own name when no file before has it, else a numbered one. */
  lemma {:induction false} AssignMeaning(files: seq<DriveFile>, i: nat)
    requires i < |files|
    ensures var name, taken := SyncName(files[i]), set k | 0 <= k < i :: Assign(files)[k].0;
            if name !in taken then Assign(files)[i].0 == name else IsNumbered(name, taken, Assign(files)[i].0)
  {
    hide Dedupe, SyncName, IsNumbered, Assign, NameSet;
    var init := files[..|files| - 1];
    AssignSnoc(init, files[|init|]);
    assert files == init + [files[|init|]];
    assert forall k :: 0 <= k < |init| ==> Assign(files)[k] == Assign(init)[k];
    if i < |init| {
      AssignMeaning(init, i);
      assert (set k | 0 <= k < i :: Assign(files)[k].0) == set k | 0 <= k < i :: Assign(init)[k].0;
    } else {
      NameSetMeaning(Assign(init));
      assert NameSet(Assign(init)) == set k | 0 <= k < i :: Assign(files)[k].0;
      DedupeMeaning(SyncName(files[i]), NameSet(Assign(init)));
    }
  }

  lemma {:induction false} NameSetMeaning(named: seq<Named>)
    ensures NameSet(named) == set k | 0 <= k < |named| :: named[k].0
  {
    if named != [] {
      NameSetMeaning(named[..|named| - 1]);
      assert forall k :: 0 <= k < |named| - 1 ==> named[..|named| - 1][k] == named[k];
    }
  }

  // ------------------------------------------------------------------ return order

  type Key = (string, string)

  function KeyOf(f: DriveFile): Key {
    (f.name, f.id)
  }

  predicate KeyLeq(a: Key, b: Key) {
    (a.0 != b.0 && StringLeq(a.0, b.0)) || (a.0 == b.0 && StringLeq(a.1, b.1))
  }

  /** The result of sorting by name, then id: the same files, strictly ascending. */
  ghost predicate IsSort(files: seq<DriveFile>, sorted: seq<DriveFile>) {
    && (forall f :: f in sorted <==> f in files)
    && (forall i, j :: 0 <= i < j < |sorted| ==>
         KeyLeq(KeyOf(sorted[i]), KeyOf(sorted[j])) && sorted[i].id != sorted[j].id)
  }

  lemma FirstIsSame(a: seq<DriveFile>, sortedA: seq<DriveFile>, sortedB: seq<DriveFile>)
    requires IsSort(a, sortedA) && IsSort(a, sortedB) && sortedA != []
    ensures sortedB != [] && sortedA[0] == sortedB[0]
  {
    assert sortedA[0] in sortedB;
    assert sortedB[0] in sortedA;
    var k :| 0 <= k < |sortedB| && sortedB[k] == sortedA[0];
    var m :| 0 <= m < |sortedA| && sortedA[m] == sortedB[0];
    assert k > 0 ==> KeyLeq(KeyOf(sortedB[0]), KeyOf(sortedB[k])) && sortedB[0].id != sortedB[k].id;
    assert m > 0 ==> KeyLeq(KeyOf(sortedA[0]), KeyOf(sortedA[m])) && sortedA[0].id != sortedA[m].id;
    StringOrderAt(KeyOf(sortedA[0]), KeyOf(sortedB[0]));
  }

  /** The names do not depend on the order in which Drive returned the files. */
  lemma {:induction false} SortingForgetsTheOrder(a: seq<DriveFile>, b: seq<DriveFile>, sortedA: seq<DriveFile>,
      sortedB: seq<DriveFile>)
    requires IsSort(a, sortedA) && IsSort(b, sortedB)
    requires forall f :: f in a <==> f in b
    ensures sortedA == sortedB && LocalNames(sortedA) == LocalNames(sortedB)
    decreases |sortedA|
  {
    hide LocalNames;
    assert IsSort(a, sortedB);
    if sortedA != [] {
      FirstIsSame(a, sortedA, sortedB);
      TailIsSort(a, sortedA);
      TailIsSort(b, sortedB);
      SortingForgetsTheOrder(sortedA[1..], sortedB[1..], sortedA[1..], sortedB[1..]);
      assert sortedA == [sortedA[0]] + sortedA[1..] && sortedB == [sortedB[0]] + sortedB[1..];
    } else if sortedB != [] {
      FirstIsSame(a, sortedB, sortedA);
    }
  }

  lemma StringOrderAt(a: Key, b: Key)
    ensures KeyLeq(a, b) && KeyLeq(b, a) ==> a == b
  {
    StringLeqTotal(a.0, b.0);
    StringLeqTotal(a.1, b.1);
  }

  lemma TailIsSort(files: seq<DriveFile>, sorted: seq<DriveFile>)
    requires IsSort(files, sorted) && sorted != []
    ensures IsSort(sorted[1..], sorted[1..])
    ensures forall f :: f in sorted[1..] <==> f in files && f != sorted[0]
  {
    forall f ensures f in sorted[1..] <==> f in files && f != sorted[0] {
      if f in files && f != sorted[0] {
        var i :| 0 <= i < |sorted| && sorted[i] == f;
        assert sorted[1..][i - 1] == f;
      }
      if f in sorted[1..] {
        var i :| 0 <= i < |sorted[1..]| && sorted[1..][i] == f;
        assert sorted[i + 1] == f;
      }
    }
  }

  ghost predicate DistinctIds(files: seq<DriveFile>) {
    forall i, j :: 0 <= i < j < |files| ==> files[i].id != files[j].id
  }

  function FileAt(files: seq<DriveFile>, key: Key): (f: DriveFile)
    requires exists i :: 0 <= i < |files| && KeyOf(files[i]) == key
    ensures f in files && KeyOf(f) == key
  {
    if KeyOf(files[0]) == key then files[0] else FileAt(files[1..], key)
  }

  lemma KeyOrder()
    ensures TotalOrder(KeyLeq)
  {
    StringOrder();
    hide StringLeq;
    assert forall a, b :: StringLeq(a, b) || StringLeq(b, a);
    assert forall a, b :: StringLeq(a, b) && StringLeq(b, a) ==> a == b;
    assert forall a, b, c :: StringLeq(a, b) && StringLeq(b, c) ==> StringLeq(a, c);
  }

  /** The sorted files of one folder. */
  function Sorted(files: seq<DriveFile>): (r: seq<DriveFile>)
    ensures forall f :: f in r ==> f in files
  {
    KeyOrder();
    var keys := Ascending(KeyLeq, set f | f in files :: KeyOf(f));
    seq(|keys|, i requires 0 <= i < |keys| => KeyIsThere(files, keys, i); FileAt(files, keys[i]))
  }

  lemma KeyIsThere(files: seq<DriveFile>, keys: seq<Key>, i: nat)
    requires i < |keys| && forall k :: k in keys ==> k in set f | f in files :: KeyOf(f)
    ensures exists j :: 0 <= j < |files| && KeyOf(files[j]) == keys[i]
  {
    assert keys[i] in keys;
    var f :| f in files && KeyOf(f) == keys[i];
    var j :| 0 <= j < |files| && files[j] == f;
  }

  lemma SortedAscends(files: seq<DriveFile>, i: nat, j: nat)
    requires DistinctIds(files) && i < j < |Sorted(files)|
    ensures KeyLeq(KeyOf(Sorted(files)[i]), KeyOf(Sorted(files)[j])) && Sorted(files)[i].id != Sorted(files)[j].id
  {
    KeyOrder();
    var set0 := set f | f in files :: KeyOf(f);
    var keys := Ascending(KeyLeq, set0);
    AscendingIsSorted(KeyLeq, set0);
    hide KeyLeq, TotalOrder, Ascending;
    var sorted := Sorted(files);
    assert KeyOf(sorted[i]) == keys[i] && KeyOf(sorted[j]) == keys[j] && keys[i] != keys[j];
    assert sorted[i] in files && sorted[j] in files;
  }

  lemma SortedHasAll(files: seq<DriveFile>, f: DriveFile)
    requires DistinctIds(files) && f in files
    ensures f in Sorted(files)
  {
    KeyOrder();
    var keys := Ascending(KeyLeq, set g | g in files :: KeyOf(g));
    hide KeyLeq, TotalOrder, Ascending;
    var sorted := Sorted(files);
    assert KeyOf(f) in keys;
    var i :| 0 <= i < |keys| && keys[i] == KeyOf(f);
    assert KeyOf(sorted[i]) == keys[i] && sorted[i] in files && sorted[i].id == f.id;
  }

  lemma SortedIsSort(files: seq<DriveFile>)
    requires DistinctIds(files)
    ensures IsSort(files, Sorted(files))
  {
    hide Sorted, KeyLeq, KeyOf, DistinctIds;
    var sorted := Sorted(files);
    forall i, j | 0 <= i < j < |sorted|
      ensures KeyLeq(KeyOf(sorted[i]), KeyOf(sorted[j])) && sorted[i].id != sorted[j].id
    {
      SortedAscends(files, i, j);
    }
    forall f | f in files ensures f in sorted { SortedHasAll(files, f); }
  }

  /** Ascending by name, then by id. */
  ghost predicate InOrder(files: seq<DriveFile>) {
    forall i, j :: 0 <= i < j < |files| ==>
      || (files[i].name != files[j].name && StringLeq(files[i].name, files[j].name))
      || (files[i].name == files[j].name && files[i].id != files[j].id && StringLeq(files[i].id, files[j].id))
  }

  lemma InOrderSnoc(files: seq<DriveFile>, last: DriveFile)
    requires InOrder(files)
    requires forall f :: f in files ==>
               || (f.name != last.name && StringLeq(f.name, last.name))
               || (f.name == last.name && f.id != last.id && StringLeq(f.id, last.id))
    ensures InOrder(files + [last])
  {
    hide StringLeq;
    var all := files + [last];
    forall i, j | 0 <= i < j < |all|
      ensures || (all[i].name != all[j].name && StringLeq(all[i].name, all[j].name))
              || (all[i].name == all[j].name && all[i].id != all[j].id && StringLeq(all[i].id, all[j].id))
    {
      assert all[i] == files[i] && all[i] in files;
    }
  }

  lemma {:induction false} PartsInOrder(files: seq<DriveFile>)
    requires InOrder(files)
    ensures InOrder(Plain(files)) && InOrder(Exports(files))
  {
    assert InOrder([]);
    hide StringLeq, InOrder;
    if files != [] {
      var init, last := files[..|files| - 1], files[|files| - 1];
      InOrderInit(files);
      PartsInOrder(init);
      InOrderSnoc(Plain(init), last);
      InOrderSnoc(Exports(init), last);
      assert Plain(init) + [] == Plain(init) && Exports(init) + [] == Exports(init);
    }
  }

  lemma InOrderInit(files: seq<DriveFile>)
    requires InOrder(files) && files != []
    ensures var (init, last) := (files[..|files| - 1], files[|files| - 1]);
            && InOrder(init)
            && forall f :: f in init ==>
                 || (f.name != last.name && StringLeq(f.name, last.name))
                 || (f.name == last.name && f.id != last.id && StringLeq(f.id, last.id))
  {
    hide StringLeq;
    assert forall i :: 0 <= i < |files| - 1 ==> files[..|files| - 1][i] == files[i];
  }

  lemma SortedInOrder(files: seq<DriveFile>)
    requires DistinctIds(files)
    ensures InOrder(Sorted(files))
  {
    SortedIsSort(files);
    hide Sorted, StringLeq;
  }

  lemma SortedSame(files: seq<DriveFile>)
    requires DistinctIds(files)
    ensures forall f :: f in Sorted(files) <==> f in files
  {
    hide Sorted, KeyLeq;
    SortedIsSort(files);
  }

  /**
   The order in which the files of a folder choose names: plain files and folders by name
   and id, then Workspace exports by name and id, and every file once.
  */
  lemma ChoosingOrder(files: seq<DriveFile>)
    requires DistinctIds(files)
    ensures exists plain, exported ::
              && LocalNames(Sorted(files)) == Assign(plain + exported) && InOrder(plain) && InOrder(exported)
              && (forall f :: f in plain <==> f in files && !Exported(f))
              && (forall f :: f in exported <==> f in files && Exported(f))
  {
    hide Sorted, Plain, Exports, InOrder, Assign, DistinctIds;
    SortedInOrder(files);
    SortedSame(files);
    PartsInOrder(Sorted(files));
    var plain, exported := Plain(Sorted(files)), Exports(Sorted(files));
    assert LocalNames(Sorted(files)) == Assign(plain + exported);
  }
}
