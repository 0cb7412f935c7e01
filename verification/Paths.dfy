/**
 Relative paths: normalisation, the safety check, and the names given to conflict
 copies.
*/
module Paths {
  import opened Text

  /** A path with `/` separators only, as `RelativePath::from` makes it. */
  type RelativePath = string

  function Normalize(s: string): (r: RelativePath)
    ensures |r| == |s|
    ensures forall i :: 0 <= i < |s| ==> r[i] == if s[i] == '\\' then '/' else s[i]
  {
    if s == [] then [] else [if s[0] == '\\' then '/' else s[0]] + Normalize(s[1..])
  }

  predicate Normal(s: string) {
    Lacks(s, '\\')
  }

  lemma NormalizeNormal(s: string)
    ensures Normal(Normalize(s))
    ensures Normal(s) ==> Normalize(s) == s
  {
  }

  predicate IsAsciiAlphabetic(c: char) {
    'a' <= c <= 'z' || 'A' <= c <= 'Z'
  }

  predicate IsWindowsDrivePath(s: string) {
    |s| >= 2 && s[1] == ':' && IsAsciiAlphabetic(s[0])
  }

  predicate SafeSegment(segment: string) {
    segment != "" && segment != "." && segment != ".."
  }

  predicate IsSafe(s: string) {
    || s == ""
    || (&& '\0' !in s
        && s[0] != '/'
        && s[|s| - 1] != '/'
        && !IsWindowsDrivePath(s)
        && forall segment :: segment in Split(s, '/') ==> SafeSegment(segment))
  }

  predicate IsSafeNonEmpty(s: string) {
    s != "" && IsSafe(s)
  }

  // -------------------------------------------------------- file name surgery

  function SplitFileName(name: string): (r: (string, string))
    ensures name == r.0 + r.1
  {
    match RFind(name, '.')
    case Some(dot) => if dot > 0 then (name[..dot], name[dot..]) else (name, "")
    case None => (name, "")
  }

  /** The extension is the last dot and what follows; a leading dot does not start one. */
  predicate IsNameSplit(name: string, stem: string, ext: string) {
    && name == stem + ext
    && (ext == "" ==> stem == "" || Lacks(stem[1..], '.'))
    && (ext != "" ==> stem != "" && ext[0] == '.' && Lacks(ext[1..], '.'))
  }

  lemma SplitFileNameMeaning(name: string)
    ensures IsNameSplit(name, SplitFileName(name).0, SplitFileName(name).1)
  {
  }

  /** Directory (with its trailing `/`) and file name. */
  function SplitDir(path: string): (r: (string, string))
    ensures path == r.0 + r.1
    ensures Lacks(r.1, '/')
    ensures r.0 == "" || r.0[|r.0| - 1] == '/'
  {
    match RFind(path, '/')
    case Some(i) => (path[..i + 1], path[i + 1..])
    case None => ("", path)
  }

  /** The split at the last separator is the only one with such parts. */
  lemma SplitDirOf(dir: string, name: string)
    requires Lacks(name, '/') && (dir == "" || dir[|dir| - 1] == '/')
    ensures SplitDir(dir + name) == (dir, name)
  {
    hide RFind, SplitDir;
    var path := dir + name;
    var (d, n) := SplitDir(path);
    assert forall i :: |d| <= i < |path| ==> path[i] == n[i - |d|];
    assert forall i :: |dir| <= i < |path| ==> path[i] == name[i - |dir|];
    assert d != "" ==> path[|d| - 1] == d[|d| - 1];
    assert dir != "" ==> path[|dir| - 1] == dir[|dir| - 1];
    assert path[..|dir|] == dir && path[|dir|..] == name && path[..|d|] == d && path[|d|..] == n;
  }

  function ApplySuffixToFileName(name: string, suffix: string): string {
    SplitFileName(name).0 + suffix + SplitFileName(name).1
  }

  function PathWithSuffix(path: RelativePath, suffix: string): RelativePath {
    var (dir, file) := SplitDir(path);
    Normalize(dir + ApplySuffixToFileName(file, suffix))
  }

  // ------------------------------------------------- conflict copies are apart

  function CountOf(s: string, c: char): nat {
    if s == [] then 0 else (if s[0] == c then 1 else 0) + CountOf(s[1..], c)
  }

  lemma {:induction false} CountOfAppend(a: string, b: string, c: char)
    ensures CountOf(a + b, c) == CountOf(a, c) + CountOf(b, c)
  {
    if a == [] {
      assert a + b == b;
    } else {
      CountOfAppend(a[1..], b, c);
      assert (a + b)[1..] == a[1..] + b;
    }
  }

  lemma {:induction false} CountOfZero(s: string, c: char)
    ensures CountOf(s, c) == 0 <==> Lacks(s, c)
  {
    if s != [] {
      CountOfZero(s[1..], c);
      assert s == [s[0]] + s[1..];
    }
  }

  /** The dot at `i` is the last one of the file name. */
  predicate EndsInDotFreeName(path: string, i: nat)
    requires i < |path|
  {
    path[i] == '.' && Lacks(path[i + 1..], '.') && Lacks(path[i + 1..], '/')
  }

  /** A suffix lands between a head and an extension of the path. */
  datatype Cut = Cut(head: string, ext: string) {
    predicate Of(path: string) {
      && path == head + ext
      && (ext == "" ==> forall i :: 0 <= i < |path| && EndsInDotFreeName(path, i) ==> i == 0 || path[i - 1] == '/')
      && (ext != "" ==>
            ext[0] == '.' && Lacks(ext[1..], '.') && Lacks(ext[1..], '/') && head != "" && head[|head| - 1] != '/')
    }
  }

  function CutOf(path: string): Cut {
    var (dir, file) := SplitDir(path);
    var (stem, ext) := SplitFileName(file);
    Cut(dir + stem, ext)
  }

  lemma CutOfIsACut(path: string)
    ensures CutOf(path).Of(path)
  {
    hide RFind;
    var (dir, file) := SplitDir(path);
    if SplitFileName(file).1 == "" {
      CutWithoutExtension(path, dir, file);
    } else {
      CutAtExtension(path, dir, file);
    }
  }

  lemma CutWithoutExtension(path: string, dir: string, file: string)
    requires path == dir + file && SplitDir(path) == (dir, file) && SplitFileName(file).1 == ""
    ensures Cut(path, "").Of(path)
  {
    hide SplitDir;
    forall j | 0 <= j < |dir| ensures !Lacks(path[j..], '/') {
      assert path[j..][|dir| - 1 - j] == '/';
    }
    forall i | 0 <= i < |path| && EndsInDotFreeName(path, i)
      ensures i == 0 || path[i - 1] == '/'
    {
      if i >= |dir| {
        assert path[i + 1..] == file[i - |dir| + 1..];
        RFindUnique(file, '.', i - |dir|);
      }
    }
  }

  lemma CutAtExtension(path: string, dir: string, file: string)
    requires path == dir + file && Lacks(file, '/') && SplitFileName(file).1 != ""
    ensures Cut(dir + SplitFileName(file).0, SplitFileName(file).1).Of(path)
  {
    hide RFind;
    var (stem, ext) := SplitFileName(file);
    var dot := RFind(file, '.').value;
    assert ext[1..] == file[dot + 1..];
    assert stem[|stem| - 1] == file[dot - 1];
  }

  lemma PathWithSuffixCuts(path: RelativePath, suffix: string)
    requires Normal(path)
    ensures PathWithSuffix(path, suffix) == CutOf(path).head + Normalize(suffix) + CutOf(path).ext
  {
    var (dir, file) := SplitDir(path);
    var (stem, ext) := SplitFileName(file);
    hide SplitDir, SplitFileName, Normalize;
    assert dir + ApplySuffixToFileName(file, suffix) == dir + stem + suffix + ext;
    NormalizeMiddle(dir + stem, suffix, ext, path);
  }

  lemma NormalizeMiddle(head: string, suffix: string, ext: string, path: string)
    requires path == head + ext && Normal(path)
    ensures Normalize(head + suffix + ext) == head + Normalize(suffix) + ext
  {
    hide Normalize;
    var raw := head + suffix + ext;
    var goal := head + Normalize(suffix) + ext;
    var n := Normalize(raw);
    forall i | 0 <= i < |raw| ensures n[i] == goal[i] {
      assert i < |head| ==> raw[i] == path[i];
      assert i >= |head| + |suffix| ==> raw[i] == path[i - |suffix|];
    }
  }

  lemma SameExtension(r: string, a: string, ext1: string, b: string, ext2: string)
    requires r == a + ext1 == b + ext2
    requires ext1 != "" && ext1[0] == '.' && Lacks(ext1[1..], '.')
    requires ext2 != "" && ext2[0] == '.' && Lacks(ext2[1..], '.')
    ensures ext1 == ext2 && a == b
  {
    assert r[|a| + 1..] == ext1[1..] && r[|b| + 1..] == ext2[1..];
    RFindUnique(r, '.', |a|);
    RFindUnique(r, '.', |b|);
    assert r[..|a|] == a && r[|a|..] == ext1 && r[..|b|] == b && r[|b|..] == ext2;
  }

  lemma MiddleOf(head: string, ext: string, p2: string, s: string)
    requires head + s + ext == p2 + s
    ensures |head| <= |p2| && p2 == head + p2[|head|..] && p2[|head|..] + s == s + ext
  {
    var r := p2 + s;
    assert |p2| == |head| + |ext|;
    assert p2 == r[..|p2|] && head == r[..|head|];
    assert p2[|head|..] + s == r[|head|..];
  }

  /** A path that gets the name of a copy with an extension has one itself. */
  lemma LengthenedCutHasADot(p1: string, c1: Cut, p2: string, s: string)
    requires c1.Of(p1) && c1.ext != ""
    requires c1.head + s + c1.ext == p2 + s
    ensures exists i :: 0 < i < |p2| && EndsInDotFreeName(p2, i) && p2[i - 1] != '/'
  {
    MiddleOf(c1.head, c1.ext, p2, s);
    var y := p2[|c1.head|..];
    MiddleHasOneDot(y, s, c1.ext);
    hide Cut.Of;
    assert c1.head != "" && c1.head[|c1.head| - 1] != '/';
    DotAfter(c1.head, y, p2);
  }

  lemma DotAfter(head: string, y: string, p2: string)
    requires p2 == head + y && head != "" && head[|head| - 1] != '/'
    requires !Lacks(y, '.') && Lacks(y, '/')
    ensures exists i :: 0 < i < |p2| && EndsInDotFreeName(p2, i) && p2[i - 1] != '/'
  {
    var i := RFind(y, '.').value;
    var at := |head| + i;
    assert p2[at - 1] == if i == 0 then head[|head| - 1] else y[i - 1];
    assert p2[at + 1..] == y[i + 1..];
    assert EndsInDotFreeName(p2, at);
  }

  lemma MiddleHasOneDot(y: string, s: string, ext: string)
    requires y + s == s + ext
    requires ext != "" && ext[0] == '.' && Lacks(ext[1..], '.') && Lacks(ext[1..], '/')
    ensures !Lacks(y, '.') && Lacks(y, '/')
  {
    assert ext == ['.'] + ext[1..];
    CountOfAppend(y, s, '.');
    CountOfAppend(s, ext, '.');
    CountOfAppend(y, s, '/');
    CountOfAppend(s, ext, '/');
    CountOfZero(ext, '.');
    CountOfZero(ext, '/');
    CountOfZero(y, '.');
    CountOfZero(y, '/');
  }

  /** Copies of different files made with one suffix never share a path. */
  lemma PathWithSuffixInjective(p1: RelativePath, p2: RelativePath, suffix: string)
    requires Normal(p1) && Normal(p2)
    requires PathWithSuffix(p1, suffix) == PathWithSuffix(p2, suffix)
    ensures p1 == p2
  {
    hide Cut.Of, CutOf, PathWithSuffix;
    var s := Normalize(suffix);
    var c1, c2 := CutOf(p1), CutOf(p2);
    CutOfIsACut(p1);
    CutOfIsACut(p2);
    PathWithSuffixCuts(p1, suffix);
    PathWithSuffixCuts(p2, suffix);
    CutsAgree(p1, c1, p2, c2, s);
  }

  lemma CutsAgree(p1: string, c1: Cut, p2: string, c2: Cut, s: string)
    requires c1.Of(p1) && c2.Of(p2)
    requires c1.head + s + c1.ext == c2.head + s + c2.ext
    ensures p1 == p2
  {
    assert c1.ext == "" ==> c1.head == p1 && c1.head + s + c1.ext == p1 + s;
    assert c2.ext == "" ==> c2.head == p2 && c2.head + s + c2.ext == p2 + s;
    if c1.ext != "" && c2.ext != "" {
      SameExtension(c1.head + s + c1.ext, c1.head + s, c1.ext, c2.head + s, c2.ext);
      SameHead(c1.head, c2.head, s);
    } else if c1.ext != "" {
      LengthenedCutHasADot(p1, c1, p2, s);
    } else if c2.ext != "" {
      LengthenedCutHasADot(p2, c2, p1, s);
    } else {
      SameHead(p1, p2, s);
    }
  }

  lemma SameHead(a: string, b: string, s: string)
    requires a + s == b + s
    ensures a == b
  {
    assert a == (a + s)[..|a|] && b == (b + s)[..|b|];
  }

  lemma PathWithSuffixNeverOriginal(path: RelativePath, suffix: string)
    requires Normal(path) && suffix != ""
    ensures PathWithSuffix(path, suffix) != path
  {
    PathWithSuffixCuts(path, suffix);
    CutOfIsACut(path);
    assert |PathWithSuffix(path, suffix)| == |path| + |suffix|;
  }

  /** What a suffix must not contain for copies of safe paths to be safe. */
  predicate CleanSuffix(suffix: string) {
    Lacks(suffix, '/') && Lacks(suffix, '\\') && Lacks(suffix, '\0') && (suffix == "" || suffix[0] != ':')
  }

  lemma PathWithSuffixKeepsSafe(path: RelativePath, suffix: string)
    requires Normal(path) && IsSafeNonEmpty(path) && CleanSuffix(suffix)
    ensures IsSafeNonEmpty(PathWithSuffix(path, suffix))
  {
    hide IsSafeNonEmpty, CleanSuffix, ApplySuffixToFileName, Normalize;
    var (dir, file) := SplitDir(path);
    RenamedStaysSafe(dir, file, path, suffix);
    NormalizeNormal(dir + ApplySuffixToFileName(file, suffix));
  }

  lemma RenamedStaysSafe(dir: string, file: string, path: string, suffix: string)
    requires path == dir + file && Lacks(file, '/') && (dir == "" || dir[|dir| - 1] == '/')
    requires Normal(path) && IsSafeNonEmpty(path) && CleanSuffix(suffix)
    ensures var r := dir + ApplySuffixToFileName(file, suffix); IsSafeNonEmpty(r) && Normal(r)
  {
    hide ApplySuffixToFileName, Split, SafeSegment, IsWindowsDrivePath;
    var renamed := ApplySuffixToFileName(file, suffix);
    var r := dir + renamed;
    SafeFileName(dir, file);
    RenamedIsSegment(file, suffix);
    SegmentsStaySafe(dir, file, renamed);
    FirstCharsSurvive(dir, file, suffix);
    assert renamed != "" by { SafeSegmentNonEmpty(renamed); }
    assert r[|r| - 1] == renamed[|renamed| - 1];
  }

  lemma SafeSegmentNonEmpty(segment: string)
    requires SafeSegment(segment)
    ensures segment != ""
  {
  }

  lemma SegmentsStaySafe(dir: string, file: string, renamed: string)
    requires Lacks(file, '/') && Lacks(renamed, '/') && (dir == "" || dir[|dir| - 1] == '/')
    requires forall segment :: segment in Split(dir + file, '/') ==> SafeSegment(segment)
    requires SafeSegment(renamed)
    ensures forall segment :: segment in Split(dir + renamed, '/') ==> SafeSegment(segment)
  {
    LastSegment(dir, file);
    LastSegment(dir, renamed);
    hide Split, SafeSegment;
    var above := if dir == "" then [] else Split(dir[..|dir| - 1], '/');
    assert forall segment :: segment in above ==> segment in above + [file];
  }

  lemma SafeFileName(dir: string, file: string)
    requires Lacks(file, '/') && (dir == "" || dir[|dir| - 1] == '/')
    requires IsSafeNonEmpty(dir + file)
    ensures SafeSegment(file) && file != ""
  {
    LastSegment(dir, file);
    var parts := Split(dir + file, '/');
    assert parts[|parts| - 1] in parts;
  }

  /** The last segment of a path is its file name. */
  lemma LastSegment(dir: string, file: string)
    requires Lacks(file, '/') && (dir == "" || dir[|dir| - 1] == '/')
    ensures Split(dir + file, '/') == (if dir == "" then [] else Split(dir[..|dir| - 1], '/')) + [file]
  {
    if dir == "" {
      assert dir + file == file;
    } else {
      var parent := dir[..|dir| - 1];
      assert dir + file == parent + ['/'] + file;
      SplitAppend(parent, '/', file, dir + file);
    }
  }

  lemma RenamedIsSegment(file: string, suffix: string)
    requires SafeSegment(file) && Lacks(file, '/') && CleanSuffix(suffix)
    ensures SafeSegment(ApplySuffixToFileName(file, suffix))
    ensures Lacks(ApplySuffixToFileName(file, suffix), '/')
  {
    hide RFind;
    var (stem, ext) := SplitFileName(file);
    var renamed := ApplySuffixToFileName(file, suffix);
    assert stem == file[..|stem|] && stem != "";
    assert forall i :: 0 <= i < |renamed| ==>
             renamed[i] == if i < |stem| then file[i]
                           else if i < |stem| + |suffix| then suffix[i - |stem|]
                           else file[i - |suffix|];
    if suffix == "" {
      assert renamed == file;
    } else if |renamed| == 2 {
      assert |stem| == 1 && ext == "";
      assert file == [file[0]] && renamed[0] == file[0];
    }
  }

  lemma FirstCharsSurvive(dir: string, file: string, suffix: string)
    requires file != "" && CleanSuffix(suffix)
    requires dir == "" || dir[|dir| - 1] == '/'
    requires IsSafe(dir + file)
    ensures var r := dir + ApplySuffixToFileName(file, suffix);
            && r != "" && r[0] != '/' && !IsWindowsDrivePath(r) && '\0' !in r
            && (Normal(dir + file) ==> Normal(r))
  {
    var (stem, ext) := SplitFileName(file);
    var r := dir + ApplySuffixToFileName(file, suffix);
    var path := dir + file;
    assert r == dir + stem + suffix + ext && path == dir + stem + ext;
    assert r[0] == path[0];
  }

  // ------------------------------------------------------- conflict-copy suffix

  predicate IsComponentChar(c: char) {
    'a' <= c <= 'z' || 'A' <= c <= 'Z' || IsDigit(c) || c == '-' || c == '_' || c == '.'
  }

  function SanitizeDevice(device: string): string {
    if device == "" then ""
    else
      var out := SanitizeDevice(device[..|device| - 1]);
      var ch := device[|device| - 1];
      if IsComponentChar(ch) then out + [ch]
      else if out == "" || out[|out| - 1] != '-' then out + ['-']
      else out
  }

  function TrimDashes(s: string): string {
    if s != "" && s[0] == '-' then TrimDashes(s[1..])
    else if s != "" && s[|s| - 1] == '-' then TrimDashes(s[..|s| - 1])
    else s
  }

  function SuffixDeviceComponent(device: string): string {
    var compact := TrimDashes(SanitizeDevice(device));
    if compact == "" then "device" else compact
  }

  function ConflictCopySuffix(device: string, timestamp: string): string {
    ".conflict." + SuffixDeviceComponent(device) + "." + timestamp
  }

  predicate AllComponentChars(s: string) {
    forall i :: 0 <= i < |s| ==> IsComponentChar(s[i])
  }

  lemma {:induction false} SanitizedChars(device: string)
    ensures AllComponentChars(SanitizeDevice(device))
  {
    if device != "" { SanitizedChars(device[..|device| - 1]); }
  }

  lemma {:induction false} TrimDashesChars(s: string)
    requires AllComponentChars(s)
    ensures AllComponentChars(TrimDashes(s))
    decreases |s|
  {
    if s != "" && s[0] == '-' {
      TrimDashesChars(s[1..]);
    } else if s != "" && s[|s| - 1] == '-' {
      TrimDashesChars(s[..|s| - 1]);
    }
  }

  /** Whatever the device is called, its conflict copies stay next to the original. */
  lemma ConflictCopyStaysSafe(path: RelativePath, device: string, timestamp: string)
    requires Normal(path) && IsSafeNonEmpty(path) && AllDigits(timestamp)
    ensures var copy := PathWithSuffix(path, ConflictCopySuffix(device, timestamp));
            IsSafeNonEmpty(copy) && copy != path
  {
    hide PathWithSuffix, IsSafe, SanitizeDevice, TrimDashes;
    var component := SuffixDeviceComponent(device);
    SanitizedChars(device);
    TrimDashesChars(SanitizeDevice(device));
    var suffix := ConflictCopySuffix(device, timestamp);
    assert suffix == ".conflict." + component + "." + timestamp;
    assert AllComponentChars(".conflict.") && AllComponentChars(component) && AllComponentChars(timestamp);
    assert AllComponentChars(suffix);
    PathWithSuffixKeepsSafe(path, suffix);
    PathWithSuffixNeverOriginal(path, suffix);
  }

  // ------------------------------------------------------------ what the parts mean

  /** The suffix stands behind the stem, in the same directory and before the extension. */
  lemma PathWithSuffixMeaning(path: RelativePath, suffix: string)
    requires Normal(path)
    ensures exists dir, stem, ext ::
              && path == dir + stem + ext && Lacks(stem + ext, '/') && (dir == "" || dir[|dir| - 1] == '/')
              && IsNameSplit(stem + ext, stem, ext)
              && PathWithSuffix(path, suffix) == dir + stem + Normalize(suffix) + ext
  {
    var (dir, name) := SplitDir(path);
    var (stem, ext) := SplitFileName(name);
    SplitFileNameMeaning(name);
    hide SplitDir, SplitFileName, Normalize;
    assert name == stem + ext && path == dir + stem + ext;
    assert (dir + stem) + ext == path;
    NormalizeMiddle(dir + stem, suffix, ext, path);
    assert dir + ApplySuffixToFileName(name, suffix) == (dir + stem) + suffix + ext;
  }

  /** Clean names of devices are kept. */
  lemma {:induction false} CleanDeviceIsKept(device: string)
    requires AllComponentChars(device)
    ensures SanitizeDevice(device) == device
  {
    if device != "" {
      CleanDeviceIsKept(device[..|device| - 1]);
      assert device == device[..|device| - 1] + [device[|device| - 1]];
    }
  }

  /** A run of other characters becomes one dash, unless a dash is there already. */
  lemma {:induction false} RunBecomesDash(head: string, run: string)
    requires run != "" && forall i :: 0 <= i < |run| ==> !IsComponentChar(run[i])
    ensures var out := SanitizeDevice(head);
            SanitizeDevice(head + run) == if out != "" && out[|out| - 1] == '-' then out else out + "-"
  {
    var whole, last := head + run, run[|run| - 1];
    assert whole[..|whole| - 1] == head + run[..|run| - 1] && whole[|whole| - 1] == last;
    if |run| == 1 {
      assert whole[..|whole| - 1] == head;
    } else {
      RunBecomesDash(head, run[..|run| - 1]);
    }
  }

  lemma {:induction false} TrimDashesMeaning(s: string)
    ensures var r := TrimDashes(s);
            && (r != "" ==> r[0] != '-' && r[|r| - 1] != '-')
            && (s != "" && s[0] != '-' && s[|s| - 1] != '-' ==> r == s)
            && (r == "" ==> forall i :: 0 <= i < |s| ==> s[i] == '-')
    decreases |s|
  {
    if s != "" && s[0] == '-' {
      TrimDashesMeaning(s[1..]);
      assert forall i :: 0 < i < |s| ==> s[i] == s[1..][i - 1];
    } else if s != "" && s[|s| - 1] == '-' {
      TrimDashesMeaning(s[..|s| - 1]);
    }
  }

  /**
   The device part of a suffix is never empty, has only plain characters and no dash at
   either end; a name that is so already is kept.
  */
  lemma DeviceComponentMeaning(device: string)
    ensures var r := SuffixDeviceComponent(device);
            && r != "" && AllComponentChars(r) && r[0] != '-' && r[|r| - 1] != '-'
            && (device != "" && AllComponentChars(device) && device[0] != '-' && device[|device| - 1] != '-' ==>
                  r == device)
            && ((forall i :: 0 <= i < |device| ==> device[i] == '-' || !IsComponentChar(device[i])) ==> r == "device")
  {
    SanitizedChars(device);
    TrimDashesChars(SanitizeDevice(device));
    TrimDashesMeaning(SanitizeDevice(device));
    if AllComponentChars(device) { CleanDeviceIsKept(device); }
    if forall i :: 0 <= i < |device| ==> device[i] == '-' || !IsComponentChar(device[i]) { OnlyDashes(device); }
    hide SanitizeDevice;
  }

  lemma {:induction false} OnlyDashes(device: string)
    requires forall i :: 0 <= i < |device| ==> device[i] == '-' || !IsComponentChar(device[i])
    ensures TrimDashes(SanitizeDevice(device)) == ""
    ensures forall i :: 0 <= i < |SanitizeDevice(device)| ==> SanitizeDevice(device)[i] == '-'
  {
    if device != "" { OnlyDashes(device[..|device| - 1]); }
    DashesTrim(SanitizeDevice(device));
  }

  lemma {:induction false} DashesTrim(s: string)
    requires forall i :: 0 <= i < |s| ==> s[i] == '-'
    ensures TrimDashes(s) == ""
  {
    if s != "" { DashesTrim(s[1..]); }
  }

  ghost predicate JoinsFrom(s: string, segments: seq<string>) {
    && segments != [] && s == Join(segments, '/')
    && forall i :: 0 <= i < |segments| ==>
         Lacks(segments[i], '/') && segments[i] != "" && segments[i] != "." && segments[i] != ".."
  }

  predicate IsDrivePath(s: string) {
    |s| >= 2 && s[1] == ':' && ('a' <= s[0] <= 'z' || 'A' <= s[0] <= 'Z')
  }

  /** A path is safe when it is made of proper names, and neither a drive path nor with a NUL. */
  lemma SafeMeaning(s: string)
    ensures IsSafeNonEmpty(s) <==> (exists segments :: JoinsFrom(s, segments)) && '\0' !in s && !IsDrivePath(s)
  {
    if IsSafeNonEmpty(s) { SafeIsJoined(s); }
    if segments :| JoinsFrom(s, segments) && '\0' !in s && !IsDrivePath(s) { JoinedIsSafe(s, segments); }
  }

  lemma SafeIsJoined(s: string)
    requires IsSafeNonEmpty(s)
    ensures JoinsFrom(s, Split(s, '/')) && '\0' !in s && !IsDrivePath(s)
  {
    var parts := Split(s, '/');
    SplitPartsLack(s, '/');
    SplitJoins(s, '/');
    hide Split, Join;
    forall i | 0 <= i < |parts| ensures SafeSegment(parts[i]) { assert parts[i] in parts; }
  }

  lemma JoinedIsSafe(s: string, segments: seq<string>)
    requires JoinsFrom(s, segments) && '\0' !in s && !IsDrivePath(s)
    ensures IsSafeNonEmpty(s)
  {
    SplitOfJoin(segments, '/');
    JoinedEnds(segments);
    hide Split, Join;
    assert forall segment :: segment in segments ==> SafeSegment(segment);
  }

  lemma {:induction false} JoinedEnds(segments: seq<string>)
    requires segments != [] && forall i :: 0 <= i < |segments| ==> Lacks(segments[i], '/') && segments[i] != ""
    ensures var s := Join(segments, '/'); s != "" && s[0] != '/' && s[|s| - 1] != '/'
  {
    if |segments| > 1 {
      var init, last := segments[..|segments| - 1], segments[|segments| - 1];
      JoinedEnds(init);
      JoinSnoc(init, '/', last);
      assert segments == init + [last];
    }
  }
}
