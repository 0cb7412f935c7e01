/**
 Version vectors: causal history as `device -> counter` pairs, their text form and
 the bounded form stored in Drive `appProperties`.
*/
module Coordination {
  import opened Wrappers
  import opened Text
  import opened Ordering

  const APP_PROP_VERSION_VECTOR := "ox_vv"
  const APP_PROP_ORIGIN := "ox_origin"
  const MAX_APP_PROPERTY_VALUE_BYTES := 124

  type Vector = map<string, nat>
  type Properties = map<string, string>

  datatype Ordering3 = Equal | Dominates | DominatedBy | Concurrent {
    function Flip(): Ordering3 {
      match this
      case Dominates => DominatedBy
      case DominatedBy => Dominates
      case _ => this
    }
  }

  function Max(a: nat, b: nat): nat {
    if a < b then b else a
  }

  // ------------------------------------------------------------- causal order

  /** An absent device counts as zero. */
  function Count(v: Vector, device: string): nat {
    if device in v then v[device] else 0
  }

  predicate Below(a: Vector, b: Vector) {
    forall d :: d in a ==> a[d] <= Count(b, d)
  }

  /** The four-way comparison in terms of the pointwise order. */
  function Compare(a: Vector, b: Vector): Ordering3 {
    if Below(a, b) then if Below(b, a) then Equal else DominatedBy
    else if Below(b, a) then Dominates
    else Concurrent
  }

  function Merged(a: Vector, b: Vector): Vector {
    map d | d in a.Keys + b.Keys :: Max(Count(a, d), Count(b, d))
  }

  function Incremented(v: Vector, device: string): Vector {
    if Trim(device) == [] then v
    else if Count(v, device) < U64_MAX then v[device := Count(v, device) + 1]
    else v[device := Count(v, device)]
  }

  lemma BelowIsAPreorder(a: Vector, b: Vector, c: Vector)
    ensures Below(a, a)
    ensures Below(a, b) && Below(b, c) ==> Below(a, c)
    ensures Below(a, b) && Below(b, a) <==> forall d :: Count(a, d) == Count(b, d)
  {
    if Below(a, b) && Below(b, c) {
      forall d | d in a ensures a[d] <= Count(c, d) {
        assert Count(b, d) <= Count(c, d);
      }
    }
    if forall d :: Count(a, d) == Count(b, d) {
      forall d | d in a ensures a[d] <= Count(b, d) { assert Count(a, d) == Count(b, d); }
      forall d | d in b ensures b[d] <= Count(a, d) { assert Count(a, d) == Count(b, d); }
    }
  }

  /** Swapping the operands swaps the verdict. */
  lemma CompareFlips(a: Vector, b: Vector)
    ensures Compare(b, a) == Compare(a, b).Flip()
  {
  }

  /** `merge` is the least upper bound of the pointwise order. */
  lemma MergeIsLeastUpperBound(a: Vector, b: Vector, c: Vector)
    ensures Below(a, Merged(a, b)) && Below(b, Merged(a, b))
    ensures Below(Merged(a, b), c) <==> Below(a, c) && Below(b, c)
  {
    var m := Merged(a, b);
    assert forall d :: Count(m, d) == Max(Count(a, d), Count(b, d));
    if Below(m, c) {
      forall d | d in a ensures a[d] <= Count(c, d) { assert d in m; }
      forall d | d in b ensures b[d] <= Count(c, d) { assert d in m; }
    }
  }

  lemma IncrementIsStrict(v: Vector, device: string)
    requires Trim(device) != [] && Count(v, device) < U64_MAX
    ensures Compare(Incremented(v, device), v) == Dominates
  {
    hide Trim;
    var w := Incremented(v, device);
    assert w[device] == Count(v, device) + 1;
    assert Below(v, w);
  }

  // ---------------------------------------------------------------- text form

  /** Device ids that survive the text form. */
  predicate CleanId(d: string) {
    d != [] && Trimmed(d) && Lacks(d, ';') && Lacks(d, ':')
  }

  predicate Clean(v: Vector) {
    forall d :: d in v ==> CleanId(d) && v[d] <= U64_MAX
  }

  function Segment(device: string, count: nat): string {
    device + [':'] + NatToString(count)
  }

  function Segments(v: Vector, keys: seq<string>): (r: seq<string>)
    requires forall i :: 0 <= i < |keys| ==> keys[i] in v
    ensures |r| == |keys|
    ensures forall i :: 0 <= i < |r| ==> r[i] == Segment(keys[i], v[keys[i]])
  {
    seq(|keys|, i requires 0 <= i < |keys| => Segment(keys[i], v[keys[i]]))
  }

  function SortedKeys(v: Vector): (r: seq<string>)
    ensures |r| == |v|
    ensures forall d :: d in r <==> d in v
    ensures forall i :: 0 <= i < |r| ==> r[i] in v
  {
    StringOrder();
    Ascending(StringLeq, v.Keys)
  }

  function Print(v: Vector): string {
    Join(Segments(v, SortedKeys(v)), ';')
  }

  function ParseSegment(segment: string): (r: Option<(string, nat)>)
    ensures r.Some? ==> r.value.1 <= U64_MAX
  {
    match SplitOnce(Trim(segment), ':')
    case None => None
    case Some((deviceRaw, countRaw)) =>
      var device := Trim(deviceRaw);
      if device == [] then None
      else
        match ParseU64(Trim(countRaw))
        case None => None
        case Some(count) => Some((device, count))
  }

  function AddEntry(v: Vector, device: string, count: nat): Vector {
    v[device := if device in v then Max(v[device], count) else count]
  }

  function ParseSegments(segments: seq<string>): Vector {
    if segments == [] then map[]
    else
      var v := ParseSegments(segments[..|segments| - 1]);
      match ParseSegment(segments[|segments| - 1])
      case None => v
      case Some((device, count)) => AddEntry(v, device, count)
  }

  function Parse(input: string): Vector {
    ParseSegments(Split(input, ';'))
  }

  predicate Writes(segment: string, device: string, count: nat) {
    ParseSegment(segment) == Some((device, count))
  }

  ghost predicate GreatestWritten(segments: seq<string>, device: string, v: Vector) {
    && (forall i, c: nat :: 0 <= i < |segments| && Writes(segments[i], device, c) ==> device in v && c <= v[device])
    && (device in v ==> exists i :: 0 <= i < |segments| && Writes(segments[i], device, v[device]))
  }

  lemma {:induction false} ParseSegmentsMeaning(segments: seq<string>, device: string)
    ensures GreatestWritten(segments, device, ParseSegments(segments))
  {
    hide Trim, SplitOnce, ParseU64, ParseSegment;
    if segments != [] {
      var n := |segments| - 1;
      var init := segments[..n];
      var v := ParseSegments(init);
      ParseSegmentsMeaning(init, device);
      assert forall i :: 0 <= i < n ==> init[i] == segments[i];
      if device in v {
        var i :| 0 <= i < n && Writes(init[i], device, v[device]);
        assert Writes(segments[i], device, v[device]);
      }
      if ParseSegment(segments[n]).Some? {
        var (d, c) := ParseSegment(segments[n]).value;
        assert Writes(segments[n], d, c);
      }
    }
  }

  /** What a text means: each device carries the greatest count written for it. */
  lemma ParseMeaning(input: string, device: string)
    ensures GreatestWritten(Split(input, ';'), device, Parse(input))
  {
    ParseSegmentsMeaning(Split(input, ';'), device);
  }

  lemma ParsedSegmentIsClean(segment: string)
    requires Lacks(segment, ';') && ParseSegment(segment).Some?
    ensures CleanId(ParseSegment(segment).value.0)
  {
    var trimmed := Trim(segment);
    var i := Find(trimmed, ':').value;
    assert Lacks(trimmed, ';');
    assert Lacks(trimmed[..i], ';') && Lacks(trimmed[..i], ':');
  }

  lemma {:induction false} ParsedSegmentsAreClean(segments: seq<string>)
    requires forall i :: 0 <= i < |segments| ==> Lacks(segments[i], ';')
    ensures Clean(ParseSegments(segments))
  {
    hide ParseSegment, CleanId;
    if segments != [] {
      var last := segments[|segments| - 1];
      ParsedSegmentsAreClean(segments[..|segments| - 1]);
      if ParseSegment(last).Some? { ParsedSegmentIsClean(last); }
    }
  }

  /** Whatever the input, parsing yields only clean ids and `u64` counts. */
  lemma ParseIsClean(input: string)
    ensures Clean(Parse(input))
  {
    SplitPartsLack(input, ';');
    ParsedSegmentsAreClean(Split(input, ';'));
  }

  lemma TrimOfSegment(device: string, count: nat)
    requires CleanId(device) && count <= U64_MAX
    ensures Trim(Segment(device, count)) == Segment(device, count)
    ensures Lacks(Segment(device, count), ';')
  {
    hide Trim;
    ParseOfPrinted(count);
    var digits := NatToString(count);
    var s := Segment(device, count);
    assert s[0] == device[0] && s[|s| - 1] == digits[|digits| - 1];
  }

  lemma ParseOfSegment(device: string, count: nat)
    requires CleanId(device) && count <= U64_MAX
    ensures ParseSegment(Segment(device, count)) == Some((device, count))
  {
    hide Trim, ParseU64, NatToString, SplitOnce;
    TrimOfSegment(device, count);
    ParseOfPrinted(count);
    SplitOnceOf(device, ':', NatToString(count));
  }

  function Restrict(v: Vector, keys: seq<string>): Vector {
    map d | d in v && d in keys :: v[d]
  }

  lemma RestrictNothing(v: Vector)
    ensures Restrict(v, []) == map[]
  {
  }

  lemma RestrictNext(v: Vector, keys: seq<string>)
    requires keys != [] && Distinct(keys) && keys[|keys| - 1] in v
    ensures var d := keys[|keys| - 1];
            d !in Restrict(v, keys[..|keys| - 1]) && Restrict(v, keys) == Restrict(v, keys[..|keys| - 1])[d := v[d]]
  {
  }

  lemma {:induction false} ParseOfSegments(v: Vector, keys: seq<string>)
    requires Clean(v) && Distinct(keys)
    requires forall i :: 0 <= i < |keys| ==> keys[i] in v
    ensures ParseSegments(Segments(v, keys)) == Restrict(v, keys)
  {
    hide ParseSegment, Segment, Restrict, CleanId;
    if keys == [] {
      assert Restrict(v, keys) == map[] by { RestrictNothing(v); }
    } else {
      var n := |keys| - 1;
      var init, d := keys[..n], keys[n];
      var segments := Segments(v, keys);
      ParseOfSegments(v, init);
      ParseOfSegment(d, v[d]);
      assert segments[..n] == Segments(v, init);
      RestrictNext(v, keys);
    }
  }

  lemma SortedKeysDistinct(v: Vector)
    ensures Distinct(SortedKeys(v))
  {
    StringOrder();
    AscendingIsSorted(StringLeq, v.Keys);
  }

  lemma ParseOfEmpty()
    ensures Join([], ';') == "" && Parse("") == map[]
  {
    assert Split("", ';') == [""];
    assert ParseSegments([""][..0]) == map[];
  }

  lemma ParseOfPrint(v: Vector)
    requires Clean(v)
    ensures Parse(Print(v)) == v
  {
    hide ParseSegment, SortedKeys, Segment, Split, Join;
    var keys := SortedKeys(v);
    var segments := Segments(v, keys);
    SortedKeysDistinct(v);
    ParseOfSegments(v, keys);
    assert Restrict(v, keys) == v;
    if keys == [] {
      ParseOfEmpty();
    } else {
      forall i | 0 <= i < |segments| ensures Lacks(segments[i], ';') {
        TrimOfSegment(keys[i], v[keys[i]]);
      }
      SplitOfJoin(segments, ';');
    }
  }

  /** The text form is lossless exactly for clean vectors. */
  lemma PrintRoundTripsExactlyWhenClean(v: Vector)
    ensures Parse(Print(v)) == v <==> Clean(v)
  {
    ParseIsClean(Print(v));
    if Clean(v) { ParseOfPrint(v); }
  }

  /** Reading, writing and reading again changes nothing, whatever was read first. */
  lemma ParsePrintParse(input: string)
    ensures Parse(Print(Parse(input))) == Parse(input)
  {
    ParseIsClean(input);
    ParseOfPrint(Parse(input));
  }

  // -------------------------------------------------------------- bounded form

  /** Least active first: by count, then by device id. */
  function LessActive(v: Vector): (string, string) -> bool {
    (a: string, b: string) => Count(v, a) < Count(v, b) || (Count(v, a) == Count(v, b) && StringLeq(a, b))
  }

  lemma LessActiveIsTotal(v: Vector)
    ensures TotalOrder(LessActive(v))
  {
    StringOrder();
    var leq := LessActive(v);
    forall a, b ensures leq(a, b) || leq(b, a) { assert StringLeq(a, b) || StringLeq(b, a); }
    forall a, b, c | leq(a, b) && leq(b, c) ensures leq(a, c) {
      assert StringLeq(a, b) && StringLeq(b, c) ==> StringLeq(a, c);
    }
  }

  predicate KeepsOrigin(v: Vector, origin: string) {
    origin != [] && origin in v
  }

  /** Every device but a protected origin may be dropped. */
  function Removable(v: Vector, origin: string): set<string> {
    if KeepsOrigin(v, origin) then v.Keys - {origin} else v.Keys
  }

  function RemovalOrder(v: Vector, origin: string): (r: seq<string>)
    ensures forall d :: d in r <==> d in Removable(v, origin)
  {
    LessActiveIsTotal(v);
    Ascending(LessActive(v), Removable(v, origin))
  }

  /** What is left after dropping the first `k` devices of `order`. */
  function Kept(v: Vector, order: seq<string>, k: nat): Vector
    requires k <= |order|
  {
    v - (set d | d in order[..k])
  }

  predicate Fits(v: Vector) {
    Utf8Len(Print(v)) <= MAX_APP_PROPERTY_VALUE_BYTES
  }

  /** The first number of drops, from `k` on, after which the text fits. */
  function FirstFit(v: Vector, order: seq<string>, k: nat): (r: Option<nat>)
    requires k <= |order|
    ensures r.Some? ==> k <= r.value <= |order|
    decreases |order| - k
  {
    if Fits(Kept(v, order, k)) then Some(k)
    else if k == |order| then None
    else FirstFit(v, order, k + 1)
  }

  lemma {:induction false} FirstFitIsFirst(v: Vector, order: seq<string>, k: nat)
    requires k <= |order|
    ensures match FirstFit(v, order, k)
            case Some(n) => Fits(Kept(v, order, n)) && forall j :: k <= j < n ==> !Fits(Kept(v, order, j))
            case None => forall j :: k <= j <= |order| ==> !Fits(Kept(v, order, j))
    decreases |order| - k
  {
    hide Kept, Fits;
    if !Fits(Kept(v, order, k)) && k < |order| { FirstFitIsFirst(v, order, k + 1); }
  }

  /** The vector that the bounded form keeps. */
  function Bounded(v: Vector, originDevice: string): Vector {
    var order := RemovalOrder(v, Trim(originDevice));
    match FirstFit(v, order, 0)
    case Some(k) => Kept(v, order, k)
    case None => map[]
  }

  lemma KeptNothing(v: Vector, order: seq<string>)
    ensures Kept(v, order, 0) == v
  {
  }

  lemma KeptNext(v: Vector, order: seq<string>, k: nat)
    requires k < |order|
    ensures Kept(v, order, k + 1) == Kept(v, order, k) - {order[k]}
  {
    assert order[..k + 1] == order[..k] + [order[k]];
  }

  lemma PrintOfEmpty()
    ensures Print(map[]) == "" && Utf8Len("") == 0
  {
    hide Segment;
  }

  /** The removal order lists every removable device once, least active first. */
  lemma RemovalOrderIsSorted(v: Vector, origin: string)
    ensures forall d :: d in RemovalOrder(v, origin) <==> d in v && (d != origin || origin == "")
    ensures var order := RemovalOrder(v, origin);
            forall i, j :: 0 <= i < j < |order| ==>
              order[i] in v && order[j] in v
              && (v[order[i]] < v[order[j]]
                  || (v[order[i]] == v[order[j]] && order[i] != order[j] && StringLeq(order[i], order[j])))
  {
    RemovalOrderAscends(v, origin);
    hide StringLeq, RemovalOrder, StrictlyAscending;
    var order := RemovalOrder(v, origin);
    forall i, j | 0 <= i < j < |order|
      ensures order[i] in v && order[j] in v
      ensures v[order[i]] < v[order[j]]
              || (v[order[i]] == v[order[j]] && order[i] != order[j] && StringLeq(order[i], order[j]))
    {
      assert order[i] in order && order[j] in order;
      AscendsAt(v, order, i, j);
    }
  }

  lemma AscendsAt(v: Vector, order: seq<string>, i: nat, j: nat)
    requires StrictlyAscending(LessActive(v), order) && i < j < |order|
    ensures order[i] != order[j]
    ensures Count(v, order[i]) < Count(v, order[j])
            || (Count(v, order[i]) == Count(v, order[j]) && StringLeq(order[i], order[j]))
  {
    assert LessActive(v)(order[i], order[j]);
  }

  lemma RemovalOrderAscends(v: Vector, origin: string)
    ensures StrictlyAscending(LessActive(v), RemovalOrder(v, origin))
    ensures forall d :: d in RemovalOrder(v, origin) <==> d in v && (d != origin || origin == "")
  {
    hide StringLeq, Ascending, StrictlyAscending, TotalOrder;
    LessActiveIsTotal(v);
    AscendingIsSorted(LessActive(v), Removable(v, origin));
  }

  /** The shortest prefix of the removal order that makes the text fit is dropped. */
  lemma BoundedDropsShortestPrefix(v: Vector, originDevice: string)
    ensures var order := RemovalOrder(v, Trim(originDevice));
            || (exists k: nat :: && k <= |order|
                                 && Bounded(v, originDevice) == Kept(v, order, k)
                                 && Fits(Kept(v, order, k))
                                 && forall j :: 0 <= j < k ==> !Fits(Kept(v, order, j)))
            || (Bounded(v, originDevice) == map[] && forall k :: 0 <= k <= |order| ==> !Fits(Kept(v, order, k)))
  {
    hide RemovalOrder, Kept, Fits;
    FirstFitIsFirst(v, RemovalOrder(v, Trim(originDevice)), 0);
  }

  lemma BoundedIsPart(v: Vector, originDevice: string)
    ensures forall d :: d in Bounded(v, originDevice) ==> d in v && Bounded(v, originDevice)[d] == v[d]
    ensures Fits(Bounded(v, originDevice))
    ensures Fits(v) ==> Bounded(v, originDevice) == v
  {
    hide RemovalOrder, Trim, Print, Utf8Len;
    PrintOfEmpty();
    var order := RemovalOrder(v, Trim(originDevice));
    FirstFitIsFirst(v, order, 0);
    assert Kept(v, order, 0) == v;
  }

  /** The written value fits, reads back as what was kept and stays below the vector. */
  lemma BoundedReadsBack(v: Vector, originDevice: string)
    requires Clean(v)
    ensures Fits(Bounded(v, originDevice))
    ensures Parse(Print(Bounded(v, originDevice))) == Bounded(v, originDevice)
    ensures Below(Bounded(v, originDevice), v)
  {
    hide Bounded, Fits, Print, Parse, CleanId;
    BoundedIsPart(v, originDevice);
    ParseOfPrint(Bounded(v, originDevice));
  }

  lemma KeptToTheEnd(v: Vector, origin: string)
    requires KeepsOrigin(v, origin)
    ensures var order := RemovalOrder(v, origin);
            && Kept(v, order, |order|) == map[origin := v[origin]]
            && forall k :: 0 <= k <= |order| ==> origin in Kept(v, order, k)
  {
    var order := RemovalOrder(v, origin);
    hide RemovalOrder;
    assert order[..|order|] == order;
    assert origin !in order;
  }

  /** The origin survives whenever its own entry fits. */
  lemma BoundedKeepsOrigin(v: Vector, originDevice: string)
    requires KeepsOrigin(v, Trim(originDevice))
    requires Fits(map[Trim(originDevice) := v[Trim(originDevice)]])
    ensures Trim(originDevice) in Bounded(v, originDevice)
  {
    hide Fits, Kept, RemovalOrder, Trim, KeepsOrigin;
    KeptToTheEnd(v, Trim(originDevice));
    FirstFitIsFirst(v, RemovalOrder(v, Trim(originDevice)), 0);
  }

  /**
   A trimmed value compares as `DominatedBy` the vector it came from as soon as a
   non-zero entry was dropped, and as `Equal` otherwise; it never looks concurrent.
  */
  lemma TrimmingLooksOlder(v: Vector, originDevice: string)
    requires Clean(v)
    ensures var read := Parse(Print(Bounded(v, originDevice)));
            Compare(read, v)
            == if forall d :: d in v && v[d] > 0 ==> d in Bounded(v, originDevice) then Equal else DominatedBy
  {
    hide Bounded, Print, Parse, Fits, Clean;
    BoundedReadsBack(v, originDevice);
    BoundedIsPart(v, originDevice);
    var kept := Bounded(v, originDevice);
    assert Below(v, kept) <==> forall d :: d in v && v[d] > 0 ==> d in kept;
  }

  // ------------------------------------------------------------ app properties

  function FromProperties(props: Properties): Vector {
    if APP_PROP_VERSION_VECTOR in props then Parse(props[APP_PROP_VERSION_VECTOR]) else map[]
  }

  function WithVector(props: Properties, v: Vector, originDevice: string): Properties {
    var text := Print(Bounded(v, originDevice));
    var updated := if text == "" then props - {APP_PROP_VERSION_VECTOR} else props[APP_PROP_VERSION_VECTOR := text];
    updated[APP_PROP_ORIGIN := originDevice]
  }

  /** Drive merges a properties patch key by key. */
  function Patched(stored: Properties, patch: Properties): Properties {
    stored + patch
  }

  lemma PrintIsEmptyOnlyForEmpty(v: Vector)
    ensures Print(v) == "" <==> v == map[]
  {
    hide SortedKeys;
    var keys := SortedKeys(v);
    var segments := Segments(v, keys);
    if keys != [] {
      assert segments[0] == Segment(keys[0], v[keys[0]]);
      assert |segments[0]| > 0;
      assert keys[0] in v;
    } else {
      assert |v| == 0;
    }
  }

  /** No patch erases the vector stored on Drive, and an untrimmed write reads back. */
  lemma PatchNeverErases(stored: Properties, props: Properties, v: Vector, originDevice: string)
    requires Clean(v)
    ensures var patch := WithVector(props, v, originDevice);
            && (APP_PROP_VERSION_VECTOR in patch ==> patch[APP_PROP_VERSION_VECTOR] != "")
            && FromProperties(Patched(stored, patch))
               == (if Bounded(v, originDevice) == map[] then FromProperties(stored) else Bounded(v, originDevice))
            && (Fits(v) && v != map[] ==> FromProperties(Patched(stored, patch)) == v)
  {
    hide Bounded, Print, Parse, Fits, Clean;
    BoundedIsPart(v, originDevice);
    BoundedReadsBack(v, originDevice);
    PrintIsEmptyOnlyForEmpty(Bounded(v, originDevice));
  }

  // ------------------------------------------------------------------ the class

  lemma JoinOfNone(c: char)
    ensures Join([], c) == ""
  {
  }

  lemma JoinOfOne(part: string, c: char)
    ensures Join([part], c) == part
  {
  }

  lemma MergedNothing(a: Vector)
    ensures Merged(a, map[]) == a
  {
  }

  lemma MergedNext(a: Vector, b: Vector, device: string, count: nat)
    requires device in b ==> b[device] == count
    ensures var m := Merged(a, b);
            Merged(a, b[device := count]) == m[device := if device in m then Max(m[device], count) else count]
  {
  }

  /** Comparing on the keys of both sides decides the order on every device. */
  lemma FlagsDecideTheOrder(a: Vector, b: Vector, keys: seq<string>)
    requires forall d :: d in keys <==> d in a || d in b
    ensures Below(a, b) <==> forall j :: 0 <= j < |keys| ==> Count(a, keys[j]) <= Count(b, keys[j])
    ensures Below(b, a) <==> forall j :: 0 <= j < |keys| ==> Count(b, keys[j]) <= Count(a, keys[j])
  {
    assert forall j :: 0 <= j < |keys| ==> keys[j] in keys;
  }

  class VersionVector {
    var entries: Vector

    constructor FromMap(entries: Vector)
      ensures this.entries == entries
    {
      this.entries := entries;
    }

    static method ParseText(input: string) returns (v: VersionVector)
      ensures fresh(v) && v.entries == Parse(input)
    {
      hide ParseSegment, Split;
      var segments := Split(input, ';');
      var entries: Vector := map[];
      for i := 0 to |segments|
        invariant entries == ParseSegments(segments[..i])
      {
        assert segments[..i + 1][..i] == segments[..i];
        match ParseSegment(segments[i])
        case None =>
        case Some((device, count)) =>
          entries := if device in entries
                     then entries[device := Max(entries[device], count)]
                     else entries[device := count];
      }
      assert segments[..|segments|] == segments;
      v := new VersionVector.FromMap(entries);
    }

    method Increment(device: string)
      modifies this
      ensures entries == Incremented(old(entries), device)
    {
      hide Trim;
      if Trim(device) == [] { return; }
      var counter := if device in entries then entries[device] else 0;
      entries := entries[device := if counter < U64_MAX then counter + 1 else counter];
    }

    method Merge(other: VersionVector) returns (m: VersionVector)
      ensures fresh(m) && m.entries == Merged(entries, other.entries)
    {
      hide SortedKeys, Merged;
      ghost var mine, theirs := entries, other.entries;
      var keys := SortedKeys(other.entries);
      var merged := entries;
      ghost var done: Vector := map[];
      MergedNothing(mine);
      for i := 0 to |keys|
        invariant forall j :: 0 <= j < i ==> keys[j] in done
        invariant forall d :: d in done ==> d in theirs && done[d] == theirs[d]
        invariant merged == Merged(mine, done)
      {
        var device := keys[i];
        var counter := other.entries[device];
        MergedNext(mine, done, device, counter);
        merged := merged[device := if device in merged then Max(merged[device], counter) else counter];
        done := done[device := counter];
      }
      assert done == theirs;
      m := new VersionVector.FromMap(merged);
    }

    method Dominance(other: VersionVector) returns (o: Ordering3)
      ensures o == Compare(entries, other.entries)
    {
      hide SortedKeys, Below;
      var keys := SortedKeys(entries) + SortedKeys(other.entries);
      var selfGeOther, selfLeOther := true, true;
      var strictlyGreater, strictlyLower := false, false;
      for i := 0 to |keys|
        invariant selfGeOther <==> forall j :: 0 <= j < i ==> Count(entries, keys[j]) >= Count(other.entries, keys[j])
        invariant selfLeOther <==> forall j :: 0 <= j < i ==> Count(entries, keys[j]) <= Count(other.entries, keys[j])
        invariant strictlyLower == !selfGeOther && strictlyGreater == !selfLeOther
      {
        var left, right := Count(entries, keys[i]), Count(other.entries, keys[i]);
        if left < right { selfGeOther, strictlyLower := false, true; }
        if left > right { selfLeOther, strictlyGreater := false, true; }
      }
      FlagsDecideTheOrder(entries, other.entries, keys);
      if !strictlyGreater && !strictlyLower {
        o := Equal;
      } else if selfGeOther {
        o := Dominates;
      } else if selfLeOther {
        o := DominatedBy;
      } else {
        o := Concurrent;
      }
    }

    method Display() returns (s: string)
      ensures s == Print(entries)
    {
      hide SortedKeys, Segment, Join;
      var keys := SortedKeys(entries);
      ghost var segments := Segments(entries, keys);
      s := "";
      JoinOfNone(';');
      var first := true;
      for i := 0 to |keys|
        invariant first <==> i == 0
        invariant s == Join(segments[..i], ';')
      {
        JoinOfOne(segments[i], ';');
        assert i == 0 ==> segments[..1] == [segments[0]];
        if !first {
          JoinSnoc(segments[..i], ';', segments[i]);
          s := s + [';'];
        }
        assert segments[..i + 1] == segments[..i] + [segments[i]];
        first := false;
        s := s + Segment(keys[i], entries[keys[i]]);
      }
      assert segments[..|keys|] == segments;
    }

    method BoundedAppPropertyValue(originDevice: string) returns (serialized: string)
      ensures serialized == Print(Bounded(entries, originDevice))
    {
      hide RemovalOrder, Kept, Print, Utf8Len, Trim;
      var kept := entries;
      var order := RemovalOrder(entries, Trim(originDevice));
      assert Kept(entries, order, 0) == kept by { KeptNothing(entries, order); }
      FirstFitIsFirst(entries, order, 0);
      serialized := Print(kept);
      if Utf8Len(serialized) <= MAX_APP_PROPERTY_VALUE_BYTES { return; }
      for i := 0 to |order|
        invariant kept == Kept(entries, order, i)
        invariant forall j :: 0 <= j <= i ==> !Fits(Kept(entries, order, j))
      {
        KeptNext(entries, order, i);
        kept := kept - {order[i]};
        serialized := Print(kept);
        if Utf8Len(serialized) <= MAX_APP_PROPERTY_VALUE_BYTES {
          assert Fits(Kept(entries, order, i + 1));
          assert FirstFit(entries, order, 0) == Some(i + 1);
          return;
        }
      }
      PrintOfEmpty();
      serialized := "";
    }

    method WriteIntoAppProperties(props: Properties, originDevice: string) returns (updated: Properties)
      ensures updated == WithVector(props, entries, originDevice)
    {
      var bounded := BoundedAppPropertyValue(originDevice);
      if bounded == "" {
        updated := props - {APP_PROP_VERSION_VECTOR};
      } else {
        updated := props[APP_PROP_VERSION_VECTOR := bounded];
      }
      updated := updated[APP_PROP_ORIGIN := originDevice];
    }
  }
}
