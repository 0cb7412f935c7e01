/**
 Strings as the source handles them: searching and splitting on one separator,
 trimming Unicode white space, decimal printing and `u64` parsing, UTF-8 length.
*/
module Text {
  import opened Wrappers

  const U64_MAX: nat := 0xFFFF_FFFF_FFFF_FFFF

  // ---------------------------------------------------------------- searching

  predicate Lacks(s: string, c: char) {
    c !in s
  }

  /** Index of the first `c`. */
  function Find(s: string, c: char): (r: Option<nat>)
    ensures r.None? <==> Lacks(s, c)
    ensures r.Some? ==> r.value < |s| && s[r.value] == c && Lacks(s[..r.value], c)
  {
    if s == [] then None
    else if s[0] == c then Some(0)
    else
      match Find(s[1..], c)
      case None => None
      case Some(i) =>
        assert s[..i + 1] == [s[0]] + s[1..][..i];
        Some(i + 1)
  }

  /** Index of the last `c`. */
  function RFind(s: string, c: char): (r: Option<nat>)
    ensures r.None? <==> Lacks(s, c)
    ensures r.Some? ==> r.value < |s| && s[r.value] == c && Lacks(s[r.value + 1..], c)
  {
    if s == [] then None
    else if s[|s| - 1] == c then Some(|s| - 1)
    else
      var init := s[..|s| - 1];
      assert s == init + [s[|s| - 1]];
      match RFind(init, c)
      case None => None
      case Some(i) =>
        assert s[i + 1..] == init[i + 1..] + [s[|s| - 1]];
        Some(i)
  }

  function SplitOnce(s: string, c: char): Option<(string, string)> {
    match Find(s, c)
    case None => None
    case Some(i) => Some((s[..i], s[i + 1..]))
  }

  function RSplitOnce(s: string, c: char): Option<(string, string)> {
    match RFind(s, c)
    case None => None
    case Some(i) => Some((s[..i], s[i + 1..]))
  }

  lemma FindUnique(s: string, c: char, i: nat)
    requires i < |s| && s[i] == c && Lacks(s[..i], c)
    ensures Find(s, c) == Some(i)
  {
  }

  lemma RFindUnique(s: string, c: char, i: nat)
    requires i < |s| && s[i] == c && Lacks(s[i + 1..], c)
    ensures RFind(s, c) == Some(i)
  {
  }

  lemma SplitOnceOf(a: string, c: char, b: string)
    requires Lacks(a, c)
    ensures SplitOnce(a + [c] + b, c) == Some((a, b))
  {
    var s := a + [c] + b;
    assert s[..|a|] == a && s[|a| + 1..] == b;
    FindUnique(s, c, |a|);
  }

  lemma RSplitOnceOf(a: string, c: char, b: string)
    requires Lacks(b, c)
    ensures RSplitOnce(a + [c] + b, c) == Some((a, b))
  {
    var s := a + [c] + b;
    assert s[..|a|] == a && s[|a| + 1..] == b;
    RFindUnique(s, c, |a|);
  }

  // ------------------------------------------------------- splitting, joining

  function Split(s: string, c: char): (parts: seq<string>)
    ensures parts != []
    decreases |s|
  {
    match Find(s, c)
    case None => [s]
    case Some(i) => [s[..i]] + Split(s[i + 1..], c)
  }

  lemma {:induction false} SplitPartsLack(s: string, c: char)
    ensures forall i :: 0 <= i < |Split(s, c)| ==> Lacks(Split(s, c)[i], c)
    decreases |s|
  {
    match Find(s, c)
    case None =>
    case Some(i) => SplitPartsLack(s[i + 1..], c);
  }

  function Join(parts: seq<string>, c: char): string {
    if parts == [] then ""
    else if |parts| == 1 then parts[0]
    else parts[0] + [c] + Join(parts[1..], c)
  }

  lemma {:induction false} JoinSnoc(parts: seq<string>, c: char, last: string)
    requires parts != []
    ensures Join(parts + [last], c) == Join(parts, c) + [c] + last
  {
    var whole := parts + [last];
    if |parts| == 1 {
      assert whole[1..] == [last];
    } else {
      assert whole[1..] == parts[1..] + [last];
      JoinSnoc(parts[1..], c, last);
    }
  }

  lemma {:induction false} SplitOfJoin(parts: seq<string>, c: char)
    requires parts != []
    requires forall i :: 0 <= i < |parts| ==> Lacks(parts[i], c)
    ensures Split(Join(parts, c), c) == parts
  {
    if |parts| > 1 {
      var rest := Join(parts[1..], c);
      SplitOfJoin(parts[1..], c);
      SplitOnceOf(parts[0], c, rest);
      assert Join(parts, c) == parts[0] + [c] + rest;
    }
  }

  lemma {:induction false} SplitJoins(s: string, c: char)
    ensures Join(Split(s, c), c) == s
    decreases |s|
  {
    match Find(s, c)
    case None =>
    case Some(i) =>
      SplitJoins(s[i + 1..], c);
      var rest := Split(s[i + 1..], c);
      assert ([s[..i]] + rest)[1..] == rest;
      assert s == s[..i] + [c] + s[i + 1..];
  }

  lemma {:induction false} SplitAppend(a: string, c: char, b: string, whole: string)
    requires whole == a + [c] + b
    ensures Split(whole, c) == Split(a, c) + Split(b, c)
    decreases |a|
  {
    match Find(a, c)
    case None => SplitFirst(a, c, b);
    case Some(i) =>
      var rest := whole[i + 1..];
      assert rest == a[i + 1..] + [c] + b;
      SplitAppend(a[i + 1..], c, b, rest);
      assert whole[..i] == a[..i];
      FindUnique(whole, c, i);
      ConsAppend(a[..i], Split(a[i + 1..], c), Split(b, c));
  }

  lemma ConsAppend<T>(x: T, s: seq<T>, t: seq<T>)
    ensures [x] + (s + t) == [x] + s + t
  {
  }

  lemma SplitFirst(a: string, c: char, b: string)
    requires Lacks(a, c)
    ensures Split(a + [c] + b, c) == [a] + Split(b, c)
  {
    SplitOnceOf(a, c, b);
    var s := a + [c] + b;
    assert s[|a| + 1..] == b;
  }

  // ----------------------------------------------------------------- trimming

  /** The code points of the Unicode `White_Space` property. */
  predicate IsWhitespace(c: char) {
    var n := c as int;
    || 0x9 <= n <= 0xD
    || n == 0x20
    || n == 0x85
    || n == 0xA0
    || n == 0x1680
    || 0x2000 <= n <= 0x200A
    || n == 0x2028
    || n == 0x2029
    || n == 0x202F
    || n == 0x205F
    || n == 0x3000
  }

  predicate Trimmed(s: string) {
    s == [] || (!IsWhitespace(s[0]) && !IsWhitespace(s[|s| - 1]))
  }

  function TrimStart(s: string): (r: string)
    ensures r == [] || !IsWhitespace(r[0])
    ensures exists k: nat :: k <= |s| && r == s[k..]
  {
    if s != [] && IsWhitespace(s[0]) then
      var r := TrimStart(s[1..]);
      assert exists k: nat :: k <= |s| && r == s[k..] by {
        var k: nat :| k <= |s[1..]| && r == s[1..][k..];
        assert r == s[k + 1..];
      }
      r
    else
      assert s == s[0..];
      s
  }

  function TrimEnd(s: string): (r: string)
    ensures r == [] || !IsWhitespace(r[|r| - 1])
    ensures r <= s
  {
    if s != [] && IsWhitespace(s[|s| - 1]) then TrimEnd(s[..|s| - 1]) else s
  }

  function Trim(s: string): (r: string)
    ensures Trimmed(r)
    ensures forall c :: Lacks(s, c) ==> Lacks(r, c)
    ensures Trimmed(s) ==> r == s
  {
    TrimEnd(TrimStart(s))
  }

  // ------------------------------------------------------------------ decimal

  predicate IsDigit(c: char) {
    '0' <= c <= '9'
  }

  predicate AllDigits(s: string) {
    forall i :: 0 <= i < |s| ==> IsDigit(s[i])
  }

  function DigitChar(d: nat): (c: char)
    requires d < 10
    ensures IsDigit(c) && c as int - '0' as int == d
  {
    ('0' as int + d) as char
  }

  function NatToString(n: nat): (s: string)
    ensures s != [] && AllDigits(s)
  {
    if n < 10 then [DigitChar(n)] else NatToString(n / 10) + [DigitChar(n % 10)]
  }

  function DigitsValue(s: string): nat
    requires AllDigits(s)
  {
    if s == [] then 0
    else DigitsValue(s[..|s| - 1]) * 10 + (s[|s| - 1] as int - '0' as int)
  }

  lemma {:induction false} DigitsValueOfPrinted(n: nat)
    ensures DigitsValue(NatToString(n)) == n
  {
    if n < 10 {
      assert NatToString(n)[..0] == [];
      assert DigitsValue([DigitChar(n)]) == DigitsValue([DigitChar(n)][..0]) * 10 + n;
    } else {
      DigitsValueOfPrinted(n / 10);
      var s := NatToString(n);
      assert s[..|s| - 1] == NatToString(n / 10);
    }
  }

  lemma NatToStringInjective(m: nat, n: nat)
    requires NatToString(m) == NatToString(n)
    ensures m == n
  {
    DigitsValueOfPrinted(m);
    DigitsValueOfPrinted(n);
  }

  /** `str::parse::<u64>`: an optional `+`, at least one digit, no overflow. */
  function ParseU64(s: string): (r: Option<nat>)
    ensures r.Some? ==> r.value <= U64_MAX
  {
    var digits := if s != [] && s[0] == '+' then s[1..] else s;
    if digits == [] || !AllDigits(digits) then None
    else if DigitsValue(digits) > U64_MAX then None
    else Some(DigitsValue(digits))
  }

  lemma ParseOfPrinted(n: nat)
    requires n <= U64_MAX
    ensures ParseU64(NatToString(n)) == Some(n)
    ensures Trimmed(NatToString(n))
    ensures forall c :: !IsDigit(c) ==> Lacks(NatToString(n), c)
  {
    DigitsValueOfPrinted(n);
    var s := NatToString(n);
    assert IsDigit(s[0]) && IsDigit(s[|s| - 1]);
  }

  // -------------------------------------------------------------- UTF-8 bytes

  function Utf8CharLen(c: char): nat {
    var n := c as int;
    if n < 0x80 then 1 else if n < 0x800 then 2 else if n < 0x1_0000 then 3 else 4
  }

  /** `String::len`, the number of UTF-8 bytes. */
  function Utf8Len(s: string): (n: nat)
    ensures n >= |s|
  {
    if s == [] then 0 else Utf8CharLen(s[0]) + Utf8Len(s[1..])
  }
}
