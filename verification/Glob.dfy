/** Ignore rules: the glob relation and the backtracking matcher that decides it. */
module Glob {
  import opened Wrappers
  import opened Text

  /** One pattern character other than `*` against one text character. */
  predicate CharMatches(p: char, c: char) {
    p == c || (p == '?' && c != '/')
  }

  /** `p[j..]` matches `t[i..]`: `*` is any run without `/`, `?` one character but `/`. */
  predicate MatchFrom(t: string, p: string, i: nat, j: nat)
    requires i <= |t| && j <= |p|
    decreases |p| - j, |t| - i
  {
    if j == |p| then i == |t|
    else if p[j] == '*' then MatchFrom(t, p, i, j + 1) || (i < |t| && t[i] != '/' && MatchFrom(t, p, i + 1, j))
    else i < |t| && CharMatches(p[j], t[i]) && MatchFrom(t, p, i + 1, j + 1)
  }

  predicate Matches(t: string, p: string) {
    MatchFrom(t, p, 0, 0)
  }

  ghost predicate NoSlash(t: string, i: nat, k: nat)
    requires i <= k <= |t|
  {
    forall x :: i <= x < k ==> t[x] != '/'
  }

  /** A `*` matches exactly a run without `/` followed by a match of the rest. */
  lemma {:induction false} StarMeaning(t: string, p: string, i: nat, j: nat)
    requires i <= |t| && j < |p| && p[j] == '*'
    ensures MatchFrom(t, p, i, j) <==> exists k :: i <= k <= |t| && NoSlash(t, i, k) && MatchFrom(t, p, k, j + 1)
    decreases |t| - i
  {
    if i < |t| { StarMeaning(t, p, i + 1, j); }
    if MatchFrom(t, p, i, j) {
      if MatchFrom(t, p, i, j + 1) {
        assert NoSlash(t, i, i);
      } else {
        var k :| i + 1 <= k <= |t| && NoSlash(t, i + 1, k) && MatchFrom(t, p, k, j + 1);
        assert NoSlash(t, i, k);
      }
    }
    if k :| i <= k <= |t| && NoSlash(t, i, k) && MatchFrom(t, p, k, j + 1) {
      if k > i {
        assert NoSlash(t, i + 1, k);
        assert t[i] != '/';
      }
    }
  }

  // ------------------------------------------------- the relation, piece by piece

  function Concat(pieces: seq<string>): string {
    if pieces == [] then "" else pieces[0] + Concat(pieces[1..])
  }

  /** What one pattern character stands for. */
  predicate StandsFor(p: char, piece: string) {
    if p == '*' then '/' !in piece
    else if p == '?' then |piece| == 1 && piece[0] != '/'
    else piece == [p]
  }

  predicate CutsInto(t: string, p: string, pieces: seq<string>) {
    && |pieces| == |p| && t == Concat(pieces)
    && forall i :: 0 <= i < |p| ==> StandsFor(p[i], pieces[i])
  }

  /** A text matches when it can be cut into one piece for each pattern character. */
  lemma {:induction false} MatchMeaning(t: string, p: string, i: nat, j: nat)
    requires i <= |t| && j <= |p|
    ensures MatchFrom(t, p, i, j) <==> exists pieces :: CutsInto(t[i..], p[j..], pieces)
    decreases |p| - j
  {
    hide CutsInto, StandsFor;
    if j == |p| {
      NothingLeft(t[i..], p[j..]);
    } else {
      if MatchFrom(t, p, i, j) {
        var k := FirstPiece(t, p, i, j);
        MatchMeaning(t, p, k, j + 1);
        var rest :| CutsInto(t[k..], p[j + 1..], rest);
        PrependPiece(t, p, i, j, k, rest);
      }
      if pieces :| CutsInto(t[i..], p[j..], pieces) {
        var k := DropPiece(t, p, i, j, pieces);
        MatchMeaning(t, p, k, j + 1);
        assert CutsInto(t[k..], p[j + 1..], pieces[1..]);
        PieceMatches(t, p, i, j, k);
      }
    }
  }

  lemma NothingLeft(text: string, pat: string)
    requires pat == ""
    ensures text == "" <==> exists pieces :: CutsInto(text, pat, pieces)
  {
    if text == "" { assert CutsInto(text, pat, []); }
  }

  lemma PrependPiece(t: string, p: string, i: nat, j: nat, k: nat, rest: seq<string>)
    requires i <= k <= |t| && j < |p| && StandsFor(p[j], t[i..k]) && CutsInto(t[k..], p[j + 1..], rest)
    ensures CutsInto(t[i..], p[j..], [t[i..k]] + rest)
  {
    hide StandsFor;
    var pieces := [t[i..k]] + rest;
    assert t[i..] == t[i..k] + t[k..] && pieces[1..] == rest;
    forall x | 0 <= x < |p| - j ensures StandsFor(p[j..][x], pieces[x]) {
      if x > 0 { assert p[j..][x] == p[j + 1..][x - 1] && pieces[x] == rest[x - 1]; }
    }
  }

  lemma DropPiece(t: string, p: string, i: nat, j: nat, pieces: seq<string>) returns (k: nat)
    requires i <= |t| && j < |p| && CutsInto(t[i..], p[j..], pieces)
    ensures i <= k <= |t| && pieces != []
    ensures StandsFor(p[j], t[i..k]) && CutsInto(t[k..], p[j + 1..], pieces[1..])
  {
    hide StandsFor;
    k := i + |pieces[0]|;
    assert StandsFor(p[j..][0], pieces[0]);
    assert t[i..][..|pieces[0]|] == pieces[0] && t[i..][|pieces[0]|..] == Concat(pieces[1..]);
    assert t[i..k] == pieces[0] && t[k..] == Concat(pieces[1..]);
    forall x | 0 <= x < |p| - j - 1 ensures StandsFor(p[j + 1..][x], pieces[1..][x]) {
      assert p[j + 1..][x] == p[j..][x + 1] && pieces[1..][x] == pieces[x + 1];
    }
  }

  lemma FirstPiece(t: string, p: string, i: nat, j: nat) returns (k: nat)
    requires i <= |t| && j < |p| && MatchFrom(t, p, i, j)
    ensures i <= k <= |t| && StandsFor(p[j], t[i..k]) && MatchFrom(t, p, k, j + 1)
  {
    if p[j] == '*' {
      StarMeaning(t, p, i, j);
      k :| i <= k <= |t| && NoSlash(t, i, k) && MatchFrom(t, p, k, j + 1);
    } else {
      k := i + 1;
    }
  }

  lemma PieceMatches(t: string, p: string, i: nat, j: nat, k: nat)
    requires i <= k <= |t| && j < |p| && StandsFor(p[j], t[i..k]) && MatchFrom(t, p, k, j + 1)
    ensures MatchFrom(t, p, i, j)
  {
    if p[j] == '*' {
      StarMeaning(t, p, i, j);
      assert NoSlash(t, i, k) by { assert forall x :: i <= x < k ==> t[x] == t[i..k][x - i]; }
    } else {
      assert k == i + 1 && t[i..k][0] == t[i];
    }
  }

  // ------------------------------------------------------------------- the matcher

  /** `p[j..j + n]` has no `*` and matches `t[i..i + n]` character by character. */
  ghost predicate Aligned(t: string, p: string, i: nat, j: nat, n: nat) {
    && i + n <= |t| && j + n <= |p|
    && forall y :: j <= y < j + n ==> p[y] != '*' && CharMatches(p[y], t[i + y - j])
  }

  lemma {:induction false} RunIsAligned(t: string, p: string, i: nat, j: nat, n: nat)
    requires i <= |t| && j + n <= |p|
    requires forall y :: j <= y < j + n ==> p[y] != '*'
    requires MatchFrom(t, p, i, j)
    ensures Aligned(t, p, i, j, n) && MatchFrom(t, p, i + n, j + n)
    decreases n
  {
    if n > 0 {
      RunIsAligned(t, p, i + 1, j + 1, n - 1);
    }
  }

  /** Two alignments of one run, the second later: no `/` up to the end of the second. */
  lemma {:induction false} ShiftedRunsHaveNoSlash(t: string, p: string, i: nat, k: nat, j: nat, n: nat, x: nat)
    requires Aligned(t, p, i, j, n) && Aligned(t, p, k, j, n)
    requires i < k && NoSlash(t, i, k)
    requires i <= x < k + n
    ensures t[x] != '/'
    decreases x
  {
    if x >= k {
      ShiftedRunsHaveNoSlash(t, p, i, k, j, n, x - (k - i));
      var y := j + (x - k);
      assert CharMatches(p[y], t[i + y - j]) && CharMatches(p[y], t[k + y - j]);
    }
  }

  /** Where a match of `*run` restarted at `i + 1` would have to go. */
  lemma RestartGoesFurther(t: string, p: string, star: nat, i: nat, n: nat) returns (k: nat)
    requires star < |p| && p[star] == '*' && i < |t| && t[i] != '/'
    requires Aligned(t, p, i, star + 1, n)
    requires MatchFrom(t, p, i + 1, star)
    ensures i < k && k + n <= |t| && MatchFrom(t, p, k + n, star + 1 + n)
    ensures NoSlash(t, i, k + n)
  {
    StarMeaning(t, p, i + 1, star);
    k :| i + 1 <= k <= |t| && NoSlash(t, i + 1, k) && MatchFrom(t, p, k, star + 1);
    RunIsAligned(t, p, k, star + 1, n);
    assert NoSlash(t, i, k);
    forall x | i <= x < k + n ensures t[x] != '/' {
      ShiftedRunsHaveNoSlash(t, p, i, k, star + 1, n, x);
    }
  }

  /** Once the next `*` is reached, restarting at the previous one gains nothing. */
  lemma RestartIsCovered(t: string, p: string, star: nat, i: nat, n: nat)
    requires star < |p| && p[star] == '*' && i < |t| && t[i] != '/'
    requires Aligned(t, p, i, star + 1, n)
    requires star + 1 + n < |p| && p[star + 1 + n] == '*'
    requires MatchFrom(t, p, i + 1, star)
    ensures MatchFrom(t, p, i + n, star + 1 + n)
  {
    var k := RestartGoesFurther(t, p, star, i, n);
    StarMeaning(t, p, k + n, star + 1 + n);
    StarMeaning(t, p, i + n, star + 1 + n);
    var e :| k + n <= e <= |t| && NoSlash(t, k + n, e) && MatchFrom(t, p, e, star + 1 + n + 1);
    assert NoSlash(t, i + n, e);
  }

  /** Nor does it once the text is used up. */
  lemma NoRestartAtTheEnd(t: string, p: string, star: nat, i: nat, n: nat)
    requires star < |p| && p[star] == '*' && i < |t| && t[i] != '/'
    requires Aligned(t, p, i, star + 1, n) && i + n == |t|
    ensures !MatchFrom(t, p, i + 1, star)
  {
    if MatchFrom(t, p, i + 1, star) {
      var k := RestartGoesFurther(t, p, star, i, n);
    }
  }

  lemma {:induction false} OnlyStarsMatchNothing(t: string, p: string, j: nat)
    requires j <= |p|
    ensures MatchFrom(t, p, |t|, j) <==> forall x :: j <= x < |p| ==> p[x] == '*'
    decreases |p| - j
  {
    if j < |p| { OnlyStarsMatchNothing(t, p, j + 1); }
  }

  /** What is still to be tried: the current position, or a restart at the anchor. */
  ghost predicate Open(t: string, p: string, ti: nat, pi: nat, star: Option<nat>, starTi: nat)
    requires ti <= |t| && pi <= |p| && starTi <= ti && (star.Some? ==> star.value < |p|)
  {
    || MatchFrom(t, p, ti, pi)
    || (star.Some? && starTi < |t| && t[starTi] != '/' && MatchFrom(t, p, starTi + 1, star.value))
  }

  /** The pattern between the anchor and the position is matched by the text between them. */
  ghost predicate Anchored(t: string, p: string, ti: nat, pi: nat, star: Option<nat>, starTi: nat) {
    && starTi <= ti <= |t| && pi <= |p| && (star.None? ==> starTi == 0)
    && (star.Some? ==>
          && star.value < pi && p[star.value] == '*' && ti - starTi == pi - star.value - 1
          && Aligned(t, p, starTi, star.value + 1, ti - starTi))
  }

  predicate CharFits(t: string, p: string, ti: nat, pi: nat)
    requires ti < |t| && pi <= |p|
  {
    pi < |p| && p[pi] != '*' && (p[pi] == t[ti] || (p[pi] == '?' && t[ti] != '/'))
  }

  lemma AdvanceStep(t: string, p: string, ti: nat, pi: nat, star: Option<nat>, starTi: nat)
    requires Anchored(t, p, ti, pi, star, starTi) && ti < |t| && CharFits(t, p, ti, pi)
    ensures Anchored(t, p, ti + 1, pi + 1, star, starTi)
    ensures Open(t, p, ti, pi, star, starTi) <==> Open(t, p, ti + 1, pi + 1, star, starTi)
  {
  }

  lemma StarStep(t: string, p: string, ti: nat, pi: nat, star: Option<nat>, starTi: nat)
    requires Anchored(t, p, ti, pi, star, starTi) && ti < |t| && pi < |p| && p[pi] == '*'
    ensures Anchored(t, p, ti, pi + 1, Some(pi), ti)
    ensures Open(t, p, ti, pi, star, starTi) <==> Open(t, p, ti, pi + 1, Some(pi), ti)
  {
    if star.Some? && t[starTi] != '/' && MatchFrom(t, p, starTi + 1, star.value) {
      RestartIsCovered(t, p, star.value, starTi, ti - starTi);
    }
  }

  /** Back to one character after the anchor, unless that would cross a separator. */
  lemma RestartStep(t: string, p: string, ti: nat, pi: nat, star: nat, starTi: nat)
    requires Anchored(t, p, ti, pi, Some(star), starTi) && ti < |t|
    requires !CharFits(t, p, ti, pi) && !(pi < |p| && p[pi] == '*')
    ensures t[starTi] == '/' ==> !Open(t, p, ti, pi, Some(star), starTi)
    ensures t[starTi] != '/' ==>
              && Anchored(t, p, starTi + 1, star + 1, Some(star), starTi + 1)
              && (Open(t, p, ti, pi, Some(star), starTi) <==> Open(t, p, starTi + 1, star + 1, Some(star), starTi + 1))
  {
  }

  lemma StuckStep(t: string, p: string, ti: nat, pi: nat)
    requires Anchored(t, p, ti, pi, None, 0) && ti < |t|
    requires !CharFits(t, p, ti, pi) && !(pi < |p| && p[pi] == '*')
    ensures !Open(t, p, ti, pi, None, 0)
  {
  }

  /** When the text is used up, only stars may be left of the pattern. */
  lemma EndStep(t: string, p: string, pi: nat, star: Option<nat>, starTi: nat)
    requires Anchored(t, p, |t|, pi, star, starTi)
    ensures Open(t, p, |t|, pi, star, starTi) <==> forall x :: pi <= x < |p| ==> p[x] == '*'
  {
    if star.Some? && starTi < |t| && t[starTi] != '/' {
      NoRestartAtTheEnd(t, p, star.value, starTi, |t| - starTi);
    }
    OnlyStarsMatchNothing(t, p, pi);
  }

  /** The single-anchor matcher. */
  method GlobMatch(text: string, pat: string) returns (r: bool)
    ensures r <==> Matches(text, pat)
  {
    var ti: nat, pi: nat := 0, 0;
    var star: Option<nat> := None;
    var starTi: nat := 0;
    assert Matches(text, pat) <==> Open(text, pat, ti, pi, star, starTi);
    hide Matches, MatchFrom, Open, Aligned;
    while ti < |text|
      invariant ti <= |text| && Anchored(text, pat, ti, pi, star, starTi)
      invariant Matches(text, pat) <==> Open(text, pat, ti, pi, star, starTi)
      decreases |text| - starTi, |pat| - pi
    {
      if pi < |pat| && pat[pi] != '*' && (pat[pi] == text[ti] || (pat[pi] == '?' && text[ti] != '/')) {
        AdvanceStep(text, pat, ti, pi, star, starTi);
        ti := ti + 1;
        pi := pi + 1;
      } else if pi < |pat| && pat[pi] == '*' {
        StarStep(text, pat, ti, pi, star, starTi);
        star := Some(pi);
        starTi := ti;
        pi := pi + 1;
      } else if star.Some? {
        RestartStep(text, pat, ti, pi, star.value, starTi);
        if text[starTi] == '/' {
          return false;
        }
        starTi := starTi + 1;
        ti := starTi;
        pi := star.value + 1;
      } else {
        StuckStep(text, pat, ti, pi);
        return false;
      }
    }
    EndStep(text, pat, pi, star, starTi);
    while pi < |pat| && pat[pi] == '*'
      invariant pi <= |pat|
      invariant Matches(text, pat) <==> forall x :: pi <= x < |pat| ==> pat[x] == '*'
    {
      pi := pi + 1;
    }
    r := pi == |pat|;
  }

  // -------------------------------------------------------------- ignore rules

  function TrimEndSlashes(s: string): string {
    if s != "" && s[|s| - 1] == '/' then TrimEndSlashes(s[..|s| - 1]) else s
  }

  function BaseName(path: string): string {
    match RSplitOnce(path, '/')
    case None => path
    case Some((_, name)) => name
  }

  predicate EndsWith(s: string, suffix: string) {
    |suffix| <= |s| && s[|s| - |suffix|..] == suffix
  }

  predicate PatternMatches(path: string, rule: string) {
    var pat := Trim(rule);
    if pat == "" then false
    else if EndsWith(pat, "/**") then
      var prefix := TrimEndSlashes(pat[..|pat| - 3]);
      prefix == "" || path == prefix || prefix + "/" <= path
    else if !Lacks(pat, '/') then Matches(path, pat)
    else Matches(BaseName(path), pat)
  }

  /** A rule without `/` ignores a name in every directory; a subtree rule ignores all below. */
  lemma RuleScopes(dir: string, name: string, rule: string)
    requires Lacks(name, '/')
    ensures Lacks(Trim(rule), '/') ==> (PatternMatches(dir + "/" + name, rule) <==> PatternMatches(name, rule))
    ensures EndsWith(Trim(rule), "/**") && PatternMatches(dir, rule) ==> PatternMatches(dir + "/" + name, rule)
  {
    var pat := Trim(rule);
    var path := dir + "/" + name;
    RSplitOnceOf(dir, '/', name);
    assert path == dir + ['/'] + name;
    if EndsWith(pat, "/**") {
      assert pat[|pat| - 3] == '/' by { assert pat[|pat| - 3..][0] == '/'; }
      var prefix := TrimEndSlashes(pat[..|pat| - 3]);
      if prefix + "/" <= dir { assert prefix + "/" <= path; }
    }
  }

  lemma {:induction false} TrimmedSlashes(prefix: string, slashes: string)
    requires (prefix == "" || prefix[|prefix| - 1] != '/') && forall i :: 0 <= i < |slashes| ==> slashes[i] == '/'
    ensures TrimEndSlashes(prefix + slashes) == prefix
  {
    if slashes == "" {
      assert prefix + slashes == prefix;
    } else {
      var n := |slashes| - 1;
      var whole := prefix + slashes;
      assert whole[|whole| - 1] == slashes[n] && whole[..|whole| - 1] == prefix + slashes[..n];
      TrimmedSlashes(prefix, slashes[..n]);
    }
  }

  /** A subtree rule covers the named directory and what is below it, and nothing else. */
  lemma SubtreeMeaning(path: string, rule: string, prefix: string, slashes: string)
    requires Trim(rule) == prefix + slashes + "/**"
    requires (prefix == "" || prefix[|prefix| - 1] != '/') && forall i :: 0 <= i < |slashes| ==> slashes[i] == '/'
    ensures PatternMatches(path, rule) <==>
              prefix == "" || path == prefix || exists rest :: path == prefix + "/" + rest
  {
    TrimmedSlashes(prefix, slashes);
    var pat := Trim(rule);
    assert pat[..|pat| - 3] == prefix + slashes && pat[|pat| - 3..] == "/**";
    if prefix + "/" <= path { assert path == prefix + "/" + path[|prefix| + 1..]; }
  }

  /** Every other rule is a glob: on the whole path with a separator, else on the last name. */
  lemma GlobRuleMeaning(dir: string, name: string, rule: string)
    requires Lacks(name, '/') && Trim(rule) != "" && !EndsWith(Trim(rule), "/**")
    ensures PatternMatches(dir + "/" + name, rule) <==>
              Matches(if '/' in Trim(rule) then dir + "/" + name else name, Trim(rule))
    ensures PatternMatches(name, rule) <==> Matches(name, Trim(rule))
  {
    RSplitOnceOf(dir, '/', name);
    assert dir + "/" + name == dir + ['/'] + name;
    assert '/' in Trim(rule) <==> !Lacks(Trim(rule), '/');
    hide Matches;
  }

  /** A blank rule ignores nothing. */
  lemma BlankRuleMatchesNothing(path: string, rule: string)
    requires forall i :: 0 <= i < |rule| ==> IsWhitespace(rule[i])
    ensures !PatternMatches(path, rule)
  {
    BlankTrims(rule);
  }

  lemma {:induction false} BlankTrims(rule: string)
    requires forall i :: 0 <= i < |rule| ==> IsWhitespace(rule[i])
    ensures TrimStart(rule) == ""
  {
    if rule != "" { BlankTrims(rule[1..]); }
  }
}
