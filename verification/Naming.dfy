/** The free-name search: `name (2).ext`, `name (3).ext`, and so on until one is free. */
module Naming {
  import opened Text

  function Candidate(head: string, tail: string, n: nat): string {
    head + " (" + NatToString(n) + ")" + tail
  }

  lemma CandidateInjective(head: string, tail: string, m: nat, n: nat)
    requires Candidate(head, tail, m) == Candidate(head, tail, n)
    ensures m == n
  {
    hide NatToString;
    var a, b := NatToString(m), NatToString(n);
    var c := Candidate(head, tail, m);
    assert |a| == |b|;
    assert c[|head| + 2..|head| + 2 + |a|] == a;
    assert Candidate(head, tail, n)[|head| + 2..|head| + 2 + |b|] == b;
    NatToStringInjective(m, n);
  }

  /** The taken names that the search from `index` on would still run into. */
  ghost function Ahead(head: string, tail: string, index: nat, taken: set<string>): set<string> {
    set c | c in taken && exists n: nat :: n >= index && c == Candidate(head, tail, n)
  }

  lemma AheadShrinks(head: string, tail: string, index: nat, taken: set<string>)
    requires Candidate(head, tail, index) in taken
    ensures |Ahead(head, tail, index + 1, taken)| < |Ahead(head, tail, index, taken)|
  {
    hide Candidate;
    var now, later := Ahead(head, tail, index, taken), Ahead(head, tail, index + 1, taken);
    var c := Candidate(head, tail, index);
    if c in later {
      var n: nat :| n >= index + 1 && c == Candidate(head, tail, n);
      CandidateInjective(head, tail, index, n);
    }
    assert c in now - later && later <= now;
    Smaller(later, now, c);
  }

  lemma Smaller<T>(a: set<T>, b: set<T>, x: T)
    requires a <= b && x in b - a
    ensures |a| < |b|
  {
    assert b == a + (b - a);
    assert b - a != {};
  }

  /** The index of the first free candidate: only finitely many can be taken. */
  function FirstFree(head: string, tail: string, index: nat, taken: set<string>): (n: nat)
    ensures index <= n && Candidate(head, tail, n) !in taken
    ensures forall k :: index <= k < n ==> Candidate(head, tail, k) in taken
    decreases |Ahead(head, tail, index, taken)|
  {
    if Candidate(head, tail, index) !in taken then index
    else
      AheadShrinks(head, tail, index, taken);
      FirstFree(head, tail, index + 1, taken)
  }

  /** The search loop. */
  method FindFree(head: string, tail: string, taken: set<string>) returns (candidate: string)
    ensures candidate == Candidate(head, tail, FirstFree(head, tail, 2, taken))
    ensures candidate !in taken
  {
    var index := 2;
    while true
      invariant index >= 2 && FirstFree(head, tail, index, taken) == FirstFree(head, tail, 2, taken)
      decreases |Ahead(head, tail, index, taken)|
    {
      candidate := Candidate(head, tail, index);
      if candidate !in taken { return; }
      AheadShrinks(head, tail, index, taken);
      index := index + 1;
    }
  }
}
