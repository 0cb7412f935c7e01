/**
 Total orders and the ascending enumeration of a finite set. `Ascending` stands for every
 ordered iteration of the source: the key order of a `BTreeMap` and the result of `sort_by`
 on pairwise distinct elements.
*/
module Ordering {

  ghost predicate TotalOrder<T(!new)>(leq: (T, T) -> bool) {
    && (forall x :: leq(x, x))
    && (forall x, y :: leq(x, y) || leq(y, x))
    && (forall x, y :: leq(x, y) && leq(y, x) ==> x == y)
    && (forall x, y, z :: leq(x, y) && leq(y, z) ==> leq(x, z))
  }

  ghost predicate IsLeast<T>(leq: (T, T) -> bool, m: T, s: set<T>) {
    m in s && forall x :: x in s ==> leq(m, x)
  }

  lemma {:induction false} LeastExists<T(!new)>(leq: (T, T) -> bool, s: set<T>)
    requires TotalOrder(leq) && s != {}
    ensures exists m :: IsLeast(leq, m, s)
  {
    var x :| x in s;
    var rest := s - {x};
    assert forall y :: y in s ==> y == x || y in rest;
    if rest == {} {
      assert IsLeast(leq, x, s);
    } else {
      LeastExists(leq, rest);
      var n :| IsLeast(leq, n, rest);
      assert IsLeast(leq, if leq(x, n) then x else n, s);
    }
  }

  function Least<T(!new, ==)>(leq: (T, T) -> bool, s: set<T>): (m: T)
    requires TotalOrder(leq) && s != {}
    ensures IsLeast(leq, m, s)
  {
    LeastExists(leq, s);
    assert exists m :: m in s && forall x :: x in s ==> leq(m, x) by {
      var m :| IsLeast(leq, m, s);
    }
    var m :| m in s && forall x :: x in s ==> leq(m, x);
    m
  }

  /** The elements of `s` in ascending order. */
  function Ascending<T(!new, ==)>(leq: (T, T) -> bool, s: set<T>): (r: seq<T>)
    requires TotalOrder(leq)
    ensures |r| == |s|
    ensures forall x :: x in r <==> x in s
    decreases |s|
  {
    if s == {} then []
    else
      var m := Least(leq, s);
      var r := [m] + Ascending(leq, s - {m});
      assert forall x :: x in s <==> x == m || x in s - {m};
      r
  }

  ghost predicate StrictlyAscending<T>(leq: (T, T) -> bool, r: seq<T>) {
    forall i, j :: 0 <= i < j < |r| ==> leq(r[i], r[j]) && r[i] != r[j]
  }

  lemma {:induction false} AscendingIsSorted<T(!new)>(leq: (T, T) -> bool, s: set<T>)
    requires TotalOrder(leq)
    ensures StrictlyAscending(leq, Ascending(leq, s))
    decreases |s|
  {
    if s != {} {
      var m := Least(leq, s);
      var rest := Ascending(leq, s - {m});
      AscendingIsSorted(leq, s - {m});
      var r := Ascending(leq, s);
      assert r == [m] + rest;
      forall i, j | 0 <= i < j < |r| ensures leq(r[i], r[j]) && r[i] != r[j] {
        assert r[j] == rest[j - 1] && rest[j - 1] in s - {m};
        if i > 0 { assert r[i] == rest[i - 1]; }
      }
    }
  }

  // -------------------------------------------------------------- string order

  /** Lexicographic order on code points, which is Rust's byte order on UTF-8. */
  predicate StringLeq(a: string, b: string) {
    a == [] || (b != [] && (a[0] < b[0] || (a[0] == b[0] && StringLeq(a[1..], b[1..]))))
  }

  lemma {:induction false} StringLeqTotal(a: string, b: string)
    ensures StringLeq(a, b) || StringLeq(b, a)
    ensures StringLeq(a, b) && StringLeq(b, a) ==> a == b
  {
    if a != [] && b != [] {
      StringLeqTotal(a[1..], b[1..]);
      assert a == [a[0]] + a[1..] && b == [b[0]] + b[1..];
    }
  }

  lemma {:induction false} StringLeqTransitive(a: string, b: string, c: string)
    requires StringLeq(a, b) && StringLeq(b, c)
    ensures StringLeq(a, c)
  {
    if a != [] && a[0] == b[0] == c[0] {
      StringLeqTransitive(a[1..], b[1..], c[1..]);
    }
  }

  lemma StringOrder()
    ensures TotalOrder(StringLeq)
  {
    forall a, b ensures StringLeq(a, b) || StringLeq(b, a) { StringLeqTotal(a, b); }
    forall a, b | StringLeq(a, b) && StringLeq(b, a) ensures a == b { StringLeqTotal(a, b); }
    forall a ensures StringLeq(a, a) { StringLeqTotal(a, a); }
    forall a, b, c | StringLeq(a, b) && StringLeq(b, c) ensures StringLeq(a, c) {
      StringLeqTransitive(a, b, c);
    }
  }

  /** At the first difference the smaller code point decides, and a prefix comes first. */
  lemma {:induction false} StringLeqMeaning(a: string, b: string)
    ensures StringLeq(a, b) <==>
              a <= b || exists k :: 0 <= k < |a| && k < |b| && a[..k] == b[..k] && a[k] < b[k]
  {
    if a != [] && b != [] && a[0] == b[0] {
      StringLeqMeaning(a[1..], b[1..]);
      assert a == [a[0]] + a[1..] && b == [b[0]] + b[1..];
      if k :| 0 <= k < |a[1..]| && k < |b[1..]| && a[1..][..k] == b[1..][..k] && a[1..][k] < b[1..][k] {
        assert a[..k + 1] == [a[0]] + a[1..][..k] && b[..k + 1] == [b[0]] + b[1..][..k];
      }
      if k :| 0 <= k < |a| && k < |b| && a[..k] == b[..k] && a[k] < b[k] {
        assert a[1..][..k - 1] == a[..k][1..] && b[1..][..k - 1] == b[..k][1..];
      }
    } else if a != [] && b != [] && a[0] < b[0] {
      assert a[..0] == b[..0];
    } else if k :| 0 <= k < |a| && k < |b| && a[..k] == b[..k] && a[k] < b[k] {
      if k > 0 { assert a[..k][0] == b[..k][0]; }
    }
  }

  // -------------------------------------------------------------- distinctness

  ghost predicate Distinct<T>(r: seq<T>) {
    forall i, j :: 0 <= i < j < |r| ==> r[i] != r[j]
  }
}
