/** Python's ordering of `str` values and `sorted()` over a set of them.
    Python compares strings lexicographically by code point; Dafny's `<` on
    sequences means "proper prefix", so the order is defined here. */
module Ordering {

  /** `a < b` on Python strings. */
  predicate Below(a: string, b: string)
    decreases |a|
  {
    if a == [] then b != []
    else if b == [] then false
    else a[0] < b[0] || (a[0] == b[0] && Below(a[1..], b[1..]))
  }

  lemma {:induction false} BelowIrreflexive(a: string)
    ensures !Below(a, a)
    decreases |a|
  {
    if a != [] {
      BelowIrreflexive(a[1..]);
    }
  }

  lemma {:induction false} BelowTransitive(a: string, b: string, c: string)
    requires Below(a, b) && Below(b, c)
    ensures Below(a, c)
    decreases |a|
  {
    if a != [] && b != [] && c != [] && a[0] == b[0] && b[0] == c[0] {
      BelowTransitive(a[1..], b[1..], c[1..]);
    }
  }

  lemma {:induction false} BelowTotal(a: string, b: string)
    requires a != b
    ensures Below(a, b) || Below(b, a)
    decreases |a|
  {
    if a != [] && b != [] && a[0] == b[0] {
      assert a == [a[0]] + a[1..] && b == [b[0]] + b[1..];
      BelowTotal(a[1..], b[1..]);
    }
  }

  lemma BelowAsymmetric(a: string, b: string)
    requires Below(a, b)
    ensures !Below(b, a)
  {
    if Below(b, a) {
      BelowTransitive(a, b, a);
      BelowIrreflexive(a);
    }
  }

  /** Ascending in Python's order, hence without repetitions. */
  predicate StrictlySorted(r: seq<string>) {
    forall i, j :: 0 <= i < j < |r| ==> Below(r[i], r[j])
  }

  /** Places `x` into the sorted sequence `r`. */
  function Insert(r: seq<string>, x: string): (r': seq<string>)
    requires StrictlySorted(r) && x !in r
    ensures StrictlySorted(r')
    ensures forall y :: y in r' <==> y == x || y in r
    ensures |r'| == |r| + 1
  {
    if r == [] then [x]
    else if Below(x, r[0]) then
      assert forall j :: 0 < j < |r| ==> Below(x, r[j]) by {
        forall j | 0 < j < |r| ensures Below(x, r[j]) {
          BelowTransitive(x, r[0], r[j]);
        }
      }
      [x] + r
    else
      BelowTotal(x, r[0]);
      var rest := Insert(r[1..], x);
      assert forall y :: y in rest ==> Below(r[0], y) by {
        forall y | y in rest ensures Below(r[0], y) {
          if y != x {
            var j :| 0 <= j < |r[1..]| && r[1..][j] == y;
            assert y == r[j + 1];
          }
        }
      }
      [r[0]] + rest
  }

  /** `sorted(s)`: the elements of `s` in ascending order. */
  ghost function SortedOf(s: set<string>): (r: seq<string>)
    ensures StrictlySorted(r)
    ensures forall y :: y in r <==> y in s
    ensures |r| == |s|
  {
    if s == {} then []
    else
      var x :| x in s;
      Insert(SortedOf(s - {x}), x)
  }

  /** Two sorted enumerations of the same elements are equal. */
  lemma {:induction false} SortedUnique(a: seq<string>, b: seq<string>)
    requires StrictlySorted(a) && StrictlySorted(b)
    requires forall y :: y in a <==> y in b
    ensures a == b
    decreases |a|
  {
    if a == [] {
      assert forall k :: 0 <= k < |b| ==> b[k] in b;
    } else {
      assert b != [] by { assert a[0] in b; }
      if a[0] != b[0] {
        assert b[0] in a && a[0] in b;
        var i :| 0 <= i < |a| && a[i] == b[0];
        var j :| 0 <= j < |b| && b[j] == a[0];
        assert i > 0 && j > 0;
        BelowTransitive(a[0], b[0], a[0]);
        BelowIrreflexive(a[0]);
      }
      forall y
        ensures y in a[1..] <==> y in b[1..]
      {
        if y in a[1..] {
          var i :| 0 <= i < |a[1..]| && a[1..][i] == y;
          assert Below(a[0], y);
          BelowAsymmetric(a[0], y);
          BelowIrreflexive(y);
          assert y in b;
        }
        if y in b[1..] {
          var j :| 0 <= j < |b[1..]| && b[1..][j] == y;
          assert Below(b[0], y);
          BelowIrreflexive(y);
          assert y in a;
        }
      }
      SortedUnique(a[1..], b[1..]);
    }
  }

  /** `sorted(s)` computed by inserting the elements one at a time. */
  method SortStrings(s: set<string>) returns (r: seq<string>)
    ensures StrictlySorted(r)
    ensures forall y :: y in r <==> y in s
    ensures r == SortedOf(s)
  {
    r := [];
    var rest := s;
    while rest != {}
      invariant rest <= s
      invariant StrictlySorted(r)
      invariant forall y :: y in r <==> y in s && y !in rest
      decreases rest
    {
      var x :| x in rest;
      r := Insert(r, x);
      rest := rest - {x};
    }
    SortedUnique(r, SortedOf(s));
  }
}
