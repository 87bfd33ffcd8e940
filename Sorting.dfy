/** Python's ordering of strings (code point by code point) and sorting by it. */
module Sorting {
  import opened Text
  import opened Seqs

  /** `a <= b` for Python strings. */
  predicate Below(a: String, b: String)
    decreases |a|
  {
    a == [] || (b != [] && (a[0] < b[0] || (a[0] == b[0] && Below(a[1..], b[1..]))))
  }

  lemma {:induction false} BelowTotal(a: String, b: String)
    ensures Below(a, b) || Below(b, a)
    decreases |a|
  {
    if a != [] && b != [] && a[0] == b[0] { BelowTotal(a[1..], b[1..]); }
  }

  lemma {:induction false} BelowTrans(a: String, b: String, c: String)
    requires Below(a, b) && Below(b, c)
    ensures Below(a, c)
    decreases |a|
  {
    if a != [] && b != [] && c != [] && a[0] == b[0] && b[0] == c[0] { BelowTrans(a[1..], b[1..], c[1..]); }
  }

  lemma {:induction false} BelowAntisym(a: String, b: String)
    requires Below(a, b) && Below(b, a)
    ensures a == b
    decreases |a|
  {
    if a != [] {
      BelowAntisym(a[1..], b[1..]);
      assert a == [a[0]] + a[1..] && b == [b[0]] + b[1..];
    }
  }

  predicate Sorted(s: seq<String>) { forall i, j :: 0 <= i < j < |s| ==> Below(s[i], s[j]) }

  /** A string below every element of a sorted sequence can go in front of it. */
  lemma SortedCons(k: String, s: seq<String>)
    requires Sorted(s) && forall j :: 0 <= j < |s| ==> Below(k, s[j])
    ensures Sorted([k] + s)
  {
    var r := [k] + s;
    assert forall j :: 0 < j < |r| ==> r[j] == s[j - 1];
  }

  function Insert(x: String, s: seq<String>): (r: seq<String>)
    requires Sorted(s)
    ensures Sorted(r)
    ensures multiset(r) == multiset(s) + multiset{x}
    decreases |s|
  {
    if s == [] then [x]
    else if Below(x, s[0]) then
      assert forall j :: 0 <= j < |s| ==> Below(x, s[j]) by {
        forall j | 0 <= j < |s| ensures Below(x, s[j]) { if j > 0 { BelowTrans(x, s[0], s[j]); } }
      }
      [x] + s
    else
      BelowTotal(x, s[0]);
      var t := Insert(x, s[1..]);
      assert s == [s[0]] + s[1..];
      assert forall j :: 0 <= j < |t| ==> Below(s[0], t[j]) by {
        forall j | 0 <= j < |t| ensures Below(s[0], t[j]) {
          assert t[j] in multiset(t);
          assert t[j] == x || t[j] in multiset(s[1..]);
        }
      }
      [s[0]] + t
  }

  /** `sorted(s)`. */
  function Sort(s: seq<String>): (r: seq<String>)
    ensures Sorted(r)
    ensures multiset(r) == multiset(s)
    decreases |s|
  {
    if s == [] then []
    else
      assert s == s[..|s| - 1] + [s[|s| - 1]];
      Insert(s[|s| - 1], Sort(s[..|s| - 1]))
  }

  /** `m` is a least element of `s`. */
  predicate IsLeast(m: String, s: set<String>) { m in s && forall y :: y in s ==> Below(m, y) }

  /** Two sorted orderings of the same strings start with the same string. */
  lemma SortedSameHead(a: seq<String>, b: seq<String>)
    requires Sorted(a) && Sorted(b) && multiset(a) == multiset(b) && a != []
    ensures b != [] && a[0] == b[0]
  {
    assert a[0] in multiset(b) && |b| == |multiset(b)|;
    assert b[0] in multiset(a);
    var j :| 0 <= j < |b| && b[j] == a[0];
    var i :| 0 <= i < |a| && a[i] == b[0];
    if j != 0 && i != 0 {
      BelowAntisym(a[0], b[0]);
    }
  }

  /** Sorting is deterministic: two sorted orderings of the same strings are the same sequence. */
  lemma {:induction false} SortedUnique(a: seq<String>, b: seq<String>)
    requires Sorted(a) && Sorted(b) && multiset(a) == multiset(b)
    ensures a == b
    decreases |a|
  {
    assert |a| == |multiset(a)| == |b|;
    if a != [] {
      SortedSameHead(a, b);
      var ta, tb := a[1..], b[1..];
      assert a == [a[0]] + ta && b == [b[0]] + tb;
      assert multiset(ta) == multiset(tb) by {
        assert multiset(ta) == multiset(a) - multiset{a[0]};
        assert multiset(tb) == multiset(b) - multiset{b[0]};
      }
      assert Sorted(ta) && Sorted(tb);
      SortedUnique(ta, tb);
    }
  }

  lemma {:induction false} MinimumExists(s: set<String>)
    requires s != {}
    ensures exists m :: IsLeast(m, s)
    decreases |s|
  {
    var x :| x in s;
    if s == {x} {
      BelowTotal(x, x);
      assert IsLeast(x, s);
    } else {
      var rest := s - {x};
      assert rest != {} && |rest| < |s|;
      MinimumExists(rest);
      var m :| IsLeast(m, rest);
      BelowTotal(m, x);
      if Below(m, x) {
        forall y | y in s ensures Below(m, y) { if y != x { assert y in rest; } }
        assert IsLeast(m, s);
      } else {
        forall y | y in s ensures Below(x, y) {
          if y == x { BelowTotal(x, x); } else { assert y in rest; BelowTrans(x, m, y); }
        }
        assert IsLeast(x, s);
      }
    }
  }

  /** The least element of a non-empty set of strings. */
  function Minimum(s: set<String>): (m: String)
    requires s != {}
    ensures m in s && forall y :: y in s ==> Below(m, y)
  {
    MinimumExists(s);
    assert forall a, b :: a in s && b in s && Below(a, b) && Below(b, a) ==> a == b by {
      forall a, b | a in s && b in s && Below(a, b) && Below(b, a) ensures a == b { BelowAntisym(a, b); }
    }
    var m :| IsLeast(m, s);
    m
  }

  /** `sorted(s)` for a Python set: its elements once each, in ascending order. */
  function SortedSet(s: set<String>): (r: seq<String>)
    ensures Sorted(r) && Distinct(r)
    ensures forall x :: x in r <==> x in s
    ensures |r| == |s|
    decreases |s|
  {
    if s == {} then []
    else
      var m := Minimum(s);
      var t := SortedSet(s - {m});
      assert forall j :: 0 <= j < |t| ==> Below(m, t[j]) && t[j] != m by {
        forall j | 0 <= j < |t| ensures Below(m, t[j]) && t[j] != m { assert t[j] in s - {m}; }
      }
      [m] + t
  }
}
