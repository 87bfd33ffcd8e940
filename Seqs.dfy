/** Order-preserving sequence helpers: first-occurrence de-duplication and filtering. */
module Seqs {

  predicate Distinct<T(==)>(s: seq<T>) { forall i, j :: 0 <= i < j < |s| ==> s[i] != s[j] }

  lemma {:induction false} DistinctCardinality<T>(s: seq<T>)
    requires Distinct(s)
    ensures |set x | x in s| == |s|
    decreases |s|
  {
    if s != [] {
      var init := s[..|s| - 1];
      DistinctCardinality(init);
      assert (set x | x in s) == (set x | x in init) + {s[|s| - 1]};
      assert s[|s| - 1] !in init;
    }
  }

  /** `s[i]` is the first element of `s` with its key. */
  predicate FirstOfKey<T, K(==)>(s: seq<T>, i: int, key: T -> K)
    requires 0 <= i < |s|
  {
    forall k :: 0 <= k < i ==> key(s[k]) != key(s[i])
  }

  /**
   * The loop `for x in s: if key(x) not in seen: seen.add(key(x)); out.append(x)`:
   * the elements that are the first of their key, in their original order.
   */
  function DedupBy<T, K(==)>(s: seq<T>, key: T -> K): (r: seq<T>)
    ensures |r| <= |s|
    decreases |s|
  {
    if s == [] then []
    else
      var d := DedupBy(s[..|s| - 1], key);
      if FirstOfKey(s, |s| - 1, key) then d + [s[|s| - 1]] else d
  }

  lemma DedupBySnoc<T, K>(s: seq<T>, x: T, key: T -> K)
    ensures DedupBy(s + [x], key) == if FirstOfKey(s + [x], |s|, key) then DedupBy(s, key) + [x] else DedupBy(s, key)
  {
    assert (s + [x])[..|s|] == s;
  }

  lemma {:induction false} DedupByMembers<T, K>(s: seq<T>, key: T -> K)
    ensures forall i :: 0 <= i < |DedupBy(s, key)| ==> DedupBy(s, key)[i] in s
    decreases |s|
  {
    if s != [] {
      var init := s[..|s| - 1];
      DedupByMembers(init, key);
      forall i | 0 <= i < |DedupBy(init, key)| ensures DedupBy(init, key)[i] in s {
        var k :| 0 <= k < |init| && init[k] == DedupBy(init, key)[i];
        assert s[k] == init[k];
      }
    }
  }

  /** No two kept elements share a key. */
  lemma {:induction false} DedupByDistinct<T, K>(s: seq<T>, key: T -> K)
    ensures forall i, j :: 0 <= i < j < |DedupBy(s, key)| ==> key(DedupBy(s, key)[i]) != key(DedupBy(s, key)[j])
    decreases |s|
  {
    if s != [] {
      var init := s[..|s| - 1];
      var last := s[|s| - 1];
      DedupByDistinct(init, key);
      DedupByMembers(init, key);
      var d := DedupBy(init, key);
      if FirstOfKey(s, |s| - 1, key) {
        forall i | 0 <= i < |d| ensures key(d[i]) != key(last) {
          var k :| 0 <= k < |init| && init[k] == d[i];
          assert s[k] == init[k];
        }
      }
    }
  }

  /** Every key occurring in `s` is the key of some element of `r`. */
  ghost predicate KeysCovered<T, K>(s: seq<T>, r: seq<T>, key: T -> K) {
    forall i :: 0 <= i < |s| ==> exists j :: 0 <= j < |r| && key(r[j]) == key(s[i])
  }

  /** Every key of the input is kept. */
  lemma {:induction false} DedupByCovers<T, K>(s: seq<T>, key: T -> K)
    ensures KeysCovered(s, DedupBy(s, key), key)
    decreases |s|
  {
    if s != [] {
      var init := s[..|s| - 1];
      DedupByCovers(init, key);
      var d := DedupBy(init, key);
      var r := DedupBy(s, key);
      assert |d| <= |r| && forall j :: 0 <= j < |d| ==> r[j] == d[j];
      forall i | 0 <= i < |s| ensures exists j :: 0 <= j < |r| && key(r[j]) == key(s[i]) {
        if i < |s| - 1 {
          assert s[i] == init[i];
          var j :| 0 <= j < |d| && key(d[j]) == key(init[i]);
          assert r[j] == d[j];
        } else if FirstOfKey(s, |s| - 1, key) {
          assert r[|d|] == s[i];
        } else {
          var k :| 0 <= k < |s| - 1 && key(s[k]) == key(s[i]);
          assert s[k] == init[k];
          var j :| 0 <= j < |d| && key(d[j]) == key(init[k]);
          assert r[j] == d[j];
        }
      }
    }
  }

  /** The first element of a non-empty input is kept, in front. */
  lemma {:induction false} DedupByHead<T, K>(s: seq<T>, key: T -> K)
    requires |s| > 0
    ensures |DedupBy(s, key)| > 0 && DedupBy(s, key)[0] == s[0]
    decreases |s|
  {
    if |s| > 1 {
      var init := s[..|s| - 1];
      DedupByHead(init, key);
    }
  }

  /** The keys of the elements of `r`: what the loop's `seen` set holds. */
  function KeySet<T, K>(r: seq<T>, key: T -> K): set<K> {
    set j | 0 <= j < |r| :: key(r[j])
  }

  /** An element is the first of its key exactly when its key is not yet in `seen`. */
  lemma DedupBySeen<T, K>(s: seq<T>, x: T, key: T -> K)
    ensures FirstOfKey(s + [x], |s|, key) <==> key(x) !in KeySet(DedupBy(s, key), key)
  {
    DedupByMembers(s, key);
    DedupByCovers(s, key);
    var d := DedupBy(s, key);
    var t := s + [x];
    if !FirstOfKey(t, |s|, key) {
      var k :| 0 <= k < |s| && key(t[k]) == key(x);
      assert t[k] == s[k];
      var j :| 0 <= j < |d| && key(d[j]) == key(s[k]);
    } else {
      forall j | 0 <= j < |d| ensures key(d[j]) != key(x) {
        var k :| 0 <= k < |s| && s[k] == d[j];
        assert t[k] == s[k];
      }
    }
  }

  /**
   * One step of the `seen`-set loop: an element whose key was seen is dropped, any other is
   * appended and its key added to `seen`.
   */
  lemma DedupByStep<T, K>(s: seq<T>, x: T, key: T -> K)
    ensures var d := DedupBy(s, key);
            DedupBy(s + [x], key) == (if key(x) in KeySet(d, key) then d else d + [x]) &&
            KeySet(DedupBy(s + [x], key), key) == KeySet(d, key) + {key(x)}
  {
    DedupBySnoc(s, x, key);
    DedupBySeen(s, x, key);
    var d := DedupBy(s, key);
    var d2 := d + [x];
    assert KeySet(d2, key) == KeySet(d, key) + {key(x)} by {
      forall k | k in KeySet(d2, key) ensures k in KeySet(d, key) + {key(x)} {
        var j :| 0 <= j < |d2| && d2[j] == d2[j] && key(d2[j]) == k;
        if j < |d| { assert d2[j] == d[j]; }
      }
      forall k | k in KeySet(d, key) ensures k in KeySet(d2, key) {
        var j :| 0 <= j < |d| && key(d[j]) == k;
        assert d2[j] == d[j];
      }
      assert d2[|d|] == x;
    }
  }

  /** `DedupByStep` for a loop that filters and maps `s` before de-duplicating it. */
  lemma DedupMapFilterStep<A, B, K>(s: seq<A>, i: nat, p: A -> bool, f: A -> B, key: B -> K)
    requires i < |s|
    ensures var d := DedupBy(MapSeq(Filter(s[..i], p), f), key);
            var e := DedupBy(MapSeq(Filter(s[..i + 1], p), f), key);
            (!p(s[i]) ==> e == d) &&
            (p(s[i]) ==> e == (if key(f(s[i])) in KeySet(d, key) then d else d + [f(s[i])]) &&
                         KeySet(e, key) == KeySet(d, key) + {key(f(s[i]))})
  {
    MapFilterStep(s, i, p, f);
    if p(s[i]) {
      DedupByStep(MapSeq(Filter(s[..i], p), f), f(s[i]), key);
    } else {
      assert MapSeq(Filter(s[..i + 1], p), f) == MapSeq(Filter(s[..i], p), f);
    }
  }

  /** An element that passes the test keeps, after filtering, mapping and de-duplicating, a representative no later than itself. */
  lemma DedupMapFilterEarly<A, B, K>(s: seq<A>, k: nat, p: A -> bool, f: A -> B, key: B -> K)
    requires k < |s| && p(s[k])
    ensures var d := DedupBy(MapSeq(Filter(s, p), f), key);
            exists j :: 0 <= j <= k && j < |d| && key(d[j]) == key(f(s[k]))
  {
    var m := |Filter(s[..k], p)|;
    FilterPrefixStep(s, k, p);
    assert s == s[..k + 1] + s[k + 1..];
    FilterAppend(s[..k + 1], s[k + 1..], p);
    var fs := MapSeq(Filter(s, p), f);
    assert fs[m] == f(s[k]);
    DedupByEarly(fs, m, key);
  }

  /** The first element, when it passes the test, heads the filtered, mapped, de-duplicated sequence. */
  lemma DedupMapFilterHead<A, B, K>(s: seq<A>, p: A -> bool, f: A -> B, key: B -> K)
    requires |s| >= 1 && p(s[0])
    ensures var d := DedupBy(MapSeq(Filter(s, p), f), key);
            |d| >= 1 && d[0] == f(s[0])
  {
    var fs := MapSeq(Filter(s, p), f);
    assert Filter(s, p)[0] == s[0];
    DedupByHead(fs, key);
  }

  /** An element within the first `n` positions keeps a representative among the first `n` de-duplicated ones. */
  lemma DedupTakeEarly<T, K>(s: seq<T>, i: nat, key: T -> K, n: nat)
    requires i < |s| && i < n
    ensures exists v :: v in Take(DedupBy(s, key), n) && key(v) == key(s[i])
  {
    DedupByEarly(s, i, key);
    var d := DedupBy(s, key);
    var j :| 0 <= j <= i && j < |d| && key(d[j]) == key(s[i]);
    assert Take(d, n)[j] == d[j];
  }

  /** When no more than `n` keys occur, capping at `n` keeps every key. */
  lemma DedupTakeCovers<T, K>(s: seq<T>, i: nat, key: T -> K, n: nat)
    requires i < |s| && |DedupBy(s, key)| <= n
    ensures exists v :: v in Take(DedupBy(s, key), n) && key(v) == key(s[i])
  {
    DedupByCovers(s, key);
    var d := DedupBy(s, key);
    var j :| 0 <= j < |d| && key(d[j]) == key(s[i]);
    assert d[j] in Take(d, n);
  }

  /** Once the prefix up to `i` has `n` distinct keys, the first `n` of the whole are exactly those. */
  lemma DedupByCapped<T, K>(s: seq<T>, i: nat, key: T -> K, n: nat)
    requires i <= |s| && |DedupBy(s[..i], key)| == n
    ensures Take(DedupBy(s, key), n) == DedupBy(s[..i], key)
  {
    DedupByPrefix(s, i, key);
  }

  /** `DedupByStep` for a loop over the indices of `s`. */
  lemma DedupByPrefixStep<T, K>(s: seq<T>, i: nat, key: T -> K)
    requires i < |s|
    ensures var d := DedupBy(s[..i], key);
            DedupBy(s[..i + 1], key) == (if key(s[i]) in KeySet(d, key) then d else d + [s[i]]) &&
            KeySet(DedupBy(s[..i + 1], key), key) == KeySet(d, key) + {key(s[i])}
  {
    assert s[..i + 1] == s[..i] + [s[i]];
    DedupByStep(s[..i], s[i], key);
  }

  /** Deduplicating a prefix gives a prefix of the deduplicated whole. */
  lemma {:induction false} DedupByPrefix<T, K>(s: seq<T>, i: nat, key: T -> K)
    requires i <= |s|
    ensures var d := DedupBy(s, key); var p := DedupBy(s[..i], key); |p| <= |d| && d[..|p|] == p
    decreases |s| - i
  {
    if i < |s| {
      DedupByPrefix(s, i + 1, key);
      assert s[..i + 1][..i] == s[..i];
      var q := DedupBy(s[..i + 1], key);
      var p := DedupBy(s[..i], key);
      assert |p| <= |q| && q[..|p|] == p;
    } else {
      assert s[..i] == s;
    }
  }

  /** The key of the element at `i` is kept at a position no later than `i`. */
  lemma DedupByEarly<T, K>(s: seq<T>, i: nat, key: T -> K)
    requires i < |s|
    ensures exists j :: 0 <= j <= i && j < |DedupBy(s, key)| && key(DedupBy(s, key)[j]) == key(s[i])
  {
    var t := s[..i + 1];
    DedupByPrefix(s, i + 1, key);
    DedupByCovers(t, key);
    var p := DedupBy(t, key);
    assert t[i] == s[i];
    var j :| 0 <= j < |p| && key(p[j]) == key(t[i]);
    assert DedupBy(s, key)[j] == p[j];
  }

  /** `list(set(s))` with the set's order fixed to first occurrence: each element once. */
  /** The identity, as the key of plain de-duplication. */
  function Itself<T>(x: T): T { x }

  function Dedup<T(==,!new)>(s: seq<T>): (r: seq<T>)
    ensures Distinct(r)
    ensures forall x :: x in r <==> x in s
  {
    var key := Itself<T>;
    DedupByDistinct(s, key);
    DedupByMembers(s, key);
    DedupByCovers(s, key);
    var r := DedupBy(s, key);
    assert forall x :: x in s ==> x in r by {
      forall x | x in s ensures x in r {
        var i :| 0 <= i < |s| && s[i] == x;
        var j :| 0 <= j < |r| && key(r[j]) == key(s[i]);
      }
    }
    r
  }

  /** A mapped sequence after a prefix: its elements sit after the prefix, in order. */
  lemma AfterPrefix<A, B>(prefix: seq<B>, xs: seq<A>, f: A -> B)
    ensures |prefix + MapSeq(xs, f)| == |prefix| + |xs|
    ensures forall i :: 0 <= i < |xs| ==> (prefix + MapSeq(xs, f))[|prefix| + i] == f(xs[i])
  {
  }

  /** The loop `for x in s: if x not in out: out.append(x)`, one element at a time. */
  lemma DedupPrefixStep<T(!new)>(s: seq<T>, i: nat)
    requires i < |s|
    ensures Dedup(s[..i + 1]) == if s[i] in Dedup(s[..i]) then Dedup(s[..i]) else Dedup(s[..i]) + [s[i]]
  {
    var key := Itself<T>;
    DedupByPrefixStep(s, i, key);
    var d := DedupBy(s[..i], key);
    assert s[i] in KeySet(d, key) <==> s[i] in d by {
      if s[i] in d {
        var j :| 0 <= j < |d| && d[j] == s[i];
        assert key(d[j]) == s[i];
      }
    }
  }

  /** `[x for x in s if p(x)]`. */
  function Filter<T>(s: seq<T>, p: T -> bool): (r: seq<T>)
    ensures |r| <= |s|
    ensures forall i :: 0 <= i < |r| ==> r[i] in s && p(r[i])
    ensures forall i :: 0 <= i < |s| && p(s[i]) ==> s[i] in r
    decreases |s|
  {
    if s == [] then []
    else (if p(s[0]) then [s[0]] else []) + Filter(s[1..], p)
  }

  lemma FilterAppend<T>(a: seq<T>, b: seq<T>, p: T -> bool)
    ensures Filter(a + b, p) == Filter(a, p) + Filter(b, p)
  {
    if a == [] {
      assert a + b == b;
    } else {
      assert (a + b)[0] == a[0] && (a + b)[1..] == a[1..] + b;
      FilterAppend(a[1..], b, p);
    }
  }

  /** `s[:n]` for a non-negative bound. */
  function Take<T>(s: seq<T>, n: nat): (r: seq<T>)
    ensures |r| <= n && |r| <= |s|
    ensures |s| <= n ==> r == s
    ensures r == s[..|r|]
  {
    if |s| <= n then s else s[..n]
  }

  /**
   * Up to `n` elements that pass `p`, then up to `n2` that fail it: the passing ones come first,
   * as many as there are up to `n`, each group in order.
   */
  lemma TakeBothSides<T>(s: seq<T>, p: T -> bool, n: nat, n2: nat)
    ensures var r := Take(Filter(s, p), n) + Take(Filter(s, Not(p)), n2);
            var t := Filter(s, p);
            var m := if |t| < n then |t| else n;
            |r| <= n + n2 && m <= |r| &&
            (forall k :: 0 <= k < |r| ==> r[k] in s) &&
            (forall k :: 0 <= k < |r| ==> (p(r[k]) <==> k < m)) &&
            r[..m] == t[..m]
  {
    var t := Filter(s, p);
    var o := Filter(s, Not(p));
    var a := Take(t, n);
    var b := Take(o, n2);
    var r := a + b;
    var m := if |t| < n then |t| else n;
    assert |a| == m;
    forall k | 0 <= k < |r| ensures r[k] in s && (p(r[k]) <==> k < m) {
      if k < m {
        assert r[k] == a[k] == t[k];
      } else {
        assert r[k] == b[k - m] == o[k - m];
        assert Not(p)(o[k - m]);
      }
    }
    assert r[..m] == a;
  }

  /** The complement of a test. */
  function Not<T>(p: T -> bool): T -> bool {
    x => !p(x)
  }

  /** `a` is `b` with some elements left out, in the same order. */
  predicate SubsequenceOf<T(==)>(a: seq<T>, b: seq<T>)
    decreases |b|
  {
    if a == [] then true
    else if b == [] then false
    else if a[0] == b[0] then SubsequenceOf(a[1..], b[1..])
    else SubsequenceOf(a, b[1..])
  }

  /** A filter keeps the order of what it keeps. */
  lemma {:induction false} FilterSubsequence<T>(s: seq<T>, p: T -> bool)
    ensures SubsequenceOf(Filter(s, p), s)
    decreases |s|
  {
    if s != [] {
      FilterSubsequence(s[1..], p);
      if p(s[0]) {
        assert Filter(s, p)[0] == s[0] && Filter(s, p)[1..] == Filter(s[1..], p);
      } else {
        assert Filter(s, p) == Filter(s[1..], p);
        SubsequenceOfTail(Filter(s[1..], p), s);
      }
    }
  }

  /** A subsequence of the tail is a subsequence of the whole. */
  lemma {:induction false} SubsequenceOfTail<T>(a: seq<T>, b: seq<T>)
    requires b != [] && SubsequenceOf(a, b[1..])
    ensures SubsequenceOf(a, b)
    decreases |b|, 0
  {
    if a != [] && a[0] == b[0] {
      SubsequenceDrop(a, b[1..]);
    }
  }

  /** Dropping the first element keeps a subsequence. */
  lemma {:induction false} SubsequenceDrop<T>(a: seq<T>, c: seq<T>)
    requires a != [] && SubsequenceOf(a, c)
    ensures SubsequenceOf(a[1..], c)
    decreases |c|, 1
  {
    if a[0] == c[0] {
      SubsequenceOfTail(a[1..], c);
    } else {
      SubsequenceDrop(a, c[1..]);
      SubsequenceOfTail(a[1..], c);
    }
  }

  /** A test and its complement split a sequence: every element lands in exactly one of the two filters. */
  lemma {:induction false} FilterPartition<T>(s: seq<T>, p: T -> bool)
    ensures multiset(Filter(s, p)) + multiset(Filter(s, Not(p))) == multiset(s)
    ensures |Filter(s, p)| + |Filter(s, Not(p))| == |s|
    decreases |s|
  {
    if s != [] {
      FilterPartition(s[1..], p);
      assert s == [s[0]] + s[1..];
    }
  }

  /** Two tests that agree everywhere filter alike. */
  lemma {:induction false} FilterSameTest<T>(s: seq<T>, p: T -> bool, q: T -> bool)
    requires forall x :: p(x) == q(x)
    ensures Filter(s, p) == Filter(s, q)
    decreases |s|
  {
    if s != [] {
      FilterSameTest(s[1..], p, q);
    }
  }

  /** One more element of the input adds at most that element to the filter. */
  lemma FilterPrefixStep<T>(s: seq<T>, i: nat, p: T -> bool)
    requires i < |s|
    ensures Filter(s[..i + 1], p) == Filter(s[..i], p) + if p(s[i]) then [s[i]] else []
  {
    assert s[..i + 1] == s[..i] + [s[i]];
    FilterAppend(s[..i], [s[i]], p);
  }

  /** `[f(x) for x in s]`. */
  function MapSeq<A, B>(s: seq<A>, f: A -> B): (r: seq<B>)
    ensures |r| == |s| && forall i :: 0 <= i < |s| ==> r[i] == f(s[i])
  {
    seq(|s|, i requires 0 <= i < |s| => f(s[i]))
  }

  /** A prefix grows by the slice that follows it. */
  lemma PrefixSplit<T>(s: seq<T>, i: nat, j: nat)
    requires i <= j <= |s|
    ensures s[..j] == s[..i] + s[i..j]
  {
  }

  /** Mapping works element by element: the map of a concatenation is the concatenation of the maps. */
  lemma MapSeqAppend<A, B>(a: seq<A>, b: seq<A>, f: A -> B)
    ensures MapSeq(a + b, f) == MapSeq(a, f) + MapSeq(b, f)
  {
  }

  /** One more element of the input adds its image to a map. */
  /** Filtering then mapping a sequence with a known first element. */
  lemma MapFilterCons<A, B>(x: A, rest: seq<A>, p: A -> bool, f: A -> B)
    ensures MapSeq(Filter([x] + rest, p), f) == (if p(x) then [f(x)] else []) + MapSeq(Filter(rest, p), f)
  {
    assert ([x] + rest)[1..] == rest;
    var head := if p(x) then [x] else [];
    MapSeqAppend(head, Filter(rest, p), f);
  }

  lemma MapSeqStep<A, B>(s: seq<A>, i: nat, f: A -> B)
    requires i < |s|
    ensures MapSeq(s[..i + 1], f) == MapSeq(s[..i], f) + [f(s[i])]
  {
  }

  /** The element of `s` whose image is element `i` of a filtered map. */
  lemma MapFilterSource<A, B>(s: seq<A>, p: A -> bool, f: A -> B, i: nat) returns (j: nat)
    requires i < |Filter(s, p)|
    ensures j < |s| && p(s[j]) && MapSeq(Filter(s, p), f)[i] == f(s[j])
  {
    var kept := Filter(s, p);
    assert kept[i] in s && p(kept[i]);
    j :| j < |s| && s[j] == kept[i];
  }

  /**
   * Each element of a filtered map is the image of an element that passes, and every element
   * that passes has its image in it.
   */
  lemma MapFilterMembers<A, B>(s: seq<A>, p: A -> bool, f: A -> B)
    ensures forall y :: y in MapSeq(Filter(s, p), f) ==> exists j :: 0 <= j < |s| && p(s[j]) && y == f(s[j])
    ensures forall j :: 0 <= j < |s| && p(s[j]) ==> f(s[j]) in MapSeq(Filter(s, p), f)
  {
    var kept := Filter(s, p);
    var r := MapSeq(kept, f);
    forall y | y in r ensures exists j :: 0 <= j < |s| && p(s[j]) && y == f(s[j]) {
      var i :| 0 <= i < |r| && r[i] == y;
      var j := MapFilterSource(s, p, f, i);
    }
    forall j | 0 <= j < |s| && p(s[j]) ensures f(s[j]) in r {
      var k :| 0 <= k < |kept| && kept[k] == s[j];
      assert r[k] == f(s[j]);
    }
  }

  /** One more element of the input adds at most its image to a filtered map. */
  lemma MapFilterStep<A, B>(s: seq<A>, j: nat, p: A -> bool, f: A -> B)
    requires j < |s|
    ensures MapSeq(Filter(s[..j + 1], p), f) == MapSeq(Filter(s[..j], p), f) + if p(s[j]) then [f(s[j])] else []
  {
    FilterPrefixStep(s, j, p);
  }

  /**
   * A loop that sends each element to one of two lists by a test, mapping it on the way: the
   * images of the elements that pass, and of those that do not, each in input order.
   */
  function Partition<A, B, C>(s: seq<A>, p: A -> bool, f: A -> B, g: A -> C): (seq<B>, seq<C>)
    decreases |s|
  {
    if s == [] then ([], [])
    else
      var r := Partition(s[..|s| - 1], p, f, g);
      var x := s[|s| - 1];
      if p(x) then (r.0 + [f(x)], r.1) else (r.0, r.1 + [g(x)])
  }

  /** One more element of the input goes to one of the two lists. */
  lemma PartitionPrefix<A, B, C>(s: seq<A>, j: nat, p: A -> bool, f: A -> B, g: A -> C)
    requires j < |s|
    ensures Partition(s[..j + 1], p, f, g) ==
      var r := Partition(s[..j], p, f, g);
      if p(s[j]) then (r.0 + [f(s[j])], r.1) else (r.0, r.1 + [g(s[j])])
  {
    assert s[..j + 1][..j] == s[..j];
  }

  /** The two lists are the images of the filter by the test and of the filter by its complement. */
  lemma {:induction false} PartitionFilters<A, B, C>(s: seq<A>, p: A -> bool, f: A -> B, g: A -> C)
    ensures Partition(s, p, f, g).0 == MapSeq(Filter(s, p), f)
    ensures Partition(s, p, f, g).1 == MapSeq(Filter(s, Not(p)), g)
    decreases |s|
  {
    if s != [] {
      var i := |s| - 1;
      var x := s[i];
      assert s[..i + 1] == s;
      PartitionFilters(s[..i], p, f, g);
      var yes := MapSeq(Filter(s[..i], p), f);
      var no := MapSeq(Filter(s[..i], Not(p)), g);
      assert Partition(s, p, f, g) == if p(x) then (yes + [f(x)], no) else (yes, no + [g(x)]) by {
        PartitionPrefix(s, i, p, f, g);
      }
      assert MapSeq(Filter(s, p), f) == yes + if p(x) then [f(x)] else [] by {
        MapFilterStep(s, i, p, f);
      }
      assert MapSeq(Filter(s, Not(p)), g) == no + if p(x) then [] else [g(x)] by {
        MapFilterStep(s, i, Not(p), g);
      }
      if p(x) {
        assert no + [] == no;
      } else {
        assert yes + [] == yes;
      }
    }
  }

  /**
   * A test splits `s` in two, each side mapped by its own function: the two results together
   * have one element per element of `s`, each the image of an element on its side.
   */
  lemma MapFilterSplit<A, B, C>(s: seq<A>, p: A -> bool, f: A -> B, g: A -> C)
    ensures |MapSeq(Filter(s, p), f)| + |MapSeq(Filter(s, Not(p)), g)| == |s|
    ensures forall k :: 0 <= k < |MapSeq(Filter(s, p), f)| ==>
              exists x :: x in s && p(x) && MapSeq(Filter(s, p), f)[k] == f(x)
    ensures forall k :: 0 <= k < |MapSeq(Filter(s, Not(p)), g)| ==>
              exists x :: x in s && !p(x) && MapSeq(Filter(s, Not(p)), g)[k] == g(x)
    ensures MapSeq(Filter(s, p), f) == [] <==> forall x :: x in s ==> !p(x)
  {
    FilterPartition(s, p);
    var yes := Filter(s, p);
    var no := Filter(s, Not(p));
    forall k | 0 <= k < |yes| ensures exists x :: x in s && p(x) && MapSeq(yes, f)[k] == f(x) {
      assert yes[k] in s && p(yes[k]);
    }
    forall k | 0 <= k < |no| ensures exists x :: x in s && !p(x) && MapSeq(no, g)[k] == g(x) {
      assert no[k] in s && Not(p)(no[k]);
    }
    if yes == [] {
      forall x | x in s ensures !p(x) {
        var i :| 0 <= i < |s| && s[i] == x;
      }
    }
  }

  lemma DistinctSnoc<T>(s: seq<T>, x: T)
    ensures Distinct(s + [x]) <==> Distinct(s) && x !in s
  {
    var t := s + [x];
    assert forall i :: 0 <= i < |s| ==> t[i] == s[i];
    if Distinct(t) {
      forall i | 0 <= i < |s| ensures s[i] != x {
        assert t[i] != t[|s|];
      }
    }
  }

  /** A sequence has no repeated element exactly when no element occurs twice in its multiset. */
  lemma {:induction false} DistinctMultiplicity<T>(s: seq<T>)
    ensures Distinct(s) <==> forall x :: multiset(s)[x] <= 1
    decreases |s|
  {
    if s != [] {
      var init := s[..|s| - 1];
      var last := s[|s| - 1];
      DistinctMultiplicity(init);
      assert s == init + [last];
      DistinctSnoc(init, last);
      assert multiset(s) == multiset(init) + multiset{last};
      if Distinct(s) {
        assert multiset(init)[last] == 0;
        forall x ensures multiset(s)[x] <= 1 {
          assert multiset(s)[x] == multiset(init)[x] + if x == last then 1 else 0;
        }
      } else if Distinct(init) {
        assert last in multiset(init);
        assert multiset(s)[last] == multiset(init)[last] + 1;
      } else {
        var x :| multiset(init)[x] > 1;
        assert multiset(s)[x] >= multiset(init)[x];
      }
    }
  }

  /** Reordering keeps a sequence free of repeats. */
  lemma PermutationDistinct<T>(a: seq<T>, b: seq<T>)
    requires multiset(a) == multiset(b) && Distinct(a)
    ensures Distinct(b)
  {
    DistinctMultiplicity(a);
    DistinctMultiplicity(b);
  }

  /** A filter of a sequence without repeats has none. */
  lemma {:induction false} FilterDistinct<T>(s: seq<T>, p: T -> bool)
    requires Distinct(s)
    ensures Distinct(Filter(s, p))
    decreases |s|
  {
    if s != [] {
      assert Distinct(s[1..]) by {
        assert forall i :: 0 <= i < |s| - 1 ==> s[1..][i] == s[i + 1];
      }
      FilterDistinct(s[1..], p);
      if p(s[0]) {
        var t := Filter(s[1..], p);
        assert s[0] !in s[1..] by {
          forall i | 0 <= i < |s| - 1 ensures s[1..][i] != s[0] {
            assert s[1..][i] == s[i + 1];
          }
        }
        assert s[0] !in t;
        assert Filter(s, p) == [s[0]] + t;
        assert forall i :: 0 <= i < |t| ==> ([s[0]] + t)[i + 1] == t[i];
      }
    }
  }

  /** `[y for x in s for y in f(x)]`: each element replaced by its own results, in order. */
  function FlatMap<T, U>(s: seq<T>, f: T -> seq<U>): seq<U> {
    if s == [] then [] else f(s[0]) + FlatMap(s[1..], f)
  }

  lemma {:induction false} FlatMapAppend<T, U>(a: seq<T>, b: seq<T>, f: T -> seq<U>)
    ensures FlatMap(a + b, f) == FlatMap(a, f) + FlatMap(b, f)
    decreases |a|
  {
    if a != [] {
      assert (a + b)[1..] == a[1..] + b;
      FlatMapAppend(a[1..], b, f);
    } else {
      assert a + b == b;
    }
  }

  /** A result of any element is a result of the whole. */
  lemma {:induction false} FlatMapMember<T, U>(s: seq<T>, f: T -> seq<U>, k: nat, y: U)
    requires k < |s| && y in f(s[k])
    ensures y in FlatMap(s, f)
    decreases k
  {
    if k > 0 {
      assert s[1..][k - 1] == s[k];
      FlatMapMember(s[1..], f, k - 1, y);
    }
  }

  /** Every result of the whole is a result of some element. */
  lemma {:induction false} FlatMapSource<T, U>(s: seq<T>, f: T -> seq<U>, y: U)
    requires y in FlatMap(s, f)
    ensures exists k :: 0 <= k < |s| && y in f(s[k])
    decreases |s|
  {
    if y !in f(s[0]) {
      FlatMapSource(s[1..], f, y);
      var k :| 0 <= k < |s[1..]| && y in f(s[1..][k]);
      assert s[1..][k] == s[k + 1];
    }
  }

  /** Where every element maps to itself alone, the result is the input. */
  lemma {:induction false} FlatMapSingletons<T>(s: seq<T>, f: T -> seq<T>)
    requires forall k :: 0 <= k < |s| ==> f(s[k]) == [s[k]]
    ensures FlatMap(s, f) == s
    decreases |s|
  {
    if s != [] {
      assert forall k :: 0 <= k < |s[1..]| ==> s[1..][k] == s[k + 1];
      FlatMapSingletons(s[1..], f);
      assert s == [s[0]] + s[1..];
    }
  }
}
