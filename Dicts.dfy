/**
 * Python dictionaries with string keys, as sequences of (key, value) entries in insertion
 * order. Assigning to an existing key keeps its position; a new key goes to the end.
 */
module Dicts {
  import opened Wrappers
  import opened Text
  import Seqs

  type Dict<V> = seq<(String, V)>

  function Keys<V>(d: Dict<V>): (ks: seq<String>)
    ensures |ks| == |d| && forall i :: 0 <= i < |d| ==> ks[i] == d[i].0
  {
    if d == [] then [] else [d[0].0] + Keys(d[1..])
  }

  /** What every Python dictionary satisfies: no key twice. */
  predicate DistinctKeys<V>(d: Dict<V>) { Seqs.Distinct(Keys(d)) }

  /** `d.get(k)`: the value stored under `k`, if any. */
  function Get<V>(d: Dict<V>, k: String): (r: Option<V>)
    ensures r.None? <==> k !in Keys(d)
    ensures r.Some? ==> (k, r.value) in d
  {
    if d == [] then None
    else if d[0].0 == k then Some(d[0].1)
    else Get(d[1..], k)
  }

  /** In a dictionary without repeated keys, an entry is what a lookup of its key finds. */
  lemma GetEntry<V>(d: Dict<V>, k: String, v: V)
    requires DistinctKeys(d) && (k, v) in d
    ensures Get(d, k) == Some(v)
  {
    var i :| 0 <= i < |d| && d[i] == (k, v);
    assert Keys(d)[i] == k;
    var j :| 0 <= j < |d| && d[j] == (k, Get(d, k).value);
    assert Keys(d)[j] == k;
  }

  /** `d[k] = v`. */
  function Set<V>(d: Dict<V>, k: String, v: V): (r: Dict<V>)
    ensures Get(r, k) == Some(v)
  {
    if d == [] then [(k, v)]
    else if d[0].0 == k then [(k, v)] + d[1..]
    else [d[0]] + Set(d[1..], k, v)
  }

  /** Assignment adds its own entry and otherwise keeps entries that were there. */
  lemma {:induction false} SetEntries<V>(d: Dict<V>, k: String, v: V)
    ensures forall e :: e in Set(d, k, v) ==> e == (k, v) || e in d
  {
    if d != [] && d[0].0 != k {
      SetEntries(d[1..], k, v);
    }
  }

  /** Assignment leaves every other key as it was. */
  lemma {:induction false} SetGetOther<V>(d: Dict<V>, k: String, v: V, k2: String)
    requires k2 != k
    ensures Get(Set(d, k, v), k2) == Get(d, k2)
  {
    if d != [] && d[0].0 != k {
      SetGetOther(d[1..], k, v, k2);
    }
  }

  /** An existing key keeps its place; a new key is appended. */
  lemma {:induction false} SetKeys<V>(d: Dict<V>, k: String, v: V)
    ensures k in Keys(d) ==> Keys(Set(d, k, v)) == Keys(d)
    ensures k !in Keys(d) ==> Set(d, k, v) == d + [(k, v)]
  {
    if d != [] && d[0].0 != k {
      SetKeys(d[1..], k, v);
      assert d == [d[0]] + d[1..];
    }
  }

  /** Assignment keeps the key order, and a new key goes last. */
  lemma SetKeysOrder<V>(d: Dict<V>, k: String, v: V)
    ensures Keys(Set(d, k, v)) == if k in Keys(d) then Keys(d) else Keys(d) + [k]
  {
    SetKeys(d, k, v);
    if k !in Keys(d) {
      KeysAppend(d, (k, v));
    }
  }

  lemma KeysAppend<V>(d: Dict<V>, e: (String, V))
    ensures Keys(d + [e]) == Keys(d) + [e.0]
  {
    var r := d + [e];
    assert forall i :: 0 <= i < |d| ==> r[i] == d[i];
    assert r[|d|] == e;
  }

  lemma SetDistinct<V>(d: Dict<V>, k: String, v: V)
    requires DistinctKeys(d)
    ensures DistinctKeys(Set(d, k, v))
  {
    SetKeys(d, k, v);
    if k !in Keys(d) {
      var r := Set(d, k, v);
      assert Keys(r) == Keys(d) + [k];
    }
  }

  /** `d.update(e)`: `e`'s entries assigned in `e`'s order. */
  function Update<V>(d: Dict<V>, e: Dict<V>): Dict<V>
    decreases |e|
  {
    if e == [] then d else Update(Set(d, e[0].0, e[0].1), e[1..])
  }

  /** Dropping the first entry keeps the keys distinct and removes the first key altogether. */
  lemma DistinctTail<V>(d: Dict<V>)
    requires DistinctKeys(d) && d != []
    ensures DistinctKeys(d[1..]) && d[0].0 !in Keys(d[1..])
  {
    var rest := d[1..];
    assert Keys(d) == [d[0].0] + Keys(rest);
    forall i, j | 0 <= i < j < |Keys(rest)| ensures Keys(rest)[i] != Keys(rest)[j] {
      assert Keys(rest)[i] == Keys(d)[i + 1] && Keys(rest)[j] == Keys(d)[j + 1];
    }
    forall j | 0 <= j < |Keys(rest)| ensures Keys(rest)[j] != d[0].0 { assert Keys(rest)[j] == Keys(d)[j + 1]; }
  }

  /** After `d.update(e)` a key reads as in `e` when `e` has it, and as in `d` otherwise. */
  lemma {:induction false} UpdateGet<V>(d: Dict<V>, e: Dict<V>, k: String)
    requires DistinctKeys(e)
    ensures Get(Update(d, e), k) == if k in Keys(e) then Get(e, k) else Get(d, k)
    decreases |e|
  {
    if e != [] {
      DistinctTail(e);
      assert Keys(e) == [e[0].0] + Keys(e[1..]);
      UpdateGet(Set(d, e[0].0, e[0].1), e[1..], k);
      if e[0].0 != k {
        SetGetOther(d, e[0].0, e[0].1, k);
      }
    }
  }

  lemma {:induction false} UpdateDistinct<V>(d: Dict<V>, e: Dict<V>)
    requires DistinctKeys(d)
    ensures DistinctKeys(Update(d, e))
    decreases |e|
  {
    if e != [] {
      SetDistinct(d, e[0].0, e[0].1);
      UpdateDistinct(Set(d, e[0].0, e[0].1), e[1..]);
    }
  }

  /** `{k: v for k, v in d.items() if p(v)}`. */
  function FilterValues<V>(d: Dict<V>, p: V -> bool): (r: Dict<V>)
    ensures forall i :: 0 <= i < |r| ==> p(r[i].1) && r[i] in d
    decreases |d|
  {
    if d == [] then []
    else (if p(d[0].1) then [d[0]] else []) + FilterValues(d[1..], p)
  }

  /** Filtering introduces no key. */
  lemma {:induction false} FilterValuesKeys<V>(d: Dict<V>, p: V -> bool, k: String)
    requires k !in Keys(d)
    ensures k !in Keys(FilterValues(d, p))
    decreases |d|
  {
    if d != [] {
      assert Keys(d) == [d[0].0] + Keys(d[1..]);
      FilterValuesKeys(d[1..], p, k);
      var t := FilterValues(d[1..], p);
      assert Keys(FilterValues(d, p)) == (if p(d[0].1) then [d[0].0] else []) + Keys(t);
    }
  }

  /** Filtering keeps exactly the entries whose value passes, each under its own key. */
  lemma {:induction false} FilterValuesGet<V>(d: Dict<V>, p: V -> bool, k: String)
    requires DistinctKeys(d)
    ensures Get(FilterValues(d, p), k) == if Get(d, k).Some? && p(Get(d, k).value) then Get(d, k) else None
    decreases |d|
  {
    if d != [] {
      DistinctTail(d);
      FilterValuesGet(d[1..], p, k);
      var t := FilterValues(d[1..], p);
      var r := FilterValues(d, p);
      if p(d[0].1) {
        assert r == [d[0]] + t && r[1..] == t;
      } else {
        assert r == t;
      }
      if d[0].0 == k {
        FilterValuesKeys(d[1..], p, k);
      }
    }
  }

  lemma {:induction false} FilterValuesDistinct<V>(d: Dict<V>, p: V -> bool)
    requires DistinctKeys(d)
    ensures DistinctKeys(FilterValues(d, p))
    decreases |d|
  {
    if d != [] {
      DistinctTail(d);
      FilterValuesDistinct(d[1..], p);
      var t := FilterValues(d[1..], p);
      if p(d[0].1) {
        FilterValuesKeys(d[1..], p, d[0].0);
        var r := FilterValues(d, p);
        assert Keys(r) == [d[0].0] + Keys(t);
      } else {
        assert FilterValues(d, p) == t;
      }
    }
  }

  /**
   * The loop that groups elements by a key, skipping the empty key: each new key opens a list
   * at the end, and each element is appended to its key's list.
   */
  function GroupBy<T>(xs: seq<T>, key: T -> String): Dict<seq<T>>
    decreases |xs|
  {
    if xs == [] then []
    else
      var g := GroupBy(xs[..|xs| - 1], key);
      var last := xs[|xs| - 1];
      var t := key(last);
      if t == [] then g else Set(g, t, Get(g, t).GetOr([]) + [last])
  }

  function KeyIs<T>(key: T -> String, t: String): T -> bool {
    x => key(x) == t
  }

  lemma GroupBySnoc<T>(xs: seq<T>, x: T, key: T -> String)
    ensures GroupBy(xs + [x], key) ==
              var g := GroupBy(xs, key);
              if key(x) == [] then g else Set(g, key(x), Get(g, key(x)).GetOr([]) + [x])
  {
    var ys := xs + [x];
    assert ys[..|ys| - 1] == xs && ys[|ys| - 1] == x;
  }

  /** Each non-empty key's list is, in order, the elements with that key; the empty key has none. */
  lemma {:induction false} GroupByGet<T>(xs: seq<T>, key: T -> String, t: String)
    ensures DistinctKeys(GroupBy(xs, key))
    ensures t == [] ==> Get(GroupBy(xs, key), t).None?
    ensures t != [] ==> Get(GroupBy(xs, key), t).GetOr([]) == Seqs.Filter(xs, KeyIs(key, t))
    ensures Get(GroupBy(xs, key), t).Some? ==> Get(GroupBy(xs, key), t).value != []
    decreases |xs|
  {
    if xs != [] {
      var init := xs[..|xs| - 1];
      var last := xs[|xs| - 1];
      var g := GroupBy(init, key);
      var tl := key(last);
      GroupByGet(init, key, t);
      assert xs == init + [last];
      Seqs.FilterAppend(init, [last], KeyIs(key, t));
      if tl != [] {
        SetDistinct(g, tl, Get(g, tl).GetOr([]) + [last]);
        if tl != t {
          SetGetOther(g, tl, Get(g, tl).GetOr([]) + [last], t);
        }
      }
    }
  }

  /** Every group is, in order, the elements that carry its key, and no group has the empty key. */
  lemma GroupByEntries<T>(xs: seq<T>, key: T -> String)
    ensures forall e :: e in GroupBy(xs, key) ==> e.0 != [] && e.1 == Seqs.Filter(xs, KeyIs(key, e.0))
  {
    var g := GroupBy(xs, key);
    forall e | e in g ensures e.0 != [] && e.1 == Seqs.Filter(xs, KeyIs(key, e.0)) {
      GroupByGet(xs, key, e.0);
      GetEntry(g, e.0, e.1);
    }
  }

  /** Every grouped element is one of the elements. */
  lemma {:induction false} GroupByMembers<T>(xs: seq<T>, key: T -> String)
    ensures forall e, x :: e in GroupBy(xs, key) && x in e.1 ==> x in xs
    decreases |xs|
  {
    if xs != [] {
      var init := xs[..|xs| - 1];
      var last := xs[|xs| - 1];
      var g := GroupBy(init, key);
      var tl := key(last);
      GroupByMembers(init, key);
      assert xs == init + [last];
      if tl != [] {
        SetEntries(g, tl, Get(g, tl).GetOr([]) + [last]);
      }
    }
  }

  /** `for k in keys: m[k] = v` on a plain map. */
  method AssignAll(m: map<String, String>, keys: seq<String>, v: String) returns (r: map<String, String>)
    ensures r == m + map k | k in keys :: v
  {
    r := m;
    for j := 0 to |keys|
      invariant r == m + map k | k in keys[..j] :: v
    {
      assert keys[..j + 1] == keys[..j] + [keys[j]];
      r := r[keys[j] := v];
    }
    assert keys[..|keys|] == keys;
  }

  /**
   * `for x in xs: for k in keys(x): m[k] = value(x)` from an empty map: every key of every
   * element is assigned that element's value, later elements overwriting earlier ones.
   */
  function Assignments<T>(xs: seq<T>, keys: T -> seq<String>, value: T -> String): map<String, String>
    decreases |xs|
  {
    if xs == [] then map[]
    else
      var last := xs[|xs| - 1];
      Assignments(xs[..|xs| - 1], keys, value) + map k | k in keys(last) :: value(last)
  }

  /** A key is assigned exactly when some element lists it, and it holds the value of the last such element. */
  lemma {:induction false} AssignmentsSpec<T>(xs: seq<T>, keys: T -> seq<String>, value: T -> String, k: String)
    ensures k in Assignments(xs, keys, value) <==> exists i :: 0 <= i < |xs| && k in keys(xs[i])
    ensures k in Assignments(xs, keys, value) ==>
              exists i :: (0 <= i < |xs| && k in keys(xs[i]) && Assignments(xs, keys, value)[k] == value(xs[i]) &&
                           forall j :: i < j < |xs| ==> k !in keys(xs[j]))
    decreases |xs|
  {
    if xs != [] {
      var init := xs[..|xs| - 1];
      AssignmentsSpec(init, keys, value, k);
      assert forall i :: 0 <= i < |init| ==> init[i] == xs[i];
    }
  }

  lemma AssignmentsStep<T>(xs: seq<T>, keys: T -> seq<String>, value: T -> String, i: nat)
    requires i < |xs|
    ensures Assignments(xs[..i + 1], keys, value) == Assignments(xs[..i], keys, value) + map k | k in keys(xs[i]) :: value(xs[i])
  {
    assert xs[..i + 1][..i] == xs[..i];
  }
}
