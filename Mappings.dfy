/**
 * What the course/program mapping scripts share: maps from a code to a set of codes (Python's
 * `defaultdict(set)`), the loop that collects the program codes found in a text, merging and
 * inverting such maps, and the JSON shape they are saved in (one entry per key with values,
 * in key order).
 */
module Mappings {
  import opened Text
  import opened Seqs
  import opened Dicts
  import Sorting

  /** A map from a code to the codes it is associated with. */
  type SetMap = map<String, set<String>>

  /** `m[k]` on a `defaultdict(set)`: the set stored under `k`, or the empty set. */
  function Lookup(m: SetMap, k: String): set<String> {
    if k in m then m[k] else {}
  }

  /** No key is stored with an empty set. */
  predicate AllNonEmpty(m: SetMap) {
    forall k :: k in m ==> m[k] != {}
  }

  /**
   * The loop `for code in program_codes: if <code is found in text>: found.add(code)`: the codes
   * that `found` accepts for the text, each in its own spelling.
   */
  method CodesFound(text: String, codes: seq<String>, found: (String, String) -> bool) returns (r: set<String>)
    ensures r == set c | c in codes && found(text, c)
  {
    r := {};
    for i := 0 to |codes|
      invariant r == set c | c in codes[..i] && found(text, c)
    {
      assert codes[..i + 1] == codes[..i] + [codes[i]];
      if found(text, codes[i]) {
        r := r + {codes[i]};
      }
    }
    assert codes[..|codes|] == codes;
  }

  /** `code.upper() in text.upper()`: the code occurs in the text, ignoring case. */
  predicate MentionsIgnoringCase(text: String, code: String) {
    Contains(Upper(text), Upper(code))
  }

  /** The slice of `text` at `i` equals `code` once both are upper-cased. */
  predicate MatchesIgnoringCaseAt(text: String, code: String, i: int) {
    0 <= i && i + |code| <= |text| && Upper(text[i..i + |code|]) == Upper(code)
  }

  /** The code is mentioned exactly when it matches, ignoring case, at some position of the text. */
  lemma MentionsIgnoringCaseSpec(text: String, code: String)
    ensures MentionsIgnoringCase(text, code) <==> exists i :: MatchesIgnoringCaseAt(text, code, i)
  {
    ContainsSpec(Upper(text), Upper(code));
    forall i ensures MatchesIgnoringCaseAt(text, code, i) <==> OccursAt(Upper(text), Upper(code), i) {
      MatchesAtUpper(text, code, i);
    }
  }

  lemma MatchesAtUpper(text: String, code: String, i: int)
    ensures MatchesIgnoringCaseAt(text, code, i) <==> OccursAt(Upper(text), Upper(code), i)
  {
    if 0 <= i && i + |code| <= |text| {
      UpperSlice(text, i, i + |code|);
    }
  }

  lemma UpperSlice(s: String, i: nat, j: nat)
    requires i <= j <= |s|
    ensures Upper(s)[i..j] == Upper(s[i..j])
  {
  }

  /** `set(c for c in codes if c.upper() in text.upper())`. */
  function CodesMentioned(text: String, codes: seq<String>): (r: set<String>)
    ensures r <= set c | c in codes
  {
    set c | c in codes && MentionsIgnoringCase(text, c)
  }

  /** `m[code].update(found)` when `found` is not empty, and nothing otherwise. */
  function Accumulate(m: SetMap, code: String, found: set<String>): SetMap {
    if found == {} then m else m[code := Lookup(m, code) + found]
  }

  lemma AccumulateLookup(m: SetMap, code: String, found: set<String>, k: String)
    ensures k in Accumulate(m, code, found) <==> k in m || (k == code && found != {})
    ensures Lookup(Accumulate(m, code, found), k) == Lookup(m, k) + if k == code then found else {}
  {
  }

  /**
   * The aggregation loop over items, each giving a course code and the program codes found for
   * it (an empty set for an item that is skipped).
   */
  function Collected<T>(xs: seq<T>, f: T -> (String, set<String>)): SetMap
    decreases |xs|
  {
    if xs == [] then map[]
    else
      var last := f(xs[|xs| - 1]);
      Accumulate(Collected(xs[..|xs| - 1], f), last.0, last.1)
  }

  /**
   * A code is a key exactly when some item gives it with a non-empty set, and its set is the
   * union of the sets the items give it; no key has an empty set.
   */
  lemma {:induction false} CollectedSpec<T>(xs: seq<T>, f: T -> (String, set<String>), k: String)
    ensures AllNonEmpty(Collected(xs, f))
    ensures k in Collected(xs, f) <==> exists i :: 0 <= i < |xs| && f(xs[i]).0 == k && f(xs[i]).1 != {}
    ensures forall x :: x in Lookup(Collected(xs, f), k) <==> exists i :: 0 <= i < |xs| && f(xs[i]).0 == k && x in f(xs[i]).1
    decreases |xs|
  {
    if xs != [] {
      var init := xs[..|xs| - 1];
      var n := |xs| - 1;
      CollectedSpec(init, f, k);
      AccumulateLookup(Collected(init, f), f(xs[n]).0, f(xs[n]).1, k);
      assert forall i :: 0 <= i < |init| ==> init[i] == xs[i];
      forall x ensures x in Lookup(Collected(xs, f), k) <==> exists i :: 0 <= i < |xs| && f(xs[i]).0 == k && x in f(xs[i]).1 {
        if exists i :: 0 <= i < |xs| && f(xs[i]).0 == k && x in f(xs[i]).1 {
          var i :| 0 <= i < |xs| && f(xs[i]).0 == k && x in f(xs[i]).1;
          if i < n {
            assert x in Lookup(Collected(init, f), k);
          }
        }
      }
      if k in Collected(xs, f) && k !in Collected(init, f) {
        assert f(xs[n]).0 == k && f(xs[n]).1 != {};
      }
      forall k2 | k2 in Collected(xs, f) ensures Collected(xs, f)[k2] != {} {
        CollectedSpec(init, f, k2);
        AccumulateLookup(Collected(init, f), f(xs[n]).0, f(xs[n]).1, k2);
      }
    }
  }

  /**
   * `x` is under `k` exactly when some item satisfies `gives`, for any test `gives` that picks
   * out the items that give `k` with `x`.
   */
  lemma CollectedMember<T>(xs: seq<T>, f: T -> (String, set<String>), k: String, x: String, gives: T -> bool)
    requires forall y :: gives(y) <==> f(y).0 == k && x in f(y).1
    ensures AllNonEmpty(Collected(xs, f))
    ensures x in Lookup(Collected(xs, f), k) <==> exists i :: 0 <= i < |xs| && gives(xs[i])
  {
    CollectedSpec(xs, f, k);
  }

  /** One more item updates the collection as the loop body does. */
  lemma CollectedStep<T>(xs: seq<T>, f: T -> (String, set<String>), i: nat)
    requires i < |xs|
    ensures Collected(xs[..i + 1], f) == Accumulate(Collected(xs[..i], f), f(xs[i]).0, f(xs[i]).1)
  {
    assert xs[..i + 1][..i] == xs[..i];
  }

  /** `merge_mappings`: every key of either map, with the union of its two sets. */
  function Merge(m1: SetMap, m2: SetMap): SetMap {
    map k | k in m1.Keys + m2.Keys :: Lookup(m1, k) + Lookup(m2, k)
  }

  /** The entries of `m` whose keys are in `ks`. */
  function Restrict(m: SetMap, ks: set<String>): SetMap {
    map k | k in m && k in ks :: m[k]
  }

  lemma RestrictLookup(m: SetMap, ks: set<String>, j: String)
    ensures j in Restrict(m, ks) <==> j in m && j in ks
    ensures Lookup(Restrict(m, ks), j) == if j in ks then Lookup(m, j) else {}
  {
  }

  /**
   * The loop of `merge_mappings`: starting from a copy of the first map, each key of the second
   * has its set added to what the merged map holds for it. The copy is shallow, so the sets the
   * two maps share are updated in place: `first` is the first map as it stands afterwards, its
   * keys unchanged and each of its sets grown to the merged one.
   */
  method MergeMappings(m1: SetMap, m2: SetMap) returns (merged: SetMap, first: SetMap)
    ensures merged == Merge(m1, m2)
    ensures first == Restrict(merged, m1.Keys)
  {
    merged := m1;
    first := m1;
    var rest := m2.Keys;
    ghost var done: set<String> := {};
    assert Restrict(m2, done) == map[];
    MergeEmpty(m1);
    assert Restrict(m1, m1.Keys) == m1;
    while rest != {}
      invariant rest <= m2.Keys && done == m2.Keys - rest
      invariant merged == Merge(m1, Restrict(m2, done))
      invariant first == Restrict(merged, m1.Keys)
      decreases rest
    {
      var k :| k in rest;
      MergeStep(m1, m2, done, k);
      ghost var before := merged;
      merged := merged[k := Lookup(merged, k) + m2[k]];
      if k in first {
        first := first[k := first[k] + m2[k]];
      }
      RestrictUpdate(before, m1.Keys, k, merged[k]);
      rest := rest - {k};
      done := done + {k};
    }
    assert Restrict(m2, done) == m2;
  }

  lemma RestrictUpdate(m: SetMap, ks: set<String>, k: String, v: set<String>)
    requires k in m ==> k in ks
    ensures Restrict(m[k := v], ks) == if k in ks then Restrict(m, ks)[k := v] else Restrict(m, ks)
  {
  }

  /** A key of the merge holds what either map holds for it. */
  lemma MergeLookup(m1: SetMap, m2: SetMap, k: String, v: String)
    ensures (k in Merge(m1, m2) && v in Merge(m1, m2)[k]) <==> v in Lookup(m1, k) || v in Lookup(m2, k)
  {
  }

  lemma MergeEmpty(m1: SetMap)
    ensures Merge(m1, map[]) == m1
  {
    var m := Merge(m1, map[]);
    assert m.Keys == m1.Keys;
    forall k | k in m ensures m[k] == m1[k] {
    }
  }

  lemma MergeStep(m1: SetMap, m2: SetMap, done: set<String>, k: String)
    requires done <= m2.Keys && k in m2 && k !in done
    ensures var before := Merge(m1, Restrict(m2, done));
            Merge(m1, Restrict(m2, done + {k})) == before[k := Lookup(before, k) + m2[k]]
  {
    var before := Merge(m1, Restrict(m2, done));
    var after := Merge(m1, Restrict(m2, done + {k}));
    var expected := before[k := Lookup(before, k) + m2[k]];
    forall j ensures (j in after <==> j in expected) && Lookup(after, j) == Lookup(expected, j) {
      RestrictLookup(m2, done, j);
      RestrictLookup(m2, done + {k}, j);
    }
    assert after.Keys == expected.Keys;
  }

  /** Merging collections agrees with collecting both runs, key by key. */
  lemma MergeCollectedAt<T>(xs: seq<T>, ys: seq<T>, f: T -> (String, set<String>), k: String)
    ensures Lookup(Collected(xs + ys, f), k) == Lookup(Merge(Collected(xs, f), Collected(ys, f)), k)
    ensures k in Collected(xs + ys, f) <==> k in Merge(Collected(xs, f), Collected(ys, f))
  {
    var all := Collected(xs + ys, f);
    var m := Merge(Collected(xs, f), Collected(ys, f));
    CollectedSpec(xs + ys, f, k);
    CollectedSpec(xs, f, k);
    CollectedSpec(ys, f, k);
    forall x ensures x in Lookup(all, k) <==> x in Lookup(m, k) {
      if x in Lookup(m, k) {
        if x in Lookup(Collected(xs, f), k) {
          var i :| 0 <= i < |xs| && f(xs[i]).0 == k && x in f(xs[i]).1;
          assert (xs + ys)[i] == xs[i];
        } else {
          var i :| 0 <= i < |ys| && f(ys[i]).0 == k && x in f(ys[i]).1;
          assert (xs + ys)[|xs| + i] == ys[i];
        }
      }
      if x in Lookup(all, k) {
        var i :| 0 <= i < |xs + ys| && f((xs + ys)[i]).0 == k && x in f((xs + ys)[i]).1;
        if i < |xs| {
          assert (xs + ys)[i] == xs[i];
        } else {
          assert (xs + ys)[i] == ys[i - |xs|];
        }
      }
    }
    if k in m {
      assert k in Collected(xs, f) ==> Collected(xs, f)[k] != {};
      assert k in Collected(ys, f) ==> Collected(ys, f)[k] != {};
    }
    if k in all {
      assert all[k] != {};
    }
  }

  /** Merging the collections of two runs gives the collection of both runs together. */
  lemma MergeCollected<T>(xs: seq<T>, ys: seq<T>, f: T -> (String, set<String>))
    ensures Collected(xs + ys, f) == Merge(Collected(xs, f), Collected(ys, f))
  {
    var all := Collected(xs + ys, f);
    var m := Merge(Collected(xs, f), Collected(ys, f));
    forall k ensures (k in all <==> k in m) && Lookup(all, k) == Lookup(m, k) {
      MergeCollectedAt(xs, ys, f, k);
    }
    assert all.Keys == m.Keys;
  }

  /** The pairs (key, value) a map relates. */
  function Pairs(m: SetMap): set<(String, String)> {
    set c, p | c in m && p in m[c] :: (c, p)
  }

  /** The map that sends each second component to the set of first components paired with it. */
  function InvertPairs(pairs: set<(String, String)>): SetMap {
    map p | p in Seconds(pairs) :: FirstsWith(pairs, p)
  }

  function Seconds(pairs: set<(String, String)>): set<String> {
    set q | q in pairs :: q.1
  }

  function FirstsWith(pairs: set<(String, String)>, p: String): set<String> {
    set q | q in pairs && q.1 == p :: q.0
  }

  /** `invert_mapping`: each program code to the set of course codes whose sets contain it. */
  function Invert(m: SetMap): SetMap {
    InvertPairs(Pairs(m))
  }

  /** A course is under a program in the inverse exactly when the program is under the course. */
  lemma InvertSpec(m: SetMap)
    ensures AllNonEmpty(Invert(m))
    ensures forall c, p :: c in Lookup(Invert(m), p) <==> c in m && p in m[c]
  {
    var inv := Invert(m);
    forall p | p in inv ensures inv[p] != {} {
      var q :| q in Pairs(m) && q.1 == p;
      assert q.0 in inv[p];
    }
    forall c, p ensures c in Lookup(inv, p) <==> c in m && p in m[c] {
      if c in m && p in m[c] {
        assert (c, p) in Pairs(m);
      }
    }
  }

  /** The entries of `m` with a non-empty set. */
  function NonEmptyPart(m: SetMap): (r: SetMap)
    ensures AllNonEmpty(r)
  {
    map k | k in m && m[k] != {} :: m[k]
  }

  /** Inverting twice gives back the map without its empty entries. */
  lemma InvertTwice(m: SetMap)
    ensures Invert(Invert(m)) == NonEmptyPart(m)
  {
    var inv := Invert(m);
    var back := Invert(inv);
    InvertSpec(m);
    InvertSpec(inv);
    forall c ensures (c in back <==> c in NonEmptyPart(m)) && Lookup(back, c) == Lookup(NonEmptyPart(m), c) {
      forall p ensures p in Lookup(back, c) <==> p in Lookup(NonEmptyPart(m), c) {
        assert p in Lookup(back, c) <==> c in Lookup(inv, p);
      }
      if c in back {
        assert back[c] != {};
      }
      if c in NonEmptyPart(m) {
        var p :| p in m[c];
        assert p in Lookup(back, c);
      }
    }
  }

  /** Adding one pair adds its first component under its second. */
  lemma InvertPairsAdd(pairs: set<(String, String)>, c: String, p: String)
    ensures InvertPairs(pairs + {(c, p)}) == InvertPairs(pairs)[p := Lookup(InvertPairs(pairs), p) + {c}]
  {
    var before := InvertPairs(pairs);
    var after := InvertPairs(pairs + {(c, p)});
    assert after.Keys == before.Keys + {p};
    forall p2 | p2 in after ensures after[p2] == before[p := Lookup(before, p) + {c}][p2] {
      if p2 != p {
        assert p2 in before;
      }
    }
  }

  /**
   * The nested loop of `invert_mapping`: for each course and each of its programs, the course is
   * added to the program's set.
   */
  method InvertMapping(m: SetMap) returns (inv: SetMap)
    ensures inv == Invert(m)
  {
    inv := map[];
    ghost var done: set<(String, String)> := {};
    var keys := m.Keys;
    while keys != {}
      invariant keys <= m.Keys
      invariant done == Pairs(Restrict(m, m.Keys - keys))
      invariant inv == InvertPairs(done)
      decreases keys
    {
      var c :| c in keys;
      var ps := m[c];
      ghost var outer := done;
      while ps != {}
        invariant ps <= m[c]
        invariant done == outer + set p | p in m[c] - ps :: (c, p)
        invariant inv == InvertPairs(done)
        decreases ps
      {
        var p :| p in ps;
        InvertPairsAdd(done, c, p);
        inv := inv[p := Lookup(inv, p) + {c}];
        done := done + {(c, p)};
        ps := ps - {p};
      }
      PairsStep(m, keys, c);
      keys := keys - {c};
    }
    assert Restrict(m, m.Keys - keys) == m;
    assert done == Pairs(m);
  }

  lemma PairsStep(m: SetMap, keys: set<String>, c: String)
    requires keys <= m.Keys && c in keys
    ensures Pairs(Restrict(m, m.Keys - (keys - {c}))) == Pairs(Restrict(m, m.Keys - keys)) + set p | p in m[c] :: (c, p)
  {
    var a := Restrict(m, m.Keys - (keys - {c}));
    var b := Restrict(m, m.Keys - keys);
    forall q | q in Pairs(a) ensures q in Pairs(b) + set p | p in m[c] :: (c, p) {
      if q.0 != c {
        assert q.0 in b;
      }
    }
  }

  /** A program code to its course codes, in the order they were added. */
  type ProgramCourses = map<String, seq<String>>

  /** `{code: [] for code in program_codes}`. */
  function EmptyLists(codes: seq<String>): ProgramCourses {
    map p | p in codes :: []
  }

  lemma EmptyListsSpec(codes: seq<String>, p: String)
    ensures p in EmptyLists(codes) <==> p in codes
    ensures p in codes ==> EmptyLists(codes)[p] == []
  {
  }

  predicate NonEmptyList(l: seq<String>) { l != [] }

  predicate Listed(r: Dict<seq<String>>, k: String, v: String) {
    exists i :: 0 <= i < |r| && r[i].0 == k && v in r[i].1
  }

  /** The entry for each key, in the order of `keys`. */
  function EntriesFor<V, W>(keys: seq<String>, m: map<String, V>, out: V -> W): (r: Dict<W>)
    requires forall k :: k in keys ==> k in m
    ensures |r| == |keys| && Keys(r) == keys
    ensures forall i :: 0 <= i < |r| ==> r[i].1 == out(m[keys[i]])
  {
    var r := seq(|keys|, i requires 0 <= i < |keys| => (keys[i], out(m[keys[i]])));
    assert Keys(r) == keys;
    r
  }

  /**
   * `save_mapping_to_json`'s shape: one entry per key whose value `keep` accepts, written as
   * `out` of the value, the entries sorted by key.
   */
  function SortedEntries<V, W>(m: map<String, V>, keep: V -> bool, out: V -> W): (r: Dict<W>)
    ensures Sorting.Sorted(Keys(r)) && DistinctKeys(r)
    ensures forall k :: k in Keys(r) <==> k in m && keep(m[k])
    ensures forall i :: 0 <= i < |r| ==> r[i].0 in m && r[i].1 == out(m[r[i].0])
  {
    var keys := Sorting.SortedSet(set k | k in m && keep(m[k]));
    EntriesFor(keys, m, out)
  }

  /**
   * `[(k, out(m[k])) for k in keys if keep(m[k])]`: in the order of `keys`, one entry per key
   * whose value `keep` accepts.
   */
  function KeptEntries<V, W(!new)>(keys: seq<String>, m: map<String, V>, keep: V -> bool, out: V -> W): (r: Dict<W>)
    requires forall k :: k in keys ==> k in m
    ensures forall x :: x in r <==> x.0 in keys && keep(m[x.0]) && x.1 == out(m[x.0])
    decreases |keys|
  {
    if keys == [] then []
    else
      var n := |keys| - 1;
      var k := keys[n];
      var prev := KeptEntries(keys[..n], m, keep, out);
      assert keys == keys[..n] + [k];
      if keep(m[k]) then prev + [(k, out(m[k]))] else prev
  }

  lemma KeptEntriesStep<V, W(!new)>(keys: seq<String>, m: map<String, V>, keep: V -> bool, out: V -> W, j: nat)
    requires j < |keys| && forall k :: k in keys ==> k in m
    ensures KeptEntries(keys[..j + 1], m, keep, out) ==
              KeptEntries(keys[..j], m, keep, out) + if keep(m[keys[j]]) then [(keys[j], out(m[keys[j]]))] else []
  {
    assert keys[..j + 1][..j] == keys[..j];
  }

  /** Keys without repeats give entries without repeated keys. */
  lemma {:induction false} KeptEntriesDistinct<V, W(!new)>(keys: seq<String>, m: map<String, V>, keep: V -> bool, out: V -> W)
    requires forall k :: k in keys ==> k in m
    requires Distinct(keys)
    ensures DistinctKeys(KeptEntries(keys, m, keep, out))
    decreases |keys|
  {
    if keys != [] {
      var n := |keys| - 1;
      var k := keys[n];
      var prev := KeptEntries(keys[..n], m, keep, out);
      assert keys == keys[..n] + [k];
      DistinctSnoc(keys[..n], k);
      KeptEntriesDistinct(keys[..n], m, keep, out);
      if keep(m[k]) {
        var r := prev + [(k, out(m[k]))];
        assert Keys(r) == Keys(prev) + [k];
        DistinctSnoc(Keys(prev), k);
      }
    }
  }

  /** An entry is saved exactly when its key's value is kept and the entry writes that value. */
  lemma SortedEntriesHas<V, W>(m: map<String, V>, keep: V -> bool, out: V -> W, x: (String, W))
    ensures x in SortedEntries(m, keep, out) <==> x.0 in m && keep(m[x.0]) && x.1 == out(m[x.0])
  {
    var r := SortedEntries(m, keep, out);
    if x.0 in m && keep(m[x.0]) && x.1 == out(m[x.0]) {
      assert x.0 in Keys(r);
      var i :| 0 <= i < |r| && Keys(r)[i] == x.0;
      assert r[i] == x;
    }
  }

  /** Two dictionaries with the same entries have the same keys. */
  lemma SameEntriesSameKeys<W>(e: Dict<W>, r: Dict<W>)
    requires forall x :: x in e <==> x in r
    ensures forall k :: k in Keys(e) <==> k in Keys(r)
  {
    forall k ensures k in Keys(e) ==> k in Keys(r) {
      if k in Keys(e) {
        var i :| 0 <= i < |e| && Keys(e)[i] == k;
        assert e[i] in r;
        var j :| 0 <= j < |r| && r[j] == e[i];
        assert Keys(r)[j] == k;
      }
    }
    forall k ensures k in Keys(r) ==> k in Keys(e) {
      if k in Keys(r) {
        var j :| 0 <= j < |r| && Keys(r)[j] == k;
        assert r[j] in e;
        var i :| 0 <= i < |e| && e[i] == r[j];
        assert Keys(e)[i] == k;
      }
    }
  }

  /**
   * Sorting by key is the only order: any list of the same entries whose keys ascend is this
   * one, whatever order the entries were produced in.
   */
  lemma SortedEntriesUnique<V, W>(m: map<String, V>, keep: V -> bool, out: V -> W, e: Dict<W>)
    requires Sorting.Sorted(Keys(e)) && DistinctKeys(e)
    requires forall x :: x in e <==> x in SortedEntries(m, keep, out)
    ensures e == SortedEntries(m, keep, out)
  {
    var r := SortedEntries(m, keep, out);
    SameEntriesSameKeys(e, r);
    DistinctSameSet(Keys(e), Keys(r));
    Sorting.SortedUnique(Keys(e), Keys(r));
    forall i | 0 <= i < |e| ensures e[i] == r[i] {
      assert e[i] in r;
      var j :| 0 <= j < |r| && r[j] == e[i];
      assert Keys(r)[j] == Keys(r)[i];
    }
  }

  /** Two sequences without repeats and with the same elements have the same multiset. */
  lemma DistinctSameSet<T>(a: seq<T>, b: seq<T>)
    requires Distinct(a) && Distinct(b) && forall x :: x in a <==> x in b
    ensures multiset(a) == multiset(b)
  {
    DistinctMultiplicity(a);
    DistinctMultiplicity(b);
    forall x ensures multiset(a)[x] == multiset(b)[x] {
      if x in a {
        assert x in multiset(a) && x in multiset(b);
      } else {
        assert x !in multiset(a) && x !in multiset(b);
      }
    }
  }

  /**
   * An entry inserted into entries sorted by key: before the first entry with a greater key, so
   * after those with an equal one, as a stable sort places it.
   */
  function InsertByKey<W>(x: (String, W), s: Dict<W>): (r: Dict<W>)
    ensures multiset(r) == multiset(s) + multiset{x}
    decreases |s|
  {
    if s == [] then [x]
    else if Sorting.Below(x.0, s[0].0) && x.0 != s[0].0 then [x] + s
    else
      assert s == [s[0]] + s[1..];
      [s[0]] + InsertByKey(x, s[1..])
  }

  lemma {:induction false} InsertByKeySorted<W>(x: (String, W), s: Dict<W>)
    requires Sorting.Sorted(Keys(s))
    ensures Sorting.Sorted(Keys(InsertByKey(x, s)))
    decreases |s|
  {
    if s == [] {
    } else if Sorting.Below(x.0, s[0].0) && x.0 != s[0].0 {
      InsertFrontSorted(x, s);
    } else {
      var rest := s[1..];
      assert forall j :: 0 <= j < |rest| ==> Keys(rest)[j] == Keys(s)[j + 1];
      InsertByKeySorted(x, rest);
      Sorting.BelowTotal(x.0, s[0].0);
      InsertLaterSorted(x, s);
    }
  }

  lemma InsertFrontSorted<W>(x: (String, W), s: Dict<W>)
    requires Sorting.Sorted(Keys(s)) && s != [] && Sorting.Below(x.0, s[0].0)
    ensures Sorting.Sorted(Keys([x] + s))
  {
    var r := [x] + s;
    forall j | 0 <= j < |s| ensures Sorting.Below(x.0, Keys(s)[j]) {
      if j > 0 {
        assert Keys(s)[0] == s[0].0 && Keys(s)[j] == s[j].0;
        Sorting.BelowTrans(x.0, s[0].0, s[j].0);
      }
    }
    assert Keys(r) == [x.0] + Keys(s);
    Sorting.SortedCons(x.0, Keys(s));
  }

  lemma HeadBelowTail<W>(s: Dict<W>)
    requires Sorting.Sorted(Keys(s)) && s != []
    ensures forall y :: y in s[1..] ==> Sorting.Below(s[0].0, y.0)
  {
    forall y | y in s[1..] ensures Sorting.Below(s[0].0, y.0) {
      var k :| 0 <= k < |s[1..]| && s[1..][k] == y;
      assert Keys(s)[0] == s[0].0 && Keys(s)[k + 1] == y.0;
    }
  }

  lemma InsertLaterSorted<W>(x: (String, W), s: Dict<W>)
    requires Sorting.Sorted(Keys(s)) && s != [] && Sorting.Below(s[0].0, x.0)
    requires Sorting.Sorted(Keys(InsertByKey(x, s[1..])))
    ensures Sorting.Sorted(Keys([s[0]] + InsertByKey(x, s[1..])))
  {
    var rest := s[1..];
    var t := InsertByKey(x, rest);
    HeadBelowTail(s);
    forall j | 0 <= j < |t| ensures Sorting.Below(s[0].0, Keys(t)[j]) {
      var y := t[j];
      assert Keys(t)[j] == y.0;
      assert y in multiset(t);
      if y != x {
        assert y in multiset(rest);
      }
    }
    var r := [s[0]] + t;
    assert Keys(r) == [s[0].0] + Keys(t);
    Sorting.SortedCons(s[0].0, Keys(t));
  }

  /** `sorted(entries, key=...)` on the entries' keys. */
  function SortByKey<W>(e: Dict<W>): (r: Dict<W>)
    ensures multiset(r) == multiset(e)
    decreases |e|
  {
    if e == [] then []
    else
      assert e == e[..|e| - 1] + [e[|e| - 1]];
      InsertByKey(e[|e| - 1], SortByKey(e[..|e| - 1]))
  }

  lemma {:induction false} SortByKeySorted<W>(e: Dict<W>)
    ensures Sorting.Sorted(Keys(SortByKey(e)))
    decreases |e|
  {
    if e != [] {
      SortByKeySorted(e[..|e| - 1]);
      InsertByKeySorted(e[|e| - 1], SortByKey(e[..|e| - 1]));
    }
  }

  /** An entry whose key is new in front of entries with distinct keys keeps the keys distinct. */
  lemma ConsDistinctKeys<W>(y: (String, W), t: Dict<W>)
    requires DistinctKeys(t) && y.0 !in Keys(t)
    ensures DistinctKeys([y] + t)
  {
    var r := [y] + t;
    assert Keys(r) == [y.0] + Keys(t);
  }

  /** Inserting an entry with a new key keeps the keys distinct. */
  lemma {:induction false} InsertByKeyDistinct<W>(x: (String, W), s: Dict<W>)
    requires DistinctKeys(s) && x.0 !in Keys(s)
    ensures DistinctKeys(InsertByKey(x, s))
    decreases |s|
  {
    if s == [] {
    } else if Sorting.Below(x.0, s[0].0) && x.0 != s[0].0 {
      ConsDistinctKeys(x, s);
    } else {
      var rest := s[1..];
      DistinctTail(s);
      assert Keys(s) == [s[0].0] + Keys(rest);
      InsertByKeyDistinct(x, rest);
      var t := InsertByKey(x, rest);
      assert multiset(t) == multiset([x] + rest);
      assert forall y :: y in t <==> y in multiset(t);
      assert forall y :: y in [x] + rest <==> y in multiset([x] + rest);
      SameEntriesSameKeys(t, [x] + rest);
      assert Keys([x] + rest) == [x.0] + Keys(rest);
      ConsDistinctKeys(s[0], t);
    }
  }

  /** Sorting entries whose keys are distinct keeps them distinct. */
  lemma {:induction false} SortByKeyDistinct<W>(e: Dict<W>)
    requires DistinctKeys(e)
    ensures DistinctKeys(SortByKey(e))
    decreases |e|
  {
    if e != [] {
      var init := e[..|e| - 1];
      var x := e[|e| - 1];
      assert Keys(e) == Keys(init) + [x.0];
      Seqs.DistinctSnoc(Keys(init), x.0);
      SortByKeyDistinct(init);
      var s := SortByKey(init);
      assert forall y :: y in s <==> y in multiset(s);
      assert forall y :: y in init <==> y in multiset(init);
      SameEntriesSameKeys(s, init);
      InsertByKeyDistinct(x, s);
    }
  }

  /** `sorted(entries, key=...)` on the entries' keys: the same entries in key order. */
  function SortedByKey<W>(entries: Dict<W>): (r: Dict<W>)
    ensures Sorting.Sorted(Keys(r)) && multiset(r) == multiset(entries)
    ensures DistinctKeys(entries) ==> DistinctKeys(r)
  {
    SortByKeySorted(entries);
    if DistinctKeys(entries) then SortByKeyDistinct(entries); SortByKey(entries) else SortByKey(entries)
  }
}
