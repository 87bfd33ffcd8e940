/**
 * Leftmost search and non-overlapping scan over hand-written matchers: the behaviour of
 * `re.search` and `re.findall` for one concrete pattern, where the pattern itself is a
 * function that says whether it matches at a given position.
 */
module Scan {
  import opened Text
  import opened Wrappers

  /** A match found at some position: where it ends and the text of its capturing group. */
  datatype Hit = Hit(end: nat, group: String)

  type Matcher = (String, nat) -> Option<Hit>

  /** `re.search` from position `i`: the match at the leftmost position that has one. */
  function SearchFrom(s: String, i: nat, m: Matcher): (r: Option<Hit>)
    ensures r.Some? ==> exists j :: i <= j <= |s| && m(s, j) == r && forall k :: i <= k < j ==> m(s, k).None?
    ensures r.None? ==> forall j :: i <= j <= |s| ==> m(s, j).None?
    decreases |s| - i
  {
    if i > |s| then None
    else if m(s, i).Some? then m(s, i)
    else SearchFrom(s, i + 1, m)
  }

  function Search(s: String, m: Matcher): (r: Option<Hit>)
    ensures r.Some? ==> exists j :: 0 <= j <= |s| && m(s, j) == r
    ensures r.None? ==> forall j :: 0 <= j <= |s| ==> m(s, j).None?
  {
    SearchFrom(s, 0, m)
  }

  /** A search passes over positions where the pattern does not match. */
  lemma {:induction false} SearchFromSkip(s: String, i: nat, j: nat, m: Matcher)
    requires i <= j <= |s| && forall k :: i <= k < j ==> m(s, k).None?
    ensures SearchFrom(s, i, m) == SearchFrom(s, j, m)
    decreases j - i
  {
    if i < j {
      SearchFromSkip(s, i + 1, j, m);
    }
  }

  /** A search returns the match at the first position where the pattern matches. */
  lemma SearchFirstAt(s: String, j: nat, m: Matcher)
    requires j <= |s| && m(s, j).Some? && forall k :: 0 <= k < j ==> m(s, k).None?
    ensures Search(s, m) == m(s, j)
  {
    SearchFromSkip(s, 0, j, m);
  }

  /** `re.findall` from position `i`: after a match the scan resumes where it ended. */
  function FindAllFrom(s: String, i: nat, m: Matcher): (r: seq<String>)
    ensures forall g :: g in r ==> exists j :: i <= j <= |s| && m(s, j).Some? && m(s, j).value.group == g
    ensures (forall j :: i <= j <= |s| ==> m(s, j).None?) ==> r == []
    decreases |s| - i
  {
    if i > |s| then []
    else
      match m(s, i)
      case None => FindAllFrom(s, i + 1, m)
      case Some(h) => [h.group] + FindAllFrom(s, if i < h.end <= |s| then h.end else i + 1, m)
  }

  function FindAll(s: String, m: Matcher): (r: seq<String>)
    ensures forall g :: g in r ==> exists j :: 0 <= j <= |s| && m(s, j).Some? && m(s, j).value.group == g
    ensures (forall j :: 0 <= j <= |s| ==> m(s, j).None?) ==> r == []
  {
    FindAllFrom(s, 0, m)
  }

  /** A scan that passes a position where the pattern matches finds something. */
  lemma {:induction false} FindAllFromFinds(s: String, i: nat, j: nat, m: Matcher)
    requires i <= j <= |s| && m(s, j).Some?
    ensures FindAllFrom(s, i, m) != []
    decreases j - i
  {
    if m(s, i).None? {
      FindAllFromFinds(s, i + 1, j, m);
    }
  }

  /** The first match found by the first matcher in `ms` that matches anywhere, as a chain of `re.search` calls. */
  function FirstOf(s: String, ms: seq<Matcher>): (r: Option<Hit>)
    ensures r.None? <==> forall n :: 0 <= n < |ms| ==> Search(s, ms[n]).None?
    ensures r.Some? ==> exists n :: 0 <= n < |ms| && Search(s, ms[n]) == r
  {
    if ms == [] then None
    else if Search(s, ms[0]).Some? then Search(s, ms[0])
    else
      var r := FirstOf(s, ms[1..]);
      assert forall n :: 1 <= n < |ms| ==> ms[1..][n - 1] == ms[n];
      r
  }
}
