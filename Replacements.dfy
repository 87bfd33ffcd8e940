/**
 * What both duplicate cleaners share: reading the codes a course says it replaces from its
 * "Additional information" text, and following a replacement map (replaced code to replacing
 * code) to its end, stopping when the walk comes back to a code it has already left.
 */
module Replacements {
  import opened Wrappers
  import opened Text
  import opened Seqs
  import opened Scan
  import UrlPatterns

  /**
   * Where `w1\s+w2\s+...wn\s+` ends when it matches at `i`, the words compared ignoring case
   * (each `w` is lower-case).
   */
  function PhraseEnd(s: String, i: nat, words: seq<String>): (r: Option<nat>)
    ensures r.Some? ==> i <= r.value <= |s|
    decreases |words|
  {
    if words == [] then (if i <= |s| then Some(i) else None)
    else if WordAtIgnoringCase(s, i, words[0]) then
      var j := i + |words[0]|;
      var n := SpaceRun(s, j);
      if n > 0 then PhraseEnd(s, j + n, words[1..]) else None
    else None
  }

  /** `[A-Z]+\d+` under `re.IGNORECASE`: a run of letters followed by a run of digits. */
  predicate IsReplacementCode(c: String) {
    exists l :: 0 < l < |c| && LettersThenDigits(c, l)
  }

  /** The first `l` characters of `c` are letters and the rest are digits. */
  predicate LettersThenDigits(c: String, l: nat) {
    l <= |c| && (forall k :: 0 <= k < l ==> UrlPatterns.IsAsciiLetter(c[k])) && (forall k :: l <= k < |c| ==> IsDigit(c[k]))
  }

  /** The pattern `w1\s+...wn\s+([A-Z]+\d+)` with `re.IGNORECASE`, at position `i`; both runs are greedy. */
  function PhraseCodeAt(s: String, i: nat, words: seq<String>): (r: Option<Hit>)
    ensures r.Some? ==> i + |r.value.group| <= r.value.end <= |s| && r.value.group == s[r.value.end - |r.value.group|..(r.value.end)]
    ensures r.Some? ==> IsReplacementCode(r.value.group)
  {
    match PhraseEnd(s, i, words)
    case None => None
    case Some(j) =>
      var l := Run(s, j, UrlPatterns.IsAsciiLetter);
      var d := DigitRun(s, j + l);
      if l > 0 && d > 0 then
        var g := s[j..j + l + d];
        assert LettersThenDigits(g, l) by {
          assert forall k :: 0 <= k < |g| ==> g[k] == s[j + k];
        }
        Some(Hit(j + l + d, g))
      else None
  }

  function PhraseCode(words: seq<String>): Matcher {
    (s: String, i: nat) => PhraseCodeAt(s, i, words)
  }

  /** The four replacement patterns, in the order they are tried. */
  const ReplacementPhrases: seq<seq<String>> := [["replaces", "the", "course"], ["replaces"], ["replaced", "the", "course"], ["replaced"]]

  lemma HitIsWrittenCode(text: String, j: nat, words: seq<String>, g: String)
    requires PhraseCodeAt(text, j, words).Some? && PhraseCodeAt(text, j, words).value.group == g
    ensures IsReplacementCode(g) && exists a :: OccursAt(text, g, a)
  {
    var h := PhraseCodeAt(text, j, words).value;
    assert OccursAt(text, g, h.end - |g|);
  }

  /** What one `re.findall` returns are codes written in the text. */
  lemma FindAllCodes(text: String, words: seq<String>)
    ensures forall g :: g in FindAll(text, PhraseCode(words)) ==> IsReplacementCode(g) && exists a :: OccursAt(text, g, a)
  {
    var m := PhraseCode(words);
    forall g | g in FindAll(text, m) ensures IsReplacementCode(g) && exists a :: OccursAt(text, g, a) {
      var j :| 0 <= j <= |text| && m(text, j).Some? && m(text, j).value.group == g;
      HitIsWrittenCode(text, j, words, g);
    }
  }

  /** `re.findall` with each pattern in turn, the matches of each appended after the previous ones. */
  function CodesFound(text: String, phrases: seq<seq<String>>): (r: seq<String>)
    ensures forall g :: g in r ==> IsReplacementCode(g) && exists a :: OccursAt(text, g, a)
    ensures (forall n, j :: 0 <= n < |phrases| && 0 <= j <= |text| ==> PhraseCodeAt(text, j, phrases[n]).None?) ==> r == []
  {
    if phrases == [] then []
    else
      var here := FindAll(text, PhraseCode(phrases[0]));
      var rest := CodesFound(text, phrases[1..]);
      assert forall n :: 1 <= n < |phrases| ==> phrases[1..][n - 1] == phrases[n];
      FindAllCodes(text, phrases[0]);
      here + rest
  }

  /** Some code is read whenever one of the patterns matches somewhere in the text. */
  lemma {:induction false} SomeCodeFound(text: String, phrases: seq<seq<String>>, n: nat, j: nat)
    requires n < |phrases| && j <= |text| && PhraseCodeAt(text, j, phrases[n]).Some?
    ensures CodesFound(text, phrases) != []
    decreases n
  {
    if n == 0 {
      FindAllFromFinds(text, 0, j, PhraseCode(phrases[0]));
    } else {
      assert phrases[1..][n - 1] == phrases[n];
      SomeCodeFound(text, phrases[1..], n - 1, j);
    }
  }

  /** A section of a course: its name and its text (`None` for a missing one). */
  datatype Section = Section(name: String, content: Option<String>)

  /**
   * The codes read from every section called `name` with a non-empty text, pattern by pattern,
   * each code once (`list(set(...))`, in first-occurrence order).
   */
  function ReplacedIn(sections: seq<Section>, name: String, phrases: seq<seq<String>>): (r: seq<String>)
    ensures Distinct(r)
    ensures forall g :: g in r ==> IsReplacementCode(g)
    ensures (forall i :: 0 <= i < |sections| ==> sections[i].name != name || sections[i].content.None? || sections[i].content.value == []) ==> r == []
  {
    var all := AllCodes(sections, name, phrases);
    Dedup(all)
  }

  function AllCodes(sections: seq<Section>, name: String, phrases: seq<seq<String>>): (r: seq<String>)
    ensures forall g :: g in r ==> IsReplacementCode(g)
    ensures (forall i :: 0 <= i < |sections| ==> sections[i].name != name || sections[i].content.None? || sections[i].content.value == []) ==> r == []
  {
    if sections == [] then []
    else
      var sec := sections[0];
      var here := if sec.name == name && sec.content.Some? && sec.content.value != [] then CodesFound(sec.content.value, phrases) else [];
      assert forall i :: 1 <= i < |sections| ==> sections[1..][i - 1] == sections[i];
      here + AllCodes(sections[1..], name, phrases)
  }

  /** The test of a section's name. */
  function Named(name: String): Section -> bool {
    (sec: Section) => sec.name == name
  }

  /** Only the sections called `name` are read: dropping every other section changes nothing. */
  lemma {:induction false} OnlyNamedSectionsRead(sections: seq<Section>, name: String, phrases: seq<seq<String>>)
    ensures AllCodes(sections, name, phrases) == AllCodes(Filter(sections, Named(name)), name, phrases)
  {
    if sections != [] {
      var rest := Filter(sections[1..], Named(name));
      OnlyNamedSectionsRead(sections[1..], name, phrases);
      if sections[0].name == name {
        assert Filter(sections, Named(name)) == [sections[0]] + rest;
        assert ([sections[0]] + rest)[1..] == rest;
      } else {
        assert Filter(sections, Named(name)) == rest;
      }
    }
  }

  /** `k` steps along the map from `c`, when every step has a successor. */
  function Walk(m: map<String, String>, c: String, k: nat): Option<String>
    decreases k
  {
    if k == 0 then Some(c)
    else if c in m then Walk(m, m[c], k - 1)
    else None
  }

  lemma {:induction false} WalkStep(m: map<String, String>, a: String, k: nat, c: String)
    requires Walk(m, a, k) == Some(c) && c in m
    ensures Walk(m, a, k + 1) == Some(m[c])
    decreases k
  {
    if k > 0 {
      WalkStep(m, m[a], k - 1, c);
    }
  }

  /** `b` is reached from `a` in one step or more. */
  ghost predicate Reaches(m: map<String, String>, a: String, b: String) {
    exists k: nat :: k >= 1 && Walk(m, a, k) == Some(b)
  }

  /**
   * The chain-following loop: step from a replaced code to its replacement, remembering each
   * code left, and stop at a code that is not replaced or that was already left once. The
   * result is where the walk stops and how many steps it took.
   */
  function FollowFrom(m: map<String, String>, current: String, visited: set<String>): (r: (String, nat))
    requires visited <= m.Keys
    decreases m.Keys - visited
  {
    if current !in m || current in visited then (current, 0)
    else
      var next := FollowFrom(m, m[current], visited + {current});
      (next.0, next.1 + 1)
  }

  /** The end of the replacement chain from `code`, and the number of steps followed. */
  function FollowChain(m: map<String, String>, code: String): (String, nat) {
    FollowFrom(m, code, {})
  }

  /**
   * With every visited code reaching the current one, the walk ends at a code reached from the
   * current one in exactly the number of steps taken, and it ends on a key of the map only when
   * that key lies on a cycle.
   */
  lemma {:induction false} FollowFromSpec(m: map<String, String>, current: String, visited: set<String>)
    requires visited <= m.Keys
    requires forall v :: v in visited ==> Reaches(m, v, current)
    ensures Walk(m, current, FollowFrom(m, current, visited).1) == Some(FollowFrom(m, current, visited).0)
    ensures FollowFrom(m, current, visited).0 in m ==> Reaches(m, FollowFrom(m, current, visited).0, FollowFrom(m, current, visited).0)
    decreases m.Keys - visited
  {
    if current !in m || current in visited {
    } else {
      var next := m[current];
      forall v | v in visited + {current} ensures Reaches(m, v, next) {
        if v == current {
          assert Walk(m, current, 1) == Some(next);
        } else {
          var k: nat :| k >= 1 && Walk(m, v, k) == Some(current);
          WalkStep(m, v, k, current);
        }
      }
      FollowFromSpec(m, next, visited + {current});
    }
  }

  /**
   * The chain from `code` ends at a code reached from it by following the map, and that end is
   * itself a key of the map only when it lies on a cycle.
   */
  lemma FollowChainSpec(m: map<String, String>, code: String)
    ensures Walk(m, code, FollowChain(m, code).1) == Some(FollowChain(m, code).0)
    ensures FollowChain(m, code).0 in m ==> Reaches(m, FollowChain(m, code).0, FollowChain(m, code).0)
  {
    FollowFromSpec(m, code, {});
  }

  /** A map without cycles leads every chain to a code that is not replaced. */
  lemma FollowChainAcyclic(m: map<String, String>, code: String)
    requires forall c :: c in m ==> !Reaches(m, c, c)
    ensures FollowChain(m, code).0 !in m
  {
    FollowChainSpec(m, code);
  }
}
