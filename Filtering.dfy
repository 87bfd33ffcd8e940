/**
 * What the URL and PDF filter scripts share: reading a URL file into stripped lines, the two
 * ways of finding keywords in a text (as a substring or as a whole word, both ignoring case),
 * and the loop that splits files into kept and removed ones and deletes the removed ones.
 */
module Filtering {
  import opened Text
  import opened Seqs

  /** The lines `line.strip()` keeps: those with something besides whitespace. */
  function NotBlank(l: String): bool {
    !IsBlank(l)
  }

  /** `[line.strip() for line in lines if line.strip()]`. */
  function StrippedLines(lines: seq<String>): (r: seq<String>)
    ensures |r| <= |lines|
    ensures forall i :: 0 <= i < |r| ==> r[i] != [] && Strip(r[i]) == r[i]
    ensures forall l :: l in lines && !IsBlank(l) ==> Strip(l) in r
    ensures forall g :: g in r ==> exists l :: l in lines && g == Strip(l)
  {
    var kept := Filter(lines, NotBlank);
    var r := MapSeq(kept, Strip);
    forall i | 0 <= i < |r| ensures r[i] != [] && Strip(r[i]) == r[i] {
      assert NotBlank(kept[i]);
      StripIdempotent(kept[i]);
    }
    MapFilterMembers(lines, NotBlank, Strip);
    forall l | l in lines && !IsBlank(l) ensures Strip(l) in r {
      var j :| 0 <= j < |lines| && lines[j] == l;
      assert NotBlank(lines[j]);
    }
    r
  }

  /** Upper-casing keeps an occurrence where it was. */
  lemma UpperKeepsOccurrence(s: String, w: String, j: int)
    requires OccursAt(s, w, j)
    ensures OccursAt(Upper(s), Upper(w), j)
  {
    assert Upper(s)[j..j + |w|] == Upper(w);
  }

  /**
   * `keyword.upper() in text.upper()` for every keyword: the keywords found as substrings,
   * ignoring case, in their original spelling.
   */
  function FoundSubstrings(text: String, keywords: seq<String>): (found: set<String>)
    ensures forall k :: k in found ==> k in keywords
  {
    set k | k in keywords && Contains(Upper(text), Upper(k))
  }

  /** A keyword written in the text exactly as listed is found. */
  lemma VerbatimKeywordFound(text: String, keywords: seq<String>, k: String)
    requires k in keywords && Contains(text, k)
    ensures k in FoundSubstrings(text, keywords)
  {
    ContainsSpec(text, k);
    var j :| OccursAt(text, k, j);
    UpperKeepsOccurrence(text, k, j);
    ContainsSpec(Upper(text), Upper(k));
  }

  lemma LowerThenUpper(s: String)
    ensures Upper(Lower(s)) == Upper(s)
  {
    assert Lower(Lower(s)) == Lower(s);
    LowerUpperAgree(Lower(s), s);
  }

  /** The case of the text does not matter. */
  lemma FoundSubstringsIgnoreCase(text: String, keywords: seq<String>)
    ensures FoundSubstrings(Lower(text), keywords) == FoundSubstrings(text, keywords)
    ensures FoundSubstrings(Upper(text), keywords) == FoundSubstrings(text, keywords)
  {
    LowerThenUpper(text);
    UpperIdempotent(text);
  }

  /** `\bw\b` matches `s` at `j`: `w` occurs there with a word boundary on both sides. */
  predicate WordOccursAt(s: String, w: String, j: int) {
    OccursAt(s, w, j) && WordBoundary(s, j) && WordBoundary(s, j + |w|)
  }

  /** `re.search(r'\b' + re.escape(w) + r'\b', s)` found something. */
  predicate HasWord(s: String, w: String) {
    exists j | 0 <= j <= |s| :: WordOccursAt(s, w, j)
  }

  /** A non-empty word is never found strictly inside a longer run of word characters. */
  lemma NotInsideWord(s: String, w: String)
    requires w != [] && |w| < |s|
    requires forall i :: 0 <= i < |s| ==> IsWordChar(s[i])
    ensures !HasWord(s, w)
  {
    forall j | 0 <= j <= |s| && OccursAt(s, w, j) && WordBoundary(s, j)
      ensures !WordBoundary(s, j + |w|)
    {
      assert j < |s|;
      assert j == 0;
    }
  }

  /** Upper-casing keeps word characters. */
  lemma UpperWordChar(c: char)
    requires IsWordChar(c)
    ensures IsWordChar(UpperChar(c))
  {
  }

  lemma UpperWordChars(s: String)
    requires forall i :: 0 <= i < |s| ==> IsWordChar(s[i])
    ensures forall i :: 0 <= i < |Upper(s)| ==> IsWordChar(Upper(s)[i])
  {
    forall i | 0 <= i < |s| ensures IsWordChar(Upper(s)[i]) {
      UpperWordChar(s[i]);
    }
  }

  /** Upper-casing works character by character, so it distributes over concatenation. */
  lemma UpperConcat(a: String, b: String)
    ensures Upper(a + b) == Upper(a) + Upper(b)
  {
    assert forall i :: 0 <= i < |a + b| ==> Upper(a + b)[i] == (Upper(a) + Upper(b))[i];
  }

  /** A word that starts and ends with word characters is found between two spaces. */
  lemma WordBetweenSpaces(a: String, w: String, b: String)
    requires w != [] && IsWordChar(w[0]) && IsWordChar(w[|w| - 1])
    ensures HasWord(a + " " + w + " " + b, w)
  {
    var t := a + " " + w + " " + b;
    var j := |a| + 1;
    assert t[j..j + |w|] == w;
    assert t[j - 1] == ' ' && t[j] == w[0];
    assert t[j + |w|] == ' ' && t[j + |w| - 1] == w[|w| - 1];
    assert WordOccursAt(t, w, j);
  }

  /** The loop that keeps, in order, the elements passing a test. */
  method KeepMatching(s: seq<String>, p: String -> bool) returns (r: seq<String>)
    ensures r == Filter(s, p)
    ensures SubsequenceOf(r, s)
  {
    r := [];
    for i := 0 to |s|
      invariant r == Filter(s[..i], p)
    {
      FilterPrefixStep(s, i, p);
      if p(s[i]) {
        r := r + [s[i]];
      }
    }
    assert s[..|s|] == s;
    FilterSubsequence(s, p);
  }

  /** `[line.strip() for line in lines if line.strip() and line.startswith(p)]`. */
  function StrippedLinesStartingWith(lines: seq<String>, p: String): (r: seq<String>)
    requires p != [] && !IsSpace(p[0]) && !IsSpace(p[|p| - 1])
    ensures forall g :: g in r ==> StartsWith(g, p) && Strip(g) == g
    ensures forall l :: l in lines && StartsWith(l, p) ==> Strip(l) in r
  {
    var kept := Filter(lines, (l: String) => StartsWith(l, p));
    forall l | l in kept ensures StartsWith(l, p) {
      var k :| 0 <= k < |kept| && kept[k] == l;
    }
    StrippedKeepPrefix(kept, p);
    forall l | l in lines && StartsWith(l, p) ensures l in kept && !IsBlank(l) {
      var j :| 0 <= j < |lines| && lines[j] == l;
      assert !IsSpace(l[0]);
    }
    StrippedLines(kept)
  }

  /** Stripping lines that all start with `p` keeps the prefix. */
  lemma StrippedKeepPrefix(kept: seq<String>, p: String)
    requires p != [] && !IsSpace(p[0]) && !IsSpace(p[|p| - 1])
    requires forall l :: l in kept ==> StartsWith(l, p)
    ensures forall g :: g in StrippedLines(kept) ==> StartsWith(g, p)
  {
    forall g | g in StrippedLines(kept) ensures StartsWith(g, p) {
      var l :| l in kept && g == Strip(l);
      StripKeepsPrefix(l, p);
    }
  }

  /**
   * The keep-or-remove loop of the PDF filters: each file goes to `kept` when `keep` says so and
   * to `removed` otherwise, and every removed file is deleted unless this is a dry run
   * (`deleted` lists the deletions in order).
   */
  method PartitionFiles(files: seq<String>, keep: String -> bool, dryRun: bool)
    returns (kept: seq<String>, removed: seq<String>, deleted: seq<String>)
    ensures kept == Filter(files, keep)
    ensures removed == Filter(files, Not(keep))
    ensures deleted == if dryRun then [] else removed
  {
    kept, removed, deleted := [], [], [];
    for i := 0 to |files|
      invariant kept == Filter(files[..i], keep)
      invariant removed == Filter(files[..i], Not(keep))
      invariant deleted == if dryRun then [] else removed
    {
      FilterPrefixStep(files, i, keep);
      FilterPrefixStep(files, i, Not(keep));
      if keep(files[i]) {
        kept := kept + [files[i]];
      } else {
        removed := removed + [files[i]];
        if !dryRun {
          deleted := deleted + [files[i]];
        }
      }
    }
    assert files[..|files|] == files;
  }

  /** Every file is kept or removed, never both, and nothing else appears in either list. */
  lemma PartitionExact(files: seq<String>, keep: String -> bool)
    ensures multiset(Filter(files, keep)) + multiset(Filter(files, Not(keep))) == multiset(files)
    ensures forall f :: f in files <==> (f in Filter(files, keep)) != (f in Filter(files, Not(keep)))
  {
    FilterPartition(files, keep);
    forall f | f in Filter(files, keep) ensures keep(f) {
      var i :| 0 <= i < |Filter(files, keep)| && Filter(files, keep)[i] == f;
    }
    forall f | f in Filter(files, Not(keep)) ensures !keep(f) {
      var i :| 0 <= i < |Filter(files, Not(keep))| && Filter(files, Not(keep))[i] == f;
    }
    forall f | f in files ensures f in Filter(files, keep) || f in Filter(files, Not(keep)) {
      var i :| 0 <= i < |files| && files[i] == f;
    }
  }
}
