/**
 * What the two course-URL extractors share: the site's base URL, the search prefixes and
 * search URLs, absolute-URL formatting, the reading-list rule, and the PDF and web-syllabus
 * course-code patterns (which differ between the two only in how many digits they allow).
 */
module UrlPatterns {
  import opened Wrappers
  import opened Text
  import opened Scan
  import opened Seqs
  import opened Codes

  const BaseUrl: String := Https + "www.gu.se"

  const CoursePrefixes: seq<String> := ["dit0", "dit1", "dit2", "dit3", "dit4", "dit5", "dit6", "dit7", "dit8", "dit9",
                                        "msg", "msa", "mma", "tia", "lt"]

  const SyllabusSearchUrl: String := BaseUrl + "/en/study-gothenburg/study-options/find-syllabus-and-reading-list?hits=200&q="

  const CoursePageSearchUrl: String := BaseUrl + "/en/study-gothenburg/study-options/find-courses?education_type.keyword=Course&hits=200&q="

  // ----- formatting -----

  predicate IsAbsolute(url: String) { StartsWith(url, Http) || StartsWith(url, Https) }

  lemma BaseUrlIsAbsolute(url: String)
    ensures IsAbsolute(BaseUrl + url)
  {
    assert (BaseUrl + url)[..|Https|] == Https;
  }

  /** `format_url`: absolute URLs are kept, anything else is taken as a path on the base URL. */
  function FormatUrl(url: String): (r: String)
    ensures IsAbsolute(url) ==> r == url
    ensures !IsAbsolute(url) ==> r == BaseUrl + url
    ensures IsAbsolute(r)
  {
    if IsAbsolute(url) then url
    else
      BaseUrlIsAbsolute(url);
      BaseUrl + url
  }

  /** Formatting a formatted URL changes nothing. */
  lemma FormatUrlIdempotent(url: String)
    ensures FormatUrl(FormatUrl(url)) == FormatUrl(url)
  {
  }

  // ----- filtering -----

  /** `_is_reading_list_url`. */
  predicate IsReadingListUrl(url: String) {
    Contains(url, "reading-list") || Contains(url, "_Litteratur_")
  }

  predicate IsKeptUrl(url: String) { !IsReadingListUrl(url) }

  // ----- search URLs -----

  /** `prefix.rstrip('0123456789')`. */
  function RStripDigits(s: String): (r: String)
    ensures |r| <= |s| && r == s[..|r|]
    ensures r == [] || !IsDigit(r[|r| - 1])
    ensures forall k :: |r| <= k < |s| ==> IsDigit(s[k])
  {
    if s == [] || !IsDigit(s[|s| - 1]) then s else RStripDigits(s[..|s| - 1])
  }

  function StrippedPrefixes(prefixes: seq<String>): (r: seq<String>)
    ensures |r| == |prefixes| && forall i :: 0 <= i < |r| ==> r[i] == RStripDigits(prefixes[i])
  {
    seq(|prefixes|, i requires 0 <= i < |prefixes| => RStripDigits(prefixes[i]))
  }

  datatype SearchUrls = SearchUrls(syllabus: seq<String>, coursePages: seq<String>)

  /**
   * `build_search_urls`: one syllabus search per prefix, and one course-page search per
   * distinct prefix without its trailing digits (a set in the source; first-occurrence order here).
   */
  function BuildSearchUrls(prefixes: seq<String>): SearchUrls {
    var unique := Dedup(StrippedPrefixes(prefixes));
    SearchUrls(seq(|prefixes|, i requires 0 <= i < |prefixes| => SyllabusSearchUrl + prefixes[i]),
               seq(|unique|, i requires 0 <= i < |unique| => CoursePageSearchUrl + unique[i]))
  }

  /**
   * The syllabus searches are the prefixes in order; the course-page searches are pairwise
   * distinct and are exactly the digit-stripped prefixes.
   */
  lemma BuildSearchUrlsSpec(prefixes: seq<String>)
    ensures var r := BuildSearchUrls(prefixes);
      |r.syllabus| == |prefixes| &&
      (forall i :: 0 <= i < |prefixes| ==> r.syllabus[i] == SyllabusSearchUrl + prefixes[i]) &&
      Distinct(r.coursePages) &&
      (forall p :: p in prefixes ==> CoursePageSearchUrl + RStripDigits(p) in r.coursePages) &&
      (forall u :: u in r.coursePages ==> exists p :: p in prefixes && u == CoursePageSearchUrl + RStripDigits(p))
  {
    var stripped := StrippedPrefixes(prefixes);
    var unique := Dedup(stripped);
    var r := BuildSearchUrls(prefixes);
    forall i, j | 0 <= i < j < |r.coursePages| ensures r.coursePages[i] != r.coursePages[j] {
      PrefixedDiffer(CoursePageSearchUrl, unique[i], unique[j]);
    }
    forall p | p in prefixes ensures CoursePageSearchUrl + RStripDigits(p) in r.coursePages {
      var i :| 0 <= i < |prefixes| && prefixes[i] == p;
      assert stripped[i] in unique;
      var j :| 0 <= j < |unique| && unique[j] == stripped[i];
      assert r.coursePages[j] == CoursePageSearchUrl + RStripDigits(p);
    }
    forall u | u in r.coursePages ensures exists p :: p in prefixes && u == CoursePageSearchUrl + RStripDigits(p) {
      var j :| 0 <= j < |r.coursePages| && r.coursePages[j] == u;
      assert unique[j] in stripped;
      var i :| 0 <= i < |stripped| && stripped[i] == unique[j];
      assert prefixes[i] in prefixes;
    }
  }

  lemma PrefixedDiffer(a: String, x: String, y: String)
    ensures x != y ==> a + x != a + y
  {
    assert x == (a + x)[|a|..] && y == (a + y)[|a|..];
  }

  // ----- course-code patterns -----

  predicate IsAsciiLetter(c: char) { IsAsciiUpper(c) || IsAsciiLower(c) }

  /** `[A-Z]{2,3}\d{3,maxDigits}` matched ignoring case. */
  function AnyCaseCode(maxDigits: nat): CodeShape { CodeShape(2, 3, 3, maxDigits, true, false) }

  /**
   * `/pdf/kurs/[a-z]{2}/([A-Z]{2,3}\d{3,maxDigits})` at `i`, ignoring case; the group is the code.
   */
  function PdfCodeAt(s: String, i: nat, maxDigits: nat): (r: Option<Hit>)
    ensures r.Some? ==> i + 13 <= r.value.end <= |s| && r.value.group == s[i + 13..(r.value.end)]
    ensures r.Some? ==> r == CodeAt(AnyCaseCode(maxDigits), s, i + 13)
  {
    if i + 13 <= |s| && WordAtIgnoringCase(s, i, "/pdf/kurs/") && IsAsciiLetter(s[i + 10]) && IsAsciiLetter(s[i + 11]) &&
       s[i + 12] == '/' then
      CodeAt(AnyCaseCode(maxDigits), s, i + 13)
    else None
  }

  /** The alternatives of the web-syllabus pattern, in the order they are tried. */
  const WebPrefixes: seq<String> := ["dit", "msg", "msa", "mma", "tia", "lt"]

  /** A lower-case ASCII word of two or three letters, as every web-syllabus prefix is. */
  predicate IsShortLowerWord(p: String) {
    2 <= |p| <= 3 && forall k :: 0 <= k < |p| ==> IsAsciiLower(p[k])
  }

  lemma WebPrefixesAreShortWords()
    ensures forall p :: p in WebPrefixes ==> IsShortLowerWord(p)
  {
  }

  /** The length of the first of `ps` found at `j`, ignoring case. */
  function PrefixAt(s: String, j: nat, ps: seq<String>): (r: Option<nat>)
    ensures r.Some? ==> exists p :: p in ps && |p| == r.value && WordAtIgnoringCase(s, j, p)
    ensures r.None? ==> forall p :: p in ps ==> !WordAtIgnoringCase(s, j, p)
  {
    if ps == [] then None
    else if WordAtIgnoringCase(s, j, ps[0]) then Some(|ps[0]|)
    else PrefixAt(s, j, ps[1..])
  }

  /**
   * `-((?:dit|msg|msa|mma|tia|lt)\d{3,maxDigits})/syllabus` at `i`, ignoring case. The digits
   * must be followed by '/', so the whole digit run is taken and must fit the bounds.
   */
  function WebCodeAt(s: String, i: nat, maxDigits: nat): (r: Option<Hit>)
    ensures r.Some? ==> i + 1 <= r.value.end <= |s| && r.value.group == s[i + 1..(r.value.end)]
    ensures r.Some? ==> IsCode(AnyCaseCode(maxDigits), r.value.group)
  {
    WebPrefixesAreShortWords();
    PrefixedCodeAt(s, i, maxDigits, WebPrefixes)
  }

  /** The web-syllabus pattern over any list of prefix alternatives `ps`. */
  function PrefixedCodeAt(s: String, i: nat, maxDigits: nat, ps: seq<String>): (r: Option<Hit>)
    ensures r.Some? ==> i + 1 <= r.value.end <= |s| && r.value.group == s[i + 1..(r.value.end)]
    ensures r.Some? && (forall p :: p in ps ==> IsShortLowerWord(p)) ==> IsCode(AnyCaseCode(maxDigits), r.value.group)
  {
    if i < |s| && s[i] == '-' then
      match PrefixAt(s, i + 1, ps)
      case None => None
      case Some(n) =>
        var d := DigitRun(s, i + 1 + n);
        var e := i + 1 + n + d;
        if 3 <= d <= maxDigits && WordAtIgnoringCase(s, e, "/syllabus") then
          PrefixedCodeIsCode(s, i, n, d, maxDigits, ps);
          Some(Hit(e, s[i + 1..e]))
        else None
    else None
  }

  /** Two or three letters of either case, then digits within the bounds: an any-case code. */
  lemma RunsAreCode(s: String, a: nat, n: nat, d: nat, maxDigits: nat)
    requires a + n + d <= |s| && 2 <= n <= 3 && 3 <= d <= maxDigits
    requires forall k :: a <= k < a + n ==> IsAsciiLetter(s[k])
    requires forall k :: a + n <= k < a + n + d ==> IsDigit(s[k])
    ensures IsCode(AnyCaseCode(maxDigits), s[a..a + n + d])
  {
    var c := s[a..a + n + d];
    var q := (x: char) => IsCodeLetter(AnyCaseCode(maxDigits), x);
    assert forall k :: 0 <= k < n ==> q(c[k]) by {
      forall k | 0 <= k < n ensures q(c[k]) {
        assert c[k] == s[a + k];
      }
    }
    assert !q(c[n]) by {
      assert c[n] == s[a + n];
    }
    RunExact(c, 0, n, q);
    forall k | n <= k < |c| ensures IsDigit(c[k]) {
      assert c[k] == s[a + k];
    }
  }

  /** A prefix found at `i + 1` and the digits after it form an any-case code. */
  lemma PrefixedCodeIsCode(s: String, i: nat, n: nat, d: nat, maxDigits: nat, ps: seq<String>)
    requires PrefixAt(s, i + 1, ps) == Some(n) && d == DigitRun(s, i + 1 + n) && 3 <= d <= maxDigits
    ensures (forall p :: p in ps ==> IsShortLowerWord(p)) ==> IsCode(AnyCaseCode(maxDigits), s[i + 1..i + 1 + n + d])
  {
    if forall p :: p in ps ==> IsShortLowerWord(p) {
      var pre :| pre in ps && |pre| == n && WordAtIgnoringCase(s, i + 1, pre);
      forall k | i + 1 <= k < i + 1 + n ensures IsAsciiLetter(s[k]) {
        assert IsAsciiLower(pre[k - i - 1]);
      }
      RunsAreCode(s, i + 1, n, d, maxDigits);
    }
  }

  /** Upper-casing an any-case code gives the upper-case code of the same shape. */
  lemma UpperIsCourseCode(c: String, maxDigits: nat)
    requires IsCode(AnyCaseCode(maxDigits), c)
    ensures IsCode(CodeShape(2, 3, 3, maxDigits, false, false), Upper(c))
  {
    var u := Upper(c);
    var p := (x: char) => IsCodeLetter(AnyCaseCode(maxDigits), x);
    var q := (x: char) => IsCodeLetter(CodeShape(2, 3, 3, maxDigits, false, false), x);
    var n := Run(c, 0, p);
    assert forall k :: 0 <= k < n ==> q(u[k]) by {
      forall k | 0 <= k < n ensures q(u[k]) {
        assert p(c[k]);
      }
    }
    forall k | n <= k < |u| ensures IsDigit(u[k]) {
      assert IsDigit(c[k]);
    }
    RunExact(u, 0, n, q);
    assert Run(u, 0, q) == n;
  }

  /** A PDF-pattern match at a position right after which the URL ends is the code there. */
  lemma PdfCodeAtEnd(s: String, i: nat, code: String, maxDigits: nat)
    requires 4 <= maxDigits && i + 13 <= |s| && s[i + 13..] == code && IsCode(CodeShape(2, 3, 3, maxDigits, false, false), code)
    requires WordAtIgnoringCase(s, i, "/pdf/kurs/") && IsAsciiLetter(s[i + 10]) && IsAsciiLetter(s[i + 11]) && s[i + 12] == '/'
    ensures PdfCodeAt(s, i, maxDigits) == Some(Hit(|s|, code))
  {
    CodeAtWhole(s, i + 13, code, maxDigits);
  }

  /** A code that runs to the end of the text is matched whole by the any-case pattern. */
  lemma CodeAtWhole(s: String, a: nat, code: String, maxDigits: nat)
    requires a <= |s| && s[a..] == code && IsCode(CodeShape(2, 3, 3, maxDigits, false, false), code)
    ensures CodeAt(AnyCaseCode(maxDigits), s, a) == Some(Hit(|s|, code))
  {
    var shape := AnyCaseCode(maxDigits);
    var p := (x: char) => IsCodeLetter(CodeShape(2, 3, 3, maxDigits, false, false), x);
    var n := Run(code, 0, p);
    RunShift(s, code, a, n, maxDigits);
    DigitRunExact(s, a + n, |s|);
    assert Run(s, a, (x: char) => IsCodeLetter(shape, x)) == n;
    assert DigitRun(s, a + n) == |s| - (a + n);
    assert s[a..|s|] == code;
  }

  lemma RunShift(s: String, code: String, a: nat, n: nat, maxDigits: nat)
    requires a <= |s| && s[a..] == code && n == Run(code, 0, (x: char) => IsCodeLetter(CodeShape(2, 3, 3, maxDigits, false, false), x))
    requires n < |code| && forall k :: n <= k < |code| ==> IsDigit(code[k])
    ensures Run(s, a, (x: char) => IsCodeLetter(AnyCaseCode(maxDigits), x)) == n
    ensures forall k :: a + n <= k < |s| ==> IsDigit(s[k])
  {
    var q := (x: char) => IsCodeLetter(AnyCaseCode(maxDigits), x);
    assert forall k :: a <= k < a + n ==> q(s[k]) by {
      forall k | a <= k < a + n ensures q(s[k]) {
        assert s[k] == code[k - a];
      }
    }
    assert forall k :: a + n <= k < |s| ==> IsDigit(s[k]) by {
      forall k | a + n <= k < |s| ensures IsDigit(s[k]) {
        assert s[k] == code[k - a];
      }
    }
    RunExact(s, a, a + n, q);
  }

  /** Only ASCII letters and digits. */
  predicate IsAsciiAlnum(g: String) {
    forall k :: 0 <= k < |g| ==> IsAsciiLetter(g[k]) || IsDigit(g[k])
  }

  /** Upper-case ASCII letters and digits, at least one. */
  predicate IsUpperCode(g: String) {
    g != [] && forall k :: 0 <= k < |g| ==> IsAsciiUpper(g[k]) || IsDigit(g[k])
  }

  /** `$` without MULTILINE: the end, or just before a final newline. */
  predicate EndAt(s: String, e: nat) { e == |s| || (e + 1 == |s| && s[e] == '\n') }

  lemma UpperOfAsciiAlnum(g: String)
    requires IsAsciiAlnum(g) && g != []
    ensures IsUpperCode(Upper(g))
  {
    forall k | 0 <= k < |g| ensures IsAsciiUpper(Upper(g)[k]) || IsDigit(Upper(g)[k]) {
      assert IsAsciiLetter(g[k]) || IsDigit(g[k]);
    }
  }

  predicate IsAsciiAlnumChar(x: char) { IsAsciiLetter(x) || IsDigit(x) }

  /**
   * `/([A-Za-z0-9]{3,8})` at `i`, followed by what `tail` accepts at the end of the group; the
   * hit ends there. The class is greedy and every tail used starts with `/`, which the class
   * does not take, so only the whole run of letters and digits can be the group.
   */
  function SlashCodeAt(s: String, i: nat, tail: (String, nat) -> bool): (r: Option<Hit>)
    ensures r.Some? ==> IsAsciiAlnum(r.value.group) && 3 <= |r.value.group| <= 8
  {
    if i < |s| && s[i] == '/' then
      var n := Run(s, i + 1, IsAsciiAlnumChar);
      if 3 <= n <= 8 && tail(s, i + 1 + n) then
        var g := s[i + 1..i + 1 + n];
        assert forall k :: 0 <= k < |g| ==> g[k] == s[i + 1 + k];
        Some(Hit(i + 1 + n, g))
      else None
    else None
  }

  /** Before the first slash of a string the pattern cannot match. */
  lemma SlashCodeSkips(s: String, n: nat, tail: (String, nat) -> bool)
    requires n <= |s| && '/' !in s[..n]
    ensures forall k :: 0 <= k < n ==> SlashCodeAt(s, k, tail).None?
  {
    forall k | 0 <= k < n ensures SlashCodeAt(s, k, tail).None? {
      assert s[k] == s[..n][k];
    }
  }

  /**
   * The pattern matches at a slash followed by a code `c` of three to eight letters and digits
   * that is not followed by another letter or digit, when the tail accepts what comes next.
   */
  lemma SlashCodeFound(s: String, a: nat, c: String, tail: (String, nat) -> bool)
    requires 3 <= |c| <= 8 && IsAsciiAlnum(c)
    requires a + 1 + |c| <= |s| && s[a] == '/' && s[a + 1..a + 1 + |c|] == c
    requires a + 1 + |c| == |s| || !IsAsciiAlnumChar(s[a + 1 + |c|])
    requires tail(s, a + 1 + |c|)
    ensures SlashCodeAt(s, a, tail) == Some(Hit(a + 1 + |c|, c))
  {
    forall k | a + 1 <= k < a + 1 + |c| ensures IsAsciiAlnumChar(s[k]) {
      assert s[k] == c[k - a - 1];
    }
    RunExact(s, a + 1, a + 1 + |c|, IsAsciiAlnumChar);
  }

  /** A search with a matcher whose groups are letters and digits finds a code. */
  lemma SearchIsCode(url: String, m: Matcher)
    requires forall j :: m(url, j).Some? ==> IsAsciiAlnum(m(url, j).value.group) && m(url, j).value.group != []
    requires Search(url, m).Some?
    ensures IsUpperCode(Upper(Search(url, m).value.group))
  {
    var j :| 0 <= j <= |url| && m(url, j) == Search(url, m);
    UpperOfAsciiAlnum(m(url, j).value.group);
  }
}
