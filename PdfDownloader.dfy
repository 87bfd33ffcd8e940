/**
 * The syllabus PDF downloader's pure steps: reading the URL file, keeping the PDF syllabus URLs
 * with their course codes, and the file each PDF is saved to.
 */
module SyllabusPdfDownloader {
  import opened Wrappers
  import opened Text
  import opened Seqs
  import opened Scan
  import opened Paths
  import opened Filtering
  import UrlPatterns

  /** The literal part of `PDF_URL_PATTERN`. */
  const PdfUrlPrefix: String := "kursplaner.gu.se/pdf/kurs/en/"

  /** `[A-Za-z0-9]`. */
  predicate IsCodeChar(c: char) { UrlPatterns.IsAsciiLetter(c) || IsDigit(c) }

  /** `h` is a match of `lit` followed by a maximal non-empty run of `p` at `i`, the run being the group. */
  predicate LiteralRunMatch(s: String, i: nat, lit: String, p: char -> bool, h: Hit) {
    OccursAt(s, lit, i) && h.group != [] && h.end == i + |lit| + |h.group| && OccursAt(s, h.group, i + |lit|) &&
    (forall k :: 0 <= k < |h.group| ==> p(h.group[k])) && (h.end < |s| ==> !p(s[h.end]))
  }

  /** The pattern `lit(p+)` at position `i`; `+` is greedy. */
  function LiteralRunAt(s: String, i: nat, lit: String, p: char -> bool): (r: Option<Hit>)
    ensures r.Some? ==> LiteralRunMatch(s, i, lit, p, r.value)
    ensures r.None? <==> !(OccursAt(s, lit, i) && i + |lit| < |s| && p(s[i + |lit|]))
  {
    if i + |lit| <= |s| && s[i..i + |lit|] == lit then
      var n := Run(s, i + |lit|, p);
      if n > 0 then Some(Hit(i + |lit| + n, s[i + |lit|..i + |lit| + n])) else None
    else None
  }

  /** The matcher for `lit([A-Za-z0-9]+)`. */
  function CodePattern(lit: String): Matcher {
    (s: String, i: nat) => LiteralRunAt(s, i, lit, IsCodeChar)
  }

  /** `re.search(lit + '([A-Za-z0-9]+)', url).group(1)`. */
  function CodeAfter(url: String, lit: String): Option<String> {
    match Search(url, CodePattern(lit))
    case None => None
    case Some(h) => Some(h.group)
  }

  /** The code after the first `lit` that is followed by a letter or digit: none exactly when there is no such `lit`. */
  lemma CodeAfterSpec(url: String, lit: String)
    ensures var r := CodeAfter(url, lit);
      (r.None? <==> forall j :: 0 <= j <= |url| ==> !(OccursAt(url, lit, j) && j + |lit| < |url| && IsCodeChar(url[j + |lit|]))) &&
      (r.Some? ==> r.value != [] && (forall k :: 0 <= k < |r.value| ==> IsCodeChar(r.value[k])) &&
                   exists j :: OccursAt(url, lit, j) && OccursAt(url, r.value, j + |lit|))
  {
    var m := CodePattern(lit);
    match Search(url, m)
    case None =>
      assert CodeAfter(url, lit) == None;
      forall j | 0 <= j <= |url|
        ensures !(OccursAt(url, lit, j) && j + |lit| < |url| && IsCodeChar(url[j + |lit|]))
      {
        assert m(url, j).None?;
        assert LiteralRunAt(url, j, lit, IsCodeChar).None?;
      }
    case Some(h) =>
      var j :| 0 <= j <= |url| && m(url, j) == Some(h);
      assert LiteralRunMatch(url, j, lit, IsCodeChar, h);
  }

  lemma NoMatchInLead(lead: String, lit: String, url: String, j: nat)
    requires lit != [] && lit[0] !in lead && StartsWith(url, lead) && j < |lead|
    ensures CodePattern(lit)(url, j).None?
  {
    assert url[j] == lead[j];
  }

  lemma MatchAfterLead(lead: String, lit: String, code: String, rest: String)
    requires code != [] && forall k :: 0 <= k < |code| ==> IsCodeChar(code[k])
    requires rest == [] || !IsCodeChar(rest[0])
    ensures var url := lead + lit + code + rest;
      CodePattern(lit)(url, |lead|) == Some(Hit(|lead + lit| + |code|, code))
  {
    var url := lead + lit + code + rest;
    UrlParts(lead, lit, code, rest);
    CodeRun(url, |lead| + |lit|, code);
    CodeFoundAt(url, |lead|, lit, code);
  }

  /** `lit` at `i` followed by a whole run of code characters matches, with the run as group. */
  lemma CodeFoundAt(s: String, i: nat, lit: String, code: String)
    requires i + |lit| + |code| <= |s| && s[i..i + |lit|] == lit
    requires code != [] && Run(s, i + |lit|, IsCodeChar) == |code| && s[i + |lit|..i + |lit| + |code|] == code
    ensures CodePattern(lit)(s, i) == Some(Hit(i + |lit| + |code|, code))
  {
  }

  /** Where each part of `lead + lit + code + rest` sits. */
  lemma UrlParts(lead: String, lit: String, code: String, rest: String)
    ensures var url := lead + lit + code + rest; var a := |lead| + |lit|;
      |url| == a + |code| + |rest| && url[|lead|..a] == lit && url[a..a + |code|] == code &&
      (rest != [] ==> url[a + |code|] == rest[0])
  {
    var url := lead + lit + code + rest;
    var a := |lead| + |lit|;
    assert url == (lead + lit) + (code + rest);
    assert (lead + lit)[|lead|..] == lit;
    assert (code + rest)[..|code|] == code;
  }

  /** A maximal run of code characters at `a` is read whole. */
  lemma CodeRun(url: String, a: nat, code: String)
    requires a + |code| <= |url| && url[a..a + |code|] == code
    requires forall k :: 0 <= k < |code| ==> IsCodeChar(code[k])
    requires a + |code| < |url| ==> !IsCodeChar(url[a + |code|])
    ensures Run(url, a, IsCodeChar) == |code|
  {
    forall k | a <= k < a + |code| ensures IsCodeChar(url[k]) {
      assert url[k] == url[a..a + |code|][k - a];
    }
    RunExact(url, a, a + |code|, IsCodeChar);
  }

  /** A code written right after the first occurrence of `lit` is read back, whatever follows it. */
  lemma CodeAfterRoundTrip(lead: String, lit: String, code: String, rest: String)
    requires lit != [] && lit[0] !in lead
    requires code != [] && forall k :: 0 <= k < |code| ==> IsCodeChar(code[k])
    requires rest == [] || !IsCodeChar(rest[0])
    ensures CodeAfter(lead + lit + code + rest, lit) == Some(code)
  {
    var url := lead + lit + code + rest;
    var m := CodePattern(lit);
    assert StartsWith(url, lead) by { assert url[..|lead|] == lead; }
    forall j | 0 <= j < |lead| ensures m(url, j).None? {
      NoMatchInLead(lead, lit, url, j);
    }
    MatchAfterLead(lead, lit, code, rest);
    SearchFromSkip(url, 0, |lead|, m);
  }

  /**
   * `re.search(PDF_URL_PATTERN, url).group(1)`: the course code after the first
   * "kursplaner.gu.se/pdf/kurs/en/" that is followed by a letter or digit, in its original case.
   */
  function CourseCodeOf(url: String): Option<String> {
    CodeAfter(url, PdfUrlPrefix)
  }

  /** The course code is read back from a syllabus PDF URL, whatever follows it. */
  lemma CourseCodeOfPdfUrl(code: String, rest: String)
    requires code != [] && forall k :: 0 <= k < |code| ==> IsCodeChar(code[k])
    requires rest == [] || !IsCodeChar(rest[0])
    ensures CourseCodeOf(Https + PdfUrlPrefix + code + rest) == Some(code)
  {
    CodeAfterRoundTrip(Https, PdfUrlPrefix, code, rest);
  }

  /** The URLs `filter_pdf_urls` keeps, each paired with the code `codeOf` reads from it. */
  function Pairs(urls: seq<String>, codeOf: String -> Option<String>): (r: seq<(String, String)>)
    decreases |urls|
  {
    if urls == [] then []
    else
      (match codeOf(urls[0]) case None => [] case Some(code) => [(urls[0], code)]) + Pairs(urls[1..], codeOf)
  }

  /** The URLs from which `codeOf` reads a code. */
  function HasCode(codeOf: String -> Option<String>): String -> bool {
    u => codeOf(u).Some?
  }

  /** The pairs hold exactly the URLs with a code, in input order, each with the code read from it. */
  lemma {:induction false} PairsSpec(urls: seq<String>, codeOf: String -> Option<String>)
    ensures |Pairs(urls, codeOf)| == |Filter(urls, HasCode(codeOf))|
    ensures forall i :: 0 <= i < |Pairs(urls, codeOf)| ==>
              Pairs(urls, codeOf)[i].0 == Filter(urls, HasCode(codeOf))[i] &&
              codeOf(Pairs(urls, codeOf)[i].0) == Some(Pairs(urls, codeOf)[i].1)
    decreases |urls|
  {
    if urls != [] {
      PairsSpec(urls[1..], codeOf);
    }
  }

  /** The loop of `filter_pdf_urls`, for any way `codeOf` of reading a code from a URL. */
  method PairUp(urls: seq<String>, codeOf: String -> Option<String>) returns (pairs: seq<(String, String)>)
    ensures pairs == Pairs(urls, codeOf)
  {
    pairs := [];
    for i := 0 to |urls|
      invariant pairs + Pairs(urls[i..], codeOf) == Pairs(urls, codeOf)
    {
      var code := codeOf(urls[i]);
      PairsCons(urls, i, codeOf);
      if code.Some? {
        pairs := pairs + [(urls[i], code.value)];
      }
    }
  }

  lemma PairsCons(urls: seq<String>, i: nat, codeOf: String -> Option<String>)
    requires i < |urls|
    ensures Pairs(urls[i..], codeOf) ==
      (if codeOf(urls[i]).Some? then [(urls[i], codeOf(urls[i]).value)] else []) + Pairs(urls[i + 1..], codeOf)
  {
    assert urls[i..][1..] == urls[i + 1..];
  }

  /** `filter_pdf_urls`: one (URL, course code) pair per syllabus PDF URL, in input order. */
  method FilterPdfUrls(urls: seq<String>) returns (pairs: seq<(String, String)>)
    ensures pairs == Pairs(urls, CourseCodeOf)
  {
    pairs := PairUp(urls, CourseCodeOf);
  }

  /** `read_urls`: the stripped non-blank lines, or nothing when the file cannot be read. */
  function ReadUrls(file: Option<seq<String>>): (urls: seq<String>)
    ensures file.None? ==> urls == []
    ensures forall i :: 0 <= i < |urls| ==> urls[i] != [] && Strip(urls[i]) == urls[i]
    ensures file.Some? ==> forall l :: l in file.value && !IsBlank(l) ==> Strip(l) in urls
  {
    match file
    case None => []
    case Some(lines) => StrippedLines(lines)
  }

  /** `download_pdf`'s output path: `<output_dir>/<course_code>.pdf`. */
  function DownloadPath(outputDir: String, courseCode: String): (path: String)
    ensures EndsWith(path, courseCode + ".pdf")
  {
    JoinPath(outputDir, courseCode + ".pdf")
  }

  lemma PdfNameHasNoSlash(courseCode: String)
    requires forall k :: 0 <= k < |courseCode| ==> IsCodeChar(courseCode[k])
    ensures '/' !in courseCode + ".pdf" && !StartsWith(courseCode + ".pdf", "/")
  {
    var name := courseCode + ".pdf";
    forall k | 0 <= k < |name| ensures name[k] != '/' {
      if k >= |courseCode| {
        assert name[k] == ".pdf"[k - |courseCode|];
      } else {
        assert name[k] == courseCode[k];
      }
    }
    assert name[..1] != "/" by {
      assert name[..1][0] == name[0];
    }
  }

  /** A downloaded syllabus is saved in the output directory under its course code. */
  lemma DownloadPathName(outputDir: String, url: String, courseCode: String)
    requires CourseCodeOf(url) == Some(courseCode)
    ensures Basename(DownloadPath(outputDir, courseCode)) == courseCode + ".pdf"
    ensures StartsWith(DownloadPath(outputDir, courseCode), outputDir)
  {
    CodeAfterSpec(url, PdfUrlPrefix);
    PdfNameHasNoSlash(courseCode);
    BasenameOfJoin(outputDir, courseCode + ".pdf");
  }
}
