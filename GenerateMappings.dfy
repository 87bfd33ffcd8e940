/**
 * The combined mapping generator: a course code from each PDF's file name and each syllabus
 * URL, the program codes each PDF text or page mentions as whole words, the two collections
 * merged, the result inverted, and both directions shaped for their JSON files. Reading the
 * PDFs and fetching the pages are inputs: `text` gives the extracted text of a file (empty when
 * extraction fails) and `page` the text of a page (`None` when the request fails).
 */
module GenerateMappings {
  import opened Wrappers
  import opened Text
  import opened Scan
  import opened Seqs
  import opened Paths
  import opened Dicts
  import opened UrlPatterns
  import opened Mappings
  import Sorting

  // ----- course codes from file names -----

  /** `extract_course_code_from_filename`: the file name without its extension, upper-cased. */
  function CourseCodeFromFilename(path: String): (r: String)
    ensures Upper(r) == r
    ensures |r| == |FileStem(path)| && '/' !in r
  {
    var stem := FileStem(path);
    UpperIdempotent(stem);
    UpperSlashFree(stem);
    Upper(stem)
  }

  lemma UpperSlashFree(s: String)
    requires '/' !in s
    ensures '/' !in Upper(s)
  {
    forall k | 0 <= k < |s|
      ensures Upper(s)[k] != '/'
    {
      assert s[k] != '/';
    }
  }

  /** A file `<dir>/<c>.pdf` gives `c` upper-cased. */
  lemma CourseCodeOfPdf(dir: String, c: String)
    requires c != [] && '/' !in c && '.' !in c
    ensures CourseCodeFromFilename(JoinPath(dir, c + ".pdf")) == Upper(c)
  {
    FileStemOf(dir, c, ".pdf");
  }

  // ----- program codes in a text -----

  /** `\b` + `c` + `\b` matches `t` at `j`. */
  predicate WholeWordAt(t: String, c: String, j: int) {
    OccursAt(t, c, j) && WordBoundary(t, j) && WordBoundary(t, j + |c|)
  }

  /** `re.search(r'\b' + re.escape(c) + r'\b', t)` finds a match. */
  predicate WholeWordIn(t: String, c: String) {
    exists j :: 0 <= j <= |t| && WholeWordAt(t, c, j)
  }

  /** Whether `code` is found in `text` by `find_program_codes_in_text`. */
  predicate FoundInText(text: String, code: String) {
    WholeWordIn(Upper(text), Upper(code))
  }

  /**
   * What `find_program_codes_in_text` returns: the codes whose upper-case form occurs as a whole
   * word in the upper-cased text, each kept in its own spelling.
   */
  function ProgramCodesIn(text: String, codes: seq<String>): set<String> {
    set c | c in codes && FoundInText(text, c)
  }

  /** `find_program_codes_in_text`: the loop over the program codes. */
  method FindProgramCodesInText(text: String, codes: seq<String>) returns (found: set<String>)
    ensures found == ProgramCodesIn(text, codes)
  {
    found := CodesFound(text, codes, FoundInText);
  }

  lemma WordCharUpper(x: char)
    ensures IsWordChar(UpperChar(x)) <==> IsWordChar(x)
  {
  }

  /**
   * A code that appears in the text with no word character on either side is found: the text
   * `a + c + b`, where `c` begins and ends with word characters and `a` ends and `b` begins with
   * something else.
   */
  lemma DelimitedCodeFound(a: String, c: String, b: String, codes: seq<String>)
    requires c in codes && c != [] && IsWordChar(c[0]) && IsWordChar(c[|c| - 1])
    requires a == [] || !IsWordChar(a[|a| - 1])
    requires b == [] || !IsWordChar(b[0])
    ensures c in ProgramCodesIn(a + c + b, codes)
  {
    var t := Upper(a + c + b);
    var u := Upper(c);
    assert t[|a|..|a| + |u|] == u;
    WordCharUpper(c[0]);
    WordCharUpper(c[|c| - 1]);
    if a != [] {
      WordCharUpper(a[|a| - 1]);
      assert t[|a| - 1] == UpperChar(a[|a| - 1]);
    }
    if b != [] {
      WordCharUpper(b[0]);
      assert t[|a| + |c|] == UpperChar(b[0]);
    }
    assert WholeWordAt(t, u, |a|);
  }

  /**
   * A code ending in a word character is not found when every occurrence of it in the text is
   * followed by a word character: `N2COS` in a text that only mentions `N2COSMOS`.
   */
  lemma PrefixOfLongerCodeNotFound(text: String, c: String, codes: seq<String>)
    requires c != [] && IsWordChar(c[|c| - 1])
    requires forall j :: OccursAt(Upper(text), Upper(c), j) ==> j + |c| < |text| && IsWordChar(Upper(text)[j + |c|])
    ensures c !in ProgramCodesIn(text, codes)
  {
    var t := Upper(text);
    var u := Upper(c);
    WordCharUpper(c[|c| - 1]);
    forall j | 0 <= j <= |t| ensures !WholeWordAt(t, u, j) {
      if OccursAt(t, u, j) {
        assert j + |u| < |t| && IsWordChar(t[j + |u|]);
        WordContinues(t, u, j);
      }
    }
  }

  /** An occurrence of `u`, which ends in a word character, followed by a word character ends on no boundary. */
  lemma WordContinues(t: String, u: String, j: nat)
    requires OccursAt(t, u, j) && u != [] && IsWordChar(u[|u| - 1])
    requires j + |u| < |t| && IsWordChar(t[j + |u|])
    ensures !WordBoundary(t, j + |u|)
  {
    assert t[j + |u| - 1] == t[j..j + |u|][|u| - 1];
  }

  // ----- course codes from URLs -----

  const SyllabusTail: String := "/syllabus"

  const SyllabusWord: String := "syllabus"

  /** `/syllabus` at `e`, in any case. */
  predicate SyllabusTailAt(s: String, e: nat) { WordAtIgnoringCase(s, e, SyllabusTail) }

  /** The first pattern, `/([A-Z0-9]{3,8})/syllabus`, ignoring case. */
  function SyllabusSegmentAt(s: String, i: nat): (r: Option<Hit>) { SlashCodeAt(s, i, SyllabusTailAt) }

  /**
   * What may follow the code in the second pattern, `/?(?:$|syllabus|#)`, at `e`: an optional
   * slash (giving it back cannot help, since no alternative starts with one), then the end, the
   * word `syllabus` in any case, or `#`.
   */
  predicate CodeEndAt(s: String, e: nat, word: String) {
    var p := if e < |s| && s[e] == '/' then e + 1 else e;
    EndAt(s, p) || WordAtIgnoringCase(s, p, word) || (p < |s| && s[p] == '#')
  }

  /**
   * `-([a-zA-Z]{2,4}\d{3,5})` at `i`, ignoring case, followed by what `CodeEndAt` accepts. Both
   * classes are greedy and nothing after the code can be a letter or a digit that the class would
   * have to give back, so only the whole runs can form the group.
   */
  function DashCodeAt(s: String, i: nat, word: String): (r: Option<Hit>)
    ensures r.Some? ==> IsAsciiAlnum(r.value.group) && 5 <= |r.value.group| <= 9
  {
    if i < |s| && s[i] == '-' then
      var l := Run(s, i + 1, IsAsciiLetter);
      var d := DigitRun(s, i + 1 + l);
      var e := i + 1 + l + d;
      if 2 <= l <= 4 && 3 <= d <= 5 && CodeEndAt(s, e, word) then
        var g := s[i + 1..e];
        assert forall k :: 0 <= k < |g| ==> g[k] == s[i + 1 + k];
        Some(Hit(e, g))
      else None
    else None
  }

  /** The second pattern, `-([a-zA-Z]{2,4}\d{3,5})/?(?:$|syllabus|#)`. */
  function CodeAtEndAt(s: String, i: nat): (r: Option<Hit>) { DashCodeAt(s, i, SyllabusWord) }

  /**
   * `extract_course_code_from_url`: the group of the first pattern that matches anywhere,
   * upper-cased, and the empty string when neither matches.
   */
  function ExtractCourseCodeFromUrl(url: String): (r: String)
    ensures r == [] <==> Search(url, SyllabusSegmentAt).None? && Search(url, CodeAtEndAt).None?
    ensures r != [] ==> IsUpperCode(r) && 3 <= |r| <= 9
    ensures Search(url, SyllabusSegmentAt).Some? ==> r == Upper(Search(url, SyllabusSegmentAt).value.group)
    ensures Search(url, SyllabusSegmentAt).None? && Search(url, CodeAtEndAt).Some? ==>
              r == Upper(Search(url, CodeAtEndAt).value.group)
  {
    if Search(url, SyllabusSegmentAt).Some? then
      SearchIsCode(url, SyllabusSegmentAt);
      Upper(Search(url, SyllabusSegmentAt).value.group)
    else if Search(url, CodeAtEndAt).Some? then
      SearchIsCode(url, CodeAtEndAt);
      Upper(Search(url, CodeAtEndAt).value.group)
    else []
  }

  lemma SyllabusTailIsLower()
    ensures SyllabusTail != [] && SyllabusTail[0] == '/'
    ensures forall k :: 0 <= k < |SyllabusTail| ==> LowerChar(SyllabusTail[k]) == SyllabusTail[k]
  {
    forall k | 0 <= k < |SyllabusTail| ensures LowerChar(SyllabusTail[k]) == SyllabusTail[k] {
      assert SyllabusTail[k] == '/' || 'a' <= SyllabusTail[k] <= 'z';
    }
  }

  lemma SyllabusTailAtEnd(pre: String)
    ensures SyllabusTailAt(pre + SyllabusTail, |pre|) && (pre + SyllabusTail)[|pre|] == '/'
  {
    var s := pre + SyllabusTail;
    SyllabusTailIsLower();
    forall k | 0 <= k < |SyllabusTail| ensures LowerChar(s[|pre| + k]) == SyllabusTail[k] {
      assert s[|pre| + k] == SyllabusTail[k];
    }
  }

  /** The first pattern matches at a slash followed by a code and `/syllabus`. */
  lemma SyllabusSegmentFound(url: String, a: nat, c: String)
    requires 3 <= |c| <= 8 && IsAsciiAlnum(c)
    requires a + 1 + |c| < |url| && url[a] == '/' && url[a + 1..a + 1 + |c|] == c
    requires url[a + 1 + |c|] == '/' && SyllabusTailAt(url, a + 1 + |c|)
    ensures SyllabusSegmentAt(url, a) == Some(Hit(a + 1 + |c|, c))
  {
    SlashCodeFound(url, a, c, SyllabusTailAt);
  }

  /** The code of the first `/<code>/syllabus` segment, upper-cased, is the code of a URL. */
  lemma FirstSyllabusSegment(url: String, a: nat, c: String)
    requires 3 <= |c| <= 8 && IsAsciiAlnum(c)
    requires a + 1 + |c| < |url| && '/' !in url[..a] && url[a] == '/' && url[a + 1..a + 1 + |c|] == c
    requires url[a + 1 + |c|] == '/' && SyllabusTailAt(url, a + 1 + |c|)
    ensures ExtractCourseCodeFromUrl(url) == Upper(c)
  {
    SyllabusSegmentFound(url, a, c);
    SlashCodeSkips(url, a, SyllabusTailAt);
    SearchFirstAt(url, a, SyllabusSegmentAt);
  }

  /** Where the pieces of `<base>/<c>/syllabus` sit. */
  lemma SyllabusUrlShape(base: String, c: String)
    ensures var url := base + "/" + c + SyllabusTail; var e := |base| + 1 + |c|;
      e < |url| && url[..|base|] == base && url[|base|] == '/' && url[|base| + 1..e] == c &&
      url[e] == '/' && SyllabusTailAt(url, e)
  {
    var pre := base + "/" + c;
    var url := pre + SyllabusTail;
    assert url[..|pre|] == pre;
    assert pre[..|base|] == base && pre[|base| + 1..] == c;
    SyllabusTailAtEnd(pre);
  }

  /** A syllabus URL `<base>/<c>/syllabus` gives `c` upper-cased when `base` has no slash. */
  lemma SyllabusUrlCode(base: String, c: String)
    requires '/' !in base && 3 <= |c| <= 8 && IsAsciiAlnum(c)
    ensures ExtractCourseCodeFromUrl(base + "/" + c + SyllabusTail) == Upper(c)
  {
    SyllabusUrlShape(base, c);
    FirstSyllabusSegment(base + "/" + c + SyllabusTail, |base|, c);
  }

  // ----- program codes of a page -----

  /**
   * `scrape_program_codes_from_url`: nothing when the request fails or the page has no text,
   * otherwise the program codes found in the page text.
   */
  function PageCodes(url: String, codes: seq<String>, page: String -> Option<String>): (r: set<String>)
    ensures page(url).None? ==> r == {}
    ensures page(url).Some? ==> r == ProgramCodesIn(page(url).value, codes)
  {
    match page(url)
    case None => {}
    case Some(t) => if t == [] then {} else ProgramCodesIn(t, codes)
  }

  /** Nothing is found in an empty text, so the explicit check for one changes nothing. */
  lemma NothingInEmptyText(codes: seq<String>)
    ensures ProgramCodesIn([], codes) == {}
  {
  }

  method ScrapeProgramCodesFromUrl(url: String, codes: seq<String>, page: String -> Option<String>) returns (found: set<String>)
    ensures found == PageCodes(url, codes, page)
    ensures found <= set c | c in codes
  {
    match page(url)
    case None =>
      found := {};
    case Some(t) =>
      if t == [] {
        found := {};
      } else {
        found := FindProgramCodesInText(t, codes);
      }
  }

  // ----- the two collections -----

  /** A PDF's course code and what it contributes: nothing for a nameless code or an empty text. */
  function PdfFinding(codes: seq<String>, text: String -> String): String -> (String, set<String>) {
    (f: String) =>
      var code := CourseCodeFromFilename(f);
      (code, if code == [] || text(f) == [] then {} else ProgramCodesIn(text(f), codes))
  }

  /** A URL's course code and what it contributes: nothing when no code is found in it. */
  function UrlFinding(codes: seq<String>, page: String -> Option<String>): String -> (String, set<String>) {
    (u: String) =>
      var code := ExtractCourseCodeFromUrl(u);
      (code, if code == [] then {} else PageCodes(u, codes, page))
  }

  /** `process_pdfs_for_mapping`. */
  method ProcessPdfsForMapping(files: seq<String>, codes: seq<String>, text: String -> String) returns (m: SetMap)
    ensures m == Collected(files, PdfFinding(codes, text))
  {
    m := map[];
    for i := 0 to |files|
      invariant m == Collected(files[..i], PdfFinding(codes, text))
    {
      CollectedStep(files, PdfFinding(codes, text), i);
      var code := CourseCodeFromFilename(files[i]);
      if code == [] {
        continue;
      }
      var pdfText := text(files[i]);
      if pdfText == [] {
        continue;
      }
      var found := FindProgramCodesInText(pdfText, codes);
      if found != {} {
        m := m[code := Lookup(m, code) + found];
      }
    }
    assert files[..|files|] == files;
  }

  /** `process_urls_for_mapping`. */
  method ProcessUrlsForMapping(urls: seq<String>, codes: seq<String>, page: String -> Option<String>) returns (m: SetMap)
    ensures m == Collected(urls, UrlFinding(codes, page))
  {
    m := map[];
    for i := 0 to |urls|
      invariant m == Collected(urls[..i], UrlFinding(codes, page))
    {
      CollectedStep(urls, UrlFinding(codes, page), i);
      var code := ExtractCourseCodeFromUrl(urls[i]);
      if code == [] {
        continue;
      }
      var found := ScrapeProgramCodesFromUrl(urls[i], codes, page);
      if found != {} {
        m := m[code := Lookup(m, code) + found];
      }
    }
    assert urls[..|urls|] == urls;
  }

  /** The PDF `f` is named for course `c` and has text in which program `p` is found. */
  predicate PdfGives(codes: seq<String>, text: String -> String, f: String, c: String, p: String) {
    c != [] && CourseCodeFromFilename(f) == c && text(f) != [] && p in codes && FoundInText(text(f), p)
  }

  /**
   * A program is under a course after the PDF pass exactly when some PDF is named for the course
   * and has text in which the program is found; no course is stored without programs.
   */
  lemma PdfMappingSpec(files: seq<String>, codes: seq<String>, text: String -> String, c: String, p: String)
    ensures AllNonEmpty(Collected(files, PdfFinding(codes, text)))
    ensures p in Lookup(Collected(files, PdfFinding(codes, text)), c) <==>
              exists i :: 0 <= i < |files| && PdfGives(codes, text, files[i], c, p)
  {
    CollectedMember(files, PdfFinding(codes, text), c, p, f => PdfGives(codes, text, f, c, p));
  }

  /** The URL `u` gives course `c`, and its page was fetched and mentions program `p`. */
  predicate UrlGives(codes: seq<String>, page: String -> Option<String>, u: String, c: String, p: String) {
    c != [] && ExtractCourseCodeFromUrl(u) == c && page(u).Some? && p in codes && FoundInText(page(u).value, p)
  }

  /**
   * A program is under a course after the URL pass exactly when some URL gives the course code
   * and its page could be fetched and mentions the program.
   */
  lemma UrlMappingSpec(urls: seq<String>, codes: seq<String>, page: String -> Option<String>, c: String, p: String)
    ensures AllNonEmpty(Collected(urls, UrlFinding(codes, page)))
    ensures p in Lookup(Collected(urls, UrlFinding(codes, page)), c) <==>
              exists i :: 0 <= i < |urls| && UrlGives(codes, page, urls[i], c, p)
  {
    forall u ensures UrlGives(codes, page, u, c, p) <==> UrlFinding(codes, page)(u).0 == c && p in UrlFinding(codes, page)(u).1 {
      UrlFindingGives(codes, page, u, c, p);
    }
    CollectedMember(urls, UrlFinding(codes, page), c, p, u => UrlGives(codes, page, u, c, p));
  }

  lemma UrlFindingGives(codes: seq<String>, page: String -> Option<String>, u: String, c: String, p: String)
    ensures UrlGives(codes, page, u, c, p) <==> UrlFinding(codes, page)(u).0 == c && p in UrlFinding(codes, page)(u).1
  {
    NothingInEmptyText(codes);
  }

  // ----- saving -----

  predicate NonEmptySet(s: set<String>) { s != {} }

  /**
   * `save_mapping_to_json`: one entry per key with a non-empty set, its values sorted, the
   * entries sorted by key.
   */
  function MappingEntries(m: SetMap): (r: Dict<seq<String>>)
    ensures Sorting.Sorted(Keys(r)) && DistinctKeys(r)
    ensures forall k :: k in Keys(r) <==> k in m && m[k] != {}
    ensures forall i :: 0 <= i < |r| ==>
              r[i].0 in m && Sorting.Sorted(r[i].1) && Distinct(r[i].1) && forall x :: x in r[i].1 <==> x in m[r[i].0]
  {
    SortedEntries(m, NonEmptySet, Sorting.SortedSet)
  }

  lemma ListedSpec(m: SetMap, k: String, v: String)
    ensures Listed(MappingEntries(m), k, v) <==> k in m && v in m[k]
  {
    var r := MappingEntries(m);
    if k in m && v in m[k] {
      assert k in Keys(r);
      var i :| 0 <= i < |r| && Keys(r)[i] == k;
      assert v in r[i].1;
    }
  }

  /**
   * `main`: the two collections merged, and both the mapping and its inverse saved. A course
   * lists a program in the first file exactly when the program lists the course in the second.
   */
  lemma SavedMappingsAgree(pdfMap: SetMap, urlMap: SetMap, c: String, p: String)
    ensures var combined := Merge(pdfMap, urlMap);
            Listed(MappingEntries(combined), c, p) <==> Listed(MappingEntries(Invert(combined)), p, c)
  {
    var combined := Merge(pdfMap, urlMap);
    ListedSpec(combined, c, p);
    ListedSpec(Invert(combined), p, c);
    InvertSpec(combined);
    assert c in Lookup(Invert(combined), p) <==> c in combined && p in combined[c];
  }

  /**
   * In the merged file a course lists exactly the programs found for it by either pass.
   */
  lemma MergedListing(pdfMap: SetMap, urlMap: SetMap, c: String, p: String)
    ensures Listed(MappingEntries(Merge(pdfMap, urlMap)), c, p) <==> p in Lookup(pdfMap, c) || p in Lookup(urlMap, c)
  {
    ListedSpec(Merge(pdfMap, urlMap), c, p);
    MergeLookup(pdfMap, urlMap, c, p);
  }
}
