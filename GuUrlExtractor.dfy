/**
 * The file-based course-URL extractor: course codes from PDF and web syllabus URLs (exactly
 * three digits), the reading-list filter, the code list written sorted, and the scrape that
 * collects syllabus URLs, course-page URLs and the codes of the syllabus URLs.
 */
module GuUrlExtractor {
  import opened Wrappers
  import opened Text
  import opened Scan
  import opened Seqs
  import opened Sorting
  import opened Codes
  import opened UrlPatterns

  /** Two or three upper-case letters and exactly three digits. */
  const GuCodeShape := CodeShape(2, 3, 3, 3, false, false)

  /** `/pdf/kurs/[a-z]{2}/([A-Z]{2,3}\d{3})` at `i`, ignoring case. */
  function GuPdfAt(s: String, i: nat): (r: Option<Hit>)
    ensures r.Some? ==> IsCode(AnyCaseCode(3), r.value.group)
  {
    var r := PdfCodeAt(s, i, 3);
    if r.Some? then
      CodeAtIsCode(AnyCaseCode(3), s, i + 13);
      r
    else r
  }

  /** `-((?:dit|msg|msa|mma|tia|lt)\d{3})/syllabus` at `i`, ignoring case. */
  function GuWebAt(s: String, i: nat): (r: Option<Hit>)
    ensures r.Some? ==> IsCode(AnyCaseCode(3), r.value.group)
  {
    WebCodeAt(s, i, 3)
  }

  lemma PdfSearchIsCode(url: String)
    requires Search(url, GuPdfAt).Some?
    ensures IsCode(GuCodeShape, Upper(Search(url, GuPdfAt).value.group))
  {
    var j :| 0 <= j <= |url| && GuPdfAt(url, j) == Search(url, GuPdfAt);
    UpperIsCourseCode(GuPdfAt(url, j).value.group, 3);
  }

  lemma WebSearchIsCode(url: String)
    requires Search(url, GuWebAt).Some?
    ensures IsCode(GuCodeShape, Upper(Search(url, GuWebAt).value.group))
  {
    var j :| 0 <= j <= |url| && GuWebAt(url, j) == Search(url, GuWebAt);
    UpperIsCourseCode(GuWebAt(url, j).value.group, 3);
  }

  /**
   * `extract_course_code`: the PDF pattern, then the web pattern; the first match's group,
   * upper-cased, is a code of two or three letters and three digits.
   */
  function ExtractCourseCode(url: String): (r: Option<String>)
    ensures r.None? <==> Search(url, GuPdfAt).None? && Search(url, GuWebAt).None?
    ensures r.Some? ==> IsCode(GuCodeShape, r.value)
    ensures Search(url, GuPdfAt).Some? ==> r == Some(Upper(Search(url, GuPdfAt).value.group))
    ensures Search(url, GuPdfAt).None? && Search(url, GuWebAt).Some? ==> r == Some(Upper(Search(url, GuWebAt).value.group))
  {
    if Search(url, GuPdfAt).Some? then
      PdfSearchIsCode(url);
      Some(Upper(Search(url, GuPdfAt).value.group))
    else if Search(url, GuWebAt).Some? then
      WebSearchIsCode(url);
      Some(Upper(Search(url, GuWebAt).value.group))
    else None
  }

  /** `extract_course_urls` over the hrefs of a page's result links: the reading lists are dropped. */
  function ExtractCourseUrls(hrefs: seq<String>): (urls: seq<String>)
    ensures forall u :: u in urls <==> u in hrefs && !IsReadingListUrl(u)
    ensures |urls| <= |hrefs|
  {
    Filter(hrefs, IsKeptUrl)
  }

  /** `save_course_codes`: the codes in ascending order, each once. */
  function SaveCourseCodes(codes: set<String>): (lines: seq<String>)
    ensures Sorted(lines) && Distinct(lines)
    ensures forall c :: c in lines <==> c in codes
    ensures |lines| == |codes|
  {
    SortedSet(codes)
  }

  /** The codes found in a list of course URLs. */
  function CodesOf(urls: seq<String>): (codes: set<String>)
    ensures forall c :: c in codes <==> exists u :: u in urls && ExtractCourseCode(u) == Some(c)
  {
    set u | u in urls && ExtractCourseCode(u).Some? :: ExtractCourseCode(u).value
  }

  /** The course URLs of a list of search pages, page after page. */
  function Collected(pages: seq<String>, results: String -> seq<String>): (urls: seq<String>)
    ensures forall u :: u in urls <==> exists p :: p in pages && u in results(p)
  {
    if pages == [] then []
    else
      var rest := Collected(pages[..|pages| - 1], results);
      assert forall p :: p in pages <==> p in pages[..|pages| - 1] || p == pages[|pages| - 1];
      rest + results(pages[|pages| - 1])
  }

  datatype ScrapingResult = ScrapingResult(syllabusUrls: seq<String>, coursePages: seq<String>, courseCodes: set<String>)

  /**
   * `scrape_all_course_data`: each syllabus search page's course URLs are appended and their
   * codes collected; then each course-page search page's URLs are appended. `results` stands
   * for fetching a search page and extracting its course URLs.
   */
  method ScrapeAllCourseData(search: SearchUrls, results: String -> seq<String>) returns (r: ScrapingResult)
    ensures r.syllabusUrls == Collected(search.syllabus, results)
    ensures r.coursePages == Collected(search.coursePages, results)
    ensures r.courseCodes == CodesOf(r.syllabusUrls)
  {
    r := ScrapingResult([], [], {});
    var i := 0;
    while i < |search.syllabus|
      invariant 0 <= i <= |search.syllabus|
      invariant r.syllabusUrls == Collected(search.syllabus[..i], results)
      invariant r.coursePages == []
      invariant r.courseCodes == CodesOf(r.syllabusUrls)
    {
      var courseUrls := results(search.syllabus[i]);
      var codes := r.courseCodes;
      var j := 0;
      while j < |courseUrls|
        invariant 0 <= j <= |courseUrls|
        invariant codes == CodesOf(r.syllabusUrls + courseUrls[..j])
      {
        CodesOfSnoc(r.syllabusUrls + courseUrls[..j], courseUrls[j]);
        assert r.syllabusUrls + courseUrls[..j + 1] == (r.syllabusUrls + courseUrls[..j]) + [courseUrls[j]];
        var code := ExtractCourseCode(courseUrls[j]);
        if code.Some? {
          codes := codes + {code.value};
        }
        j := j + 1;
      }
      assert courseUrls[..j] == courseUrls;
      assert search.syllabus[..i + 1][..i] == search.syllabus[..i];
      r := r.(syllabusUrls := r.syllabusUrls + courseUrls, courseCodes := codes);
      i := i + 1;
    }
    assert search.syllabus[..i] == search.syllabus;
    i := 0;
    while i < |search.coursePages|
      invariant 0 <= i <= |search.coursePages|
      invariant r.syllabusUrls == Collected(search.syllabus, results)
      invariant r.coursePages == Collected(search.coursePages[..i], results)
      invariant r.courseCodes == CodesOf(r.syllabusUrls)
    {
      assert search.coursePages[..i + 1][..i] == search.coursePages[..i];
      r := r.(coursePages := r.coursePages + results(search.coursePages[i]));
      i := i + 1;
    }
    assert search.coursePages[..i] == search.coursePages;
  }

  lemma CodesOfSnoc(urls: seq<String>, u: String)
    ensures CodesOf(urls + [u]) == CodesOf(urls) + (if ExtractCourseCode(u).Some? then {ExtractCourseCode(u).value} else {})
  {
    var a := CodesOf(urls + [u]);
    var b := CodesOf(urls) + (if ExtractCourseCode(u).Some? then {ExtractCourseCode(u).value} else {});
    forall c | c in a ensures c in b {
      var v :| v in urls + [u] && ExtractCourseCode(v) == Some(c);
      if v != u {
        assert v in urls;
      }
    }
    forall c | c in b ensures c in a {
      if c in CodesOf(urls) {
        var v :| v in urls && ExtractCourseCode(v) == Some(c);
        assert v in urls + [u];
      } else {
        assert u in urls + [u];
      }
    }
  }

  /** Every saved code is a well-formed course code taken from a syllabus URL. */
  lemma ScrapedCodesFromSyllabi(r: ScrapingResult, c: String)
    requires r.courseCodes == CodesOf(r.syllabusUrls) && c in r.courseCodes
    ensures IsCode(GuCodeShape, c)
    ensures exists u :: u in r.syllabusUrls && ExtractCourseCode(u) == Some(c)
  {
  }
}
