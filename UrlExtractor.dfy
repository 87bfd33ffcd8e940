/**
 * The database-connected URL extractor's pure rules: course codes from the four URL shapes
 * (PDF syllabus, web syllabus, course page, programme page), the URL type, the filter over the
 * links of a search page, and the empty case of marking URLs processed.
 */
module UrlExtractor {
  import opened Wrappers
  import opened Text
  import opened Scan
  import opened Seqs
  import opened Codes
  import opened UrlPatterns

  /** Two or three letters and three or four digits, upper case. */
  const CourseCodeShape := CodeShape(2, 3, 3, 4, false, false)

  /** A programme code as the programme pattern yields it: `N`, `1` or `2`, three letters. */
  predicate IsProgramCode(c: String) {
    |c| == 5 && c[0] == 'N' && (c[1] == '1' || c[1] == '2') && IsAsciiUpper(c[2]) && IsAsciiUpper(c[3]) && IsAsciiUpper(c[4])
  }

  /** `(?:/|$)`: a slash, the end, or the end before a final newline. */
  predicate EndsPathAt(s: String, p: nat) {
    p == |s| || (p < |s| && s[p] == '/') || (p + 1 == |s| && s[p] == '\n')
  }

  // ----- the four patterns -----

  function PdfAt(s: String, i: nat): (r: Option<Hit>)
    ensures r.Some? ==> i + 13 <= r.value.end <= |s| && r.value.group == s[i + 13..(r.value.end)]
  {
    PdfCodeAt(s, i, 4)
  }

  function WebAt(s: String, i: nat): (r: Option<Hit>)
    ensures r.Some? ==> i + 1 <= r.value.end <= |s| && r.value.group == s[i + 1..(r.value.end)]
  {
    WebCodeAt(s, i, 4)
  }

  /** `[a-z]{2,3}\d{3,4}(?:/|$)` at `p`, ignoring case: both runs must fit and the path must end. */
  function CodeTailAt(s: String, p: nat): (r: Option<Hit>)
    ensures r.Some? ==> p <= r.value.end <= |s| && r.value.group == s[p..(r.value.end)]
    ensures r.Some? ==> IsCode(AnyCaseCode(4), r.value.group)
  {
    if p > |s| then None
    else
      var n := Run(s, p, IsAsciiLetter);
      var d := DigitRun(s, p + n);
      if 2 <= n <= 3 && 3 <= d <= 4 && EndsPathAt(s, p + n + d) then
        RunsAreCode(s, p, n, d, 4);
        Some(Hit(p + n + d, s[p..p + n + d]))
      else None
  }

  /**
   * `[^/]+-` followed by the code tail, within the path segment `s[a..j+1]`: the greedy segment
   * gives characters back from the right, so the last dash with a code tail after it wins.
   */
  function LastDashCode(s: String, a: nat, j: int): (r: Option<Hit>)
    requires j < |s|
    ensures r.Some? ==> exists k :: a < k <= j && s[k] == '-' && CodeTailAt(s, k + 1) == r
    ensures r.Some? ==> IsCode(AnyCaseCode(4), r.value.group)
    decreases j
  {
    if j <= a then None
    else if s[j] == '-' && CodeTailAt(s, j + 1).Some? then CodeTailAt(s, j + 1)
    else LastDashCode(s, a, j - 1)
  }

  /** `study-gothenburg/[^/]+-([a-z]{2,3}\d{3,4})(?:/|$)` at `i`, ignoring case. */
  function CoursePageAt(s: String, i: nat): (r: Option<Hit>)
    ensures r.Some? ==> exists k :: i + 17 < k < |s| && s[k] == '-' && CodeTailAt(s, k + 1) == r
    ensures r.Some? ==> IsCode(AnyCaseCode(4), r.value.group)
  {
    if i + 17 <= |s| && WordAtIgnoringCase(s, i, "study-gothenburg/") then
      var a := i + 17;
      var e := a + Run(s, a, (c: char) => c != '/');
      LastDashCode(s, a, e - 1)
    else None
  }

  /** `programme-([n][12][a-z]{3})(?:/|$)` at `i`, ignoring case. */
  function ProgrammeAt(s: String, i: nat): (r: Option<Hit>)
    ensures r.Some? ==> r.value.end == i + 15 <= |s| && r.value.group == s[i + 10..i + 15]
  {
    if i + 15 <= |s| && WordAtIgnoringCase(s, i, "programme-") && (s[i + 10] == 'n' || s[i + 10] == 'N') &&
       (s[i + 11] == '1' || s[i + 11] == '2') && IsAsciiLetter(s[i + 12]) && IsAsciiLetter(s[i + 13]) &&
       IsAsciiLetter(s[i + 14]) && EndsPathAt(s, i + 15)
    then Some(Hit(i + 15, s[i + 10..i + 15]))
    else None
  }

  predicate IsGuidChar(c: char) { IsDigit(c) || 'a' <= c <= 'f' || 'A' <= c <= 'F' || c == '-' }

  /** `/syllabus/[0-9a-f-]{36}` at `i`, ignoring case. */
  function GuidAt(s: String, i: nat): (r: Option<Hit>) {
    if i + 46 <= |s| && WordAtIgnoringCase(s, i, "/syllabus/") && forall k :: i + 10 <= k < i + 46 ==> IsGuidChar(s[k])
    then Some(Hit(i + 46, s[i..i + 46]))
    else None
  }

  /** `_is_guid_syllabus_url`. */
  predicate IsGuidSyllabusUrl(url: String) { Search(url, GuidAt).Some? }

  // ----- course codes -----

  lemma ProgrammeGroupIsCode(s: String, i: nat)
    requires ProgrammeAt(s, i).Some?
    ensures IsProgramCode(Upper(ProgrammeAt(s, i).value.group))
  {
  }

  lemma PdfSearchIsCode(url: String)
    requires Search(url, PdfAt).Some?
    ensures IsCode(CourseCodeShape, Upper(Search(url, PdfAt).value.group))
  {
    var j :| 0 <= j <= |url| && PdfAt(url, j) == Search(url, PdfAt);
    CodeAtIsCode(AnyCaseCode(4), url, j + 13);
    UpperIsCourseCode(PdfAt(url, j).value.group, 4);
  }

  lemma WebSearchIsCode(url: String)
    requires Search(url, WebAt).Some?
    ensures IsCode(CourseCodeShape, Upper(Search(url, WebAt).value.group))
  {
    var j :| 0 <= j <= |url| && WebAt(url, j) == Search(url, WebAt);
    UpperIsCourseCode(WebAt(url, j).value.group, 4);
  }

  lemma CoursePageSearchIsCode(url: String)
    requires Search(url, CoursePageAt).Some?
    ensures IsCode(CourseCodeShape, Upper(Search(url, CoursePageAt).value.group))
  {
    var j :| 0 <= j <= |url| && CoursePageAt(url, j) == Search(url, CoursePageAt);
    UpperIsCourseCode(CoursePageAt(url, j).value.group, 4);
  }

  lemma ProgrammeSearchIsCode(url: String)
    requires Search(url, ProgrammeAt).Some?
    ensures IsProgramCode(Upper(Search(url, ProgrammeAt).value.group))
  {
    var j :| 0 <= j <= |url| && ProgrammeAt(url, j) == Search(url, ProgrammeAt);
    ProgrammeGroupIsCode(url, j);
  }

  /**
   * `extract_course_code`: the PDF, web-syllabus, course-page and programme patterns are tried
   * in that order, and the first that matches anywhere gives its group, upper-cased.
   */
  function ExtractCourseCode(url: String): (r: Option<String>)
    ensures r.None? <==> Search(url, PdfAt).None? && Search(url, WebAt).None? &&
                         Search(url, CoursePageAt).None? && Search(url, ProgrammeAt).None?
    ensures r.Some? ==> IsCode(CourseCodeShape, r.value) || IsProgramCode(r.value)
    ensures Search(url, PdfAt).Some? ==> r == Some(Upper(Search(url, PdfAt).value.group))
  {
    if Search(url, PdfAt).Some? then
      PdfSearchIsCode(url);
      Some(Upper(Search(url, PdfAt).value.group))
    else if Search(url, WebAt).Some? then
      WebSearchIsCode(url);
      Some(Upper(Search(url, WebAt).value.group))
    else if Search(url, CoursePageAt).Some? then
      CoursePageSearchIsCode(url);
      Some(Upper(Search(url, CoursePageAt).value.group))
    else if Search(url, ProgrammeAt).Some? then
      ProgrammeSearchIsCode(url);
      Some(Upper(Search(url, ProgrammeAt).value.group))
    else None
  }

  /** A URL holding `/pdf/kurs/<xx>/<code>` after a slash-free host gives that code. */
  lemma PdfUrlCode(host: String, lang: String, code: String)
    requires '/' !in host && |lang| == 2 && IsAsciiLetter(lang[0]) && IsAsciiLetter(lang[1]) && IsCode(CourseCodeShape, code)
    ensures ExtractCourseCode(host + "/pdf/kurs/" + lang + "/" + code) == Some(code)
  {
    var url := host + "/pdf/kurs/" + lang + "/" + code;
    PdfUrlSearch(host, lang, code, url);
    UpperOfCode(code);
  }

  lemma PdfUrlSearch(host: String, lang: String, code: String, url: String)
    requires '/' !in host && |lang| == 2 && IsAsciiLetter(lang[0]) && IsAsciiLetter(lang[1]) && IsCode(CourseCodeShape, code)
    requires url == host + "/pdf/kurs/" + lang + "/" + code
    ensures Search(url, PdfAt) == Some(Hit(|url|, code))
  {
    var i := |host|;
    assert url[i + 13..] == code;
    assert WordAtIgnoringCase(url, i, "/pdf/kurs/") by {
      forall k | 0 <= k < 10 ensures LowerChar(url[i + k]) == "/pdf/kurs/"[k] {
        assert url[i + k] == "/pdf/kurs/"[k];
      }
    }
    assert url[i + 10] == lang[0] && url[i + 11] == lang[1] && url[i + 12] == '/';
    PdfCodeAtEnd(url, i, code, 4);
    forall k | 0 <= k < i ensures PdfAt(url, k).None? {
      assert url[k] == host[k];
      NoWordAtSlashless(url, k, "/pdf/kurs/");
    }
    SearchFromFirst(url, PdfAt, i);
  }

  /** A word starting with '/' is not found at a character other than '/'. */
  lemma NoWordAtSlashless(s: String, k: nat, w: String)
    requires k < |s| && s[k] != '/' && w != [] && w[0] == '/'
    ensures !WordAtIgnoringCase(s, k, w)
  {
    assert LowerChar(s[k]) != '/';
  }

  /** A course code is already upper case. */
  lemma UpperOfCode(code: String)
    requires IsCode(CourseCodeShape, code)
    ensures Upper(code) == code
  {
    var n := Run(code, 0, (x: char) => IsCodeLetter(CourseCodeShape, x));
    forall k | 0 <= k < |code| ensures UpperChar(code[k]) == code[k] {
      if k < n {
        assert IsAsciiUpper(code[k]);
      } else {
        assert IsDigit(code[k]);
      }
    }
  }

  /** The leftmost match is found when no earlier position has one. */
  lemma SearchFromFirst(s: String, m: Matcher, i: nat)
    requires i <= |s| && m(s, i).Some? && forall k :: 0 <= k < i ==> m(s, k).None?
    ensures Search(s, m) == m(s, i)
  {
    SearchFromSkip(s, 0, i, m);
  }

  // ----- URL types -----

  datatype UrlType = Syllabus | CoursePage | ProgramPage

  /** `_determine_url_type`. */
  function DetermineUrlType(url: String): (t: UrlType)
    ensures Contains(url, "/pdf/kurs/") ==> t == Syllabus
    ensures !Contains(url, "/pdf/kurs/") && Contains(url, "/study-gothenburg/") ==>
              (t == Syllabus <==> Contains(url, "/syllabus/"))
    ensures t == ProgramPage ==> Contains(url, "/programme-") && !Contains(url, "/study-gothenburg/")
    ensures !Contains(url, "/pdf/kurs/") && !Contains(url, "/study-gothenburg/") ==>
              (t == ProgramPage <==> Contains(url, "/programme-")) && t != CoursePage
  {
    if Contains(url, "/pdf/kurs/") then Syllabus
    else if Contains(url, "/study-gothenburg/") && Contains(url, "/syllabus/") then Syllabus
    else if Contains(url, "/study-gothenburg/") && !Contains(url, "/syllabus/") then CoursePage
    else if Contains(url, "/programme-") then ProgramPage
    else Syllabus
  }

  // ----- link filtering -----

  /** The truthy `href` attributes of the result links, in page order. */
  function PresentHrefs(links: seq<Option<String>>): (urls: seq<String>)
    ensures forall u :: u in urls <==> Some(u) in links && u != []
  {
    if links == [] then []
    else PresentHrefs(links[..|links| - 1]) +
         (if links[|links| - 1].Some? && links[|links| - 1].value != [] then [links[|links| - 1].value] else [])
  }

  /** `extract_course_urls` over the hrefs of a page's result links. */
  method ExtractCourseUrls(links: seq<Option<String>>) returns (filtered: seq<String>)
    ensures filtered == Filter(PresentHrefs(links), IsKeptUrl)
  {
    var urls := PresentHrefs(links);
    filtered := [];
    var i := 0;
    while i < |urls|
      invariant 0 <= i <= |urls|
      invariant filtered == Filter(urls[..i], IsKeptUrl)
    {
      FilterAppend(urls[..i], [urls[i]], IsKeptUrl);
      assert urls[..i + 1] == urls[..i] + [urls[i]];
      if IsReadingListUrl(urls[i]) {
        i := i + 1;
        continue;
      }
      filtered := filtered + [urls[i]];
      i := i + 1;
    }
    assert urls[..i] == urls;
  }

  /** The filter drops exactly the reading-list URLs: GUID syllabus URLs are kept. */
  lemma ExtractCourseUrlsKeeps(links: seq<Option<String>>, u: String)
    ensures u in Filter(PresentHrefs(links), IsKeptUrl) <==> Some(u) in links && u != [] && !IsReadingListUrl(u)
  {
  }

  // ----- marking URLs processed -----

  /** The extraction store's URL statuses, by row id. */
  class UrlStore {
    var status: map<int, String>

    constructor(status: map<int, String>)
      ensures this.status == status
    {
      this.status := status;
    }

    /**
     * `mark_urls_processed`: no ids means no update and a count of 0; otherwise every listed
     * row is completed and the count is the number of rows the update matched.
     */
    method MarkUrlsProcessed(ids: seq<int>) returns (count: nat)
      modifies this
      ensures ids == [] ==> count == 0 && status == old(status)
      ensures ids != [] ==> status == (map id | id in old(status) :: if id in ids then "completed" else old(status)[id])
      ensures ids != [] ==> count == |set id | id in ids && id in old(status)|
    {
      if ids == [] {
        return 0;
      }
      count := |set id | id in ids && id in status|;
      status := map id | id in status :: if id in ids then "completed" else status[id];
    }
  }
}
