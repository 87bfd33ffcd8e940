/**
 * `utils/url_keyword_filter.py`: reads a URL file, drops the URLs containing "/pdf/" and keeps
 * those whose page mentions a keyword as a substring, ignoring case. Fetched page text is a
 * parameter.
 */
module UrlKeywordFilter {
  import opened Wrappers
  import opened Text
  import opened Seqs
  import opened Filtering

  /**
   * `read_urls`: the stripped non-blank lines. There is no `try` around the `open`, so an
   * unreadable file (`None`) is an error the caller sees.
   */
  function ReadUrls(file: Option<seq<String>>): (r: Option<seq<String>>)
    ensures r.None? <==> file.None?
    ensures r.Some? ==> forall i :: 0 <= i < |r.value| ==> r.value[i] != [] && Strip(r.value[i]) == r.value[i]
    ensures r.Some? ==> forall l :: l in file.value && !IsBlank(l) ==> Strip(l) in r.value
    ensures r.Some? ==> |r.value| <= |file.value|
  {
    match file
    case None => None
    case Some(lines) => Some(StrippedLines(lines))
  }

  /** `'/pdf/' in url`, case-sensitive. */
  predicate HasPdfSegment(url: String) { Contains(url, "/pdf/") }

  /** `filter_pdf_urls`: the URLs without "/pdf/" (in that exact case), in order. */
  function FilterPdfUrls(urls: seq<String>): (r: seq<String>)
    ensures forall u :: u in r <==> u in urls && !HasPdfSegment(u)
    ensures SubsequenceOf(r, urls)
  {
    FilterSubsequence(urls, Not(HasPdfSegment));
    Filter(urls, Not(HasPdfSegment))
  }

  /**
   * `check_keywords_in_url`: `page(url)` is the text of the fetched page, or `None` when the
   * request or the parsing raised, which counts as no keyword. A keyword is found when its
   * upper-cased form is a substring of the upper-cased page.
   */
  function CheckKeywordsInUrl(url: String, keywords: seq<String>, page: String -> Option<String>): (r: (bool, set<String>))
    ensures forall k :: k in r.1 ==> k in keywords
    ensures r.0 <==> r.1 != {}
    ensures page(url).None? ==> r == (false, {})
    ensures page(url).Some? ==> forall k :: k in keywords && Contains(page(url).value, k) ==> k in r.1
  {
    match page(url)
    case None => (false, {})
    case Some(text) =>
      var found := FoundSubstrings(text, keywords);
      assert forall k :: k in keywords && Contains(text, k) ==> k in found by {
        forall k | k in keywords && Contains(text, k) ensures k in found {
          VerbatimKeywordFound(text, keywords, k);
        }
      }
      (found != {}, found)
  }

  /** The keep test of `filter_urls_by_keywords`: the page of the URL mentions a keyword. */
  function PageHasKeyword(keywords: seq<String>, page: String -> Option<String>): String -> bool {
    u => CheckKeywordsInUrl(u, keywords, page).0
  }

  /**
   * `filter_urls_by_keywords`: with `noScrape` the URLs come back unchanged; otherwise the
   * URLs whose page mentions a keyword, in input order.
   */
  method FilterUrlsByKeywords(urls: seq<String>, keywords: seq<String>, noScrape: bool, page: String -> Option<String>)
    returns (matched: seq<String>)
    ensures noScrape ==> matched == urls
    ensures !noScrape ==> matched == Filter(urls, PageHasKeyword(keywords, page))
  {
    if noScrape {
      return urls;
    }
    matched := KeepMatching(urls, PageHasKeyword(keywords, page));
  }

  /** A URL whose page names a keyword verbatim survives the scraping filter. */
  lemma VerbatimMentionKept(urls: seq<String>, keywords: seq<String>, page: String -> Option<String>, u: String, k: String)
    requires u in urls && page(u).Some? && k in keywords && Contains(page(u).value, k)
    ensures u in Filter(urls, PageHasKeyword(keywords, page))
  {
    assert k in CheckKeywordsInUrl(u, keywords, page).1;
  }
}
