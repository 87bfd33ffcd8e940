/**
 * `scraper/keyword_filter.py`: keeps the PDFs and web pages that mention one of the programme
 * keywords as a whole word, drops direct PDF links from the URL list, and reads the URL file.
 * Extracted PDF text and fetched page text are parameters.
 */
module KeywordFilter {
  import opened Wrappers
  import opened Text
  import opened Seqs
  import opened Filtering

  /**
   * `check_keywords_in_text`: the keywords that occur in the upper-cased text as whole words
   * (`\b` on both sides), in their original spelling; nothing for an empty text.
   */
  function CheckKeywordsInText(text: String, keywords: seq<String>): (r: (bool, set<String>))
    ensures forall k :: k in r.1 ==> k in keywords
    ensures r.0 <==> r.1 != {}
    ensures text == [] ==> r == (false, {})
  {
    if text == [] then (false, {})
    else
      var found := set k | k in keywords && HasWord(Upper(text), Upper(k));
      (found != {}, found)
  }

  /** A keyword is not found inside a longer word: "N2COSX" does not contain the keyword "N2COS". */
  lemma KeywordInsideWordNotFound(text: String, keywords: seq<String>, k: String)
    requires k != [] && |k| < |text|
    requires forall i :: 0 <= i < |text| ==> IsWordChar(text[i])
    ensures k !in CheckKeywordsInText(text, keywords).1
  {
    UpperWordChars(text);
    NotInsideWord(Upper(text), Upper(k));
  }

  /** A keyword standing between spaces is found, whatever its case in the text. */
  lemma SpacedKeywordFound(a: String, k: String, b: String, keywords: seq<String>)
    requires k in keywords && k != [] && IsWordChar(k[0]) && IsWordChar(k[|k| - 1])
    ensures k in CheckKeywordsInText(a + " " + Lower(k) + " " + b, keywords).1
  {
    UpperConcat(a + " " + Lower(k) + " ", b);
    UpperConcat(a + " " + Lower(k), " ");
    UpperConcat(a + " ", Lower(k));
    UpperConcat(a, " ");
    LowerThenUpper(k);
    UpperWordChar(k[0]);
    UpperWordChar(k[|k| - 1]);
    var text := a + " " + Lower(k) + " " + b;
    assert Upper(" ") == " ";
    assert Upper(text) == Upper(a) + " " + Upper(k) + " " + Upper(b);
    WordBetweenSpaces(Upper(a), Upper(k), Upper(b));
    assert text != [];
  }

  /** The case of the text does not matter. */
  lemma CheckKeywordsIgnoresCase(text: String, keywords: seq<String>)
    ensures CheckKeywordsInText(Lower(text), keywords) == CheckKeywordsInText(text, keywords)
  {
    LowerThenUpper(text);
  }

  /** The keep test of `filter_pdfs_by_keywords`: the text of the PDF mentions a keyword. */
  function MentionsKeyword(keywords: seq<String>, pdfText: String -> String): String -> bool {
    f => CheckKeywordsInText(pdfText(f), keywords).0
  }

  /**
   * `filter_pdfs_by_keywords`: the PDFs whose text mentions a keyword are kept, the others
   * removed, and removed ones deleted unless `dryRun`. `pdfText` is `extract_text_from_pdf`.
   */
  method FilterPdfsByKeywords(pdfFiles: seq<String>, keywords: seq<String>, dryRun: bool, pdfText: String -> String)
    returns (kept: seq<String>, removed: seq<String>, deleted: seq<String>)
    ensures kept == Filter(pdfFiles, MentionsKeyword(keywords, pdfText))
    ensures removed == Filter(pdfFiles, Not(MentionsKeyword(keywords, pdfText)))
    ensures deleted == if dryRun then [] else removed
  {
    kept, removed, deleted := PartitionFiles(pdfFiles, MentionsKeyword(keywords, pdfText), dryRun);
  }

  /** `'/pdf/' in url.lower()`. */
  predicate IsPdfLink(url: String) { Contains(Lower(url), "/pdf/") }

  /** `filter_out_pdf_urls`: the URLs without "/pdf/" in any case, in order. */
  function FilterOutPdfUrls(urls: seq<String>): (r: seq<String>)
    ensures forall u :: u in r <==> u in urls && !IsPdfLink(u)
    ensures SubsequenceOf(r, urls)
  {
    FilterSubsequence(urls, Not(IsPdfLink));
    Filter(urls, Not(IsPdfLink))
  }

  /**
   * `scrape_url_for_keywords`: `page(url)` is the text of the fetched page, or `None` when the
   * request or the parsing raised; both that and an empty page count as no keyword.
   */
  function ScrapeUrlForKeywords(url: String, keywords: seq<String>, page: String -> Option<String>): (r: (bool, set<String>))
    ensures forall k :: k in r.1 ==> k in keywords
    ensures r.0 <==> r.1 != {}
    ensures page(url).None? ==> r == (false, {})
  {
    match page(url)
    case None => (false, {})
    case Some(text) => if text == [] then (false, {}) else CheckKeywordsInText(text, keywords)
  }

  function PageMentionsKeyword(keywords: seq<String>, page: String -> Option<String>): String -> bool {
    u => ScrapeUrlForKeywords(u, keywords, page).0
  }

  /** `filter_urls_by_keywords_scrape`: the URLs whose page mentions a keyword, in input order. */
  method FilterUrlsByKeywordsScrape(urls: seq<String>, keywords: seq<String>, page: String -> Option<String>)
    returns (matched: seq<String>)
    ensures matched == Filter(urls, PageMentionsKeyword(keywords, page))
    ensures SubsequenceOf(matched, urls)
  {
    matched := KeepMatching(urls, PageMentionsKeyword(keywords, page));
  }

  /**
   * `read_urls`: the stripped non-blank lines whose raw text starts with "http"; nothing when
   * the file cannot be read.
   */
  function ReadUrls(file: Option<seq<String>>): (urls: seq<String>)
    ensures file.None? ==> urls == []
    ensures forall i :: 0 <= i < |urls| ==> StartsWith(urls[i], "http") && Strip(urls[i]) == urls[i]
    ensures file.Some? ==> forall l :: l in file.value && StartsWith(l, "http") ==> Strip(l) in urls
  {
    match file
    case None => []
    case Some(lines) => StrippedLinesStartingWith(lines, "http")
  }
}
