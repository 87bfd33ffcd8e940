# CSExpert in Dafny

CSExpert collects course and programme information from the University of Gothenburg's
syllabus and course pages. It scrapes URLs, PDFs and pages, normalises what the language
model extracts, maps courses to programmes, and answers questions through retrieval over
a vector store. This project models the rules in the middle of that pipeline and proves
properties of them. Scraping, storage, the model calls and the vector store themselves are
outside the model: their results enter the modelled operations as parameters.

Modules follow the repository's files:

- **Rate limiting.** `RateLimiting` (backend/rate_limiter.py) is a class that holds the
  sliding-window queues of request times, one per client.
- **Normalisation and validation.**
  - `Models` covers database/models.py.
  - `GeminiProcessing` covers scraper/database_gemini_processor.py.
  - `DynamicParser` and `DocumentChunks` cover utils/dynamic_parser.py.
- **URLs and course codes.**
  - `UrlPatterns` and `UrlExtractor` cover scraper/database_url_extractor.py.
  - `GuUrlExtractor` covers scraper/gu_url_extractor.py.
  - `HtmlScraper` covers scraper/database_html_scraper.py.
  - `SyllabusPdfDownloader` covers utils/syllabus_pdf_downloader.py.
  - The three keyword filters are `KeywordFilter`, `UrlKeywordFilter` and
    `SyllabusKeywordFilter`.
- **Duplicates and replacements.**
  - `DuplicateManager` covers scraper/database_duplicate_manager.py, with its date and
    replacement helpers in `Dates` and `Replacements`.
  - `CleanDuplicates` covers clean_duplicate_courses.py.
- **Mappings.**
  - `GenerateMappings` covers scraper/generate_mappings.py, with the map algebra it shares
    in `Mappings`.
  - `UrlProgramCourseMapping`, `CourseProgramMapping` and `ProgramCourseMapping` cover the
    three mapping scripts under utils/.
  - `MergeCourseData` covers merge_course_data.py.
- **Retrieval bookkeeping.**
  - `RagSystem` holds query routing and query variations from backend/rag_system.py, and
    `RagRetrieval` holds its retrieval merge, query response and JSON loading.
  - `DocumentLoader` covers backend/database_document_loader.py.
  - `LegacyRag` covers gemini_rag_legacy.py.
- **Pipeline.** `Orchestrator` covers the phase machine, the content-processing order and
  the batches of scraper/database_scraper_orchestrator.py.
- **Shared helpers.** These model the Python built-ins the code relies on:
  - `Text` for case mapping, `strip`, `split` and `join`;
  - `Scan` and `Codes` for `re.search` and `re.findall` over hand-written matchers;
  - `Seqs` for filters, maps and the `seen`-set de-duplication loop;
  - `Dicts` for insertion-ordered dictionaries;
  - `Json`, `Paths`, `Sorting`, `Filtering`, `Batching` and `Wrappers`.

Representation choices:

- Regular expressions are per-position matchers for their concrete pattern. `re.search` is
  the leftmost match, and `re.findall` is a non-overlapping scan.
- Dates are (year, month, day) triples, with a least element for `datetime.min`.
- Decimal credits and scores are integers in tenths, or an exact mantissa and scale.
- Clocks are integer parameters.
- Python dictionaries that keep insertion order are sequences of distinct-key entries.
- Fetched pages, PDF text, database rows, language-model answers and vector-store results
  are parameters of the operations that use them.

## Model

| member | source | states |
|---|---|---|
| RateLimiting.Prune | backend/rate_limiter.py:62-65 | pruning never lengthens a queue and leaves no front timestamp at or before the cutoff |
| RateLimiting.PruneIsSuffix | backend/rate_limiter.py:62-65 | pruning removes only from the front, and only timestamps at or before the cutoff |
| RateLimiting.PruneRemovesAllExpired | backend/rate_limiter.py:62-65 | on an ascending queue, front-only pruning leaves no expired timestamp anywhere |
| RateLimiting.AdmissionRule | backend/rate_limiter.py:68-74 | a request is admitted iff the pruned queue holds fewer than max_requests timestamps; then exactly `now` joins at the back, otherwise the queue is only pruned |
| RateLimiting.RemainingNeverNegative | backend/rate_limiter.py:68-74 | remaining_requests is never negative, and on admission it is max_requests minus the pruned length minus one |
| RateLimiting.RetryAfterRule | backend/rate_limiter.py:81-85 | retry_after is None on admission; on denial of a non-empty queue it is oldest + window - now, at least 1 |
| RateLimiting.PruneKeepsOrder | backend/rate_limiter.py:62-65 | pruning keeps a queue ascending and not later than the clock |
| RateLimiting.AdmissionKeepsOrder | backend/rate_limiter.py:58-74 | with a clock that never goes back, a queue stays ascending and bounded by the clock after each request |
| RateLimiting.AdmissionBounded | backend/rate_limiter.py:68-74 | a queue never grows beyond max_requests |
| RateLimiting.PruneQueue | backend/rate_limiter.py:100-103 | the pruning loop computes exactly the pruned queue |
| RateLimiting.PruneAll | backend/rate_limiter.py:121-132 | after a sweep no client is mapped to an empty queue |
| RateLimiting.SweepOfKeeps | backend/rate_limiter.py:122-132 | a sweep keeps exactly the visited clients whose pruned queue is non-empty, each with its pruned queue |
| RateLimiting.SweepOfCounts | backend/rate_limiter.py:168-177 | over distinct clients, every visited client is either kept or removed, never both |
| RateLimiting.SweepOfAll | backend/rate_limiter.py:157-180 | a sweep over every client is the map of non-empty pruned queues, and the removed count is the number of clients that disappeared |
| RateLimiting.PruneAllBounded | backend/rate_limiter.py:121-132 | a bound on every queue survives a sweep |
| RateLimiting.ClientOrder | backend/rate_limiter.py:122 | the sweep visits every client exactly once |
| RateLimiting.Sweep | backend/rate_limiter.py:121-132 | the sweep loop returns the pruned map without empty queues, the number of clients removed and the number of timestamps kept |
| RateLimiting.RateLimiter.constructor | backend/rate_limiter.py:30-43 | max_requests is requests_per_minute, the window is kept and no client is tracked |
| RateLimiting.RateLimiter.IsAllowed | backend/rate_limiter.py:48-92 | only the requesting client's queue changes, to its pruned queue plus `now` when admitted; the report is that of the pruned queue; no queue exceeds max_requests |
| RateLimiting.RateLimiter.GetClientStats | backend/rate_limiter.py:94-112 | the client's queue is pruned (and created when absent) and the statistics describe the pruned queue |
| RateLimiting.RateLimiter.GetGlobalStats | backend/rate_limiter.py:114-140 | every queue is pruned, empty ones are removed, and the totals count the remaining clients and timestamps |
| RateLimiting.RateLimiter.ResetClient | backend/rate_limiter.py:142-155 | returns true iff the client had an entry; afterwards it has none and nothing else changes |
| RateLimiting.RateLimiter.CleanupExpired | backend/rate_limiter.py:157-180 | every queue is pruned, clients left empty are removed, and the result is the number removed |
| Models.ValidateCode | database/models.py:45-50 | a program or course code is rejected iff it is missing, empty or longer than 10 characters; an accepted code keeps its length and has no lower-case letter |
| Models.ValidateCodeIdempotent | database/models.py:158-163 | validating an already validated code changes nothing |
| Models.ValidateCredits | database/models.py:165-175 | credits are accepted iff strictly positive, and are then stored unchanged |
| Models.ValidateScore | database/models.py:177-183 | a completeness or quality score is accepted iff it lies in [0, 1], and is then stored unchanged |
| Models.CompletenessScoreMonotone | database/models.py:230-242 | the completeness score is monotone in the number of sections and always passes the score validator |
| Models.CompletenessScoreBounds | database/models.py:230-242 | the score is 0 exactly without sections and 1 exactly from eight sections on |
| Models.SeasonShape | database/models.py:256-263 | a recognised season is one of Autumn, Spring and Summer |
| Models.YearShape | database/models.py:251-253 | the year found is the first `20dd` in the text |
| Models.TermShape | database/models.py:265-266 | a term is the season, a space and the four-digit year |
| Models.TermOf | database/models.py:244-266 | a parsed term always has the `<Season> <20dd>` shape |
| Models.SearchYearIff | database/models.py:251-253 | the year search succeeds iff the text holds a `20dd` somewhere |
| Models.TermNeedsSeasonAndYear | database/models.py:244-266 | a term is produced iff the date text is non-empty and holds both a year and a season keyword |
| Models.TermPrecedence | database/models.py:256-263 | the autumn keywords win over spring, spring wins over summer when no autumn keyword occurs, and summer is chosen only when no spring keyword occurs; the year is the first one |
| Models.TermParts | database/models.py:249-266 | the season and year parts of a built term are the first year and the season by keyword precedence |
| Models.Course.constructor | database/models.py:96-157 | a new course has its valid-from text and sections, no term and score 0 |
| Models.Course.ParseTermFromValidDate | database/models.py:244-266 | the term is replaced only when both season and year are found, and nothing else changes |
| Models.Course.UpdateCompletenessScore | database/models.py:268-270 | the stored score becomes exactly the completeness score of the section count, which lies in [0, 1] |
| Models.StoredContent | database/models.py:303-318 | None stays None; blank content becomes ""; other content is stored without leading or trailing whitespace |
| Models.WordCount | database/models.py:303-318 | the word count is 0 exactly for missing or blank content |
| Models.WordCountMatchesStored | database/models.py:303-318 | the word count is 0 exactly when the stored content is None or empty |
| Models.CourseSection.constructor | database/models.py:281-300 | a new section has no content and word count 0 |
| Models.CourseSection.SetSectionContent | database/models.py:303-318 | assigning content stores the validated content and its word count |
| Models.CourseSection.ContentPreview | database/models.py:320-327 | the preview is "" for no content, the content itself up to 100 characters, and otherwise its first 97 characters followed by "..." (100 in all) |
| Models.DetailsDict | database/models.py:399-415 | the details dictionary never holds a None value |
| Models.DetailsDictGet | database/models.py:399-415 | each key holds the additional-info value when present there, otherwise the base field, and is absent when that value is None; keys stay distinct |
| GeminiProcessing.BeforeFirst | scraper/database_gemini_processor.py:214-217 | the part before the first '_' is a prefix of the name and holds no '_' |
| GeminiProcessing.CourseCodeFromPath | scraper/database_gemini_processor.py:206-224 | a code found is a whole 2-3 letter, 3-4 digit code without '_' and starts the upper-cased file stem |
| GeminiProcessing.CourseCodeFromPdfName | scraper/database_gemini_processor.py:206-224 | the code of `<code>.pdf` is that code |
| GeminiProcessing.CodeCharacters | scraper/database_gemini_processor.py:221 | a course code consists of upper-case letters and digits only |
| GeminiProcessing.ParenCodeAt | scraper/database_gemini_processor.py:325-331 | a parenthesised match is a 5-6 character upper-case-or-digit code |
| GeminiProcessing.StandaloneCodeAt | scraper/database_gemini_processor.py:333-336 | a standalone match has the letter-digit-three-letters shape |
| GeminiProcessing.CodesFromString | scraper/database_gemini_processor.py:325-338 | the codes of a string are all parenthesised or all standalone |
| GeminiProcessing.ParenCodesTakePrecedence | scraper/database_gemini_processor.py:325-338 | when a parenthesised code occurs, only parenthesised codes are returned |
| GeminiProcessing.StandaloneOnlyWithoutParens | scraper/database_gemini_processor.py:333-338 | the standalone pattern is used exactly when no parenthesised code occurs |
| GeminiProcessing.CodesOfItems | scraper/database_gemini_processor.py:307-312 | the codes of a list are codes of one of the two shapes |
| GeminiProcessing.ExtractProgramCodes | scraper/database_gemini_processor.py:298-322 | a falsy field gives []; the result holds no duplicate and exactly the codes found in the field |
| GeminiProcessing.ItemCodesExtracted | scraper/database_gemini_processor.py:298-322 | a code of any single item is among the extracted codes |
| GeminiProcessing.NormalizeLanguage | scraper/database_gemini_processor.py:341-365 | None for a missing or blank value; otherwise, case-insensitively, "EN,SV" for english and swedish, "EN" for english only, "SV" for swedish only, else the stripped input |
| GeminiProcessing.NormalizeLanguageIdempotent | scraper/database_gemini_processor.py:341-365 | normalising a normalised language changes nothing |
| GeminiProcessing.NormalizeLanguageIgnoresCase | scraper/database_gemini_processor.py:341-365 | inputs equal up to case and surrounding whitespace normalise alike, or both pass through stripped |
| GeminiProcessing.NormalizeCycle | scraper/database_gemini_processor.py:886-899 | the cycle is always First, Second or Third cycle; First iff "first" occurs, Third iff "third" but neither "first" nor "second" occurs, Second otherwise (absent or unrecognised included) |
| GeminiProcessing.RemoveUnitsCopies | scraper/database_gemini_processor.py:377-380 | unit-word removal copies unchanged every stretch in which no match of the unit pattern (whitespace, a unit word in any case, whitespace) starts |
| GeminiProcessing.NumberAt | scraper/database_gemini_processor.py:383-385 | a number match is a run of digits with an optional decimal part, taken from the text |
| GeminiProcessing.ValidateCredits | scraper/database_gemini_processor.py:368-399 | the credits are either None or strictly positive |
| GeminiProcessing.ValidateCreditsNoDigit | scraper/database_gemini_processor.py:371-391 | when the text, once stripped, rid of unit words and with ',' read as '.', holds no digit, there are no credits (this covers the empty text) |
| GeminiProcessing.ValidateCreditsFirstDigit | scraper/database_gemini_processor.py:371-399 | otherwise the credits are the decimal number that starts at the first digit of that cleaned text (`re.search` takes the leftmost match), kept exactly when it is positive |
| GeminiProcessing.CreditsOfWholeNumber | scraper/database_gemini_processor.py:368-399 | a positive whole number is read as itself |
| GeminiProcessing.CreditsWithCommaAndUnit | scraper/database_gemini_processor.py:368-399 | `a,b hp` is read as the decimal a.b |
| GeminiProcessing.StoredCredits | scraper/database_gemini_processor.py:877-882 | stored credits are always positive and valid; unreadable credits become 7.5 |
| GeminiProcessing.BoundedCodeAt | scraper/database_gemini_processor.py:949 | a word-bounded code match is taken from the text |
| GeminiProcessing.SearchedCodeOccurs | scraper/database_gemini_processor.py:949-951 | the code searched for is a course code that occurs in the text |
| GeminiProcessing.ReplacingCode | scraper/database_gemini_processor.py:940-952 | a replacing code is a course code occurring in the stripped 'Replacing course code' section |
| GeminiProcessing.ValidateCourseData | scraper/database_gemini_processor.py:755-782 | the data is valid iff metadata is an object with a truthy course_code, sections is a non-empty object, and course_details, when present, is an object |
| GeminiProcessing.ValidateCourseDataReadsThreeKeys | scraper/database_gemini_processor.py:755-782 | validity depends only on the metadata, sections and course_details entries |
| GeminiProcessing.MapPrograms | scraper/database_gemini_processor.py:1018-1022 | the mapped programs are the whitelisted ones, in order |
| GeminiProcessing.OnlyWhitelistedProgramsMapped | scraper/database_gemini_processor.py:1011-1045 | every mapping a store adds is to a whitelisted program |
| GeminiProcessing.WhitelistedCodesMapped | scraper/database_gemini_processor.py:1011-1045 | every whitelisted code found in the programmes of a PDF or syllabus gets a mapping |
| DynamicParser.WordsAt | utils/dynamic_parser.py:15-29 | a header pattern's words, separated by whitespace, match from the given position on |
| DynamicParser.FirstHeader | utils/dynamic_parser.py:186-191 | a line is a boundary iff one of the anchored, case-insensitive header patterns matches it, and the first matching pattern in list order names it |
| DynamicParser.Boundaries | utils/dynamic_parser.py:186-194 | every boundary is a line whose header names it |
| DynamicParser.BoundariesAscending | utils/dynamic_parser.py:193-194 | boundaries come in strictly ascending line order, so sorting them changes nothing |
| DynamicParser.BoundaryIff | utils/dynamic_parser.py:186-191 | a line is a boundary exactly when some header pattern matches it |
| DynamicParser.CollectBoundaries | utils/dynamic_parser.py:186-191 | the boundary loop collects exactly the boundaries |
| DynamicParser.InitialSections | utils/dynamic_parser.py:170-183 | the section dictionary starts with exactly the 11 fixed keys |
| DynamicParser.InitialIsBlank | utils/dynamic_parser.py:170-183 | every fixed section starts as "" |
| DynamicParser.SectionEnd | utils/dynamic_parser.py:202-206 | a section ends after its header line, at the next boundary or at the end of the text |
| DynamicParser.ExtractStructuredSections | utils/dynamic_parser.py:165-214 | the method computes the sections of the text |
| DynamicParser.FillSections | utils/dynamic_parser.py:196-212 | the filling loop stores each target section's text, later headers overwriting earlier ones |
| DynamicParser.LastWith | utils/dynamic_parser.py:197-212 | the boundary a section's stored text comes from is the last one with its name |
| DynamicParser.FillKeys | utils/dynamic_parser.py:196-212 | filling never adds or removes a key |
| DynamicParser.FillGet | utils/dynamic_parser.py:196-212 | each target section holds the text of its last header, or "" when it has none |
| DynamicParser.LastTextStep | utils/dynamic_parser.py:197-212 | a repeated header overwrites the earlier text |
| DynamicParser.SectionsSpec | utils/dynamic_parser.py:165-214 | the result has exactly the 11 fixed keys; each holds the stripped lines from its last header up to the next boundary, or ""; "Field of education" and "Department" are never stored |
| DynamicParser.SectionStartsAtHeader | utils/dynamic_parser.py:209 | a section's text starts with its header line, before stripping |
| DocumentChunks.ExtractMetadata | utils/dynamic_parser.py:103-163 | the metadata names the file; code, title and credits come from the full footer match, else the English-only match, else stay "Unknown"; the other fields likewise fall back to their defaults; the programme list is stripped, then its blank lines are collapsed |
| DocumentChunks.ProgrammesClean | utils/dynamic_parser.py:156-160 | the stored programme list keeps the visible characters of the stripped match, in order, and has no empty or blank line |
| DocumentChunks.BlankLineAt | utils/dynamic_parser.py:159 | a match of `\n\s*\n` starts at a newline and ends just after a newline, with only whitespace inside; it reaches the last newline of the whitespace run, so no newline is left in the whitespace that follows it |
| DocumentChunks.CollapseKeepsText | utils/dynamic_parser.py:159 | replacing each blank-line match by one newline keeps every visible character, in order |
| DocumentChunks.CollapseNoBlank | utils/dynamic_parser.py:159 | after the replacement, any two newlines have a visible character between them |
| DocumentChunks.CollapseUnchanged | utils/dynamic_parser.py:159 | text where the pattern matches nowhere is left as it is |
| DocumentChunks.CollapseIdempotent | utils/dynamic_parser.py:159 | collapsing blank lines twice gives the same text as once |
| DocumentChunks.MetadataDefaults | utils/dynamic_parser.py:105-113 | with no pattern matching, every field keeps its "Unknown"/None default |
| DocumentChunks.SectionId | utils/dynamic_parser.py:241 | the section id is the lower-cased name with spaces replaced by '_' |
| DocumentChunks.SectionChunksSound | utils/dynamic_parser.py:233-249 | every chunk belongs to a non-empty section and carries the document metadata, the section's name, id, text and its index in the fixed key order |
| DocumentChunks.SectionChunksOrdered | utils/dynamic_parser.py:233-249 | chunks come in ascending section position |
| DocumentChunks.SectionChunksComplete | utils/dynamic_parser.py:234-237 | every non-empty section gets a chunk |
| DocumentChunks.ChunkSections | utils/dynamic_parser.py:232-251 | the chunking loop builds exactly the section chunks |
| DocumentChunks.ExtractSections | utils/dynamic_parser.py:216-255 | a document's chunks are those of its metadata and structured sections |
| DocumentChunks.Pieces | utils/dynamic_parser.py:272-283 | split piece i keeps the section's metadata and gets sub_position i, is_split and total_splits n |
| DocumentChunks.AppendPieces | utils/dynamic_parser.py:272-283 | the piece loop appends exactly the pieces |
| DocumentChunks.SplitDenseSections | utils/dynamic_parser.py:257-287 | the splitting loop computes the split chunk list |
| DocumentChunks.SplitDenseAppend | utils/dynamic_parser.py:265-287 | sections are split one by one, independently of each other |
| DocumentChunks.ShortChunksUnchanged | utils/dynamic_parser.py:266-285 | sections of at most max_tokens words pass through unchanged |
| DocumentChunks.LongChunkSplit | utils/dynamic_parser.py:267-283 | a longer section becomes the splitter's pieces, numbered 0..n-1, each marked split with total n and the section's own metadata |
| UrlPatterns.FormatUrl | scraper/database_url_extractor.py:397-401 | an http(s) URL is returned unchanged, anything else gets BASE_URL in front; the result is always absolute |
| UrlPatterns.FormatUrlIdempotent | scraper/database_url_extractor.py:397-401 | formatting a formatted URL changes nothing |
| UrlPatterns.RStripDigits | scraper/database_url_extractor.py:619 | `rstrip('0123456789')` removes exactly the trailing digits |
| UrlPatterns.StrippedPrefixes | scraper/database_url_extractor.py:619 | each prefix is mapped to its digit-stripped form, in order |
| UrlPatterns.BuildSearchUrlsSpec | scraper/database_url_extractor.py:613-626 | one syllabus search URL per prefix, in order; the course-page search URLs are distinct and are exactly those of the digit-stripped prefixes |
| UrlPatterns.PdfCodeAt | scraper/database_url_extractor.py:44 | a `/pdf/kurs/xx/` match's group is the code right after the language part |
| UrlPatterns.PrefixAt | scraper/database_url_extractor.py:45 | a prefix match is one of the listed prefixes, ignoring case |
| UrlPatterns.WebCodeAt | scraper/database_url_extractor.py:45 | a web-syllabus match's group is a course code |
| UrlPatterns.PrefixedCodeAt | scraper/database_url_extractor.py:45 | a prefixed match's group is a course code when the prefixes are short words |
| UrlPatterns.UpperIsCourseCode | scraper/database_url_extractor.py:409 | upper-casing a code of either case gives an upper-case course code |
| UrlPatterns.PdfCodeAtEnd | scraper/database_url_extractor.py:44 | a PDF URL ending in a course code matches with that code |
| UrlPatterns.SlashCodeAt | scraper/gu_url_extractor.py:48-49 | a slash-delimited match is a 3-8 character alphanumeric group |
| UrlPatterns.SlashCodeFound | scraper/gu_url_extractor.py:48-49 | a delimited alphanumeric code after a '/' is found there |
| UrlPatterns.SearchIsCode | scraper/database_url_extractor.py:404-432 | upper-casing a found alphanumeric group gives an upper-case code |
| UrlExtractor.PdfAt | scraper/database_url_extractor.py:44 | the PDF pattern's group is the code after `/pdf/kurs/xx/` |
| UrlExtractor.WebAt | scraper/database_url_extractor.py:45 | the web-syllabus pattern's group follows the '-' |
| UrlExtractor.CodeTailAt | scraper/database_url_extractor.py:49 | a course-page tail is a code followed by '/' or the end |
| UrlExtractor.LastDashCode | scraper/database_url_extractor.py:49 | `[^/]+-` backtracks to the last '-' before the next '/' that is followed by a code |
| UrlExtractor.CoursePageAt | scraper/database_url_extractor.py:49 | a course-page match's group is a code after a '-' in the path segment following study-gothenburg/ |
| UrlExtractor.ProgrammeAt | scraper/database_url_extractor.py:50 | a programme match's group is the five characters after `programme-` |
| UrlExtractor.ProgrammeSearchIsCode | scraper/database_url_extractor.py:421-424 | an upper-cased programme match is a program code |
| UrlExtractor.PdfSearchIsCode | scraper/database_url_extractor.py:406-409 | an upper-cased PDF match is a course code |
| UrlExtractor.WebSearchIsCode | scraper/database_url_extractor.py:411-414 | an upper-cased web-syllabus match is a course code |
| UrlExtractor.CoursePageSearchIsCode | scraper/database_url_extractor.py:416-419 | an upper-cased course-page match is a course code |
| UrlExtractor.ExtractCourseCode | scraper/database_url_extractor.py:404-432 | None iff none of the four patterns matches (GUID syllabus URLs included); otherwise an upper-cased course or program code, the PDF pattern taking precedence |
| UrlExtractor.PdfUrlCode | scraper/database_url_extractor.py:404-409 | the code of `.../pdf/kurs/xx/<code>` is that code |
| UrlExtractor.DetermineUrlType | scraper/database_url_extractor.py:463-482 | '/pdf/kurs/' means syllabus; otherwise, under study-gothenburg the type is syllabus iff '/syllabus/' occurs, and outside study-gothenburg it is a program page iff '/programme-' occurs and never a course page |
| UrlExtractor.PresentHrefs | scraper/database_url_extractor.py:439 | the hrefs kept are exactly the present, non-empty ones |
| UrlExtractor.ExtractCourseUrls | scraper/database_url_extractor.py:435-450 | the filtering loop keeps the hrefs that are not reading lists, in order |
| UrlExtractor.ExtractCourseUrlsKeeps | scraper/database_url_extractor.py:435-455 | a URL is kept iff it is a present, non-empty href and not a reading-list URL; GUID syllabus URLs stay |
| UrlExtractor.UrlStore.constructor | scraper/database_url_extractor.py:88-93 | the store starts with the given statuses |
| UrlExtractor.UrlStore.MarkUrlsProcessed | scraper/database_url_extractor.py:380-392 | no ids: nothing changes and 0 is returned; otherwise exactly the listed stored URLs become completed and their number is returned |
| GuUrlExtractor.GuPdfAt | scraper/gu_url_extractor.py:48 | a PDF match's group is a 2-3 letter, 3 digit code |
| GuUrlExtractor.GuWebAt | scraper/gu_url_extractor.py:49 | a web-syllabus match's group is a 2-3 letter, 3 digit code |
| GuUrlExtractor.PdfSearchIsCode | scraper/gu_url_extractor.py:174-176 | an upper-cased PDF match is a course code |
| GuUrlExtractor.WebSearchIsCode | scraper/gu_url_extractor.py:179-181 | an upper-cased web match is a course code |
| GuUrlExtractor.ExtractCourseCode | scraper/gu_url_extractor.py:163-184 | None iff neither pattern matches; otherwise the upper-cased PDF match, else the upper-cased web match |
| GuUrlExtractor.ExtractCourseUrls | scraper/gu_url_extractor.py:131-147 | exactly the hrefs that are not reading-list URLs are kept |
| GuUrlExtractor.SaveCourseCodes | scraper/gu_url_extractor.py:208-223 | the saved lines are the codes, each once, in ascending order |
| GuUrlExtractor.CodesOf | scraper/gu_url_extractor.py:281-285 | the code set holds exactly the codes extracted from the syllabus URLs |
| GuUrlExtractor.Collected | scraper/gu_url_extractor.py:277-289 | the collected URLs are exactly those found on the search pages |
| GuUrlExtractor.ScrapeAllCourseData | scraper/gu_url_extractor.py:268-296 | the scraping loops collect the syllabus URLs, the course-page URLs and the codes of the syllabus URLs |
| GuUrlExtractor.CodesOfSnoc | scraper/gu_url_extractor.py:281-285 | one more URL adds at most its own code |
| GuUrlExtractor.ScrapedCodesFromSyllabi | scraper/gu_url_extractor.py:268-296 | every collected code is a course code extracted from some syllabus URL |
| HtmlScraper.DashCodeAt | scraper/database_html_scraper.py:40-43 | a match of a dash, one of the prefixes dit, msg, mma, msa, tia or lt, and digits, at a position ends inside the URL and its group is the text after the dash; with lower-case letter prefixes the group is non-empty letters and digits |
| HtmlScraper.BareCodeAt | scraper/database_html_scraper.py:44 | a `\b([A-Z]{2,3}\d{3,4})\b` match's group is non-empty letters and digits |
| HtmlScraper.DashSearchIsCode | scraper/database_html_scraper.py:160-168 | the upper-cased group of the first dash-pattern match is a course code |
| HtmlScraper.BareSearchIsCode | scraper/database_html_scraper.py:160-168 | the upper-cased group of the first bare-code match is a course code |
| HtmlScraper.ExtractCourseCodeFromUrl | scraper/database_html_scraper.py:160-168 | None iff none of the four patterns matches; any result is an upper-case code; the `/syllabus/` pattern wins over the end-of-URL pattern, which wins over the others |
| HtmlScraper.CollapseSpaces | scraper/database_html_scraper.py:174 | no whitespace remains when the replacement is not whitespace, every character is the replacement or from the input, never longer, and unchanged when there is no whitespace |
| HtmlScraper.SafeFilename | scraper/database_html_scraper.py:171-175 | the name has no forbidden character, no whitespace and at most 100 characters, and every character is '_' or from the text |
| HtmlScraper.SafeFilenameOfSafe | scraper/database_html_scraper.py:171-175 | a name that is already safe is its own safe file name |
| HtmlScraper.SafeFilenameIdempotent | scraper/database_html_scraper.py:171-175 | converting twice gives the same name as converting once |
| HtmlScraper.FindAll | scraper/database_html_scraper.py:310-327 | every element `find_all` returns has one of the asked tags |
| HtmlScraper.HeadingLevel | scraper/database_html_scraper.py:293-304 | at most 6, and non-zero exactly for the tags h1 to h6 |
| HtmlScraper.ListLines | scraper/database_html_scraper.py:310-317 | every line a list contributes starts with "- " |
| HtmlScraper.CollectLines | scraper/database_html_scraper.py:281-348 | the loop over the children collects exactly the lines of every child in order |
| HtmlScraper.ChildLinesStep | scraper/database_html_scraper.py:284-348 | the lines from child i on are child i's lines followed by those of the rest |
| HtmlScraper.CollapseNewlines | scraper/database_html_scraper.py:354 | the result has no three newlines in a row, is empty only for empty input, and starts with a newline exactly when the input does |
| HtmlScraper.MarkdownShape | scraper/database_html_scraper.py:350-356 | the markdown is stripped and has no three newlines in a row |
| HtmlScraper.BlankElementSkipped | scraper/database_html_scraper.py:287-290 | a child whose text is blank contributes no line |
| HtmlScraper.HeadingLine | scraper/database_html_scraper.py:293-304 | a heading with text becomes one line: its level of '#', a space and the stripped text |
| HtmlScraper.ListItemLines | scraper/database_html_scraper.py:310-317 | a `ul` or `ol` child contributes only "- " lines |
| HtmlScraper.PageTextShape | scraper/database_html_scraper.py:359-404 | the page is the header with title and URL, then the markdown, or the fixed placeholder when the markdown is empty |
| HtmlScraper.PageForTitle | scraper/database_html_scraper.py:359-404 | a `/syllabus/` URL gets the syllabus header, every other URL the course-information header |
| HtmlScraper.PlaceholderPassesContentCheck | scraper/database_html_scraper.py:515 | a page with nothing extracted is still longer than 50 characters once stripped, so it is saved |
| HtmlScraper.OutputFileSpec | scraper/database_html_scraper.py:452-462 | a URL containing '/syllabus/' goes under the syllabus directory and any other under the course directory; the file's base name is the safe course code followed by the URL's ending |
| HtmlScraper.FileSuffixRule | scraper/database_html_scraper.py:453-458 | the ending is `_syllabus.md` iff '/syllabus/' occurs in the URL, and `_course.md` otherwise |
| HtmlScraper.OutputNamePartsHaveNoSlash | scraper/database_html_scraper.py:460-462 | neither the safe course code nor the ending holds a '/', so the name stays one path component |
| HtmlScraper.JoinedFile | scraper/database_html_scraper.py:461-462 | a '/'-free name joined onto a directory starts with the directory, ends with the name's ending and is the path's base name |
| HtmlScraper.Classify | scraper/database_html_scraper.py:494-535 | an attempt errs iff the fetch raised, is a 404 iff the title holds "404", and saves a page iff it passes both checks, saving the parsed text |
| HtmlScraper.AttemptsMadeSpec | scraper/database_html_scraper.py:485-540 | between 1 and 3 attempts are made, each but the last fails without stopping, and fewer than 3 means the last one stopped |
| HtmlScraper.AttemptOutcome | scraper/database_html_scraper.py:505-535 | the record counts one more attempt; a saved page sets success, content and path but leaves the error of an earlier attempt in place |
| HtmlScraper.Retry | scraper/database_html_scraper.py:485-540 | at least one and at most 3 attempts are counted |
| HtmlScraper.RetryCount | scraper/database_html_scraper.py:485-540 | the loop makes exactly the attempts up to the first that stops, at most 3 |
| HtmlScraper.RetryReportsLast | scraper/database_html_scraper.py:505-535 | the final record reports the last attempt: success with its page when it saved one, still carrying the error of the failed attempt just before it (none when it was the first); its own error otherwise |
| HtmlScraper.TryOnce | scraper/database_html_scraper.py:486-540 | one attempt returns the record of its verdict and stops exactly after a 404 or a saved page |
| HtmlScraper.RetryAttempts | scraper/database_html_scraper.py:485-540 | the loop's record equals the retry specification from the first attempt on |
| HtmlScraper.ScrapeSingleUrl | scraper/database_html_scraper.py:431-543 | an existing file is returned unchanged with 0 attempts; otherwise the attempts counted are those made, success means the last attempt saved a page, the saved markdown is that attempt's parsed page, and a success still reports the previous attempt's error when there was one |
| SyllabusPdfDownloader.LiteralRunAt | utils/syllabus_pdf_downloader.py:28 | a match at a position is the literal followed by the maximal run of code characters; no match iff the literal is not there or no code character follows it |
| SyllabusPdfDownloader.CodeAfterSpec | utils/syllabus_pdf_downloader.py:84-86 | no code iff no occurrence of the literal is followed by a letter or digit; a code is a non-empty run of letters and digits that follows an occurrence of the literal |
| SyllabusPdfDownloader.CodeAfterRoundTrip | utils/syllabus_pdf_downloader.py:84-86 | a code written right after the first occurrence of the literal is read back, in its own case, whatever follows it |
| SyllabusPdfDownloader.CourseCodeOfPdfUrl | utils/syllabus_pdf_downloader.py:28 | the course code of a `kursplaner.gu.se/pdf/kurs/en/<code>` URL is `<code>` |
| SyllabusPdfDownloader.PairsSpec | utils/syllabus_pdf_downloader.py:82-89 | the pairs hold exactly the URLs with a code, in input order, each with the code read from it |
| SyllabusPdfDownloader.PairUp | utils/syllabus_pdf_downloader.py:82-89 | the loop appends exactly the pairs of the specification |
| SyllabusPdfDownloader.FilterPdfUrls | utils/syllabus_pdf_downloader.py:72-89 | `filter_pdf_urls` is the pairing with the syllabus PDF pattern |
| SyllabusPdfDownloader.ReadUrls | utils/syllabus_pdf_downloader.py:54-69 | an unreadable file gives no URLs; every URL is a stripped non-empty line and every non-blank line appears stripped |
| SyllabusPdfDownloader.DownloadPath | utils/syllabus_pdf_downloader.py:105 | the path ends with `<course_code>.pdf` |
| SyllabusPdfDownloader.DownloadPathName | utils/syllabus_pdf_downloader.py:104-105 | for a code read from a URL the file name is `<course_code>.pdf` and the path starts with the output directory |
| KeywordFilter.CheckKeywordsInText | scraper/keyword_filter.py:113-127 | the flag is set iff some keyword was found; the found keywords are among the given ones, in their original spelling; empty text finds nothing |
| KeywordFilter.KeywordInsideWordNotFound | scraper/keyword_filter.py:119-125 | a keyword is not found inside a longer run of word characters |
| KeywordFilter.SpacedKeywordFound | scraper/keyword_filter.py:119-125 | a keyword standing between spaces is found, whatever its case in the text |
| KeywordFilter.CheckKeywordsIgnoresCase | scraper/keyword_filter.py:119-125 | lower-casing the text does not change what is found |
| KeywordFilter.FilterPdfsByKeywords | scraper/keyword_filter.py:185-209 | the kept PDFs are those whose text mentions a keyword and the removed ones the others, both in order; the removed ones are deleted iff it is not a dry run |
| KeywordFilter.FilterOutPdfUrls | scraper/keyword_filter.py:224-226 | keeps, in order, exactly the URLs without "/pdf/" in any case |
| KeywordFilter.ScrapeUrlForKeywords | scraper/keyword_filter.py:228-246 | a page that could not be fetched finds nothing; otherwise the found keywords are among the given ones and the flag is set iff some was found |
| KeywordFilter.FilterUrlsByKeywordsScrape | scraper/keyword_filter.py:248-262 | the matched URLs are, in order, those whose page mentions a keyword |
| KeywordFilter.ReadUrls | scraper/keyword_filter.py:212-222 | an unreadable file gives nothing; every URL starts with "http" and is stripped, and every line starting with "http" appears stripped |
| UrlKeywordFilter.ReadUrls | utils/url_keyword_filter.py:57-69 | an unreadable file is an error (the open raises); otherwise every URL is a stripped non-empty line, every non-blank line appears stripped, and there are no more URLs than lines |
| UrlKeywordFilter.FilterPdfUrls | utils/url_keyword_filter.py:72-82 | keeps, in order, exactly the URLs without "/pdf/" (case-sensitive) |
| UrlKeywordFilter.CheckKeywordsInUrl | utils/url_keyword_filter.py:85-122 | a page that could not be fetched finds nothing; the found keywords are among the given ones, the flag is set iff some was found, and every keyword the page text contains verbatim is found |
| UrlKeywordFilter.FilterUrlsByKeywords | utils/url_keyword_filter.py:125-152 | with no scraping the input is returned unchanged; otherwise the URLs whose page holds a keyword, in order |
| UrlKeywordFilter.VerbatimMentionKept | utils/url_keyword_filter.py:110-113 | a URL whose page contains a keyword verbatim is kept |
| SyllabusKeywordFilter.FindPdfFiles | utils/syllabus_keyword_filter.py:58-69 | every result is the directory joined with a listed `.pdf` name (any case) that is a file, and every such joined path is in the result |
| SyllabusKeywordFilter.BackupPath | utils/syllabus_keyword_filter.py:86-87 | the backup path ends with the PDF's own file name |
| SyllabusKeywordFilter.BackupPdfs | utils/syllabus_keyword_filter.py:72-91 | one copy per PDF, in order, from the PDF to its backup path |
| SyllabusKeywordFilter.BackupKeepsName | utils/syllabus_keyword_filter.py:86-87 | a PDF found in the directory is backed up under the same name in the backup directory |
| SyllabusKeywordFilter.CheckKeywordsInPdf | utils/syllabus_keyword_filter.py:118-150 | the found keywords are among the given ones, the flag is set iff some was found, every keyword the text contains verbatim is found, and empty text finds only the empty keyword |
| SyllabusKeywordFilter.FilterPdfs | utils/syllabus_keyword_filter.py:153-184 | the kept PDFs are those whose text holds a keyword and the removed ones the others, both in order; the removed ones are deleted iff it is not a dry run |
| SyllabusKeywordFilter.VerbatimMentionNotDeleted | utils/syllabus_keyword_filter.py:138-141 | a PDF whose text contains a keyword verbatim is never removed |
| DuplicateManager.TermMonth | scraper/database_duplicate_manager.py:103-104 | no month iff no term keyword occurs in the lower-cased text; otherwise the month of the first keyword in table order that occurs |
| DuplicateManager.TermKeywordMonths | scraper/database_duplicate_manager.py:45-51 | every month of the term keyword table is between 1 and 12 |
| DuplicateManager.TermDate | scraper/database_duplicate_manager.py:102-107 | the term branch applies iff a keyword occurs and the text holds four digits; it raises iff the year is 0000, and otherwise gives day 1 of the keyword's month in that year |
| DuplicateManager.ParseDateWith | scraper/database_duplicate_manager.py:95-116 | blank text is the minimum date; otherwise the term branch when it applies, else the formats; every date returned is a valid date |
| DuplicateManager.ParseDate | scraper/database_duplicate_manager.py:95-116 | every date returned is valid, and parsing fails exactly on a term text whose year is 0000 |
| DuplicateManager.AutumnTermDate | scraper/database_duplicate_manager.py:45-51 | an "autumn" or "ht" text with a year starts on 1 August of that year |
| DuplicateManager.SpringTermDate | scraper/database_duplicate_manager.py:45-51 | a "spring" or "vt" text with a year and no autumn keyword starts on 1 January of that year |
| DuplicateManager.NoTermUsesFormats | scraper/database_duplicate_manager.py:109-116 | without a term keyword the formats decide, and a text no format accepts is the minimum date |
| DuplicateManager.PriorityDate | scraper/database_duplicate_manager.py:87-93 | fails iff the valid-from text fails to parse; otherwise it is one of the two dates and no earlier than either |
| DuplicateManager.InfoOf | scraper/database_duplicate_manager.py:78-85 | the info is about the course, its replaced codes have no repeats, and building it fails iff the priority date does |
| DuplicateManager.DuplicateGroupsGet | scraper/database_duplicate_manager.py:224-245 | a title has a group iff it is non-empty and more than one info carries it, the group being those infos in order; no title appears twice |
| DuplicateManager.InfosCourses | scraper/database_duplicate_manager.py:231-236 | the info at each position is about the course at that position |
| DuplicateManager.DuplicateGroupsMembers | scraper/database_duplicate_manager.py:224-245 | every grouped course is one of the current courses and no group is empty |
| DuplicateManager.ResolutionOf | scraper/database_duplicate_manager.py:274-299 | the resolution is about the older course; it marks it replaced iff it is officially replaced by the latest, keeping the latest's version and replacing the older's |
| DuplicateManager.GroupResolutions | scraper/database_duplicate_manager.py:258-268 | one resolution per older version, in order, each against the latest |
| DuplicateManager.AllResolutionsCount | scraper/database_duplicate_manager.py:252-272 | the resolutions number the group members minus one per group |
| DuplicateManager.ReplacementMapSpec | scraper/database_duplicate_manager.py:206-222 | a code is in the map iff some course replaces it, and it maps to the code of the last course that does |
| DuplicateManager.BuildReplacementMap | scraper/database_duplicate_manager.py:206-222 | fails iff some course's info fails; otherwise the map of the specification |
| DuplicateManager.GroupedStep | scraper/database_duplicate_manager.py:231-236 | one more course appends its info to its title's group, when it has a title |
| DuplicateManager.AddToGroup | scraper/database_duplicate_manager.py:231-236 | one pass of the grouping loop keeps the groups equal to the grouping of the courses seen |
| DuplicateManager.GroupCoursesByTitle | scraper/database_duplicate_manager.py:224-245 | fails only when some info fails; otherwise exactly the duplicate groups |
| DuplicateManager.CountSplit | scraper/database_duplicate_manager.py:163-164 | every resolution is either a replacement or a quality issue |
| DuplicateManager.SortedCourses | scraper/database_duplicate_manager.py:256 | sorting by priority date keeps the same courses |
| DuplicateManager.CurrentCodes | scraper/database_duplicate_manager.py:402-404 | a code is listed iff some current course has it |
| DuplicateManager.Multiples | scraper/database_duplicate_manager.py:402-412 | one issue per code occurring more than once, with its count |
| DuplicateManager.ReplacedStillCurrentIssues | scraper/database_duplicate_manager.py:415-425 | one issue per course both replaced and current |
| DuplicateManager.ValidateVersionConsistency | scraper/database_duplicate_manager.py:395-434 | a code is reported with count n iff n > 1 current courses have it, and a course is reported iff it is replaced but still current |
| DuplicateManager.Manager.FollowReplacementChain | scraper/database_duplicate_manager.py:356-369 | returns the end of the chain and adds the steps followed to the chain counter; nothing else changes |
| DuplicateManager.Manager.MarkCourseReplaced | scraper/database_duplicate_manager.py:301-331 | a dry run changes nothing; otherwise the older course stops being current, is marked replaced by the newer one, a history entry is added and the counter grows by one |
| DuplicateManager.Manager.CreateQualityIssue | scraper/database_duplicate_manager.py:333-354 | a dry run changes nothing; otherwise one issue for the older course is recorded and the counter grows by one |
| DuplicateManager.Manager.ResolveSingleDuplicate | scraper/database_duplicate_manager.py:274-299 | returns the resolution of the pair; the older course is marked replaced exactly then and unless a dry run, and is left alone otherwise |
| DuplicateManager.Manager.ResolveGroup | scraper/database_duplicate_manager.py:252-268 | the group's resolutions after a stable sort latest first, with the counters tallying them |
| DuplicateManager.Manager.ResolveSorted | scraper/database_duplicate_manager.py:258-268 | every older version is resolved against the first, in order |
| DuplicateManager.Manager.ResolveDuplicates | scraper/database_duplicate_manager.py:247-272 | all groups' resolutions in order; no course becomes replaced-but-current, and the counters tally the resolutions unless a dry run |
| DuplicateManager.Manager.FindDuplicateCourses | scraper/database_duplicate_manager.py:177-204 | fails iff some info fails, and then nothing changes; otherwise the resolutions of map, groups and resolution, with the counters grown by the replacements and issues unless a dry run |
| DuplicateManager.Manager.DetectAndResolveDuplicates | scraper/database_duplicate_manager.py:156-175 | succeeds iff every info can be built; then the counts are the replacements and issues among the resolutions, and on failure both counts are 0 with an error and nothing changes |
| Dates.Later | scraper/database_duplicate_manager.py:93 | the later date is one of the two and no earlier than either |
| Dates.MinDateLeast | scraper/database_duplicate_manager.py:98 | the minimum date is valid and no later than any valid date |
| Dates.YearField | scraper/database_duplicate_manager.py:40-42 | a `%Y` field is a year from 0 to 9999 |
| Dates.SmallField | scraper/database_duplicate_manager.py:40-41 | a `%m` or `%d` field lies between 1 and its bound |
| Dates.DayField | scraper/database_duplicate_manager.py:40 | a `%d` field lies between 1 and 31; a space before one digit from 1 to 9 is accepted as that day; without a leading space it is the digit form |
| Dates.Strptime | scraper/database_duplicate_manager.py:110-114 | every date a format accepts is a valid date |
| Dates.ParseFormats | scraper/database_duplicate_manager.py:109-116 | the result is valid, and any result other than the minimum date was accepted by one of the three formats |
| Dates.IsoDateParsed | scraper/database_duplicate_manager.py:40 | a valid `YYYY-MM-DD` text, with the day possibly space-padded, parses to that date |
| Dates.FirstYear | scraper/database_duplicate_manager.py:105 | no year iff there are no four digits in a row; a year is between 0 and 9999 |
| Dates.SortByDateDesc | scraper/database_duplicate_manager.py:256 | the result is sorted latest first and is a permutation of the input |
| Dates.SortedHeadLatest | scraper/database_duplicate_manager.py:256-258 | the head of the sorted versions is no earlier than any version |
| Dates.SortHeadIsFirstLatest | scraper/database_duplicate_manager.py:256-258 | the sort is stable: its head is the first of the latest versions |
| Replacements.PhraseCodeAt | scraper/database_duplicate_manager.py:53-58 | a replacement phrase match ends inside the text, its group is the text just before the end, and the group is capital letters followed by digits |
| Replacements.FindAllCodes | scraper/database_duplicate_manager.py:126 | every code `findall` returns is a replacement code written in the text |
| Replacements.CodesFound | scraper/database_duplicate_manager.py:125-127 | every code found is written in the text, and nothing is found when no pattern matches |
| Replacements.SomeCodeFound | scraper/database_duplicate_manager.py:125-127 | a match of any pattern anywhere yields at least one code |
| Replacements.ReplacedIn | scraper/database_duplicate_manager.py:118-129 | the codes have no repeats, are replacement codes, and are empty when no "Additional information" section has content |
| Replacements.AllCodes | scraper/database_duplicate_manager.py:123-127 | every code collected is a replacement code, and none come without a non-empty named section |
| Replacements.OnlyNamedSectionsRead | scraper/database_duplicate_manager.py:123-124 | only the sections with the given name are read |
| Replacements.FollowFromSpec | scraper/database_duplicate_manager.py:361-366 | the chain walk from the current code reaches the result in the number of steps counted, and stopping inside the map means a cycle was found |
| Replacements.FollowChainSpec | scraper/database_duplicate_manager.py:356-369 | following the map the counted number of steps from the code reaches the result; a result still in the map lies on a cycle |
| Replacements.FollowChainAcyclic | scraper/database_duplicate_manager.py:356-369 | in a map without cycles the chain ends at a code that nothing replaces |
| CleanDuplicates.SeasonDate | clean_duplicate_courses.py:38-50 | the season branch applies iff a season word occurs and the text holds four digits; it raises iff the year is 0000, and otherwise gives day 1 of August for an autumn word, else of January, in that year |
| CleanDuplicates.ParseDate | clean_duplicate_courses.py:24-59 | blank text is the minimum date, every date returned is valid, and parsing fails exactly on a season text whose year is 0000 |
| CleanDuplicates.SeasonParsed | clean_duplicate_courses.py:38-50 | a season text with a non-zero year is the first day of August (autumn word) or January in that year |
| CleanDuplicates.SeasonWordsMentioned | clean_duplicate_courses.py:39 | the season test is: "term", "semester", "ht" or "vt" occurs |
| CleanDuplicates.AutumnWordsMentioned | clean_duplicate_courses.py:45 | the autumn test is: "autumn" or "ht" occurs |
| CleanDuplicates.AutumnTermDate | clean_duplicate_courses.py:38-46 | an autumn season text with a year starts on 1 August |
| CleanDuplicates.SpringTermDate | clean_duplicate_courses.py:38-50 | a season text with a year and no autumn word starts on 1 January |
| CleanDuplicates.NoSeasonWordUsesFormats | clean_duplicate_courses.py:52-59 | without a season word only the three formats are tried |
| CleanDuplicates.PriorityOf | clean_duplicate_courses.py:61-69 | fails iff either date raises; otherwise both parsed dates are returned and the priority is one of them and no earlier than either |
| CleanDuplicates.ExtractReplacedCourses | clean_duplicate_courses.py:71-94 | the codes have no repeats, are replacement codes written in the "Additional information" text, none come from empty text, and some come iff a pattern matches |
| CleanDuplicates.MatchFindsCode | clean_duplicate_courses.py:89-92 | a pattern that matches yields a code |
| CleanDuplicates.FollowReplacementChain | clean_duplicate_courses.py:96-109 | the loop returns the end of the replacement chain, stopping at a code already visited |
| CleanDuplicates.MapFromSpec | clean_duplicate_courses.py:134-147 | a code is in the map iff some file replaces it, and it maps to the code of the last such file |
| CleanDuplicates.MapFromStep | clean_duplicate_courses.py:144-145 | one more file overwrites the map with its own replaced codes |
| CleanDuplicates.UnloadedReplacesNothing | clean_duplicate_courses.py:137-138 | a file that does not load leaves the map as it is |
| CleanDuplicates.BuildCompleteReplacementMap | clean_duplicate_courses.py:126-149 | the map is built from the files in sorted path order |
| CleanDuplicates.AssignReplacements | clean_duplicate_courses.py:134-147 | the loop builds the map of the specification |
| CleanDuplicates.MapIndependentOfListing | clean_duplicate_courses.py:133-134 | the order in which the directory lists the files does not change the map |
| CleanDuplicates.EntryFields | clean_duplicate_courses.py:169-185 | a titled file's record carries its path, its non-blank stripped title and its code |
| CleanDuplicates.EntriesSpec | clean_duplicate_courses.py:163-185 | grouping fails iff some titled file's date raises; otherwise every record is that of a titled file |
| CleanDuplicates.GroupedStep | clean_duplicate_courses.py:172-185 | one more titled file appends its record to its title's group |
| CleanDuplicates.AddToGroup | clean_duplicate_courses.py:163-185 | one pass of the grouping loop keeps the groups equal to the grouping of the files seen |
| CleanDuplicates.CollectByTitle | clean_duplicate_courses.py:161-185 | fails iff some record fails; otherwise the records grouped by title |
| CleanDuplicates.Reason | clean_duplicate_courses.py:201-218 | a reason is given iff a check links the course to the kept one, and then it names the kept course last |
| CleanDuplicates.DecidePartition | clean_duplicate_courses.py:191-233 | every course but the kept one is either moved or reported as an issue, and no group is reported iff no course is linked |
| CleanDuplicates.DecideIssues | clean_duplicate_courses.py:224-230 | each issue names the title, the kept course and a course no check links to it |
| CleanDuplicates.SortedMembers | clean_duplicate_courses.py:194 | sorting keeps only the title's records |
| CleanDuplicates.DecideGroup | clean_duplicate_courses.py:191-233 | a reported group keeps a course with the latest priority date of the title, and moves only title courses linked to it, with a reason naming it |
| CleanDuplicates.CheckReplacement | clean_duplicate_courses.py:200-218 | the loop body's two checks give the official flag and the reason |
| CleanDuplicates.DecideTitle | clean_duplicate_courses.py:192-233 | the loop over one title's sorted courses gives the decision |
| CleanDuplicates.DecideSorted | clean_duplicate_courses.py:197-233 | the linked courses are the ones to move and the unlinked ones issues, both in sorted order |
| CleanDuplicates.FindingsGroups | clean_duplicate_courses.py:191-233 | every reported group is the decision for one grouped title |
| CleanDuplicates.FindDuplicateCourses | clean_duplicate_courses.py:151-242 | fails iff grouping fails; otherwise the findings over the grouped titles with the map from sorted files |
| CleanDuplicates.DecideAll | clean_duplicate_courses.py:191-233 | the loop over the titles gives the findings |
| CleanDuplicates.OutdatedPathsSpec | clean_duplicate_courses.py:266-290 | a file is to be moved iff it belongs to a course some group moves |
| CleanDuplicates.MoveOutdated | clean_duplicate_courses.py:276-290 | the loop over a group's courses to move makes the specified moves and count |
| CleanDuplicates.CleanDuplicateCourses | clean_duplicate_courses.py:244-300 | fails iff grouping fails; otherwise the backup directory (default next to the course directory), the moves, one kept course per group and the removed count |
| CleanDuplicates.MoveAll | clean_duplicate_courses.py:266-290 | the loop over the groups gives the moves, the removed count and one kept course per group |
| CleanDuplicates.MovesStep | clean_duplicate_courses.py:266-290 | one more group adds its own moves and count |
| CleanDuplicates.MovesSpec | clean_duplicate_courses.py:276-290 | a dry run moves nothing and counts every file; otherwise the count is the moves made; every move takes a file to move into the backup directory under its own name |
| CleanDuplicates.DecideGroupDistinct | clean_duplicate_courses.py:197-233 | among distinct records the kept course is never one to move |
| CleanDuplicates.EntriesDistinct | clean_duplicate_courses.py:163-185 | over a listing without repeats the records are distinct and each is its path's record |
| CleanDuplicates.KeptNotOutdated | clean_duplicate_courses.py:191-233 | no title's course to move has the file of any title's kept course |
| CleanDuplicates.KeptNeverMoved | clean_duplicate_courses.py:244-290 | no file that a cleanup keeps is among the files it moves |
| GenerateMappings.CourseCodeFromFilename | scraper/generate_mappings.py:78-82 | the code is upper-case, as long as the file name without its extension, and has no slash |
| GenerateMappings.CourseCodeOfPdf | scraper/generate_mappings.py:78-82 | the file `<dir>/<c>.pdf` gives `c` upper-cased |
| GenerateMappings.FindProgramCodesInText | scraper/generate_mappings.py:103-113 | the loop finds exactly the codes that occur as whole words in the upper-cased text, in their own spelling |
| GenerateMappings.WordCharUpper | scraper/generate_mappings.py:106-110 | upper-casing keeps a character a word character and a non-word character a non-word character |
| GenerateMappings.DelimitedCodeFound | scraper/generate_mappings.py:108-112 | a code with no word character on either side in the text is found |
| GenerateMappings.PrefixOfLongerCodeNotFound | scraper/generate_mappings.py:108-112 | a code every occurrence of which runs on into a word character is not found (N2COS in N2COSMOS) |
| GenerateMappings.DashCodeAt | scraper/generate_mappings.py:158 | a dash-pattern group is 2-4 letters and 3-5 digits |
| GenerateMappings.ExtractCourseCodeFromUrl | scraper/generate_mappings.py:152-164 | empty iff neither pattern matches; otherwise an upper-case code of 3 to 9 characters, the syllabus-segment pattern taking precedence |
| GenerateMappings.SyllabusUrlCode | scraper/generate_mappings.py:157 | a URL `<base>/<c>/syllabus` gives `c` upper-cased |
| GenerateMappings.PageCodes | scraper/generate_mappings.py:166-188 | a page that could not be fetched gives nothing; otherwise the codes found in its text |
| GenerateMappings.NothingInEmptyText | scraper/generate_mappings.py:176-178 | nothing is found in empty text, so the explicit check changes nothing |
| GenerateMappings.ScrapeProgramCodesFromUrl | scraper/generate_mappings.py:166-188 | the codes found for the page, all among the given codes |
| GenerateMappings.ProcessPdfsForMapping | scraper/generate_mappings.py:115-136 | the loop collects, per PDF, its course code with the program codes found in its text |
| GenerateMappings.ProcessUrlsForMapping | scraper/generate_mappings.py:190-204 | the loop collects, per URL, its course code with the program codes found on its page |
| GenerateMappings.PdfMappingSpec | scraper/generate_mappings.py:115-136 | no course is stored with an empty set, and a program is under a course iff some PDF named for the course has text in which the program is found |
| GenerateMappings.UrlMappingSpec | scraper/generate_mappings.py:190-204 | no course is stored with an empty set, and a program is under a course iff some URL gives the course and its fetched page mentions the program |
| GenerateMappings.UrlFindingGives | scraper/generate_mappings.py:195-202 | a URL gives a course and program exactly when its finding holds them |
| GenerateMappings.MappingEntries | scraper/generate_mappings.py:222-233 | one entry per key with a non-empty set, keys ascending and distinct, each value the set's members sorted without repeats |
| GenerateMappings.ListedSpec | scraper/generate_mappings.py:222-233 | a saved file lists a value under a key iff the map holds it there |
| GenerateMappings.SavedMappingsAgree | scraper/generate_mappings.py:262-278 | the course file lists a program under a course iff the program file lists the course under the program |
| GenerateMappings.MergedListing | scraper/generate_mappings.py:262-274 | the merged file lists under a course exactly the programs either pass found for it |
| Mappings.CodesFound | scraper/generate_mappings.py:105-113 | the loop keeps exactly the codes the test accepts for the text |
| Mappings.MentionsIgnoringCaseSpec | utils/generate_course_program_mapping.py:121-122 | a code is mentioned iff it matches, ignoring case, at some position of the text |
| Mappings.CodesMentioned | utils/generate_course_program_mapping.py:121-122 | the codes mentioned are among the given codes |
| Mappings.AccumulateLookup | scraper/generate_mappings.py:131-132 | updating adds the found set under the code, and creates the key only for a non-empty set |
| Mappings.CollectedSpec | scraper/generate_mappings.py:115-136 | no key has an empty set, a code is a key iff some item gives it a non-empty set, and its set is the union of what the items give it |
| Mappings.CollectedMember | scraper/generate_mappings.py:115-136 | a value is under a key iff some item gives it there |
| Mappings.CollectedStep | scraper/generate_mappings.py:119-132 | one more item updates the collection as the loop body does |
| Mappings.MergeMappings | scraper/generate_mappings.py:207-212 | the merged map holds every key of either map with the union of its sets, and the first map's entries are updated as the copy shares their sets |
| Mappings.MergeEmpty | scraper/generate_mappings.py:207-212 | merging with an empty map changes nothing |
| Mappings.MergeStep | scraper/generate_mappings.py:210-211 | one more key of the second map adds its set to the merged one |
| Mappings.MergeCollected | scraper/generate_mappings.py:254-262 | merging the collections of two runs gives the collection of both runs together |
| Mappings.InvertSpec | scraper/generate_mappings.py:214-220 | no program has an empty set, and a course is under a program iff the program is under the course |
| Mappings.NonEmptyPart | scraper/generate_mappings.py:214-220 | the part of a map without empty sets has no empty set |
| Mappings.InvertTwice | scraper/generate_mappings.py:214-220 | inverting twice gives back the map without its empty entries |
| Mappings.InvertMapping | scraper/generate_mappings.py:214-220 | the nested loop computes the inverse |
| Mappings.EmptyListsSpec | utils/url_program_course_mapping.py:151 | the initial mapping has an empty list exactly for every program code |
| Mappings.EntriesFor | scraper/generate_mappings.py:225-230 | one entry per key, in the keys' order, each with its written value |
| Mappings.SortedEntries | scraper/generate_mappings.py:224-233 | the entries have ascending distinct keys, a key appears iff its value is kept, and each entry writes its key's value |
| Mappings.KeptEntries | scraper/generate_mappings.py:225-230 | an entry is present iff its key is listed, its value is kept and the entry writes that value |
| Mappings.SortedEntriesHas | scraper/generate_mappings.py:224-233 | an entry is saved iff its key's value is kept and the entry writes that value |
| Mappings.SortedEntriesUnique | scraper/generate_mappings.py:233 | any list of the same entries whose keys ascend is the saved one |
| Mappings.InsertByKey | scraper/generate_mappings.py:233 | inserting adds exactly the entry |
| Mappings.InsertByKeySorted | scraper/generate_mappings.py:233 | inserting into entries sorted by key keeps them sorted |
| Mappings.SortByKey | scraper/generate_mappings.py:233 | sorting keeps exactly the entries |
| Mappings.SortByKeySorted | scraper/generate_mappings.py:233 | the sorted entries ascend by key |
| Mappings.SortByKeyDistinct | scraper/generate_mappings.py:233 | sorting keeps distinct keys distinct |
| Mappings.SortedByKey | scraper/generate_mappings.py:233 | the entries in ascending key order, the same entries, distinct keys staying distinct |
| UrlProgramCourseMapping.DashSyllabusAt | utils/url_program_course_mapping.py:83 | a `-<code>/syllabus/` match's group is non-empty letters and digits |
| UrlProgramCourseMapping.LazyFrom | utils/url_program_course_mapping.py:83 | the lazy scan's group is non-empty letters and digits |
| UrlProgramCourseMapping.LazyFromSpec | utils/url_program_course_mapping.py:83 | the lazy scan finds the match at the nearest position that has one, and finds none when no position before a newline has one |
| UrlProgramCourseMapping.StudyPageCodeAt | utils/url_program_course_mapping.py:83 | a study-page match's group is non-empty letters and digits |
| UrlProgramCourseMapping.ExtractCourseCodeFromUrl | utils/url_program_course_mapping.py:71-96 | empty iff neither pattern matches; otherwise an upper-case code, the study-page pattern taking precedence over the alternative |
| UrlProgramCourseMapping.LazySkips | utils/url_program_course_mapping.py:83 | the lazy scan passes over positions without a match or a newline |
| UrlProgramCourseMapping.NameSkipped | utils/url_program_course_mapping.py:83 | inside a course name without a slash the pattern cannot complete before the last dash |
| UrlProgramCourseMapping.StudyPageUrlCode | utils/url_program_course_mapping.py:82-87 | a URL `<prefix><name>-<code>/syllabus/<id>` gives the code upper-cased, however many dashes the name holds |
| UrlProgramCourseMapping.DashSyllabusFound | utils/url_program_course_mapping.py:83 | at a dash followed by a code and `/syllabus/` the pattern's tail matches with that code |
| UrlProgramCourseMapping.PageCodes | utils/url_program_course_mapping.py:99-135 | the codes found are among the program codes, and a page that could not be fetched gives none |
| UrlProgramCourseMapping.ScrapeProgramCodes | utils/url_program_course_mapping.py:122-125 | the loop finds the codes of the specification |
| UrlProgramCourseMapping.AddedNothing | utils/url_program_course_mapping.py:164 | a URL with no program found changes nothing |
| UrlProgramCourseMapping.CourseListsSpec | utils/url_program_course_mapping.py:151-170 | every program code has a list, no list repeats a course, and a course is listed under a program iff some item gives the course with that program |
| UrlProgramCourseMapping.AddedSpec | utils/url_program_course_mapping.py:164-168 | adding keeps the programs and adds the course to each found program's list |
| UrlProgramCourseMapping.UrlCourseLinks | utils/url_program_course_mapping.py:155-168 | a URL links a course and program exactly when its finding holds them, and the program is one of the codes |
| UrlProgramCourseMapping.ProcessedSpec | utils/url_program_course_mapping.py:138-170 | every program code has a list, no list repeats a course, and a course is under a program iff some URL links them |
| UrlProgramCourseMapping.AddCourse | utils/url_program_course_mapping.py:166-168 | the inner loop adds the course to each found program's list |
| UrlProgramCourseMapping.AddedStep | utils/url_program_course_mapping.py:166-168 | one more program gets the course appended unless it is there |
| UrlProgramCourseMapping.ProcessUrls | utils/url_program_course_mapping.py:138-170 | the loop gives the specified lists |
| UrlProgramCourseMapping.ProcessedStep | utils/url_program_course_mapping.py:155-168 | one more URL adds its course under its programs |
| UrlProgramCourseMapping.ProcessedKeys | utils/url_program_course_mapping.py:151 | the lists are keyed by exactly the program codes |
| UrlProgramCourseMapping.MappingEntries | utils/url_program_course_mapping.py:174-199 | one entry per program with courses, keys ascending and distinct, each list the program's courses sorted |
| UrlProgramCourseMapping.SavedMapping | utils/url_program_course_mapping.py:138-199 | the saved file lists a course under a program iff some URL links them, and lists no course twice |
| UrlProgramCourseMapping.SavedLists | utils/url_program_course_mapping.py:174-199 | the saved entries list a course under a program iff the program's list holds it |
| UrlProgramCourseMapping.SavedListsDistinct | utils/url_program_course_mapping.py:191 | a list without repeats is saved without repeats |
| CourseProgramMapping.CourseCodeFromFilename | utils/generate_course_program_mapping.py:62-75 | the code has no slash and is a prefix of the file name |
| CourseProgramMapping.CourseCodeOfPdf | utils/generate_course_program_mapping.py:62-75 | the file `<dir>/<c>.pdf` gives `c` in its own case |
| CourseProgramMapping.ExtractProgramCodes | utils/generate_course_program_mapping.py:102-129 | the loop finds the codes mentioned in the text, ignoring case |
| CourseProgramMapping.ProgramCodeFound | utils/generate_course_program_mapping.py:121-122 | a code is found iff it is one of the codes and matches the text at some position, ignoring case |
| CourseProgramMapping.AssignedDistinct | utils/generate_course_program_mapping.py:145-155 | the mapping holds each course once |
| CourseProgramMapping.AssignedSpec | utils/generate_course_program_mapping.py:149-155 | a course maps to a set iff the last PDF for that course with a non-empty finding found that set |
| CourseProgramMapping.AssignedOther | utils/generate_course_program_mapping.py:153-155 | a PDF with nothing found, or for another course, leaves a course's entry as it is |
| CourseProgramMapping.LastFindingIsLatest | utils/generate_course_program_mapping.py:155 | a later finding for the same course replaces the earlier one |
| CourseProgramMapping.Rendered | utils/generate_course_program_mapping.py:161-166 | one entry per course, in order, its codes sorted and joined by ", " |
| CourseProgramMapping.ProcessPdfs | utils/generate_course_program_mapping.py:132-168 | the two loops give the rendered mapping |
| CourseProgramMapping.AsMap | utils/generate_course_program_mapping.py:183 | the map has exactly the mapping's courses |
| CourseProgramMapping.SavedIsSorted | utils/generate_course_program_mapping.py:171-186 | the saved file is the rendered mapping sorted by course code |
| CourseProgramMapping.RenderedEntry | utils/generate_course_program_mapping.py:161-166 | an entry is rendered iff its course is mapped and it joins that course's codes |
| CourseProgramMapping.SavedCourse | utils/generate_course_program_mapping.py:132-186 | a course is saved with a text iff its last non-empty finding, joined, is that text |
| ProgramCourseMapping.Appended | utils/generate_program_course_mapping.py:155-156 | appending keeps the programs |
| ProgramCourseMapping.AppendedNothing | utils/generate_program_course_mapping.py:153 | a PDF with no program found changes nothing |
| ProgramCourseMapping.AppendedLists | utils/generate_program_course_mapping.py:145-156 | the lists are keyed by exactly the program codes |
| ProgramCourseMapping.CoursesOf | utils/generate_program_course_mapping.py:149-156 | no more courses than PDFs, and a course is listed iff some PDF of it mentions the program |
| ProgramCourseMapping.AppendedListsSpec | utils/generate_program_course_mapping.py:145-156 | a program's list is the courses of the PDFs that mention it, in order |
| ProgramCourseMapping.CoursesOfCount | utils/generate_program_course_mapping.py:155-156 | a course appears as often as it has PDFs mentioning the program, repeats kept |
| ProgramCourseMapping.AppendCourse | utils/generate_program_course_mapping.py:155-156 | the inner loop appends the course to each found program's list |
| ProgramCourseMapping.ProcessPdfs | utils/generate_program_course_mapping.py:132-171 | one entry per program with courses, in first-listed order of the codes, its courses sorted |
| ProgramCourseMapping.EntriesInOrder | utils/generate_program_course_mapping.py:162-171 | the loop gives one entry per listed program with a non-empty list |
| ProgramCourseMapping.ListsStep | utils/generate_program_course_mapping.py:149-156 | one more PDF appends its course under its programs |
| ProgramCourseMapping.SavedIsSorted | utils/generate_program_course_mapping.py:174-189 | the saved file is the entries sorted by program code |
| ProgramCourseMapping.SavedProgram | utils/generate_program_course_mapping.py:132-189 | a program is saved with a list iff it is a code with some course, the list being its courses sorted |
| MergeCourseData.In | merge_course_data.py:23 | `in` raises on a number, boolean or null, and on an object tests its keys |
| MergeCourseData.Lookup | merge_course_data.py:21 | `.get` on an object gives the field or nothing, and any field returned is the object's |
| MergeCourseData.SetIn | merge_course_data.py:24 | assigning into an inner object succeeds iff the outer field is an object |
| MergeCourseData.SetInSpec | merge_course_data.py:24 | the assignment sets exactly the one inner key and leaves every other field and key alone |
| MergeCourseData.MoveFieldsSpec | merge_course_data.py:20-33 | after moving, an inner key holds the web value iff it is listed and present there, and otherwise its old value; other fields are untouched |
| MergeCourseData.MoveFieldsSucceeds | merge_course_data.py:20-33 | moving succeeds when the target part is an object |
| MergeCourseData.MoveFieldsKeyError | merge_course_data.py:24 | moving a present field into a syllabus without that part raises |
| MergeCourseData.AddAdditional | merge_course_data.py:35-44 | web sections that are not an object raise |
| MergeCourseData.AddAdditionalSpec | merge_course_data.py:35-44 | empty web text changes nothing; otherwise the web text is appended after a blank line to existing "Additional information", or becomes it; nothing else changes |
| MergeCourseData.CombineMovingSpec | merge_course_data.py:7-46 | the metadata fields and sections listed are taken from the web file when present, and every other part of the syllabus file is kept |
| MergeCourseData.CombinedMetadata | merge_course_data.py:15-24 | the combined metadata holds the eight web fields where the web file has them, and the syllabus values otherwise |
| MergeCourseData.CombinedSections | merge_course_data.py:27-33 | the combined sections hold "Selection" and "Tuition" from the web file where present, and the syllabus sections otherwise |
| MergeCourseData.CombinedOtherFields | merge_course_data.py:12 | top-level fields other than metadata and sections come from the syllabus file unchanged |
| MergeCourseData.JsonNames | merge_course_data.py:57-58 | exactly the names ending in `.json` |
| MergeCourseData.Categories | merge_course_data.py:61-63 | common, syllabus-only and web-only names are disjoint and together make up all names |
| MergeCourseData.Chosen | merge_course_data.py:92-159 | a name is chosen iff it is listed and passes the test |
| MergeCourseData.ChosenStep | merge_course_data.py:92-159 | over distinct names one more name adds itself iff it passes, counting one |
| MergeCourseData.Written | merge_course_data.py:108-153 | the output holds exactly the old files and the written names |
| MergeCourseData.WrittenStep | merge_course_data.py:108-153 | one more written name sets its own file |
| MergeCourseData.MergedFolderSpec | merge_course_data.py:48-161 | the output holds the old files, the combined common files and the copied unique ones; combined files replace old ones, and a unique file is copied only where the output had none |
| MergeCourseData.CombineAll | merge_course_data.py:90-118 | the loop counts the common files that combine and the errors, together every common file, and writes exactly the combined ones |
| MergeCourseData.CopyAll | merge_course_data.py:121-159 | the loop copies, and counts, exactly the unique files not yet in the output |
| MergeCourseData.MergeCourseData | merge_course_data.py:48-161 | a dry run changes nothing and returns the three category sizes and 0; otherwise the merged folder, the combined count, errors that make up the rest of the common files, the copied count and the total |
| MergeCourseData.MergeFolders | merge_course_data.py:85-161 | the three loops give the merged folder and its counts |
| MergeCourseData.CombinedNamesChosen | merge_course_data.py:92 | the names the combine loop succeeds on are the combined names |
| MergeCourseData.CopiedNames | merge_course_data.py:128-130 | the copy loop copies exactly the unique names absent from the output |
| MergeCourseData.ContentTypeUpdatedWhen | merge_course_data.py:182-209 | a file is updated iff it parses to an object whose metadata is an object without `content_type` |
| MergeCourseData.ContentTypeUpdate | merge_course_data.py:202 | an update sets `content_type` to "course" and changes nothing else |
| MergeCourseData.AddContentTypeToFiles | merge_course_data.py:163-218 | the counts of updated, failed and skipped files add up to the JSON files, and exactly the updated files are rewritten |
| MergeCourseData.OutcomesPartition | merge_course_data.py:179-216 | every file is exactly one of updated, failed or skipped |
| MergeCourseData.UpdateAll | merge_course_data.py:179-216 | the loop counts each outcome and rewrites the updated files |
| RagSystem.RouteQuery | backend/rag_system.py:243-251 | the router's content type, or "both" when the router call raises |
| RagSystem.QueryCodeAt | backend/rag_system.py:258 | a match's group is the text it spans |
| RagSystem.CourseCodeIn | backend/rag_system.py:258-259 | a code found is 2-4 letters and 3 digits occurring in the upper-cased question; none is found iff no position matches |
| RagSystem.SearchedQueryCode | backend/rag_system.py:258-259 | the leftmost match is a course code occurring in the text |
| RagSystem.QueryCodeCharacters | backend/rag_system.py:258 | a matched code has at least five characters and no whitespace at either end |
| RagSystem.Relevant | backend/rag_system.py:284-288 | a section is relevant iff one of its keywords occurs in the text |
| RagSystem.SectionVariations | backend/rag_system.py:291-298 | three variations per relevant section |
| RagSystem.LlmQueries | backend/rag_system.py:307-308 | at most three model lines, each longer than five characters |
| RagSystem.Candidates | backend/rag_system.py:261-319 | the question first, then the code variations when a code is found, three per relevant section, then the extra lines; with no code only the question and the extra lines |
| RagSystem.UniqueCleaned | backend/rag_system.py:321-328 | the first loop keeps the first of each lower-cased form among the stripped candidates longer than two characters |
| RagSystem.FirstDistinct | backend/rag_system.py:338-346 | the second loop keeps the first of each lower-cased form, stopping at the limit |
| RagSystem.GenerateQueryVariations | backend/rag_system.py:253-348 | the method returns the variations of the specification for the model's answer or its failure |
| RagSystem.CleanPadAndCap | backend/rag_system.py:321-348 | de-duplication, padding when fewer than three remain, and the capped second pass |
| RagSystem.VariationsDistinct | backend/rag_system.py:338-348 | at most ten variations, no two equal ignoring case |
| RagSystem.VariationsHead | backend/rag_system.py:261-328 | a question longer than two characters once stripped comes first, stripped |
| RagSystem.VariationsKeepEarly | backend/rag_system.py:321-346 | a stripped candidate among the first two and longer than two characters survives, up to case |
| RagSystem.FirstPassEarly | backend/rag_system.py:321-328 | a candidate passing the length test has a representative in the first pass no later than itself |
| RagSystem.QuestionFirst | backend/rag_system.py:253-348 | a question longer than two characters once stripped is the first variation |
| RagSystem.CodeAmongVariations | backend/rag_system.py:258-270 | a question mentioning a course code has that code among its variations, up to case |
| RagSystem.SectionTargeted | backend/rag_system.py:273-288 | a section is targeted iff one of its keywords occurs in the lower-cased question |
| RagRetrieval.Meta | backend/rag_system.py:630 | a metadata value, the empty string when the key is absent |
| RagRetrieval.Head | backend/rag_system.py:630 | the first hundred characters of a text, all of it when shorter |
| RagRetrieval.SameKey | backend/rag_system.py:628-633 | documents agreeing on text head, course code and section share one identifier |
| RagRetrieval.SemanticRetriever | backend/rag_system.py:566-590 | at least 30 matches; `fetch_k` present exactly for MMR; no filter exactly when the content type is "both" |
| RagRetrieval.Gathered | backend/rag_system.py:591-597 | every gathered document comes from a query whose call did not raise |
| RagRetrieval.Cap | backend/rag_system.py:647 | the cap is at least 50 and at least three times k |
| RagRetrieval.Retrieved | backend/rag_system.py:533-647 | an error exactly when the store is not initialised |
| RagRetrieval.MergedShape | backend/rag_system.py:615-647 | at most `max(3k, 50)` documents, no two with the same identifier, each one of the direct, semantic or keyword matches |
| RagRetrieval.MergedDirectFirst | backend/rag_system.py:615-647 | the result starts with the de-duplicated direct matches |
| RagRetrieval.MergedCovers | backend/rag_system.py:626-647 | below the cap every identifier among the matches is returned |
| RagRetrieval.SemanticSearch | backend/rag_system.py:566-597 | the loops run both search types over every query, in order |
| RagRetrieval.GatherAll | backend/rag_system.py:591-597 | the inner query loop collects the gathered documents |
| RagRetrieval.FirstOfEachKey | backend/rag_system.py:626-633 | the `seen` loop keeps the first document of each identifier |
| RagRetrieval.RetrieveDocuments | backend/rag_system.py:533-647 | the method returns the specified retrieval result |
| RagRetrieval.QueryResponse | backend/rag_system.py:707-749 | an error exactly when the system is not initialised |
| RagRetrieval.DistinctSources | backend/rag_system.py:724-733 | the loop keeps each source description once, in order |
| RagRetrieval.Query | backend/rag_system.py:707-749 | the method returns the specified response |
| RagRetrieval.QuerySources | backend/rag_system.py:712-740 | at most five distinct sources, each describing a retrieved document; the count of retrieved documents, the answer and the routed content type |
| RagRetrieval.QueryError | backend/rag_system.py:742-749 | an exception during processing gives the "error" response with no sources and no documents |
| RagRetrieval.Texts | backend/rag_system.py:395 | the strings of a list of JSON strings, one per item |
| RagRetrieval.Programmes | backend/rag_system.py:395 | a list is joined, an error when an item is not a string; any other value is kept |
| RagRetrieval.DocType | backend/rag_system.py:387 | "course" exactly when the category contains "course", "program" otherwise |
| RagRetrieval.BaseMetadata | backend/rag_system.py:385-396 | the base metadata carries the document type of the category |
| RagRetrieval.Tagged | backend/rag_system.py:401-418 | the section fields are added and every other base field kept |
| RagRetrieval.SectionDocOf | backend/rag_system.py:408-421 | a kept section's document holds its formatted text, its section id, "content", its name and the base fields |
| RagRetrieval.OverviewDocs | backend/rag_system.py:399-405 | one overview document exactly when the overview text is not blank |
| RagRetrieval.LoadedDocs | backend/rag_system.py:372-423 | the file loads exactly when it, its metadata and its sections have the shapes the loader needs |
| RagRetrieval.LoadSingleJsonFile | backend/rag_system.py:372-423 | the method returns the specified documents |
| RagRetrieval.BuildDocs | backend/rag_system.py:398-423 | the overview and section loop build the file's documents |
| RagRetrieval.FileDocType | backend/rag_system.py:385-421 | every document of a file carries the base doc_type |
| RagRetrieval.LoadedDocType | backend/rag_system.py:385-421 | every loaded document says "course" exactly when the category contains "course" |
| RagRetrieval.FileDocsShape | backend/rag_system.py:398-423 | the overview comes first when present, then one document per kept section in order |
| DocumentLoader.Truthy | backend/database_document_loader.py:199 | exactly the keys whose values are truthy remain, with their values |
| DocumentLoader.CourseDoc | backend/database_document_loader.py:131-203 | a course overview has no falsy metadata value and is typed `course_overview` |
| DocumentLoader.LoadCourseDocuments | backend/database_document_loader.py:105-205 | one overview per current course row, in order, none with a falsy metadata value |
| DocumentLoader.SectionType | backend/database_document_loader.py:245 | the section name lower-cased with spaces and slashes read as underscores, character by character |
| DocumentLoader.SectionDoc | backend/database_document_loader.py:233-266 | a section document has no falsy metadata value and is typed by its name's section type |
| DocumentLoader.SectionDocsSpec | backend/database_document_loader.py:233-266 | a section gives a document exactly when its text is not empty or blank; no document comes from anything else |
| DocumentLoader.LoadSectionDocuments | backend/database_document_loader.py:207-268 | the loop builds the specified section documents |
| DocumentLoader.DetailDoc | backend/database_document_loader.py:297-355 | no falsy metadata value; `has_tuition` is present, and true, exactly when the tuition fee is not NULL |
| DocumentLoader.DetailDocsSpec | backend/database_document_loader.py:297-355 | a course gives a detail document exactly when one of the four detail columns is not NULL |
| DocumentLoader.LoadCourseDetailDocuments | backend/database_document_loader.py:270-357 | the loop builds the specified detail documents |
| DocumentLoader.NamesOf | backend/database_document_loader.py:61 | the codes of the programs table are the keys, each mapped to a name it has in some row |
| DocumentLoader.NameOf | backend/database_document_loader.py:64-66 | a known code gives its name, any other hashable code itself, and a list or dict raises |
| DocumentLoader.ProgramOverview | backend/database_document_loader.py:390-443 | an overview exists only for a dict with a hashable code, and carries that code and its name |
| DocumentLoader.FlattenSection | backend/database_document_loader.py:467-474 | the loop writes the specified lines of a dict section |
| DocumentLoader.ProgramSectionDoc | backend/database_document_loader.py:476-492 | a program section document is typed by the section's name |
| DocumentLoader.SectionValues | backend/database_document_loader.py:451-457 | each listed section's value in the file, or its default |
| DocumentLoader.ProgramSections | backend/database_document_loader.py:445-496 | the sections are built exactly when the file is a dict whose code is hashable |
| DocumentLoader.ProgramSectionsPresent | backend/database_document_loader.py:459-496 | one document per listed section whose value is truthy, and no other |
| DocumentLoader.ProgramSectionDocuments | backend/database_document_loader.py:459-496 | the loop builds the documents of the present sections in order |
| DocumentLoader.GroupedGet | backend/database_document_loader.py:529-537 | each program's list holds exactly its rows in order, and a program has a list exactly when it has a row |
| DocumentLoader.GroupedKeys | backend/database_document_loader.py:529-537 | the programs come in the order they first occur in the rows |
| DocumentLoader.GroupByProgram | backend/database_document_loader.py:529-537 | the grouping loop builds the specified groups |
| DocumentLoader.SplitByCycleFilters | backend/database_document_loader.py:550-552 | each cycle's list is exactly its rows, in order |
| DocumentLoader.LayoutOrder | backend/database_document_loader.py:541-585 | after the five header lines the three cycle blocks hold their course lines in order, one block after the other |
| DocumentLoader.CourseListOrder | backend/database_document_loader.py:541-595 | from line 6 a course list shows the second-cycle, then the first-cycle, then the third-cycle courses, one line each |
| DocumentLoader.CycleCounts | backend/database_document_loader.py:587-592 | the three cycle counts add up to at most the number of courses |
| DocumentLoader.CourseListDoc | backend/database_document_loader.py:597-606 | a course-list document carries its program code and its number of courses |
| DocumentLoader.GroupedEntries | backend/database_document_loader.py:529-537 | each group holds exactly the rows with its program code, in order |
| DocumentLoader.CourseListsSpec | backend/database_document_loader.py:498-611 | one course-list document per program, in first-occurrence order, counting that program's rows |
| DocumentLoader.LoadProgramCourseLists | backend/database_document_loader.py:498-611 | the loop writes the specified course-list documents |
| DocumentLoader.NotDictNoDocs | backend/database_document_loader.py:370-386 | a program file that is not a dict gives no document |
| DocumentLoader.DatabaseDocumentLoader.ProgramNames | backend/database_document_loader.py:56-62 | the programs table is read on the first call only; the cache then holds the names |
| DocumentLoader.DatabaseDocumentLoader.ProgramName | backend/database_document_loader.py:64-66 | the code's name through the cache, or the code itself |
| DocumentLoader.DatabaseDocumentLoader.ProgramFileDocuments | backend/database_document_loader.py:370-384 | the overview, when it could be built, then the sections |
| DocumentLoader.DatabaseDocumentLoader.LoadProgramDocuments | backend/database_document_loader.py:359-388 | nothing without a programs directory; otherwise the documents of each file in turn, an unreadable file giving none |
| DocumentLoader.DatabaseDocumentLoader.LoadAllDocuments | backend/database_document_loader.py:68-103 | course overviews, sections, details, program documents and course lists, in that order |
| LegacyRag.Shown | gemini_rag_legacy.py:177-180 | a string field is inserted as it is |
| LegacyRag.FlatValue | gemini_rag_legacy.py:151-159 | every value becomes one Chroma accepts: flat values unchanged, `None` as "", lists and dicts as their JSON text |
| LegacyRag.Flatten | gemini_rag_legacy.py:150-159 | every flattened value is one Chroma accepts |
| LegacyRag.FlattenSpec | gemini_rag_legacy.py:150-159 | the keys and their order are kept, and each key holds the flattened value of its metadata value |
| LegacyRag.FlattenMetadata | gemini_rag_legacy.py:150-159 | the loop builds the flattened metadata |
| LegacyRag.SourceDocumentNullStored | gemini_rag_legacy.py:162 | as written, `"source_document": null` stores `None` under `source_doc_filename`, a value Chroma refuses |
| LegacyRag.BaseMetadata | gemini_rag_legacy.py:150-162 | corrected: every value is flat; `source_doc_filename` is the source document's name when given as a string, the file name when absent |
| LegacyRag.BaseMetadataOther | gemini_rag_legacy.py:150-162 | every other key holds its flattened metadata value |
| LegacyRag.BaseMetadataAsWrittenAgrees | gemini_rag_legacy.py:150-162 | the shared metadata as written equals the corrected one exactly when `source_document` is absent or already flat, so for those files every result built on it holds of the program as written |
| LegacyRag.Underscored | gemini_rag_legacy.py:173 | the title lower-cased with spaces, slashes and dashes read as underscores, character by character |
| LegacyRag.SectionIdSafe | gemini_rag_legacy.py:173-174 | the id is no longer than the title and holds only lower-case word characters |
| LegacyRag.SectionIdSpec | gemini_rag_legacy.py:173-174 | the id is the title's alphanumerics and separators, in order, each mapped as the first step maps it |
| LegacyRag.SectionIdIdempotent | gemini_rag_legacy.py:173-174 | sanitising an id again changes nothing |
| LegacyRag.SectionStepSpec | gemini_rag_legacy.py:168-170 | a section gives a document exactly when its content is a non-blank string; a truthy non-string makes `.strip()` raise |
| LegacyRag.SectionTextParts | gemini_rag_legacy.py:178-181 | the embedded text is the course and section header followed by the section content |
| LegacyRag.SectionMetadata | gemini_rag_legacy.py:184-186 | the base metadata with the section title and `course_section` set, nothing else added |
| LegacyRag.BeforeAbortSpec | gemini_rag_legacy.py:168-198 | the processed sections are the longest prefix before the first section whose `.strip()` raises |
| LegacyRag.EmitSectionsSpec | gemini_rag_legacy.py:168-198 | a file's documents are those of its non-blank string sections, in order, up to the first raising section |
| LegacyRag.NoDocumentForEmptySection | gemini_rag_legacy.py:168-170 | every document comes from a section whose content is a non-blank string |
| LegacyRag.EverySectionBeforeAbortEmitted | gemini_rag_legacy.py:168-198 | every non-blank string section before the first raising one gives a document |
| LegacyRag.PrepareSections | gemini_rag_legacy.py:168-198 | the section loop builds the specified documents |
| LegacyRag.SectionDocWellFormed | gemini_rag_legacy.py:172-195 | a section document's metadata is flat, holds its title and type, and its id is the course code, '_' and the section id |
| LegacyRag.CourseOf | gemini_rag_legacy.py:145-162 | the code defaults to the file stem, the title to "N/A", and the shared metadata is flat; it uses the corrected line 162 (see Findings), which agrees with the code as written when `source_document` is absent or flat |
| LegacyRag.PrepareFile | gemini_rag_legacy.py:141-205 | one file's documents, none when it cannot be read or processed; built on the corrected line 162 |
| LegacyRag.AllDocsWellFormed | gemini_rag_legacy.py:140-205 | with the corrected line 162, every prepared document has flat metadata, its section title and type, and an id of a code, '_' and its section id |
| LegacyRag.PrepareAll | gemini_rag_legacy.py:140-205 | the file loop appends each file's documents in turn, each built on the corrected line 162 |
| LegacyRag.DuplicatesBySpec | gemini_rag_legacy.py:209-221 | a title is reported, with its codes, exactly when at least two distinct codes share it |
| LegacyRag.CodesUpToStep | gemini_rag_legacy.py:210-215 | one more document adds its code to its own title's codes only |
| LegacyRag.DuplicateTitlesBy | gemini_rag_legacy.py:209-221 | the two loops build the specified duplicate report |
| LegacyRag.GroupTitles | gemini_rag_legacy.py:208-214 | the titles come out in the order first seen, each with exactly the codes of its documents; an unhashable title or code is reported |
| LegacyRag.SharedTitles | gemini_rag_legacy.py:216-220 | the titles with at least two distinct codes, in order, each with its codes |
| LegacyRag.LoadAndPrepareCourseData | gemini_rag_legacy.py:132-229 | the prepared documents, unless the duplicate check raises on an unhashable title or code, or the warning's `', '.join(codes)` raises on a reported title with a code that is not a string |
| LegacyRag.WarnDuplicates | gemini_rag_legacy.py:222-227 | the warning loop fails exactly when some reported title has a code that is not a string |
| LegacyRag.ToEmbedSpec | gemini_rag_legacy.py:318-354 | into an empty collection or after a failed lookup all documents are embedded; otherwise exactly those whose id is not stored; order kept |
| LegacyRag.BatchesCount | gemini_rag_legacy.py:364-372 | the batch loop makes `(total + 49) // 50` batches |
| LegacyRag.LegacyVectorStore.Count | gemini_rag_legacy.py:318 | the number of stored documents |
| LegacyRag.LegacyVectorStore.ExistingIds | gemini_rag_legacy.py:323-324 | the wanted ids the collection holds |
| LegacyRag.LegacyVectorStore.AddInBatches | gemini_rag_legacy.py:364-383 | every new document is appended in order, in batches of 50 |
| LegacyRag.LegacyVectorStore.BuildStore | gemini_rag_legacy.py:307-391 | the documents to embed are appended to the collection in order, in batches of 50 |
| LegacyRag.SkipExisting | gemini_rag_legacy.py:328-340 | the kept ids, contents and metadatas stay aligned and skip exactly the stored ids |
| LegacyRag.FormatChatHistory | gemini_rag_legacy.py:656-665 | the loop writes the specified history text |
| LegacyRag.ChatHistoryLines | gemini_rag_legacy.py:656-665 | without newlines in the texts, the history splits into one "Role: text" line per entry, in order |
| LegacyRag.ChatHistoryEmpty | gemini_rag_legacy.py:658-659 | the placeholder appears exactly when there is no history |
| LegacyRag.QueryCourseCode | gemini_rag_legacy.py:868-870 | a found code has 2-3 letters and 3-4 digits; none is found iff no position matches |
| LegacyRag.LegacyCodeIsCode | gemini_rag_legacy.py:868-870 | the leftmost match has the code's shape |
| LegacyRag.CourseContextSpec | gemini_rag_legacy.py:875-886 | at most eight results, all from the search, the named course's first five leading |
| LegacyRag.SplitByCourse | gemini_rag_legacy.py:879-883 | the loop splits the results into the named course's and the others', keeping order |
| LegacyRag.RankForCourse | gemini_rag_legacy.py:875-886 | the ranking step gives the specified context |
| Orchestrator.Next | scraper/database_scraper_orchestrator.py:172-194 | each finished phase hands over to the phase right after it |
| Orchestrator.PhaseForSpec | scraper/database_scraper_orchestrator.py:265-277 | each resume phase characterised by the record counts and the pending pages alone, both directions |
| Orchestrator.ResumePhaseSpec | scraper/database_scraper_orchestrator.py:241-286 | a failed read starts over; a later phase needs recorded URLs, downloads or pending pages |
| Orchestrator.PhasesFromSpec | scraper/database_scraper_orchestrator.py:172-194 | from a phase, exactly the phases up to content processing run, each once, in pipeline order |
| Orchestrator.HtmlJobSpec | scraper/database_scraper_orchestrator.py:630-633 | a page is a syllabus job exactly when its URL type is "syllabus", a course-page job otherwise |
| Orchestrator.MapPartition | scraper/database_scraper_orchestrator.py:644-652 | splitting the pages by type keeps every job, as often as before |
| Orchestrator.PageJobTypes | scraper/database_scraper_orchestrator.py:644-652 | every job of a split part carries that part's content type |
| Orchestrator.OrderRank | scraper/database_scraper_orchestrator.py:654-685 | the PDFs come first, then the syllabus pages, then the course pages |
| Orchestrator.ProcessingOrderSpec | scraper/database_scraper_orchestrator.py:620-685 | the processing order is a permutation of the registered jobs, sorted by content type |
| Orchestrator.SplitPages | scraper/database_scraper_orchestrator.py:640-652 | the loop splits the pages into syllabus and course-page jobs, keeping order |
| Orchestrator.TallyCount | scraper/database_scraper_orchestrator.py:795-800 | the success count is the number of jobs that succeed |
| Orchestrator.TallyAppend | scraper/database_scraper_orchestrator.py:654-685 | tallies of consecutive parts add up, so the phases' totals are the whole list's |
| Orchestrator.Pipeline.constructor | scraper/database_scraper_orchestrator.py:132-157 | a fresh pipeline starts at URL extraction with zero statistics and no checkpoint |
| Orchestrator.Pipeline.LoadProgress | scraper/database_scraper_orchestrator.py:238-286 | the phase is the resume phase; the counts are recorded when they could be read; nothing else changes |
| Orchestrator.Pipeline.SaveProgress | scraper/database_scraper_orchestrator.py:288-298 | a checkpoint is recorded exactly when resuming is on; nothing else changes |
| Orchestrator.Pipeline.RunCompletePipeline | scraper/database_scraper_orchestrator.py:159-210 | the phases from the starting phase (the resume phase when resuming) run in order and the pipeline ends completed; each count is the one its phase reported if that phase ran, else the recorded one after a successful resume, else unchanged; the cost is the processing tally if processing ran on some file; the processed count is the finalisation's count of current courses when that query succeeds; the checkpoint is set when resuming and some phase ran, and otherwise unchanged |
| Orchestrator.Pipeline.RunPhases | scraper/database_scraper_orchestrator.py:172-194 | exactly the phases from the current one run and the pipeline ends completed; each phase that runs (`Runs`) records its statistic (URLs found at :309, downloads at :399, pages scraped at :553, processed count and cost at :687-689) and the others keep their values; a checkpoint is taken when resuming and some phase ran |
| Orchestrator.Pipeline.RunCollectionPhases | scraper/database_scraper_orchestrator.py:172-188 | URL extraction, download and scraping run from the current phase on, in order, and the pipeline stops at content processing (or stays completed); each one that runs records its statistic; the processed count and cost are untouched |
| Orchestrator.Pipeline.RunPhase | scraper/database_scraper_orchestrator.py:172-188 | a collection phase runs only when the pipeline is at it; it then sets its own statistic (:309, :399 or :553), hands over to the next phase and takes a checkpoint when resuming; otherwise nothing changes |
| Orchestrator.Pipeline.ContentPhase | scraper/database_scraper_orchestrator.py:190-194 | processing runs only when the pipeline is at it; it then records the processed count and cost as `ContentRecorded` says, completes the pipeline and takes a checkpoint when resuming; the collection statistics are untouched |
| Orchestrator.PhasesFromMembers | scraper/database_scraper_orchestrator.py:172-194 | phase `p` is in the run from `start` exactly when `p` is a real phase no earlier than `start` (`Runs`), both directions |
| Orchestrator.PhasesFromSplit | scraper/database_scraper_orchestrator.py:172-194 | a run is the collection phases from its start followed by content processing, unless the pipeline is already completed |
| Orchestrator.CollectionListed | scraper/database_scraper_orchestrator.py:172-188 | from URL extraction, download or scraping, the collection phases run are the remaining ones of the three, in order |
| Orchestrator.Pipeline.ContentStep | scraper/database_scraper_orchestrator.py:566-703 | the processing phase sets the processed count and cost to the tally when some file is usable and leaves them otherwise; the phase and the other counts are untouched |
| Orchestrator.Pipeline.Finalize | scraper/database_scraper_orchestrator.py:816-884 | the processed count becomes the number of current courses when the query succeeds; nothing else changes |
| Orchestrator.Pipeline.ProcessFileBatch | scraper/database_scraper_orchestrator.py:766-814 | the success count and cost over the files, in consecutive batches, with a checkpoint after them when resuming |
| Orchestrator.Pipeline.ProcessInOrder | scraper/database_scraper_orchestrator.py:654-685 | the totals over PDFs, then syllabus pages, then course pages; the phase and the other statistics are untouched; the checkpoint is set when resuming and some job was processed, and otherwise unchanged |
| Orchestrator.Pipeline.RunContentProcessing | scraper/database_scraper_orchestrator.py:566-703 | only existing files above 1024 (PDF) or 100 (page) bytes; nothing changes without files; otherwise the jobs are registered, processed in type order, the processed count and cost set to the tally and a checkpoint taken when resuming; the phase and the other counts are untouched |
| Batching.BatchesCover | scraper/database_scraper_orchestrator.py:780-781 | the batches run from the start to the end without gaps, each non-empty and at most the batch size |
| Batching.BatchesOrdered | scraper/database_scraper_orchestrator.py:780-781 | no two batches overlap, each ending before a later one starts |
| Batching.BatchOf | scraper/database_scraper_orchestrator.py:780-781 | every index is in exactly one batch |
| Batching.BatchSlices | gemini_rag_legacy.py:364-368 | the batch slices, in order, are exactly the list |
| Filtering.StrippedLines | utils/url_keyword_filter.py:68 | every URL is a stripped non-empty line, every non-blank line appears stripped, and there are no more URLs than lines |
| Filtering.StrippedLinesStartingWith | scraper/keyword_filter.py:217 | every URL starts with the prefix and is stripped; every line starting with it appears stripped |
| Filtering.FoundSubstrings | utils/url_keyword_filter.py:106-113 | only listed keywords are found |
| Filtering.VerbatimKeywordFound | utils/url_keyword_filter.py:106-113 | a keyword the text contains exactly as listed is found |
| Filtering.FoundSubstringsIgnoreCase | utils/url_keyword_filter.py:106-113 | the case of the page text does not change what is found |
| Filtering.NotInsideWord | scraper/keyword_filter.py:119-125 | with the word-boundary pattern a keyword is never found strictly inside a longer word |
| Filtering.WordBetweenSpaces | scraper/keyword_filter.py:119-125 | a keyword between two spaces is found |
| Filtering.KeepMatching | utils/url_keyword_filter.py:146-152 | the loop keeps, in order, the elements passing the test |
| Filtering.PartitionFiles | scraper/keyword_filter.py:187-209 | each file is kept when it passes and removed otherwise, in order; removed files are deleted unless it is a dry run |
| Filtering.PartitionExact | scraper/keyword_filter.py:187-209 | every file is kept or removed, never both, and the two lists together are a permutation of the files |

## Left out

- Browser, HTTP, PDF-text extraction, SQL, ORM sessions, ChromaDB and LangChain calls, and the Gemini calls (routing, query generation, answers, parsing) are not modelled. Their results enter as parameters. A failure enters as `Err` or `None` where the code catches it.
- Filesystem effects (copy, move, delete, write) become returned lists of intended operations or outcome parameters. Directory listings are input sequences.
- Threads, locks and `ThreadPoolExecutor` are not modelled; every operation runs to completion before the next one. The tallies of the orchestrator's batches do not depend on completion order, which is proved as `Orchestrator.TallyAppend`.
- Logging, `print`, `time.sleep`, progress bars and the argparse `main()` functions are left out. They decide nothing the model states.
- Case mapping, `isalnum` and the regex class `\d` are ASCII plus the Swedish letters å, ä and ö. The rest of Unicode case folding is not modelled.
- Text.IsSpace: only the six ASCII whitespace characters count. Python's `str.strip()`, `str.split()` and `\s` also treat `\x1c`-`\x1f`, `\x85`, `\xa0` and the Unicode space separators as whitespace. Those characters are kept as text by the model.
- Floating-point values (adaptive rate-limit load, processing costs, error rates, `is_standard_credits`) are not modelled as floats. Costs are integers, and credits and scores are exact decimals.
- Python's `set()` iteration order is unspecified. Wherever a set is turned into a list (`list(set(codes))`), the model uses first-occurrence order.
- Python treats `1`, `1.0` and `True` as the same dictionary key. The model compares JSON values structurally.
- The `str()` of JSON values and `json.dumps` are parameters (`show`, `dumps`, `Render`). Their exact text is not modelled.
- GeminiProcessing.ValidateCredits: the credits are taken as text. A number handed in is read through its `str()` form, which is not modelled, and `Decimal` is an exact mantissa and scale.
- HtmlScraper: noise removal and main-area selection with BeautifulSoup selectors (scraper/database_html_scraper.py:178-272) are not modelled. The main element is an input tree.
- SyllabusPdfDownloader: `download_all_pdfs` (thread pool, HTTP and counting) is not modelled. Only the output path of a download is.
- GuUrlExtractor.ExtractCourseUrls: links whose `href` is missing are not modelled. Every link is a string.
- DocumentChunks: the text splitter of `split_dense_sections` is a parameter. Only the metadata of the split pieces is modelled.
- DocumentChunks.ExtractMetadata: the metadata regexes (course footer, English-only course line, field of education, labelled and plain department, programme list) are not modelled. What each one matched enters as a `MetadataMatches` parameter, and the function models only how the matches are chosen, stripped and defaulted.
- MergeCourseData.AddAdditionalSpec: appending a non-string 'Additional information' value with an f-string is not modelled. It gives `Err` instead of the string Python would build.
- MergeCourseData.MergeCourseData: a failing `shutil.copy2` is not modelled. The error count covers only combine failures.
- LegacyRag.LegacyVectorStore.BuildStore: exceptions of `collection.add` and duplicate ids within one call are not modelled. Only the failure of the existing-id lookup is a parameter.
- LegacyRag.CourseOf: built on the corrected line 162 (see Findings). It describes the code as written only when `source_document` is absent or already flat (`LegacyRag.BaseMetadataAsWrittenAgrees`). A null, list or dict `source_document` is stored unflattened by the code as written, and this member does not describe that.
- LegacyRag.PrepareFile: each document carries the corrected shared metadata of `LegacyRag.CourseOf`, with the same limit.
- LegacyRag.PrepareAll: each file's documents carry the corrected shared metadata of `LegacyRag.CourseOf`, with the same limit.
- LegacyRag.AllDocsWellFormed: the flat-metadata promise holds for the corrected line 162. The code as written meets it only for files whose `source_document` is absent or flat.
- LegacyRag.LoadAndPrepareCourseData: the documents it returns carry the corrected shared metadata of `LegacyRag.CourseOf`, with the same limit.
- LegacyRag: the routing branches of `run_chatbot` before the course-code rule, and the metadata conversion in `find_relevant_documents`, are not modelled.
- Orchestrator: the bodies of the URL-extraction, download and scraping phases are not modelled. What each reports (URLs found, PDFs downloaded, pages scraped, the finalisation's count of current courses) enters in `PhaseResults`. The exceptions these phases raise, which end the run, and the error counter are not modelled either.
- Orchestrator.Pipeline.RunPhases, Orchestrator.Pipeline.RunCompletePipeline: a `batch_size` of 0 is excluded by the precondition, because the batched phases raise on `range(0, n, 0)`.
- Orchestrator.Pipeline.ProcessFileBatch: a `batch_size` of 0 is excluded by its precondition, because `range(0, n, 0)` raises.
- CleanDuplicates.FindDuplicateCourses, CleanDuplicates.BuildCompleteReplacementMap: each metadata value of `CleanDuplicates.Metadata` is a string or absent. JSON `null` and non-string values are not modelled. In the code, a null `course_title` raises `AttributeError` at clean_duplicate_courses.py:169. A null `course_code` makes the code `None` instead of the file stem at :140 and :170. A `sections` value that is not an object raises at :77.
- RagRetrieval: the content formatters `_format_overview_content` and `_format_section_content` are parameters. Which documents the store returns for a query is also a parameter.

## Findings

| source | as written | input that shows it | evidently intended | confidence | as-written member | corrected member |
|---|---|---|---|---|---|---|
| gemini_rag_legacy.py:162 | `source_doc_filename` is set to `metadata.get('source_document', file_path.name)` after flattening, so a `None` there is stored as it is | a course file whose metadata holds `"source_document": null` | the value flattened like every other metadata value, so that Chroma accepts the metadata | low-medium, not executed | LegacyRag.SourceDocumentNullStored | LegacyRag.BaseMetadata |
