/**
 * The HTML scraper's pure core: course codes from page URLs, safe file names, the conversion of
 * a page's main element to markdown, the page wrappers, the output file choice and the retry
 * loop of scraping one URL. The browser and the parsed page are inputs: an element tree and the
 * outcome of each fetch attempt.
 */
module HtmlScraper {
  import opened Wrappers
  import opened Text
  import opened Scan
  import opened Seqs
  import opened Codes
  import opened Paths
  import opened UrlPatterns

  const MaxRetryAttempts: nat := 3

  // ----- course codes from URLs -----

  /** The prefix alternatives `dit|msg|mma|msa|tia|lt` of the URL patterns, in their order. */
  const HtmlPrefixes: seq<String> := ["dit", "msg", "mma", "msa", "tia", "lt"]

  lemma HtmlPrefixesAreShortWords()
    ensures forall p :: p in HtmlPrefixes ==> IsShortLowerWord(p)
  {
  }

  /**
   * `-((?:p1|p2|...)\d+)` at `i`, ignoring case, followed by what `tail` accepts at the end of
   * the digits. `\d+` is greedy and every tail starts with a non-digit, so the whole digit run
   * is taken.
   */
  function DashCodeAt(s: String, i: nat, ps: seq<String>, tail: (String, nat) -> bool): (r: Option<Hit>)
    ensures r.Some? ==> i + 1 < r.value.end <= |s| && r.value.group == s[i + 1..(r.value.end)]
    ensures r.Some? && (forall p :: p in ps ==> IsShortLowerWord(p)) ==> IsAsciiAlnum(r.value.group) && r.value.group != []
  {
    if i < |s| && s[i] == '-' then
      match PrefixAt(s, i + 1, ps)
      case None => None
      case Some(n) =>
        var d := DigitRun(s, i + 1 + n);
        var e := i + 1 + n + d;
        if 1 <= d && tail(s, e) then
          DashCodeAlnum(s, i, n, d, ps);
          Some(Hit(e, s[i + 1..e]))
        else None
    else None
  }

  lemma DashCodeAlnum(s: String, i: nat, n: nat, d: nat, ps: seq<String>)
    requires PrefixAt(s, i + 1, ps) == Some(n) && d == DigitRun(s, i + 1 + n)
    ensures (forall p :: p in ps ==> IsShortLowerWord(p)) ==> IsAsciiAlnum(s[i + 1..i + 1 + n + d])
  {
    if forall p :: p in ps ==> IsShortLowerWord(p) {
      var pre :| pre in ps && |pre| == n && WordAtIgnoringCase(s, i + 1, pre);
      var g := s[i + 1..i + 1 + n + d];
      forall k | 0 <= k < |g| ensures IsAsciiLetter(g[k]) || IsDigit(g[k]) {
        if k < n {
          assert IsAsciiLower(pre[k]);
        }
      }
    }
  }

  predicate SyllabusSlashAt(s: String, e: nat) { WordAtIgnoringCase(s, e, "/syllabus/") }

  predicate SlashAt(s: String, e: nat) { e < |s| && s[e] == '/' }

  /** `-(dit\d+|...)/syllabus/` */
  function SyllabusCodeAt(s: String, i: nat): (r: Option<Hit>) { DashCodeAt(s, i, HtmlPrefixes, SyllabusSlashAt) }

  /** `-(dit\d+|...)$` */
  function EndCodeAt(s: String, i: nat): (r: Option<Hit>) { DashCodeAt(s, i, HtmlPrefixes, EndAt) }

  /** `-(dit\d+|...)/` */
  function SlashCodeAt(s: String, i: nat): (r: Option<Hit>) { DashCodeAt(s, i, HtmlPrefixes, SlashAt) }

  /** `\b([A-Z]{2,3}\d{3,4})\b`, ignoring case. */
  function BareCodeAt(s: String, i: nat): (r: Option<Hit>)
    ensures r.Some? ==> IsAsciiAlnum(r.value.group) && r.value.group != []
  {
    var r := CodeAt(CodeShape(2, 3, 3, 4, true, true), s, i);
    if r.Some? then
      CodeAtIsCode(CodeShape(2, 3, 3, 4, true, true), s, i);
      AnyCaseCodeIsAlnum(r.value.group, CodeShape(2, 3, 3, 4, true, true));
      r
    else r
  }

  lemma DashSearchIsCode(url: String, m: Matcher, tail: (String, nat) -> bool)
    requires forall j :: m(url, j) == DashCodeAt(url, j, HtmlPrefixes, tail)
    requires Search(url, m).Some?
    ensures IsUpperCode(Upper(Search(url, m).value.group))
  {
    var j :| 0 <= j <= |url| && m(url, j) == Search(url, m);
    HtmlPrefixesAreShortWords();
    assert DashCodeAt(url, j, HtmlPrefixes, tail).Some?;
    UpperOfAsciiAlnum(m(url, j).value.group);
  }

  lemma BareSearchIsCode(url: String)
    requires Search(url, BareCodeAt).Some?
    ensures IsUpperCode(Upper(Search(url, BareCodeAt).value.group))
  {
    var j :| 0 <= j <= |url| && BareCodeAt(url, j) == Search(url, BareCodeAt);
    UpperOfAsciiAlnum(BareCodeAt(url, j).value.group);
  }

  /** Every character of a code is a letter of its shape or a digit. */
  lemma AnyCaseCodeIsAlnum(g: String, shape: CodeShape)
    requires IsCode(shape, g) && 2 <= shape.minLetters
    ensures IsAsciiAlnum(g) && g != []
  {
    var n := Run(g, 0, (x: char) => IsCodeLetter(shape, x));
    forall k | 0 <= k < |g| ensures IsAsciiLetter(g[k]) || IsDigit(g[k]) {
      if k < n {
        assert IsCodeLetter(shape, g[k]);
      }
    }
  }

  /**
   * `extract_course_code_from_url`: the four patterns in order, the first that matches anywhere
   * giving its group upper-cased; `None` when none matches.
   */
  function ExtractCourseCodeFromUrl(url: String): (r: Option<String>)
    ensures r.None? <==> Search(url, SyllabusCodeAt).None? && Search(url, EndCodeAt).None? &&
                         Search(url, SlashCodeAt).None? && Search(url, BareCodeAt).None?
    ensures r.Some? ==> IsUpperCode(r.value)
    ensures Search(url, SyllabusCodeAt).Some? ==> r == Some(Upper(Search(url, SyllabusCodeAt).value.group))
    ensures Search(url, SyllabusCodeAt).None? && Search(url, EndCodeAt).Some? ==>
              r == Some(Upper(Search(url, EndCodeAt).value.group))
  {
    if Search(url, SyllabusCodeAt).Some? then
      DashSearchIsCode(url, SyllabusCodeAt, SyllabusSlashAt);
      Some(Upper(Search(url, SyllabusCodeAt).value.group))
    else if Search(url, EndCodeAt).Some? then
      DashSearchIsCode(url, EndCodeAt, EndAt);
      Some(Upper(Search(url, EndCodeAt).value.group))
    else if Search(url, SlashCodeAt).Some? then
      DashSearchIsCode(url, SlashCodeAt, SlashAt);
      Some(Upper(Search(url, SlashCodeAt).value.group))
    else if Search(url, BareCodeAt).Some? then
      BareSearchIsCode(url);
      Some(Upper(Search(url, BareCodeAt).value.group))
    else None
  }

  // ----- whitespace runs -----

  /** `re.sub(r'\s+', rep, s)`: every maximal run of whitespace becomes one `rep`. */
  function CollapseSpaces(s: String, rep: char): (r: String)
    ensures !IsSpace(rep) ==> forall k :: 0 <= k < |r| ==> !IsSpace(r[k])
    ensures forall k :: 0 <= k < |r| ==> r[k] == rep || r[k] in s
    ensures |r| <= |s|
    ensures (forall k :: 0 <= k < |s| ==> !IsSpace(s[k])) ==> r == s
    decreases |s|
  {
    if s == [] then []
    else if IsSpace(s[0]) then
      var n := SpaceRun(s, 0);
      [rep] + CollapseSpaces(s[n..], rep)
    else
      var rest := CollapseSpaces(s[1..], rep);
      assert forall k :: 0 <= k < |rest| ==> rest[k] == rep || rest[k] in s;
      [s[0]] + rest
  }

  // ----- safe file names -----

  /** The characters `<>:/\|?*` and the double quote, which are removed from file names. */
  predicate IsForbiddenInName(c: char) {
    c == '<' || c == '>' || c == ':' || c == '\U{22}' || c == '/' || c == '\\' || c == '|' || c == '?' || c == '*'
  }

  predicate IsSafeName(name: String) {
    |name| <= 100 && forall k :: 0 <= k < |name| ==> !IsForbiddenInName(name[k]) && !IsSpace(name[k])
  }

  /**
   * `safe_filename`: forbidden characters removed, whitespace runs turned into one '_', cut to
   * 100 characters.
   */
  function SafeFilename(text: String): (name: String)
    ensures IsSafeName(name)
    ensures forall k :: 0 <= k < |name| ==> name[k] == '_' || name[k] in text
  {
    var kept := Filter(text, (c: char) => !IsForbiddenInName(c));
    var spaced := CollapseSpaces(kept, '_');
    Take(spaced, 100)
  }

  /** A safe name is its own safe file name, so the conversion is idempotent. */
  lemma SafeFilenameOfSafe(name: String)
    requires IsSafeName(name)
    ensures SafeFilename(name) == name
  {
    FilterKeepsAll(name, (c: char) => !IsForbiddenInName(c));
  }

  lemma SafeFilenameIdempotent(text: String)
    ensures SafeFilename(SafeFilename(text)) == SafeFilename(text)
  {
    SafeFilenameOfSafe(SafeFilename(text));
  }

  lemma {:induction false} FilterKeepsAll<T>(s: seq<T>, p: T -> bool)
    requires forall k :: 0 <= k < |s| ==> p(s[k])
    ensures Filter(s, p) == s
    decreases |s|
  {
    if s != [] {
      FilterKeepsAll(s[1..], p);
    }
  }

  // ----- markdown -----

  /** The tag names the conversion distinguishes; every other name is `Other`. */
  datatype Tag = Heading(level: nat) | P | Ul | Ol | Li | Table | Tr | Td | Th | Strong | B | Em | I
               | Div | Section | Article | Other(name: String)

  /** A parsed page: elements with their tag, and text. */
  datatype Node = Element(tag: Tag, children: seq<Node>) | TextNode(text: String)

  /** `get_text()`: the text of every descendant, in document order. */
  function GetText(n: Node): String
    decreases n, 1
  {
    match n
    case TextNode(t) => t
    case Element(_, _) => TextFrom(n, 0)
  }

  function TextFrom(n: Node, i: nat): String
    requires n.Element?
    decreases n, 0, |n.children| - i
  {
    if i >= |n.children| then [] else GetText(n.children[i]) + TextFrom(n, i + 1)
  }

  /** `find_all(tags)`: the descendant elements with one of `tags`, in document order. */
  function FindAll(n: Node, tags: set<Tag>): (r: seq<Node>)
    ensures forall k :: 0 <= k < |r| ==> r[k].Element? && r[k].tag in tags
    decreases n, 1
  {
    match n
    case TextNode(_) => []
    case Element(_, _) => FindAllFrom(n, 0, tags)
  }

  function FindAllFrom(n: Node, i: nat, tags: set<Tag>): (r: seq<Node>)
    requires n.Element?
    ensures forall k :: 0 <= k < |r| ==> r[k].Element? && r[k].tag in tags
    decreases n, 0, |n.children| - i
  {
    if i >= |n.children| then []
    else
      var c := n.children[i];
      (if c.Element? && c.tag in tags then [c] else []) + FindAll(c, tags) + FindAllFrom(n, i + 1, tags)
  }

  /** `re.sub(r'\s+', ' ', text).strip()` */
  function Clean(text: String): String { Strip(CollapseSpaces(text, ' ')) }

  /** `#` repeated `k` times. */
  function Hashes(k: nat): (h: String)
    ensures |h| == k && forall j :: 0 <= j < k ==> h[j] == '#'
  {
    seq(k, _ => '#')
  }

  /** The heading level of `h1` ... `h6`, 0 for every other tag. */
  function HeadingLevel(tag: Tag): (k: nat)
    ensures k <= 6
    ensures k > 0 <==> tag.Heading? && 1 <= tag.level <= 6
  {
    if tag.Heading? && 1 <= tag.level <= 6 then tag.level else 0
  }

  /** The lines one list contributes: `- item` for every non-empty `li` below it. */
  function ListLines(items: seq<Node>): (lines: seq<String>)
    ensures forall k :: 0 <= k < |lines| ==> StartsWith(lines[k], "- ")
  {
    if items == [] then []
    else
      var rest := ListLines(items[1..]);
      var t := Strip(GetText(items[0]));
      var line := "- " + Clean(t);
      BulletLine(Clean(t));
      LinesStartWith(if t != [] then [line] else [], rest, "- ");
      (if t != [] then [line] else []) + rest
  }

  lemma BulletLine(x: String)
    ensures StartsWith("- " + x, "- ")
  {
    assert ("- " + x)[..2] == "- ";
  }

  /** Two runs of lines that all start with `p` make one. */
  lemma LinesStartWith(a: seq<String>, b: seq<String>, p: String)
    requires forall k :: 0 <= k < |a| ==> StartsWith(a[k], p)
    requires forall k :: 0 <= k < |b| ==> StartsWith(b[k], p)
    ensures forall k :: 0 <= k < |a + b| ==> StartsWith((a + b)[k], p)
  {
    forall k | 0 <= k < |a + b| ensures StartsWith((a + b)[k], p) {
      if k >= |a| { assert (a + b)[k] == b[k - |a|]; }
    }
  }

  /** The lines one table contributes after its `**Table:**` line: one per row with cells. */
  function RowLines(rows: seq<Node>): (lines: seq<String>)
    decreases |rows|
  {
    if rows == [] then []
    else
      var cells := FindAll(rows[0], {Td, Th});
      var text := Join(seq(|cells|, k requires 0 <= k < |cells| => Strip(GetText(cells[k]))), " | ");
      (if cells != [] && Strip(text) != [] then ["| " + text + " |"] else []) + RowLines(rows[1..])
  }

  /** The markdown lines of one child of the element being converted. */
  function ElementLines(c: Node): seq<String>
    decreases c, 4
  {
    match c
    case TextNode(text) =>
      var t := Strip(text);
      if t != [] && |Clean(t)| > 3 then [Clean(t)] else []
    case Element(_, _) => TagLines(c)
  }

  /** The markdown lines of a child element, chosen by its tag. */
  function TagLines(c: Node): seq<String>
    requires c.Element?
    decreases c, 3
  {
    var tag := c.tag;
    var t := Strip(GetText(c));
    if t == [] then []
    else if HeadingLevel(tag) > 0 then [Hashes(HeadingLevel(tag)) + " " + t]
    else if tag == P then (if Clean(t) != [] then [Clean(t)] else [])
    else if tag == Ul || tag == Ol then ListLines(FindAll(c, {Li}))
    else if tag == Table then ["\n**Table:**"] + RowLines(FindAll(c, {Tr}))
    else if tag == Strong || tag == B then ["**" + t + "**"]
    else if tag == Em || tag == I then ["*" + t + "*"]
    else if tag == Div || tag == Section || tag == Article then
      var nested := HtmlToMarkdown(c);
      if Strip(nested) != [] then [nested] else []
    else if Clean(t) != [] && |Clean(t)| > 3 then [Clean(t)]
    else []
  }

  /** The lines of the children of `n` from the `i`-th on. */
  function ChildLines(n: Node, i: nat): seq<String>
    requires n.Element?
    decreases n, 1, |n.children| - i
  {
    if i >= |n.children| then [] else ElementLines(n.children[i]) + ChildLines(n, i + 1)
  }

  predicate IsNonBlank(line: String) { !IsBlank(line) }

  /**
   * `html_to_markdown`: the non-blank lines joined by blank lines, runs of three or more
   * newlines shortened to two, stripped.
   */
  function HtmlToMarkdown(n: Node): String
    decreases n, 2
  {
    match n
    case TextNode(_) => []
    case Element(_, _) => FinishMarkdown(ChildLines(n, 0))
  }

  function FinishMarkdown(lines: seq<String>): String {
    Strip(CollapseNewlines(Join(Filter(lines, IsNonBlank), "\n\n")))
  }

  /** The loop of `html_to_markdown` over the children, appending each child's lines. */
  method CollectLines(n: Node) returns (lines: seq<String>)
    requires n.Element?
    ensures lines == ChildLines(n, 0)
  {
    lines := [];
    var i := 0;
    while i < |n.children|
      invariant 0 <= i <= |n.children|
      invariant lines + ChildLines(n, i) == ChildLines(n, 0)
    {
      ChildLinesStep(n, i);
      lines := lines + ElementLines(n.children[i]);
      i := i + 1;
    }
  }

  lemma ChildLinesStep(n: Node, i: nat)
    requires n.Element? && i < |n.children|
    ensures ChildLines(n, i) == ElementLines(n.children[i]) + ChildLines(n, i + 1)
  {
  }

  /** No three newlines in a row. */
  predicate NoTripleNewline(s: String) {
    forall k :: 0 <= k < |s| - 2 ==> !(s[k] == '\n' && s[k + 1] == '\n' && s[k + 2] == '\n')
  }

  predicate IsNewline(c: char) { c == '\n' }

  /** `re.sub(r'\n{3,}', '\n\n', s)`: every run of three or more newlines becomes two. */
  function CollapseNewlines(s: String): (r: String)
    ensures NoTripleNewline(r)
    ensures r != [] ==> s != [] && (r[0] == '\n' <==> s[0] == '\n')
    ensures s != [] ==> r != []
    decreases |s|
  {
    if s == [] then []
    else
      var n := Run(s, 0, IsNewline);
      if n == 0 then
        var rest := CollapseNewlines(s[1..]);
        [s[0]] + rest
      else
        var rest := CollapseNewlines(s[n..]);
        assert n < |s| ==> s[n..][0] != '\n';
        var head := if n >= 3 then "\n\n" else s[..n];
        assert |head| <= 2 && forall k :: 0 <= k < |head| ==> head[k] == '\n';
        head + rest
  }

  /** A slice of a string without three newlines in a row has none either. */
  lemma SliceNoTriple(s: String, a: nat, b: nat)
    requires a <= b <= |s| && NoTripleNewline(s)
    ensures NoTripleNewline(s[a..b])
  {
    var t := s[a..b];
    forall k | 0 <= k < |t| - 2 ensures !(t[k] == '\n' && t[k + 1] == '\n' && t[k + 2] == '\n') {
      assert t[k] == s[a + k] && t[k + 1] == s[a + k + 1] && t[k + 2] == s[a + k + 2];
    }
  }

  /** The markdown is stripped and never holds three newlines in a row. */
  lemma MarkdownShape(lines: seq<String>)
    ensures var md := FinishMarkdown(lines);
      Strip(md) == md && NoTripleNewline(md)
  {
    CollapsedStripShape(Join(Filter(lines, IsNonBlank), "\n\n"));
  }

  lemma CollapsedStripShape(s: String)
    ensures Strip(Strip(CollapseNewlines(s))) == Strip(CollapseNewlines(s)) && NoTripleNewline(Strip(CollapseNewlines(s)))
  {
    var c := CollapseNewlines(s);
    var off := StripIsSlice(c);
    SliceNoTriple(c, off, off + |Strip(c)|);
    StripIdempotent(c);
  }

  /** A child whose text is blank contributes nothing. */
  lemma BlankElementSkipped(c: Node)
    requires c.Element? && IsBlank(GetText(c))
    ensures ElementLines(c) == []
  {
    assert ElementLines(c) == TagLines(c);
  }

  /** An `h1` ... `h6` child with text becomes that many '#', a space and the stripped text. */
  lemma HeadingLine(c: Node)
    requires c.Element? && HeadingLevel(c.tag) > 0 && !IsBlank(GetText(c))
    ensures ElementLines(c) == [Hashes(HeadingLevel(c.tag)) + " " + Strip(GetText(c))]
    ensures c.tag == Heading(HeadingLevel(c.tag))
  {
    assert ElementLines(c) == TagLines(c);
  }

  /** A list contributes only `- item` lines. */
  lemma ListItemLines(c: Node)
    requires c.Element? && (c.tag == Ul || c.tag == Ol)
    ensures forall k :: 0 <= k < |ElementLines(c)| ==> StartsWith(ElementLines(c)[k], "- ")
  {
    assert ElementLines(c) == TagLines(c);
  }

  // ----- page wrappers -----

  const SyllabusTitle: String := "# Course Syllabus"
  const CourseTitle: String := "# Course Information"
  const NoContent: String := "No content could be extracted from this page."

  function PageHeader(title: String, url: String): String { title + "\n\nSource: " + url + "\n\n" }

  /** The page text: the header, then the markdown, or the fixed placeholder when there is none. */
  function PageText(title: String, url: String, markdown: String): (page: String) {
    PageHeader(title, url) + (if markdown != [] then markdown else NoContent)
  }

  lemma PageTextShape(title: String, url: String, markdown: String)
    ensures var page := PageText(title, url, markdown);
      StartsWith(page, PageHeader(title, url)) &&
      page[|PageHeader(title, url)|..] == if markdown != [] then markdown else NoContent
  {
    var h := PageHeader(title, url);
    var page := PageText(title, url, markdown);
    assert page[..|h|] == h;
  }

  /** `parse_syllabus_page` on the main content element. */
  function ParseSyllabusPage(main: Node, url: String): String { PageText(SyllabusTitle, url, HtmlToMarkdown(main)) }

  /** `parse_course_page` on the main content element. */
  function ParseCoursePage(main: Node, url: String): String { PageText(CourseTitle, url, HtmlToMarkdown(main)) }

  /** Syllabus URLs are parsed as syllabus pages, all others as course pages. */
  function PageFor(url: String, main: Node): (page: String) {
    if Contains(url, "/syllabus/") then ParseSyllabusPage(main, url) else ParseCoursePage(main, url)
  }

  lemma PageForTitle(url: String, main: Node)
    ensures Contains(url, "/syllabus/") ==> StartsWith(PageFor(url, main), PageHeader(SyllabusTitle, url))
    ensures !Contains(url, "/syllabus/") ==> StartsWith(PageFor(url, main), PageHeader(CourseTitle, url))
  {
    PageTextShape(SyllabusTitle, url, HtmlToMarkdown(main));
    PageTextShape(CourseTitle, url, HtmlToMarkdown(main));
  }

  /**
   * A page with nothing to extract still passes the "more than 50 characters" test, because the
   * placeholder text alone is longer than that: the retry loop never retries an empty page.
   */
  lemma PlaceholderPassesContentCheck(title: String, url: String)
    requires title != [] && !IsSpace(title[0])
    ensures |Strip(PageText(title, url, []))| > 50
  {
    var page := PageText(title, url, []);
    assert page[|page| - 1] == '.';
    StripUnpadded(page);
  }

  // ----- output files -----

  /** The ending of the output file: `_syllabus.md` for syllabus URLs, `_course.md` for the others. */
  function FileSuffix(url: String): String {
    (if Contains(url, "/syllabus/") then "_syllabus" else "_course") + ".md"
  }

  /** The safe course code and the ending hold no '/'. */
  lemma OutputNamePartsHaveNoSlash(url: String, courseCode: String)
    ensures '/' !in SafeFilename(courseCode) && '/' !in FileSuffix(url)
  {
    var safe := SafeFilename(courseCode);
    forall k | 0 <= k < |safe| ensures safe[k] != '/' {
      assert !IsForbiddenInName(safe[k]);
    }
  }

  /** A name without '/' joined onto a directory starts with the directory and is the base name of the path. */
  lemma JoinedFile(dir: String, name: String, tail: String)
    requires '/' !in name && '/' !in tail
    ensures StartsWith(JoinPath(dir, name + tail), dir)
    ensures Basename(JoinPath(dir, name + tail)) == name + tail
    ensures EndsWith(JoinPath(dir, name + tail), tail)
  {
    var file := name + tail;
    NoSlashInConcat(name, tail);
    assert !StartsWith(file, "/") by {
      if |file| >= 1 {
        assert file[..1][0] == file[0];
      }
    }
    BasenameOfJoin(dir, file);
    assert EndsWith(file, tail) by {
      assert file[|file| - |tail|..] == tail;
    }
    EndsWithChain(JoinPath(dir, file), file, tail);
  }

  /** Two texts without '/' make one without '/'. */
  lemma NoSlashInConcat(a: String, b: String)
    requires '/' !in a && '/' !in b
    ensures '/' !in a + b
  {
    forall k | 0 <= k < |a + b| ensures (a + b)[k] != '/' {
      if k < |a| {
        assert (a + b)[k] == a[k];
      } else {
        assert (a + b)[k] == b[k - |a|];
      }
    }
  }

  /** An ending of an ending is an ending. */
  lemma EndsWithChain(s: String, t: String, u: String)
    requires EndsWith(s, t) && EndsWith(t, u)
    ensures EndsWith(s, u)
  {
    assert s[|s| - |u|..] == s[|s| - |t|..][|t| - |u|..];
  }

  /**
   * The output file: syllabus URLs go to the syllabus directory, others to the course directory,
   * under the safe course code followed by `FileSuffix`. pathlib's `/` is `JoinPath`, which adds
   * no second '/' after a directory that already ends in one.
   */
  function OutputFile(url: String, courseCode: String, syllabiDir: String, courseDir: String): String {
    var dir := if Contains(url, "/syllabus/") then syllabiDir else courseDir;
    JoinPath(dir, SafeFilename(courseCode) + FileSuffix(url))
  }

  /**
   * The output file lies in the syllabus directory for a URL containing '/syllabus/' and in the
   * course directory otherwise, and its base name is the safe course code followed by the ending.
   */
  lemma OutputFileSpec(url: String, courseCode: String, syllabiDir: String, courseDir: String)
    ensures var path := OutputFile(url, courseCode, syllabiDir, courseDir);
      StartsWith(path, if Contains(url, "/syllabus/") then syllabiDir else courseDir) &&
      Basename(path) == SafeFilename(courseCode) + FileSuffix(url) &&
      EndsWith(path, FileSuffix(url))
  {
    var dir := if Contains(url, "/syllabus/") then syllabiDir else courseDir;
    OutputNamePartsHaveNoSlash(url, courseCode);
    JoinedFile(dir, SafeFilename(courseCode), FileSuffix(url));
  }


  /** A syllabus URL's file ends in `_syllabus.md`, any other URL's in `_course.md`. */
  lemma FileSuffixRule(url: String)
    ensures Contains(url, "/syllabus/") ==> FileSuffix(url) == "_syllabus.md"
    ensures !Contains(url, "/syllabus/") ==> FileSuffix(url) == "_course.md"
  {
  }

  // ----- scraping one URL -----

  /** What one attempt produced: an exception, or the page title and main element. */
  datatype Fetch = Raised(message: String) | Fetched(title: Option<String>, main: Node)

  /** Turns the URL and the main element into the page text: `PageFor` in the scraper. */
  type Parser = (String, Node) -> String

  predicate Is404(f: Fetch) { f.Fetched? && f.title.Some? && Contains(f.title.value, "404") }

  /** The attempt saves a page: it was not a 404 and its text is longer than 50 characters once stripped. */
  predicate Succeeds(url: String, f: Fetch, parse: Parser) {
    f.Fetched? && !Is404(f) && |Strip(parse(url, f.main))| > 50
  }

  /** How one attempt ended. */
  datatype Verdict = Errored(message: String) | NotFoundPage | ThinPage | SavedPage(markdown: String)

  /** The checks one attempt makes on what it fetched, in the scraper's order. */
  function Classify(url: String, f: Fetch, parse: Parser): (v: Verdict)
    ensures v.Errored? <==> f.Raised?
    ensures v.NotFoundPage? <==> Is404(f)
    ensures v.SavedPage? <==> Succeeds(url, f, parse)
    ensures v.SavedPage? ==> v.markdown == parse(url, f.main)
  {
    match f
    case Raised(message) => Errored(message)
    case Fetched(title, main) =>
      if title.Some? && Contains(title.value, "404") then NotFoundPage
      else
        var markdown := parse(url, main);
        if markdown == [] then ThinPage
        else if |Strip(markdown)| > 50 then SavedPage(markdown)
        else ThinPage
  }

  /** The verdict of every attempt. */
  function Verdicts(url: String, fetch: nat -> Fetch, parse: Parser): nat -> Verdict {
    (k: nat) => Classify(url, fetch(k), parse)
  }

  /** The attempts stop after a 404 or a saved page. */
  predicate Stops(v: Verdict) { v.NotFoundPage? || v.SavedPage? }

  datatype ScrapeError = NotFound | NoMeaningfulContent | AttemptFailed(attempt: nat, message: String)

  datatype ScrapeResult = ScrapeResult(success: bool, markdown: String, filePath: Option<String>,
                                       error: Option<ScrapeError>, attempts: nat, written: Option<String>)

  const NoAttempt := ScrapeResult(false, "", None, None, 0, None)

  /** The error recorded for a failed attempt; attempts are numbered from 1 in the message. */
  function ErrorOf(v: Verdict, attempt: nat): ScrapeError {
    match v
    case Errored(message) => AttemptFailed(attempt + 1, message)
    case NotFoundPage => NotFound
    case ThinPage => NoMeaningfulContent
    case SavedPage(_) => NoMeaningfulContent
  }

  /** How many attempts are made: up to the first that stops, and at most `MaxRetryAttempts`. */
  function AttemptsMade(verdicts: nat -> Verdict, k: nat): (n: nat)
    requires k < MaxRetryAttempts
    decreases MaxRetryAttempts - k
  {
    if Stops(verdicts(k)) || k + 1 == MaxRetryAttempts then k + 1 else AttemptsMade(verdicts, k + 1)
  }

  /** Every attempt before the last one failed without stopping, and fewer than the maximum means the last one stopped. */
  lemma {:induction false} AttemptsMadeSpec(verdicts: nat -> Verdict, k: nat)
    requires k < MaxRetryAttempts
    ensures var n := AttemptsMade(verdicts, k);
      k + 1 <= n <= MaxRetryAttempts &&
      (forall j :: k <= j < n - 1 ==> !Stops(verdicts(j))) &&
      (n < MaxRetryAttempts ==> Stops(verdicts(n - 1)))
    decreases MaxRetryAttempts - k
  {
    if !Stops(verdicts(k)) && k + 1 < MaxRetryAttempts {
      AttemptsMadeSpec(verdicts, k + 1);
    }
  }

  /**
   * The record after one attempt with verdict `v`. A saved page does not reset the error, so the
   * error of an earlier failed attempt stays in the record.
   */
  function AttemptOutcome(path: String, v: Verdict, attempt: nat, res: ScrapeResult): (r: ScrapeResult)
    ensures r.attempts == attempt + 1
  {
    if v.SavedPage? then
      res.(success := true, markdown := v.markdown, filePath := Some(path), written := Some(v.markdown),
           attempts := attempt + 1)
    else
      res.(error := Some(ErrorOf(v, attempt)), attempts := attempt + 1)
  }

  /** The record after attempts `k` onwards, until one stops or `MaxRetryAttempts` were made. */
  function Retry(path: String, verdicts: nat -> Verdict, k: nat, res: ScrapeResult): (r: ScrapeResult)
    requires k < MaxRetryAttempts
    ensures k < r.attempts <= MaxRetryAttempts
    decreases MaxRetryAttempts - k
  {
    var next := AttemptOutcome(path, verdicts(k), k, res);
    if Stops(verdicts(k)) || k + 1 == MaxRetryAttempts then next else Retry(path, verdicts, k + 1, next)
  }

  /**
   * `r` reports an attempt with verdict `v`: a saved page exactly when it saved one, still carrying
   * `before`, the error recorded before that attempt; its own error otherwise.
   */
  predicate Reports(path: String, v: Verdict, attempt: nat, before: Option<ScrapeError>, r: ScrapeResult) {
    r.attempts == attempt + 1 &&
    (r.success <==> v.SavedPage?) &&
    (r.success ==> r.markdown == v.markdown && r.written == Some(r.markdown) && r.filePath == Some(path) &&
                   r.error == before) &&
    (!r.success ==> r.written.None? && r.error == Some(ErrorOf(v, attempt)))
  }

  /** The loop makes `AttemptsMade` attempts. */
  lemma {:induction false} RetryCount(path: String, verdicts: nat -> Verdict, k: nat, res: ScrapeResult)
    requires k < MaxRetryAttempts
    ensures Retry(path, verdicts, k, res).attempts == AttemptsMade(verdicts, k)
    decreases MaxRetryAttempts - k
  {
    if !Stops(verdicts(k)) && k + 1 < MaxRetryAttempts {
      RetryCount(path, verdicts, k + 1, AttemptOutcome(path, verdicts(k), k, res));
    }
  }

  /**
   * The loop's record reports its last attempt; a saved page keeps the error of the failed
   * attempt just before it, or the starting record's error when it was the first attempt.
   */
  lemma {:induction false} RetryReportsLast(path: String, verdicts: nat -> Verdict, k: nat, res: ScrapeResult)
    requires k < MaxRetryAttempts && !res.success && res.written.None?
    ensures var r := Retry(path, verdicts, k, res);
      Reports(path, verdicts(r.attempts - 1), r.attempts - 1,
              if r.attempts - 1 == k then res.error else Some(ErrorOf(verdicts(r.attempts - 2), r.attempts - 2)), r)
    decreases MaxRetryAttempts - k
  {
    var next := AttemptOutcome(path, verdicts(k), k, res);
    if !Stops(verdicts(k)) && k + 1 < MaxRetryAttempts {
      RetryReportsLast(path, verdicts, k + 1, next);
    }
  }

  /** One attempt of the loop, returning whether the attempts stop here. */
  method TryOnce(url: String, path: String, f: Fetch, parse: Parser, attempt: nat, res: ScrapeResult)
    returns (next: ScrapeResult, stop: bool)
    ensures stop == Stops(Classify(url, f, parse))
    ensures next == AttemptOutcome(path, Classify(url, f, parse), attempt, res)
  {
    match f {
      case Raised(message) =>
        next := res.(error := Some(AttemptFailed(attempt + 1, message)), attempts := attempt + 1);
        stop := false;
      case Fetched(title, main) =>
        if title.Some? && Contains(title.value, "404") {
          next := res.(error := Some(NotFound), attempts := attempt + 1);
          stop := true;
          return;
        }
        var markdown := parse(url, main);
        if markdown != [] && |Strip(markdown)| > 50 {
          next := res.(success := true, markdown := markdown, filePath := Some(path), written := Some(markdown),
                       attempts := attempt + 1);
          stop := true;
          return;
        }
        next := res.(error := Some(NoMeaningfulContent), attempts := attempt + 1);
        stop := false;
    }
  }

  /**
   * The retry loop of `scrape_single_url`: the attempts run until one stops (a 404 or a saved
   * page) or `MaxRetryAttempts` were made. `fetch(k)` is the outcome of attempt k and `parse`
   * the page parser (`PageFor`).
   */
  method RetryAttempts(url: String, path: String, fetch: nat -> Fetch, parse: Parser) returns (res: ScrapeResult)
    ensures res == Retry(path, Verdicts(url, fetch, parse), 0, NoAttempt)
  {
    ghost var verdicts := Verdicts(url, fetch, parse);
    res := NoAttempt;
    var attempt := 0;
    while attempt < MaxRetryAttempts
      invariant 0 <= attempt < MaxRetryAttempts
      invariant Retry(path, verdicts, attempt, res) == Retry(path, verdicts, 0, NoAttempt)
      decreases MaxRetryAttempts - attempt
    {
      var stop;
      res, stop := TryOnce(url, path, fetch(attempt), parse, attempt, res);
      assert verdicts(attempt) == Classify(url, fetch(attempt), parse);
      if stop || attempt + 1 == MaxRetryAttempts {
        return;
      }
      attempt := attempt + 1;
    }
  }

  /**
   * `scrape_single_url`: an existing output file (`existing`, the content of a file of more than
   * 100 bytes) is returned as it is; otherwise the attempts run until a 404 or a saved page, at
   * most `MaxRetryAttempts` of them, and the result reports the last one.
   */
  method ScrapeSingleUrl(url: String, courseCode: String, syllabiDir: String, courseDir: String,
                         existing: Option<String>, fetch: nat -> Fetch, parse: Parser) returns (res: ScrapeResult)
    ensures existing.Some? ==>
              res == ScrapeResult(true, existing.value, Some(OutputFile(url, courseCode, syllabiDir, courseDir)), None, 0, None)
    ensures existing.None? ==> res.attempts == AttemptsMade(Verdicts(url, fetch, parse), 0)
    ensures existing.None? ==> (res.success <==> Succeeds(url, fetch(res.attempts - 1), parse))
    ensures existing.None? && res.success ==>
              res.markdown == parse(url, fetch(res.attempts - 1).main) && res.written == Some(res.markdown) &&
              res.filePath == Some(OutputFile(url, courseCode, syllabiDir, courseDir))
    ensures existing.None? && res.success ==>
              res.error == if res.attempts == 1 then None
                           else Some(ErrorOf(Classify(url, fetch(res.attempts - 2), parse), res.attempts - 2))
    ensures existing.None? && !res.success ==>
              res.written.None? && res.error == Some(ErrorOf(Classify(url, fetch(res.attempts - 1), parse), res.attempts - 1))
  {
    var path := OutputFile(url, courseCode, syllabiDir, courseDir);
    if existing.Some? {
      return ScrapeResult(true, existing.value, Some(path), None, 0, None);
    }
    res := RetryAttempts(url, path, fetch, parse);
    ghost var verdicts := Verdicts(url, fetch, parse);
    RetryCount(path, verdicts, 0, NoAttempt);
    RetryReportsLast(path, verdicts, 0, NoAttempt);
    assert verdicts(res.attempts - 1) == Classify(url, fetch(res.attempts - 1), parse);
    if res.attempts > 1 {
      assert verdicts(res.attempts - 2) == Classify(url, fetch(res.attempts - 2), parse);
    }
  }
}
