/**
 * The URL-based program-to-course mapping script: a course code from each syllabus URL, the
 * program codes each fetched page mentions, and for every program the list of courses whose
 * pages mention it, saved sorted. Fetching a page is the input `page` (`None` when the request
 * or the parsing fails).
 */
module UrlProgramCourseMapping {
  import opened Wrappers
  import opened Text
  import opened Scan
  import opened Seqs
  import opened Dicts
  import opened UrlPatterns
  import opened Mappings
  import Sorting

  // ----- course codes from URLs -----

  const StudyPrefix: String := Https + "www.gu.se/en/study-gothenburg/"

  const SyllabusSlash: String := "/syllabus/"

  /**
   * `-([a-zA-Z0-9]+)/syllabus/` at `j`. The class is greedy and `/` ends it, so the group is the
   * whole run of letters and digits after the dash.
   */
  function DashSyllabusAt(s: String, j: nat): (r: Option<Hit>)
    ensures r.Some? ==> IsAsciiAlnum(r.value.group) && r.value.group != []
  {
    if j < |s| && s[j] == '-' then
      var n := Run(s, j + 1, IsAsciiAlnumChar);
      if 1 <= n && OccursAt(s, SyllabusSlash, j + 1 + n) then
        var g := s[j + 1..j + 1 + n];
        assert forall k :: 0 <= k < |g| ==> g[k] == s[j + 1 + k];
        Some(Hit(j + 1 + n, g))
      else None
    else None
  }

  /**
   * `.*?` followed by `DashSyllabusAt` from `j`: the nearest position where the rest matches,
   * `.` matching anything but a newline.
   */
  function LazyFrom(s: String, j: nat): (r: Option<Hit>)
    ensures r.Some? ==> IsAsciiAlnum(r.value.group) && r.value.group != []
    decreases |s| - j
  {
    if j > |s| then None
    else if DashSyllabusAt(s, j).Some? then DashSyllabusAt(s, j)
    else if j < |s| && s[j] != '\n' then LazyFrom(s, j + 1)
    else None
  }

  /**
   * The lazy scan finds the match at the nearest position from `j` that has one, provided no
   * newline stands before it; it finds nothing when no position up to the first newline has one.
   */
  lemma {:induction false} LazyFromSpec(s: String, j: nat)
    ensures LazyFrom(s, j).Some? ==>
              exists k :: j <= k <= |s| && DashSyllabusAt(s, k) == LazyFrom(s, j) && NoMatchBefore(s, j, k)
    ensures LazyFrom(s, j).None? ==> forall k :: j <= k <= |s| && NoNewlineBefore(s, j, k) ==> DashSyllabusAt(s, k).None?
    decreases |s| - j
  {
    if j <= |s| && DashSyllabusAt(s, j).None? && j < |s| && s[j] != '\n' {
      LazyFromSpec(s, j + 1);
      if LazyFrom(s, j).Some? {
        var k :| j + 1 <= k <= |s| && DashSyllabusAt(s, k) == LazyFrom(s, j) && NoMatchBefore(s, j + 1, k);
        assert NoMatchBefore(s, j, k);
      } else {
        forall k | j <= k <= |s| && NoNewlineBefore(s, j, k) ensures DashSyllabusAt(s, k).None? {
          if k > j {
            assert NoNewlineBefore(s, j + 1, k);
          }
        }
      }
    } else if j <= |s| && DashSyllabusAt(s, j).Some? {
      assert NoMatchBefore(s, j, j);
    }
  }

  /** No position in `[j, k)` has a match or holds a newline. */
  predicate NoMatchBefore(s: String, j: nat, k: nat) {
    forall t :: j <= t < k ==> t < |s| && DashSyllabusAt(s, t).None? && s[t] != '\n'
  }

  /** No position in `[j, k)` holds a newline. */
  predicate NoNewlineBefore(s: String, j: nat, k: nat) {
    forall t :: j <= t < k ==> t < |s| && s[t] != '\n'
  }

  /** The first pattern, the https address `www\.gu\.se/en/study-gothenburg/.*?-([a-zA-Z0-9]+)/syllabus/`. */
  function StudyPageCodeAt(s: String, i: nat): (r: Option<Hit>)
    ensures r.Some? ==> IsAsciiAlnum(r.value.group) && r.value.group != []
  {
    if OccursAt(s, StudyPrefix, i) then LazyFrom(s, i + |StudyPrefix|) else None
  }

  predicate SyllabusSlashAt(s: String, e: nat) { OccursAt(s, SyllabusSlash, e) }

  /** The alternative pattern, `/([a-zA-Z0-9]{3,8})/syllabus/`. */
  function SlashSyllabusAt(s: String, i: nat): (r: Option<Hit>) { SlashCodeAt(s, i, SyllabusSlashAt) }

  /**
   * `extract_course_code_from_url`: the group of the first pattern if it matches anywhere, else
   * that of the alternative, upper-cased; the empty string when neither matches. Both patterns
   * are case-sensitive.
   */
  function ExtractCourseCodeFromUrl(url: String): (r: String)
    ensures r == [] <==> Search(url, StudyPageCodeAt).None? && Search(url, SlashSyllabusAt).None?
    ensures r != [] ==> IsUpperCode(r)
    ensures Search(url, StudyPageCodeAt).Some? ==> r == Upper(Search(url, StudyPageCodeAt).value.group)
    ensures Search(url, StudyPageCodeAt).None? && Search(url, SlashSyllabusAt).Some? ==>
              r == Upper(Search(url, SlashSyllabusAt).value.group)
  {
    if Search(url, StudyPageCodeAt).Some? then
      SearchIsCode(url, StudyPageCodeAt);
      Upper(Search(url, StudyPageCodeAt).value.group)
    else if Search(url, SlashSyllabusAt).Some? then
      SearchIsCode(url, SlashSyllabusAt);
      Upper(Search(url, SlashSyllabusAt).value.group)
    else []
  }

  /** The lazy scan passes over positions where nothing matches and no newline stands. */
  lemma {:induction false} LazySkips(s: String, j: nat, k: nat)
    requires j <= k <= |s| && NoMatchBefore(s, j, k)
    ensures LazyFrom(s, j) == LazyFrom(s, k)
    decreases k - j
  {
    if j < k {
      assert NoMatchBefore(s, j + 1, k);
      LazySkips(s, j + 1, k);
    }
  }

  /**
   * Inside a course name with no slash, followed by a dash, the first pattern cannot complete:
   * the run after any dash in the name ends inside the name or at the dash, never at `/`.
   */
  lemma NameSkipped(s: String, a: nat, b: nat)
    requires a <= b < |s| && s[b] == '-' && forall t :: a <= t < b ==> s[t] != '/'
    ensures forall t :: a <= t < b ==> DashSyllabusAt(s, t).None?
  {
    forall t | a <= t < b ensures DashSyllabusAt(s, t).None? {
      if s[t] == '-' {
        var n := Run(s, t + 1, IsAsciiAlnumChar);
        assert t + 1 + n <= b;
      }
    }
  }

  /**
   * A study-page syllabus URL `<prefix><name>-<c>/syllabus/<id>` gives `c` upper-cased, however
   * many dashes the name has, when the name has no slash or newline.
   */
  lemma StudyPageUrlCode(name: String, c: String, id: String)
    requires '/' !in name && '\n' !in name && c != [] && IsAsciiAlnum(c)
    ensures ExtractCourseCodeFromUrl(StudyPrefix + name + "-" + c + SyllabusSlash + id) == Upper(c)
  {
    var s := StudyPrefix + name + "-" + c + SyllabusSlash + id;
    var b := |StudyPrefix| + |name|;
    StudyUrlParts(name, c, id);
    NameClear(s, |StudyPrefix|, b, name);
    DashSyllabusFound(s, b, c);
    StudyPageFromParts(s, b, c);
  }

  /** A course name with no slash or newline, followed by a dash, holds no match of the first pattern. */
  lemma NameClear(s: String, a: nat, b: nat, name: String)
    requires a + |name| == b < |s| && s[b] == '-' && '/' !in name && '\n' !in name
    requires forall t :: a <= t < b ==> s[t] == name[t - a]
    ensures NoMatchBefore(s, a, b)
  {
    forall t | a <= t < b ensures s[t] != '/' && s[t] != '\n' {
      assert s[t] == name[t - a];
    }
    NameSkipped(s, a, b);
  }

  /** The first pattern's lazy scan, passing over the name, stops at the dash before the code. */
  lemma StudyPageFromParts(s: String, b: nat, c: String)
    requires OccursAt(s, StudyPrefix, 0) && |StudyPrefix| <= b <= |s| && NoMatchBefore(s, |StudyPrefix|, b)
    requires DashSyllabusAt(s, b).Some? && DashSyllabusAt(s, b).value.group == c
    ensures ExtractCourseCodeFromUrl(s) == Upper(c)
  {
    LazySkips(s, |StudyPrefix|, b);
    assert LazyFrom(s, b) == DashSyllabusAt(s, b);
    StudyCodeAtStart(s, c);
  }

  /** A study-page match at the very start of the URL decides its code. */
  lemma StudyCodeAtStart(s: String, c: String)
    requires StudyPageCodeAt(s, 0).Some? && StudyPageCodeAt(s, 0).value.group == c
    ensures ExtractCourseCodeFromUrl(s) == Upper(c)
  {
    SearchFirstAt(s, 0, StudyPageCodeAt);
  }

  /** Where the parts of a study-page syllabus URL sit. */
  lemma StudyUrlParts(name: String, c: String, id: String)
    ensures var s := StudyPrefix + name + "-" + c + SyllabusSlash + id;
            var b := |StudyPrefix| + |name|;
            && b + 1 + |c| + |SyllabusSlash| <= |s|
            && OccursAt(s, StudyPrefix, 0) && s[b] == '-'
            && (forall t :: |StudyPrefix| <= t < b ==> s[t] == name[t - |StudyPrefix|])
            && s[b + 1..b + 1 + |c|] == c && OccursAt(s, SyllabusSlash, b + 1 + |c|)
  {
    var s := StudyPrefix + name + "-" + c + SyllabusSlash + id;
    var b := |StudyPrefix| + |name|;
    assert s[..|StudyPrefix|] == StudyPrefix;
    assert s[b + 1..b + 1 + |c|] == c;
    assert s[b + 1 + |c|..b + 1 + |c| + |SyllabusSlash|] == SyllabusSlash;
  }

  /** At a dash followed by a code and `/syllabus/`, the first pattern's tail matches with that code. */
  lemma DashSyllabusFound(s: String, b: nat, c: String)
    requires c != [] && IsAsciiAlnum(c)
    requires b < |s| && s[b] == '-' && b + 1 + |c| <= |s| && s[b + 1..b + 1 + |c|] == c
    requires OccursAt(s, SyllabusSlash, b + 1 + |c|)
    ensures DashSyllabusAt(s, b) == Some(Hit(b + 1 + |c|, c))
  {
    var e := b + 1 + |c|;
    forall t | b + 1 <= t < e ensures IsAsciiAlnumChar(s[t]) {
      assert s[t] == c[t - b - 1];
    }
    assert s[e] == SyllabusSlash[0] == '/';
    RunExact(s, b + 1, e, IsAsciiAlnumChar);
  }

  // ----- program codes of a page -----

  /**
   * `scrape_program_codes`: the program codes whose upper-case form occurs in the upper-cased
   * page text, or nothing when fetching the page fails.
   */
  function PageCodes(url: String, codes: seq<String>, page: String -> Option<String>): (r: set<String>)
    ensures r <= set c | c in codes
    ensures page(url).None? ==> r == {}
  {
    match page(url)
    case None => {}
    case Some(t) => set c | c in codes && MentionsIgnoringCase(t, c)
  }

  method ScrapeProgramCodes(url: String, codes: seq<String>, page: String -> Option<String>) returns (found: set<String>)
    ensures found == PageCodes(url, codes, page)
  {
    match page(url)
    case None =>
      found := {};
    case Some(t) =>
      found := CodesFound(t, codes, MentionsIgnoringCase);
  }

  // ----- the program-to-courses lists -----

  /** Each program in `found` gets `course` appended to its list unless it is there already. */
  function Added(m: ProgramCourses, course: String, found: set<String>): ProgramCourses {
    map p | p in m :: if p in found && course !in m[p] then m[p] + [course] else m[p]
  }

  /** Nothing found changes nothing. */
  lemma AddedNothing(m: ProgramCourses, course: String)
    ensures Added(m, course, {}) == m
  {
  }

  /** The lists after each item in turn gives a course and the programs it is found under. */
  function CourseLists<T>(xs: seq<T>, codes: seq<String>, f: T -> (String, set<String>)): ProgramCourses
    decreases |xs|
  {
    if xs == [] then EmptyLists(codes)
    else
      var last := f(xs[|xs| - 1]);
      Added(CourseLists(xs[..|xs| - 1], codes, f), last.0, last.1)
  }

  /**
   * Every program code has a list, and a program's list holds each course at most once: exactly
   * the courses some item gives together with that program.
   */
  lemma {:induction false} CourseListsSpec<T>(xs: seq<T>, codes: seq<String>, f: T -> (String, set<String>), p: String, c: String)
    ensures p in CourseLists(xs, codes, f) <==> p in codes
    ensures p in codes ==> Distinct(CourseLists(xs, codes, f)[p])
    ensures p in codes ==> (c in CourseLists(xs, codes, f)[p] <==> exists i :: 0 <= i < |xs| && f(xs[i]).0 == c && p in f(xs[i]).1)
    decreases |xs|
  {
    if xs != [] {
      var n := |xs| - 1;
      var init := xs[..n];
      var prev := CourseLists(init, codes, f);
      var last := f(xs[n]);
      var now := CourseLists(xs, codes, f);
      assert now == Added(prev, last.0, last.1);
      CourseListsSpec(init, codes, f, p, c);
      AddedSpec(prev, last.0, last.1, p, c);
      if p in codes && p in last.1 && last.0 !in prev[p] {
        DistinctSnoc(prev[p], last.0);
      }
      if p in codes {
        if c in now[p] {
          if c in prev[p] {
            var i :| 0 <= i < n && f(init[i]).0 == c && p in f(init[i]).1;
            assert xs[i] == init[i];
          } else {
            assert f(xs[n]).0 == c && p in f(xs[n]).1;
          }
        }
        if exists i :: 0 <= i < |xs| && f(xs[i]).0 == c && p in f(xs[i]).1 {
          var i :| 0 <= i < |xs| && f(xs[i]).0 == c && p in f(xs[i]).1;
          if i < n {
            assert f(init[i]).0 == c && p in f(init[i]).1;
            assert c in prev[p];
          } else {
            assert i == n;
          }
          assert c in now[p];
        }
      }
    } else {
      EmptyListsSpec(codes, p);
    }
  }

  lemma AddedSpec(m: ProgramCourses, course: String, found: set<String>, p: String, c: String)
    ensures p in Added(m, course, found) <==> p in m
    ensures p in m ==> (c in Added(m, course, found)[p] <==> c in m[p] || (p in found && c == course))
  {
  }

  /** A URL's course code and the programs its page mentions; nothing when it has no code. */
  function UrlCourse(codes: seq<String>, page: String -> Option<String>): String -> (String, set<String>) {
    (u: String) =>
      var course := ExtractCourseCodeFromUrl(u);
      (course, if course == [] then {} else PageCodes(u, codes, page))
  }

  /** The lists after processing `urls` in order. */
  function Processed(urls: seq<String>, codes: seq<String>, page: String -> Option<String>): ProgramCourses {
    CourseLists(urls, codes, UrlCourse(codes, page))
  }

  /** The URL `u` gives course `c`, and its page was fetched and mentions program `p`. */
  predicate Links(codes: seq<String>, page: String -> Option<String>, u: String, c: String, p: String) {
    c != [] && ExtractCourseCodeFromUrl(u) == c && p in PageCodes(u, codes, page)
  }

  lemma UrlCourseLinks(codes: seq<String>, page: String -> Option<String>, u: String, c: String, p: String)
    ensures Links(codes, page, u, c, p) <==> UrlCourse(codes, page)(u).0 == c && p in UrlCourse(codes, page)(u).1
    ensures Links(codes, page, u, c, p) ==> p in codes
  {
  }

  /**
   * Every program code has a list, and a program's list holds each course at most once: exactly
   * the courses some URL links to it.
   */
  lemma ProcessedSpec(urls: seq<String>, codes: seq<String>, page: String -> Option<String>, p: String, c: String)
    ensures p in Processed(urls, codes, page) <==> p in codes
    ensures p in codes ==> Distinct(Processed(urls, codes, page)[p])
    ensures p in Processed(urls, codes, page) ==>
              (c in Processed(urls, codes, page)[p] <==> exists i :: 0 <= i < |urls| && Links(codes, page, urls[i], c, p))
  {
    var f := UrlCourse(codes, page);
    CourseListsSpec(urls, codes, f, p, c);
    forall u ensures Links(codes, page, u, c, p) <==> f(u).0 == c && p in f(u).1 {
      UrlCourseLinks(codes, page, u, c, p);
    }
  }

  /** The inner loop: `course` added to the list of each program in `found`. */
  method AddCourse(m0: ProgramCourses, course: String, found: set<String>) returns (m: ProgramCourses)
    requires found <= m0.Keys
    ensures m == Added(m0, course, found)
  {
    m := m0;
    var rest := found;
    ghost var done: set<String> := {};
    assert Added(m0, course, {}) == m0;
    while rest != {}
      invariant rest <= found && done == found - rest
      invariant m == Added(m0, course, done)
      decreases rest
    {
      var p :| p in rest;
      AddedStep(m0, course, done, p);
      if course !in m[p] {
        m := m[p := m[p] + [course]];
      }
      rest := rest - {p};
      done := done + {p};
    }
  }

  lemma AddedStep(m0: ProgramCourses, course: String, done: set<String>, p: String)
    requires p in m0 && p !in done
    ensures var m := Added(m0, course, done);
            Added(m0, course, done + {p}) == m[p := if course !in m[p] then m[p] + [course] else m[p]]
  {
  }

  /** `process_urls`. */
  method ProcessUrls(urls: seq<String>, codes: seq<String>, page: String -> Option<String>) returns (m: ProgramCourses)
    ensures m == Processed(urls, codes, page)
  {
    m := map p | p in codes :: [];
    for i := 0 to |urls|
      invariant m == Processed(urls[..i], codes, page)
    {
      ProcessedStep(urls, codes, page, i);
      var course := ExtractCourseCodeFromUrl(urls[i]);
      if course == [] {
        AddedNothing(m, course);
        continue;
      }
      var found := ScrapeProgramCodes(urls[i], codes, page);
      ProcessedKeys(urls[..i], codes, page);
      m := AddCourse(m, course, found);
    }
    assert urls[..|urls|] == urls;
  }

  lemma ProcessedStep(urls: seq<String>, codes: seq<String>, page: String -> Option<String>, i: nat)
    requires i < |urls|
    ensures var f := UrlCourse(codes, page);
            Processed(urls[..i + 1], codes, page) == Added(Processed(urls[..i], codes, page), f(urls[i]).0, f(urls[i]).1)
  {
    assert urls[..i + 1][..i] == urls[..i];
  }

  /** The lists are keyed by the program codes throughout. */
  lemma ProcessedKeys(urls: seq<String>, codes: seq<String>, page: String -> Option<String>)
    ensures Processed(urls, codes, page).Keys == set p | p in codes
  {
    forall p ensures p in Processed(urls, codes, page) <==> p in codes {
      CourseListsSpec(urls, codes, UrlCourse(codes, page), p, []);
    }
  }

  // ----- saving -----

  /**
   * `save_mapping_to_json`: one entry per program with courses, its courses sorted, the entries
   * sorted by program code.
   */
  function MappingEntries(m: ProgramCourses): (r: Dict<seq<String>>)
    ensures Sorting.Sorted(Keys(r)) && DistinctKeys(r)
    ensures forall k :: k in Keys(r) <==> k in m && m[k] != []
    ensures forall i :: 0 <= i < |r| ==>
              r[i].0 in m && Sorting.Sorted(r[i].1) && multiset(r[i].1) == multiset(m[r[i].0])
  {
    SortedEntries(m, NonEmptyList, Sorting.Sort)
  }

  /**
   * The saved file lists a course under a program exactly when some URL links them, and lists
   * no course twice under one program.
   */
  lemma SavedMapping(urls: seq<String>, codes: seq<String>, page: String -> Option<String>, p: String, c: String)
    ensures Listed(MappingEntries(Processed(urls, codes, page)), p, c) <==>
              exists i :: 0 <= i < |urls| && Links(codes, page, urls[i], c, p)
    ensures forall i :: 0 <= i < |MappingEntries(Processed(urls, codes, page))| && MappingEntries(Processed(urls, codes, page))[i].0 == p ==>
              Distinct(MappingEntries(Processed(urls, codes, page))[i].1)
  {
    ProcessedSpec(urls, codes, page, p, c);
    SavedLists(Processed(urls, codes, page), p, c);
    if p in codes {
      SavedListsDistinct(Processed(urls, codes, page), p);
    }
    if exists i :: 0 <= i < |urls| && Links(codes, page, urls[i], c, p) {
      var u :| 0 <= u < |urls| && Links(codes, page, urls[u], c, p);
      UrlCourseLinks(codes, page, urls[u], c, p);
    }
  }

  /** The saved entries list `c` under `p` exactly when `p`'s list holds it. */
  lemma SavedLists(m: ProgramCourses, p: String, c: String)
    ensures Listed(MappingEntries(m), p, c) <==> p in m && c in m[p]
  {
    if Listed(MappingEntries(m), p, c) {
      ListedIsHeld(m, p, c);
    }
    if p in m && c in m[p] {
      HeldIsListed(m, p, c);
    }
  }

  lemma ListedIsHeld(m: ProgramCourses, p: String, c: String)
    requires Listed(MappingEntries(m), p, c)
    ensures p in m && c in m[p]
  {
    var r := MappingEntries(m);
    var i :| 0 <= i < |r| && r[i].0 == p && c in r[i].1;
    assert p in m && multiset(r[i].1) == multiset(m[p]);
    SameMembers(m[p], r[i].1, c);
  }

  lemma HeldIsListed(m: ProgramCourses, p: String, c: String)
    requires p in m && c in m[p]
    ensures Listed(MappingEntries(m), p, c)
  {
    var r := MappingEntries(m);
    assert m[p] != [];
    assert p in Keys(r);
    var i :| 0 <= i < |r| && Keys(r)[i] == p;
    assert r[i].0 == p && multiset(r[i].1) == multiset(m[p]);
    SameMembers(r[i].1, m[p], c);
  }

  lemma SameMembers(a: seq<String>, b: seq<String>, c: String)
    requires multiset(a) == multiset(b) && c in b
    ensures c in a
  {
    assert c in multiset(b);
  }

  /** A list without repeats is saved without repeats. */
  lemma SavedListsDistinct(m: ProgramCourses, p: String)
    requires p in m && Distinct(m[p])
    ensures forall i :: 0 <= i < |MappingEntries(m)| && MappingEntries(m)[i].0 == p ==> Distinct(MappingEntries(m)[i].1)
  {
    var r := MappingEntries(m);
    forall i | 0 <= i < |r| && r[i].0 == p ensures Distinct(r[i].1) {
      PermutationDistinct(m[p], r[i].1);
    }
  }
}
