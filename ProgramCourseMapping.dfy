/**
 * The program-to-course mapping built from course syllabus PDFs: every listed program code
 * starts with an empty list, each PDF appends its course to the list of every program its text
 * mentions, and the result is one entry per program that has courses, with the courses sorted
 * and the entries sorted by program code. File names and program codes are read as for the
 * course-to-program mapping.
 */
module ProgramCourseMapping {
  import opened Text
  import opened Seqs
  import opened Dicts
  import opened Mappings
  import opened CourseProgramMapping
  import Sorting

  /** `program_to_courses[p].append(course)` for every program `p` in `found`. */
  function Appended(m: ProgramCourses, course: String, found: set<String>): (r: ProgramCourses)
    ensures r.Keys == m.Keys
  {
    map p | p in m :: if p in found then m[p] + [course] else m[p]
  }

  lemma AppendedNothing(m: ProgramCourses, course: String)
    ensures Appended(m, course, {}) == m
  {
  }

  /** The lists after each item in turn gives a course and the programs it mentions. */
  function AppendedLists<T>(xs: seq<T>, codes: seq<String>, f: T -> (String, set<String>)): (r: ProgramCourses)
    ensures r.Keys == set p | p in codes
    decreases |xs|
  {
    if xs == [] then EmptyLists(codes)
    else
      var n := |xs| - 1;
      Appended(AppendedLists(xs[..n], codes, f), f(xs[n]).0, f(xs[n]).1)
  }

  /** Item `i` gives course `c` and mentions program `p`. */
  predicate Mentions<T>(xs: seq<T>, f: T -> (String, set<String>), p: String, c: String, i: int) {
    0 <= i < |xs| && f(xs[i]).0 == c && p in f(xs[i]).1
  }

  /**
   * The courses of the items that mention program `p`, once per such item (a course given by two
   * such items comes twice), in the order of the items.
   */
  function CoursesOf<T>(xs: seq<T>, f: T -> (String, set<String>), p: String): (r: seq<String>)
    ensures |r| <= |xs|
    ensures forall c :: c in r <==> exists i :: Mentions(xs, f, p, c, i)
    decreases |xs|
  {
    if xs == [] then []
    else
      var n := |xs| - 1;
      var init := xs[..n];
      var prev := CoursesOf(init, f, p);
      assert forall c, i :: Mentions(init, f, p, c, i) ==> Mentions(xs, f, p, c, i);
      assert forall c, i :: Mentions(xs, f, p, c, i) && i < n ==> Mentions(init, f, p, c, i);
      if p in f(xs[n]).1 then
        assert Mentions(xs, f, p, f(xs[n]).0, n);
        prev + [f(xs[n]).0]
      else prev
  }

  /** A listed program's list is the courses of the items that mention it. */
  lemma {:induction false} AppendedListsSpec<T>(xs: seq<T>, codes: seq<String>, f: T -> (String, set<String>), p: String)
    requires p in codes
    ensures AppendedLists(xs, codes, f)[p] == CoursesOf(xs, f, p)
    decreases |xs|
  {
    if xs != [] {
      AppendedListsSpec(xs[..|xs| - 1], codes, f, p);
    }
  }

  /** How often a course is listed under a program: once for each item of the course that mentions it. */
  lemma {:induction false} CoursesOfCount<T>(xs: seq<T>, f: T -> (String, set<String>), p: String, c: String)
    ensures multiset(CoursesOf(xs, f, p))[c] == |set i | 0 <= i < |xs| && Mentions(xs, f, p, c, i)|
    decreases |xs|
  {
    if xs != [] {
      var n := |xs| - 1;
      var init := xs[..n];
      CoursesOfCount(init, f, p, c);
      CoursesOfLast(xs, f, p, c);
      MentionsLast(xs, f, p, c);
    }
  }

  lemma CoursesOfLast<T>(xs: seq<T>, f: T -> (String, set<String>), p: String, c: String)
    requires xs != []
    ensures multiset(CoursesOf(xs, f, p))[c] ==
              multiset(CoursesOf(xs[..|xs| - 1], f, p))[c] + if Mentions(xs, f, p, c, |xs| - 1) then 1 else 0
  {
  }

  lemma MentionsLast<T>(xs: seq<T>, f: T -> (String, set<String>), p: String, c: String)
    requires xs != []
    ensures var n := |xs| - 1;
            |set i | 0 <= i < |xs| && Mentions(xs, f, p, c, i)| ==
              |set i | 0 <= i < n && Mentions(xs[..n], f, p, c, i)| + if Mentions(xs, f, p, c, n) then 1 else 0
  {
    var n := |xs| - 1;
    var before := set i | 0 <= i < n && Mentions(xs[..n], f, p, c, i);
    var now := set i | 0 <= i < |xs| && Mentions(xs, f, p, c, i);
    assert forall i :: 0 <= i < n ==> (Mentions(xs, f, p, c, i) <==> Mentions(xs[..n], f, p, c, i));
    if Mentions(xs, f, p, c, n) {
      assert now == before + {n};
    } else {
      assert now == before;
    }
  }

  /** A PDF's course and the program codes its text mentions. */
  function PdfCourse(codes: seq<String>, text: String -> String): String -> (String, set<String>) {
    (file: String) => (CourseCodeFromFilename(file), Found(codes, text, file))
  }

  /** `program_to_courses` after the PDFs in turn. */
  function Lists(files: seq<String>, codes: seq<String>, text: String -> String): ProgramCourses {
    AppendedLists(files, codes, PdfCourse(codes, text))
  }

  /** The inner loop of `process_pdfs`: `course` appended to the list of each program in `found`. */
  method AppendCourse(m0: ProgramCourses, course: String, found: set<String>) returns (m: ProgramCourses)
    requires found <= m0.Keys
    ensures m == Appended(m0, course, found)
  {
    m := m0;
    var rest := found;
    ghost var done: set<String> := {};
    while rest != {}
      invariant rest <= found && done == found - rest
      invariant m == Appended(m0, course, done)
      decreases rest
    {
      var p :| p in rest;
      m := m[p := m[p] + [course]];
      rest := rest - {p};
      done := done + {p};
    }
  }

  /**
   * The second loop of `process_pdfs`, over the dictionary's keys in order: one entry per
   * program with courses, holding them sorted.
   */
  function NonEmptyEntries(keys: seq<String>, m: ProgramCourses): Dict<seq<String>>
    requires forall k :: k in keys ==> k in m
  {
    KeptEntries(keys, m, NonEmptyList, Sorting.Sort)
  }

  /** `process_pdfs`, its dictionary keyed by the program codes in their first-listed order. */
  method ProcessPdfs(files: seq<String>, codes: seq<String>, text: String -> String) returns (entries: Dict<seq<String>>)
    ensures entries == NonEmptyEntries(Dedup(codes), Lists(files, codes, text))
  {
    var lists: ProgramCourses := map p | p in codes :: [];
    for i := 0 to |files|
      invariant lists == Lists(files[..i], codes, text)
    {
      ListsStep(files, codes, text, i);
      var courseCode := CourseCodeFromFilename(files[i]);
      var found := ExtractProgramCodes(text(files[i]), codes);
      if found != {} {
        lists := AppendCourse(lists, courseCode, found);
      } else {
        AppendedNothing(lists, courseCode);
      }
    }
    assert files[..|files|] == files;
    entries := EntriesInOrder(Dedup(codes), lists);
  }

  /** The second loop of `process_pdfs`: the entries for the programs with courses, in key order. */
  method EntriesInOrder(keys: seq<String>, lists: ProgramCourses) returns (entries: Dict<seq<String>>)
    requires forall k :: k in keys ==> k in lists
    ensures entries == NonEmptyEntries(keys, lists)
  {
    entries := [];
    for j := 0 to |keys|
      invariant entries == NonEmptyEntries(keys[..j], lists)
    {
      KeptEntriesStep(keys, lists, NonEmptyList, Sorting.Sort, j);
      if lists[keys[j]] != [] {
        entries := entries + [(keys[j], Sorting.Sort(lists[keys[j]]))];
      }
    }
    assert keys[..|keys|] == keys;
  }

  lemma ListsStep(files: seq<String>, codes: seq<String>, text: String -> String, i: nat)
    requires i < |files|
    ensures Lists(files[..i], codes, text).Keys == set p | p in codes
    ensures Found(codes, text, files[i]) <= set p | p in codes
    ensures Lists(files[..i + 1], codes, text) ==
              Appended(Lists(files[..i], codes, text), CourseCodeFromFilename(files[i]), Found(codes, text, files[i]))
  {
    assert files[..i + 1][..i] == files[..i];
  }

  // ----- save_mapping_to_json -----

  /** What the script writes: `save_mapping_to_json` sorts the entries by program code. */
  function Saved(files: seq<String>, codes: seq<String>, text: String -> String): Dict<seq<String>> {
    SortedByKey(NonEmptyEntries(Dedup(codes), Lists(files, codes, text)))
  }

  /**
   * Whatever order the program codes were listed in, the saved file has one entry per program
   * with courses, in program order, its courses sorted.
   */
  lemma SavedIsSorted(files: seq<String>, codes: seq<String>, text: String -> String)
    ensures Saved(files, codes, text) == SortedEntries(Lists(files, codes, text), NonEmptyList, Sorting.Sort)
  {
    var m := Lists(files, codes, text);
    var e := NonEmptyEntries(Dedup(codes), m);
    var s := Saved(files, codes, text);
    KeptEntriesDistinct(Dedup(codes), m, NonEmptyList, Sorting.Sort);
    forall x ensures x in s <==> x in SortedEntries(m, NonEmptyList, Sorting.Sort) {
      assert x in s <==> x in multiset(e);
      SortedEntriesHas(m, NonEmptyList, Sorting.Sort, x);
    }
    SortedEntriesUnique(m, NonEmptyList, Sorting.Sort, s);
  }

  /**
   * The saved file has an entry for program `p` exactly when `p` is listed and some PDF mentions
   * it; the entry holds the courses of those PDFs, sorted, one per PDF.
   */
  lemma SavedProgram(files: seq<String>, codes: seq<String>, text: String -> String, p: String, cs: seq<String>)
    ensures (p, cs) in Saved(files, codes, text) <==>
              p in codes && CoursesOf(files, PdfCourse(codes, text), p) != [] &&
              cs == Sorting.Sort(CoursesOf(files, PdfCourse(codes, text), p))
  {
    SavedIsSorted(files, codes, text);
    if p in codes {
      AppendedListsSpec(files, codes, PdfCourse(codes, text), p);
    }
    SortedEntriesHas(Lists(files, codes, text), NonEmptyList, Sorting.Sort, (p, cs));
  }
}
