/**
 * The course-to-program mapping built from course syllabus PDFs: each PDF is named after its
 * course, the program codes its text mentions (ignoring case) are the programs that course
 * belongs to, and the result is one entry per course with its program codes sorted and joined
 * by ", ", the entries sorted by course code.
 */
module CourseProgramMapping {
  import opened Wrappers
  import opened Text
  import opened Paths
  import opened Dicts
  import opened Mappings
  import Sorting

  /** `extract_course_code_from_filename`: the file name without its extension, case kept. */
  function CourseCodeFromFilename(path: String): (r: String)
    ensures '/' !in r && StartsWith(Basename(path), r)
  {
    FileStem(path)
  }

  /** A file `<dir>/<c>.pdf` is the syllabus of course `c`, spelled as in the file name. */
  lemma CourseCodeOfPdf(dir: String, c: String)
    requires c != [] && '/' !in c && '.' !in c
    ensures CourseCodeFromFilename(JoinPath(dir, c + ".pdf")) == c
  {
    FileStemOf(dir, c, ".pdf");
  }

  /** `extract_program_codes` on the text extracted from one PDF. */
  method ExtractProgramCodes(text: String, codes: seq<String>) returns (found: set<String>)
    ensures found == CodesMentioned(text, codes)
  {
    found := CodesFound(text, codes, MentionsIgnoringCase);
  }

  /** A listed code is found exactly when it matches, ignoring case, somewhere in the text. */
  lemma ProgramCodeFound(text: String, codes: seq<String>, c: String)
    ensures c in CodesMentioned(text, codes) <==> c in codes && exists i :: MatchesIgnoringCaseAt(text, c, i)
  {
    MentionsIgnoringCaseSpec(text, c);
  }

  // ----- process_pdfs -----

  /** What one PDF contributes: the program codes mentioned in its text. */
  function Found(codes: seq<String>, text: String -> String, f: String): set<String> {
    CodesMentioned(text(f), codes)
  }

  /**
   * `course_program_mapping` after the first loop of `process_pdfs`: a PDF with at least one
   * program code assigns them to its course, replacing what an earlier PDF of the same course
   * assigned; the course keeps the place of its first assignment.
   */
  function Assigned(files: seq<String>, codes: seq<String>, text: String -> String): Dict<set<String>>
    decreases |files|
  {
    if files == [] then []
    else
      var n := |files| - 1;
      var d := Assigned(files[..n], codes, text);
      var found := Found(codes, text, files[n]);
      if found == {} then d else Dicts.Set(d, CourseCodeFromFilename(files[n]), found)
  }

  /**
   * The PDF at `i` is the last one of course `k` with program codes, and those codes are `v`:
   * every later PDF of the course mentions none.
   */
  predicate LastFindingAt(files: seq<String>, codes: seq<String>, text: String -> String, k: String, v: set<String>, i: int) {
    LastAt(files, OfCourse(k), FoundIn(codes, text), v, i)
  }

  function OfCourse(k: String): String -> bool {
    f => CourseCodeFromFilename(f) == k
  }

  function FoundIn(codes: seq<String>, text: String -> String): String -> set<String> {
    f => Found(codes, text, f)
  }

  /** The dictionary never holds a course twice. */
  lemma {:induction false} AssignedDistinct(files: seq<String>, codes: seq<String>, text: String -> String)
    ensures DistinctKeys(Assigned(files, codes, text))
    decreases |files|
  {
    if files != [] {
      var n := |files| - 1;
      AssignedDistinct(files[..n], codes, text);
      SetDistinct(Assigned(files[..n], codes, text), CourseCodeFromFilename(files[n]), Found(codes, text, files[n]));
    }
  }

  /** The last PDF of a course that mentions program codes decides the course's entry. */
  lemma {:induction false} AssignedSpec(files: seq<String>, codes: seq<String>, text: String -> String, k: String, v: set<String>)
    ensures Get(Assigned(files, codes, text), k) == Some(v) <==> exists i :: LastFindingAt(files, codes, text, k, v, i)
    decreases |files|
  {
    if files != [] {
      var n := |files| - 1;
      var init := files[..n];
      var found := Found(codes, text, files[n]);
      var code := CourseCodeFromFilename(files[n]);
      AssignedSpec(init, codes, text, k, v);
      if found != {} && code == k {
        assert Assigned(files, codes, text) == Dicts.Set(Assigned(init, codes, text), k, found);
        LastFindingIsLatest(files, codes, text, k, v);
      } else {
        AssignedOther(files, codes, text, k);
        forall i ensures LastFindingAt(files, codes, text, k, v, i) <==> LastFindingAt(init, codes, text, k, v, i) {
          LastFindingStep(files, codes, text, k, v, i);
        }
        assert (exists i :: LastFindingAt(files, codes, text, k, v, i)) <==> exists i :: LastFindingAt(init, codes, text, k, v, i);
      }
    }
  }

  /** A final PDF that is of another course, or mentions nothing, leaves course `k` as it was. */
  lemma AssignedOther(files: seq<String>, codes: seq<String>, text: String -> String, k: String)
    requires files != []
    requires Found(codes, text, files[|files| - 1]) == {} || CourseCodeFromFilename(files[|files| - 1]) != k
    ensures Get(Assigned(files, codes, text), k) == Get(Assigned(files[..|files| - 1], codes, text), k)
  {
    var n := |files| - 1;
    var found := Found(codes, text, files[n]);
    if found != {} {
      SetGetOther(Assigned(files[..n], codes, text), CourseCodeFromFilename(files[n]), found, k);
    }
  }

  /** When the final PDF is of course `k` and mentions codes, it is the last finding of `k`. */
  lemma LastFindingIsLatest(files: seq<String>, codes: seq<String>, text: String -> String, k: String, v: set<String>)
    requires files != []
    requires Found(codes, text, files[|files| - 1]) != {} && CourseCodeFromFilename(files[|files| - 1]) == k
    ensures (exists i :: LastFindingAt(files, codes, text, k, v, i)) <==> v == Found(codes, text, files[|files| - 1])
  {
    var n := |files| - 1;
    if v == Found(codes, text, files[n]) {
      assert LastFindingAt(files, codes, text, k, v, n);
    }
    if exists i :: LastFindingAt(files, codes, text, k, v, i) {
      var i :| LastFindingAt(files, codes, text, k, v, i);
      assert i == n;
    }
  }

  /** A final PDF that is of another course, or mentions nothing, does not change the last findings. */
  lemma LastFindingStep(files: seq<String>, codes: seq<String>, text: String -> String, k: String, v: set<String>, i: int)
    requires files != []
    requires Found(codes, text, files[|files| - 1]) == {} || CourseCodeFromFilename(files[|files| - 1]) != k
    ensures LastFindingAt(files, codes, text, k, v, i) <==> LastFindingAt(files[..|files| - 1], codes, text, k, v, i)
  {
    LastAtStep(files, OfCourse(k), FoundIn(codes, text), v, i);
  }

  /** `xs[i]` is the last element passing `isK` whose `val` is non-empty, and that value is `v`. */
  predicate LastAt<T>(xs: seq<T>, isK: T -> bool, val: T -> set<String>, v: set<String>, i: int) {
    0 <= i < |xs| && isK(xs[i]) && v != {} && val(xs[i]) == v &&
    forall j :: i < j < |xs| && isK(xs[j]) ==> val(xs[j]) == {}
  }

  /** A last element that fails `isK`, or has an empty value, changes no last finding. */
  lemma LastAtStep<T>(xs: seq<T>, isK: T -> bool, val: T -> set<String>, v: set<String>, i: int)
    requires xs != [] && (val(xs[|xs| - 1]) == {} || !isK(xs[|xs| - 1]))
    ensures LastAt(xs, isK, val, v, i) <==> LastAt(xs[..|xs| - 1], isK, val, v, i)
  {
    var n := |xs| - 1;
    var init := xs[..n];
    if LastAt(xs, isK, val, v, i) {
      assert i != n;
      forall j | i < j < |init| && isK(init[j]) ensures val(init[j]) == {} {
        assert init[j] == xs[j];
      }
    }
    if LastAt(init, isK, val, v, i) {
      forall j | i < j < |xs| && isK(xs[j]) ensures val(xs[j]) == {} {
        if j < n {
          assert init[j] == xs[j];
        }
      }
    }
  }

  /** `", ".join(sorted(found_codes))`. */
  function Joined(found: set<String>): String {
    Join(Sorting.SortedSet(found), ", ")
  }

  /** The second loop of `process_pdfs`: one entry per course, in the dictionary's order. */
  function Rendered(d: Dict<set<String>>): (r: Dict<String>)
    ensures |r| == |d|
    ensures forall i :: 0 <= i < |d| ==> r[i] == (d[i].0, Joined(d[i].1))
    decreases |d|
  {
    if d == [] then [] else Rendered(d[..|d| - 1]) + [(d[|d| - 1].0, Joined(d[|d| - 1].1))]
  }

  /** `process_pdfs`: the program codes of each course, from the PDFs in the order given. */
  method ProcessPdfs(files: seq<String>, codes: seq<String>, text: String -> String) returns (entries: Dict<String>)
    ensures entries == Rendered(Assigned(files, codes, text))
  {
    var mapping := AssignCourses(files, codes, text);
    entries := RenderMapping(mapping);
  }

  /** The first loop of `process_pdfs`: each PDF with program codes assigns them to its course. */
  method AssignCourses(files: seq<String>, codes: seq<String>, text: String -> String) returns (mapping: Dict<set<String>>)
    ensures mapping == Assigned(files, codes, text)
  {
    mapping := [];
    for i := 0 to |files|
      invariant mapping == Assigned(files[..i], codes, text)
    {
      assert files[..i + 1][..i] == files[..i];
      var courseCode := CourseCodeFromFilename(files[i]);
      var found := ExtractProgramCodes(text(files[i]), codes);
      if found != {} {
        mapping := Dicts.Set(mapping, courseCode, found);
      }
    }
    assert files[..|files|] == files;
  }

  /** The second loop of `process_pdfs`: each course's codes, sorted and joined. */
  method RenderMapping(mapping: Dict<set<String>>) returns (entries: Dict<String>)
    ensures entries == Rendered(mapping)
  {
    entries := [];
    for i := 0 to |mapping|
      invariant entries == Rendered(mapping[..i])
    {
      assert mapping[..i + 1][..i] == mapping[..i];
      entries := entries + [(mapping[i].0, Joined(mapping[i].1))];
    }
    assert mapping[..|mapping|] == mapping;
  }

  // ----- save_mapping_to_json -----

  /** The dictionary as a map from a course to its program codes. */
  function AsMap(d: Dict<set<String>>): (m: map<String, set<String>>)
    ensures forall k :: k in m <==> k in Keys(d)
  {
    map k | k in Keys(d) :: Get(d, k).value
  }

  function Always(found: set<String>): bool { true }

  /** What the script writes for the PDFs: `save_mapping_to_json` sorts the entries by course code. */
  function Saved(files: seq<String>, codes: seq<String>, text: String -> String): Dict<String> {
    SortedByKey(Rendered(Assigned(files, codes, text)))
  }

  /**
   * Whatever order the PDFs came in, the saved file lists each course of the mapping once, in
   * course order, with its program codes joined.
   */
  lemma SavedIsSorted(files: seq<String>, codes: seq<String>, text: String -> String)
    ensures Saved(files, codes, text) == SortedEntries(AsMap(Assigned(files, codes, text)), Always, Joined)
  {
    var d := Assigned(files, codes, text);
    var e := Saved(files, codes, text);
    var r := SortedEntries(AsMap(d), Always, Joined);
    AssignedDistinct(files, codes, text);
    assert Keys(Rendered(d)) == Keys(d);
    forall x ensures x in e <==> x in r {
      assert x in e <==> x in multiset(Rendered(d));
      RenderedEntry(d, x);
      SortedEntry(d, x);
    }
    SortedEntriesUnique(AsMap(d), Always, Joined, e);
  }

  lemma RenderedEntry(d: Dict<set<String>>, x: (String, String))
    requires DistinctKeys(d)
    ensures x in Rendered(d) <==> x.0 in Keys(d) && x.1 == Joined(Get(d, x.0).value)
  {
    if x in Rendered(d) {
      var i :| 0 <= i < |d| && Rendered(d)[i] == x;
      GetEntry(d, d[i].0, d[i].1);
      assert Keys(d)[i] == x.0;
    }
    if x.0 in Keys(d) && x.1 == Joined(Get(d, x.0).value) {
      var i :| 0 <= i < |d| && Keys(d)[i] == x.0;
      GetEntry(d, d[i].0, d[i].1);
      assert Rendered(d)[i] == x;
    }
  }

  lemma SortedEntry(d: Dict<set<String>>, x: (String, String))
    ensures x in SortedEntries(AsMap(d), Always, Joined) <==> x.0 in Keys(d) && x.1 == Joined(Get(d, x.0).value)
  {
    SortedEntriesHas(AsMap(d), Always, Joined, x);
  }

  /**
   * The saved file: a course has an entry exactly when one of its PDFs mentions a program code,
   * and the entry holds the codes of the last such PDF.
   */
  lemma SavedCourse(files: seq<String>, codes: seq<String>, text: String -> String, c: String, s: String)
    ensures (c, s) in Saved(files, codes, text) <==>
              exists v, i :: LastFindingAt(files, codes, text, c, v, i) && s == Joined(v)
  {
    var d := Assigned(files, codes, text);
    SavedIsSorted(files, codes, text);
    SortedEntry(d, (c, s));
    if (c, s) in Saved(files, codes, text) {
      var v := Get(d, c).value;
      AssignedSpec(files, codes, text, c, v);
    }
    if exists v, i :: LastFindingAt(files, codes, text, c, v, i) && s == Joined(v) {
      var v, i :| LastFindingAt(files, codes, text, c, v, i) && s == Joined(v);
      AssignedSpec(files, codes, text, c, v);
    }
  }
}
