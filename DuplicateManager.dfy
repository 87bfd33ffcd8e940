/**
 * The database duplicate manager: current courses that share a title are sorted by priority
 * date, the latest is kept, and each older one is either marked as replaced by it (when the
 * replacement map or the latest course itself says so) or reported as a quality issue. Course
 * rows are objects whose version flags the manager updates; the statistics, the version
 * history entries and the quality issues it writes are fields of the manager.
 */
module DuplicateManager {
  import opened Wrappers
  import opened Text
  import opened Seqs
  import opened Dicts
  import opened Dates
  import opened Replacements

  /** `TERM_KEYWORDS` in its iteration order, with the month each keyword stands for. */
  const TermKeywords: seq<(String, int)> := [("autumn", 8), ("ht", 8), ("spring", 1), ("vt", 1)]

  /** The month of the first keyword of `table` that occurs in `lower`. */
  function TermMonth(lower: String, table: seq<(String, int)>): (r: Option<int>)
    ensures r.None? <==> forall n :: 0 <= n < |table| ==> !Contains(lower, table[n].0)
    ensures r.Some? ==> exists n :: 0 <= n < |table| && Contains(lower, table[n].0) && table[n].1 == r.value &&
                                   forall p :: 0 <= p < n ==> !Contains(lower, table[p].0)
  {
    if table == [] then None
    else if Contains(lower, table[0].0) then Some(table[0].1)
    else
      var r := TermMonth(lower, table[1..]);
      assert forall n :: 1 <= n < |table| ==> table[1..][n - 1] == table[n];
      r
  }

  /** The months of the keyword table are real months. */
  predicate Months(table: seq<(String, int)>) {
    forall n :: 0 <= n < |table| ==> 1 <= table[n].1 <= 12
  }

  lemma TermKeywordMonths()
    ensures Months(TermKeywords)
  {
  }

  /**
   * The term branch of `_parse_date` on the stripped text `t`: when `t` names a term keyword and
   * holds four digits, the first day of that term's month in the year the first four digits
   * spell. A year of 0000 makes `datetime` raise, and nothing catches it there.
   */
  function TermDate(t: String, table: seq<(String, int)>): (r: Option<Result<Date>>)
    requires Months(table)
    ensures r.Some? <==> TermMonth(Lower(t), table).Some? && FirstYear(t).Some?
    ensures r.Some? ==> (r.value.Err? <==> FirstYear(t) == Some(0))
    ensures r.Some? && r.value.Ok? ==> Valid(r.value.value) && r.value.value == Date(FirstYear(t).value, TermMonth(Lower(t), table).value, 1)
  {
    var month := TermMonth(Lower(t), table);
    var year := FirstYear(t);
    if month.Some? && year.Some? then
      if year.value == 0 then Some(Err(YearZero))
      else
        assert 1 <= month.value <= 12;
        Some(Ok(Date(year.value, month.value, 1)))
    else None
  }

  /**
   * `_parse_date` with the keyword table `table`: blank text is `datetime.min`; the term branch
   * decides when it applies; anything else goes through the three formats.
   */
  function ParseDateWith(s: String, table: seq<(String, int)>): (r: Result<Date>)
    requires Months(table)
    ensures r.Ok? ==> Valid(r.value)
    ensures IsBlank(s) ==> r == Ok(MinDate)
    ensures !IsBlank(s) ==> r == TermDate(Strip(s), table).GetOr(Ok(ParseFormats(Strip(s))))
  {
    MinDateLeast(MinDate);
    if IsBlank(s) then Ok(MinDate)
    else TermDate(Strip(s), table).GetOr(Ok(ParseFormats(Strip(s))))
  }

  /** `_parse_date`: it fails only on a term text whose first four digits are 0000. */
  function ParseDate(s: String): (r: Result<Date>)
    ensures r.Ok? ==> Valid(r.value)
    ensures r.Err? <==> !IsBlank(s) && TermMonth(Lower(Strip(s)), TermKeywords).Some? && FirstYear(Strip(s)) == Some(0)
  {
    TermKeywordMonths();
    ParseDateWith(s, TermKeywords)
  }

  /** An autumn term ("autumn" or "ht", any case) with a year starts on 1 August of that year. */
  lemma AutumnTermDate(s: String, y: int)
    requires !IsBlank(s) && (Contains(Lower(Strip(s)), "autumn") || Contains(Lower(Strip(s)), "ht"))
    requires FirstYear(Strip(s)) == Some(y) && y != 0
    ensures ParseDate(s) == Ok(Date(y, 8, 1))
  {
    var l := Lower(Strip(s));
    var rest := TermKeywords[1..];
    assert TermKeywords[0] == ("autumn", 8);
    assert TermMonth(l, TermKeywords) == Some(8) by {
      if !Contains(l, "autumn") {
        assert rest[0] == ("ht", 8);
        assert TermMonth(l, TermKeywords) == TermMonth(l, rest);
      }
    }
    TermKeywordMonths();
  }

  /** A spring term ("spring" or "vt") with a year, and no autumn keyword, starts on 1 January. */
  lemma SpringTermDate(s: String, y: int)
    requires !IsBlank(s) && (Contains(Lower(Strip(s)), "spring") || Contains(Lower(Strip(s)), "vt"))
    requires !Contains(Lower(Strip(s)), "autumn") && !Contains(Lower(Strip(s)), "ht")
    requires FirstYear(Strip(s)) == Some(y) && y != 0
    ensures ParseDate(s) == Ok(Date(y, 1, 1))
  {
    var l := Lower(Strip(s));
    var rest := TermKeywords[2..];
    assert rest == [("spring", 1), ("vt", 1)];
    assert TermMonth(l, TermKeywords) == TermMonth(l, rest) by {
      assert TermKeywords[1..][1..] == rest;
    }
    assert TermMonth(l, rest) == Some(1) by {
      if !Contains(l, "spring") {
        assert rest[1..] == [("vt", 1)];
      }
    }
    TermKeywordMonths();
  }

  /** Without a term keyword the formats decide, and a text they all reject is `datetime.min`. */
  lemma NoTermUsesFormats(s: String)
    requires !IsBlank(s) && forall n :: 0 <= n < |TermKeywords| ==> !Contains(Lower(Strip(s)), TermKeywords[n].0)
    ensures ParseDate(s) == Ok(ParseFormats(Strip(s)))
    ensures (forall n :: 1 <= n <= 3 ==> Strptime(Strip(s), n).None?) ==> ParseDate(s) == Ok(MinDate)
  {
    TermKeywordMonths();
  }

  /** A course row. The version flags are the fields the manager changes. */
  class Course {
    const id: int
    const code: String
    const versionId: int
    const title: Option<String>
    /** The `confirmation_date` column, a date. */
    const confirmation: Option<Date>
    /** The `valid_from_date` column, free text. */
    const validFrom: Option<String>
    const sections: seq<Section>
    var isCurrent: bool
    var isReplaced: bool
    var replacedById: Option<int>

    constructor(id: int, code: String, versionId: int, title: Option<String>, confirmation: Option<Date>,
                validFrom: Option<String>, sections: seq<Section>)
      ensures this.id == id && this.code == code && this.versionId == versionId && this.title == title
      ensures this.confirmation == confirmation && this.validFrom == validFrom && this.sections == sections
      ensures isCurrent && !isReplaced && replacedById.None?
    {
      this.id := id;
      this.code := code;
      this.versionId := versionId;
      this.title := title;
      this.confirmation := confirmation;
      this.validFrom := validFrom;
      this.sections := sections;
      isCurrent := true;
      isReplaced := false;
      replacedById := None;
    }

    /** The version flags are as they were at the start of the enclosing method. */
    twostate predicate SameFlags()
      reads this
    {
      isCurrent == old(isCurrent) && isReplaced == old(isReplaced) && replacedById == old(replacedById)
    }

    /** What `validate_version_consistency` reports as "replaced but current". */
    predicate ReplacedButCurrent()
      reads this
    {
      isReplaced && isCurrent
    }
  }

  /** `CourseVersionInfo`: a course with its priority date and the codes it says it replaces. */
  datatype VersionInfo = VersionInfo(course: Course, priority: Date, replacedCodes: seq<String>)

  const AdditionalInformation: String := "Additional information"

  /**
   * The priority date: the later of the confirmation date (`datetime.min` when there is none)
   * and the parsed "valid from" text (`validFrom`, "" when there is none). The confirmation date
   * goes through `str` and back, which gives the same date (see `Dates.IsoDateParsed`).
   */
  function PriorityDate(confirmation: Option<Date>, validFrom: String): (r: Result<Date>)
    ensures r.Err? <==> ParseDate(validFrom).Err?
    ensures r.Ok? ==> AtMost(confirmation.GetOr(MinDate), r.value) && AtMost(ParseDate(validFrom).value, r.value)
    ensures r.Ok? ==> r.value == confirmation.GetOr(MinDate) || r.value == ParseDate(validFrom).value
  {
    var v := ParseDate(validFrom);
    if v.Err? then Err(v.message) else Ok(Later(confirmation.GetOr(MinDate), v.value))
  }

  /** Building the `CourseVersionInfo` of a course; it raises when the priority date does. */
  function InfoOf(c: Course): (r: Result<VersionInfo>)
    ensures r.Ok? ==> r.value.course == c && Distinct(r.value.replacedCodes)
    ensures r.Ok? <==> PriorityDate(c.confirmation, c.validFrom.GetOr([])).Ok?
  {
    match PriorityDate(c.confirmation, c.validFrom.GetOr([]))
    case Err(e) => Err(e)
    case Ok(p) => Ok(VersionInfo(c, p, ReplacedIn(c.sections, AdditionalInformation, ReplacementPhrases)))
  }

  /** The version infos of all the courses, or the first failure, as the loops over them raise it. */
  function InfosOf(courses: seq<Course>): Result<seq<VersionInfo>> {
    MapAll(courses, InfoOf)
  }

  /** `course_title.strip()`, or "" for a missing title. */
  function TitleKey(c: Course): String {
    match c.title
    case None => []
    case Some(t) => Strip(t)
  }

  function InfoTitle(v: VersionInfo): String { TitleKey(v.course) }

  /** The infos of the courses with a non-empty title, grouped by title in first-seen order. */
  function Grouped(infos: seq<VersionInfo>): Dict<seq<VersionInfo>> {
    GroupBy(infos, InfoTitle)
  }

  predicate MoreThanOne(vs: seq<VersionInfo>) { |vs| > 1 }

  /** The groups of `_group_courses_by_title`: titles shared by more than one course. */
  function DuplicateGroups(infos: seq<VersionInfo>): Dict<seq<VersionInfo>> {
    FilterValues(Grouped(infos), MoreThanOne)
  }

  /**
   * A title has a duplicate group exactly when it is non-empty and more than one info carries
   * it, and the group is those infos in order.
   */
  lemma DuplicateGroupsGet(infos: seq<VersionInfo>, t: String)
    ensures Get(DuplicateGroups(infos), t) ==
            if t != [] && |Filter(infos, KeyIs(InfoTitle, t))| > 1 then Some(Filter(infos, KeyIs(InfoTitle, t))) else None
    ensures DistinctKeys(DuplicateGroups(infos))
  {
    GroupByGet(infos, InfoTitle, t);
    FilterValuesGet(Grouped(infos), MoreThanOne, t);
    FilterValuesDistinct(Grouped(infos), MoreThanOne);
  }

  /** The info at each position is about the course at that position. */
  lemma InfosCourses(courses: seq<Course>)
    requires InfosOf(courses).Ok?
    ensures forall i :: 0 <= i < |courses| ==> InfosOf(courses).value[i].course == courses[i]
  {
    forall i | 0 <= i < |courses| ensures InfosOf(courses).value[i].course == courses[i] {
      var v := InfosOf(courses).value[i];
      assert InfoOf(courses[i]) == Ok(v);
    }
  }

  /** Every course in a duplicate group is one of the courses, and each group has two or more. */
  lemma DuplicateGroupsMembers(courses: seq<Course>)
    requires InfosOf(courses).Ok?
    ensures forall c :: c in CoursesIn(DuplicateGroups(InfosOf(courses).value)) ==> c in courses
    ensures forall i :: 0 <= i < |DuplicateGroups(InfosOf(courses).value)| ==> DuplicateGroups(InfosOf(courses).value)[i].1 != []
  {
    var infos := InfosOf(courses).value;
    InfosCourses(courses);
    GroupByMembers(infos, InfoTitle);
    forall e, v | e in DuplicateGroups(infos) && v in e.1 ensures v.course in courses {
      assert e in GroupBy(infos, InfoTitle);
      assert v in infos;
      var i :| 0 <= i < |infos| && infos[i] == v;
    }
  }

  datatype Action = MarkedReplaced | QualityIssueCreated

  /** `DuplicateResolution`, without its timestamp. */
  datatype Resolution = Resolution(courseCode: String, action: Action, reason: String, keptVersion: Option<int>, replacedVersions: seq<int>)

  const NoReplacementReason: String := "No official replacement relationship found - requires manual review"

  function ReplacedReason(latest: VersionInfo): String {
    "officially replaced by " + latest.course.code
  }

  /**
   * Whether `older` counts as officially replaced by `latest`: its chain in the replacement map
   * ends at the latest course's code, or the latest course names it among those it replaces.
   */
  predicate OfficiallyReplaced(latest: VersionInfo, older: VersionInfo, m: map<String, String>) {
    (older.course.code in m && FollowChain(m, older.course.code).0 == latest.course.code) ||
    older.course.code in latest.replacedCodes
  }

  /** The resolution `_resolve_single_duplicate` returns for one pair. */
  function ResolutionOf(latest: VersionInfo, older: VersionInfo, m: map<String, String>): (r: Resolution)
    ensures r.courseCode == older.course.code
    ensures r.action == MarkedReplaced <==> OfficiallyReplaced(latest, older, m)
    ensures r.action == MarkedReplaced ==> r.keptVersion == Some(latest.course.versionId) && r.replacedVersions == [older.course.versionId]
  {
    if OfficiallyReplaced(latest, older, m) then
      Resolution(older.course.code, MarkedReplaced, ReplacedReason(latest), Some(latest.course.versionId), [older.course.versionId])
    else Resolution(older.course.code, QualityIssueCreated, NoReplacementReason, None, [])
  }

  /** One resolution per course after the first of a sorted group, in order. */
  function GroupResolutions(sorted: seq<VersionInfo>, m: map<String, String>): (r: seq<Resolution>)
    requires sorted != []
    ensures |r| == |sorted| - 1
    ensures forall k :: 0 <= k < |r| ==> r[k] == ResolutionOf(sorted[0], sorted[k + 1], m)
    decreases |sorted|
  {
    if |sorted| == 1 then []
    else
      var r := GroupResolutions(sorted[..|sorted| - 1], m);
      r + [ResolutionOf(sorted[0], sorted[|sorted| - 1], m)]
  }

  function Priority(v: VersionInfo): Date { v.priority }

  /** `_resolve_duplicates` over the groups in order: each group sorted latest first, then resolved. */
  function AllResolutions(groups: Dict<seq<VersionInfo>>, m: map<String, String>): (r: seq<Resolution>)
    decreases |groups|
  {
    if groups == [] then []
    else
      var g := groups[|groups| - 1].1;
      AllResolutions(groups[..|groups| - 1], m) + (if g == [] then [] else GroupResolutions(SortByDateDesc(g, Priority), m))
  }

  /** The course each resolution is about: one per group member except the group's latest. */
  lemma {:induction false} AllResolutionsCount(groups: Dict<seq<VersionInfo>>, m: map<String, String>)
    requires forall i :: 0 <= i < |groups| ==> groups[i].1 != []
    ensures |AllResolutions(groups, m)| + |groups| == TotalMembers(groups)
    decreases |groups|
  {
    if groups != [] {
      AllResolutionsCount(groups[..|groups| - 1], m);
    }
  }

  function TotalMembers(groups: Dict<seq<VersionInfo>>): nat
    decreases |groups|
  {
    if groups == [] then 0 else TotalMembers(groups[..|groups| - 1]) + |groups[|groups| - 1].1|
  }

  /** The replacement map: each code a course replaces, mapped to that course's code; later courses win. */
  function ReplacementMap(infos: seq<VersionInfo>): (m: map<String, String>)
    decreases |infos|
  {
    if infos == [] then map[]
    else
      var last := infos[|infos| - 1];
      ReplacementMap(infos[..|infos| - 1]) + map k | k in last.replacedCodes :: last.course.code
  }

  /**
   * A code is in the map exactly when some course replaces it, and it maps to the code of the
   * last course that does.
   */
  lemma {:induction false} ReplacementMapSpec(infos: seq<VersionInfo>, k: String)
    ensures k in ReplacementMap(infos) <==> exists i :: 0 <= i < |infos| && k in infos[i].replacedCodes
    ensures k in ReplacementMap(infos) ==>
              exists i :: (0 <= i < |infos| && k in infos[i].replacedCodes &&
                           ReplacementMap(infos)[k] == infos[i].course.code &&
                           forall j :: i < j < |infos| ==> k !in infos[j].replacedCodes)
    decreases |infos|
  {
    if infos != [] {
      var init := infos[..|infos| - 1];
      ReplacementMapSpec(init, k);
      assert forall i :: 0 <= i < |init| ==> init[i] == infos[i];
    }
  }

  /**
   * `_build_replacement_map` over the current courses: each code a course replaces is mapped to
   * that course's code, later courses overwriting earlier ones; building an info can raise.
   */
  method BuildReplacementMap(courses: seq<Course>) returns (r: Result<map<String, String>>)
    ensures r.Err? <==> InfosOf(courses).Err?
    ensures r.Ok? ==> r.value == ReplacementMap(InfosOf(courses).value)
  {
    var m: map<String, String> := map[];
    for i := 0 to |courses|
      invariant InfosOf(courses[..i]).Ok? && m == ReplacementMap(InfosOf(courses[..i]).value)
    {
      assert courses[..i + 1][..i] == courses[..i];
      var info := InfoOf(courses[i]);
      if info.Err? {
        return Err(info.message);
      }
      m := AssignAll(m, info.value.replacedCodes, info.value.course.code);
      assert InfosOf(courses[..i + 1]).value == InfosOf(courses[..i]).value + [info.value];
    }
    assert courses[..|courses|] == courses;
    r := Ok(m);
  }

  /** One more course adds its info to its title's group, when it has a title. */
  lemma GroupedStep(courses: seq<Course>, i: nat)
    requires i < |courses| && InfosOf(courses[..i + 1]).Ok?
    ensures InfosOf(courses[..i]).Ok? && InfoOf(courses[i]).Ok?
    ensures var g := Grouped(InfosOf(courses[..i]).value);
            var t := TitleKey(courses[i]);
            Grouped(InfosOf(courses[..i + 1]).value) ==
              if t == [] then g else Set(g, t, Get(g, t).GetOr([]) + [InfoOf(courses[i]).value])
  {
    var vs := InfosOf(courses[..i + 1]).value;
    assert courses[..i + 1][..i] == courses[..i];
    assert vs[..i] == InfosOf(courses[..i]).value;
    assert vs == vs[..i] + [vs[i]];
    assert InfoOf(courses[i]) == Ok(vs[i]);
  }

  /** One pass of the grouping loop: the course at `i` joins its title's group, if it has a title. */
  method AddToGroup(groups: Dict<seq<VersionInfo>>, courses: seq<Course>, i: nat) returns (r: Result<Dict<seq<VersionInfo>>>)
    requires i < |courses|
    requires InfosOf(courses[..i]).Ok? ==> groups == Grouped(InfosOf(courses[..i]).value)
    ensures r.Err? ==> InfosOf(courses).Err?
    ensures r.Ok? && InfosOf(courses[..i + 1]).Ok? ==> r.value == Grouped(InfosOf(courses[..i + 1]).value)
  {
    var title := TitleKey(courses[i]);
    if title == [] {
      r := Ok(groups);
    } else {
      var info := InfoOf(courses[i]);
      if info.Err? {
        assert InfoOf(courses[i]).Err?;
        return Err(info.message);
      }
      r := Ok(Set(groups, title, Get(groups, title).GetOr([]) + [info.value]));
    }
    if InfosOf(courses[..i + 1]).Ok? {
      GroupedStep(courses, i);
    }
  }

  /**
   * `_group_courses_by_title`: the infos of the titled courses grouped by title, keeping only
   * titles shared by more than one course.
   */
  method GroupCoursesByTitle(courses: seq<Course>) returns (r: Result<Dict<seq<VersionInfo>>>)
    ensures r.Err? ==> InfosOf(courses).Err?
    ensures InfosOf(courses).Ok? ==> r == Ok(DuplicateGroups(InfosOf(courses).value))
  {
    var groups: Dict<seq<VersionInfo>> := [];
    for i := 0 to |courses|
      invariant InfosOf(courses[..i]).Ok? ==> groups == Grouped(InfosOf(courses[..i]).value)
    {
      var next := AddToGroup(groups, courses, i);
      if next.Err? {
        return Err(next.message);
      }
      groups := next.value;
    }
    assert courses[..|courses|] == courses;
    r := Ok(FilterValues(groups, MoreThanOne));
  }

  function HasAction(a: Action): Resolution -> bool {
    (r: Resolution) => r.action == a
  }

  /** How many resolutions took action `a`. */
  function Count(rs: seq<Resolution>, a: Action): nat {
    |Filter(rs, HasAction(a))|
  }

  lemma CountAppend(a: seq<Resolution>, b: seq<Resolution>)
    ensures forall x :: Count(a + b, x) == Count(a, x) + Count(b, x)
  {
    FilterAppend(a, b, HasAction(MarkedReplaced));
    FilterAppend(a, b, HasAction(QualityIssueCreated));
  }

  lemma CountStep(a: seq<Resolution>, r: Resolution)
    ensures Count(a + [r], MarkedReplaced) == Count(a, MarkedReplaced) + if r.action == MarkedReplaced then 1 else 0
    ensures Count(a + [r], QualityIssueCreated) == Count(a, QualityIssueCreated) + if r.action == QualityIssueCreated then 1 else 0
  {
    CountAppend(a, [r]);
  }

  /** Every resolution is either a replacement or a quality issue. */
  lemma CountSplit(rs: seq<Resolution>)
    ensures Count(rs, MarkedReplaced) + Count(rs, QualityIssueCreated) == |rs|
  {
    FilterPartition(rs, HasAction(MarkedReplaced));
    FilterSameTest(rs, Not(HasAction(MarkedReplaced)), HasAction(QualityIssueCreated));
  }

  /** One more older version adds its own resolution. */
  lemma GroupResolutionsStep(sorted: seq<VersionInfo>, j: nat, m: map<String, String>)
    requires 1 <= j < |sorted|
    ensures GroupResolutions(sorted[..j + 1], m) == GroupResolutions(sorted[..j], m) + [ResolutionOf(sorted[0], sorted[j], m)]
  {
    assert sorted[..j + 1][..j] == sorted[..j];
  }

  function CoursesOf(vs: seq<VersionInfo>): set<Course> {
    set v | v in vs :: v.course
  }

  function CoursesIn(groups: Dict<seq<VersionInfo>>): set<Course> {
    set e, v | e in groups && v in e.1 :: v.course
  }

  /** One more group adds the resolutions of its sorted versions. */
  lemma AllResolutionsStep(groups: Dict<seq<VersionInfo>>, i: nat, m: map<String, String>)
    requires i < |groups| && groups[i].1 != []
    ensures AllResolutions(groups[..i + 1], m) == AllResolutions(groups[..i], m) + GroupResolutions(SortByDateDesc(groups[i].1, Priority), m)
  {
    assert groups[..i + 1][..i] == groups[..i];
  }

  /** Sorting keeps the courses. */
  lemma SortedCourses(versions: seq<VersionInfo>)
    ensures CoursesOf(SortByDateDesc(versions, Priority)) == CoursesOf(versions)
  {
    var sorted := SortByDateDesc(versions, Priority);
    forall v | v in sorted ensures v in versions {
      assert v in multiset(sorted);
    }
    forall v | v in versions ensures v in sorted {
      assert v in multiset(versions);
    }
  }

  lemma GroupCourses(groups: Dict<seq<VersionInfo>>, i: nat)
    requires i < |groups|
    ensures CoursesOf(groups[i].1) <= CoursesIn(groups)
  {
    assert groups[i] in groups;
  }

  function Elements(courses: seq<Course>): set<Course> {
    set c | c in courses
  }

  /**
   * Since the start of the method, no course of `cs` became "replaced but current", and on a
   * dry run none changed at all.
   */
  twostate predicate FlagsKept(cs: set<Course>, dryRun: bool)
    reads cs
  {
    (forall c :: c in cs && !old(c.ReplacedButCurrent()) ==> !c.ReplacedButCurrent()) &&
    (dryRun ==> forall c :: c in cs ==> c.SameFlags())
  }

  /** What `find_duplicate_courses` returns for the infos of the current courses. */
  function Resolutions(infos: seq<VersionInfo>): seq<Resolution> {
    AllResolutions(DuplicateGroups(infos), ReplacementMap(infos))
  }

  /** The result object of `detect_and_resolve_duplicates`. */
  datatype Outcome = Outcome(success: bool, resolvedCount: nat, qualityIssuesCreated: nat, error: Option<String>)

  function ReplacedSummary(reason: String): String {
    "Course marked as replaced: " + reason
  }

  /** The findings of `validate_version_consistency` this model keeps. */
  datatype ConsistencyIssue =
    | MultipleCurrentVersions(code: String, count: nat)
    | ReplacedStillCurrent(code: String, courseId: int)

  /** The codes of the current courses, in order, repeats included. */
  function CurrentCodes(courses: seq<Course>): (r: seq<String>)
    reads courses
    ensures forall k :: k in r <==> exists c :: c in courses && c.isCurrent && c.code == k
  {
    if courses == [] then []
    else (if courses[0].isCurrent then [courses[0].code] else []) + CurrentCodes(courses[1..])
  }

  /** One issue per code of `distinct` that occurs more than once in `all`, with its count. */
  function Multiples(distinct: seq<String>, all: seq<String>): (r: seq<ConsistencyIssue>)
    ensures forall x :: x in r ==> x.MultipleCurrentVersions?
    ensures forall k, n :: MultipleCurrentVersions(k, n) in r <==> k in distinct && n == multiset(all)[k] && n > 1
  {
    if distinct == [] then []
    else
      var k := distinct[0];
      (if multiset(all)[k] > 1 then [MultipleCurrentVersions(k, multiset(all)[k])] else []) + Multiples(distinct[1..], all)
  }

  /** One issue per course marked replaced that is still current, in order. */
  function ReplacedStillCurrentIssues(courses: seq<Course>): (r: seq<ConsistencyIssue>)
    reads courses
    ensures forall x :: x in r ==> x.ReplacedStillCurrent?
    ensures forall k, id :: ReplacedStillCurrent(k, id) in r <==>
              exists c :: c in courses && c.ReplacedButCurrent() && c.code == k && c.id == id
  {
    if courses == [] then []
    else
      var c := courses[0];
      (if c.ReplacedButCurrent() then [ReplacedStillCurrent(c.code, c.id)] else []) + ReplacedStillCurrentIssues(courses[1..])
  }

  /**
   * `validate_version_consistency`: a code with more than one current course is reported with
   * its count, and every course both replaced and current is reported.
   */
  function ValidateVersionConsistency(courses: seq<Course>): (r: seq<ConsistencyIssue>)
    reads courses
    ensures forall k, n :: MultipleCurrentVersions(k, n) in r <==> n == multiset(CurrentCodes(courses))[k] && n > 1
    ensures forall k, id :: ReplacedStillCurrent(k, id) in r <==>
              exists c :: c in courses && c.ReplacedButCurrent() && c.code == k && c.id == id
  {
    var codes := CurrentCodes(courses);
    Multiples(Dedup(codes), codes) + ReplacedStillCurrentIssues(courses)
  }

  /** A version history entry (a replacement) and a quality issue, as the manager writes them. */
  datatype HistoryEntry = HistoryEntry(courseId: int, previousVersionId: int, summary: String)
  datatype QualityIssue = QualityIssue(courseId: int, newerCode: String)

  /** The manager's statistics and what it writes besides the course flags. */
  class Manager {
    var coursesMarkedReplaced: nat
    var replacementChainsFollowed: nat
    var qualityIssuesCreated: nat
    var history: seq<HistoryEntry>
    var issues: seq<QualityIssue>

    constructor()
      ensures coursesMarkedReplaced == 0 && replacementChainsFollowed == 0 && qualityIssuesCreated == 0
      ensures history == [] && issues == []
    {
      coursesMarkedReplaced := 0;
      replacementChainsFollowed := 0;
      qualityIssuesCreated := 0;
      history := [];
      issues := [];
    }

    /** `_follow_replacement_chain`: the chain's end, counting every step followed. */
    method FollowReplacementChain(code: String, m: map<String, String>) returns (end: String)
      modifies this
      ensures end == FollowChain(m, code).0
      ensures replacementChainsFollowed == old(replacementChainsFollowed) + FollowChain(m, code).1
      ensures coursesMarkedReplaced == old(coursesMarkedReplaced) && qualityIssuesCreated == old(qualityIssuesCreated)
      ensures history == old(history) && issues == old(issues)
    {
      var current := code;
      var visited: set<String> := {};
      ghost var steps: nat := 0;
      while current in m
        invariant visited <= m.Keys
        invariant FollowFrom(m, current, visited).0 == FollowChain(m, code).0
        invariant steps + FollowFrom(m, current, visited).1 == FollowChain(m, code).1
        invariant replacementChainsFollowed == old(replacementChainsFollowed) + steps
        invariant coursesMarkedReplaced == old(coursesMarkedReplaced) && qualityIssuesCreated == old(qualityIssuesCreated)
        invariant history == old(history) && issues == old(issues)
        decreases m.Keys - visited
      {
        if current in visited {
          break;
        }
        visited := visited + {current};
        current := m[current];
        replacementChainsFollowed := replacementChainsFollowed + 1;
        steps := steps + 1;
      }
      end := current;
    }

    /**
     * `_mark_course_replaced`: unless `dryRun`, the older course stops being current, is marked
     * replaced by the newer course and gets a history entry; the resolution is the same either way.
     */
    method MarkCourseReplaced(older: VersionInfo, newer: VersionInfo, reason: String, dryRun: bool) returns (res: Resolution)
      modifies this, older.course
      ensures res == Resolution(older.course.code, MarkedReplaced, reason, Some(newer.course.versionId), [older.course.versionId])
      ensures dryRun ==> unchanged(this, older.course)
      ensures !dryRun ==> !older.course.isCurrent && older.course.isReplaced && older.course.replacedById == Some(newer.course.id)
      ensures !dryRun ==> coursesMarkedReplaced == old(coursesMarkedReplaced) + 1 &&
                          history == old(history) + [HistoryEntry(older.course.id, older.course.versionId, ReplacedSummary(reason))]
      ensures !dryRun ==> replacementChainsFollowed == old(replacementChainsFollowed) &&
                          qualityIssuesCreated == old(qualityIssuesCreated) && issues == old(issues)
    {
      if !dryRun {
        older.course.isCurrent := false;
        older.course.isReplaced := true;
        older.course.replacedById := Some(newer.course.id);
        history := history + [HistoryEntry(older.course.id, older.course.versionId, ReplacedSummary(reason))];
        coursesMarkedReplaced := coursesMarkedReplaced + 1;
      }
      res := Resolution(older.course.code, MarkedReplaced, reason, Some(newer.course.versionId), [older.course.versionId]);
    }

    /** `_create_quality_issue`: unless `dryRun`, an issue is recorded for the older course. */
    method CreateQualityIssue(older: VersionInfo, newer: VersionInfo, dryRun: bool) returns (res: Resolution)
      modifies this
      ensures res == Resolution(older.course.code, QualityIssueCreated, NoReplacementReason, None, [])
      ensures dryRun ==> unchanged(this)
      ensures !dryRun ==> qualityIssuesCreated == old(qualityIssuesCreated) + 1 &&
                          issues == old(issues) + [QualityIssue(older.course.id, newer.course.code)]
      ensures !dryRun ==> replacementChainsFollowed == old(replacementChainsFollowed) &&
                          coursesMarkedReplaced == old(coursesMarkedReplaced) && history == old(history)
    {
      if !dryRun {
        issues := issues + [QualityIssue(older.course.id, newer.course.code)];
        qualityIssuesCreated := qualityIssuesCreated + 1;
      }
      res := Resolution(older.course.code, QualityIssueCreated, NoReplacementReason, None, []);
    }

    /**
     * `_resolve_single_duplicate`: the older course is marked replaced exactly when it is
     * officially replaced by the latest one; otherwise a quality issue is created. Only the older
     * course's flags can change, and never into "replaced but current".
     */
    method ResolveSingleDuplicate(latest: VersionInfo, older: VersionInfo, m: map<String, String>, dryRun: bool, ghost cs: set<Course>)
      returns (res: Resolution)
      requires older.course in cs
      modifies this, older.course
      ensures res == ResolutionOf(latest, older, m)
      ensures !dryRun && res.action == MarkedReplaced ==> !older.course.isCurrent && older.course.replacedById == Some(latest.course.id)
      ensures (dryRun || res.action == QualityIssueCreated) ==> unchanged(older.course)
      ensures !older.course.ReplacedButCurrent() || old(older.course.ReplacedButCurrent())
      ensures coursesMarkedReplaced == old(coursesMarkedReplaced) + (if !dryRun && res.action == MarkedReplaced then 1 else 0)
      ensures qualityIssuesCreated == old(qualityIssuesCreated) + (if !dryRun && res.action == QualityIssueCreated then 1 else 0)
      ensures |history| == |old(history)| + (if !dryRun && res.action == MarkedReplaced then 1 else 0)
      ensures |issues| == |old(issues)| + (if !dryRun && res.action == QualityIssueCreated then 1 else 0)
      ensures replacementChainsFollowed >= old(replacementChainsFollowed)
      ensures FlagsKept(cs, dryRun) && Tallied([res], dryRun)
    {
      var official := false;
      if older.course.code in m {
        var final := FollowReplacementChain(older.course.code, m);
        if final == latest.course.code {
          official := true;
        }
      }
      if older.course.code in latest.replacedCodes {
        official := true;
      }
      if official {
        res := MarkCourseReplaced(older, latest, ReplacedReason(latest), dryRun);
      } else {
        res := CreateQualityIssue(older, latest, dryRun);
      }
    }

    /**
     * Since the start of the method, the counters and what was written grew by the replacements
     * and quality issues among `res`, or not at all on a dry run.
     */
    twostate predicate Tallied(res: seq<Resolution>, dryRun: bool)
      reads this
    {
      coursesMarkedReplaced == old(coursesMarkedReplaced) + (if dryRun then 0 else Count(res, MarkedReplaced)) &&
      qualityIssuesCreated == old(qualityIssuesCreated) + (if dryRun then 0 else Count(res, QualityIssueCreated)) &&
      |history| == |old(history)| + (if dryRun then 0 else Count(res, MarkedReplaced)) &&
      |issues| == |old(issues)| + (if dryRun then 0 else Count(res, QualityIssueCreated))
    }

    /**
     * One group of `_resolve_duplicates`: the versions sorted latest first (stably), then
     * resolved.
     */
    method ResolveGroup(versions: seq<VersionInfo>, m: map<String, String>, dryRun: bool, ghost cs: set<Course>) returns (res: seq<Resolution>)
      requires versions != [] && CoursesOf(versions) <= cs
      modifies this, cs
      ensures res == GroupResolutions(SortByDateDesc(versions, Priority), m)
      ensures FlagsKept(cs, dryRun)
      ensures Tallied(res, dryRun)
    {
      var sorted := SortByDateDesc(versions, Priority);
      SortedCourses(versions);
      res := ResolveSorted(sorted, m, dryRun, cs);
    }

    /**
     * The inner loop of `_resolve_duplicates`: with `sorted` latest first, every later version is
     * resolved against the first one, in order.
     */
    method ResolveSorted(sorted: seq<VersionInfo>, m: map<String, String>, dryRun: bool, ghost cs: set<Course>) returns (res: seq<Resolution>)
      requires sorted != [] && CoursesOf(sorted) <= cs
      modifies this, cs
      ensures res == GroupResolutions(sorted, m)
      ensures FlagsKept(cs, dryRun)
      ensures Tallied(res, dryRun)
    {
      res := [];
      for j := 1 to |sorted|
        invariant res == GroupResolutions(sorted[..j], m)
        invariant FlagsKept(cs, dryRun)
        invariant Tallied(res, dryRun)
      {
        GroupResolutionsStep(sorted, j, m);
        var older := sorted[j];
        assert older.course in CoursesOf(sorted);
        label before:
        var one := ResolveNext(sorted[0], older, m, dryRun, cs);
        forall c | c in cs && !old(c.ReplacedButCurrent()) ensures !c.ReplacedButCurrent() {
          assert !old@before(c.ReplacedButCurrent());
        }
        if dryRun {
          forall c | c in cs ensures c.SameFlags() {
            assert c.SameFlags@before();
          }
        }
        CountStep(res, one);
        res := res + [one];
      }
      assert sorted[..|sorted|] == sorted;
    }

    /** One step of the inner loop, seen through what the loop needs of it. */
    method ResolveNext(latest: VersionInfo, older: VersionInfo, m: map<String, String>, dryRun: bool, ghost cs: set<Course>)
      returns (one: Resolution)
      requires older.course in cs
      modifies this, cs
      ensures one == ResolutionOf(latest, older, m)
      ensures FlagsKept(cs, dryRun) && Tallied([one], dryRun)
    {
      one := ResolveSingleDuplicate(latest, older, m, dryRun, cs);
    }

    /**
     * `_resolve_duplicates`: each group sorted latest first (stably), and every older version
     * resolved against the latest, group after group. No course becomes "replaced but current",
     * and a dry run changes no course.
     */
    method ResolveDuplicates(groups: Dict<seq<VersionInfo>>, m: map<String, String>, dryRun: bool, ghost cs: set<Course>)
      returns (res: seq<Resolution>)
      requires forall i :: 0 <= i < |groups| ==> groups[i].1 != []
      requires CoursesIn(groups) <= cs
      modifies this, cs
      ensures res == AllResolutions(groups, m)
      ensures FlagsKept(cs, dryRun)
      ensures Tallied(res, dryRun)
    {
      res := [];
      for i := 0 to |groups|
        invariant res == AllResolutions(groups[..i], m)
        invariant FlagsKept(cs, dryRun)
        invariant Tallied(res, dryRun)
      {
        GroupCourses(groups, i);
        var here := ResolveGroup(groups[i].1, m, dryRun, cs);
        CountAppend(res, here);
        AllResolutionsStep(groups, i, m);
        res := res + here;
      }
      assert groups[..|groups|] == groups;
    }

    /**
     * `find_duplicate_courses` over the current courses: the replacement map, then the
     * duplicate groups, then their resolution. Building a course's info can raise, and it does
     * so before any course is changed.
     */
    method FindDuplicateCourses(courses: seq<Course>, dryRun: bool) returns (r: Result<seq<Resolution>>)
      modifies this, courses
      ensures r.Err? <==> InfosOf(courses).Err?
      ensures r.Ok? ==> r.value == Resolutions(InfosOf(courses).value)
      ensures r.Ok? ==> FlagsKept(Elements(courses), dryRun)
      ensures r.Err? ==> unchanged(this, courses)
      ensures r.Ok? ==> coursesMarkedReplaced == old(coursesMarkedReplaced) + (if dryRun then 0 else Count(r.value, MarkedReplaced))
      ensures r.Ok? ==> qualityIssuesCreated == old(qualityIssuesCreated) + (if dryRun then 0 else Count(r.value, QualityIssueCreated))
    {
      var m := BuildReplacementMap(courses);
      if m.Err? {
        return Err(m.message);
      }
      var groups := GroupCoursesByTitle(courses);
      DuplicateGroupsMembers(courses);
      var res := ResolveDuplicates(groups.value, m.value, dryRun, Elements(courses));
      r := Ok(res);
    }

    /**
     * `detect_and_resolve_duplicates`: a real run whose outcome counts the courses marked
     * replaced and the quality issues created, or reports the failure.
     */
    method DetectAndResolveDuplicates(courses: seq<Course>) returns (o: Outcome)
      modifies this, courses
      ensures o.success <==> InfosOf(courses).Ok?
      ensures o.success ==> o.error.None? && o.resolvedCount + o.qualityIssuesCreated == |Resolutions(InfosOf(courses).value)|
      ensures o.success ==> o.resolvedCount == Count(Resolutions(InfosOf(courses).value), MarkedReplaced)
      ensures !o.success ==> o.error.Some? && o.resolvedCount == 0 && o.qualityIssuesCreated == 0
      ensures o.success ==> FlagsKept(Elements(courses), false)
      ensures !o.success ==> unchanged(this, courses)
    {
      var r := FindDuplicateCourses(courses, false);
      if r.Err? {
        o := Outcome(false, 0, 0, Some(r.message));
      } else {
        CountSplit(r.value);
        o := Outcome(true, Count(r.value, MarkedReplaced), Count(r.value, QualityIssueCreated), None);
      }
    }
  }
}
