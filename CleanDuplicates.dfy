/**
 * The file-based duplicate cleaner. Course files are JSON documents in one directory; files
 * whose stripped titles agree are versions of one course. Each group is sorted by priority
 * date, latest first. The latest is kept. Each older file is moved to a backup directory when
 * an official replacement relationship links it to the kept one, and is otherwise only
 * reported for manual review. Reading the directory and the files is the parameter `load`,
 * and moving a file is the parameter `moveFails`.
 */
module CleanDuplicates {
  import opened Wrappers
  import opened Text
  import opened Seqs
  import opened Dicts
  import opened Dates
  import opened Replacements
  import opened Paths
  import Sorting

  /** The words that send a date text to the season branch, in the order they are tried. */
  const SeasonWords: seq<String> := ["term", "semester", "ht", "vt"]

  /** The season words that mean the autumn term. */
  const AutumnWords: seq<String> := ["autumn", "ht"]

  /** Some word of `words` occurs in `lower`. */
  predicate MentionsAny(lower: String, words: seq<String>) {
    exists n :: 0 <= n < |words| && Contains(lower, words[n])
  }

  /**
   * The season branch of `parse_date` on the stripped text `t`. It applies when `t` names a
   * season word and holds four digits. It gives 1 August of that year for an autumn word and
   * 1 January otherwise. A year of 0000 makes `datetime` raise.
   */
  function SeasonDate(t: String, season: seq<String>, autumn: seq<String>): (r: Option<Result<Date>>)
    ensures r.Some? <==> MentionsAny(Lower(t), season) && FirstYear(t).Some?
    ensures r.Some? ==> (r.value.Err? <==> FirstYear(t) == Some(0))
    ensures r.Some? && r.value.Ok? ==>
              Valid(r.value.value) && r.value.value.year == FirstYear(t).value && r.value.value.day == 1 &&
              r.value.value.month == (if MentionsAny(Lower(t), autumn) then 8 else 1)
  {
    var year := FirstYear(t);
    if MentionsAny(Lower(t), season) && year.Some? then
      if year.value == 0 then Some(Err(YearZero))
      else Some(Ok(Date(year.value, if MentionsAny(Lower(t), autumn) then 8 else 1, 1)))
    else None
  }

  /**
   * `parse_date`. Blank text is `datetime.min`. Otherwise the season branch decides when it
   * applies, and the three formats decide when it does not. A text that no format reads is
   * `datetime.min`. The only failure is a season text whose first four digits are 0000.
   */
  function ParseDate(s: String): (r: Result<Date>)
    ensures r.Ok? ==> Valid(r.value)
    ensures IsBlank(s) ==> r == Ok(MinDate)
    ensures r.Err? <==> !IsBlank(s) && MentionsAny(Lower(Strip(s)), SeasonWords) && FirstYear(Strip(s)) == Some(0)
  {
    MinDateLeast(MinDate);
    if IsBlank(s) then Ok(MinDate)
    else SeasonDate(Strip(s), SeasonWords, AutumnWords).GetOr(Ok(ParseFormats(Strip(s))))
  }

  /** A season text with a non-zero year is the first day of its season's month in that year. */
  lemma SeasonParsed(s: String, y: int)
    requires !IsBlank(s) && MentionsAny(Lower(Strip(s)), SeasonWords)
    requires FirstYear(Strip(s)) == Some(y) && y != 0
    ensures ParseDate(s) == Ok(Date(y, if MentionsAny(Lower(Strip(s)), AutumnWords) then 8 else 1, 1))
  {
  }

  /** The season words spelled out. */
  lemma SeasonWordsMentioned(l: String)
    ensures MentionsAny(l, SeasonWords) <==>
              Contains(l, "term") || Contains(l, "semester") || Contains(l, "ht") || Contains(l, "vt")
  {
    assert SeasonWords[0] == "term" && SeasonWords[1] == "semester" && SeasonWords[2] == "ht" && SeasonWords[3] == "vt";
  }

  /** The autumn words spelled out. */
  lemma AutumnWordsMentioned(l: String)
    ensures MentionsAny(l, AutumnWords) <==> Contains(l, "autumn") || Contains(l, "ht")
  {
    assert AutumnWords[0] == "autumn" && AutumnWords[1] == "ht";
  }

  /** An autumn term text with a year ("Autumn term 2025", "HT 2025") starts on 1 August. */
  lemma AutumnTermDate(s: String, y: int)
    requires !IsBlank(s)
    requires Contains(Lower(Strip(s)), "term") || Contains(Lower(Strip(s)), "semester") || Contains(Lower(Strip(s)), "ht")
    requires Contains(Lower(Strip(s)), "autumn") || Contains(Lower(Strip(s)), "ht")
    requires FirstYear(Strip(s)) == Some(y) && y != 0
    ensures ParseDate(s) == Ok(Date(y, 8, 1))
  {
    SeasonWordsMentioned(Lower(Strip(s)));
    AutumnWordsMentioned(Lower(Strip(s)));
    SeasonParsed(s, y);
  }

  /** A season text with a year and no autumn word ("Spring term 2024", "VT 2024") starts on 1 January. */
  lemma SpringTermDate(s: String, y: int)
    requires !IsBlank(s)
    requires Contains(Lower(Strip(s)), "term") || Contains(Lower(Strip(s)), "semester") || Contains(Lower(Strip(s)), "vt")
    requires !Contains(Lower(Strip(s)), "autumn") && !Contains(Lower(Strip(s)), "ht")
    requires FirstYear(Strip(s)) == Some(y) && y != 0
    ensures ParseDate(s) == Ok(Date(y, 1, 1))
  {
    SeasonWordsMentioned(Lower(Strip(s)));
    AutumnWordsMentioned(Lower(Strip(s)));
    SeasonParsed(s, y);
  }

  /** Without a season word only the formats are tried. */
  lemma NoSeasonWordUsesFormats(s: String)
    requires !IsBlank(s)
    requires !Contains(Lower(Strip(s)), "term") && !Contains(Lower(Strip(s)), "semester")
    requires !Contains(Lower(Strip(s)), "ht") && !Contains(Lower(Strip(s)), "vt")
    ensures ParseDate(s) == Ok(ParseFormats(Strip(s)))
  {
    SeasonWordsMentioned(Lower(Strip(s)));
  }

  /** The three dates `get_course_priority_date` returns. */
  datatype PriorityDates = PriorityDates(priority: Date, confirmation: Date, validFrom: Date)

  /**
   * `get_course_priority_date`: both dates parsed, the confirmation date first, and the later
   * of the two as the priority.
   */
  function PriorityOf(confirmation: String, validFrom: String): (r: Result<PriorityDates>)
    ensures r.Err? <==> ParseDate(confirmation).Err? || ParseDate(validFrom).Err?
    ensures r.Ok? ==> r.value.confirmation == ParseDate(confirmation).value && r.value.validFrom == ParseDate(validFrom).value
    ensures r.Ok? ==> AtMost(r.value.confirmation, r.value.priority) && AtMost(r.value.validFrom, r.value.priority)
    ensures r.Ok? ==> r.value.priority == r.value.confirmation || r.value.priority == r.value.validFrom
  {
    match ParseDate(confirmation)
    case Err(e) => Err(e)
    case Ok(c) =>
      match ParseDate(validFrom)
      case Err(e) => Err(e)
      case Ok(v) => Ok(PriorityDates(Later(c, v), c, v))
  }

  const AdditionalInformation: String := "Additional information"

  /** The "Additional information" section's text; a missing or null section reads as empty. */
  function AdditionalText(sections: Dict<Option<String>>): String {
    Get(sections, AdditionalInformation).GetOr(None).GetOr([])
  }

  /** One of the four replacement patterns matches somewhere in `text`. */
  ghost predicate PatternMatches(text: String) {
    exists n, j :: 0 <= n < |ReplacementPhrases| && 0 <= j <= |text| && PhraseCodeAt(text, j, ReplacementPhrases[n]).Some?
  }

  /**
   * `extract_replaced_courses`: the codes the four patterns find in the "Additional information"
   * text, each once. No other section is read, and an empty text gives none.
   */
  function ExtractReplacedCourses(sections: Dict<Option<String>>): (r: seq<String>)
    ensures Distinct(r)
    ensures forall g :: g in r ==> IsReplacementCode(g) && exists a :: OccursAt(AdditionalText(sections), g, a)
    ensures AdditionalText(sections) == [] ==> r == []
    ensures AdditionalText(sections) != [] ==> (r != [] <==> PatternMatches(AdditionalText(sections)))
  {
    var text := AdditionalText(sections);
    if text == [] then []
    else
      var found := CodesFound(text, ReplacementPhrases);
      MatchFindsCode(text);
      assert found != [] ==> found[0] in Dedup(found);
      Dedup(found)
  }

  lemma MatchFindsCode(text: String)
    ensures PatternMatches(text) ==> CodesFound(text, ReplacementPhrases) != []
  {
    if PatternMatches(text) {
      var n, j :| 0 <= n < |ReplacementPhrases| && 0 <= j <= |text| && PhraseCodeAt(text, j, ReplacementPhrases[n]).Some?;
      SomeCodeFound(text, ReplacementPhrases, n, j);
    }
  }

  /**
   * `follow_replacement_chain`: step from replaced code to replacing code until a code that is
   * not replaced, or until a code already left once (a cycle).
   */
  method FollowReplacementChain(code: String, m: map<String, String>) returns (end: String)
    ensures end == FollowChain(m, code).0
  {
    var current := code;
    var visited: set<String> := {};
    while current in m
      invariant visited <= m.Keys
      invariant FollowFrom(m, current, visited).0 == FollowChain(m, code).0
      decreases m.Keys - visited
    {
      if current in visited {
        break;
      }
      visited := visited + {current};
      current := m[current];
    }
    end := current;
  }

  /** What `load_course_metadata` returns: the metadata fields the cleaner reads, and the sections. */
  datatype Metadata = Metadata(
    courseCode: Option<String>,
    courseTitle: Option<String>,
    confirmationDate: Option<String>,
    validFromDate: Option<String>,
    sections: Dict<Option<String>>)

  /** `metadata.get('course_code', file_path.stem)`. */
  function CodeOf(path: String, md: Metadata): String {
    md.courseCode.GetOr(PathStem(Basename(path)))
  }

  /** What `load_course_metadata` returns for a file it cannot read: `{}`. */
  const NoMetadata: Metadata := Metadata(None, None, None, None, [])

  /** The codes the file at `p` replaces; a file that does not load replaces none. */
  function ReplacedBy(load: String -> Option<Metadata>, p: String): seq<String> {
    ExtractReplacedCourses(load(p).GetOr(NoMetadata).sections)
  }

  /** The course code of the file at `p`. */
  function CodeAt(load: String -> Option<Metadata>, p: String): String {
    CodeOf(p, load(p).GetOr(NoMetadata))
  }

  /**
   * The replacement map built from the files in the order given: each code a file replaces is
   * mapped to that file's course code, later files overwriting earlier ones. A file that does
   * not load adds nothing.
   */
  function MapFrom(paths: seq<String>, load: String -> Option<Metadata>): map<String, String> {
    Assignments(paths, p => ReplacedBy(load, p), p => CodeAt(load, p))
  }

  /**
   * A code is in the map exactly when some file replaces it. It maps to the code of the last
   * file that does.
   */
  lemma MapFromSpec(paths: seq<String>, load: String -> Option<Metadata>, k: String)
    ensures k in MapFrom(paths, load) <==> exists i :: 0 <= i < |paths| && k in ReplacedBy(load, paths[i])
    ensures k in MapFrom(paths, load) ==>
              exists i :: (0 <= i < |paths| && k in ReplacedBy(load, paths[i]) &&
                           MapFrom(paths, load)[k] == CodeAt(load, paths[i]) &&
                           forall j :: i < j < |paths| ==> k !in ReplacedBy(load, paths[j]))
  {
    AssignmentsSpec(paths, p => ReplacedBy(load, p), p => CodeAt(load, p), k);
  }

  lemma MapFromStep(paths: seq<String>, load: String -> Option<Metadata>, i: nat)
    requires i < |paths|
    ensures MapFrom(paths[..i + 1], load) == MapFrom(paths[..i], load) + map k | k in ReplacedBy(load, paths[i]) :: CodeAt(load, paths[i])
  {
    AssignmentsStep(paths, p => ReplacedBy(load, p), p => CodeAt(load, p), i);
  }

  /** A file that does not load leaves the map as it is. */
  lemma UnloadedReplacesNothing(load: String -> Option<Metadata>, p: String, m: map<String, String>)
    requires load(p).None?
    ensures (m + map k | k in ReplacedBy(load, p) :: CodeAt(load, p)) == m
  {
    assert ReplacedBy(load, p) == [];
  }

  /**
   * `build_complete_replacement_map`: the files are read in sorted path order, each file's
   * replaced codes mapped to its course code.
   */
  method BuildCompleteReplacementMap(paths: seq<String>, load: String -> Option<Metadata>) returns (m: map<String, String>)
    ensures m == MapFrom(Sorting.Sort(paths), load)
  {
    var sorted := Sorting.Sort(paths);
    m := AssignReplacements(sorted, load);
  }

  /** The loop of `build_complete_replacement_map` over files already in order. */
  method AssignReplacements(paths: seq<String>, load: String -> Option<Metadata>) returns (m: map<String, String>)
    ensures m == MapFrom(paths, load)
  {
    m := map[];
    for i := 0 to |paths|
      invariant m == MapFrom(paths[..i], load)
    {
      MapFromStep(paths, load, i);
      var md := load(paths[i]);
      if md.Some? {
        m := AssignAll(m, ReplacedBy(load, paths[i]), CodeAt(load, paths[i]));
      } else {
        UnloadedReplacesNothing(load, paths[i], m);
      }
    }
    assert paths[..|paths|] == paths;
  }

  /** The order in which the directory lists the files does not change the map. */
  lemma MapIndependentOfListing(p1: seq<String>, p2: seq<String>, load: String -> Option<Metadata>)
    requires multiset(p1) == multiset(p2)
    ensures MapFrom(Sorting.Sort(p1), load) == MapFrom(Sorting.Sort(p2), load)
  {
    Sorting.SortedUnique(Sorting.Sort(p1), Sorting.Sort(p2));
  }

  /** The stripped title, `''` when the metadata has none. */
  function TitleOf(md: Metadata): String {
    Strip(md.courseTitle.GetOr([]))
  }

  /** A file the grouping phase records: it loads and its title is not blank. */
  predicate Titled(load: String -> Option<Metadata>, p: String) {
    load(p).Some? && TitleOf(load(p).value) != []
  }

  function IsTitled(load: String -> Option<Metadata>): String -> bool {
    p => Titled(load, p)
  }

  /** The record kept for one titled file. */
  datatype Entry = Entry(path: String, code: String, title: String, dates: PriorityDates, replaced: seq<String>)

  function EntryTitle(e: Entry): String { e.title }

  function EntryPriority(e: Entry): Date { e.dates.priority }

  /** The record of the file at `p`; computing its dates can raise. */
  function EntryAt(load: String -> Option<Metadata>, p: String): Result<Entry> {
    var md := load(p).GetOr(NoMetadata);
    match PriorityOf(md.confirmationDate.GetOr([]), md.validFromDate.GetOr([]))
    case Err(e) => Err(e)
    case Ok(d) => Ok(Entry(p, CodeOf(p, md), TitleOf(md), d, ExtractReplacedCourses(md.sections)))
  }

  function EntryFn(load: String -> Option<Metadata>): String -> Result<Entry> {
    p => EntryAt(load, p)
  }

  /** The records of the titled files in directory order; the first failure propagates. */
  function Entries(paths: seq<String>, load: String -> Option<Metadata>): Result<seq<Entry>> {
    MapAll(Filter(paths, IsTitled(load)), EntryFn(load))
  }

  /** The record of a titled file carries the file's path, code and (non-blank) title. */
  lemma EntryFields(load: String -> Option<Metadata>, p: String)
    requires Titled(load, p) && EntryAt(load, p).Ok?
    ensures var e := EntryAt(load, p).value;
            e.path == p && e.title == TitleOf(load(p).value) && e.title != [] && e.code == CodeOf(p, load(p).value)
  {
  }

  /**
   * The grouping phase fails exactly when some titled file has a date that raises. Otherwise
   * every record is that of a titled file.
   */
  lemma EntriesSpec(paths: seq<String>, load: String -> Option<Metadata>)
    ensures Entries(paths, load).Err? <==> exists i :: 0 <= i < |paths| && Titled(load, paths[i]) && EntryAt(load, paths[i]).Err?
    ensures Entries(paths, load).Ok? ==>
              forall k :: 0 <= k < |Entries(paths, load).value| ==>
                exists i :: 0 <= i < |paths| && Titled(load, paths[i]) && EntryAt(load, paths[i]) == Ok(Entries(paths, load).value[k])
  {
    MapAllFiltered(paths, IsTitled(load), EntryFn(load));
  }

  /** One more file adds its record to its title's group, when it has a title. */
  lemma GroupedStep(paths: seq<String>, load: String -> Option<Metadata>, i: nat)
    requires i < |paths| && Entries(paths[..i], load).Ok?
    requires Titled(load, paths[i]) ==> EntryAt(load, paths[i]).Ok?
    ensures Entries(paths[..i + 1], load).Ok?
    ensures var g := GroupBy(Entries(paths[..i], load).value, EntryTitle);
            GroupBy(Entries(paths[..i + 1], load).value, EntryTitle) ==
              if Titled(load, paths[i]) then
                var e := EntryAt(load, paths[i]).value;
                Set(g, e.title, Get(g, e.title).GetOr([]) + [e])
              else g
  {
    var es := Entries(paths[..i], load).value;
    MapAllFilterStep(paths, i, IsTitled(load), EntryFn(load));
    if Titled(load, paths[i]) {
      EntryFields(load, paths[i]);
      GroupBySnoc(es, EntryAt(load, paths[i]).value, EntryTitle);
    } else {
      assert es + [] == es;
    }
  }

  /** One pass of the grouping loop: the file at `i` joins its title's group, if it has a title. */
  method AddToGroup(groups: Dict<seq<Entry>>, paths: seq<String>, load: String -> Option<Metadata>, i: nat)
    returns (r: Result<Dict<seq<Entry>>>)
    requires i < |paths| && Entries(paths[..i], load).Ok?
    requires groups == GroupBy(Entries(paths[..i], load).value, EntryTitle)
    ensures r.Err? ==> Entries(paths, load).Err?
    ensures r.Ok? ==> Entries(paths[..i + 1], load).Ok? && r.value == GroupBy(Entries(paths[..i + 1], load).value, EntryTitle)
  {
    var md := load(paths[i]);
    if md.None? || TitleOf(md.value) == [] {
      r := Ok(groups);
    } else {
      var e := EntryAt(load, paths[i]);
      if e.Err? {
        EntriesSpec(paths, load);
        return Err(e.message);
      }
      r := Ok(Set(groups, e.value.title, Get(groups, e.value.title).GetOr([]) + [e.value]));
    }
    GroupedStep(paths, load, i);
  }

  /** The grouping phase of `find_duplicate_courses`: the records of the titled files, grouped by title. */
  method CollectByTitle(paths: seq<String>, load: String -> Option<Metadata>) returns (r: Result<Dict<seq<Entry>>>)
    ensures r.Err? <==> Entries(paths, load).Err?
    ensures r.Ok? ==> r.value == GroupBy(Entries(paths, load).value, EntryTitle)
  {
    var groups: Dict<seq<Entry>> := [];
    for i := 0 to |paths|
      invariant Entries(paths[..i], load).Ok? && groups == GroupBy(Entries(paths[..i], load).value, EntryTitle)
    {
      var next := AddToGroup(groups, paths, load, i);
      if next.Err? {
        return Err(next.message);
      }
      groups := next.value;
    }
    assert paths[..|paths|] == paths;
    r := Ok(groups);
  }

  /**
   * Check 1 or check 2 of `find_duplicate_courses`: the replacement chain from `e`'s code ends
   * at the kept course's code, or the kept course names `e`'s code as one it replaces.
   */
  predicate Official(latest: Entry, e: Entry, m: map<String, String>) {
    (e.code in m && FollowChain(m, e.code).0 == latest.code) || e.code in latest.replaced
  }

  function IsOfficial(latest: Entry, m: map<String, String>): Entry -> bool {
    (e: Entry) => Official(latest, e, m)
  }

  const ReplacedByPrefix: String := "officially replaced by "

  /**
   * The reason recorded for `e`. Check 2 overrides check 1, a chain through another code is
   * shown as "direct → final", and a course neither check links gets the empty reason.
   */
  function Reason(latest: Entry, e: Entry, m: map<String, String>): (r: String)
    ensures r != [] <==> Official(latest, e, m)
    ensures r != [] ==> StartsWith(r, ReplacedByPrefix) && EndsWith(r, latest.code)
  {
    var viaChain :=
      if e.code in m && FollowChain(m, e.code).0 == latest.code then
        var final := FollowChain(m, e.code).0;
        var direct := m[e.code];
        if direct == final then ReplacedByPrefix + final else ReplacedByPrefix + direct + " → " + final
      else [];
    if e.code in latest.replaced then ReplacedByPrefix + latest.code else viaChain
  }

  /** An older course that is moved, with the reason it is moved. */
  datatype Outdated = Outdated(entry: Entry, reason: String)

  const ManualReview: String := "No official replacement relationship detected - manual review required"

  /** An older course no check links to the kept one: reported, never moved. */
  datatype PotentialIssue = PotentialIssue(title: String, courses: seq<String>, reason: String)

  function OutdatedOf(latest: Entry, m: map<String, String>): Entry -> Outdated {
    (e: Entry) => Outdated(e, Reason(latest, e, m))
  }

  function IssueOf(title: String, latest: Entry): Entry -> PotentialIssue {
    (e: Entry) => PotentialIssue(title, [latest.code, e.code], ManualReview)
  }

  /** A reported group: the kept course first, then the courses to move. */
  datatype DuplicateGroup = DuplicateGroup(latest: Entry, outdated: seq<Outdated>)

  /** What one title contributes: a reported group, if any, and the issues it raises. */
  datatype TitleOutcome = TitleOutcome(group: Option<DuplicateGroup>, issues: seq<PotentialIssue>)

  /**
   * The decision for one title's courses: sorted by priority date, latest first (a stable
   * sort), the first is kept; of the others, those a check links to it are to be moved, and
   * the rest are issues. A title is reported only when at least one course is to be moved.
   */
  function Decide(title: String, members: seq<Entry>, m: map<String, String>): TitleOutcome {
    if |members| <= 1 then TitleOutcome(None, [])
    else
      var sorted := SortByDateDesc(members, EntryPriority);
      var latest := sorted[0];
      var outdated := MapSeq(Filter(sorted[1..], IsOfficial(latest, m)), OutdatedOf(latest, m));
      var issues := MapSeq(Filter(sorted[1..], Not(IsOfficial(latest, m))), IssueOf(title, latest));
      TitleOutcome(if outdated == [] then None else Some(DuplicateGroup(latest, outdated)), issues)
  }

  /**
   * Every course of a shared title but the kept one lands in exactly one place: the courses to
   * move and the issues together account for every other course, and a title is reported
   * exactly when some course after the kept one is linked to it.
   */
  lemma DecidePartition(title: String, members: seq<Entry>, m: map<String, String>)
    requires |members| > 1
    ensures var o := Decide(title, members, m);
            var moved := if o.group.Some? then |o.group.value.outdated| else 0;
            moved + |o.issues| == |members| - 1
    ensures var sorted := SortByDateDesc(members, EntryPriority);
            Decide(title, members, m).group.None? <==> forall e :: e in sorted[1..] ==> !Official(sorted[0], e, m)
  {
    var sorted := SortByDateDesc(members, EntryPriority);
    MapFilterSplit(sorted[1..], IsOfficial(sorted[0], m), OutdatedOf(sorted[0], m), IssueOf(title, sorted[0]));
  }

  /** Each issue names, after the kept course, one of the title's courses that no check links to it. */
  lemma DecideIssues(title: String, members: seq<Entry>, m: map<String, String>)
    ensures var o := Decide(title, members, m);
            forall k :: 0 <= k < |o.issues| ==>
              exists e, l :: e in members && l in members && !Official(l, e, m) &&
                             o.issues[k] == PotentialIssue(title, [l.code, e.code], ManualReview)
  {
    if |members| > 1 {
      var sorted := SortByDateDesc(members, EntryPriority);
      MapFilterSplit(sorted[1..], IsOfficial(sorted[0], m), OutdatedOf(sorted[0], m), IssueOf(title, sorted[0]));
      SortedMembers(members);
      assert sorted[0] in sorted;
      assert forall x :: x in sorted[1..] ==> x in sorted;
    }
  }

  /** The records a sort by priority puts in order are the title's records. */
  lemma SortedMembers(members: seq<Entry>)
    ensures forall x :: x in SortByDateDesc(members, EntryPriority) ==> x in members
  {
    var sorted := SortByDateDesc(members, EntryPriority);
    forall x | x in sorted ensures x in members {
      assert x in multiset(sorted);
    }
  }

  /**
   * A reported group keeps a course with the latest priority date of its title, and every
   * course it moves is one of the title's courses that a check links to the kept one, with a
   * reason that ends in the kept course's code.
   */
  lemma DecideGroup(title: String, members: seq<Entry>, m: map<String, String>)
    requires Decide(title, members, m).group.Some?
    ensures var g := Decide(title, members, m).group.value;
            g.outdated != [] && g.latest in members &&
            (forall x :: x in members ==> AtMost(EntryPriority(x), EntryPriority(g.latest))) &&
            forall k :: 0 <= k < |g.outdated| ==>
              g.outdated[k].entry in members && Official(g.latest, g.outdated[k].entry, m) &&
              EndsWith(g.outdated[k].reason, g.latest.code)
  {
    var sorted := SortByDateDesc(members, EntryPriority);
    var latest := sorted[0];
    var rest := sorted[1..];
    MapFilterSplit(rest, IsOfficial(latest, m), OutdatedOf(latest, m), IssueOf(title, latest));
    SortedMembers(members);
    SortedHeadLatest(members, EntryPriority);
    assert latest in sorted;
  }

  /** The two checks for one older course, as the loop body makes them. */
  method CheckReplacement(latest: Entry, course: Entry, m: map<String, String>) returns (isOfficial: bool, reason: String)
    ensures isOfficial == Official(latest, course, m)
    ensures reason == Reason(latest, course, m)
  {
    isOfficial := false;
    reason := [];
    if course.code in m {
      var final := FollowReplacementChain(course.code, m);
      if final == latest.code {
        isOfficial := true;
        var direct := m[course.code];
        if direct == final {
          reason := ReplacedByPrefix + final;
        } else {
          reason := ReplacedByPrefix + direct + " → " + final;
        }
      }
    }
    if course.code in latest.replaced {
      isOfficial := true;
      reason := ReplacedByPrefix + latest.code;
    }
  }

  /** The loop over one title's courses after sorting. */
  method DecideTitle(title: String, members: seq<Entry>, m: map<String, String>) returns (o: TitleOutcome)
    requires |members| > 1
    ensures o == Decide(title, members, m)
  {
    var sorted := SortByDateDesc(members, EntryPriority);
    o := DecideSorted(title, sorted, m);
  }

  method DecideSorted(title: String, sorted: seq<Entry>, m: map<String, String>) returns (o: TitleOutcome)
    requires |sorted| > 1
    ensures var latest := sorted[0];
            var outdated := MapSeq(Filter(sorted[1..], IsOfficial(latest, m)), OutdatedOf(latest, m));
            o == TitleOutcome(if outdated == [] then None else Some(DuplicateGroup(latest, outdated)),
                              MapSeq(Filter(sorted[1..], Not(IsOfficial(latest, m))), IssueOf(title, latest)))
  {
    var latest := sorted[0];
    var rest := sorted[1..];
    var outdated: seq<Outdated> := [];
    var issues: seq<PotentialIssue> := [];
    for j := 0 to |rest|
      invariant (outdated, issues) == Partition(rest[..j], IsOfficial(latest, m), OutdatedOf(latest, m), IssueOf(title, latest))
    {
      var course := rest[j];
      var isOfficial, reason := CheckReplacement(latest, course, m);
      PartitionPrefix(rest, j, IsOfficial(latest, m), OutdatedOf(latest, m), IssueOf(title, latest));
      if isOfficial {
        outdated := outdated + [Outdated(course, reason)];
      } else {
        issues := issues + [PotentialIssue(title, [latest.code, course.code], ManualReview)];
      }
    }
    assert rest[..|rest|] == rest;
    PartitionFilters(rest, IsOfficial(latest, m), OutdatedOf(latest, m), IssueOf(title, latest));
    o := TitleOutcome(if outdated == [] then None else Some(DuplicateGroup(latest, outdated)), issues);
  }

  /**
   * What `find_duplicate_courses` reports over the grouped titles, in order: the groups it
   * keeps, by title, and the issues it logs.
   */
  function Findings(groups: Dict<seq<Entry>>, m: map<String, String>): (Dict<DuplicateGroup>, seq<PotentialIssue>)
    decreases |groups|
  {
    if groups == [] then ([], [])
    else
      var prev := Findings(groups[..|groups| - 1], m);
      var title := groups[|groups| - 1].0;
      var o := Decide(title, groups[|groups| - 1].1, m);
      (if o.group.Some? then Set(prev.0, title, o.group.value) else prev.0, prev.1 + o.issues)
  }

  /** Every reported group is the decision for one of the grouped titles, under that title. */
  lemma {:induction false} FindingsGroups(groups: Dict<seq<Entry>>, m: map<String, String>)
    ensures forall e :: e in Findings(groups, m).0 ==>
              exists i :: 0 <= i < |groups| && groups[i].0 == e.0 && Decide(groups[i].0, groups[i].1, m).group == Some(e.1)
    decreases |groups|
  {
    if groups != [] {
      var init := groups[..|groups| - 1];
      var prev := Findings(init, m);
      var title := groups[|groups| - 1].0;
      var o := Decide(title, groups[|groups| - 1].1, m);
      FindingsGroups(init, m);
      assert forall i :: 0 <= i < |init| ==> init[i] == groups[i];
      if o.group.Some? {
        SetEntries(prev.0, title, o.group.value);
      }
    }
  }

  /**
   * `find_duplicate_courses`: the replacement map from every file in sorted order, then the
   * records of the titled files grouped by title, then the decision for each title shared by
   * more than one course.
   */
  method FindDuplicateCourses(paths: seq<String>, load: String -> Option<Metadata>)
    returns (r: Result<(Dict<DuplicateGroup>, seq<PotentialIssue>)>)
    ensures r.Err? <==> Entries(paths, load).Err?
    ensures r.Ok? ==> r.value == Findings(GroupBy(Entries(paths, load).value, EntryTitle), MapFrom(Sorting.Sort(paths), load))
  {
    var m := BuildCompleteReplacementMap(paths, load);
    var grouped := CollectByTitle(paths, load);
    if grouped.Err? {
      return Err(grouped.message);
    }
    var groups, issues := DecideAll(grouped.value, m);
    r := Ok((groups, issues));
  }

  /** The loop of `find_duplicate_courses` over the titles, in the order they were first seen. */
  method DecideAll(byTitle: Dict<seq<Entry>>, m: map<String, String>) returns (groups: Dict<DuplicateGroup>, issues: seq<PotentialIssue>)
    ensures (groups, issues) == Findings(byTitle, m)
  {
    groups := [];
    issues := [];
    for i := 0 to |byTitle|
      invariant (groups, issues) == Findings(byTitle[..i], m)
    {
      assert byTitle[..i + 1][..i] == byTitle[..i];
      var title := byTitle[i].0;
      var members := byTitle[i].1;
      if |members| > 1 {
        var o := DecideTitle(title, members, m);
        if o.group.Some? {
          groups := Set(groups, title, o.group.value);
        }
        issues := issues + o.issues;
      } else {
        assert issues + [] == issues;
      }
    }
    assert byTitle[..|byTitle|] == byTitle;
  }

  /** `Path(d).parent`: everything before the last `/`, `/` for a top-level path, `.` without a `/`. */
  function Parent(d: String): String {
    match LastIndexOf(d, '/')
    case None => "."
    case Some(i) => if i == 0 then "/" else d[..i]
  }

  /** Where the moved files go when no backup directory is given. */
  function DefaultBackup(courseDirectory: String): String {
    JoinPath(Parent(courseDirectory), "backup_old_courses")
  }

  /** A file moved from `source` to `target`. */
  datatype Move = Move(source: String, target: String)

  /** The move of a file into the backup directory under its own name. */
  function MoveTo(backup: String): String -> Move {
    p => Move(p, JoinPath(backup, Basename(p)))
  }

  function OutdatedPath(o: Outdated): String { o.entry.path }

  /** The files of the courses to move, group by group, in order. */
  function OutdatedPaths(groups: Dict<DuplicateGroup>): seq<String>
    decreases |groups|
  {
    if groups == [] then []
    else OutdatedPaths(groups[..|groups| - 1]) + MapSeq(groups[|groups| - 1].1.outdated, OutdatedPath)
  }

  /** A file is to be moved exactly when it is the file of a course some group moves. */
  lemma {:induction false} OutdatedPathsSpec(groups: Dict<DuplicateGroup>, p: String)
    ensures p in OutdatedPaths(groups) <==>
              exists i, k :: 0 <= i < |groups| && 0 <= k < |groups[i].1.outdated| && groups[i].1.outdated[k].entry.path == p
    decreases |groups|
  {
    if groups != [] {
      var init := groups[..|groups| - 1];
      var last := groups[|groups| - 1].1.outdated;
      OutdatedPathsSpec(init, p);
      assert forall i :: 0 <= i < |init| ==> init[i] == groups[i];
      if p in MapSeq(last, OutdatedPath) {
        var k :| 0 <= k < |last| && MapSeq(last, OutdatedPath)[k] == p;
        assert groups[|groups| - 1].1.outdated[k].entry.path == p;
      }
      if exists i, k :: 0 <= i < |groups| && 0 <= k < |groups[i].1.outdated| && groups[i].1.outdated[k].entry.path == p {
        var i, k :| 0 <= i < |groups| && 0 <= k < |groups[i].1.outdated| && groups[i].1.outdated[k].entry.path == p;
        if i == |groups| - 1 {
          assert MapSeq(last, OutdatedPath)[k] == p;
        }
      }
    }
  }

  /**
   * The moves and the count of removed files for the files `paths` to move. A dry run moves
   * nothing and counts every file. Otherwise every file is moved except those whose move
   * fails, and only the moved ones are counted.
   */
  function Moves(paths: seq<String>, backup: String, dryRun: bool, moveFails: String -> bool): (seq<Move>, nat) {
    if dryRun then ([], |paths|)
    else
      var moved := Filter(paths, Not(moveFails));
      (MapSeq(moved, MoveTo(backup)), |moved|)
  }

  /** The loop over one group's courses to move. */
  method MoveOutdated(outdated: seq<Outdated>, backup: String, dryRun: bool, moveFails: String -> bool)
    returns (moves: seq<Move>, removed: nat)
    ensures (moves, removed) == Moves(MapSeq(outdated, OutdatedPath), backup, dryRun, moveFails)
  {
    var paths := MapSeq(outdated, OutdatedPath);
    moves := [];
    removed := 0;
    for j := 0 to |outdated|
      invariant dryRun ==> moves == [] && removed == j
      invariant !dryRun ==> moves == MapSeq(Filter(paths[..j], Not(moveFails)), MoveTo(backup)) && removed == |moves|
    {
      MapFilterStep(paths, j, Not(moveFails), MoveTo(backup));
      var source := outdated[j].entry.path;
      if !dryRun {
        if moveFails(source) {
          continue;
        }
        moves := moves + [Move(source, JoinPath(backup, Basename(source)))];
      }
      removed := removed + 1;
    }
    assert paths[..|outdated|] == paths;
  }

  /** What a cleanup did: the backup directory used, the moves made and the two totals. */
  datatype Cleanup = Cleanup(backup: String, moves: seq<Move>, kept: nat, removed: nat)

  /**
   * `clean_duplicate_courses`: the first course of every reported group is kept and counted,
   * and each of the others is moved into the backup directory (counted unless its move fails);
   * a dry run moves nothing and counts them all.
   */
  method CleanDuplicateCourses(
    courseDirectory: String, paths: seq<String>, load: String -> Option<Metadata>,
    backupDirectory: Option<String>, dryRun: bool, moveFails: String -> bool)
    returns (r: Result<Cleanup>)
    ensures r.Err? <==> Entries(paths, load).Err?
    ensures r.Ok? ==>
              var groups := Findings(GroupBy(Entries(paths, load).value, EntryTitle), MapFrom(Sorting.Sort(paths), load)).0;
              var backup := backupDirectory.GetOr(DefaultBackup(courseDirectory));
              r.value == Cleanup(backup, Moves(OutdatedPaths(groups), backup, dryRun, moveFails).0, |groups|,
                                 Moves(OutdatedPaths(groups), backup, dryRun, moveFails).1)
  {
    var backup := backupDirectory.GetOr(DefaultBackup(courseDirectory));
    var found := FindDuplicateCourses(paths, load);
    if found.Err? {
      return Err(found.message);
    }
    var groups := found.value.0;
    if groups == [] {
      return Ok(Cleanup(backup, [], 0, 0));
    }
    var moves, kept, removed := MoveAll(groups, backup, dryRun, moveFails);
    r := Ok(Cleanup(backup, moves, kept, removed));
  }

  /** The loop of `clean_duplicate_courses` over the reported groups. */
  method MoveAll(groups: Dict<DuplicateGroup>, backup: String, dryRun: bool, moveFails: String -> bool)
    returns (moves: seq<Move>, kept: nat, removed: nat)
    ensures (moves, removed) == Moves(OutdatedPaths(groups), backup, dryRun, moveFails) && kept == |groups|
  {
    moves := [];
    kept := 0;
    removed := 0;
    for i := 0 to |groups|
      invariant moves == Moves(OutdatedPaths(groups[..i]), backup, dryRun, moveFails).0
      invariant removed == Moves(OutdatedPaths(groups[..i]), backup, dryRun, moveFails).1
      invariant kept == i
    {
      MovesStep(groups, i, backup, dryRun, moveFails);
      kept := kept + 1;
      var groupMoves, groupRemoved := MoveOutdated(groups[i].1.outdated, backup, dryRun, moveFails);
      moves := moves + groupMoves;
      removed := removed + groupRemoved;
    }
    assert groups[..|groups|] == groups;
  }

  /** One more group adds its own moves and count. */
  lemma MovesStep(groups: Dict<DuplicateGroup>, i: nat, backup: String, dryRun: bool, moveFails: String -> bool)
    requires i < |groups|
    ensures var before := Moves(OutdatedPaths(groups[..i]), backup, dryRun, moveFails);
            var here := Moves(MapSeq(groups[i].1.outdated, OutdatedPath), backup, dryRun, moveFails);
            var after := Moves(OutdatedPaths(groups[..i + 1]), backup, dryRun, moveFails);
            after.0 == before.0 + here.0 && after.1 == before.1 + here.1
  {
    var a := OutdatedPaths(groups[..i]);
    var b := MapSeq(groups[i].1.outdated, OutdatedPath);
    assert OutdatedPaths(groups[..i + 1]) == a + b by {
      assert groups[..i + 1][..i] == groups[..i];
    }
    MovesAppend(a, b, backup, dryRun, moveFails);
  }

  lemma MovesAppend(a: seq<String>, b: seq<String>, backup: String, dryRun: bool, moveFails: String -> bool)
    ensures Moves(a + b, backup, dryRun, moveFails).0 == Moves(a, backup, dryRun, moveFails).0 + Moves(b, backup, dryRun, moveFails).0
    ensures Moves(a + b, backup, dryRun, moveFails).1 == Moves(a, backup, dryRun, moveFails).1 + Moves(b, backup, dryRun, moveFails).1
  {
    if !dryRun {
      FilterAppend(a, b, Not(moveFails));
      MapSeqAppend(Filter(a, Not(moveFails)), Filter(b, Not(moveFails)), MoveTo(backup));
    }
  }

  /**
   * A cleanup moves only files of courses to move, each into the backup directory under its
   * own name; a dry run moves nothing, and otherwise the removed count is the number of moves.
   */
  lemma MovesSpec(paths: seq<String>, backup: String, dryRun: bool, moveFails: String -> bool)
    ensures var (moves, removed) := Moves(paths, backup, dryRun, moveFails);
            (dryRun ==> moves == [] && removed == |paths|) &&
            (!dryRun ==> removed == |moves|) &&
            forall k :: 0 <= k < |moves| ==>
              moves[k].source in paths && !moveFails(moves[k].source) &&
              moves[k].target == JoinPath(backup, Basename(moves[k].source)) &&
              Basename(moves[k].target) == Basename(moves[k].source)
  {
    var moves := Moves(paths, backup, dryRun, moveFails).0;
    forall k | 0 <= k < |moves| ensures Basename(moves[k].target) == Basename(moves[k].source) {
      BasenameOfJoin(backup, Basename(moves[k].source));
    }
  }

  /** Among courses that are all different, the kept course is never also one to move. */
  lemma DecideGroupDistinct(title: String, members: seq<Entry>, m: map<String, String>)
    requires Distinct(members) && Decide(title, members, m).group.Some?
    ensures var g := Decide(title, members, m).group.value;
            forall k :: 0 <= k < |g.outdated| ==> g.outdated[k].entry != g.latest
  {
    var sorted := SortByDateDesc(members, EntryPriority);
    var latest := sorted[0];
    var rest := sorted[1..];
    PermutationDistinct(members, sorted);
    assert latest !in rest by {
      forall i | 0 <= i < |rest| ensures rest[i] != latest {
        assert rest[i] == sorted[i + 1];
      }
    }
    var kept := Filter(rest, IsOfficial(latest, m));
    var g := Decide(title, members, m).group.value;
    assert g.latest == latest && g.outdated == MapSeq(kept, OutdatedOf(latest, m));
    forall k | 0 <= k < |g.outdated| ensures g.outdated[k].entry != g.latest {
      assert kept[k] in rest;
      assert g.outdated[k] == OutdatedOf(latest, m)(kept[k]);
    }
  }

  /**
   * Over a listing without repeats, the records are all different, and each is what its own
   * path's record is.
   */
  lemma EntriesDistinct(paths: seq<String>, load: String -> Option<Metadata>)
    requires Distinct(paths) && Entries(paths, load).Ok?
    ensures Distinct(Entries(paths, load).value)
    ensures forall x :: x in Entries(paths, load).value ==> EntryAt(load, x.path) == Ok(x)
  {
    var fs := Filter(paths, IsTitled(load));
    var es := Entries(paths, load).value;
    FilterDistinct(paths, IsTitled(load));
    forall i | 0 <= i < |es| ensures es[i].path == fs[i] && EntryAt(load, fs[i]) == Ok(es[i]) {
      assert EntryFn(load)(fs[i]) == Ok(es[i]);
      EntryFields(load, fs[i]);
    }
  }

  /** A record of a reported title's group is one of the records, and carries that title. */
  lemma GroupMember(es: seq<Entry>, m: map<String, String>, i: nat, x: Entry)
    requires i < |GroupBy(es, EntryTitle)|
    requires x in GroupBy(es, EntryTitle)[i].1
    ensures x in es && x.title == GroupBy(es, EntryTitle)[i].0
  {
    var g := GroupBy(es, EntryTitle);
    GroupByEntries(es, EntryTitle);
    assert g[i] in g;
  }

  /**
   * Among records that are all different and have different paths, no title's course to move
   * has the file of any title's kept course.
   */
  lemma KeptNotOutdated(es: seq<Entry>, m: map<String, String>, j: nat, j2: nat, k: nat)
    requires Distinct(es) && forall x, y :: x in es && y in es && x.path == y.path ==> x == y
    requires j < |GroupBy(es, EntryTitle)| && j2 < |GroupBy(es, EntryTitle)|
    requires Decide(GroupBy(es, EntryTitle)[j].0, GroupBy(es, EntryTitle)[j].1, m).group.Some?
    requires Decide(GroupBy(es, EntryTitle)[j2].0, GroupBy(es, EntryTitle)[j2].1, m).group.Some?
    requires k < |Decide(GroupBy(es, EntryTitle)[j2].0, GroupBy(es, EntryTitle)[j2].1, m).group.value.outdated|
    ensures Decide(GroupBy(es, EntryTitle)[j2].0, GroupBy(es, EntryTitle)[j2].1, m).group.value.outdated[k].entry.path !=
            Decide(GroupBy(es, EntryTitle)[j].0, GroupBy(es, EntryTitle)[j].1, m).group.value.latest.path
  {
    var grouped := GroupBy(es, EntryTitle);
    var latest := Decide(grouped[j].0, grouped[j].1, m).group.value.latest;
    var o := Decide(grouped[j2].0, grouped[j2].1, m).group.value.outdated[k].entry;
    DecideGroup(grouped[j].0, grouped[j].1, m);
    DecideGroup(grouped[j2].0, grouped[j2].1, m);
    GroupMember(es, m, j, latest);
    GroupMember(es, m, j2, o);
    if o.path == latest.path {
      assert o == latest;
      GroupByGet(es, EntryTitle, latest.title);
      assert Keys(grouped)[j] == Keys(grouped)[j2];
      GroupByEntries(es, EntryTitle);
      assert grouped[j] in grouped;
      FilterDistinct(es, KeyIs(EntryTitle, grouped[j].0));
      DecideGroupDistinct(grouped[j].0, grouped[j].1, m);
      assert false;
    }
  }

  /**
   * Over a listing that names each file once, no file that a cleanup keeps is among the files
   * it moves.
   */
  lemma KeptNeverMoved(paths: seq<String>, load: String -> Option<Metadata>)
    requires Distinct(paths) && Entries(paths, load).Ok?
    ensures var groups := Findings(GroupBy(Entries(paths, load).value, EntryTitle), MapFrom(Sorting.Sort(paths), load)).0;
            forall e :: e in groups ==> e.1.latest.path !in OutdatedPaths(groups)
  {
    var es := Entries(paths, load).value;
    var grouped := GroupBy(es, EntryTitle);
    var m := MapFrom(Sorting.Sort(paths), load);
    var groups := Findings(grouped, m).0;
    EntriesDistinct(paths, load);
    assert forall x, y :: x in es && y in es && x.path == y.path ==> x == y by {
      forall x, y | x in es && y in es && x.path == y.path ensures x == y {
        assert EntryAt(load, x.path) == Ok(x) && EntryAt(load, y.path) == Ok(y);
      }
    }
    FindingsGroups(grouped, m);
    forall e | e in groups ensures e.1.latest.path !in OutdatedPaths(groups) {
      OutdatedPathsSpec(groups, e.1.latest.path);
      if e.1.latest.path in OutdatedPaths(groups) {
        var i, k :| 0 <= i < |groups| && 0 <= k < |groups[i].1.outdated| && groups[i].1.outdated[k].entry.path == e.1.latest.path;
        assert groups[i] in groups;
        var j :| 0 <= j < |grouped| && grouped[j].0 == e.0 && Decide(grouped[j].0, grouped[j].1, m).group == Some(e.1);
        var j2 :| 0 <= j2 < |grouped| && grouped[j2].0 == groups[i].0 && Decide(grouped[j2].0, grouped[j2].1, m).group == Some(groups[i].1);
        KeptNotOutdated(es, m, j, j2, k);
        assert false;
      }
    }
  }
}
