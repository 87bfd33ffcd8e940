/**
 * The retrieval bookkeeping of the chatbot back end: routing fallback, query variations with
 * case-insensitive de-duplication, the prioritised merge of retrieved documents, the sources of
 * an answer, and the documents made from one course JSON file. The language model and the
 * vector store are parameters: their answers are inputs, their failures `Err` or `None`.
 */
module RagSystem {
  import opened Wrappers
  import opened Text
  import opened Seqs
  import opened Scan
  import opened Codes
  import opened Dicts
  import opened Json

  // ----- route_query -----

  /** `route_query`: the router's content type, or "both" whenever the router call raises. */
  function RouteQuery(router: Result<String>): (r: String)
    ensures router.Err? ==> r == "both"
    ensures router.Ok? ==> r == router.value
  {
    match router
    case Ok(t) => t
    case Err(_) => "both"
  }

  // ----- generate_query_variations -----

  /** `\b([A-Z]{2,4}\d{3})\b`, searched in the upper-cased question. */
  const QueryCodeShape := CodeShape(2, 4, 3, 3, false, true)

  function QueryCodeAt(s: String, i: nat): (r: Option<Hit>)
    ensures r.Some? ==> i <= r.value.end <= |s| && r.value.group == s[i..(r.value.end)]
  {
    CodeAt(QueryCodeShape, s, i)
  }

  /**
   * The course code the question mentions: the leftmost match in the upper-cased question, or
   * nothing when no position of it matches.
   */
  function CourseCodeIn(question: String): (r: Option<String>)
    ensures r.Some? ==> IsCode(QueryCodeShape, r.value)
    ensures r.Some? ==> Contains(Upper(question), r.value)
    ensures r.None? ==> forall j :: 0 <= j <= |question| ==> QueryCodeAt(Upper(question), j).None?
  {
    var u := Upper(question);
    match Search(u, QueryCodeAt)
    case None => None
    case Some(h) =>
      SearchedQueryCode(u);
      Some(h.group)
  }

  /** The leftmost match is a course code. */
  lemma SearchedQueryCode(u: String)
    requires Search(u, QueryCodeAt).Some?
    ensures IsCode(QueryCodeShape, Search(u, QueryCodeAt).value.group)
    ensures Contains(u, Search(u, QueryCodeAt).value.group)
  {
    var h := Search(u, QueryCodeAt).value;
    var j :| 0 <= j <= |u| && QueryCodeAt(u, j) == Some(h);
    CodeAtIsCode(QueryCodeShape, u, j);
    SliceContained(u, j, h.end);
  }

  /** A matched code is letters then digits: at least five characters, no whitespace at either end. */
  lemma QueryCodeCharacters(c: String)
    requires IsCode(QueryCodeShape, c)
    ensures |c| >= 5 && !IsSpace(c[0]) && !IsSpace(c[|c| - 1])
  {
  }

  /** The section-keyword table: a section and the keywords that target it. */
  type KeywordTable = seq<(String, seq<String>)>

  const SectionKeywords: KeywordTable := [
    ("assessment", ["assessment", "exam", "grade", "grading", "evaluation", "test"]),
    ("prerequisites", ["prerequisite", "requirement", "entry requirement", "requirement"]),
    ("learning_outcomes", ["learning outcome", "objective", "goal", "learning goal"]),
    ("course_content", ["content", "about", "topic", "cover", "material", "syllabus"]),
    ("form_of_teaching", ["teaching", "lecture", "seminar", "format", "how is", "delivery"]),
    ("entry_requirements", ["entry", "admission", "eligibility", "qualify"]),
    ("grades", ["grade", "grading", "scale", "pass", "fail"])
  ]

  /** `any(keyword in text for keyword in keywords)`. */
  predicate AnyIn(keywords: seq<String>, text: String) {
    exists i :: 0 <= i < |keywords| && Contains(text, keywords[i])
  }

  /** The sections, in table order, one of whose keywords occurs in `text`. */
  function Relevant(table: KeywordTable, text: String): (r: seq<String>)
    ensures forall s :: s in r <==> exists i :: 0 <= i < |table| && table[i].0 == s && AnyIn(table[i].1, text)
    decreases |table|
  {
    if table == [] then []
    else
      var rest := Relevant(table[1..], text);
      assert forall i :: 1 <= i < |table| ==> table[i] == table[1..][i - 1];
      (if AnyIn(table[0].1, text) then [table[0].0] else []) + rest
  }

  /** The variations that only need the course code. */
  function CodeVariations(code: String): seq<String> {
    [code, "course " + code, code + " course information"]
  }

  /** Three variations per targeted section, the section name with '_' read as a space. */
  function SectionVariations(code: String, sections: seq<String>): (r: seq<String>)
    ensures |r| == 3 * |sections|
  {
    if sections == [] then []
    else
      var readable := ReplaceChar(sections[0], '_', ' ');
      [code + " " + readable, readable + " " + code, code + " course " + readable] + SectionVariations(code, sections[1..])
  }

  /** `[q.strip() for q in text.split('\n') if q.strip() and len(q.strip()) > 5][:3]`. */
  function LlmQueries(text: String): (r: seq<String>)
    ensures |r| <= 3 && forall q :: q in r ==> |q| > 5
  {
    Take(MapSeq(Filter(SplitOn(text, '\n'), LongerThan(5)), Strip), 3)
  }

  /** `|q.strip()| > n`. */
  function LongerThan(n: nat): String -> bool {
    q => |Strip(q)| > n
  }

  /** The fixed variations used when the language model fails, for course questions only. */
  function FallbackQueries(contentType: String, question: String): seq<String> {
    var lower := Lower(question);
    if contentType != "course" then []
    else if Contains(lower, "prerequisite") then ["entry requirements", "prerequisites", "required courses"]
    else if Contains(lower, "about") || Contains(lower, "what is") then ["course description", "course overview", "course content"]
    else if Contains(lower, "assessment") then ["grading", "examination", "evaluation"]
    else []
  }

  /**
   * The candidate list before de-duplication: the question, the code variations when a code is
   * found, the section variations when a code is found and a section is targeted, and then the
   * extra lines.
   */
  function Candidates(question: String, code: Option<String>, sections: seq<String>, extra: seq<String>): (r: seq<String>)
    ensures |r| >= 1 && r[0] == question
    ensures code.Some? ==> |r| >= 2 && r[1] == code.value
    ensures code.None? ==> r == [question] + extra
    ensures |r| == 1 + (if code.Some? then 3 + 3 * |sections| else 0) + |extra|
  {
    [question] +
    (if code.Some? then CodeVariations(code.value) else []) +
    (if code.Some? && sections != [] then SectionVariations(code.value, sections) else []) +
    extra
  }

  /** The model's lines or, when the model call raises, the fallback. */
  function Extra(contentType: String, question: String, llm: Option<String>): seq<String> {
    match llm
    case Some(t) => LlmQueries(t)
    case None => FallbackQueries(contentType, question)
  }

  /** The candidates for a question: its code, the sections it targets and the extra lines. */
  function QuestionCandidates(table: KeywordTable, question: String, contentType: String, llm: Option<String>): seq<String> {
    Candidates(question, CourseCodeIn(question), Relevant(table, Lower(question)), Extra(contentType, question, llm))
  }

  /** The first pass: stripped candidates longer than two characters, the first of each lower-cased form. */
  function FirstPass(qs: seq<String>): seq<String> {
    DedupBy(MapSeq(Filter(qs, LongerThan(2)), Strip), Lower)
  }

  /** The padding when fewer than three variations remain. */
  function Fillers(question: String): seq<String> {
    var ws := Words(question);
    [Filter(question, (c: char) => c != '?'),
     if |ws| > 1 then ws[|ws| - 1] else question,
     Join(Take(ws, 3), " ")]
  }

  function Padded(u: seq<String>, question: String): seq<String> {
    if |u| < 3 then u + Fillers(question) else u
  }

  /** The most variations returned. */
  const MaxVariations: nat := 10

  /** The candidates de-duplicated, padded, de-duplicated again and capped. */
  function Variations(question: String, c: seq<String>): seq<String> {
    Take(DedupBy(Padded(FirstPass(c), question), Lower), MaxVariations)
  }

  /** What `generate_query_variations` returns. */
  function QueryVariations(table: KeywordTable, question: String, contentType: String, llm: Option<String>): seq<String> {
    Variations(question, QuestionCandidates(table, question, contentType, llm))
  }

  /**
   * The first loop of `generate_query_variations`, its test, cleaning and lower-casing given:
   * every candidate that passes `keep` is cleaned and kept unless its `key` is in `seen`.
   */
  method UniqueCleaned(qs: seq<String>, keep: String -> bool, clean: String -> String, key: String -> String)
      returns (unique: seq<String>)
    ensures unique == DedupBy(MapSeq(Filter(qs, keep), clean), key)
  {
    var seen: set<String> := {};
    unique := [];
    for i := 0 to |qs|
      invariant unique == DedupBy(MapSeq(Filter(qs[..i], keep), clean), key) && seen == KeySet(unique, key)
    {
      DedupMapFilterStep(qs, i, keep, clean, key);
      if keep(qs[i]) {
        var q := clean(qs[i]);
        if key(q) !in seen {
          seen := seen + {key(q)};
          unique := unique + [q];
        }
      }
    }
    assert qs[..|qs|] == qs;
  }

  /** The second loop: the first of each `key`, stopping once `limit` are kept. */
  method FirstDistinct(u: seq<String>, key: String -> String, limit: nat) returns (result: seq<String>)
    requires limit > 0
    ensures result == Take(DedupBy(u, key), limit)
  {
    var seen: set<String> := {};
    result := [];
    var i := 0;
    while i < |u|
      invariant 0 <= i <= |u| && result == DedupBy(u[..i], key) && seen == KeySet(result, key)
      invariant |result| < limit
    {
      DedupByPrefixStep(u, i, key);
      if key(u[i]) !in seen {
        seen := seen + {key(u[i])};
        result := result + [u[i]];
        if |result| >= limit {
          DedupByCapped(u, i + 1, key, limit);
          return;
        }
      }
      i := i + 1;
    }
    assert u[..i] == u;
  }

  /**
   * `generate_query_variations`, the model's answer (or its failure) given: the candidates, then
   * their de-duplication, padding and cap.
   */
  method GenerateQueryVariations(question: String, contentType: String, llm: Option<String>) returns (queries: seq<String>)
    ensures queries == QueryVariations(SectionKeywords, question, contentType, llm)
  {
    var candidates := QuestionCandidates(SectionKeywords, question, contentType, llm);
    queries := CleanPadAndCap(question, candidates);
  }

  /** The second half of `generate_query_variations`: the first pass, the padding and the capped second pass. */
  method CleanPadAndCap(question: String, candidates: seq<String>) returns (queries: seq<String>)
    ensures queries == Variations(question, candidates)
  {
    var unique := UniqueCleaned(candidates, LongerThan(2), Strip, Lower);
    if |unique| < 3 {
      unique := unique + Fillers(question);
    }
    queries := FirstDistinct(unique, Lower, MaxVariations);
  }

  /** Whatever the candidates, at most ten variations, no two the same ignoring case. */
  lemma VariationsDistinct(question: String, candidates: seq<String>)
    ensures var r := Variations(question, candidates);
            |r| <= MaxVariations && forall i, j :: 0 <= i < j < |r| ==> Lower(r[i]) != Lower(r[j])
  {
    DedupByDistinct(Padded(FirstPass(candidates), question), Lower);
  }

  /** Candidates headed by a question longer than two characters once stripped give that question first, stripped. */
  lemma VariationsHead(question: String, candidates: seq<String>)
    requires |candidates| >= 1 && candidates[0] == question && |Strip(question)| > 2
    ensures var r := Variations(question, candidates);
            |r| >= 1 && r[0] == Strip(question)
  {
    DedupMapFilterHead(candidates, LongerThan(2), Strip, Lower);
    var u := Padded(FirstPass(candidates), question);
    assert u[0] == Strip(question);
    DedupByHead(u, Lower);
  }

  /**
   * A candidate among the first two that is its own strip and longer than two characters is
   * among the variations, up to case.
   */
  lemma VariationsKeepEarly(question: String, candidates: seq<String>, k: nat)
    requires k < 2 && k < |candidates| && |candidates[k]| > 2 && Strip(candidates[k]) == candidates[k]
    ensures exists v :: v in Variations(question, candidates) && Lower(v) == Lower(candidates[k])
  {
    var first := FirstPass(candidates);
    var j := FirstPassEarly(candidates, k);
    var u := Padded(first, question);
    assert u[j] == first[j];
    DedupTakeEarly(u, j, Lower, MaxVariations);
  }

  /** A candidate that survives the length test has a representative in the first pass no later than itself. */
  lemma FirstPassEarly(candidates: seq<String>, k: nat) returns (j: nat)
    requires k < |candidates| && LongerThan(2)(candidates[k])
    ensures j <= k && j < |FirstPass(candidates)| && Lower(FirstPass(candidates)[j]) == Lower(Strip(candidates[k]))
  {
    var d := FirstPass(candidates);
    DedupMapFilterEarly(candidates, k, LongerThan(2), Strip, Lower);
    j :| 0 <= j <= k && j < |d| && Lower(d[j]) == Lower(Strip(candidates[k]));
  }

  /** A question longer than two characters once stripped is the first variation, stripped. */
  lemma QuestionFirst(table: KeywordTable, question: String, contentType: String, llm: Option<String>)
    requires |Strip(question)| > 2
    ensures var r := QueryVariations(table, question, contentType, llm);
            |r| >= 1 && r[0] == Strip(question)
  {
    VariationsHead(question, QuestionCandidates(table, question, contentType, llm));
  }

  /** A question that mentions a course code has that code among its variations (up to case). */
  lemma CodeAmongVariations(table: KeywordTable, question: String, contentType: String, llm: Option<String>)
    requires CourseCodeIn(question).Some?
    ensures exists v :: v in QueryVariations(table, question, contentType, llm) && Lower(v) == Lower(CourseCodeIn(question).value)
  {
    var code := CourseCodeIn(question).value;
    QueryCodeCharacters(code);
    StripUnpadded(code);
    VariationsKeepEarly(question, QuestionCandidates(table, question, contentType, llm), 1);
  }

  /** A section is targeted exactly when one of its keywords occurs in the lower-cased question. */
  lemma SectionTargeted(question: String, s: String)
    ensures s in Relevant(SectionKeywords, Lower(question)) <==>
              exists i :: 0 <= i < |SectionKeywords| && SectionKeywords[i].0 == s && AnyIn(SectionKeywords[i].1, Lower(question))
  {
  }
}
