/**
 * The database document loader of the chat back end: every current course becomes an overview
 * document, each of its non-empty sections a section document and its application details a
 * detail document; every program file becomes an overview and section documents; every program
 * with mapped courses gets a course-list document. Each document carries a text and metadata
 * for the vector store.
 *
 * The database is given as the rows its queries return (nullable and numeric columns as
 * database values, NOT NULL text columns as strings), the program directory as the parsed
 * files, and Python's `str()` of a value as the `Render` parameter.
 */
module DocumentLoader {
  import opened Wrappers
  import opened Text
  import opened Seqs
  import opened Dicts
  import opened Json
  import MergeCourseData

  /** A document for the vector store. */
  datatype Document = Document(content: String, metadata: map<String, Json>)

  /** How values are written into text: `str(v)`, and `str(sum(vs))` for a total of credits. */
  datatype Render = Render(str: Json -> String, sum: seq<Json> -> String)

  /** `{k: v for k, v in metadata.items() if v}`. */
  function Truthy(m: map<String, Json>): (r: map<String, Json>)
    ensures forall k :: k in r <==> k in m && m[k].IsTruthy()
    ensures forall k :: k in r ==> r[k] == m[k]
  {
    map k | k in m && m[k].IsTruthy() :: m[k]
  }

  /** No metadata value is falsy. */
  predicate NoFalsy(m: map<String, Json>) {
    forall k :: k in m ==> m[k].IsTruthy()
  }

  /** `v or ""`. */
  function OrEmpty(v: Json): Json {
    if v.IsTruthy() then v else JStr("")
  }

  /** `f"{caption}: {v}"` when `v` is truthy, the way the loaders add optional lines. */
  function LineIf(render: Render, caption: String, v: Json): seq<String> {
    if v.IsTruthy() then [caption + ": " + render.str(v)] else []
  }

  // ----- load_course_documents -----

  /** A row of the current-course query. */
  datatype CourseRow = CourseRow(
    code: String, title: String, department: String, credits: Json, cycle: String,
    swedishTitle: Json, languageName: Json, studyForm: Json, term: Json,
    fieldOfEducation: Json, mainFieldOfStudy: Json, specialization: Json,
    programCodes: Json, programNames: Json, syllabusUrl: Json, coursePageUrl: Json)

  function CourseContent(render: Render, c: CourseRow): String {
    Join(["Course: " + c.code + " - " + c.title, "Department: " + c.department,
          "Credits: " + render.str(c.credits) + " HP", "Cycle: " + c.cycle]
         + LineIf(render, "Swedish Title", c.swedishTitle)
         + LineIf(render, "Language of Instruction", c.languageName)
         + LineIf(render, "Study Form", c.studyForm)
         + LineIf(render, "Term", c.term)
         + LineIf(render, "Field of Education", c.fieldOfEducation)
         + LineIf(render, "Main Field of Study", c.mainFieldOfStudy)
         + LineIf(render, "Specialization", c.specialization)
         + LineIf(render, "Part of Programs", c.programCodes)
         + LineIf(render, "Program Names", c.programNames)
         + LineIf(render, "Syllabus", c.syllabusUrl)
         + LineIf(render, "Course Page", c.coursePageUrl), "\n")
  }

  /** A course overview document: no falsy metadata value, and typed `course_overview`. */
  function CourseDoc(render: Render, c: CourseRow): (r: Document)
    ensures NoFalsy(r.metadata)
    ensures "doc_type" in r.metadata && r.metadata["doc_type"] == JStr("course_overview")
  {
    Document(CourseContent(render, c), Truthy(map[
      "course_code" := JStr(c.code), "course_title" := JStr(c.title),
      "department" := JStr(c.department), "credits" := JStr(render.str(c.credits)),
      "cycle" := JStr(c.cycle), "language" := OrEmpty(c.languageName),
      "study_form" := OrEmpty(c.studyForm), "term" := OrEmpty(c.term),
      "field_of_education" := OrEmpty(c.fieldOfEducation),
      "main_field_of_study" := OrEmpty(c.mainFieldOfStudy),
      "specialization" := OrEmpty(c.specialization), "programs" := OrEmpty(c.programCodes),
      "program_names" := OrEmpty(c.programNames), "is_current" := JBool(true),
      "source" := JStr("database:courses:" + c.code), "syllabus_url" := OrEmpty(c.syllabusUrl),
      "course_page_url" := OrEmpty(c.coursePageUrl), "doc_type" := JStr("course_overview")]))
  }

  function CourseDocOf(render: Render): CourseRow -> Document {
    c => CourseDoc(render, c)
  }

  /** One overview document per current course, in row order. */
  function CourseDocs(render: Render, rows: seq<CourseRow>): seq<Document> {
    MapSeq(rows, CourseDocOf(render))
  }

  method LoadCourseDocuments(render: Render, rows: seq<CourseRow>) returns (docs: seq<Document>)
    ensures docs == CourseDocs(render, rows)
    ensures forall i :: 0 <= i < |docs| ==> NoFalsy(docs[i].metadata)
  {
    docs := [];
    for i := 0 to |rows|
      invariant docs == CourseDocs(render, rows[..i])
    {
      MapSeqStep(rows, i, CourseDocOf(render));
      docs := docs + [CourseDoc(render, rows[i])];
    }
    assert rows[..|rows|] == rows;
  }

  // ----- load_section_documents -----

  /** A row of the course-section query; a section's content may be NULL. */
  datatype SectionRow = SectionRow(
    name: String, content: Option<String>, code: String, title: String, department: String,
    credits: Json, cycle: String, programCodes: Json, characterCount: Json)

  /** `section_content` is neither NULL, empty nor whitespace only. */
  predicate HasText(s: SectionRow) {
    s.content.Some? && Strip(s.content.value) != []
  }

  /** `name.lower().replace(" ", "_").replace("/", "_")`. */
  function SectionType(name: String): (r: String)
    ensures |r| == |name|
    ensures forall i :: 0 <= i < |name| ==>
              r[i] == if name[i] == ' ' || name[i] == '/' then '_' else LowerChar(name[i])
  {
    ReplaceChar(ReplaceChar(Lower(name), ' ', '_'), '/', '_')
  }

  /** A section document; a named section is typed by its name as `SectionType` writes it. */
  function SectionDoc(render: Render, s: SectionRow): (r: Document)
    requires HasText(s)
    ensures NoFalsy(r.metadata)
    ensures s.name != [] ==> "section_type" in r.metadata && r.metadata["section_type"] == JStr(SectionType(s.name))
  {
    var sectionType := SectionType(s.name);
    Document("Course: " + s.code + " - " + s.title + "\nSection: " + s.name + "\n\n" + s.content.value,
      Truthy(map[
        "doc_type" := JStr("course_section"), "section_name" := JStr(s.name),
        "course_code" := JStr(s.code), "course_title" := JStr(s.title),
        "department" := JStr(s.department), "credits" := JStr(render.str(s.credits)),
        "cycle" := JStr(s.cycle), "programs" := OrEmpty(s.programCodes), "is_current" := JBool(true),
        "character_count" := s.characterCount,
        "source" := JStr("database:sections:" + s.code + ":" + sectionType),
        "section_type" := JStr(sectionType)]))
  }

  function SectionDocOf(render: Render): SectionRow -> Document {
    s => if HasText(s) then SectionDoc(render, s) else Document([], map[])
  }

  /** One document per section with text, in row order. */
  function SectionDocs(render: Render, rows: seq<SectionRow>): seq<Document> {
    MapSeq(Filter(rows, HasText), SectionDocOf(render))
  }

  /**
   * Empty and blank sections give no document; every other section gives one, typed by its name,
   * and no document carries a falsy metadata value.
   */
  lemma SectionDocsSpec(render: Render, rows: seq<SectionRow>)
    ensures var docs := SectionDocs(render, rows);
            |docs| <= |rows| &&
            (forall i :: 0 <= i < |docs| ==> NoFalsy(docs[i].metadata)) &&
            (forall d :: d in docs ==> exists j :: 0 <= j < |rows| && HasText(rows[j]) && d == SectionDoc(render, rows[j])) &&
            (forall j :: 0 <= j < |rows| && HasText(rows[j]) ==> SectionDoc(render, rows[j]) in docs)
  {
    MapFilterMembers(rows, HasText, SectionDocOf(render));
  }

  method LoadSectionDocuments(render: Render, rows: seq<SectionRow>) returns (docs: seq<Document>)
    ensures docs == SectionDocs(render, rows)
  {
    docs := [];
    for i := 0 to |rows|
      invariant docs == SectionDocs(render, rows[..i])
    {
      MapFilterStep(rows, i, HasText, SectionDocOf(render));
      if rows[i].content.Some? && Strip(rows[i].content.value) != [] {
        docs := docs + [SectionDoc(render, rows[i])];
      }
    }
    assert rows[..|rows|] == rows;
  }

  // ----- load_course_detail_documents -----

  /** A row of the course-detail query. */
  datatype DetailRow = DetailRow(
    code: String, title: String, department: String, credits: Json, cycle: String,
    studyForm: Json, term: Json, programCodes: Json,
    tuitionFee: Json, duration: Json, applicationPeriod: Json, applicationCode: Json)

  /** A tuition fee, a duration, an application period or an application code is not NULL. */
  predicate HasDetails(d: DetailRow) {
    d.tuitionFee != JNull || d.duration != JNull || d.applicationPeriod != JNull || d.applicationCode != JNull
  }

  function DetailContent(render: Render, d: DetailRow): String {
    Join(["Course: " + d.code + " - " + d.title, "Application and Practical Information:"]
         + (if d.tuitionFee != JNull then ["Tuition Fee: " + render.str(d.tuitionFee) + " SEK"] else [])
         + LineIf(render, "Duration", d.duration)
         + LineIf(render, "Application Period", d.applicationPeriod)
         + LineIf(render, "Application Code", d.applicationCode)
         + LineIf(render, "Study Form", d.studyForm)
         + LineIf(render, "Term", d.term), "\n")
  }

  /**
   * A detail document: no falsy metadata value, and `has_tuition` is present, and true, exactly
   * when the tuition fee is not NULL.
   */
  function DetailDoc(render: Render, d: DetailRow): (r: Document)
    ensures NoFalsy(r.metadata)
    ensures "has_tuition" in r.metadata <==> d.tuitionFee != JNull
    ensures "has_tuition" in r.metadata ==> r.metadata["has_tuition"] == JBool(true)
  {
    var hasTuition := d.tuitionFee != JNull;
    Document(DetailContent(render, d), Truthy(map[
      "doc_type" := JStr("course_details"), "course_code" := JStr(d.code),
      "course_title" := JStr(d.title), "department" := JStr(d.department),
      "credits" := JStr(render.str(d.credits)), "cycle" := JStr(d.cycle),
      "tuition_fee" := JStr(if hasTuition then render.str(d.tuitionFee) else ""),
      "study_form" := OrEmpty(d.studyForm), "term" := OrEmpty(d.term),
      "application_code" := OrEmpty(d.applicationCode), "programs" := OrEmpty(d.programCodes),
      "is_current" := JBool(true), "source" := JStr("database:details:" + d.code),
      "has_tuition" := JBool(hasTuition)]))
  }

  function DetailDocOf(render: Render): DetailRow -> Document {
    d => DetailDoc(render, d)
  }

  /** One document per course with details, in row order. */
  function DetailDocs(render: Render, rows: seq<DetailRow>): seq<Document> {
    MapSeq(Filter(rows, HasDetails), DetailDocOf(render))
  }

  /**
   * A course's details give a document exactly when one of the four detail columns is not NULL,
   * and then its metadata marks a tuition fee exactly when there is one.
   */
  lemma DetailDocsSpec(render: Render, rows: seq<DetailRow>)
    ensures var docs := DetailDocs(render, rows);
            (forall d :: d in docs ==> exists j :: 0 <= j < |rows| && HasDetails(rows[j]) && d == DetailDoc(render, rows[j])) &&
            (forall j :: 0 <= j < |rows| && HasDetails(rows[j]) ==> DetailDoc(render, rows[j]) in docs) &&
            (forall i :: 0 <= i < |docs| ==> NoFalsy(docs[i].metadata))
  {
    MapFilterMembers(rows, HasDetails, DetailDocOf(render));
  }

  method LoadCourseDetailDocuments(render: Render, rows: seq<DetailRow>) returns (docs: seq<Document>)
    ensures docs == DetailDocs(render, rows)
  {
    docs := [];
    for i := 0 to |rows|
      invariant docs == DetailDocs(render, rows[..i])
    {
      MapFilterStep(rows, i, HasDetails, DetailDocOf(render));
      var hasTuition := rows[i].tuitionFee != JNull;
      var hasDuration := rows[i].duration != JNull;
      var hasApplication := rows[i].applicationPeriod != JNull || rows[i].applicationCode != JNull;
      if hasTuition || hasDuration || hasApplication {
        docs := docs + [DetailDoc(render, rows[i])];
      }
    }
    assert rows[..|rows|] == rows;
  }

  // ----- _get_program_names / _get_program_name -----

  /** `{row['program_code']: row['program_name'] for row in rows}`: a later row wins. */
  function NamesOf(programs: seq<(String, String)>): (r: map<String, String>)
    ensures forall k :: k in r <==> exists i :: 0 <= i < |programs| && programs[i].0 == k
    ensures forall k :: k in r ==> (k, r[k]) in programs
    decreases |programs|
  {
    if programs == [] then map[]
    else
      var n := |programs| - 1;
      var prev := NamesOf(programs[..n]);
      assert forall i :: 0 <= i < n ==> programs[..n][i] == programs[i];
      prev[programs[n].0 := programs[n].1]
  }

  /**
   * `names.get(code, code)`: a known program code gives its name, any other hashable code is
   * its own name, and a list or dict code cannot be looked up.
   */
  function NameOf(names: map<String, String>, code: Json): (r: Result<Json>)
    ensures r.Err? <==> code.JArr? || code.JObj?
    ensures code.JStr? && code.s in names ==> r == Ok(JStr(names[code.s]))
    ensures r.Ok? && !(code.JStr? && code.s in names) ==> r == Ok(code)
  {
    if code.JArr? || code.JObj? then Err("TypeError: unhashable type")
    else if code.JStr? && code.s in names then Ok(JStr(names[code.s]))
    else Ok(code)
  }

  /** The names a loader uses: its cache when filled, otherwise the programs table. */
  function Names(cache: Option<map<String, String>>, programs: seq<(String, String)>): map<String, String> {
    if cache.Some? then cache.value else NamesOf(programs)
  }

  // ----- _create_program_overview_document -----

  /** `d.get(k, default)` on a dict. */
  function GetOr(fields: Dict<Json>, k: String, default: Json): Json {
    Get(fields, k).GetOr(default)
  }

  /**
   * The study lines of a program overview, from `program_page.application_information.autumn_2025`;
   * nothing when a step fails with an exception.
   */
  function StudyLines(render: Render, fields: Dict<Json>): Option<seq<String>> {
    if "program_page" !in Keys(fields) then Some([])
    else
      var page := GetOr(fields, "program_page", JNull);
      if !page.JObj? then None
      else
        match MergeCourseData.Lookup(GetOr(page.fields, "application_information", JObj([])), "autumn_2025")
        case Err(_) => None
        case Ok(None) => Some([])
        case Ok(Some(autumn)) =>
          if !autumn.JObj? then None
          else
            Some(["", "Study Information:",
                  "Study Pace: " + render.str(GetOr(autumn.fields, "study_pace", JStr(""))),
                  "Location: " + render.str(GetOr(autumn.fields, "location", JStr(""))),
                  "Language: " + render.str(GetOr(autumn.fields, "language", JStr(""))),
                  "Duration: " + render.str(GetOr(autumn.fields, "duration", JStr("")))])
  }

  /** `program_data.get('program_code', '')`. */
  function ProgramCode(fields: Dict<Json>): Json {
    GetOr(fields, "program_code", JStr(""))
  }

  /**
   * The overview document of a program file, or nothing when building it raises: the file is
   * not a dict, its code cannot be looked up, its entry requirements are not a dict, or its
   * program page is malformed. The document carries the file's program code and the name the
   * code is known by.
   */
  function ProgramOverview(render: Render, names: map<String, String>, data: Json): (r: Option<Document>)
    ensures r.Some? ==> data.JObj? && NameOf(names, ProgramCode(data.fields)).Ok?
    ensures r.Some? ==> "program_code" in r.value.metadata && "program_name" in r.value.metadata &&
                        r.value.metadata["program_code"] == ProgramCode(data.fields) &&
                        r.value.metadata["program_name"] == NameOf(names, ProgramCode(data.fields)).value
  {
    if !data.JObj? then None
    else
      var code := ProgramCode(data.fields);
      match NameOf(names, code)
      case Err(_) => None
      case Ok(name) =>
        var entry := GetOr(data.fields, "entry_requirements", JObj([]));
        if !entry.JObj? then None
        else
          match StudyLines(render, data.fields)
          case None => None
          case Some(study) =>
            var credits := GetOr(data.fields, "number_of_credits", JStr(""));
            var field := GetOr(data.fields, "main_field_of_study", JStr(""));
            var lines := [
              "Program: " + render.str(name) + " (" + render.str(code) + ")",
              "Program Code: " + render.str(code), "Program Name: " + render.str(name),
              "Credits: " + render.str(credits) + " HP", "Main Field of Study: " + render.str(field),
              "", "Purpose:", render.str(GetOr(data.fields, "purpose", JStr(""))),
              "", "Entry Requirements:",
              render.str(GetOr(entry.fields, "general_requirements", JStr("")))] + study;
            Some(Document(Join(lines, "\n"), map[
              "doc_type" := JStr("program_overview"), "credits" := JStr(render.str(credits)),
              "main_field_of_study" := field, "source" := JStr("programs:" + render.str(code)),
              "program_name" := name, "program_code" := code]))
  }

  // ----- _create_program_section_documents -----

  /** `s.title()`: a letter after a letter is lower-cased, any other letter upper-cased. */
  function Title(s: String): (r: String)
    ensures |r| == |s|
    decreases |s|
  {
    if s == [] then []
    else
      var n := |s| - 1;
      Title(s[..n]) + [if n > 0 && IsLetter(s[n - 1]) then LowerChar(s[n]) else UpperChar(s[n])]
  }

  /** `key.replace('_', ' ').title()`. */
  function Caption(key: String): String {
    Title(ReplaceChar(key, '_', ' '))
  }

  /** The lines of a nested dict: `"  Key: value"` for each truthy value. */
  function SubLines(render: Render, fields: Dict<Json>): seq<String>
    decreases |fields|
  {
    if fields == [] then []
    else
      var n := |fields| - 1;
      SubLines(render, fields[..n])
        + (if fields[n].1.IsTruthy() then ["  " + Caption(fields[n].0) + ": " + render.str(fields[n].1)] else [])
  }

  /** The lines of one entry of a dict section. */
  function EntryLines(render: Render, e: (String, Json)): seq<String> {
    if e.1.JObj? then [Caption(e.0) + ":"] + SubLines(render, e.1.fields)
    else if e.1.IsTruthy() then [Caption(e.0) + ": " + render.str(e.1)]
    else []
  }

  /** The lines of a dict section, entry by entry. */
  function FieldLines(render: Render, fields: Dict<Json>): seq<String>
    decreases |fields|
  {
    if fields == [] then []
    else
      var n := |fields| - 1;
      FieldLines(render, fields[..n]) + EntryLines(render, fields[n])
  }

  /** The loop that flattens a dict section into lines. */
  method FlattenSection(render: Render, fields: Dict<Json>) returns (lines: seq<String>)
    ensures lines == FieldLines(render, fields)
  {
    lines := [];
    for i := 0 to |fields|
      invariant lines == FieldLines(render, fields[..i])
    {
      assert fields[..i + 1][..i] == fields[..i];
      var (key, value) := fields[i];
      if value.JObj? {
        var sub := value.fields;
        var nested := [Caption(key) + ":"];
        for j := 0 to |sub|
          invariant nested == [Caption(key) + ":"] + SubLines(render, sub[..j])
        {
          assert sub[..j + 1][..j] == sub[..j];
          if sub[j].1.IsTruthy() {
            nested := nested + ["  " + Caption(sub[j].0) + ": " + render.str(sub[j].1)];
          }
        }
        assert sub[..|sub|] == sub;
        lines := lines + nested;
      } else if value.IsTruthy() {
        lines := lines + [Caption(key) + ": " + render.str(value)];
      }
    }
    assert fields[..|fields|] == fields;
  }

  /** The document of one program section, typed by the section's name. */
  function ProgramSectionDoc(render: Render, code: Json, name: Json, section: (String, Json)): (r: Document)
    ensures "section_type" in r.metadata && r.metadata["section_type"] == JStr(section.0)
  {
    var head := "Program: " + render.str(name) + " (" + render.str(code) + ")";
    var content :=
      if section.1.JObj? then
        Join([head, "Section: " + Caption(section.0), ""] + FieldLines(render, section.1.fields), "\n")
      else head + "\nSection: " + Caption(section.0) + "\n\n" + render.str(section.1);
    Document(content, map[
      "doc_type" := JStr("program_section"), "section_name" := JStr(Caption(section.0)),
      "program_code" := code, "program_name" := name,
      "source" := JStr("programs:" + render.str(code) + ":" + section.0),
      "section_type" := JStr(section.0)])
  }

  function ProgramSectionDocOf(render: Render, code: Json, name: Json): ((String, Json)) -> Document {
    section => ProgramSectionDoc(render, code, name, section)
  }

  /** The sections a program document can have, each with the default of its `get`. */
  const ProgramSectionKeys: seq<(String, Json)> := [
    ("outcomes", JObj([])), ("content_and_structure", JObj([])),
    ("guaranteed_admission", JStr("")), ("other_information", JObj([]))]

  /** The `sections` dict: each listed section's value in the file, or its default. */
  function SectionValues(fields: Dict<Json>, keys: seq<(String, Json)>): (r: seq<(String, Json)>)
    ensures |r| == |keys|
    ensures forall i :: 0 <= i < |keys| ==> r[i] == (keys[i].0, GetOr(fields, keys[i].0, keys[i].1))
  {
    seq(|keys|, i requires 0 <= i < |keys| => (keys[i].0, GetOr(fields, keys[i].0, keys[i].1)))
  }

  /** `if not section_data: continue`. */
  predicate Present(section: (String, Json)) {
    section.1.IsTruthy()
  }

  /**
   * The section documents of a program file, or the exception that stops them: the file is not
   * a dict, or its code cannot be looked up.
   */
  function ProgramSections(render: Render, names: map<String, String>, data: Json, keys: seq<(String, Json)>): (r: Result<seq<Document>>)
    ensures r.Ok? <==> data.JObj? && NameOf(names, ProgramCode(data.fields)).Ok?
  {
    if !data.JObj? then Err("AttributeError: no get")
    else
      var code := ProgramCode(data.fields);
      match NameOf(names, code)
      case Err(e) => Err(e)
      case Ok(name) =>
        Ok(MapSeq(Filter(SectionValues(data.fields, keys), Present), ProgramSectionDocOf(render, code, name)))
  }

  /**
   * A program's section documents are exactly one per listed section whose value is truthy: each
   * document is typed by such a section, and each such section has a document.
   */
  lemma ProgramSectionsPresent(render: Render, names: map<String, String>, data: Json, keys: seq<(String, Json)>)
    requires ProgramSections(render, names, data, keys).Ok?
    ensures var docs := ProgramSections(render, names, data, keys).value;
            |docs| <= |keys| &&
            (forall d :: d in docs ==>
               exists j :: 0 <= j < |keys| && GetOr(data.fields, keys[j].0, keys[j].1).IsTruthy() &&
                           d.metadata["section_type"] == JStr(keys[j].0)) &&
            (forall j :: 0 <= j < |keys| && GetOr(data.fields, keys[j].0, keys[j].1).IsTruthy() ==>
               exists d :: d in docs && d.metadata["section_type"] == JStr(keys[j].0))
  {
    var values := SectionValues(data.fields, keys);
    var code := ProgramCode(data.fields);
    var name := NameOf(names, code).value;
    var docs := ProgramSections(render, names, data, keys).value;
    assert docs == MapSeq(Filter(values, Present), ProgramSectionDocOf(render, code, name));
    SectionDocsSound(render, code, name, data.fields, keys);
    SectionDocsComplete(render, code, name, data.fields, keys);
  }

  lemma SectionDocsSound(render: Render, code: Json, name: Json, fields: Dict<Json>, keys: seq<(String, Json)>)
    ensures var docs := MapSeq(Filter(SectionValues(fields, keys), Present), ProgramSectionDocOf(render, code, name));
            forall d :: d in docs ==>
              exists j :: 0 <= j < |keys| && GetOr(fields, keys[j].0, keys[j].1).IsTruthy() &&
                          d.metadata["section_type"] == JStr(keys[j].0)
  {
    var values := SectionValues(fields, keys);
    var f := ProgramSectionDocOf(render, code, name);
    var docs := MapSeq(Filter(values, Present), f);
    forall d: Document | d in docs
      ensures exists j :: 0 <= j < |keys| && GetOr(fields, keys[j].0, keys[j].1).IsTruthy() &&
                          d.metadata["section_type"] == JStr(keys[j].0)
    {
      var i :| 0 <= i < |docs| && docs[i] == d;
      var j := MapFilterSource(values, Present, f, i);
      assert values[j] == (keys[j].0, GetOr(fields, keys[j].0, keys[j].1));
      assert d.metadata["section_type"] == JStr(keys[j].0);
    }
  }

  lemma SectionDocsComplete(render: Render, code: Json, name: Json, fields: Dict<Json>, keys: seq<(String, Json)>)
    ensures var docs := MapSeq(Filter(SectionValues(fields, keys), Present), ProgramSectionDocOf(render, code, name));
            forall j :: 0 <= j < |keys| && GetOr(fields, keys[j].0, keys[j].1).IsTruthy() ==>
              exists d :: d in docs && d.metadata["section_type"] == JStr(keys[j].0)
  {
    var values := SectionValues(fields, keys);
    var f := ProgramSectionDocOf(render, code, name);
    MapFilterMembers(values, Present, f);
    forall j | 0 <= j < |keys| && GetOr(fields, keys[j].0, keys[j].1).IsTruthy()
      ensures exists d: Document :: d in MapSeq(Filter(values, Present), f) && d.metadata["section_type"] == JStr(keys[j].0)
    {
      assert Present(values[j]) && f(values[j]) in MapSeq(Filter(values, Present), f);
    }
  }

  /** The loop of `_create_program_section_documents`, given the program's code and name. */
  method ProgramSectionDocuments(render: Render, code: Json, name: Json, values: seq<(String, Json)>) returns (docs: seq<Document>)
    ensures docs == MapSeq(Filter(values, Present), ProgramSectionDocOf(render, code, name))
  {
    docs := [];
    for i := 0 to |values|
      invariant docs == MapSeq(Filter(values[..i], Present), ProgramSectionDocOf(render, code, name))
    {
      MapFilterStep(values, i, Present, ProgramSectionDocOf(render, code, name));
      var (section, value) := values[i];
      if value.IsTruthy() {
        var content;
        var head := "Program: " + render.str(name) + " (" + render.str(code) + ")";
        if value.JObj? {
          var lines := FlattenSection(render, value.fields);
          content := Join([head, "Section: " + Caption(section), ""] + lines, "\n");
        } else {
          content := head + "\nSection: " + Caption(section) + "\n\n" + render.str(value);
        }
        var doc := Document(content, map[
          "doc_type" := JStr("program_section"), "section_name" := JStr(Caption(section)),
          "program_code" := code, "program_name" := name,
          "source" := JStr("programs:" + render.str(code) + ":" + section),
          "section_type" := JStr(section)]);
        assert doc == ProgramSectionDoc(render, code, name, values[i]);
        docs := docs + [doc];
      }
    }
    assert values[..|values|] == values;
  }

  /** The documents of one program file: its overview when it could be built, then its sections. */
  function ProgramFileDocs(render: Render, names: map<String, String>, data: Json): seq<Document> {
    (match ProgramOverview(render, names, data) case Some(d) => [d] case None => [])
      + (match ProgramSections(render, names, data, ProgramSectionKeys) case Ok(ds) => ds case Err(_) => [])
  }

  /** The documents of the program files in turn; an unreadable file gives none. */
  function ProgramDocs(render: Render, names: map<String, String>, files: seq<Option<Json>>): seq<Document>
    decreases |files|
  {
    if files == [] then []
    else
      var n := |files| - 1;
      ProgramDocs(render, names, files[..n])
        + (match files[n] case Some(data) => ProgramFileDocs(render, names, data) case None => [])
  }

  /** Some file is a dict, so its documents look the program names up. */
  predicate ReadsNames(files: seq<Option<Json>>) {
    exists i :: 0 <= i < |files| && files[i].Some? && files[i].value.JObj?
  }

  // ----- load_program_course_lists -----

  /** A row of the program course-list query. */
  datatype ListRow = ListRow(
    programCode: String, programName: String, code: String, title: String,
    credits: Json, cycle: String, department: Json, term: Json)

  function ProgramOf(r: ListRow): String {
    r.programCode
  }

  /**
   * The grouping loop: the first element with a key opens its list at the end of the dict, and
   * every element is appended to its key's list.
   */
  function Grouped<T>(xs: seq<T>, key: T -> String): Dict<seq<T>>
    decreases |xs|
  {
    if xs == [] then []
    else
      var n := |xs| - 1;
      var g := Grouped(xs[..n], key);
      Set(g, key(xs[n]), Get(g, key(xs[n])).GetOr([]) + [xs[n]])
  }

  /** Each key's list is, in order, the elements with that key, and a key has a list exactly when some element has it. */
  lemma {:induction false} GroupedGet<T>(xs: seq<T>, key: T -> String, t: String)
    ensures Get(Grouped(xs, key), t).GetOr([]) == Filter(xs, KeyIs(key, t))
    ensures Get(Grouped(xs, key), t).Some? <==> Filter(xs, KeyIs(key, t)) != []
    decreases |xs|
  {
    if xs != [] {
      var n := |xs| - 1;
      var g := Grouped(xs[..n], key);
      var v := Get(g, key(xs[n])).GetOr([]) + [xs[n]];
      assert Grouped(xs, key) == Set(g, key(xs[n]), v);
      GroupedGet(xs[..n], key, t);
      FilterPrefixStep(xs, n, KeyIs(key, t));
      assert xs[..n + 1] == xs;
      if key(xs[n]) != t {
        SetGetOther(g, key(xs[n]), v, t);
      }
    }
  }

  /** The groups come in the order their keys first occur. */
  lemma {:induction false} GroupedKeys<T>(xs: seq<T>, key: T -> String)
    ensures Keys(Grouped(xs, key)) == Dedup(MapSeq(xs, key))
    decreases |xs|
  {
    if xs != [] {
      var n := |xs| - 1;
      var init := xs[..n];
      var last := xs[n];
      var g := Grouped(init, key);
      var v := Get(g, key(last)).GetOr([]) + [last];
      assert Grouped(xs, key) == Set(g, key(last), v);
      GroupedKeys(init, key);
      SetKeysOrder(g, key(last), v);
      var m := MapSeq(xs, key);
      assert m[..n] == MapSeq(init, key) && m[n] == key(last);
      assert m[..n + 1] == m;
      DedupPrefixStep(m, n);
    }
  }

  /** The loop that groups the rows by program. */
  method GroupByProgram(rows: seq<ListRow>) returns (groups: Dict<seq<ListRow>>)
    ensures groups == Grouped(rows, ProgramOf)
  {
    groups := [];
    for i := 0 to |rows|
      invariant groups == Grouped(rows[..i], ProgramOf)
    {
      assert rows[..i + 1][..i] == rows[..i];
      var code := rows[i].programCode;
      var courses := Get(groups, code).GetOr([]);
      groups := Set(groups, code, courses + [rows[i]]);
    }
    assert rows[..|rows|] == rows;
  }

  function InCycle(cycle: String): ListRow -> bool {
    (c: ListRow) => c.cycle == cycle
  }

  const SecondCycle: String := "Second cycle"
  const FirstCycle: String := "First cycle"
  const ThirdCycle: String := "Third cycle"

  /** The cycles a course list shows, in the order it shows them. */
  const Cycles: (String, String, String) := (SecondCycle, FirstCycle, ThirdCycle)

  function CourseLine(render: Render, c: ListRow): String {
    "\U{2022} " + c.code + ": " + c.title + " (" + render.str(c.credits) + " HP)"
      + (if c.department.IsTruthy() then " - " + render.str(c.department) else "")
      + (if c.term.IsTruthy() then " - " + render.str(c.term) else "")
  }

  function CourseLineOf(render: Render): ListRow -> String {
    (c: ListRow) => CourseLine(render, c)
  }

  /** The number of lines of a block of `n` courses. */
  function BlockSize(n: nat): nat {
    if n == 0 then 0 else n + 2
  }

  /** A cycle's block: its heading, a line per course and an empty line; nothing without courses. */
  function Block<T>(heading: String, courses: seq<T>, line: T -> String): (r: seq<String>)
    ensures |r| == BlockSize(|courses|)
  {
    if courses == [] then [] else [heading] + MapSeq(courses, line) + [""]
  }

  /** A block's course lines follow its heading, in the order of its courses. */
  lemma BlockLine<T>(heading: String, courses: seq<T>, line: T -> String, k: nat)
    requires k < |courses|
    ensures Block(heading, courses, line)[k + 1] == line(courses[k])
  {
  }

  /** A header, three blocks and a trailer. */
  function Layout<T>(head: seq<String>, headings: (String, String, String),
                     a: seq<T>, b: seq<T>, c: seq<T>, line: T -> String, tail: seq<String>): (r: seq<String>)
    ensures |r| == |head| + BlockSize(|a|) + BlockSize(|b|) + BlockSize(|c|) + |tail|
  {
    head + (Block(headings.0, a, line) + (Block(headings.1, b, line) + (Block(headings.2, c, line) + tail)))
  }

  /** Indexing past a prefix indexes the rest. */
  lemma IndexAfter<X>(p: seq<X>, q: seq<X>, k: nat)
    requires k < |q|
    ensures (p + q)[|p| + k] == q[k]
  {
  }

  /** Indexing within a prefix indexes the prefix. */
  lemma IndexBefore<X>(p: seq<X>, q: seq<X>, k: nat)
    requires k < |p|
    ensures (p + q)[k] == p[k]
  {
  }

  /** The first block's course lines start one line after the header. */
  lemma FirstBlockAt<T>(head: seq<String>, headings: (String, String, String),
                        a: seq<T>, b: seq<T>, c: seq<T>, line: T -> String, tail: seq<String>, k: nat)
    requires k < |a|
    ensures Layout(head, headings, a, b, c, line, tail)[|head| + 1 + k] == line(a[k])
  {
    var ba := Block(headings.0, a, line);
    var rest := Block(headings.1, b, line) + (Block(headings.2, c, line) + tail);
    IndexAfter(head, ba + rest, 1 + k);
    IndexBefore(ba, rest, 1 + k);
    BlockLine(headings.0, a, line, k);
  }

  /** The second block's course lines start one line after the first block. */
  lemma SecondBlockAt<T>(head: seq<String>, headings: (String, String, String),
                         a: seq<T>, b: seq<T>, c: seq<T>, line: T -> String, tail: seq<String>, k: nat)
    requires k < |b|
    ensures Layout(head, headings, a, b, c, line, tail)[|head| + BlockSize(|a|) + 1 + k] == line(b[k])
  {
    var ba, bb := Block(headings.0, a, line), Block(headings.1, b, line);
    var rest := Block(headings.2, c, line) + tail;
    var y := bb + rest;
    IndexAfter(head, ba + y, BlockSize(|a|) + 1 + k);
    IndexAfter(ba, y, 1 + k);
    IndexBefore(bb, rest, 1 + k);
    BlockLine(headings.1, b, line, k);
  }

  /** The third block's course lines start one line after the second block. */
  lemma ThirdBlockAt<T>(head: seq<String>, headings: (String, String, String),
                        a: seq<T>, b: seq<T>, c: seq<T>, line: T -> String, tail: seq<String>, k: nat)
    requires k < |c|
    ensures Layout(head, headings, a, b, c, line, tail)[|head| + BlockSize(|a|) + BlockSize(|b|) + 1 + k] == line(c[k])
  {
    var ba, bb, bc := Block(headings.0, a, line), Block(headings.1, b, line), Block(headings.2, c, line);
    var z := bc + tail;
    var y := bb + z;
    IndexAfter(head, ba + y, BlockSize(|a|) + BlockSize(|b|) + 1 + k);
    IndexAfter(ba, y, BlockSize(|b|) + 1 + k);
    IndexAfter(bb, z, 1 + k);
    IndexBefore(bc, tail, 1 + k);
    BlockLine(headings.2, c, line, k);
  }

  function Count(n: nat): Json {
    JNum(Dec(n, 0))
  }

  function CreditsOf(c: ListRow): Json {
    c.credits
  }

  const CycleHeadings: (String, String, String) := (
    "=== SECOND CYCLE (MASTER'S LEVEL) COURSES ===",
    "=== FIRST CYCLE (BACHELOR'S LEVEL) COURSES ===",
    "=== THIRD CYCLE (PHD LEVEL) COURSES ===")

  function ListHead(render: Render, code: String, name: String, total: nat): (r: seq<String>)
    ensures |r| == 5
  {
    ["Complete Course List for " + name + " (" + code + ")",
     "Total Courses Available: " + render.str(Count(total)), "", "COURSE LIST:", ""]
  }

  function Summary(render: Render, rows: seq<ListRow>, second: nat, first: nat, third: nat): (r: seq<String>)
    ensures |r| == 5
  {
    ["SUMMARY:",
     "- Second Cycle Courses: " + render.str(Count(second)),
     "- First Cycle Courses: " + render.str(Count(first)),
     "- Third Cycle Courses: " + render.str(Count(third)),
     "- Total Credits Available: " + render.sum(MapSeq(rows, CreditsOf)) + " HP"]
  }

  /**
   * The courses of each of the three cycles, in row order: the three list comprehensions
   * `[c for c in courses if c['cycle'] == ...]`, computed in one pass.
   */
  function SplitByCycle(rows: seq<ListRow>, cycles: (String, String, String)): (seq<ListRow>, seq<ListRow>, seq<ListRow>) {
    if rows == [] then ([], [], [])
    else
      var rest := SplitByCycle(rows[1..], cycles);
      var c := rows[0];
      ((if c.cycle == cycles.0 then [c] else []) + rest.0,
       (if c.cycle == cycles.1 then [c] else []) + rest.1,
       (if c.cycle == cycles.2 then [c] else []) + rest.2)
  }

  /** Each part of the split holds exactly the rows of its cycle, in row order. */
  lemma {:induction false} SplitByCycleFilters(rows: seq<ListRow>, cycles: (String, String, String))
    ensures SplitByCycle(rows, cycles).0 == Filter(rows, InCycle(cycles.0))
    ensures SplitByCycle(rows, cycles).1 == Filter(rows, InCycle(cycles.1))
    ensures SplitByCycle(rows, cycles).2 == Filter(rows, InCycle(cycles.2))
  {
    if rows != [] {
      SplitByCycleFilters(rows[1..], cycles);
    }
  }

  /** The text of a program's course list, `rows` being its courses. */
  function ListLines(render: Render, code: String, name: String, rows: seq<ListRow>,
                     cycles: (String, String, String)): seq<String> {
    var parts := SplitByCycle(rows, cycles);
    Layout(ListHead(render, code, name, |rows|), CycleHeadings, parts.0, parts.1, parts.2, CourseLineOf(render),
           Summary(render, rows, |parts.0|, |parts.1|, |parts.2|))
  }

  /** After a five-line header, the three blocks of a layout hold their lines in order, one after the other. */
  lemma LayoutOrder<T>(head: seq<String>, headings: (String, String, String),
                       a: seq<T>, b: seq<T>, c: seq<T>, line: T -> String, tail: seq<String>)
    requires |head| == 5 && tail != []
    ensures var lines := Layout(head, headings, a, b, c, line, tail);
            var pb := 6 + BlockSize(|a|);
            var pc := pb + BlockSize(|b|);
            6 + |a| <= pb && pb + |b| <= pc && pc + |c| <= |lines| &&
            lines[6..6 + |a|] == MapSeq(a, line) &&
            lines[pb..pb + |b|] == MapSeq(b, line) &&
            lines[pc..pc + |c|] == MapSeq(c, line)
  {
    var lines := Layout(head, headings, a, b, c, line, tail);
    var pb := 6 + BlockSize(|a|);
    var pc := pb + BlockSize(|b|);
    forall k | 0 <= k < |a| ensures lines[6..6 + |a|][k] == MapSeq(a, line)[k] {
      FirstBlockAt(head, headings, a, b, c, line, tail, k);
    }
    assert lines[6..6 + |a|] == MapSeq(a, line);
    forall k | 0 <= k < |b| ensures lines[pb..pb + |b|][k] == MapSeq(b, line)[k] {
      SecondBlockAt(head, headings, a, b, c, line, tail, k);
    }
    assert lines[pb..pb + |b|] == MapSeq(b, line);
    forall k | 0 <= k < |c| ensures lines[pc..pc + |c|][k] == MapSeq(c, line)[k] {
      ThirdBlockAt(head, headings, a, b, c, line, tail, k);
    }
    assert lines[pc..pc + |c|] == MapSeq(c, line);
  }

  /**
   * A course list shows, from line 6 on, one line per second-cycle course, then one per
   * first-cycle course, then one per third-cycle course, each cycle in row order.
   */
  lemma CourseListOrder(render: Render, code: String, name: String, rows: seq<ListRow>,
                        cycles: (String, String, String))
    ensures var lines := ListLines(render, code, name, rows, cycles);
            var parts := SplitByCycle(rows, cycles);
            var pb := 6 + BlockSize(|parts.0|);
            var pc := pb + BlockSize(|parts.1|);
            6 + |parts.0| <= pb && pb + |parts.1| <= pc && pc + |parts.2| <= |lines| &&
            lines[6..6 + |parts.0|] == MapSeq(parts.0, CourseLineOf(render)) &&
            lines[pb..pb + |parts.1|] == MapSeq(parts.1, CourseLineOf(render)) &&
            lines[pc..pc + |parts.2|] == MapSeq(parts.2, CourseLineOf(render))
  {
    var parts := SplitByCycle(rows, cycles);
    var head := ListHead(render, code, name, |rows|);
    var tail := Summary(render, rows, |parts.0|, |parts.1|, |parts.2|);
    LayoutOrder(head, CycleHeadings, parts.0, parts.1, parts.2, CourseLineOf(render), tail);
  }

  /** Elements that pass at most one of three tests: the three filters together are no longer than the sequence. */
  lemma {:induction false} ExclusiveCounts<T>(xs: seq<T>, p: T -> bool, q: T -> bool, r: T -> bool)
    requires forall x :: !(p(x) && q(x)) && !(p(x) && r(x)) && !(q(x) && r(x))
    ensures |Filter(xs, p)| + |Filter(xs, q)| + |Filter(xs, r)| <= |xs|
    decreases |xs|
  {
    if xs != [] {
      ExclusiveCounts(xs[1..], p, q, r);
    }
  }

  /** The three cycle counts of a course list add up to at most its number of courses. */
  lemma CycleCounts(rows: seq<ListRow>)
    ensures |Filter(rows, InCycle(SecondCycle))| + |Filter(rows, InCycle(FirstCycle))|
              + |Filter(rows, InCycle(ThirdCycle))| <= |rows|
  {
    assert SecondCycle[0] != FirstCycle[0] && SecondCycle[0] != ThirdCycle[0] && FirstCycle[0] != ThirdCycle[0];
    ExclusiveCounts(rows, InCycle(SecondCycle), InCycle(FirstCycle), InCycle(ThirdCycle));
  }

  /** A program's course-list document: its program code, and as `total_courses` its number of courses. */
  function CourseListDoc(render: Render, group: (String, seq<ListRow>)): (r: Document)
    ensures "program_code" in r.metadata && r.metadata["program_code"] == JStr(group.0)
    ensures "total_courses" in r.metadata && r.metadata["total_courses"] == Count(|group.1|)
  {
    var name := if group.1 == [] then "" else group.1[0].programName;
    Document(Join(ListLines(render, group.0, name, group.1, Cycles), "\n"), map[
      "doc_type" := JStr("program_course_list"), "program_name" := JStr(name),
      "source" := JStr("database:program_courses:" + group.0),
      "program_code" := JStr(group.0), "total_courses" := Count(|group.1|)])
  }

  function CourseListDocOf(render: Render): ((String, seq<ListRow>)) -> Document {
    (g: (String, seq<ListRow>)) => CourseListDoc(render, g)
  }

  function CourseListDocs(render: Render, rows: seq<ListRow>): seq<Document> {
    MapSeq(Grouped(rows, ProgramOf), CourseListDocOf(render))
  }

  /** Each group holds exactly the elements with its key, in their original order. */
  lemma GroupedEntries<T>(xs: seq<T>, key: T -> String)
    ensures var groups := Grouped(xs, key);
            forall i :: 0 <= i < |groups| ==> groups[i].1 == Filter(xs, KeyIs(key, groups[i].0))
  {
    var groups := Grouped(xs, key);
    GroupedKeys(xs, key);
    assert DistinctKeys(groups);
    forall i | 0 <= i < |groups|
      ensures groups[i].1 == Filter(xs, KeyIs(key, groups[i].0))
    {
      GroupedGet(xs, key, groups[i].0);
      GetEntry(groups, groups[i].0, groups[i].1);
    }
  }

  /**
   * One course-list document per program, in the order the programs first occur in the rows,
   * each counting as `total_courses` the rows of its program.
   */
  lemma CourseListsSpec(render: Render, rows: seq<ListRow>)
    ensures var programs := Dedup(MapSeq(rows, ProgramOf));
            var docs := CourseListDocs(render, rows);
            |docs| == |programs| &&
            forall i :: 0 <= i < |docs| ==>
              docs[i].metadata["program_code"] == JStr(programs[i]) &&
              docs[i].metadata["total_courses"] == Count(|Filter(rows, KeyIs(ProgramOf, programs[i]))|)
  {
    GroupedKeys(rows, ProgramOf);
    GroupedEntries(rows, ProgramOf);
  }

  /** The loop that writes one document per program group. */
  method LoadProgramCourseLists(render: Render, rows: seq<ListRow>) returns (docs: seq<Document>)
    ensures docs == CourseListDocs(render, rows)
  {
    var groups := GroupByProgram(rows);
    docs := [];
    for i := 0 to |groups|
      invariant docs == MapSeq(groups[..i], CourseListDocOf(render))
    {
      MapSeqStep(groups, i, CourseListDocOf(render));
      docs := docs + [CourseListDoc(render, groups[i])];
    }
    assert groups[..|groups|] == groups;
  }

  // ----- the loader -----

  /** The rows the loader's queries return. */
  datatype Database = Database(
    programs: seq<(String, String)>, courses: seq<CourseRow>, sections: seq<SectionRow>,
    details: seq<DetailRow>, courseList: seq<ListRow>)

  /** The files of the programs directory, parsed; an unreadable or invalid file is `None`. */
  type ProgramFiles = seq<Option<Json>>

  lemma ReadsNamesStep(files: ProgramFiles, i: nat)
    requires i < |files|
    ensures ReadsNames(files[..i + 1]) <==> ReadsNames(files[..i]) || (files[i].Some? && files[i].value.JObj?)
  {
    var next := files[..i + 1];
    assert forall j :: 0 <= j < i ==> next[j] == files[..i][j];
    if ReadsNames(next) && !(files[i].Some? && files[i].value.JObj?) {
      var j :| 0 <= j < |next| && next[j].Some? && next[j].value.JObj?;
      assert j < i;
    }
    if files[i].Some? && files[i].value.JObj? {
      assert next[i] == files[i];
    }
  }

  lemma ProgramDocsStep(render: Render, names: map<String, String>, files: ProgramFiles, i: nat)
    requires i < |files|
    ensures ProgramDocs(render, names, files[..i + 1]) ==
              ProgramDocs(render, names, files[..i])
                + (match files[i] case Some(data) => ProgramFileDocs(render, names, data) case None => [])
  {
    assert files[..i + 1][..i] == files[..i];
  }

  /** A file that is not a dict gives no document. */
  lemma NotDictNoDocs(render: Render, names: map<String, String>, data: Json)
    requires !data.JObj?
    ensures ProgramFileDocs(render, names, data) == []
  {
  }

  class DatabaseDocumentLoader {
    /** `_program_names_cache`: nothing until the programs table is first read. */
    var namesCache: Option<map<String, String>>

    constructor()
      ensures namesCache.None?
    {
      namesCache := None;
    }

    /** `_get_program_names`: the programs table is read on the first call only. */
    method ProgramNames(programs: seq<(String, String)>) returns (names: map<String, String>)
      modifies this
      ensures names == Names(old(namesCache), programs)
      ensures namesCache == Some(names)
      ensures old(namesCache).Some? ==> namesCache == old(namesCache)
    {
      if namesCache.None? {
        namesCache := Some(NamesOf(programs));
      }
      names := namesCache.value;
    }

    /** `_get_program_name`: the code's name, or the code itself when it is not a program. */
    method ProgramName(programs: seq<(String, String)>, code: Json) returns (name: Result<Json>)
      modifies this
      ensures name == NameOf(Names(old(namesCache), programs), code)
      ensures namesCache == Some(Names(old(namesCache), programs))
    {
      var names := ProgramNames(programs);
      name := NameOf(names, code);
    }

    /** The documents of one program file that is a dict: its overview, then its sections. */
    method ProgramFileDocuments(render: Render, programs: seq<(String, String)>, data: Json) returns (docs: seq<Document>)
      requires data.JObj?
      modifies this
      ensures docs == ProgramFileDocs(render, Names(old(namesCache), programs), data)
      ensures namesCache == Some(Names(old(namesCache), programs))
    {
      var names := ProgramNames(programs);
      var overview := ProgramOverview(render, names, data);
      docs := if overview.Some? then [overview.value] else [];
      var code := ProgramCode(data.fields);
      var name := ProgramName(programs, code);
      if name.Ok? {
        var sections := ProgramSectionDocuments(render, code, name.value, SectionValues(data.fields, ProgramSectionKeys));
        docs := docs + sections;
      }
    }

    /**
     * `load_program_documents`: nothing without a programs directory; otherwise each file's
     * documents in turn. The program names are read at the first file that is a dict.
     */
    method LoadProgramDocuments(render: Render, programs: seq<(String, String)>, files: Option<ProgramFiles>)
      returns (docs: seq<Document>)
      modifies this
      ensures docs == if files.None? then [] else ProgramDocs(render, Names(old(namesCache), programs), files.value)
      ensures namesCache == if files.Some? && ReadsNames(files.value) then Some(Names(old(namesCache), programs))
                            else old(namesCache)
    {
      docs := [];
      if files.None? {
        return;
      }
      var fs := files.value;
      ghost var names := Names(namesCache, programs);
      for i := 0 to |fs|
        invariant docs == ProgramDocs(render, names, fs[..i])
        invariant namesCache == if ReadsNames(fs[..i]) then Some(names) else old(namesCache)
      {
        ProgramDocsStep(render, names, fs, i);
        ReadsNamesStep(fs, i);
        match fs[i]
        case None =>
        case Some(data) =>
          if data.JObj? {
            var fileDocs := ProgramFileDocuments(render, programs, data);
            docs := docs + fileDocs;
          } else {
            NotDictNoDocs(render, names, data);
          }
      }
      assert fs[..|fs|] == fs;
    }

    /**
     * `load_all_documents`: the course overviews, the sections, the course details, the program
     * documents and the program course lists, in that order.
     */
    method LoadAllDocuments(render: Render, db: Database, files: Option<ProgramFiles>) returns (docs: seq<Document>)
      modifies this
      ensures docs == CourseDocs(render, db.courses) + SectionDocs(render, db.sections)
                      + DetailDocs(render, db.details)
                      + (if files.None? then [] else ProgramDocs(render, Names(old(namesCache), db.programs), files.value))
                      + CourseListDocs(render, db.courseList)
      ensures namesCache == if files.Some? && ReadsNames(files.value) then Some(Names(old(namesCache), db.programs))
                            else old(namesCache)
    {
      var courseDocs := LoadCourseDocuments(render, db.courses);
      var sectionDocs := LoadSectionDocuments(render, db.sections);
      var detailDocs := LoadCourseDetailDocuments(render, db.details);
      var programDocs := LoadProgramDocuments(render, db.programs, files);
      var listDocs := LoadProgramCourseLists(render, db.courseList);
      docs := courseDocs + sectionDocs + detailDocs + programDocs + listDocs;
    }
  }
}
