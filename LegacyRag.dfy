/**
 * The legacy command-line chatbot over course JSON files and a Chroma collection: how
 * course files become one document per section (flattened metadata, sanitised section ids,
 * empty sections skipped, duplicate titles detected), how `build_store` skips ids already in
 * the collection and adds the rest in batches of 50, how the chat history is written into
 * the prompt, and how a query naming a course code ranks that course's sections first.
 * `str()` of a JSON value and `json.dumps` are parameters.
 */
module LegacyRag {
  import opened Wrappers
  import opened Text
  import opened Seqs
  import opened Scan
  import opened Codes
  import opened Dicts
  import opened Json
  import opened Batching

  /** An f-string field: a string is inserted as it is, any other value as its `str()`. */
  function Shown(show: Json -> String, v: Json): (r: String)
    ensures v.JStr? ==> r == v.s
  {
    if v.JStr? then v.s else show(v)
  }

  // ----- metadata flattening -----

  /** The values Chroma accepts in metadata: strings, numbers and booleans. */
  predicate IsFlat(v: Json) { v.JStr? || v.JNum? || v.JBool? }

  /** One value of the flattening loop: containers become their JSON text and `None` becomes "". */
  function FlatValue(dumps: Json -> String, v: Json): (r: Json)
    ensures IsFlat(r)
    ensures IsFlat(v) ==> r == v
    ensures v.JNull? ==> r == JStr("")
    ensures v.JArr? || v.JObj? ==> r.JStr?
  {
    match v
    case JArr(_) => JStr(dumps(v))
    case JObj(_) => JStr(dumps(v))
    case JNull => JStr("")
    case _ => v
  }

  /** `base_chroma_metadata` after `for k, v in metadata.items()`. */
  function Flatten(dumps: Json -> String, md: Dict<Json>): (r: Dict<Json>)
    ensures forall e :: e in r ==> IsFlat(e.1)
    decreases |md|
  {
    if md == [] then []
    else
      var n := |md| - 1;
      var prev := Flatten(dumps, md[..n]);
      SetEntries(prev, md[n].0, FlatValue(dumps, md[n].1));
      Set(prev, md[n].0, FlatValue(dumps, md[n].1))
  }

  /** A dictionary read after one more entry is appended. */
  lemma GetSnoc<V>(d: Dict<V>, e: (String, V), k: String)
    ensures Get(d + [e], k) == if k in Keys(d) then Get(d, k) else if e.0 == k then Some(e.1) else None
  {
    if d != [] {
      assert (d + [e])[1..] == d[1..] + [e];
      GetSnoc(d[1..], e, k);
    }
  }

  /** Distinct keys stay distinct without the last entry, whose key is not among the others. */
  lemma DistinctKeysInit<V>(init: Dict<V>, e: (String, V))
    requires DistinctKeys(init + [e])
    ensures DistinctKeys(init) && e.0 !in Keys(init)
  {
    var d := init + [e];
    KeysSnoc(init, e);
    forall i, j | 0 <= i < j < |Keys(init)| ensures Keys(init)[i] != Keys(init)[j] {
      assert Keys(init)[i] == Keys(d)[i] && Keys(init)[j] == Keys(d)[j];
    }
    forall i | 0 <= i < |Keys(init)| ensures Keys(init)[i] != e.0 {
      assert Keys(init)[i] == Keys(d)[i] && e.0 == Keys(d)[|init|];
    }
  }

  lemma KeysSnoc<V>(d: Dict<V>, e: (String, V))
    ensures Keys(d + [e]) == Keys(d) + [e.0]
  {
  }

  /**
   * Flattening keeps the keys and their order, and every value is the flattened value of the
   * same key (the keys of a decoded JSON object are distinct).
   */
  lemma {:induction false} FlattenSpec(dumps: Json -> String, md: Dict<Json>, k: String)
    requires DistinctKeys(md)
    ensures Keys(Flatten(dumps, md)) == Keys(md)
    ensures Get(Flatten(dumps, md), k) == if Get(md, k).Some? then Some(FlatValue(dumps, Get(md, k).value)) else None
    decreases |md|
  {
    if md != [] {
      var n := |md| - 1;
      var init := md[..n];
      assert md == init + [md[n]];
      DistinctKeysInit(init, md[n]);
      FlattenSpec(dumps, init, k);
      var prev := Flatten(dumps, init);
      var v := FlatValue(dumps, md[n].1);
      assert Flatten(dumps, md) == Set(prev, md[n].0, v);
      assert Keys(Flatten(dumps, md)) == Keys(md) by {
        SetKeys(prev, md[n].0, v);
        KeysSnoc(prev, (md[n].0, v));
        KeysSnoc(init, md[n]);
      }
      GetSnoc(init, md[n], k);
      if k != md[n].0 {
        SetGetOther(prev, md[n].0, v, k);
      }
    }
  }

  /** The flattening loop, one metadata entry at a time. */
  method FlattenMetadata(dumps: Json -> String, md: Dict<Json>) returns (base: Dict<Json>)
    ensures base == Flatten(dumps, md)
  {
    base := [];
    for i := 0 to |md|
      invariant base == Flatten(dumps, md[..i])
    {
      assert md[..i + 1][..i] == md[..i];
      base := Set(base, md[i].0, FlatValue(dumps, md[i].1));
    }
    assert md[..|md|] == md;
  }

  /**
   * The shared metadata as the loader writes it: the flattened metadata, then
   * `source_doc_filename` set to `metadata.get('source_document', file_path.name)` without
   * flattening.
   */
  function BaseMetadataAsWritten(dumps: Json -> String, md: Dict<Json>, name: String): Dict<Json> {
    Set(Flatten(dumps, md), "source_doc_filename", Get(md, "source_document").GetOr(JStr(name)))
  }

  /** A file whose metadata has `"source_document": null` stores `None`, which Chroma refuses. */
  lemma SourceDocumentNullStored(dumps: Json -> String, name: String)
    ensures var written := BaseMetadataAsWritten(dumps, [("source_document", JNull)], name);
            Get(written, "source_doc_filename") == Some(JNull) && exists e :: e in written && !IsFlat(e.1)
  {
    var written := BaseMetadataAsWritten(dumps, [("source_document", JNull)], name);
    assert Get(written, "source_doc_filename") == Some(JNull);
    assert ("source_doc_filename", JNull) in written;
  }

  /**
   * The shared metadata with `source_doc_filename` flattened like every other value: the
   * source document's name when it is a string, the file name when it is absent.
   */
  function BaseMetadata(dumps: Json -> String, md: Dict<Json>, name: String): (r: Dict<Json>)
    ensures forall e :: e in r ==> IsFlat(e.1)
    ensures Get(md, "source_document").None? ==> Get(r, "source_doc_filename") == Some(JStr(name))
    ensures forall s :: Get(md, "source_document") == Some(JStr(s)) ==> Get(r, "source_doc_filename") == Some(JStr(s))
  {
    var flat := Flatten(dumps, md);
    var v := FlatValue(dumps, Get(md, "source_document").GetOr(JStr(name)));
    SetEntries(flat, "source_doc_filename", v);
    Set(flat, "source_doc_filename", v)
  }

  /**
   * The loader as written and the corrected one store the same shared metadata exactly when the
   * file's `source_document` is absent or already a flat value.
   */
  lemma BaseMetadataAsWrittenAgrees(dumps: Json -> String, md: Dict<Json>, name: String)
    ensures BaseMetadataAsWritten(dumps, md, name) == BaseMetadata(dumps, md, name) <==>
            Get(md, "source_document").None? || IsFlat(Get(md, "source_document").value)
  {
    var raw := Get(md, "source_document").GetOr(JStr(name));
    if !IsFlat(raw) {
      assert Get(BaseMetadataAsWritten(dumps, md, name), "source_doc_filename") == Some(raw);
      assert Get(BaseMetadata(dumps, md, name), "source_doc_filename") == Some(FlatValue(dumps, raw));
    }
  }

  /** Every other key of the shared metadata holds its flattened metadata value. */
  lemma BaseMetadataOther(dumps: Json -> String, md: Dict<Json>, name: String, k: String)
    requires DistinctKeys(md) && k != "source_doc_filename"
    ensures Get(BaseMetadata(dumps, md, name), k) == if Get(md, k).Some? then Some(FlatValue(dumps, Get(md, k).value)) else None
  {
    FlattenSpec(dumps, md, k);
    SetGetOther(Flatten(dumps, md), "source_doc_filename", FlatValue(dumps, Get(md, "source_document").GetOr(JStr(name))), k);
  }

  // ----- section ids -----

  /** `title.lower().replace(" ", "_").replace("/", "_").replace("-", "_")`. */
  function Underscored(title: String): (r: String)
    ensures |r| == |title| && forall k :: 0 <= k < |title| ==> r[k] == IdChar(title[k])
  {
    ReplaceChar(ReplaceChar(ReplaceChar(Lower(title), ' ', '_'), '/', '_'), '-', '_')
  }

  predicate IsSeparator(c: char) { c == ' ' || c == '/' || c == '-' }

  /** What one title character becomes before the filter. */
  function IdChar(c: char): char { if IsSeparator(c) then '_' else LowerChar(c) }

  /** The title characters that survive into the id: alphanumerics, '_' and the separators. */
  predicate KeptInId(c: char) { IsAlnum(c) || c == '_' || IsSeparator(c) }

  /** `"".join(c for c in ... if c.isalnum() or c == "_")` over the underscored title. */
  function SectionIdSafe(title: String): (r: String)
    ensures |r| <= |title|
    ensures forall k :: 0 <= k < |r| ==> IsWordChar(r[k]) && !IsUpperLetter(r[k])
  {
    UnderscoredNoUpper(title);
    Filter(Underscored(title), IsWordChar)
  }

  lemma UnderscoredNoUpper(title: String)
    ensures forall c :: c in Underscored(title) ==> !IsUpperLetter(c)
  {
    var u := Underscored(title);
    forall c | c in u ensures !IsUpperLetter(c) {
      var k :| 0 <= k < |u| && u[k] == c;
      assert c == IdChar(title[k]);
    }
  }

  /** A character of an id is kept and left as it is. */
  lemma IdCharFixed(c: char)
    requires IsWordChar(c) && !IsUpperLetter(c)
    ensures KeptInId(c) && IdChar(c) == c
  {
  }

  /** Filtering a mapped sequence is mapping the filtered one. */
  lemma {:induction false} FilterMapSeq<A, B>(s: seq<A>, f: A -> B, p: B -> bool, q: A -> bool)
    requires forall x :: q(x) == p(f(x))
    ensures Filter(MapSeq(s, f), p) == MapSeq(Filter(s, q), f)
    decreases |s|
  {
    if s != [] {
      var rest := Filter(s[1..], q);
      var head := if q(s[0]) then [s[0]] else [];
      FilterMapHead(s, f, p);
      FilterMapSeq(s[1..], f, p, q);
      assert MapSeq(head, f) == if p(f(s[0])) then [f(s[0])] else [];
      assert Filter(s, q) == head + rest;
      MapSeqAppend(head, rest, f);
    }
  }

  lemma FilterMapHead<A, B>(s: seq<A>, f: A -> B, p: B -> bool)
    requires s != []
    ensures Filter(MapSeq(s, f), p) == (if p(f(s[0])) then [f(s[0])] else []) + Filter(MapSeq(s[1..], f), p)
  {
    var m := MapSeq(s, f);
    assert m[0] == f(s[0]) && m[1..] == MapSeq(s[1..], f);
  }

  /**
   * The section id is the title with every character outside alphanumerics, '_', ' ', '/'
   * and '-' dropped, the three separators turned into '_' and the letters lower-cased.
   */
  lemma SectionIdSpec(title: String)
    ensures SectionIdSafe(title) == MapSeq(Filter(title, KeptInId), IdChar)
  {
    assert Underscored(title) == MapSeq(title, IdChar);
    forall c ensures KeptInId(c) == IsWordChar(IdChar(c)) {
      if !IsSeparator(c) && IsUpperLetter(c) {
        assert IsLowerLetter(LowerChar(c));
      }
    }
    FilterMapSeq(title, IdChar, IsWordChar, KeptInId);
  }

  /** Sanitising an id again changes nothing. */
  lemma SectionIdIdempotent(title: String)
    ensures SectionIdSafe(SectionIdSafe(title)) == SectionIdSafe(title)
  {
    var id := SectionIdSafe(title);
    SectionIdSpec(id);
    forall k | 0 <= k < |id| ensures KeptInId(id[k]) && IdChar(id[k]) == id[k] {
      IdCharFixed(id[k]);
    }
    FilterAll(id, KeptInId);
    assert MapSeq(id, IdChar) == id;
  }

  lemma {:induction false} FilterAll<T>(s: seq<T>, p: T -> bool)
    requires forall k :: 0 <= k < |s| ==> p(s[k])
    ensures Filter(s, p) == s
    decreases |s|
  {
    if s != [] {
      FilterAll(s[1..], p);
    }
  }

  // ----- one document per section -----

  /** A `*.json` file of the data directory: its stem, its name and its decoded value (`None` when it is not valid JSON). */
  datatype CourseFile = CourseFile(stem: String, name: String, data: Option<Json>)

  /** A prepared document: id, embedded text, Chroma metadata, the file's own metadata, its source document and section title. */
  datatype Prepared = Prepared(id: String, content: String, metadata: Dict<Json>, original: Dict<Json>,
                               source: Json, sectionTitle: String)

  /** What a file contributes to every one of its sections. */
  datatype Course = Course(code: String, title: String, base: Dict<Json>, original: Dict<Json>, source: Json)

  /** What the section loop does with a section's content. */
  datatype Step = Skip | Emit | Abort

  /**
   * Falsy content and strings that strip to nothing (the blank ones) are skipped; `.strip()` on any other value
   * raises, which ends the file (the documents of its earlier sections are kept).
   */
  function SectionStep(content: Json): Step {
    if !content.IsTruthy() then Skip
    else if content.JStr? then (if IsBlank(content.s) then Skip else Emit)
    else Abort
  }

  /** A section yields a document iff its content is a string that is not blank. */
  lemma SectionStepSpec(content: Json)
    ensures SectionStep(content) == Emit <==> content.JStr? && !IsBlank(content.s)
    ensures SectionStep(content) == Abort <==> content.IsTruthy() && !content.JStr?
    ensures content.JStr? ==> (SectionStep(content) == Skip <==> Strip(content.s) == [])
  {
  }

  predicate Emitted(section: (String, Json)) { SectionStep(section.1) == Emit }

  /** The embedded text: a two-line course and section header, a blank line, then the section. */
  function SectionText(c: Course, title: String, text: String): String {
    "Course: " + c.code + " - " + c.title + "\nSection: " + title + "\n\n" + text
  }

  /** The section text starts with the course header and ends with the section content. */
  lemma SectionTextParts(c: Course, title: String, text: String)
    ensures var head := "Course: " + c.code + " - " + c.title + "\nSection: " + title + "\n\n";
            SectionText(c, title, text) == head + text
  {
  }

  /** `base_chroma_metadata.copy()` with the section title and document type set. */
  function SectionMetadata(base: Dict<Json>, title: String): (r: Dict<Json>)
    ensures Get(r, "section_title") == Some(JStr(title))
    ensures Get(r, "document_type") == Some(JStr("course_section"))
    ensures forall e :: e in r ==> e in base || e == ("section_title", JStr(title)) || e == ("document_type", JStr("course_section"))
  {
    var inner := Set(base, "section_title", JStr(title));
    SetGetOther(inner, "document_type", JStr("course_section"), "section_title");
    SetEntries(base, "section_title", JStr(title));
    SetEntries(inner, "document_type", JStr("course_section"));
    Set(inner, "document_type", JStr("course_section"))
  }

  /** The document of a section whose content is the string `text`. */
  function SectionDoc(c: Course, title: String, text: String): Prepared {
    Prepared(c.code + "_" + SectionIdSafe(title), SectionText(c, title, text), SectionMetadata(c.base, title),
             c.original, c.source, title)
  }

  /** The section loop over `sections.items()`, building each document with `mk` from the title and the string content. */
  function EmitSections<D>(sections: Dict<Json>, mk: (String, String) -> D): seq<D>
    decreases |sections|
  {
    if sections == [] then []
    else match SectionStep(sections[0].1)
      case Skip => EmitSections(sections[1..], mk)
      case Abort => []
      case Emit => [mk(sections[0].0, sections[0].1.s)] + EmitSections(sections[1..], mk)
  }

  /** The sections before the first one whose content makes `.strip()` raise. */
  function BeforeAbort(sections: Dict<Json>): Dict<Json>
    decreases |sections|
  {
    if sections == [] || SectionStep(sections[0].1) == Abort then []
    else [sections[0]] + BeforeAbort(sections[1..])
  }

  /** `BeforeAbort` is the longest prefix without a raising section. */
  lemma {:induction false} BeforeAbortSpec(sections: Dict<Json>)
    ensures var r := BeforeAbort(sections);
            |r| <= |sections| && r == sections[..|r|] &&
            (forall k :: 0 <= k < |r| ==> SectionStep(r[k].1) != Abort) &&
            (|r| < |sections| ==> SectionStep(sections[|r|].1) == Abort)
    decreases |sections|
  {
    if sections != [] && SectionStep(sections[0].1) != Abort {
      BeforeAbortSpec(sections[1..]);
    }
  }

  /** A section as `mk` sees it: its title and its content as a string. */
  function Built<D>(mk: (String, String) -> D): ((String, Json)) -> D {
    (e: (String, Json)) => mk(e.0, if e.1.JStr? then e.1.s else [])
  }

  /**
   * The documents of a file's sections are those of its non-empty string sections, in order,
   * up to the first section whose content is neither falsy nor a string.
   */
  lemma {:induction false} EmitSectionsSpec<D>(sections: Dict<Json>, mk: (String, String) -> D)
    ensures EmitSections(sections, mk) == MapSeq(Filter(BeforeAbort(sections), Emitted), Built(mk))
    decreases |sections|
  {
    if sections != [] && SectionStep(sections[0].1) != Abort {
      var x := sections[0];
      EmitSectionsSpec(sections[1..], mk);
      assert BeforeAbort(sections) == [x] + BeforeAbort(sections[1..]);
      MapFilterCons(x, BeforeAbort(sections[1..]), Emitted, Built(mk));
      assert Emitted(x) ==> Built(mk)(x) == mk(x.0, x.1.s);
    }
  }

  /** Every document is built from a section whose content is a string that is not blank. */
  lemma NoDocumentForEmptySection<D>(sections: Dict<Json>, mk: (String, String) -> D, i: nat)
    requires i < |EmitSections(sections, mk)|
    ensures exists j :: 0 <= j < |sections| && sections[j].1.JStr? && !IsBlank(sections[j].1.s) &&
              EmitSections(sections, mk)[i] == mk(sections[j].0, sections[j].1.s)
  {
    EmitSectionsSpec(sections, mk);
    BeforeAbortSpec(sections);
    var j := MapFilterSource(BeforeAbort(sections), Emitted, Built(mk), i);
    assert sections[j] == BeforeAbort(sections)[j];
    SectionStepSpec(sections[j].1);
  }

  /** Every non-blank string section before the first raising one yields a document. */
  lemma {:induction false} EverySectionBeforeAbortEmitted<D>(sections: Dict<Json>, mk: (String, String) -> D, j: nat)
    requires j < |sections| && sections[j].1.JStr? && !IsBlank(sections[j].1.s)
    requires forall k :: 0 <= k < j ==> SectionStep(sections[k].1) != Abort
    ensures mk(sections[j].0, sections[j].1.s) in EmitSections(sections, mk)
    decreases j
  {
    if j > 0 {
      assert SectionStep(sections[0].1) != Abort;
      assert sections[1..][j - 1] == sections[j];
      EverySectionBeforeAbortEmitted(sections[1..], mk, j - 1);
    }
  }

  /** The section loop of `load_and_prepare_course_data`, stopping where `.strip()` raises. */
  method PrepareSections<D>(sections: Dict<Json>, mk: (String, String) -> D) returns (docs: seq<D>)
    ensures docs == EmitSections(sections, mk)
  {
    docs := [];
    var i := 0;
    while i < |sections|
      invariant i <= |sections|
      invariant EmitSections(sections, mk) == docs + EmitSections(sections[i..], mk)
    {
      assert sections[i..][1..] == sections[i + 1..];
      var step := SectionStep(sections[i].1);
      if step == Abort {
        return;
      } else if step == Emit {
        docs := docs + [mk(sections[i].0, sections[i].1.s)];
      }
      i := i + 1;
    }
  }

  function DocMaker(c: Course): (String, String) -> Prepared {
    (title: String, text: String) => SectionDoc(c, title, text)
  }

  /**
   * A section document carries metadata Chroma accepts, its section title and document type,
   * and an id made of the course code and the sanitised section title.
   */
  lemma SectionDocWellFormed(c: Course, title: String, text: String)
    requires forall e :: e in c.base ==> IsFlat(e.1)
    ensures var d := SectionDoc(c, title, text);
            (forall e :: e in d.metadata ==> IsFlat(e.1)) &&
            Get(d.metadata, "section_title") == Some(JStr(d.sectionTitle)) &&
            Get(d.metadata, "document_type") == Some(JStr("course_section")) &&
            d.id == c.code + "_" + SectionIdSafe(d.sectionTitle)
  {
  }

  /** What every section of a file shares, from its metadata object `md`. */
  function CourseOf(show: Json -> String, dumps: Json -> String, f: CourseFile, md: Dict<Json>): (c: Course)
    ensures Get(md, "course_code").None? ==> c.code == f.stem
    ensures Get(md, "course_title").None? ==> c.title == "N/A"
    ensures forall e :: e in c.base ==> IsFlat(e.1)
  {
    Course(Shown(show, Get(md, "course_code").GetOr(JStr(f.stem))),
           Shown(show, Get(md, "course_title").GetOr(JStr("N/A"))),
           BaseMetadata(dumps, md, f.name), md,
           Get(md, "source_document").GetOr(JStr(f.name)))
  }

  /**
   * The documents of one file. A file that is not valid JSON, is not an object, or whose
   * `metadata` or `sections` (each `{}` when absent) is not an object yields none: the `.get`
   * or `.items()` on it raises and the file is logged and skipped.
   */
  function FileDocs(show: Json -> String, dumps: Json -> String, f: CourseFile): seq<Prepared> {
    if !(f.data.Some? && f.data.value.JObj?) then []
    else
      var data := f.data.value.fields;
      var md := Get(data, "metadata").GetOr(JObj([]));
      var sections := Get(data, "sections").GetOr(JObj([]));
      if md.JObj? && sections.JObj? then EmitSections(sections.fields, DocMaker(CourseOf(show, dumps, f, md.fields)))
      else []
  }

  /** The body of the loop over `data_path.glob("*.json")`. */
  method PrepareFile(show: Json -> String, dumps: Json -> String, f: CourseFile) returns (docs: seq<Prepared>)
    ensures docs == FileDocs(show, dumps, f)
  {
    docs := [];
    if f.data.None? || !f.data.value.JObj? {
      return;
    }
    var data := f.data.value.fields;
    var md := Get(data, "metadata").GetOr(JObj([]));
    if !md.JObj? {
      return;
    }
    var base := FlattenMetadata(dumps, md.fields);
    var c := Course(Shown(show, Get(md.fields, "course_code").GetOr(JStr(f.stem))),
                    Shown(show, Get(md.fields, "course_title").GetOr(JStr("N/A"))),
                    Set(base, "source_doc_filename", FlatValue(dumps, Get(md.fields, "source_document").GetOr(JStr(f.name)))),
                    md.fields, Get(md.fields, "source_document").GetOr(JStr(f.name)));
    var sections := Get(data, "sections").GetOr(JObj([]));
    if !sections.JObj? {
      return;
    }
    docs := PrepareSections(sections.fields, DocMaker(c));
  }

  /** The documents of the files in turn. */
  function AllDocs(show: Json -> String, dumps: Json -> String, files: seq<CourseFile>): seq<Prepared>
    decreases |files|
  {
    if files == [] then [] else AllDocs(show, dumps, files[..|files| - 1]) + FileDocs(show, dumps, files[|files| - 1])
  }

  /**
   * Every prepared document carries metadata Chroma accepts, its section title and its
   * document type, and an id made of the course code and the sanitised section title.
   */
  lemma {:induction false} AllDocsWellFormed(show: Json -> String, dumps: Json -> String, files: seq<CourseFile>, d: Prepared)
    requires d in AllDocs(show, dumps, files)
    ensures forall e :: e in d.metadata ==> IsFlat(e.1)
    ensures Get(d.metadata, "section_title") == Some(JStr(d.sectionTitle))
    ensures Get(d.metadata, "document_type") == Some(JStr("course_section"))
    ensures exists code :: d.id == code + "_" + SectionIdSafe(d.sectionTitle)
    decreases |files|
  {
    var n := |files| - 1;
    if d in AllDocs(show, dumps, files[..n]) {
      AllDocsWellFormed(show, dumps, files[..n], d);
    } else {
      var f := files[n];
      var data := f.data.value.fields;
      var md := Get(data, "metadata").GetOr(JObj([])).fields;
      var c := CourseOf(show, dumps, f, md);
      var sections := Get(data, "sections").GetOr(JObj([])).fields;
      var i :| 0 <= i < |EmitSections(sections, DocMaker(c))| && EmitSections(sections, DocMaker(c))[i] == d;
      NoDocumentForEmptySection(sections, DocMaker(c), i);
      var j :| 0 <= j < |sections| && sections[j].1.JStr? && d == DocMaker(c)(sections[j].0, sections[j].1.s);
      SectionDocWellFormed(c, sections[j].0, sections[j].1.s);
    }
  }

  /** The loop over the files, each file's documents appended in turn. */
  method PrepareAll(show: Json -> String, dumps: Json -> String, files: seq<CourseFile>) returns (docs: seq<Prepared>)
    ensures docs == AllDocs(show, dumps, files)
  {
    docs := [];
    for i := 0 to |files|
      invariant docs == AllDocs(show, dumps, files[..i])
    {
      assert files[..i + 1][..i] == files[..i];
      var more := PrepareFile(show, dumps, files[i]);
      docs := docs + more;
    }
    assert files[..|files|] == files;
  }

  // ----- duplicate course titles -----

  /** The error Python raises when a list or dict is used as a dictionary key or set member. */
  const Unhashable: String := "unhashable type"

  /** `', '.join(codes)` over a code that is not a string. */
  const NotAString: String := "sequence item: expected str instance"

  /** Values Python can hash: anything but a list or a dict. */
  predicate Hashable(v: Json) { !v.JArr? && !v.JObj? }

  /** `doc['original_metadata'].get('course_title', 'Unknown')`. */
  function TitleOf(d: Prepared): Json { Get(d.original, "course_title").GetOr(JStr("Unknown")) }

  /** `doc['original_metadata'].get('course_code', 'Unknown')`. */
  function CodeOf(d: Prepared): Json { Get(d.original, "course_code").GetOr(JStr("Unknown")) }

  /** The codes of the items among the first `n` whose title is `t`. */
  function CodesUpTo<T, K>(docs: seq<T>, title: T -> K, code: T -> K, t: K, n: nat): set<K>
    requires n <= |docs|
  {
    set i | 0 <= i < n && title(docs[i]) == t :: code(docs[i])
  }

  function CodesFor<T, K>(docs: seq<T>, title: T -> K, code: T -> K, t: K): set<K> {
    CodesUpTo(docs, title, code, t, |docs|)
  }

  function IsShared<T, K(==)>(docs: seq<T>, title: T -> K, code: T -> K): K -> bool {
    (t: K) => |CodesFor(docs, title, code, t)| > 1
  }

  function WithCodes<T, K(==)>(docs: seq<T>, title: T -> K, code: T -> K): K -> (K, set<K>) {
    (t: K) => (t, CodesFor(docs, title, code, t))
  }

  predicate AllHashable<T, K>(docs: seq<T>, title: T -> K, code: T -> K, hashable: K -> bool, n: nat)
    requires n <= |docs|
  {
    forall k :: 0 <= k < n ==> hashable(title(docs[k])) && hashable(code(docs[k]))
  }

  /**
   * The duplicate-title report: every title, in the order first seen, with the distinct codes
   * of its items, kept when there are at least two. A title or code that cannot be hashed
   * makes the grouping raise.
   */
  function DuplicatesBy<T, K(==,!new)>(docs: seq<T>, title: T -> K, code: T -> K, hashable: K -> bool): Result<seq<(K, set<K>)>> {
    if !AllHashable(docs, title, code, hashable, |docs|) then Err(Unhashable)
    else Ok(MapSeq(Filter(Dedup(MapSeq(docs, title)), IsShared(docs, title, code)), WithCodes(docs, title, code)))
  }

  /** A title is reported, with its codes, iff at least two distinct codes share it. */
  lemma DuplicatesBySpec<T, K(!new)>(docs: seq<T>, title: T -> K, code: T -> K, hashable: K -> bool, t: K, cs: set<K>)
    requires DuplicatesBy(docs, title, code, hashable).Ok?
    ensures (t, cs) in DuplicatesBy(docs, title, code, hashable).value <==>
              (exists i :: 0 <= i < |docs| && title(docs[i]) == t) && cs == CodesFor(docs, title, code, t) && |cs| > 1
  {
    var titles := Dedup(MapSeq(docs, title));
    var shared := IsShared(docs, title, code);
    var r := DuplicatesBy(docs, title, code, hashable).value;
    MapFilterMembers(titles, shared, WithCodes(docs, title, code));
    if (t, cs) in r {
      var j :| 0 <= j < |titles| && shared(titles[j]) && (t, cs) == WithCodes(docs, title, code)(titles[j]);
      assert titles[j] in MapSeq(docs, title);
    }
    if (exists i :: 0 <= i < |docs| && title(docs[i]) == t) && cs == CodesFor(docs, title, code, t) && |cs| > 1 {
      var i :| 0 <= i < |docs| && title(docs[i]) == t;
      assert MapSeq(docs, title)[i] == t;
      assert t in titles;
      var j :| 0 <= j < |titles| && titles[j] == t;
      assert shared(titles[j]);
    }
  }

  /** One more item adds its code to its own title's codes only. */
  lemma CodesUpToStep<T, K>(docs: seq<T>, title: T -> K, code: T -> K, i: nat, t: K)
    requires i < |docs|
    ensures CodesUpTo(docs, title, code, t, i + 1) ==
              CodesUpTo(docs, title, code, t, i) + if title(docs[i]) == t then {code(docs[i])} else {}
  {
  }

  /** The two loops of the duplicate check: group the codes by title, then keep the shared titles. */
  method DuplicateTitlesBy<T, K(==,!new)>(docs: seq<T>, title: T -> K, code: T -> K, hashable: K -> bool)
    returns (r: Result<seq<(K, set<K>)>>)
    ensures r == DuplicatesBy(docs, title, code, hashable)
  {
    var ok, titles, groups := GroupTitles(docs, title, code, hashable);
    if !ok {
      return Err(Unhashable);
    }
    var dups := SharedTitles(docs, title, code, titles, groups);
    return Ok(dups);
  }

  /** The first loop: the titles in the order first seen, each with the set of its codes. */
  method GroupTitles<T, K(==,!new)>(docs: seq<T>, title: T -> K, code: T -> K, hashable: K -> bool)
    returns (ok: bool, titles: seq<K>, groups: map<K, set<K>>)
    ensures ok == AllHashable(docs, title, code, hashable, |docs|)
    ensures ok ==> titles == Dedup(MapSeq(docs, title))
    ensures ok ==> forall t :: t in titles ==> t in groups && groups[t] == CodesFor(docs, title, code, t)
  {
    titles := [];
    groups := map[];
    for i := 0 to |docs|
      invariant AllHashable(docs, title, code, hashable, i)
      invariant Grouped(docs, title, code, i, titles, groups)
    {
      var t := title(docs[i]);
      var c := code(docs[i]);
      if !hashable(t) || !hashable(c) {
        HashableStep(docs, title, code, hashable, i);
        return false, titles, groups;
      }
      HashableStep(docs, title, code, hashable, i);
      GroupedStep(docs, title, code, i, titles, groups);
      if t in groups {
        groups := groups[t := groups[t] + {c}];
      } else {
        titles := titles + [t];
        groups := groups[t := {c}];
      }
    }
    assert MapSeq(docs, title)[..|docs|] == MapSeq(docs, title);
    ok := true;
  }

  lemma HashableStep<T, K>(docs: seq<T>, title: T -> K, code: T -> K, hashable: K -> bool, i: nat)
    requires i < |docs|
    ensures AllHashable(docs, title, code, hashable, i + 1) <==>
              AllHashable(docs, title, code, hashable, i) && hashable(title(docs[i])) && hashable(code(docs[i]))
    ensures !AllHashable(docs, title, code, hashable, i + 1) ==> !AllHashable(docs, title, code, hashable, |docs|)
  {
  }

  /** After `i` items: the titles seen so far in order, and each with the codes seen for it. */
  ghost predicate Grouped<T, K(!new)>(docs: seq<T>, title: T -> K, code: T -> K, i: nat, titles: seq<K>, groups: map<K, set<K>>)
    requires i <= |docs|
  {
    && titles == Dedup(MapSeq(docs, title)[..i])
    && (forall t :: t in groups <==> t in titles)
    && (forall t :: t in groups ==> groups[t] == CodesUpTo(docs, title, code, t, i))
    && (forall t :: t !in groups ==> CodesUpTo(docs, title, code, t, i) == {})
  }

  lemma GroupedStep<T, K(!new)>(docs: seq<T>, title: T -> K, code: T -> K, i: nat, titles: seq<K>, groups: map<K, set<K>>)
    requires i < |docs| && Grouped(docs, title, code, i, titles, groups)
    ensures var t := title(docs[i]);
      var c := code(docs[i]);
      if t in groups then Grouped(docs, title, code, i + 1, titles, groups[t := groups[t] + {c}])
      else Grouped(docs, title, code, i + 1, titles + [t], groups[t := {c}])
  {
    var t := title(docs[i]);
    var c := code(docs[i]);
    DedupPrefixStep(MapSeq(docs, title), i);
    assert MapSeq(docs, title)[..i + 1][..i] == MapSeq(docs, title)[..i];
    forall u ensures CodesUpTo(docs, title, code, u, i + 1) == CodesUpTo(docs, title, code, u, i) + if t == u then {c} else {} {
      CodesUpToStep(docs, title, code, i, u);
    }
  }

  /** The second loop: the titles with at least two codes, each with its codes. */
  method SharedTitles<T, K(==,!new)>(docs: seq<T>, title: T -> K, code: T -> K, titles: seq<K>, groups: map<K, set<K>>)
    returns (dups: seq<(K, set<K>)>)
    requires forall t :: t in titles ==> t in groups && groups[t] == CodesFor(docs, title, code, t)
    ensures dups == MapSeq(Filter(titles, IsShared(docs, title, code)), WithCodes(docs, title, code))
  {
    dups := [];
    for j := 0 to |titles|
      invariant dups == MapSeq(Filter(titles[..j], IsShared(docs, title, code)), WithCodes(docs, title, code))
    {
      MapFilterStep(titles, j, IsShared(docs, title, code), WithCodes(docs, title, code));
      var t := titles[j];
      if |groups[t]| > 1 {
        dups := dups + [(t, groups[t])];
      }
    }
    assert titles[..|titles|] == titles;
  }

  /** The duplicate check of `load_and_prepare_course_data` over the prepared documents. */
  function Duplicates(docs: seq<Prepared>): Result<seq<(Json, set<Json>)>> {
    DuplicatesBy(docs, TitleOf, CodeOf, Hashable)
  }

  /** Every code of a reported title is a string, so that the warning can join them. */
  predicate Joinable(dups: seq<(Json, set<Json>)>) {
    forall i, c :: 0 <= i < |dups| && c in dups[i].1 ==> c.JStr?
  }

  /**
   * What `load_and_prepare_course_data` returns: the documents, unless the duplicate check
   * raised, or the warning's `', '.join(codes)` met a code that is not a string.
   */
  function LoadResult(show: Json -> String, dumps: Json -> String, files: seq<CourseFile>): Result<seq<Prepared>> {
    var docs := AllDocs(show, dumps, files);
    if Duplicates(docs).Err? then Err(Unhashable)
    else if !Joinable(Duplicates(docs).value) then Err(NotAString)
    else Ok(docs)
  }

  /** `load_and_prepare_course_data` over the listed `*.json` files. */
  method LoadAndPrepareCourseData(show: Json -> String, dumps: Json -> String, files: seq<CourseFile>)
    returns (r: Result<seq<Prepared>>)
    ensures r == LoadResult(show, dumps, files)
  {
    var docs := PrepareAll(show, dumps, files);
    var dups := DuplicateTitlesBy(docs, TitleOf, CodeOf, Hashable);
    if dups.Err? {
      return Err(Unhashable);
    }
    var joinable := WarnDuplicates(dups.value);
    if !joinable {
      return Err(NotAString);
    }
    return Ok(docs);
  }

  /** The warning loop over the reported titles: false when some `', '.join(codes)` would raise. */
  method WarnDuplicates(found: seq<(Json, set<Json>)>) returns (ok: bool)
    ensures ok == Joinable(found)
  {
    for j := 0 to |found|
      invariant forall i, c :: 0 <= i < j && c in found[i].1 ==> c.JStr?
    {
      if exists c :: c in found[j].1 && !c.JStr? {
        return false;
      }
    }
    return true;
  }

  // ----- build_store -----

  /** `batch_size` in `build_store`. */
  const BatchSize: nat := 50

  function IdOf(d: Prepared): String { d.id }
  function ContentOf(d: Prepared): String { d.content }
  function MetadataOf(d: Prepared): Dict<Json> { d.metadata }

  /** What `collection.get(ids=wanted)` reports: the wanted ids the collection already holds. */
  function Existing(stored: seq<String>, wanted: seq<String>): set<String> {
    set x | x in stored && x in wanted
  }

  function IsNew(existing: set<String>): Prepared -> bool {
    (d: Prepared) => d.id !in existing
  }

  /**
   * The documents `build_store` embeds: all of them into an empty collection or when the
   * lookup of existing ids raises, otherwise those whose id the collection does not hold.
   */
  function ToEmbed(stored: seq<String>, docs: seq<Prepared>, lookupFails: bool): seq<Prepared> {
    if |stored| > 0 && !lookupFails then Filter(docs, IsNew(Existing(stored, MapSeq(docs, IdOf))))
    else docs
  }

  /**
   * Into an empty collection, or when the lookup raised, every document is embedded;
   * otherwise a document is embedded iff its id is not in the collection. The embedded
   * documents keep their order.
   */
  lemma ToEmbedSpec(stored: seq<String>, docs: seq<Prepared>, lookupFails: bool, i: nat)
    requires i < |docs|
    ensures |stored| == 0 || lookupFails ==> ToEmbed(stored, docs, lookupFails) == docs
    ensures |stored| > 0 && !lookupFails ==> (docs[i] in ToEmbed(stored, docs, lookupFails) <==> docs[i].id !in stored)
    ensures SubsequenceOf(ToEmbed(stored, docs, lookupFails), docs)
  {
    var existing := Existing(stored, MapSeq(docs, IdOf));
    if |stored| > 0 && !lookupFails {
      FilterSubsequence(docs, IsNew(existing));
      assert MapSeq(docs, IdOf)[i] == docs[i].id;
      if docs[i] in ToEmbed(stored, docs, lookupFails) {
        assert IsNew(existing)(docs[i]);
      }
    } else {
      SubsequenceOfSelf(docs);
    }
  }

  lemma {:induction false} SubsequenceOfSelf<T>(s: seq<T>)
    ensures SubsequenceOf(s, s)
    decreases |s|
  {
    FilterAll(s, (x: T) => true);
    FilterSubsequence(s, (x: T) => true);
  }

  /** The number of batches the log announces: the floor division of `total + 49` by 50. */
  lemma {:induction false} BatchesCount(n: nat, i: nat)
    requires i <= n
    ensures |Batches(n, BatchSize, i)| == (n - i + BatchSize - 1) / BatchSize
    decreases n - i
  {
    if i < n && i + BatchSize < n {
      BatchesCount(n, i + BatchSize);
    }
  }

  /** The Chroma collection as `build_store` sees it: aligned lists of ids, documents and metadatas. */
  class LegacyVectorStore {
    var ids: seq<String>
    var documents: seq<String>
    var metadatas: seq<Dict<Json>>

    predicate Valid()
      reads this
    {
      |ids| == |documents| == |metadatas|
    }

    /** An empty collection. */
    constructor ()
      ensures Valid() && ids == [] && documents == [] && metadatas == []
    {
      ids := [];
      documents := [];
      metadatas := [];
    }

    /** `collection.count()`. */
    function Count(): (n: nat)
      reads this
      requires Valid()
      ensures n == |ids| == |metadatas|
    {
      |ids|
    }

    /** `collection.add(...)`: the batch is appended. */
    method Add(batchIds: seq<String>, batchDocs: seq<String>, batchMetadatas: seq<Dict<Json>>)
      requires Valid() && |batchIds| == |batchDocs| == |batchMetadatas|
      modifies this
      ensures Valid()
      ensures ids == old(ids) + batchIds && documents == old(documents) + batchDocs
      ensures metadatas == old(metadatas) + batchMetadatas
    {
      ids := ids + batchIds;
      documents := documents + batchDocs;
      metadatas := metadatas + batchMetadatas;
    }

    /** `set(collection.get(ids=wanted)['ids'])`. */
    method ExistingIds(wanted: seq<String>) returns (found: set<String>)
      ensures found == Existing(ids, wanted)
    {
      found := set x | x in ids && x in wanted;
    }

    /** The batch loop: `[i, min(i + 50, n))` for `i` in `range(0, n, 50)`, each added in turn. */
    method AddInBatches(newIds: seq<String>, newDocs: seq<String>, newMetadatas: seq<Dict<Json>>)
      returns (added: seq<(nat, nat)>)
      requires Valid() && |newIds| == |newDocs| == |newMetadatas|
      modifies this
      ensures Valid()
      ensures ids == old(ids) + newIds && documents == old(documents) + newDocs
      ensures metadatas == old(metadatas) + newMetadatas
      ensures added == Batches(|newIds|, BatchSize, 0)
    {
      var n := |newIds|;
      var i := 0;
      added := [];
      while i < n
        invariant i <= n && Valid()
        invariant added + Batches(n, BatchSize, i) == Batches(n, BatchSize, 0)
        invariant ids == old(ids) + newIds[..i] && documents == old(documents) + newDocs[..i]
        invariant metadatas == old(metadatas) + newMetadatas[..i]
        decreases n - i
      {
        var end: nat := if i + BatchSize < n then i + BatchSize else n;
        PrefixSplit(newIds, i, end);
        PrefixSplit(newDocs, i, end);
        PrefixSplit(newMetadatas, i, end);
        Add(newIds[i..end], newDocs[i..end], newMetadatas[i..end]);
        BatchesDone(added, n, BatchSize, i);
        added := added + [(i, end)];
        i := end;
      }
      assert newIds[..n] == newIds && newDocs[..n] == newDocs && newMetadatas[..n] == newMetadatas;
    }

    /**
     * `build_store`: the documents whose ids the collection does not hold yet are added in
     * batches of 50; the returned batches are the index ranges added.
     */
    method BuildStore(prepared: seq<Prepared>, lookupFails: bool) returns (added: seq<(nat, nat)>)
      requires Valid()
      modifies this
      ensures Valid()
      ensures var kept := ToEmbed(old(ids), prepared, lookupFails);
              ids == old(ids) + MapSeq(kept, IdOf) && documents == old(documents) + MapSeq(kept, ContentOf) &&
              metadatas == old(metadatas) + MapSeq(kept, MetadataOf) &&
              added == Batches(|kept|, BatchSize, 0)
    {
      if prepared == [] {
        return [];
      }
      var docIds := MapSeq(prepared, IdOf);
      var docContents := MapSeq(prepared, ContentOf);
      var docMetadatas := MapSeq(prepared, MetadataOf);
      if |ids| > 0 && !lookupFails {
        var existing := ExistingIds(docIds);
        docIds, docContents, docMetadatas := SkipExisting(prepared, existing);
      }
      if docIds == [] {
        return [];
      }
      added := AddInBatches(docIds, docContents, docMetadatas);
    }
  }

  /** The loop that keeps the documents whose id was not found, with their contents and metadatas aligned. */
  method SkipExisting(prepared: seq<Prepared>, existing: set<String>)
    returns (newIds: seq<String>, newContents: seq<String>, newMetadatas: seq<Dict<Json>>)
    ensures var kept := Filter(prepared, IsNew(existing));
            newIds == MapSeq(kept, IdOf) && newContents == MapSeq(kept, ContentOf) &&
            newMetadatas == MapSeq(kept, MetadataOf)
  {
    newIds, newContents, newMetadatas := [], [], [];
    for i := 0 to |prepared|
      invariant var kept := Filter(prepared[..i], IsNew(existing));
                newIds == MapSeq(kept, IdOf) && newContents == MapSeq(kept, ContentOf) &&
                newMetadatas == MapSeq(kept, MetadataOf)
    {
      MapFilterStep(prepared, i, IsNew(existing), IdOf);
      MapFilterStep(prepared, i, IsNew(existing), ContentOf);
      MapFilterStep(prepared, i, IsNew(existing), MetadataOf);
      if prepared[i].id !in existing {
        newIds := newIds + [prepared[i].id];
        newContents := newContents + [prepared[i].content];
        newMetadatas := newMetadatas + [prepared[i].metadata];
      }
    }
    assert prepared[..|prepared|] == prepared;
  }

  // ----- format_chat_history -----

  /** `"User" if entry.get("role") == "user" else "Assistant"`. */
  function Role(entry: Dict<Json>): String {
    if Get(entry, "role") == Some(JStr("user")) then "User" else "Assistant"
  }

  /** `entry.get("text", "[non-text content]")` as the f-string writes it. */
  function TurnText(show: Json -> String, entry: Dict<Json>): String {
    match Get(entry, "text")
    case None => "[non-text content]"
    case Some(v) => Shown(show, v)
  }

  /** One line of the formatted history: `f"{role}: {text}"`. */
  function TurnLine(show: Json -> String): Dict<Json> -> String {
    (entry: Dict<Json>) => Role(entry) + ": " + TurnText(show, entry)
  }

  /** What `format_chat_history` returns. */
  function ChatHistoryText(show: Json -> String, history: seq<Dict<Json>>): String {
    if history == [] then "No previous conversation." else Join(MapSeq(history, TurnLine(show)), "\n")
  }

  /** `format_chat_history`: one line per entry, joined by newlines. */
  method FormatChatHistory(show: Json -> String, history: seq<Dict<Json>>) returns (r: String)
    ensures r == ChatHistoryText(show, history)
  {
    if history == [] {
      return "No previous conversation.";
    }
    var lines: seq<String> := [];
    for i := 0 to |history|
      invariant lines == MapSeq(history[..i], TurnLine(show))
    {
      MapSeqStep(history, i, TurnLine(show));
      lines := lines + [Role(history[i]) + ": " + TurnText(show, history[i])];
    }
    assert history[..|history|] == history;
    r := Join(lines, "\n");
  }

  /** Joined parts that do not contain the separator split back into the same parts. */
  lemma {:induction false} SplitOnJoin(parts: seq<String>, sep: char)
    requires parts != [] && forall p :: p in parts ==> sep !in p
    ensures SplitOn(Join(parts, [sep]), sep) == parts
    decreases |parts|
  {
    var p := parts[0];
    assert p in parts;
    if |parts| == 1 {
      SplitOnWhole(p, sep);
    } else {
      var rest := parts[1..];
      assert parts == [p] + rest;
      assert forall q :: q in rest ==> q in parts;
      JoinCons(p, rest, [sep]);
      SplitOnCons(p, Join(rest, [sep]), sep);
      SplitOnJoin(rest, sep);
    }
  }

  /**
   * When no entry's text holds a newline, the formatted history splits at newlines into one
   * line per entry, in order: "User: " for the user's turns, "Assistant: " for all others.
   */
  lemma ChatHistoryLines(show: Json -> String, history: seq<Dict<Json>>)
    requires history != [] && forall e :: e in history ==> '\n' !in TurnText(show, e)
    ensures SplitOn(ChatHistoryText(show, history), '\n') == MapSeq(history, TurnLine(show))
  {
    var lines := MapSeq(history, TurnLine(show));
    forall l | l in lines ensures '\n' !in l {
      var k :| 0 <= k < |lines| && lines[k] == l;
      TurnLineSingle(show, history[k]);
    }
    SplitOnJoin(lines, '\n');
  }

  lemma TurnLineSingle(show: Json -> String, e: Dict<Json>)
    requires '\n' !in TurnText(show, e)
    ensures '\n' !in TurnLine(show)(e)
  {
    var head := Role(e) + ": ";
    assert '\n' !in head;
    NotInConcat(head, TurnText(show, e), '\n');
  }

  lemma NotInConcat(a: String, b: String, x: char)
    requires x !in a && x !in b
    ensures x !in a + b
  {
  }

  /** A joined sequence starts with its first part. */
  lemma {:induction false} JoinStartsWith(parts: seq<String>, sep: String)
    requires parts != []
    ensures |parts[0]| <= |Join(parts, sep)| && Join(parts, sep)[..|parts[0]|] == parts[0]
    decreases |parts|
  {
    if |parts| > 1 {
      var init := parts[..|parts| - 1];
      JoinStartsWith(init, sep);
      assert init[0] == parts[0];
    }
  }

  /** The placeholder text appears exactly when there is no history. */
  lemma ChatHistoryEmpty(show: Json -> String, history: seq<Dict<Json>>)
    ensures ChatHistoryText(show, history) == "No previous conversation." <==> history == []
  {
    if history != [] {
      var lines := MapSeq(history, TurnLine(show));
      JoinStartsWith(lines, "\n");
      var first := lines[0];
      assert first == Role(history[0]) + ": " + TurnText(show, history[0]);
      assert first[0] == 'U' || first[0] == 'A';
    }
  }

  // ----- course-code ranking in run_chatbot -----

  /** A search result: its id, its text and the metadata it was stored with. */
  datatype Found = Found(id: String, content: String, metadata: Dict<Json>)

  /** `\b([A-Z]{2,3}\d{3,4})\b`, searched in the upper-cased query. */
  const LegacyCodeShape := CodeShape(2, 3, 3, 4, false, true)

  function LegacyCodeAt(s: String, i: nat): (r: Option<Hit>)
    ensures r.Some? ==> i <= r.value.end <= |s| && r.value.group == s[i..(r.value.end)]
  {
    CodeAt(LegacyCodeShape, s, i)
  }

  /** The course code a query names: the leftmost match in the upper-cased query. */
  function QueryCourseCode(query: String): (r: Option<String>)
    ensures r.Some? ==> IsCode(LegacyCodeShape, r.value)
    ensures r.None? ==> forall j :: 0 <= j <= |query| ==> LegacyCodeAt(Upper(query), j).None?
  {
    var u := Upper(query);
    match Search(u, LegacyCodeAt)
    case None => None
    case Some(h) =>
      LegacyCodeIsCode(u);
      Some(h.group)
  }

  lemma LegacyCodeIsCode(u: String)
    requires Search(u, LegacyCodeAt).Some?
    ensures IsCode(LegacyCodeShape, Search(u, LegacyCodeAt).value.group)
  {
    var h := Search(u, LegacyCodeAt).value;
    var j :| 0 <= j <= |u| && LegacyCodeAt(u, j) == Some(h);
    CodeAtIsCode(LegacyCodeShape, u, j);
  }

  /** `doc['metadata'].get('course_code') == course_code`. */
  function OfCourse(code: String): Found -> bool {
    (d: Found) => Get(d.metadata, "course_code") == Some(JStr(code))
  }

  /** `target_course_docs[:5] + other_docs[:3]`. */
  function CourseContext(code: String, results: seq<Found>): seq<Found> {
    Take(Filter(results, OfCourse(code)), 5) + Take(Filter(results, Not(OfCourse(code))), 3)
  }

  /**
   * The context for a course-code query holds at most eight results, all from the search:
   * first up to five of the named course, as many as there are up to five, then up to three
   * of other courses, each group in search order.
   */
  lemma CourseContextSpec(code: String, results: seq<Found>)
    ensures var r := CourseContext(code, results);
            var t := Filter(results, OfCourse(code));
            var m := if |t| < 5 then |t| else 5;
            |r| <= 8 && m <= |r| &&
            (forall k :: 0 <= k < |r| ==> r[k] in results) &&
            (forall k :: 0 <= k < |r| ==> (OfCourse(code)(r[k]) <==> k < m)) &&
            r[..m] == t[..m]
  {
    TakeBothSides(results, OfCourse(code), 5, 3);
  }

  /** The loop that separates the named course's results from the others, keeping search order. */
  method SplitByCourse(code: String, results: seq<Found>) returns (target: seq<Found>, other: seq<Found>)
    ensures target == Filter(results, OfCourse(code)) && other == Filter(results, Not(OfCourse(code)))
  {
    target, other := [], [];
    for i := 0 to |results|
      invariant target == Filter(results[..i], OfCourse(code)) && other == Filter(results[..i], Not(OfCourse(code)))
    {
      FilterPrefixStep(results, i, OfCourse(code));
      FilterPrefixStep(results, i, Not(OfCourse(code)));
      if Get(results[i].metadata, "course_code") == Some(JStr(code)) {
        target := target + [results[i]];
      } else {
        other := other + [results[i]];
      }
    }
    assert results[..|results|] == results;
  }

  /** The ranking step of `run_chatbot` for a query that names a course code. */
  method RankForCourse(code: String, results: seq<Found>) returns (relevant: seq<Found>)
    ensures relevant == CourseContext(code, results)
  {
    var target, other := SplitByCourse(code, results);
    relevant := Take(target, 5) + Take(other, 3);
  }
}
