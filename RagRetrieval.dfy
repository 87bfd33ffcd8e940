/**
 * What the chatbot back end does with documents: the prioritised merge of the documents the
 * vector store returns for one question, the distinct sources reported with an answer, and the
 * documents built from one course or program JSON file. The vector store, the language model
 * and the text formatters are parameters.
 */
module RagRetrieval {
  import opened Wrappers
  import opened Text
  import opened Seqs
  import opened Dicts
  import opened Json
  import opened RagSystem

  // ----- documents as the vector store returns them -----

  /** A retrieved document: its text and its (string-valued) metadata. */
  datatype Doc = Doc(content: String, metadata: map<String, String>)

  /** `doc.metadata.get(k, '')`. */
  function Meta(d: Doc, k: String): (r: String)
    ensures k in d.metadata ==> r == d.metadata[k]
    ensures k !in d.metadata ==> r == ""
  {
    if k in d.metadata then d.metadata[k] else ""
  }

  /** The first hundred characters of a text, `text[:100]`. */
  function Head(content: String): (r: String)
    ensures |r| <= 100 && |r| <= |content| && r == content[..|r|]
    ensures |content| <= 100 ==> r == content
  {
    Take(content, 100)
  }

  /** The identifier a retrieved document is de-duplicated by: text head, course code and section, joined by '_'. */
  function DocKey(d: Doc): String {
    Head(d.content) + "_" + Meta(d, "course_code") + "_" + Meta(d, "section")
  }

  /** Documents that agree on the text head, course code and section have the same identifier. */
  lemma SameKey(d: Doc, e: Doc)
    requires Head(d.content) == Head(e.content)
    requires Meta(d, "course_code") == Meta(e, "course_code") && Meta(d, "section") == Meta(e, "section")
    ensures DocKey(d) == DocKey(e)
  {
  }

  // ----- retrieve_documents -----

  /** A retriever's configuration: MMR or similarity search, `k`, MMR's `fetch_k`, and a metadata filter. */
  datatype Retriever = Retriever(mmr: bool, k: int, fetchK: Option<int>, filter: Option<(String, String)>)

  /** The vector store: a retriever's documents for a query, or the exception its call raised. */
  type Search = (Retriever, String) -> Result<seq<Doc>>

  /** The direct search: 50 similarity matches restricted to the course code. */
  function DirectRetriever(code: String): Retriever {
    Retriever(false, 50, None, Some(("course_code", code)))
  }

  function Max(a: int, b: int): int { if a >= b then a else b }

  /** The semantic searches: `max(30, 2k)` matches, `fetch_k` three times that for MMR, restricted to the content type unless it is "both". */
  function SemanticRetriever(mmr: bool, contentType: String, k: int): (r: Retriever)
    ensures r.k >= 30 && r.mmr == mmr
    ensures r.fetchK.Some? <==> mmr
    ensures r.filter.None? <==> contentType == "both"
  {
    var searchK := Max(30, 2 * k);
    Retriever(mmr, searchK, if mmr then Some(3 * searchK) else None,
              if contentType != "both" then Some(("doc_type", contentType)) else None)
  }

  /** The keyword search: 20 similarity matches, unrestricted. */
  const TitleRetriever := Retriever(false, 20, None, None)

  /** The documents of a call, none when it raised. */
  function OrNone(r: Result<seq<Doc>>): seq<Doc> {
    if r.Ok? then r.value else []
  }

  /** One retriever's documents for each query in turn, skipping the queries whose call raised. */
  function Gathered(search: Search, r: Retriever, queries: seq<String>): (docs: seq<Doc>)
    ensures forall d :: d in docs ==> exists i :: 0 <= i < |queries| && search(r, queries[i]).Ok? && d in search(r, queries[i]).value
    decreases |queries|
  {
    if queries == [] then []
    else
      var n := |queries| - 1;
      var prev := Gathered(search, r, queries[..n]);
      assert forall i :: 0 <= i < n ==> queries[..n][i] == queries[i];
      prev + OrNone(search(r, queries[n]))
  }

  /** The direct matches: only when the question names a course code, none when the call raised. */
  function DirectDocs(search: Search, question: String): seq<Doc> {
    match CourseCodeIn(question)
    case None => []
    case Some(code) => OrNone(search(DirectRetriever(code), question))
  }

  /** The semantic matches: similarity search over every query, then MMR search over every query. */
  function SemanticDocs(search: Search, contentType: String, k: int, queries: seq<String>): seq<Doc> {
    Gathered(search, SemanticRetriever(false, contentType, k), queries) +
    Gathered(search, SemanticRetriever(true, contentType, k), queries)
  }

  /** The keyword matches: "course title <code>", only when the question names a course code. */
  function KeywordDocs(search: Search, question: String): seq<Doc> {
    match CourseCodeIn(question)
    case None => []
    case Some(code) => OrNone(search(TitleRetriever, "course title " + code))
  }

  /** How many documents are returned: `max(3k, 50)`. */
  function Cap(k: int): (n: nat)
    ensures n >= 50 && n >= 3 * k
  {
    if 3 * k > 50 then 3 * k else 50
  }

  /** The merge: direct, then semantic, then keyword matches, the first document of each identifier, capped. */
  function Merged(direct: seq<Doc>, semantic: seq<Doc>, keyword: seq<Doc>, k: int): seq<Doc> {
    Take(DedupBy(direct + semantic + keyword, DocKey), Cap(k))
  }

  /**
   * `retrieve_documents`: an error when the store is not initialised; otherwise the merge of the
   * direct, semantic and keyword matches, the semantic ones searched with the question's variations.
   */
  function Retrieved(initialized: bool, search: Search, question: String, contentType: String, k: int, llm: Option<String>): (r: Result<seq<Doc>>)
    ensures r.Ok? <==> initialized
  {
    if !initialized then Err("ValueError: vector store not initialized")
    else
      var queries := QueryVariations(SectionKeywords, question, contentType, llm);
      Ok(Merged(DirectDocs(search, question), SemanticDocs(search, contentType, k, queries), KeywordDocs(search, question), k))
  }

  /** At most `max(3k, 50)` documents, no two with the same identifier, each one of the matches. */
  lemma MergedShape(direct: seq<Doc>, semantic: seq<Doc>, keyword: seq<Doc>, k: int)
    ensures var r := Merged(direct, semantic, keyword, k);
            |r| <= Cap(k) &&
            (forall i, j :: 0 <= i < j < |r| ==> DocKey(r[i]) != DocKey(r[j])) &&
            (forall d :: d in r ==> d in direct || d in semantic || d in keyword)
  {
    var all := direct + semantic + keyword;
    DedupByDistinct(all, DocKey);
    DedupByMembers(all, DocKey);
  }

  /** The direct matches come first: the merge starts with the direct matches' own first-of-identifier documents. */
  lemma MergedDirectFirst(direct: seq<Doc>, semantic: seq<Doc>, keyword: seq<Doc>, k: int)
    ensures var r := Merged(direct, semantic, keyword, k);
            var p := DedupBy(direct, DocKey);
            var n := if |p| <= |r| then |p| else |r|;
            r[..n] == p[..n]
  {
    var all := direct + semantic + keyword;
    assert all[..|direct|] == direct;
    DedupByPrefix(all, |direct|, DocKey);
  }

  /** Below the cap nothing is lost: every identifier among the matches is returned. */
  lemma MergedCovers(direct: seq<Doc>, semantic: seq<Doc>, keyword: seq<Doc>, k: int, i: nat)
    requires i < |direct + semantic + keyword|
    requires |DedupBy(direct + semantic + keyword, DocKey)| <= Cap(k)
    ensures exists e :: e in Merged(direct, semantic, keyword, k) && DocKey(e) == DocKey((direct + semantic + keyword)[i])
  {
    DedupTakeCovers(direct + semantic + keyword, i, DocKey, Cap(k));
  }

  /** The semantic searches run over every query, in order, with both search types. */
  method SemanticSearch(search: Search, contentType: String, k: int, queries: seq<String>) returns (docs: seq<Doc>)
    ensures docs == SemanticDocs(search, contentType, k, queries)
  {
    docs := [];
    var similarity := GatherAll(search, SemanticRetriever(false, contentType, k), queries);
    var mmr := GatherAll(search, SemanticRetriever(true, contentType, k), queries);
    docs := similarity + mmr;
  }

  /** The inner loop: one retriever, every query, failures skipped. */
  method GatherAll(search: Search, r: Retriever, queries: seq<String>) returns (docs: seq<Doc>)
    ensures docs == Gathered(search, r, queries)
  {
    docs := [];
    for i := 0 to |queries|
      invariant docs == Gathered(search, r, queries[..i])
    {
      assert queries[..i + 1][..i] == queries[..i];
      var result := search(r, queries[i]);
      if result.Ok? {
        docs := docs + result.value;
      }
    }
    assert queries[..|queries|] == queries;
  }

  /** The de-duplicating loop of `retrieve_documents`, with its `seen` set of identifiers. */
  method FirstOfEachKey(all: seq<Doc>, key: Doc -> String) returns (unique: seq<Doc>)
    ensures unique == DedupBy(all, key)
  {
    var seen: set<String> := {};
    unique := [];
    for i := 0 to |all|
      invariant unique == DedupBy(all[..i], key) && seen == KeySet(unique, key)
    {
      DedupByPrefixStep(all, i, key);
      if key(all[i]) !in seen {
        seen := seen + {key(all[i])};
        unique := unique + [all[i]];
      }
    }
    assert all[..|all|] == all;
  }

  /** `retrieve_documents`, step by step. */
  method RetrieveDocuments(initialized: bool, search: Search, question: String, contentType: String, k: int, llm: Option<String>)
      returns (r: Result<seq<Doc>>)
    ensures r == Retrieved(initialized, search, question, contentType, k, llm)
  {
    if !initialized {
      return Err("ValueError: vector store not initialized");
    }
    var code := CourseCodeIn(question);
    var queries := GenerateQueryVariations(question, contentType, llm);
    var direct: seq<Doc> := [];
    if code.Some? {
      var found := search(DirectRetriever(code.value), question);
      if found.Ok? {
        direct := found.value;
      }
    }
    var semantic := SemanticSearch(search, contentType, k, queries);
    var keyword: seq<Doc> := [];
    if code.Some? {
      var found := search(TitleRetriever, "course title " + code.value);
      if found.Ok? {
        keyword := found.value;
      }
    }
    var unique := FirstOfEachKey(direct + semantic + keyword, DocKey);
    r := Ok(Take(unique, Cap(k)));
  }

  // ----- query -----

  /** What `query` reports about one document. */
  datatype SourceInfo = SourceInfo(courseCode: String, courseTitle: String, section: String, docType: String)

  function SourceOf(d: Doc): SourceInfo {
    SourceInfo(Meta(d, "course_code"), Meta(d, "course_title"), Meta(d, "section"), Meta(d, "doc_type"))
  }

  /** The most sources reported. */
  const MaxSources: nat := 5

  /** The sources of an answer: the distinct source descriptions of the documents, in order, at most five. */
  function Sources(docs: seq<Doc>): seq<SourceInfo> {
    Take(Dedup(MapSeq(docs, SourceOf)), MaxSources)
  }

  datatype Response = Response(answer: String, contentType: String, sources: seq<SourceInfo>, numDocuments: nat)

  /** The answer given when processing raised. */
  const ErrorAnswer: String := "I apologize, but I encountered an error while processing your question. For more information, please visit the official Gothenburg University website at " + Https + "www.gu.se/en/study-in-gothenburg"

  /**
   * `query`: an error when the store is not initialised; the fixed error response when retrieval
   * or answering raised; otherwise the answer, the routed content type, the sources and the
   * number of documents.
   */
  function QueryResponse(initialized: bool, router: Result<String>, documents: Result<seq<Doc>>, answer: String): (r: Result<Response>)
    ensures r.Ok? <==> initialized
  {
    if !initialized then Err("ValueError: RAG system not initialized")
    else match documents
      case Err(_) => Ok(Response(ErrorAnswer, "error", [], 0))
      case Ok(docs) => Ok(Response(answer, RouteQuery(router), Sources(docs), |docs|))
  }

  /** The loop that collects the distinct source descriptions. */
  method DistinctSources(docs: seq<Doc>) returns (sources: seq<SourceInfo>)
    ensures sources == Dedup(MapSeq(docs, SourceOf))
  {
    sources := [];
    var infos := MapSeq(docs, SourceOf);
    for i := 0 to |docs|
      invariant sources == Dedup(infos[..i])
    {
      DedupPrefixStep(infos, i);
      var info := SourceOf(docs[i]);
      if info !in sources {
        sources := sources + [info];
      }
    }
    assert infos[..|docs|] == infos;
  }

  /** `query`, its retrieval result and the model's answer given. */
  method Query(initialized: bool, router: Result<String>, documents: Result<seq<Doc>>, answer: String) returns (r: Result<Response>)
    ensures r == QueryResponse(initialized, router, documents, answer)
  {
    if !initialized {
      return Err("ValueError: RAG system not initialized");
    }
    if documents.Err? {
      return Ok(Response(ErrorAnswer, "error", [], 0));
    }
    var contentType := RouteQuery(router);
    var sources := DistinctSources(documents.value);
    r := Ok(Response(answer, contentType, Take(sources, MaxSources), |documents.value|));
  }

  /** At most five sources, all different, each describing a retrieved document; and the count is the number of documents. */
  lemma QuerySources(router: Result<String>, docs: seq<Doc>, answer: String)
    ensures var r := QueryResponse(true, router, Ok(docs), answer).value;
            |r.sources| <= MaxSources && Distinct(r.sources) &&
            (forall s :: s in r.sources ==> exists d :: d in docs && SourceOf(d) == s) &&
            r.numDocuments == |docs| && r.answer == answer && r.contentType == RouteQuery(router)
  {
    var infos := MapSeq(docs, SourceOf);
    var u := Dedup(infos);
    forall s | s in Take(u, MaxSources) ensures exists d :: d in docs && SourceOf(d) == s {
      assert s in infos;
      var i :| 0 <= i < |infos| && infos[i] == s;
      assert docs[i] in docs;
    }
  }

  /** Any exception during processing gives the "error" response: no sources and no documents. */
  lemma QueryError(router: Result<String>, message: String, answer: String)
    ensures var r := QueryResponse(true, router, Err(message), answer).value;
            r.contentType == "error" && r.sources == [] && r.numDocuments == 0
  {
  }

  // ----- _load_single_json_file -----

  /** A document as the loader builds it: its text and its metadata, the values taken from the JSON as they are. */
  datatype LoadedDoc = LoadedDoc(content: String, metadata: map<String, Json>)

  /** `d.get(k, default)` on a JSON object. */
  function GetOr(fields: Dict<Json>, k: String, default: Json): Json {
    Get(fields, k).GetOr(default)
  }

  /** All items are strings. */
  predicate AllStrings(items: seq<Json>) {
    forall i :: 0 <= i < |items| ==> items[i].JStr?
  }

  function Texts(items: seq<Json>): (r: seq<String>)
    requires AllStrings(items)
    ensures |r| == |items| && forall i :: 0 <= i < |items| ==> r[i] == items[i].s
  {
    seq(|items|, i requires 0 <= i < |items| => items[i].s)
  }

  /** The "programmes" value: a list joined with ", " (an error if an item is not a string), anything else as it is. */
  function Programmes(metadata: Dict<Json>): (r: Result<Json>)
    ensures var p := GetOr(metadata, "programmes", JStr(""));
            (r.Err? <==> p.JArr? && !AllStrings(p.items)) &&
            (!p.JArr? ==> r == Ok(p))
  {
    var p := GetOr(metadata, "programmes", JStr(""));
    if !p.JArr? then Ok(p)
    else if AllStrings(p.items) then Ok(JStr(Join(Texts(p.items), ", ")))
    else Err("TypeError: sequence item is not a string")
  }

  /** "course" when the category name contains "course", "program" otherwise. */
  function DocType(category: String): (r: String)
    ensures r == "course" <==> Contains(category, "course")
    ensures r == "program" <==> !Contains(category, "course")
  {
    if Contains(category, "course") then "course" else "program"
  }

  /** The metadata every document of a file carries. */
  function BaseMetadata(path: String, category: String, metadata: Dict<Json>, programmes: Json): (r: map<String, Json>)
    ensures "doc_type" in r && r["doc_type"] == JStr(DocType(category))
  {
    map[
      "source" := JStr(path),
      "category" := JStr(category),
      "course_code" := GetOr(metadata, "course_code", JStr("")),
      "course_title" := GetOr(metadata, "course_title", JStr("")),
      "department" := GetOr(metadata, "department", JStr("")),
      "credits" := GetOr(metadata, "credits", JStr("")),
      "language" := GetOr(metadata, "language_of_instruction", JStr("")),
      "cycle" := GetOr(metadata, "cycle", JStr("")),
      "programmes" := programmes,
      "doc_type" := JStr(DocType(category))
    ]
  }

  /** The base metadata with a document's own section fields added; the rest is left as it is. */
  function Tagged(base: map<String, Json>, extra: map<String, Json>): (r: map<String, Json>)
    ensures r.Keys == base.Keys + extra.Keys
    ensures forall k :: k in extra ==> r[k] == extra[k]
    ensures forall k :: k in base && k !in extra ==> r[k] == base[k]
  {
    base + extra
  }

  /** A section is kept when it is truthy and, as text, not blank. */
  predicate KeptSection(content: Json) {
    content.IsTruthy() && (content.JStr? ==> !IsBlank(content.s))
  }

  /** The test on a (name, content) entry. */
  function KeptEntry(e: (String, Json)): bool {
    KeptSection(e.1)
  }

  /** A section's id: its name lower-cased, spaces read as '_'. */
  function SectionId(name: String): String {
    ReplaceChar(Lower(name), ' ', '_')
  }

  /** The text formatters of the loader: the overview of a metadata object, and a section in the context of its metadata. */
  datatype Formatters = Formatters(overview: Dict<Json> -> String, section: (Dict<Json>, String, Json) -> String)

  /** The document of one kept section: its formatted text, tagged with the section id, "content" and the section name. */
  function SectionDocOf(fmt: Formatters, base: map<String, Json>, metadata: Dict<Json>, name: String, content: Json): (d: LoadedDoc)
    ensures d.content == fmt.section(metadata, name, content)
    ensures "section" in d.metadata && d.metadata["section"] == JStr(SectionId(name))
    ensures "section_type" in d.metadata && d.metadata["section_type"] == JStr("content")
    ensures "section_name" in d.metadata && d.metadata["section_name"] == JStr(name)
    ensures forall k :: k in base && k != "section" && k != "section_type" && k != "section_name" ==> k in d.metadata && d.metadata[k] == base[k]
    ensures "doc_type" in base ==> "doc_type" in d.metadata && d.metadata["doc_type"] == base["doc_type"]
  {
    LoadedDoc(fmt.section(metadata, name, content),
              Tagged(base, map["section" := JStr(SectionId(name)), "section_type" := JStr("content"), "section_name" := JStr(name)]))
  }

  function SectionDoc(fmt: Formatters, base: map<String, Json>, metadata: Dict<Json>): ((String, Json)) -> LoadedDoc {
    (e: (String, Json)) => SectionDocOf(fmt, base, metadata, e.0, e.1)
  }

  /** The overview document, when the overview text is not blank. */
  function OverviewDocs(fmt: Formatters, base: map<String, Json>, metadata: Dict<Json>): (r: seq<LoadedDoc>)
    ensures |r| == if IsBlank(fmt.overview(metadata)) then 0 else 1
    ensures |r| == 1 ==> r[0].content == fmt.overview(metadata)
    ensures |r| == 1 && "doc_type" in base ==> "doc_type" in r[0].metadata && r[0].metadata["doc_type"] == base["doc_type"]
  {
    var text := fmt.overview(metadata);
    if IsBlank(text) then []
    else [LoadedDoc(text, Tagged(base, map["section" := JStr("overview"), "section_type" := JStr("metadata")]))]
  }

  /** The file's "metadata", `{}` when absent. */
  function MetadataOf(data: Json): Json
    requires data.JObj?
  {
    GetOr(data.fields, "metadata", JObj([]))
  }

  /** The file's "sections", `{}` when absent. */
  function SectionsOf(data: Json): Json
    requires data.JObj?
  {
    GetOr(data.fields, "sections", JObj([]))
  }

  /** The loaded value has the shape the loader needs. */
  predicate Loadable(data: Json) {
    data.JObj? && MetadataOf(data).JObj? && SectionsOf(data).JObj? && Programmes(MetadataOf(data).fields).Ok?
  }

  /** The documents of a file: the overview document, if any, then one document per kept section, in order. */
  function FileDocs(fmt: Formatters, base: map<String, Json>, metadata: Dict<Json>, sections: Dict<Json>): seq<LoadedDoc> {
    OverviewDocs(fmt, base, metadata) + MapSeq(Filter(sections, KeptEntry), SectionDoc(fmt, base, metadata))
  }

  /**
   * `_load_single_json_file` on the loaded JSON: an error when the file, its "metadata" or its
   * "sections" is not an object, or a programmes list holds a non-string; otherwise the file's
   * documents, all carrying its base metadata.
   */
  function LoadedDocs(fmt: Formatters, path: String, category: String, data: Json): (r: Result<seq<LoadedDoc>>)
    ensures r.Ok? <==> Loadable(data)
  {
    if !Loadable(data) then Err("AttributeError or TypeError")
    else
      var metadata := MetadataOf(data).fields;
      Ok(FileDocs(fmt, BaseMetadata(path, category, metadata, Programmes(metadata).value), metadata, SectionsOf(data).fields))
  }

  /** `_load_single_json_file`: the shape checks, then the documents. */
  method LoadSingleJsonFile(fmt: Formatters, path: String, category: String, data: Json) returns (r: Result<seq<LoadedDoc>>)
    ensures r == LoadedDocs(fmt, path, category, data)
  {
    if !data.JObj? {
      return Err("AttributeError or TypeError");
    }
    var metadata := MetadataOf(data);
    var sections := SectionsOf(data);
    if !metadata.JObj? {
      return Err("AttributeError or TypeError");
    }
    var programmes := Programmes(metadata.fields);
    if programmes.Err? || !sections.JObj? {
      return Err("AttributeError or TypeError");
    }
    var base := BaseMetadata(path, category, metadata.fields, programmes.value);
    var documents := BuildDocs(fmt, base, metadata.fields, sections.fields);
    r := Ok(documents);
  }

  /** The body of `_load_single_json_file` once the base metadata is built: the overview, then the section loop. */
  method BuildDocs(fmt: Formatters, base: map<String, Json>, metadata: Dict<Json>, entries: Dict<Json>) returns (documents: seq<LoadedDoc>)
    ensures documents == FileDocs(fmt, base, metadata, entries)
  {
    documents := OverviewDocs(fmt, base, metadata);
    var toDoc := SectionDoc(fmt, base, metadata);
    for i := 0 to |entries|
      invariant documents == OverviewDocs(fmt, base, metadata) + MapSeq(Filter(entries[..i], KeptEntry), toDoc)
    {
      MapFilterStep(entries, i, KeptEntry, toDoc);
      if KeptSection(entries[i].1) {
        documents := documents + [toDoc(entries[i])];
      }
    }
    assert entries[..|entries|] == entries;
  }

  /** Every document of a file carries the base metadata's doc_type. */
  lemma FileDocType(fmt: Formatters, base: map<String, Json>, metadata: Dict<Json>, sections: Dict<Json>)
    requires "doc_type" in base
    ensures var r := FileDocs(fmt, base, metadata, sections);
            forall i :: 0 <= i < |r| ==> "doc_type" in r[i].metadata && r[i].metadata["doc_type"] == base["doc_type"]
  {
    var kept := Filter(sections, KeptEntry);
    var ov := OverviewDocs(fmt, base, metadata);
    AfterPrefix(ov, kept, SectionDoc(fmt, base, metadata));
    forall j | 0 <= j < |kept|
      ensures SectionDoc(fmt, base, metadata)(kept[j]) == SectionDocOf(fmt, base, metadata, kept[j].0, kept[j].1)
    {
    }
  }

  /** Every document of a loaded file says "course" as its doc_type exactly when the category name contains "course". */
  lemma LoadedDocType(fmt: Formatters, path: String, category: String, data: Json)
    requires Loadable(data)
    ensures forall d :: d in LoadedDocs(fmt, path, category, data).value ==>
              "doc_type" in d.metadata && (d.metadata["doc_type"] == JStr("course") <==> Contains(category, "course"))
  {
    var metadata := MetadataOf(data).fields;
    FileDocType(fmt, BaseMetadata(path, category, metadata, Programmes(metadata).value), metadata, SectionsOf(data).fields);
  }

  /**
   * A file has an overview document exactly when the overview text is not blank, first; then one
   * document per kept section, in order, tagged with its section id: a blank or falsy section gives none.
   */
  lemma FileDocsShape(fmt: Formatters, base: map<String, Json>, metadata: Dict<Json>, sections: Dict<Json>)
    ensures |FileDocs(fmt, base, metadata, sections)| == |OverviewDocs(fmt, base, metadata)| + |Filter(sections, KeptEntry)|
    ensures !IsBlank(fmt.overview(metadata)) ==> FileDocs(fmt, base, metadata, sections)[0].content == fmt.overview(metadata)
    ensures var r := FileDocs(fmt, base, metadata, sections);
            var kept := Filter(sections, KeptEntry);
            var o := |OverviewDocs(fmt, base, metadata)|;
            forall i :: 0 <= i < |kept| ==> r[o + i].content == fmt.section(metadata, kept[i].0, kept[i].1) &&
                                            "section" in r[o + i].metadata &&
                                            r[o + i].metadata["section"] == JStr(SectionId(kept[i].0))
  {
    var kept := Filter(sections, KeptEntry);
    AfterPrefix(OverviewDocs(fmt, base, metadata), kept, SectionDoc(fmt, base, metadata));
  }
}
