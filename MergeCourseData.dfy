/**
 * The course-data merger: a course's syllabus JSON and its web-page JSON are combined into one
 * record (selected metadata fields and sections taken from the web page, additional information
 * appended), files present in only one folder are copied, and a `content_type` can be added to
 * every merged file.
 */
module MergeCourseData {
  import opened Wrappers
  import opened Text
  import opened Dicts
  import opened Json
  import Sorting

  // ----- Python operations on loaded JSON values -----

  /** `k in j`: key membership for a dict, element membership for a list, substring for a string. */
  function In(k: String, j: Json): (r: Option<bool>)
    ensures r.None? <==> !(j.JObj? || j.JArr? || j.JStr?)
    ensures j.JObj? ==> r == Some(k in Keys(j.fields))
  {
    match j
    case JObj(d) => Some(k in Keys(d))
    case JArr(items) => Some(JStr(k) in items)
    case JStr(s) => Some(Contains(s, k))
    case _ => None
  }

  /**
   * `j[k] if k in j else None`: a present key of a dict gives its value; `in` or the subscript
   * failing (a list or string that contains `k` cannot be indexed by it) is an error.
   */
  function Lookup(j: Json, k: String): (r: Result<Option<Json>>)
    ensures r.Ok? && r.value.Some? ==> j.JObj? && Get(j.fields, k) == r.value
    ensures j.JObj? ==> r == Ok(Get(j.fields, k))
  {
    match In(k, j)
    case None => Err("TypeError: argument is not iterable")
    case Some(false) => Ok(None)
    case Some(true) =>
      if j.JObj? then Ok(Get(j.fields, k)) else Err("TypeError: indices must be integers")
  }

  /** `j[k]` of a dict, or nothing. */
  function Field(j: Json, k: String): Option<Json> {
    if j.JObj? then Get(j.fields, k) else None
  }

  /** `j[outer][k]` when `j[outer]` is a dict, or nothing. */
  function Member(j: Json, outer: String, k: String): Option<Json> {
    match Field(j, outer)
    case Some(JObj(d)) => Get(d, k)
    case _ => None
  }

  /** `j[outer][k] = v`: a missing `outer` raises `KeyError`, a non-dict one `TypeError`. */
  function SetIn(j: Json, outer: String, k: String, v: Json): (r: Result<Json>)
    ensures r.Ok? <==> Field(j, outer).Some? && Field(j, outer).value.JObj?
  {
    match Field(j, outer)
    case Some(JObj(inner)) => Ok(JObj(Dicts.Set(j.fields, outer, JObj(Dicts.Set(inner, k, v)))))
    case None => Err("KeyError")
    case _ => Err("TypeError: object does not support item assignment")
  }

  /** After `j[outer][k] = v` the new member is `v`, and every other member and field is as before. */
  lemma SetInSpec(j: Json, outer: String, k: String, v: Json, o: String, k2: String)
    requires SetIn(j, outer, k, v).Ok?
    ensures var r := SetIn(j, outer, k, v).value;
            r.JObj? && Field(r, outer).Some? && Field(r, outer).value.JObj? &&
            (o != outer ==> Field(r, o) == Field(j, o)) &&
            Member(r, outer, k2) == if k2 == k then Some(v) else Member(j, outer, k2)
  {
    var inner := Field(j, outer).value.fields;
    if o != outer {
      SetGetOther(j.fields, outer, JObj(Dicts.Set(inner, k, v)), o);
    }
    if k2 != k {
      SetGetOther(inner, k, v, k2);
    }
  }

  // ----- combine_json_data -----

  const MetadataFieldsToMove: seq<String> :=
    ["iteration", "study_pace", "time", "location", "study_form", "duration", "application_period", "application_code"]
  const SectionsToMove: seq<String> := ["Selection", "Tuition"]
  const AdditionalInformation: String := "Additional information"

  /** The loop `for k in keys: if k in src: combined[outer][k] = src[k]`. */
  function MoveFields(c: Json, outer: String, keys: seq<String>, src: Json): Result<Json>
    decreases |keys|
  {
    if keys == [] then Ok(c)
    else
      match Lookup(src, keys[0])
      case Err(e) => Err(e)
      case Ok(None) => MoveFields(c, outer, keys[1..], src)
      case Ok(Some(v)) =>
        match SetIn(c, outer, keys[0], v)
        case Err(e) => Err(e)
        case Ok(c2) => MoveFields(c2, outer, keys[1..], src)
  }

  /**
   * When the moves succeed, a key in `keys` that `src` has takes `src`'s value under `outer`;
   * every other member, and every other top-level field, is as before.
   */
  lemma {:induction false} MoveFieldsSpec(c: Json, outer: String, keys: seq<String>, src: Json, o: String, k: String)
    requires MoveFields(c, outer, keys, src).Ok?
    ensures var r := MoveFields(c, outer, keys, src).value;
            (o != outer ==> Field(r, o) == Field(c, o)) &&
            Member(r, outer, k) == if k in keys && Field(src, k).Some? then Field(src, k) else Member(c, outer, k)
    decreases |keys|
  {
    if keys != [] {
      match Lookup(src, keys[0])
      case Ok(None) =>
        MoveFieldsSpec(c, outer, keys[1..], src, o, k);
        if k == keys[0] {
          assert Field(src, k).None?;
        }
      case Ok(Some(v)) =>
        var c2 := SetIn(c, outer, keys[0], v).value;
        SetInSpec(c, outer, keys[0], v, o, k);
        MoveFieldsSpec(c2, outer, keys[1..], src, o, k);
    }
  }

  /** A dict source and a dict under `outer` make every move succeed. */
  lemma {:induction false} MoveFieldsSucceeds(c: Json, outer: String, keys: seq<String>, src: Json)
    requires src.JObj? && Field(c, outer).Some? && Field(c, outer).value.JObj?
    ensures MoveFields(c, outer, keys, src).Ok?
    decreases |keys|
  {
    if keys != [] {
      match Get(src.fields, keys[0])
      case None =>
        MoveFieldsSucceeds(c, outer, keys[1..], src);
      case Some(v) =>
        var c2 := SetIn(c, outer, keys[0], v).value;
        SetInSpec(c, outer, keys[0], v, outer, keys[0]);
        MoveFieldsSucceeds(c2, outer, keys[1..], src);
    }
  }

  /** A field to move that the record has no `outer` for raises `KeyError`. */
  lemma {:induction false} MoveFieldsKeyError(c: Json, outer: String, keys: seq<String>, src: Json, k: String)
    requires src.JObj? && Field(c, outer).None? && k in keys && Get(src.fields, k).Some?
    ensures MoveFields(c, outer, keys, src).Err?
    decreases |keys|
  {
    if keys[0] != k {
      if Get(src.fields, keys[0]).None? {
        MoveFieldsKeyError(c, outer, keys[1..], src, k);
      }
    }
  }

  /** `f"{existing}\n\n{new}"` for text values; other values are not modelled. */
  function JoinedText(existing: Json, added: Json): Result<Json> {
    if existing.JStr? && added.JStr? then Ok(JStr(existing.s + "\n\n" + added.s))
    else Err("formatting of a non-text value is not modelled")
  }

  /** The last step: a non-empty web-page additional information is appended, or added. */
  function AddAdditional(c: Json, webSections: Json): (r: Result<Json>)
    ensures !webSections.JObj? ==> r.Err?
  {
    if !webSections.JObj? then Err("AttributeError: no get")
    else
      var extra := Get(webSections.fields, AdditionalInformation).GetOr(JStr(""));
      if !extra.IsTruthy() then Ok(c)
      else if !c.JObj? then Err("AttributeError: no get")
      else
        var sections := Get(c.fields, "sections").GetOr(JObj([]));
        match In(AdditionalInformation, sections)
        case None => Err("TypeError: argument is not iterable")
        case Some(false) => SetIn(c, "sections", AdditionalInformation, extra)
        case Some(true) =>
          if !sections.JObj? then Err("TypeError: indices must be integers")
          else
            match JoinedText(Get(sections.fields, AdditionalInformation).value, extra)
            case Err(e) => Err(e)
            case Ok(joined) => SetIn(c, "sections", AdditionalInformation, joined)
  }

  /**
   * An empty web-page additional information leaves the record as it was; a non-empty one is
   * appended after the record's own with a blank line between, or becomes the section when the
   * record has none. Nothing else changes.
   */
  lemma AddAdditionalSpec(c: Json, webSections: Json, o: String, k: String)
    requires AddAdditional(c, webSections).Ok?
    ensures var r := AddAdditional(c, webSections).value;
            var extra := Get(webSections.fields, AdditionalInformation).GetOr(JStr(""));
            (!extra.IsTruthy() ==> r == c) &&
            (o != "sections" ==> Field(r, o) == Field(c, o)) &&
            (k != AdditionalInformation ==> Member(r, "sections", k) == Member(c, "sections", k)) &&
            (extra.IsTruthy() ==>
               Member(r, "sections", AdditionalInformation) ==
                 match Member(c, "sections", AdditionalInformation)
                 case None => Some(extra)
                 case Some(existing) => Some(JStr(existing.s + "\n\n" + extra.s)))
  {
    var extra := Get(webSections.fields, AdditionalInformation).GetOr(JStr(""));
    if extra.IsTruthy() {
      var sections := Get(c.fields, "sections").GetOr(JObj([]));
      if sections.JObj? && AdditionalInformation in Keys(sections.fields) {
        var joined := JoinedText(Get(sections.fields, AdditionalInformation).value, extra).value;
        SetInSpec(c, "sections", AdditionalInformation, joined, o, k);
        SetInSpec(c, "sections", AdditionalInformation, joined, o, AdditionalInformation);
      } else {
        SetInSpec(c, "sections", AdditionalInformation, extra, o, k);
        SetInSpec(c, "sections", AdditionalInformation, extra, o, AdditionalInformation);
      }
    }
  }

  /**
   * `combine_json_data`: the syllabus record with the web page's metadata fields and sections
   * moved in and its additional information appended; any exception the steps raise is an
   * error. The syllabus value itself is never changed (values are immutable here, as the deep
   * copy makes them in the source).
   */
  function CombineJsonData(syllabus: Json, webpages: Json): Result<Json> {
    CombineMoving(syllabus, webpages, MetadataFieldsToMove, SectionsToMove)
  }

  /** The web page's metadata or sections, or an empty object. */
  function WebPart(webpages: Json, key: String): Json
    requires webpages.JObj?
  {
    Get(webpages.fields, key).GetOr(JObj([]))
  }

  /** `combine_json_data` for any lists of metadata fields and sections to move. */
  function CombineMoving(syllabus: Json, webpages: Json, metaKeys: seq<String>, sectionKeys: seq<String>): Result<Json> {
    if !webpages.JObj? then Err("AttributeError: no get")
    else
      var meta := WebPart(webpages, "metadata");
      var sections := WebPart(webpages, "sections");
      match MoveFields(syllabus, "metadata", metaKeys, meta)
      case Err(e) => Err(e)
      case Ok(c1) =>
        match MoveFields(c1, "sections", sectionKeys, sections)
        case Err(e) => Err(e)
        case Ok(c2) => AddAdditional(c2, sections)
  }

  /** What a successful combination keeps and takes, for any lists of keys to move. */
  lemma CombineMovingSpec(syllabus: Json, webpages: Json, metaKeys: seq<String>, sectionKeys: seq<String>, o: String, k: String)
    requires CombineMoving(syllabus, webpages, metaKeys, sectionKeys).Ok?
    ensures var r := CombineMoving(syllabus, webpages, metaKeys, sectionKeys).value;
            var meta := WebPart(webpages, "metadata");
            var sections := WebPart(webpages, "sections");
            (o != "metadata" && o != "sections" ==> Field(r, o) == Field(syllabus, o)) &&
            Member(r, "metadata", k) ==
              (if k in metaKeys && Field(meta, k).Some? then Field(meta, k) else Member(syllabus, "metadata", k)) &&
            (k != AdditionalInformation ==>
               Member(r, "sections", k) ==
                 if k in sectionKeys && Field(sections, k).Some? then Field(sections, k) else Member(syllabus, "sections", k))
  {
    var meta := WebPart(webpages, "metadata");
    var sections := WebPart(webpages, "sections");
    var c1 := MoveFields(syllabus, "metadata", metaKeys, meta).value;
    var c2 := MoveFields(c1, "sections", sectionKeys, sections).value;
    MoveFieldsSpec(syllabus, "metadata", metaKeys, meta, o, k);
    MoveFieldsSpec(c1, "sections", sectionKeys, sections, o, k);
    AddAdditionalSpec(c2, sections, o, k);
    MoveFieldsSpec(syllabus, "metadata", metaKeys, meta, "sections", k);
    MoveFieldsSpec(c1, "sections", sectionKeys, sections, "metadata", k);
    AddAdditionalSpec(c2, sections, "metadata", k);
    AddAdditionalSpec(c2, sections, "sections", k);
  }

  /**
   * A combined record: the eight metadata fields come from the web page where it has them and
   * from the syllabus otherwise; every other metadata field is the syllabus's.
   */
  lemma CombinedMetadata(syllabus: Json, webpages: Json, k: String)
    requires CombineJsonData(syllabus, webpages).Ok?
    ensures var r := CombineJsonData(syllabus, webpages).value;
            var meta := WebPart(webpages, "metadata");
            Member(r, "metadata", k) ==
              if k in MetadataFieldsToMove && Field(meta, k).Some? then Field(meta, k) else Member(syllabus, "metadata", k)
  {
    CombineMovingSpec(syllabus, webpages, MetadataFieldsToMove, SectionsToMove, "", k);
  }

  /**
   * A combined record: 'Selection' and 'Tuition' come from the web page where it has them; any
   * other section but the additional information is the syllabus's.
   */
  lemma CombinedSections(syllabus: Json, webpages: Json, k: String)
    requires CombineJsonData(syllabus, webpages).Ok? && k != AdditionalInformation
    ensures var r := CombineJsonData(syllabus, webpages).value;
            var sections := WebPart(webpages, "sections");
            Member(r, "sections", k) ==
              if k in SectionsToMove && Field(sections, k).Some? then Field(sections, k) else Member(syllabus, "sections", k)
  {
    CombineMovingSpec(syllabus, webpages, MetadataFieldsToMove, SectionsToMove, "", k);
  }

  /** A combined record keeps every top-level field of the syllabus other than metadata and sections. */
  lemma CombinedOtherFields(syllabus: Json, webpages: Json, o: String)
    requires CombineJsonData(syllabus, webpages).Ok? && o != "metadata" && o != "sections"
    ensures Field(CombineJsonData(syllabus, webpages).value, o) == Field(syllabus, o)
  {
    CombineMovingSpec(syllabus, webpages, MetadataFieldsToMove, SectionsToMove, o, "");
  }

  // ----- merge_course_data -----

  /** A folder: file name to the loaded JSON, or `None` when the file is not valid JSON. */
  type Folder = map<String, Option<Json>>

  /** The names in a folder that end in ".json". */
  function JsonNames(f: Folder): (r: set<String>)
    ensures forall n :: n in r <==> n in f && EndsWith(n, ".json")
  {
    set n | n in f && EndsWith(n, ".json")
  }

  /**
   * The three categories of file names: the common ones, the syllabus-only and the web-page-only
   * ones are pairwise disjoint, together make up every name, and their sizes add up to the
   * number of names.
   */
  lemma Categories(s: set<String>, w: set<String>)
    ensures (s * w) * (s - w) == {} && (s * w) * (w - s) == {} && (s - w) * (w - s) == {}
    ensures (s * w) + (s - w) + (w - s) == s + w
    ensures |s * w| + |s - w| + |w - s| == |s + w|
  {
    assert s == (s * w) + (s - w);
    assert |s| == |s * w| + |s - w|;
    assert s + w == s + (w - s);
  }

  /** The names of `names` that `p` holds for. */
  function Chosen(names: seq<String>, p: String -> bool): (r: set<String>)
    ensures forall n :: n in r <==> n in names && p(n)
  {
    set n | n in names && p(n)
  }

  /** One more name adds itself to the chosen names when `p` holds for it, and nothing otherwise. */
  lemma ChosenStep(names: seq<String>, i: nat, p: String -> bool)
    requires Seqs.Distinct(names) && i < |names|
    ensures names[i] !in Chosen(names[..i], p)
    ensures Chosen(names[..i + 1], p) == Chosen(names[..i], p) + if p(names[i]) then {names[i]} else {}
    ensures |Chosen(names[..i + 1], p)| == |Chosen(names[..i], p)| + if p(names[i]) then 1 else 0
  {
    assert names[..i + 1] == names[..i] + [names[i]];
  }

  /** One more name adds one to the number of chosen names exactly when `p` holds for it. */
  lemma CountStep(names: seq<String>, i: nat, p: String -> bool)
    requires Seqs.Distinct(names) && i < |names|
    ensures |Chosen(names[..i + 1], p)| == |Chosen(names[..i], p)| + if p(names[i]) then 1 else 0
  {
    ChosenStep(names, i, p);
  }

  /** A common file's combination: an unloadable file or a failing combination is an error. */
  function CombinedFile(syl: Folder, web: Folder, n: String): Result<Json> {
    if n !in syl || n !in web || syl[n].None? || web[n].None? then Err("JSONDecodeError")
    else CombineJsonData(syl[n].value, web[n].value)
  }

  /** A folder's file, or nothing. */
  function FileOf(f: Folder, n: String): Option<Json> {
    if n in f then f[n] else None
  }

  /** Loading and combining each common file. */
  function CombinedFiles(syl: Folder, web: Folder): String -> Result<Json> {
    n => CombinedFile(syl, web, n)
  }

  function Succeeds(f: String -> Result<Json>): String -> bool {
    n => f(n).Ok?
  }

  /** What a step that may fail writes: its result, when it has one. */
  function OutputOf(r: Result<Json>): Option<Json> {
    if r.Ok? then Some(r.value) else None
  }

  function Outputs(f: String -> Result<Json>): String -> Option<Json> {
    n => OutputOf(f(n))
  }

  function FilesOf(f: Folder): String -> Option<Json> {
    n => FileOf(f, n)
  }

  function AbsentFrom(f: Folder): String -> bool {
    n => n !in f
  }

  /** `base` with the file `val(n)` written under every name of `ns`. */
  function Written<V>(base: map<String, V>, ns: set<String>, val: String -> V): (r: map<String, V>)
    ensures forall n :: n in r <==> n in base || n in ns
  {
    base + map n | n in ns :: val(n)
  }

  lemma WrittenAdd<V>(base: map<String, V>, ns: set<String>, x: String, val: String -> V)
    ensures Written(base, ns + {x}, val) == Written(base, ns, val)[x := val(x)]
  {
  }

  /** One more name of a loop writes its file when `p` holds for it, and nothing otherwise. */
  lemma WrittenStep<V>(base: map<String, V>, names: seq<String>, i: nat, p: String -> bool, val: String -> V)
    requires Seqs.Distinct(names) && i < |names|
    ensures Written(base, Chosen(names[..i + 1], p), val) ==
              if p(names[i]) then Written(base, Chosen(names[..i], p), val)[names[i] := val(names[i])]
              else Written(base, Chosen(names[..i], p), val)
  {
    ChosenStep(names, i, p);
    WrittenAdd(base, Chosen(names[..i], p), names[i], val);
  }

  /** The common names whose files combine. */
  function CombinedNames(syl: Folder, web: Folder): set<String> {
    set n | n in JsonNames(syl) * JsonNames(web) && CombinedFile(syl, web, n).Ok?
  }

  /**
   * The output folder after the merge: combined files written (over any existing ones), then
   * the syllabus-only and the web-page-only files copied where no file of that name exists.
   */
  function MergedFolder(syl: Folder, web: Folder, out0: Folder): Folder {
    var s := JsonNames(syl);
    var w := JsonNames(web);
    var out1 := Written(out0, CombinedNames(syl, web), Outputs(CombinedFiles(syl, web)));
    var out2 := Written(out1, (s - w) - out0.Keys, FilesOf(syl));
    Written(out2, (w - s) - out0.Keys, FilesOf(web))
  }

  /**
   * The merged folder holds every existing file, every combined file and every file only one
   * folder has; a combined file is the combination, a copied one the source's file, and a file
   * that existed and was not combined is never overwritten.
   */
  lemma MergedFolderSpec(syl: Folder, web: Folder, out0: Folder, n: String)
    ensures var r := MergedFolder(syl, web, out0);
            var s := JsonNames(syl);
            var w := JsonNames(web);
            (n in r <==> n in out0 || n in CombinedNames(syl, web) || n in (s - w) + (w - s)) &&
            (n in CombinedNames(syl, web) ==> r[n] == Some(CombinedFile(syl, web, n).value)) &&
            (n in out0 && n !in CombinedNames(syl, web) ==> r[n] == out0[n]) &&
            (n !in out0 && n in s - w ==> r[n] == syl[n]) &&
            (n !in out0 && n in w - s ==> r[n] == web[n])
  {
  }

  /** The combination loop over the common names in sorted order; `combine` loads and combines a name's files. */
  method CombineAll(combine: String -> Result<Json>, names: seq<String>, out0: Folder) returns (combined: nat, errors: nat, out: Folder)
    requires Seqs.Distinct(names)
    ensures combined == |Chosen(names, Succeeds(combine))| && combined + errors == |names|
    ensures out == Written(out0, Chosen(names, Succeeds(combine)), Outputs(combine))
  {
    var ok := Succeeds(combine);
    var val := Outputs(combine);
    combined, errors, out := 0, 0, out0;
    for i := 0 to |names|
      invariant combined == |Chosen(names[..i], ok)| && combined + errors == i
      invariant out == Written(out0, Chosen(names[..i], ok), val)
    {
      ChosenStep(names, i, ok);
      var n := names[i];
      WrittenStep(out0, names, i, ok, val);
      var r := combine(n);
      if r.Ok? {
        out := out[n := val(n)];
        combined := combined + 1;
      } else {
        errors := errors + 1;
      }
    }
    assert names[..|names|] == names;
  }

  /** A copy loop: each file is copied unless one of its name already exists in the output. */
  method CopyAll(src: Folder, names: seq<String>, out0: Folder) returns (copied: nat, out: Folder)
    requires Seqs.Distinct(names) && forall n :: n in names ==> n in src
    ensures copied == |Chosen(names, AbsentFrom(out0))|
    ensures out == Written(out0, Chosen(names, AbsentFrom(out0)), FilesOf(src))
  {
    var absent := AbsentFrom(out0);
    var val := FilesOf(src);
    copied, out := 0, out0;
    for i := 0 to |names|
      invariant copied == |Chosen(names[..i], absent)|
      invariant out == Written(out0, Chosen(names[..i], absent), val)
    {
      ChosenStep(names, i, absent);
      var n := names[i];
      WrittenStep(out0, names, i, absent, val);
      if n in out {
        assert n in out0;
      } else {
        out := out[n := src[n]];
        copied := copied + 1;
      }
    }
    assert names[..|names|] == names;
  }

  /**
   * `merge_course_data`: in a dry run the output folder is untouched and the sizes of the three
   * categories come back with 0; otherwise the folder becomes the merged one, and the counts are
   * the combined files, the copied files, the failed combinations and the number of names.
   */
  method MergeCourseData(syl: Folder, web: Folder, out0: Folder, dryRun: bool) returns (a: nat, b: nat, c: nat, d: nat, out: Folder)
    ensures var s := JsonNames(syl);
            var w := JsonNames(web);
            if dryRun then out == out0 && a == |s * w| && b == |s - w| && c == |w - s| && d == 0
            else
              out == MergedFolder(syl, web, out0) &&
              a == |CombinedNames(syl, web)| && a + c == |s * w| &&
              b == |(s - w) - out0.Keys| + |(w - s) - out0.Keys| &&
              d == |s + w|
  {
    var s := JsonNames(syl);
    var w := JsonNames(web);
    if dryRun {
      return |s * w|, |s - w|, |w - s|, 0, out0;
    }
    a, b, c, out := MergeFolders(syl, web, out0);
    d := |s * w| + |s - w| + |w - s|;
    assert d == |s + w| by {
      Categories(s, w);
    }
  }

  /** The combine pass and the two copy passes of `merge_course_data`. */
  method MergeFolders(syl: Folder, web: Folder, out0: Folder) returns (a: nat, b: nat, c: nat, out: Folder)
    ensures var s := JsonNames(syl);
            var w := JsonNames(web);
            out == MergedFolder(syl, web, out0) &&
            a == |CombinedNames(syl, web)| && a + c == |s * w| &&
            b == |(s - w) - out0.Keys| + |(w - s) - out0.Keys|
  {
    var s := JsonNames(syl);
    var w := JsonNames(web);
    var common := Sorting.SortedSet(s * w);
    var sylOnly := Sorting.SortedSet(s - w);
    var webOnly := Sorting.SortedSet(w - s);
    var out1;
    a, c, out1 := CombineAll(CombinedFiles(syl, web), common, out0);
    CombinedNamesChosen(syl, web, common);
    var b1, out2 := CopyAll(syl, sylOnly, out1);
    CopiedNames(sylOnly, s - w, out0, out1);
    var b2;
    b2, out := CopyAll(web, webOnly, out2);
    CopiedNames(webOnly, w - s, out0, out2);
    b := b1 + b2;
  }

  lemma CombinedNamesChosen(syl: Folder, web: Folder, common: seq<String>)
    requires forall n :: n in common <==> n in JsonNames(syl) * JsonNames(web)
    ensures Chosen(common, Succeeds(CombinedFiles(syl, web))) == CombinedNames(syl, web)
  {
  }

  /** Over names the output folder did not get from earlier passes, "already exists" means it existed before. */
  lemma CopiedNames(names: seq<String>, ns: set<String>, out0: Folder, out1: Folder)
    requires forall n :: n in names <==> n in ns
    requires forall n :: n in ns ==> (n in out1 <==> n in out0)
    ensures Chosen(names, AbsentFrom(out1)) == ns - out0.Keys
  {
  }

  // ----- add_content_type_to_files -----

  /** What `add_content_type_to_files` does with one file. */
  datatype Outcome = Updated(data: Json) | Skipped | Failed

  const ContentType: String := "content_type"

  /**
   * One file: invalid JSON, or an `in` or subscript that raises, fails; no metadata, or metadata
   * that already has a content type, is skipped; otherwise the metadata gets content type "course".
   */
  function ContentTypeOutcome(file: Option<Json>): Outcome {
    match file
    case None => Failed
    case Some(data) =>
      match In("metadata", data)
      case None => Failed
      case Some(false) => Skipped
      case Some(true) =>
        if !data.JObj? then Failed
        else
          var md := Get(data.fields, "metadata").value;
          match In(ContentType, md)
          case None => Failed
          case Some(true) => Skipped
          case Some(false) =>
            match SetIn(data, "metadata", ContentType, JStr("course"))
            case Ok(d) => Updated(d)
            case Err(_) => Failed
  }

  /** A file is updated exactly when it is an object whose metadata is an object without a content type. */
  lemma ContentTypeUpdatedWhen(file: Option<Json>)
    ensures ContentTypeOutcome(file).Updated? <==>
              file.Some? && file.value.JObj? && Field(file.value, "metadata").Some? &&
              Field(file.value, "metadata").value.JObj? && Member(file.value, "metadata", ContentType).None?
  {
    if file.Some? && file.value.JObj? && Field(file.value, "metadata").Some? {
      var md := Get(file.value.fields, "metadata").value;
      if md.JObj? && ContentType !in Keys(md.fields) {
        SetInSpec(file.value, "metadata", ContentType, JStr("course"), "", ContentType);
      }
    }
  }

  /** The update sets the metadata's content type to "course" and changes nothing else. */
  lemma ContentTypeUpdate(file: Option<Json>, o: String, k: String)
    requires ContentTypeOutcome(file).Updated?
    ensures var r := ContentTypeOutcome(file).data;
            Member(r, "metadata", ContentType) == Some(JStr("course")) &&
            (k != ContentType ==> Member(r, "metadata", k) == Member(file.value, "metadata", k)) &&
            (o != "metadata" ==> Field(r, o) == Field(file.value, o))
  {
    SetInSpec(file.value, "metadata", ContentType, JStr("course"), o, k);
    SetInSpec(file.value, "metadata", ContentType, JStr("course"), o, ContentType);
  }

  /** `add_content_type_to_files`'s verdict on each name of a folder. */
  function ContentTypeOf(f: Folder): String -> Outcome {
    n => ContentTypeOutcome(FileOf(f, n))
  }

  function IsUpdated(step: String -> Outcome): String -> bool {
    n => step(n).Updated?
  }

  function IsFailed(step: String -> Outcome): String -> bool {
    n => step(n).Failed?
  }

  function IsSkipped(step: String -> Outcome): String -> bool {
    n => step(n).Skipped?
  }

  /** The file an update writes back. */
  function UpdatedFile(step: String -> Outcome): String -> Option<Json> {
    n => if step(n).Updated? then Some(step(n).data) else None
  }

  /**
   * `add_content_type_to_files` over the JSON files in sorted order: every updated file is
   * written back, and the counts are the updated, the failed and the skipped files.
   */
  method AddContentTypeToFiles(folder: Folder) returns (processed: nat, errors: nat, skipped: nat, out: Folder)
    ensures var names := Sorting.SortedSet(JsonNames(folder));
            var step := ContentTypeOf(folder);
            processed == |Chosen(names, IsUpdated(step))| &&
            errors == |Chosen(names, IsFailed(step))| &&
            skipped == |Chosen(names, IsSkipped(step))| &&
            processed + errors + skipped == |JsonNames(folder)| &&
            out == Written(folder, Chosen(names, IsUpdated(step)), UpdatedFile(step))
  {
    var names := Sorting.SortedSet(JsonNames(folder));
    processed, errors, skipped, out := UpdateAll(names, folder, ContentTypeOf(folder));
    OutcomesPartition(names, ContentTypeOf(folder));
  }

  /** Every name has exactly one outcome, so the three counts add up to the number of names. */
  lemma OutcomesPartition(names: seq<String>, step: String -> Outcome)
    requires Seqs.Distinct(names)
    ensures |Chosen(names, IsUpdated(step))| + |Chosen(names, IsFailed(step))| + |Chosen(names, IsSkipped(step))| == |names|
  {
    var u, e, k := Chosen(names, IsUpdated(step)), Chosen(names, IsFailed(step)), Chosen(names, IsSkipped(step));
    assert u * e == {} && (u + e) * k == {};
    assert u + e + k == set n | n in names;
    Seqs.DistinctCardinality(names);
  }

  /** The loop of `add_content_type_to_files`, `step` deciding each file. */
  method UpdateAll(names: seq<String>, folder: Folder, step: String -> Outcome) returns (processed: nat, errors: nat, skipped: nat, out: Folder)
    requires Seqs.Distinct(names)
    ensures processed == |Chosen(names, IsUpdated(step))|
    ensures errors == |Chosen(names, IsFailed(step))|
    ensures skipped == |Chosen(names, IsSkipped(step))|
    ensures out == Written(folder, Chosen(names, IsUpdated(step)), UpdatedFile(step))
  {
    var upd, bad, skip := IsUpdated(step), IsFailed(step), IsSkipped(step);
    var val := UpdatedFile(step);
    processed, errors, skipped, out := 0, 0, 0, folder;
    for i := 0 to |names|
      invariant processed == |Chosen(names[..i], upd)| && errors == |Chosen(names[..i], bad)|
      invariant skipped == |Chosen(names[..i], skip)|
      invariant out == Written(folder, Chosen(names[..i], upd), val)
    {
      var n := names[i];
      CountStep(names, i, upd);
      CountStep(names, i, bad);
      CountStep(names, i, skip);
      WrittenStep(folder, names, i, upd, val);
      match step(n)
      case Updated(d) =>
        assert upd(n) && !bad(n) && !skip(n);
        out := out[n := Some(d)];
        processed := processed + 1;
      case Skipped =>
        assert !upd(n) && !bad(n) && skip(n);
        skipped := skipped + 1;
      case Failed =>
        assert !upd(n) && bad(n) && !skip(n);
        errors := errors + 1;
    }
    assert names[..|names|] == names;
  }
}
