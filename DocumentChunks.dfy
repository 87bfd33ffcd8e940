/**
 * The chunks the course-document processor builds from the sections of one document, and the
 * splitting of dense chunks.
 */
module DocumentChunks {
  import opened Wrappers
  import opened Text
  import opened Dicts
  import opened DynamicParser
  import Seqs

  // ----- metadata -----

  /** The groups of the course footer line: code, title and credits. */
  datatype CourseInfo = CourseInfo(code: String, title: String, credits: String)

  /**
   * What each metadata regex found in the text (`None` when it did not match), with the group
   * the source reads. The regexes themselves are not part of this model.
   */
  datatype MetadataMatches = MetadataMatches(
    courseInfo: Option<CourseInfo>,
    simpleCourseInfo: Option<CourseInfo>,
    fieldOfEducation: Option<String>,
    labelledDepartment: Option<String>,
    department: Option<String>,
    programmeList: Option<String>)

  datatype Metadata = Metadata(
    sourceDocument: String,
    courseCode: String,
    courseTitle: String,
    department: String,
    fieldOfEducation: String,
    credits: String,
    programmes: Option<String>)

  const Unknown: String := "Unknown"

  // ----- blank lines -----

  /** The last newline of `s[lo..hi]`, if any. */
  function LastNewline(s: String, lo: nat, hi: nat): (r: Option<nat>)
    requires lo <= hi <= |s|
    ensures r.Some? ==> lo <= r.value < hi && s[r.value] == '\n' && forall k :: r.value < k < hi ==> s[k] != '\n'
    ensures r.None? ==> forall k :: lo <= k < hi ==> s[k] != '\n'
    decreases hi - lo
  {
    if lo == hi then None
    else if s[hi - 1] == '\n' then Some(hi - 1)
    else LastNewline(s, lo, hi - 1)
  }

  /**
   * A match of `\n\s*\n` at `i`, given by its end. The greedy `\s*` takes the whole whitespace
   * run after the first newline and gives characters back until a newline follows, so the match
   * ends just after the last newline of that run.
   */
  function BlankLineAt(s: String, i: nat): (r: Option<nat>)
    ensures r.Some? ==> i < |s| && s[i] == '\n' && i + 1 < r.value <= |s| && s[r.value - 1] == '\n' &&
                        forall k :: i < k < r.value ==> IsSpace(s[k])
    ensures r.Some? ==> var m := i + 1 + SpaceRun(s, i + 1);
                        r.value <= m <= |s| && forall k :: r.value <= k < m ==> s[k] != '\n'
    ensures r.None? && i < |s| && s[i] == '\n' ==>
              forall k :: i < k < i + 1 + SpaceRun(s, i + 1) ==> s[k] != '\n'
  {
    if i < |s| && s[i] == '\n' then
      var m := i + 1 + SpaceRun(s, i + 1);
      match LastNewline(s, i + 1, m)
      case None => None
      case Some(k) => Some(k + 1)
    else None
  }

  /** `re.sub(r'\n\s*\n', '\n', s)` from position `i`: each match, leftmost first, becomes one newline. */
  function CollapseFrom(s: String, i: nat): String
    decreases |s| - i
  {
    if i >= |s| then []
    else
      match BlankLineAt(s, i)
      case Some(e) => "\n" + CollapseFrom(s, e)
      case None => [s[i]] + CollapseFrom(s, i + 1)
  }

  function CollapseBlankLines(s: String): String { CollapseFrom(s, 0) }

  function Visible(c: char): bool { !IsSpace(c) }

  /** Any two newlines have a visible character between them: no line is empty or blank. */
  predicate NoBlankLines(r: String) {
    forall a, b :: 0 <= a < b < |r| && r[a] == '\n' && r[b] == '\n' ==> exists k :: a < k < b && Visible(r[k])
  }

  /** Every newline has a visible character before it. */
  predicate QuietStart(r: String) {
    forall b :: 0 <= b < |r| && r[b] == '\n' ==> exists k :: 0 <= k < b && Visible(r[k])
  }

  /** Collapsing keeps the visible characters, in order. */
  lemma {:induction false} CollapseKeepsText(s: String, i: nat)
    requires i <= |s|
    ensures Seqs.Filter(CollapseFrom(s, i), Visible) == Seqs.Filter(s[i..], Visible)
    decreases |s| - i
  {
    if i < |s| {
      match BlankLineAt(s, i)
      case Some(e) =>
        CollapseKeepsText(s, e);
        assert ("\n" + CollapseFrom(s, e))[1..] == CollapseFrom(s, e);
        SpacesInvisible(s, i, e);
      case None =>
        CollapseKeepsText(s, i + 1);
        assert ([s[i]] + CollapseFrom(s, i + 1))[1..] == CollapseFrom(s, i + 1);
        assert s[i..][1..] == s[i + 1..];
    }
  }

  /** Skipping whitespace skips nothing visible. */
  lemma {:induction false} SpacesInvisible(s: String, i: nat, e: nat)
    requires i <= e <= |s| && forall k :: i <= k < e ==> IsSpace(s[k])
    ensures Seqs.Filter(s[i..], Visible) == Seqs.Filter(s[e..], Visible)
    decreases e - i
  {
    if i < e {
      assert s[i..][1..] == s[i + 1..];
      SpacesInvisible(s, i + 1, e);
    }
  }

  /** Text without a blank line is left as it is. */
  lemma {:induction false} CollapseUnchanged(s: String, i: nat)
    requires i <= |s| && forall k :: i <= k < |s| ==> BlankLineAt(s, k).None?
    ensures CollapseFrom(s, i) == s[i..]
    decreases |s| - i
  {
    if i < |s| {
      CollapseUnchanged(s, i + 1);
      assert s[i..] == [s[i]] + s[i + 1..];
    }
  }

  /** A whitespace stretch without newlines, then a visible character or the end, is copied with no newline before it. */
  lemma {:induction false} QuietFrom(s: String, j: nat, m: nat)
    requires j <= m <= |s| && (forall k :: j <= k < m ==> IsSpace(s[k]) && s[k] != '\n') && (m < |s| ==> Visible(s[m]))
    ensures QuietStart(CollapseFrom(s, j))
    decreases m - j
  {
    if j < |s| {
      var r := CollapseFrom(s, j);
      assert BlankLineAt(s, j).None?;
      assert r == [s[j]] + CollapseFrom(s, j + 1);
      if j < m {
        QuietFrom(s, j + 1, m);
        forall b | 0 <= b < |r| && r[b] == '\n' ensures exists k :: 0 <= k < b && Visible(r[k]) {
          assert r[b] == CollapseFrom(s, j + 1)[b - 1];
          var k :| 0 <= k < b - 1 && Visible(CollapseFrom(s, j + 1)[k]);
          assert r[k + 1] == CollapseFrom(s, j + 1)[k];
        }
      } else {
        assert Visible(r[0]);
      }
    }
  }

  /** A character put before text without blank lines adds none, unless it is a newline and the text starts with a blank line. */
  lemma ConsNoBlank(c: char, r: String)
    requires NoBlankLines(r) && (c == '\n' ==> QuietStart(r))
    ensures NoBlankLines([c] + r)
  {
    var t := [c] + r;
    forall a, b | 0 <= a < b < |t| && t[a] == '\n' && t[b] == '\n' ensures exists k :: a < k < b && Visible(t[k]) {
      assert t[b] == r[b - 1];
      if a == 0 {
        var k :| 0 <= k < b - 1 && Visible(r[k]);
        assert t[k + 1] == r[k];
      } else {
        assert t[a] == r[a - 1];
        var k :| a - 1 < k < b - 1 && Visible(r[k]);
        assert t[k + 1] == r[k];
      }
    }
  }

  /** After collapsing, no line is empty or blank. */
  lemma {:induction false} CollapseNoBlank(s: String, i: nat)
    requires i <= |s|
    ensures NoBlankLines(CollapseFrom(s, i))
    decreases |s| - i
  {
    if i < |s| {
      match BlankLineAt(s, i)
      case Some(e) =>
        CollapseNoBlank(s, e);
        QuietFrom(s, e, i + 1 + SpaceRun(s, i + 1));
        ConsNoBlank('\n', CollapseFrom(s, e));
        assert CollapseFrom(s, i) == ['\n'] + CollapseFrom(s, e);
      case None =>
        CollapseNoBlank(s, i + 1);
        if s[i] == '\n' {
          QuietFrom(s, i + 1, i + 1 + SpaceRun(s, i + 1));
        }
        ConsNoBlank(s[i], CollapseFrom(s, i + 1));
    }
  }

  /** Text without blank lines has no match of the pattern. */
  lemma NoBlankNoMatch(r: String)
    requires NoBlankLines(r)
    ensures forall k :: 0 <= k < |r| ==> BlankLineAt(r, k).None?
  {
    forall k | 0 <= k < |r| ensures BlankLineAt(r, k).None? {
      if BlankLineAt(r, k).Some? {
        assert false;
      }
    }
  }

  /** Collapsing twice is collapsing once. */
  lemma CollapseIdempotent(s: String)
    ensures CollapseBlankLines(CollapseBlankLines(s)) == CollapseBlankLines(s)
  {
    var r := CollapseBlankLines(s);
    CollapseNoBlank(s, 0);
    NoBlankNoMatch(r);
    CollapseUnchanged(r, 0);
    assert r[0..] == r;
  }

  /** `extract_metadata`: the footer match wins over the English-only one; a field whose pattern does not match keeps its default. */
  function ExtractMetadata(filename: String, m: MetadataMatches): (md: Metadata)
    ensures md.sourceDocument == filename
    ensures m.courseInfo.None? && m.simpleCourseInfo.None? ==>
              md.courseCode == Unknown && md.courseTitle == Unknown && md.credits == Unknown
    ensures m.courseInfo.Some? ==>
              md.courseCode == Strip(m.courseInfo.value.code) &&
              md.courseTitle == Strip(m.courseInfo.value.title) && md.credits == Strip(m.courseInfo.value.credits)
    ensures m.courseInfo.None? && m.simpleCourseInfo.Some? ==>
              md.courseCode == Strip(m.simpleCourseInfo.value.code) &&
              md.courseTitle == Strip(m.simpleCourseInfo.value.title) && md.credits == Strip(m.simpleCourseInfo.value.credits)
    ensures md.fieldOfEducation == (if m.fieldOfEducation.Some? then Strip(m.fieldOfEducation.value) else Unknown)
    ensures m.labelledDepartment.Some? ==> md.department == Strip(m.labelledDepartment.value)
    ensures m.labelledDepartment.None? ==>
              md.department == (if m.department.Some? then Strip(m.department.value) else Unknown)
    ensures md.programmes.None? <==> m.programmeList.None?
    ensures m.programmeList.Some? ==> md.programmes == Some(CollapseBlankLines(Strip(m.programmeList.value)))
  {
    var info := if m.courseInfo.Some? then m.courseInfo else m.simpleCourseInfo;
    Metadata(
      filename,
      if info.Some? then Strip(info.value.code) else Unknown,
      if info.Some? then Strip(info.value.title) else Unknown,
      if m.labelledDepartment.Some? then Strip(m.labelledDepartment.value)
      else if m.department.Some? then Strip(m.department.value) else Unknown,
      if m.fieldOfEducation.Some? then Strip(m.fieldOfEducation.value) else Unknown,
      if info.Some? then Strip(info.value.credits) else Unknown,
      if m.programmeList.Some? then Some(CollapseBlankLines(Strip(m.programmeList.value))) else None)
  }

  /** The stored programme list has the visible text of the stripped match and no blank line. */
  lemma ProgrammesClean(filename: String, m: MetadataMatches)
    requires m.programmeList.Some?
    ensures var p := ExtractMetadata(filename, m).programmes.value;
      NoBlankLines(p) && Seqs.Filter(p, Visible) == Seqs.Filter(Strip(m.programmeList.value), Visible)
  {
    var t := Strip(m.programmeList.value);
    CollapseNoBlank(t, 0);
    CollapseKeepsText(t, 0);
    assert t[0..] == t;
  }

  /** Nothing matched: every field keeps its default. */
  lemma MetadataDefaults(filename: String)
    ensures ExtractMetadata(filename, MetadataMatches(None, None, None, None, None, None)) ==
            Metadata(filename, Unknown, Unknown, Unknown, Unknown, Unknown, None)
  {
  }

  // ----- chunks -----

  datatype SplitInfo = SplitInfo(subPosition: nat, totalSplits: nat)

  /** A section chunk: the document's metadata, the section fields and, once split, the split fields. */
  datatype Chunk = Chunk(meta: Metadata, section: String, sectionId: String, chunkType: String, position: nat,
                         split: Option<SplitInfo>, text: String)

  const SectionContent: String := "section_content"

  /** `section_name.lower().replace(' ', '_')`. */
  function SectionId(name: String): (id: String)
    ensures |id| == |name| && ' ' !in id
    ensures forall k :: 0 <= k < |name| ==> id[k] == (if name[k] == ' ' then '_' else LowerChar(name[k]))
  {
    ReplaceChar(Lower(name), ' ', '_')
  }

  /** The chunk of entry `i` of the sections dictionary. */
  function SectionChunk(sections: Dict<String>, meta: Metadata, i: nat): Chunk
    requires i < |sections|
  {
    Chunk(meta, sections[i].0, SectionId(sections[i].0), SectionContent, i, None, sections[i].1)
  }

  /** The chunks of the first `n` entries of the sections dictionary, empty sections skipped. */
  function SectionChunks(sections: Dict<String>, meta: Metadata, n: nat): seq<Chunk>
    requires n <= |sections|
  {
    if n == 0 then []
    else
      SectionChunks(sections, meta, n - 1) +
        (if sections[n - 1].1 == [] then [] else [SectionChunk(sections, meta, n - 1)])
  }

  /** `extract_sections` on the extracted text: no chunks for an empty document. */
  function DocumentChunks(text: String, filename: String, m: MetadataMatches): seq<Chunk> {
    if text == [] then [] else
      var sections := StructuredSections(text);
      SectionChunks(sections, ExtractMetadata(filename, m), |sections|)
  }

  /** `c` is the chunk of a non-empty section: the document's metadata, the section's name, id, index and text. */
  predicate IsSectionChunk(sections: Dict<String>, meta: Metadata, c: Chunk) {
    c.position < |sections| && sections[c.position].1 != [] && c == SectionChunk(sections, meta, c.position)
  }

  /** Every chunk is the chunk of a non-empty section. */
  lemma {:induction false} SectionChunksSound(sections: Dict<String>, meta: Metadata, n: nat)
    requires n <= |sections|
    ensures forall c :: c in SectionChunks(sections, meta, n) ==> IsSectionChunk(sections, meta, c) && c.position < n
  {
    if n > 0 {
      SectionChunksSound(sections, meta, n - 1);
    }
  }

  predicate PositionsAscending(cs: seq<Chunk>) {
    forall k, k2 :: 0 <= k < k2 < |cs| ==> cs[k].position < cs[k2].position
  }

  /** Chunks come in dictionary order. */
  lemma {:induction false} SectionChunksOrdered(sections: Dict<String>, meta: Metadata, n: nat)
    requires n <= |sections|
    ensures PositionsAscending(SectionChunks(sections, meta, n))
  {
    if n > 0 {
      SectionChunksOrdered(sections, meta, n - 1);
      var prev := SectionChunks(sections, meta, n - 1);
      if sections[n - 1].1 != [] {
        SectionChunksSound(sections, meta, n - 1);
        var cs := SectionChunks(sections, meta, n);
        assert cs == prev + [SectionChunk(sections, meta, n - 1)];
        forall k, k2 | 0 <= k < k2 < |cs| ensures cs[k].position < cs[k2].position {
          assert cs[k] == prev[k] && prev[k] in prev;
          if k2 < |prev| {
            assert cs[k2] == prev[k2];
          }
        }
      }
    }
  }

  /** Every non-empty section has its chunk. */
  lemma {:induction false} SectionChunksComplete(sections: Dict<String>, meta: Metadata, n: nat, i: nat)
    requires i < n <= |sections| && sections[i].1 != []
    ensures SectionChunk(sections, meta, i) in SectionChunks(sections, meta, n)
  {
    if i < n - 1 {
      SectionChunksComplete(sections, meta, n - 1, i);
    }
  }

  /** The loop of `extract_sections` over the sections dictionary. */
  method ChunkSections(sections: Dict<String>, meta: Metadata) returns (chunks: seq<Chunk>)
    ensures chunks == SectionChunks(sections, meta, |sections|)
  {
    chunks := [];
    var i := 0;
    while i < |sections|
      invariant 0 <= i <= |sections|
      invariant chunks == SectionChunks(sections, meta, i)
    {
      var name := sections[i].0;
      var sectionText := sections[i].1;
      if sectionText != [] {
        chunks := chunks + [Chunk(meta, name, SectionId(name), SectionContent, i, None, sectionText)];
      }
      i := i + 1;
    }
  }

  /** `extract_sections`, given the extracted text. */
  method ExtractSections(text: String, filename: String, m: MetadataMatches) returns (chunks: seq<Chunk>)
    ensures chunks == DocumentChunks(text, filename, m)
  {
    if text == [] {
      return [];
    }
    var meta := ExtractMetadata(filename, m);
    var sections := ExtractStructuredSections(text, HeaderOf, TargetSections);
    chunks := ChunkSections(sections, meta);
  }

  // ----- dense sections -----

  /** The pieces of a split chunk: same metadata, numbered 0..n-1 out of n. */
  function Pieces(c: Chunk, texts: seq<String>): (ps: seq<Chunk>)
    ensures |ps| == |texts|
    ensures forall i :: 0 <= i < |ps| ==> ps[i] == c.(split := Some(SplitInfo(i, |texts|)), text := texts[i])
  {
    seq(|texts|, i requires 0 <= i < |texts| => c.(split := Some(SplitInfo(i, |texts|)), text := texts[i]))
  }

  /** A chunk of more than `maxTokens` words is cut by the splitter; any other passes unchanged. */
  function SplitChunk(c: Chunk, maxTokens: nat, splitter: String -> seq<String>): seq<Chunk> {
    if |Words(c.text)| > maxTokens then Pieces(c, splitter(c.text)) else [c]
  }

  /** `SplitChunk` as a function value. */
  function Splitting(maxTokens: nat, splitter: String -> seq<String>): Chunk -> seq<Chunk> {
    c => SplitChunk(c, maxTokens, splitter)
  }

  /** `split_dense_sections`, with the text splitter as a parameter. */
  function SplitDense(cs: seq<Chunk>, maxTokens: nat, splitter: String -> seq<String>): seq<Chunk> {
    Seqs.FlatMap(cs, Splitting(maxTokens, splitter))
  }

  /** The inner loop of `split_dense_sections`: append the pieces of a dense chunk. */
  method AppendPieces(result: seq<Chunk>, c: Chunk, texts: seq<String>) returns (r: seq<Chunk>)
    ensures r == result + Pieces(c, texts)
  {
    r := result;
    var j := 0;
    while j < |texts|
      invariant 0 <= j <= |texts|
      invariant r == result + Pieces(c, texts)[..j]
    {
      r := r + [c.(split := Some(SplitInfo(j, |texts|)), text := texts[j])];
      j := j + 1;
      assert Pieces(c, texts)[..j] == Pieces(c, texts)[..j - 1] + [Pieces(c, texts)[j - 1]];
    }
    assert Pieces(c, texts)[..j] == Pieces(c, texts);
  }

  /** The loops of `split_dense_sections`. */
  method SplitDenseSections(cs: seq<Chunk>, maxTokens: nat, splitter: String -> seq<String>) returns (result: seq<Chunk>)
    ensures result == SplitDense(cs, maxTokens, splitter)
  {
    result := [];
    var i := 0;
    while i < |cs|
      invariant 0 <= i <= |cs|
      invariant result == SplitDense(cs[..i], maxTokens, splitter)
    {
      var c := cs[i];
      if |Words(c.text)| > maxTokens {
        result := AppendPieces(result, c, splitter(c.text));
      } else {
        result := result + [c];
      }
      SplitDensePrefix(cs, i, maxTokens, splitter);
      i := i + 1;
    }
    assert cs[..i] == cs;
  }

  lemma SplitDensePrefix(cs: seq<Chunk>, i: nat, maxTokens: nat, splitter: String -> seq<String>)
    requires i < |cs|
    ensures SplitDense(cs[..i + 1], maxTokens, splitter) == SplitDense(cs[..i], maxTokens, splitter) + SplitChunk(cs[i], maxTokens, splitter)
  {
    assert cs[..i + 1] == cs[..i] + [cs[i]];
    SplitDenseSnoc(cs[..i], cs[i], maxTokens, splitter);
  }

  lemma SplitDenseSnoc(cs: seq<Chunk>, c: Chunk, maxTokens: nat, splitter: String -> seq<String>)
    ensures SplitDense(cs + [c], maxTokens, splitter) == SplitDense(cs, maxTokens, splitter) + SplitChunk(c, maxTokens, splitter)
  {
    Seqs.FlatMapAppend(cs, [c], Splitting(maxTokens, splitter));
    assert [c][1..] == [];
  }

  /** Splitting works chunk by chunk: the result for a concatenation is the concatenation of the results. */
  lemma SplitDenseAppend(a: seq<Chunk>, b: seq<Chunk>, maxTokens: nat, splitter: String -> seq<String>)
    ensures SplitDense(a + b, maxTokens, splitter) == SplitDense(a, maxTokens, splitter) + SplitDense(b, maxTokens, splitter)
  {
    Seqs.FlatMapAppend(a, b, Splitting(maxTokens, splitter));
  }

  /** Chunks of at most `maxTokens` words pass through unchanged. */
  lemma {:induction false} ShortChunksUnchanged(cs: seq<Chunk>, maxTokens: nat, splitter: String -> seq<String>)
    requires forall k :: 0 <= k < |cs| ==> |Words(cs[k].text)| <= maxTokens
    ensures SplitDense(cs, maxTokens, splitter) == cs
  {
    var f := Splitting(maxTokens, splitter);
    forall k | 0 <= k < |cs| ensures f(cs[k]) == [cs[k]] {
      assert |Words(cs[k].text)| <= maxTokens;
    }
    Seqs.FlatMapSingletons(cs, f);
  }

  /**
   * A long chunk becomes the splitter's pieces in order, each keeping the chunk's metadata and
   * section fields and numbered `i` out of the number of pieces.
   */
  lemma LongChunkSplit(c: Chunk, maxTokens: nat, splitter: String -> seq<String>)
    requires |Words(c.text)| > maxTokens
    ensures var ps := SplitDense([c], maxTokens, splitter);
      |ps| == |splitter(c.text)| &&
      forall i :: 0 <= i < |ps| ==>
        ps[i].text == splitter(c.text)[i] && ps[i].split == Some(SplitInfo(i, |ps|)) &&
        ps[i].meta == c.meta && ps[i].section == c.section && ps[i].sectionId == c.sectionId &&
        ps[i].position == c.position
  {
    var ps := Pieces(c, splitter(c.text));
    assert SplitDense([c], maxTokens, splitter) == ps by {
      assert [c][1..] == [];
      assert Splitting(maxTokens, splitter)(c) == ps;
      assert SplitDense([c], maxTokens, splitter) == Splitting(maxTokens, splitter)(c) + Seqs.FlatMap([c][1..], Splitting(maxTokens, splitter));
    }
  }
}
