/**
 * The course-document processor's line-based section splitter: header lines are recognised by
 * anchored, case-insensitive patterns, each recognised section runs to the next header, and the
 * sections become metadata-carrying chunks that long sections are split into.
 *
 * The section machinery is stated for any header recogniser and any list of kept sections;
 * the processor's own are `HeaderOf` and `TargetSections`.
 */
module DynamicParser {
  import opened Wrappers
  import opened Text
  import opened Dicts

  // ----- header patterns -----

  /**
   * One entry of the section pattern list: alternatives of words separated by `\s+`, anchored
   * at the start of the line (and at its end too when `exact`), ignoring case.
   */
  datatype HeaderPattern = HeaderPattern(alternatives: seq<seq<String>>, exact: bool, name: String)

  const SectionPatterns: seq<HeaderPattern> := [
    HeaderPattern([["confirmation"]], true, "Confirmation"),
    HeaderPattern([["field", "of", "education"]], false, "Field of education"),
    HeaderPattern([["department"]], false, "Department"),
    HeaderPattern([["position", "in", "the", "educational", "system"]], false, "Position in the educational system"),
    HeaderPattern([["entry", "requirements"]], false, "Entry requirements"),
    HeaderPattern([["learning", "outcomes"]], false, "Learning outcomes"),
    HeaderPattern([["course", "content"]], false, "Course content"),
    HeaderPattern([["sub-courses"]], false, "Sub-courses"),
    HeaderPattern([["form", "of", "teaching"], ["teaching", "forms"]], false, "Form of teaching"),
    HeaderPattern([["assessment"], ["examination"]], false, "Assessment"),
    HeaderPattern([["grades"]], false, "Grades"),
    HeaderPattern([["course", "evaluation"]], false, "Course evaluation"),
    HeaderPattern([["additional", "information"]], false, "Additional information")
  ]

  /** The sections the splitter keeps, in the order of its result. */
  const TargetSections: seq<String> := [
    "Confirmation", "Position in the educational system", "Entry requirements", "Learning outcomes",
    "Course content", "Sub-courses", "Form of teaching", "Assessment", "Grades", "Course evaluation",
    "Additional information"
  ]

  /** The words `ws` from position `i`, separated by runs of whitespace; the end of the match. */
  function WordsAt(line: String, i: nat, ws: seq<String>): (r: Option<nat>)
    requires i <= |line|
    ensures r.Some? ==> i <= r.value <= |line|
    decreases |ws|
  {
    if ws == [] then Some(i)
    else if !WordAtIgnoringCase(line, i, ws[0]) then None
    else if |ws| == 1 then Some(i + |ws[0]|)
    else
      var j := i + |ws[0]|;
      var sp := SpaceRun(line, j);
      if sp == 0 then None else WordsAt(line, j + sp, ws[1..])
  }

  predicate AlternativeMatches(line: String, words: seq<String>, exact: bool) {
    var r := WordsAt(line, 0, words);
    r.Some? && (!exact || r.value == |line|)
  }

  /** `re.search(pattern, line, re.IGNORECASE)` for one entry of the list. */
  predicate PatternMatches(p: HeaderPattern, line: String) {
    exists a :: 0 <= a < |p.alternatives| && AlternativeMatches(line, p.alternatives[a], p.exact)
  }

  /** The name of the first pattern in `ps` that matches the line. */
  function FirstHeader(line: String, ps: seq<HeaderPattern>): (r: Option<String>)
    ensures r.None? <==> forall k :: 0 <= k < |ps| ==> !PatternMatches(ps[k], line)
    ensures r.Some? ==> exists k :: 0 <= k < |ps| && PatternMatches(ps[k], line) && ps[k].name == r.value &&
                                   forall k2 :: 0 <= k2 < k ==> !PatternMatches(ps[k2], line)
    decreases |ps|
  {
    if ps == [] then None
    else if PatternMatches(ps[0], line) then Some(ps[0].name)
    else
      var r := FirstHeader(line, ps[1..]);
      assert forall k :: 1 <= k < |ps| ==> ps[1..][k - 1] == ps[k];
      r
  }

  /** The section a line opens, if it is a header line. */
  function HeaderOf(line: String): Option<String> { FirstHeader(line, SectionPatterns) }

  // ----- boundaries -----

  type Boundary = (nat, String)

  /** The header lines among the first `n` lines, as (line number, section name), in line order. */
  function Boundaries(lines: seq<String>, n: nat, header: String -> Option<String>): (bs: seq<Boundary>)
    requires n <= |lines|
    ensures forall k :: 0 <= k < |bs| ==> bs[k].0 < n && header(lines[bs[k].0]) == Some(bs[k].1)
  {
    if n == 0 then []
    else
      var h := header(lines[n - 1]);
      Boundaries(lines, n - 1, header) + (if h.Some? then [(n - 1, h.value)] else [])
  }

  predicate StrictlyAscending(bs: seq<Boundary>) {
    forall k, k2 :: 0 <= k < k2 < |bs| ==> bs[k].0 < bs[k2].0
  }

  /** Boundaries come in strictly increasing line order, so the source's sort leaves them as they are. */
  lemma {:induction false} BoundariesAscending(lines: seq<String>, n: nat, header: String -> Option<String>)
    requires n <= |lines|
    ensures StrictlyAscending(Boundaries(lines, n, header))
  {
    if n > 0 {
      BoundariesAscending(lines, n - 1, header);
    }
  }

  /** A line is a boundary exactly when the recogniser names it. */
  lemma {:induction false} BoundaryIff(lines: seq<String>, n: nat, header: String -> Option<String>, i: nat)
    requires i < n <= |lines|
    ensures (exists k :: 0 <= k < |Boundaries(lines, n, header)| && Boundaries(lines, n, header)[k].0 == i)
            <==> header(lines[i]).Some?
  {
    var bs := Boundaries(lines, n, header);
    var prev := Boundaries(lines, n - 1, header);
    if i < n - 1 {
      BoundaryIff(lines, n - 1, header, i);
      if header(lines[i]).Some? {
        var k :| 0 <= k < |prev| && prev[k].0 == i;
        assert bs[k] == prev[k];
      }
    } else if header(lines[i]).Some? {
      assert bs[|prev|].0 == i;
    }
  }

  /** The loop that records the boundaries. */
  method CollectBoundaries(lines: seq<String>, header: String -> Option<String>) returns (bs: seq<Boundary>)
    ensures bs == Boundaries(lines, |lines|, header)
  {
    bs := [];
    var i := 0;
    while i < |lines|
      invariant 0 <= i <= |lines|
      invariant bs == Boundaries(lines, i, header)
    {
      var h := header(lines[i]);
      if h.Some? {
        bs := bs + [(i, h.value)];
      }
      i := i + 1;
    }
  }

  // ----- sections -----

  /** Every kept section mapped to "". */
  function InitialSections(targets: seq<String>): (d: Dict<String>)
    ensures Keys(d) == targets
  {
    if targets == [] then [] else [(targets[0], "")] + InitialSections(targets[1..])
  }

  lemma {:induction false} InitialIsBlank(targets: seq<String>, name: String)
    requires name in targets
    ensures Get(InitialSections(targets), name) == Some("")
  {
    if targets[0] != name {
      InitialIsBlank(targets[1..], name);
    }
  }

  predicate WellFormed(lines: seq<String>, bs: seq<Boundary>) {
    StrictlyAscending(bs) && forall k :: 0 <= k < |bs| ==> bs[k].0 < |lines|
  }

  /** Where the `k`-th section ends: at the next boundary, or at the end of the document. */
  function SectionEnd(lines: seq<String>, bs: seq<Boundary>, k: nat): (e: nat)
    requires WellFormed(lines, bs) && k < |bs|
    ensures bs[k].0 < e <= |lines|
  {
    if k + 1 < |bs| then bs[k + 1].0 else |lines|
  }

  /** The text of the `k`-th section: its lines up to the next boundary, joined and stripped. */
  function SectionText(lines: seq<String>, bs: seq<Boundary>, k: nat): String
    requires WellFormed(lines, bs) && k < |bs|
  {
    Strip(Join(lines[bs[k].0..SectionEnd(lines, bs, k)], "\n"))
  }

  /** The dictionary after the first `n` boundaries have been visited. */
  function Fill(lines: seq<String>, bs: seq<Boundary>, n: nat, targets: seq<String>): Dict<String>
    requires WellFormed(lines, bs) && n <= |bs|
  {
    if n == 0 then InitialSections(targets)
    else
      var d := Fill(lines, bs, n - 1, targets);
      if bs[n - 1].1 in targets then Set(d, bs[n - 1].1, SectionText(lines, bs, n - 1)) else d
  }

  function Lines(text: String): seq<String> { SplitOn(text, '\n') }

  /** `extract_structured_sections` for a given recogniser and list of kept sections. */
  function Sections(text: String, header: String -> Option<String>, targets: seq<String>): Dict<String> {
    var lines := Lines(text);
    BoundariesAscending(lines, |lines|, header);
    var bs := Boundaries(lines, |lines|, header);
    Fill(lines, bs, |bs|, targets)
  }

  /** `extract_structured_sections` of the processor. */
  function StructuredSections(text: String): Dict<String> { Sections(text, HeaderOf, TargetSections) }

  /** The loop of `extract_structured_sections`. */
  method ExtractStructuredSections(text: String, header: String -> Option<String>, targets: seq<String>)
    returns (sections: Dict<String>)
    ensures sections == Sections(text, header, targets)
  {
    var lines := Lines(text);
    var bs := CollectBoundaries(lines, header);
    BoundariesAscending(lines, |lines|, header);
    sections := FillSections(lines, bs, targets);
  }

  /** The second loop: each kept section takes the text up to the next boundary. */
  method FillSections(lines: seq<String>, bs: seq<Boundary>, targets: seq<String>) returns (sections: Dict<String>)
    requires WellFormed(lines, bs)
    ensures sections == Fill(lines, bs, |bs|, targets)
  {
    sections := InitialSections(targets);
    var k := 0;
    while k < |bs|
      invariant 0 <= k <= |bs|
      invariant sections == Fill(lines, bs, k, targets)
    {
      var start := bs[k].0;
      var name := bs[k].1;
      FillStep(lines, bs, k, targets);
      k := k + 1;
      if name !in targets {
        continue;
      }
      var stop := if k < |bs| then bs[k].0 else |lines|;
      assert stop == SectionEnd(lines, bs, k - 1);
      var content := Strip(Join(lines[start..stop], "\n"));
      sections := Set(sections, name, content);
    }
  }

  lemma FillStep(lines: seq<String>, bs: seq<Boundary>, k: nat, targets: seq<String>)
    requires WellFormed(lines, bs) && k < |bs|
    ensures Fill(lines, bs, k + 1, targets) ==
      if bs[k].1 in targets then Set(Fill(lines, bs, k, targets), bs[k].1, SectionText(lines, bs, k))
      else Fill(lines, bs, k, targets)
  {
  }

  /** The last of the first `n` boundaries that opens section `name`. */
  function LastWith(bs: seq<Boundary>, name: String, n: nat): (r: Option<nat>)
    requires n <= |bs|
    ensures r.Some? ==> r.value < n && bs[r.value].1 == name && forall k :: r.value < k < n ==> bs[k].1 != name
    ensures r.None? ==> forall k :: 0 <= k < n ==> bs[k].1 != name
  {
    if n == 0 then None
    else if bs[n - 1].1 == name then Some(n - 1)
    else LastWith(bs, name, n - 1)
  }

  /** Filling keeps the kept sections as keys, in their order. */
  lemma {:induction false} FillKeys(lines: seq<String>, bs: seq<Boundary>, n: nat, targets: seq<String>)
    requires WellFormed(lines, bs) && n <= |bs|
    ensures Keys(Fill(lines, bs, n, targets)) == targets
  {
    if n > 0 {
      FillKeys(lines, bs, n - 1, targets);
      if bs[n - 1].1 in targets {
        SetKeys(Fill(lines, bs, n - 1, targets), bs[n - 1].1, SectionText(lines, bs, n - 1));
      }
    }
  }

  /** The text of the last of the first `n` sections named `name`, or "". */
  function LastText(lines: seq<String>, bs: seq<Boundary>, n: nat, name: String): String
    requires WellFormed(lines, bs) && n <= |bs|
  {
    var last := LastWith(bs, name, n);
    if last.Some? then SectionText(lines, bs, last.value) else ""
  }

  /** A kept section holds the text of its last header, or "" when it has none. */
  lemma {:induction false} FillGet(lines: seq<String>, bs: seq<Boundary>, n: nat, targets: seq<String>, name: String)
    requires WellFormed(lines, bs) && n <= |bs| && name in targets
    ensures Get(Fill(lines, bs, n, targets), name) == Some(LastText(lines, bs, n, name))
  {
    if n == 0 {
      InitialIsBlank(targets, name);
    } else {
      FillGet(lines, bs, n - 1, targets, name);
      FillGetStep(lines, bs, n, targets, name);
    }
  }

  lemma FillGetStep(lines: seq<String>, bs: seq<Boundary>, n: nat, targets: seq<String>, name: String)
    requires WellFormed(lines, bs) && 0 < n <= |bs| && name in targets
    requires Get(Fill(lines, bs, n - 1, targets), name) == Some(LastText(lines, bs, n - 1, name))
    ensures Get(Fill(lines, bs, n, targets), name) == Some(LastText(lines, bs, n, name))
  {
    var other := bs[n - 1].1;
    var d := Fill(lines, bs, n - 1, targets);
    var t := SectionText(lines, bs, n - 1);
    LastTextStep(lines, bs, n, name);
    if other != name && other in targets {
      SetGetOther(d, other, t, name);
    }
  }

  lemma LastTextStep(lines: seq<String>, bs: seq<Boundary>, n: nat, name: String)
    requires WellFormed(lines, bs) && 0 < n <= |bs|
    ensures LastText(lines, bs, n, name) ==
      if bs[n - 1].1 == name then SectionText(lines, bs, n - 1) else LastText(lines, bs, n - 1, name)
  {
    if bs[n - 1].1 == name {
      LastTextHit(lines, bs, n, name);
    } else {
      LastTextMiss(lines, bs, n, name);
    }
  }

  lemma LastTextHit(lines: seq<String>, bs: seq<Boundary>, n: nat, name: String)
    requires WellFormed(lines, bs) && 0 < n <= |bs| && bs[n - 1].1 == name
    ensures LastText(lines, bs, n, name) == SectionText(lines, bs, n - 1)
  {
    LastWithStep(bs, name, n);
    var last := LastWith(bs, name, n);
    assert last.Some? && last.value == n - 1;
  }

  lemma LastTextMiss(lines: seq<String>, bs: seq<Boundary>, n: nat, name: String)
    requires WellFormed(lines, bs) && 0 < n <= |bs| && bs[n - 1].1 != name
    ensures LastText(lines, bs, n, name) == LastText(lines, bs, n - 1, name)
  {
    LastWithStep(bs, name, n);
  }

  lemma LastWithStep(bs: seq<Boundary>, name: String, n: nat)
    requires 0 < n <= |bs|
    ensures LastWith(bs, name, n) == if bs[n - 1].1 == name then Some(n - 1) else LastWith(bs, name, n - 1)
  {
  }

  /** The text under the last header line of section `name`, or "" when there is none. */
  function LastSectionText(text: String, header: String -> Option<String>, name: String): String {
    var lines := Lines(text);
    BoundariesAscending(lines, |lines|, header);
    var bs := Boundaries(lines, |lines|, header);
    LastText(lines, bs, |bs|, name)
  }

  /**
   * The result has exactly the kept sections as keys, in their order; each holds the text of
   * its last header line (a repeated header overwrites), or "" when the document has none; a
   * recognised section that is not kept (such as "Field of education" or "Department") only
   * ends the section before it.
   */
  lemma SectionsSpec(text: String, header: String -> Option<String>, targets: seq<String>, name: String)
    ensures Keys(Sections(text, header, targets)) == targets
    ensures name in targets ==> Get(Sections(text, header, targets), name) == Some(LastSectionText(text, header, name))
    ensures name !in targets ==> Get(Sections(text, header, targets), name).None?
  {
    var lines := Lines(text);
    BoundariesAscending(lines, |lines|, header);
    var bs := Boundaries(lines, |lines|, header);
    FillKeys(lines, bs, |bs|, targets);
    if name in targets {
      FillGet(lines, bs, |bs|, targets, name);
    }
  }

  /** A section's lines start with its header line: text before the first header is never kept. */
  lemma SectionStartsAtHeader(lines: seq<String>, bs: seq<Boundary>, k: nat)
    requires WellFormed(lines, bs) && k < |bs|
    ensures StartsWith(Join(lines[bs[k].0..SectionEnd(lines, bs, k)], "\n"), lines[bs[k].0])
  {
    var part := lines[bs[k].0..SectionEnd(lines, bs, k)];
    if |part| > 1 {
      assert part == [part[0]] + part[1..];
      JoinCons(part[0], part[1..], "\n");
    }
  }
}
