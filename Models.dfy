/**
 * The business rules of the ORM models: the field validators, the completeness score, the
 * term parsed from the "valid from" text, section content normalisation with its word count,
 * the content preview and the course-details dictionary.
 */
module Models {
  import opened Wrappers
  import opened Text
  import opened Scan
  import opened Dicts
  import opened Json

  /**
   * The `@validates` rule shared by `Program.program_code` and `Course.course_code`: a missing,
   * empty or over-long code is rejected, anything else is stored upper-cased.
   */
  function ValidateCode(code: Option<String>): (r: Result<String>)
    ensures r.Ok? <==> code.Some? && 1 <= |code.value| <= 10
    ensures r.Ok? ==> |r.value| == |code.value| && forall i :: 0 <= i < |r.value| ==> !IsLowerLetter(r.value[i])
  {
    if code.None? || code.value == [] || |code.value| > 10 then Err("Course code must be 1-10 characters")
    else Ok(Upper(code.value))
  }

  /** A stored code passes the validator again unchanged. */
  lemma ValidateCodeIdempotent(code: Option<String>)
    requires ValidateCode(code).Ok?
    ensures ValidateCode(Some(ValidateCode(code).value)) == ValidateCode(code)
  {
    UpperIdempotent(code.value);
  }

  /** `Course.credits`: the value is kept as given and must be strictly positive. */
  function ValidateCredits(credits: Dec): (r: Result<Dec>)
    ensures r.Ok? <==> credits.IsPositive()
    ensures r.Ok? ==> r.value == credits
  {
    if credits.units <= 0 then Err("Credits must be positive") else Ok(credits)
  }

  /** The two scores of a course must lie in the closed interval [0, 1]. */
  function ValidateScore(score: Dec): (r: Result<Dec>)
    ensures r.Ok? <==> score.InUnitInterval()
    ensures r.Ok? ==> r.value == score
  {
    if !(0 <= score.units <= Pow10(score.scale)) then Err("score must be between 0.0 and 1.0") else Ok(score)
  }

  /** `calculate_completeness_score`: a step function of the number of sections, in tenths. */
  function CompletenessScore(sectionCount: nat): (r: Dec)
  {
    Dec(if sectionCount >= 8 then 10
        else if sectionCount >= 5 then 8
        else if sectionCount >= 3 then 6
        else if sectionCount >= 1 then 4
        else 0, 1)
  }

  /** More sections never lower the score, and every score passes the score validator. */
  lemma CompletenessScoreMonotone(a: nat, b: nat)
    requires a <= b
    ensures CompletenessScore(a).scale == CompletenessScore(b).scale == 1
    ensures CompletenessScore(a).units <= CompletenessScore(b).units
    ensures ValidateScore(CompletenessScore(a)).Ok?
  {
  }

  /** The score is 0 exactly without sections and 1 exactly from eight sections on. */
  lemma CompletenessScoreBounds(n: nat)
    ensures CompletenessScore(n).units == 0 <==> n == 0
    ensures CompletenessScore(n).units == Pow10(CompletenessScore(n).scale) <==> n >= 8
  {
  }

  /** `(20\d{2})` at position `i`. */
  function YearAt(s: String, i: nat): Option<Hit>
  {
    if i + 4 <= |s| && s[i] == '2' && s[i + 1] == '0' && IsDigit(s[i + 2]) && IsDigit(s[i + 3])
    then Some(Hit(i + 4, s[i..i + 4]))
    else None
  }

  predicate IsYear(y: String) { |y| == 4 && y[0] == '2' && y[1] == '0' && IsDigit(y[2]) && IsDigit(y[3]) }

  /** The season named by the lower-cased text, autumn keywords first, then spring, then summer. */
  function SeasonOf(text: String): Option<String>
  {
    if Contains(text, "autumn") || Contains(text, "fall") || Contains(text, "ht") then Some("Autumn")
    else if Contains(text, "spring") || Contains(text, "vt") then Some("Spring")
    else if Contains(text, "summer") || Contains(text, "st") then Some("Summer")
    else None
  }

  lemma SeasonShape(text: String)
    requires SeasonOf(text).Some?
    ensures |SeasonOf(text).value| == 6 && SeasonOf(text).value in {"Autumn", "Spring", "Summer"}
  {
  }

  /** `y` is the text of the leftmost 20xx in `text`. */
  predicate IsFirstYear(text: String, y: String) {
    exists j :: 0 <= j <= |text| && YearAt(text, j).Some? && y == text[j..j + 4] &&
      forall k :: 0 <= k < j ==> YearAt(text, k).None?
  }

  /** The year found is the text of the leftmost 20xx. */
  lemma YearShape(text: String)
    requires Search(text, YearAt).Some?
    ensures IsYear(Search(text, YearAt).value.group) && IsFirstYear(text, Search(text, YearAt).value.group)
  {
    var y := SearchFrom(text, 0, YearAt);
    assert y == Search(text, YearAt);
    var j :| 0 <= j <= |text| && YearAt(text, j) == y && forall k :: 0 <= k < j ==> YearAt(text, k).None?;
    var g := text[j..j + 4];
    assert y.value.group == g;
    assert g[0] == text[j] && g[1] == text[j + 1] && g[2] == text[j + 2] && g[3] == text[j + 3];
    assert IsYear(g);
    assert IsFirstYear(text, g);
  }

  lemma TermShape(season: String, year: String)
    requires season in {"Autumn", "Spring", "Summer"} && IsYear(year)
    ensures var t := season + " " + year;
      IsTerm(t) && t[..|t| - 5] == season && t[|t| - 4..] == year
  {
    var t := season + " " + year;
    assert t[..|t| - 5] == season && t[|t| - 4..] == year;
  }

  /** A term as stored by `parse_term_from_valid_date`: a season, a space and a year 20xx. */
  predicate IsTerm(t: String) {
    |t| >= 5 && IsYear(t[|t| - 4..]) && t[|t| - 5] == ' ' && t[..|t| - 5] in {"Autumn", "Spring", "Summer"}
  }

  /** The term `parse_term_from_valid_date` derives from the "valid from" text, if any. */
  function TermOf(validFrom: Option<String>): (r: Option<String>)
    ensures r.Some? ==> IsTerm(r.value)
  {
    if validFrom.None? || validFrom.value == [] then None
    else
      var text := Lower(validFrom.value);
      match Search(text, YearAt)
      case None => None
      case Some(year) =>
        match SeasonOf(text)
        case None => None
        case Some(season) =>
          SeasonShape(text);
          YearShape(text);
          TermShape(season, year.group);
          Some(season + " " + year.group)
  }

  /** `re.search(r'(20\d{2})', text)` succeeds. */
  predicate HasYear(text: String) { exists i :: 0 <= i <= |text| && YearAt(text, i).Some? }

  lemma SearchYearIff(text: String)
    ensures Search(text, YearAt).Some? <==> HasYear(text)
  {
    if HasYear(text) {
      var i :| 0 <= i <= |text| && YearAt(text, i).Some?;
    }
  }

  /** A term is derived exactly when the text is non-empty and names both a season and a year 20xx. */
  lemma TermNeedsSeasonAndYear(validFrom: Option<String>)
    ensures TermOf(validFrom).Some? <==>
      validFrom.Some? && validFrom.value != [] && HasYear(Lower(validFrom.value)) && SeasonOf(Lower(validFrom.value)).Some?
  {
    if validFrom.Some? && validFrom.value != [] {
      SearchYearIff(Lower(validFrom.value));
    }
  }

  /** The year is the first 20xx in the text; an autumn keyword wins over spring, and spring over summer. */
  lemma TermPrecedence(validFrom: String)
    requires TermOf(Some(validFrom)).Some?
    ensures var text := Lower(validFrom);
      var t := TermOf(Some(validFrom)).value;
      IsFirstYear(text, t[|t| - 4..]) &&
      (Contains(text, "autumn") || Contains(text, "fall") || Contains(text, "ht") ==> t[..|t| - 5] == "Autumn") &&
      (t[..|t| - 5] == "Summer" ==> !Contains(text, "spring") && !Contains(text, "vt")) &&
      ((!Contains(text, "autumn") && !Contains(text, "fall") && !Contains(text, "ht") &&
        (Contains(text, "spring") || Contains(text, "vt"))) ==> t[..|t| - 5] == "Spring")
  {
    var text := Lower(validFrom);
    TermParts(text, TermOf(Some(validFrom)).value);
  }

  lemma TermParts(text: String, t: String)
    requires Search(text, YearAt).Some? && SeasonOf(text).Some?
    requires t == SeasonOf(text).value + " " + Search(text, YearAt).value.group
    ensures IsFirstYear(text, t[|t| - 4..])
    ensures (Contains(text, "autumn") || Contains(text, "fall") || Contains(text, "ht") ==> t[..|t| - 5] == "Autumn")
    ensures (t[..|t| - 5] == "Summer" ==> !Contains(text, "spring") && !Contains(text, "vt"))
    ensures (!Contains(text, "autumn") && !Contains(text, "fall") && !Contains(text, "ht") &&
             (Contains(text, "spring") || Contains(text, "vt"))) ==> t[..|t| - 5] == "Spring"
  {
    SeasonShape(text);
    YearShape(text);
    TermShape(SeasonOf(text).value, Search(text, YearAt).value.group);
  }

  /** A course, reduced to the fields its methods read and write. */
  class Course {
    var validFromDate: Option<String>
    var term: Option<String>
    var sectionCount: nat
    var contentCompletenessScore: Dec

    constructor (validFromDate: Option<String>, sectionCount: nat)
      ensures this.validFromDate == validFromDate && this.sectionCount == sectionCount
      ensures term == None && contentCompletenessScore == Dec(0, 1)
    {
      this.validFromDate := validFromDate;
      this.sectionCount := sectionCount;
      term := None;
      contentCompletenessScore := Dec(0, 1);
    }

    /** `parse_term_from_valid_date`: sets the term when one can be derived, and leaves it alone otherwise. */
    method ParseTermFromValidDate()
      modifies this
      ensures term == if TermOf(validFromDate).Some? then TermOf(validFromDate) else old(term)
      ensures validFromDate == old(validFromDate) && sectionCount == old(sectionCount)
      ensures contentCompletenessScore == old(contentCompletenessScore)
    {
      if validFromDate.None? || validFromDate.value == [] {
        return;
      }
      var text := Lower(validFromDate.value);
      var year := Search(text, YearAt);
      var season := SeasonOf(text);
      if season.Some? && year.Some? {
        term := Some(season.value + " " + year.value.group);
      }
    }

    /** `update_completeness_score`: the stored score becomes the computed one, which always validates. */
    method UpdateCompletenessScore()
      modifies this
      ensures contentCompletenessScore == CompletenessScore(sectionCount)
      ensures contentCompletenessScore.InUnitInterval()
      ensures validFromDate == old(validFromDate) && sectionCount == old(sectionCount) && term == old(term)
    {
      CompletenessScoreMonotone(sectionCount, sectionCount);
      var checked := ValidateScore(CompletenessScore(sectionCount));
      contentCompletenessScore := checked.value;
    }
  }

  /** What `validate_section_content` stores for a given content. */
  function StoredContent(content: Option<String>): (r: Option<String>)
    ensures r.None? <==> content.None?
    ensures r.Some? ==> (r.value == [] <==> IsBlank(content.value))
    ensures r.Some? && r.value != [] ==> !IsSpace(r.value[0]) && !IsSpace(r.value[|r.value| - 1])
  {
    if content.None? then None
    else if Strip(content.value) == [] then Some([])
    else Some(Strip(content.value))
  }

  /** The word count `validate_section_content` records alongside. */
  function WordCount(content: Option<String>): (n: nat)
    ensures n == 0 <==> content.None? || IsBlank(content.value)
  {
    if content.None? || Strip(content.value) == [] then 0 else |Words(content.value)|
  }

  /** The word count is zero exactly when the stored content is missing or empty. */
  lemma WordCountMatchesStored(content: Option<String>)
    ensures WordCount(content) == 0 <==> StoredContent(content).None? || StoredContent(content).value == []
  {
  }

  class CourseSection {
    var sectionContent: Option<String>
    var wordCount: nat

    constructor ()
      ensures sectionContent == None && wordCount == 0
    {
      sectionContent := None;
      wordCount := 0;
    }

    /** Assigning `section_content` through its validator. */
    method SetSectionContent(content: Option<String>)
      modifies this
      ensures sectionContent == StoredContent(content)
      ensures wordCount == WordCount(content)
    {
      if content.None? {
        wordCount := 0;
        sectionContent := None;
        return;
      }
      if Strip(content.value) == [] {
        wordCount := 0;
        sectionContent := Some([]);
        return;
      }
      wordCount := |Words(content.value)|;
      sectionContent := Some(Strip(content.value));
    }

    /** `content_preview`: at most 100 characters, truncated contents end in "...". */
    function ContentPreview(): (r: String)
      reads this
      ensures |r| <= 100
      ensures sectionContent.None? ==> r == []
      ensures sectionContent.Some? && |sectionContent.value| <= 100 ==> r == sectionContent.value
      ensures sectionContent.Some? && |sectionContent.value| > 100 ==>
        |r| == 100 && r[..97] == sectionContent.value[..97] && EndsWith(r, "...")
    {
      if sectionContent.None? then []
      else if |sectionContent.value| <= 100 then sectionContent.value
      else sectionContent.value[..97] + "..."
    }
  }

  /** The administrative details of a course. */
  datatype CourseDetails = CourseDetails(
    tuitionFee: Option<Dec>, duration: Option<String>, applicationPeriod: Option<String>,
    applicationCode: Option<String>, location: Option<String>, iteration: Option<String>,
    additionalInfo: Option<Dict<Json>>)

  function StrOrNull(s: Option<String>): Json { if s.Some? then JStr(s.value) else JNull }

  /** The six fixed entries, in their order; a zero or missing fee reads as null. */
  function BaseDetails(d: CourseDetails): Dict<Json>
  {
    [("tuition_fee", if d.tuitionFee.Some? && d.tuitionFee.value.IsTruthy() then JNum(d.tuitionFee.value) else JNull),
     ("duration", StrOrNull(d.duration)),
     ("application_period", StrOrNull(d.applicationPeriod)),
     ("application_code", StrOrNull(d.applicationCode)),
     ("location", StrOrNull(d.location)),
     ("iteration", StrOrNull(d.iteration))]
  }

  /** The fixed entries, overridden and extended by a non-empty `additional_info`. */
  function MergedDetails(d: CourseDetails): Dict<Json> {
    if d.additionalInfo.Some? && d.additionalInfo.value != [] then Update(BaseDetails(d), d.additionalInfo.value)
    else BaseDetails(d)
  }

  function NotNull(): Json -> bool { (v: Json) => v != JNull }

  /** `details_dict`: the fixed entries, overridden and extended by a non-empty `additional_info`, without nulls. */
  function DetailsDict(d: CourseDetails): (r: Dict<Json>)
    ensures forall i :: 0 <= i < |r| ==> r[i].1 != JNull
  {
    FilterValues(MergedDetails(d), NotNull())
  }

  /** Every key reads as `additional_info` gives it, else as the fixed entry, and is absent when that is null. */
  lemma DetailsDictGet(d: CourseDetails, k: String)
    requires d.additionalInfo.Some? ==> DistinctKeys(d.additionalInfo.value)
    ensures var extra := if d.additionalInfo.Some? then d.additionalInfo.value else [];
      var v := if k in Keys(extra) then Get(extra, k) else Get(BaseDetails(d), k);
      Get(DetailsDict(d), k) == if v.Some? && v.value != JNull then v else None
    ensures DistinctKeys(DetailsDict(d))
  {
    MergedDetailsGet(d, k);
    FilterValuesGet(MergedDetails(d), NotNull(), k);
    FilterValuesDistinct(MergedDetails(d), NotNull());
  }

  lemma MergedDetailsGet(d: CourseDetails, k: String)
    requires d.additionalInfo.Some? ==> DistinctKeys(d.additionalInfo.value)
    ensures var extra := if d.additionalInfo.Some? then d.additionalInfo.value else [];
      Get(MergedDetails(d), k) == if k in Keys(extra) then Get(extra, k) else Get(BaseDetails(d), k)
    ensures DistinctKeys(MergedDetails(d))
  {
    var base := BaseDetails(d);
    BaseDetailsDistinct(d);
    if d.additionalInfo.Some? && d.additionalInfo.value != [] {
      UpdateGet(base, d.additionalInfo.value, k);
      UpdateDistinct(base, d.additionalInfo.value);
    } else {
      assert MergedDetails(d) == base;
    }
  }

  lemma BaseDetailsDistinct(d: CourseDetails)
    ensures DistinctKeys(BaseDetails(d))
  {
  }
}
