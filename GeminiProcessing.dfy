/**
 * The pure rules the Gemini content processor applies before it stores a parsed course:
 * the course code read off a file name, programme codes, language and cycle normalisation,
 * credit parsing, the shape check on the parsed JSON and the programme whitelist.
 */
module GeminiProcessing {
  import opened Wrappers
  import opened Text
  import opened Scan
  import opened Seqs
  import opened Dicts
  import opened Json
  import opened Codes
  import Paths
  import Models

  /** `[A-Z]{2,3}\d{3,4}`, the course-code pattern of the processor. */
  const CourseShape := CodeShape(2, 3, 3, 4, false, false)

  /** The same pattern between word boundaries, `\b([A-Z]{2,3}\d{3,4})\b`. */
  const BoundedCourseShape := CodeShape(2, 3, 3, 4, false, true)

  /** `re.match('^P$', s)`: `$` also matches just before a final newline. */
  predicate MatchesAnchored(shape: CodeShape, s: String) {
    IsCode(shape, s) || (|s| > 0 && s[|s| - 1] == '\n' && IsCode(shape, s[..|s| - 1]))
  }

  /** `s.split(sep)[0]`: everything before the first `sep`. */
  function BeforeFirst(s: String, sep: char): (r: String)
    ensures sep !in r && StartsWith(s, r)
    ensures r == s || s[|r|] == sep
  {
    var n := Run(s, 0, c => c != sep);
    assert sep !in s[..n] by { forall k | 0 <= k < n ensures s[..n][k] != sep { } }
    s[..n]
  }

  /**
   * `_extract_course_code_from_path`: the upper-cased file name without its extension, cut
   * at the first '_', when that is a course code.
   */
  function CourseCodeFromPath(path: String): (r: Option<String>)
    ensures r.Some? ==> MatchesAnchored(CourseShape, r.value) && '_' !in r.value
    ensures r.Some? ==> StartsWith(Upper(Paths.SplitExt(Paths.Basename(path)).0), r.value)
  {
    var code := BeforeFirst(Upper(Paths.SplitExt(Paths.Basename(path)).0), '_');
    if MatchesAnchored(CourseShape, code) then Some(code) else None
  }

  /** A syllabus PDF named after its course code yields that code. */
  lemma CourseCodeFromPdfName(c: String)
    requires IsCode(CourseShape, c)
    ensures CourseCodeFromPath(c + ".pdf") == Some(c)
  {
    CodeCharacters(c);
    var name := c + ".pdf";
    PdfNameHasNoSlash(c);
    Paths.BasenameWithoutSlash(name);
    PdfNameSplits(c);
    UpperOfUpper(c);
    BeforeFirstAbsent(c, '_');
  }

  /** A course code is made of upper-case letters and digits only. */
  lemma CodeCharacters(c: String)
    requires IsCode(CourseShape, c)
    ensures c != [] && forall k :: 0 <= k < |c| ==> IsAsciiUpper(c[k]) || IsDigit(c[k])
  {
  }

  lemma PdfNameHasNoSlash(c: String)
    requires forall k :: 0 <= k < |c| ==> IsAsciiUpper(c[k]) || IsDigit(c[k])
    ensures '/' !in c + ".pdf"
  {
    var name := c + ".pdf";
    forall k | 0 <= k < |name| ensures name[k] != '/' {
      if k < |c| { assert name[k] == c[k]; }
    }
  }

  lemma PdfNameSplits(c: String)
    requires c != [] && forall k :: 0 <= k < |c| ==> IsAsciiUpper(c[k]) || IsDigit(c[k])
    ensures Paths.SplitExt(c + ".pdf").0 == c
  {
    var name := c + ".pdf";
    assert name[|c|] == '.' && name[|c| + 1..] == "pdf";
    assert Paths.LastIndexOf(name, '.') == Some(|c|);
    assert name[0] == c[0];
    assert name[..|c|] == c;
  }

  lemma UpperOfUpper(c: String)
    requires forall k :: 0 <= k < |c| ==> IsAsciiUpper(c[k]) || IsDigit(c[k])
    ensures Upper(c) == c
  {
  }

  lemma BeforeFirstAbsent(s: String, sep: char)
    requires sep !in s
    ensures BeforeFirst(s, sep) == s
  {
  }

  // ----- programme codes -----

  predicate IsProgramCodeChar(c: char) { IsAsciiUpper(c) || IsDigit(c) }

  /** What `\(([A-Z0-9]{5,6})\)` captures. */
  predicate IsParenCode(g: String) {
    5 <= |g| <= 6 && forall k :: 0 <= k < |g| ==> IsProgramCodeChar(g[k])
  }

  /** What `\b([A-Z]\d[A-Z]{3})\b` captures. */
  predicate IsStandaloneCode(g: String) {
    |g| == 5 && IsAsciiUpper(g[0]) && IsDigit(g[1]) && IsAsciiUpper(g[2]) && IsAsciiUpper(g[3]) && IsAsciiUpper(g[4])
  }

  /** `\(([A-Z0-9]{5,6})\)` at position `i`: a 5- or 6-character run closed by ')'. */
  function ParenCodeAt(s: String, i: nat): (r: Option<Hit>)
    ensures r.Some? ==> IsParenCode(r.value.group) && i < r.value.end <= |s|
  {
    if i < |s| && s[i] == '(' then
      var n := Run(s, i + 1, IsProgramCodeChar);
      if (n == 5 || n == 6) && i + 1 + n < |s| && s[i + 1 + n] == ')' then
        Some(Hit(i + 2 + n, s[i + 1..i + 1 + n]))
      else None
    else None
  }

  /** `\b([A-Z]\d[A-Z]{3})\b` at position `i`. */
  function StandaloneCodeAt(s: String, i: nat): (r: Option<Hit>)
    ensures r.Some? ==> IsStandaloneCode(r.value.group) && i < r.value.end <= |s|
  {
    if i + 5 <= |s| && !(0 < i && IsWordChar(s[i - 1])) && IsStandaloneCode(s[i..i + 5])
       && (i + 5 == |s| || !IsWordChar(s[i + 5]))
    then Some(Hit(i + 5, s[i..i + 5]))
    else None
  }

  /** `_extract_codes_from_string`: parenthesised codes, or else standalone ones. */
  function CodesFromString(text: String): (r: seq<String>)
    ensures (forall g :: g in r ==> IsParenCode(g)) || (forall g :: g in r ==> IsStandaloneCode(g))
  {
    var paren := FindAll(text, ParenCodeAt);
    if paren != [] then paren else FindAll(text, StandaloneCodeAt)
  }

  /** A parenthesised code anywhere wins: then only parenthesised codes are returned. */
  lemma ParenCodesTakePrecedence(text: String, j: nat)
    requires j <= |text| && ParenCodeAt(text, j).Some?
    ensures CodesFromString(text) != [] && forall g :: g in CodesFromString(text) ==> IsParenCode(g)
  {
    FindAllFromFinds(text, 0, j, ParenCodeAt);
  }

  /** Standalone codes are looked for only when no parenthesised code occurs. */
  lemma StandaloneOnlyWithoutParens(text: String)
    requires forall j :: 0 <= j <= |text| ==> ParenCodeAt(text, j).None?
    ensures CodesFromString(text) == FindAll(text, StandaloneCodeAt)
  {
  }

  /** The `programmes` metadata value as loaded from JSON. */
  datatype Programmes =
    | Missing
    | Text(s: String)
    | List(items: seq<String>)
    | Other(truthy: bool)
  {
    predicate IsTruthy() {
      match this
      case Missing => false
      case Text(s) => s != []
      case List(items) => items != []
      case Other(t) => t
    }
  }

  /** The codes of all items, in item order, before de-duplication. */
  function CodesOfItems(items: seq<String>): (r: seq<String>)
    ensures forall g :: g in r ==> IsParenCode(g) || IsStandaloneCode(g)
  {
    var r := FlatMap(items, CodesFromString);
    assert forall g :: g in r ==> IsParenCode(g) || IsStandaloneCode(g) by {
      forall g | g in r ensures IsParenCode(g) || IsStandaloneCode(g) {
        FlatMapSource(items, CodesFromString, g);
      }
    }
    r
  }

  function RawProgramCodes(f: Programmes): seq<String> {
    match f
    case Text(s) => CodesFromString(s)
    case List(items) => CodesOfItems(items)
    case _ => []
  }

  /** `extract_program_codes`: every code found, each once. */
  function ExtractProgramCodes(f: Programmes): (r: seq<String>)
    ensures Distinct(r)
    ensures !f.IsTruthy() ==> r == []
    ensures forall c :: c in r <==> c in RawProgramCodes(f)
    ensures forall c :: c in r ==> IsParenCode(c) || IsStandaloneCode(c)
  {
    if !f.IsTruthy() then [] else Dedup(RawProgramCodes(f))
  }

  /** A code of any single list item is among the extracted codes. */
  lemma ItemCodesExtracted(items: seq<String>, k: nat, c: String)
    requires k < |items| && c in CodesFromString(items[k])
    ensures c in ExtractProgramCodes(List(items))
  {
    FlatMapMember(items, CodesFromString, k, c);
    assert List(items).IsTruthy();
  }

  // ----- language and cycle -----

  /** `normalize_language_instruction`. */
  function NormalizeLanguage(language: Option<String>): (r: Option<String>)
    ensures r.None? <==> language.None? || IsBlank(language.value)
    ensures language.Some? && !IsBlank(language.value) ==>
      var lower := Lower(Strip(language.value));
      r.value == (if Contains(lower, "english") && Contains(lower, "swedish") then "EN,SV"
                  else if Contains(lower, "english") then "EN"
                  else if Contains(lower, "swedish") then "SV"
                  else Strip(language.value))
  {
    if language.None? || language.value == [] then None
    else
      var s := Strip(language.value);
      if s == [] then None
      else
        var lower := Lower(s);
        if Contains(lower, "english") && Contains(lower, "swedish") then Some("EN,SV")
        else if Contains(lower, "english") then Some("EN")
        else if Contains(lower, "swedish") then Some("SV")
        else Some(s)
  }

  /** `sub` cannot occur in a string shorter than it. */
  lemma ContainsTooLong(s: String, sub: String)
    requires |s| < |sub|
    ensures !Contains(s, sub)
  {
    ContainsSpec(s, sub);
  }

  /** `sub` cannot occur in a string that lacks one of its characters. */
  lemma ContainsMissingChar(s: String, sub: String, k: nat)
    requires k < |sub| && sub[k] !in s
    ensures !Contains(s, sub)
  {
    ContainsSpec(s, sub);
    forall i | 0 <= i && i + |sub| <= |s| ensures !OccursAt(s, sub, i) {
      assert s[i + k] in s;
      assert s[i..i + |sub|][k] != sub[k];
    }
  }

  /** Normalising a normalised language changes nothing. */
  lemma NormalizeLanguageIdempotent(language: Option<String>)
    requires NormalizeLanguage(language).Some?
    ensures NormalizeLanguage(NormalizeLanguage(language)) == NormalizeLanguage(language)
  {
    var r := NormalizeLanguage(language).value;
    if r == "EN,SV" || r == "EN" || r == "SV" {
      LanguageCodeFixed(r);
    } else {
      UnrecognisedLanguageFixed(language.value);
    }
  }

  /** A language code is its own normal form. */
  lemma LanguageCodeFixed(r: String)
    requires r == "EN,SV" || r == "EN" || r == "SV"
    ensures NormalizeLanguage(Some(r)) == Some(r)
  {
    assert r[0] in "ES" && r[|r| - 1] in "NV";
    ShortLanguageFixed(r);
  }

  /** A short unpadded text names no language and is kept as it is. */
  lemma ShortLanguageFixed(r: String)
    requires 0 < |r| < |"english"| && !IsSpace(r[0]) && !IsSpace(r[|r| - 1])
    ensures NormalizeLanguage(Some(r)) == Some(r)
  {
    StripUnpadded(r);
    assert |Lower(r)| == |r|;
    ContainsTooLong(Lower(r), "english");
    ContainsTooLong(Lower(r), "swedish");
  }

  /** An unrecognised language is kept stripped, and stripping again changes nothing. */
  lemma UnrecognisedLanguageFixed(language: String)
    requires !IsBlank(language)
    requires var lower := Lower(Strip(language)); !Contains(lower, "english") && !Contains(lower, "swedish")
    ensures NormalizeLanguage(Some(Strip(language))) == Some(Strip(language))
  {
    StripIdempotent(language);
  }

  /** Recognised languages are found whatever their case. */
  lemma NormalizeLanguageIgnoresCase(a: String, b: String)
    requires Lower(Strip(a)) == Lower(Strip(b))
    ensures NormalizeLanguage(Some(a)) == NormalizeLanguage(Some(b))
         || (NormalizeLanguage(Some(a)) == Some(Strip(a)) && NormalizeLanguage(Some(b)) == Some(Strip(b)))
  {
    assert IsBlank(a) <==> IsBlank(b) by {
      assert |Strip(a)| == |Lower(Strip(a))| && |Strip(b)| == |Lower(Strip(b))|;
    }
  }

  const FirstCycle: String := "First cycle"
  const SecondCycle: String := "Second cycle"
  const ThirdCycle: String := "Third cycle"

  /** The cycle stored for a course: the first of first/second/third found, else second cycle. */
  function NormalizeCycle(cycle: Option<String>): (r: String)
    ensures r == FirstCycle || r == SecondCycle || r == ThirdCycle
    ensures r == FirstCycle <==> cycle.Some? && Contains(Lower(cycle.value), "first")
    ensures r == ThirdCycle <==> cycle.Some? && !Contains(Lower(cycle.value), "first")
                                 && !Contains(Lower(cycle.value), "second") && Contains(Lower(cycle.value), "third")
  {
    if cycle.None? || cycle.value == [] then
      assert cycle.Some? ==> !Contains(Lower(cycle.value), "first") && !Contains(Lower(cycle.value), "third") by {
        if cycle.Some? {
          ContainsTooLong(Lower(cycle.value), "first");
          ContainsTooLong(Lower(cycle.value), "third");
        }
      }
      SecondCycle
    else
      var s := Lower(cycle.value);
      if Contains(s, "first") then FirstCycle
      else if Contains(s, "second") then SecondCycle
      else if Contains(s, "third") then ThirdCycle
      else SecondCycle
  }

  // ----- credits -----

  /** The unit word `credits?|hp|högskolepoäng` at `j`, ignoring case: its length. */
  function UnitWordAt(s: String, j: nat): (n: nat)
    ensures n == 0 || j + n <= |s|
  {
    if WordAtIgnoringCase(s, j, "credit") then
      if j + 6 < |s| && LowerChar(s[j + 6]) == 's' then 7 else 6
    else if WordAtIgnoringCase(s, j, "hp") then 2
    else if WordAtIgnoringCase(s, j, "högskolepoäng") then 13
    else 0
  }

  /**
   * `\s*(credits?|hp|högskolepoäng)\s*` at `i`: the end of the match. Leading whitespace is
   * taken greedily; giving some back cannot help, since no unit word starts with whitespace.
   */
  function UnitAt(s: String, i: nat): (r: Option<nat>)
    ensures r.Some? ==> i < r.value <= |s|
  {
    var w := SpaceRun(s, i);
    var n := UnitWordAt(s, i + w);
    if n == 0 then None else Some(i + w + n + SpaceRun(s, i + w + n))
  }

  /** `re.sub` of the unit pattern by '' from position `i`. */
  function RemoveUnitsFrom(s: String, i: nat): (r: String)
    ensures |r| <= |s| - i || (i > |s| && r == [])
    decreases |s| - i
  {
    if i >= |s| then []
    else
      match UnitAt(s, i)
      case Some(e) => RemoveUnitsFrom(s, e)
      case None => [s[i]] + RemoveUnitsFrom(s, i + 1)
  }

  function RemoveUnits(s: String): String { RemoveUnitsFrom(s, 0) }

  /** `s[i..m]` holds neither letters nor whitespace. */
  predicate Plain(s: String, i: nat, m: nat)
    requires i <= m <= |s|
  {
    forall k :: i <= k < m ==> !IsLetter(s[k]) && !IsSpace(s[k])
  }

  /** No match of the unit pattern starts inside `s[i..m]`. */
  predicate NoUnitIn(s: String, i: nat, m: nat) {
    forall k :: i <= k < m ==> UnitAt(s, k).None?
  }

  /** Removal copies unchanged any stretch where no match of the unit pattern starts. */
  lemma {:induction false} RemoveUnitsCopies(s: String, i: nat, m: nat)
    requires i <= m <= |s| && NoUnitIn(s, i, m)
    ensures RemoveUnitsFrom(s, i) == s[i..m] + RemoveUnitsFrom(s, m)
    decreases m - i
  {
    if i < m {
      assert NoUnitIn(s, i + 1, m);
      RemoveUnitsCopies(s, i + 1, m);
      RemoveUnitsCopiesOne(s, i);
      SliceCons(s, i, m);
      ConcatAssoc([s[i]], s[i + 1..m], RemoveUnitsFrom(s, m));
    }
  }

  lemma ConcatAssoc(a: String, b: String, c: String)
    ensures a + (b + c) == (a + b) + c
  {
  }

  lemma SliceCons(s: String, i: nat, m: nat)
    requires i < m <= |s|
    ensures s[i..m] == [s[i]] + s[i + 1..m]
  {
  }

  lemma RemoveUnitsCopiesOne(s: String, i: nat)
    requires i < |s| && UnitAt(s, i).None?
    ensures RemoveUnitsFrom(s, i) == [s[i]] + RemoveUnitsFrom(s, i + 1)
  {
  }

  /** A stretch without letters or whitespace holds no match of the unit pattern. */
  lemma PlainHasNoUnit(s: String, i: nat, m: nat)
    requires i <= m <= |s| && Plain(s, i, m)
    ensures NoUnitIn(s, i, m)
  {
    forall k | i <= k < m ensures UnitAt(s, k).None? { NoUnitAt(s, k); }
  }

  /** No match starts at a character that is neither a letter nor whitespace. */
  lemma NoUnitAt(s: String, i: nat)
    requires i < |s| && !IsLetter(s[i]) && !IsSpace(s[i])
    ensures UnitAt(s, i).None?
  {
    assert SpaceRun(s, i) == 0;
    assert LowerChar(s[i + 0]) == s[i];
    assert !WordAtIgnoringCase(s, i, "credit") by { assert "credit"[0] == 'c'; }
    assert !WordAtIgnoringCase(s, i, "hp") by { assert "hp"[0] == 'h'; }
    assert !WordAtIgnoringCase(s, i, "högskolepoäng") by { assert "högskolepoäng"[0] == 'h'; }
  }

  /** `(\d+(?:\.\d+)?)` at `i`: digits, optionally followed by a dot and more digits. */
  function NumberAt(s: String, i: nat): (r: Option<Hit>)
    ensures r.Some? ==> IsNumber(r.value.group) && i < r.value.end <= |s| && r.value.group == s[i..(r.value.end)]
  {
    var d := DigitRun(s, i);
    if d == 0 then None
    else
      var f := if i + d < |s| && s[i + d] == '.' then DigitRun(s, i + d + 1) else 0;
      var e := if f > 0 then i + d + 1 + f else i + d;
      var g := s[i..e];
      assert IsNumber(g) by {
        assert forall k :: 0 <= k < d ==> g[k] == s[i + k];
        RunExact(g, 0, d, IsDigit);
        if f > 0 { assert forall k :: d < k < |g| ==> g[k] == s[i + k]; }
      }
      Some(Hit(e, g))
  }

  /** The text of `\d+(\.\d+)?`: a digit run, then nothing or a dot and a digit run. */
  predicate IsNumber(g: String) {
    var d := Run(g, 0, IsDigit);
    0 < d && (d == |g| || (d + 1 < |g| && g[d] == '.' && forall k :: d < k < |g| ==> IsDigit(g[k])))
  }

  /** `Decimal(g)` for a number text: its digits as units, its fraction length as scale. */
  function DecOf(g: String): (r: Dec)
    requires IsNumber(g)
  {
    var d := Run(g, 0, IsDigit);
    if d == |g| then Dec(DigitsValue(g), 0)
    else Dec(DigitsValue(g[..d] + g[d + 1..]), |g| - d - 1)
  }

  /** The credit text once stripped, rid of unit words, and with ',' read as '.'. */
  function CleanedCredits(c: String): String {
    ReplaceChar(RemoveUnits(Strip(c)), ',', '.')
  }

  /**
   * `validate_credits`: the first decimal number of the text once unit words are removed and
   * ',' is read as '.', when it is positive.
   */
  function ValidateCredits(credits: Option<String>): (r: Option<Dec>)
    ensures r.Some? ==> r.value.IsPositive()
  {
    if credits.None? || credits.value == [] then None
    else
      var t := CleanedCredits(credits.value);
      match Search(t, NumberAt)
      case None => None
      case Some(h) =>
        var d := DecOf(h.group);
        if d.units <= 0 then None else Some(d)
  }

  predicate AllDigits(s: String) { forall k :: 0 <= k < |s| ==> IsDigit(s[k]) }

  predicate HasDigit(t: String) { exists k :: 0 <= k < |t| && IsDigit(t[k]) }

  /** `j` is the position of the first digit of `t`. */
  predicate FirstDigitAt(t: String, j: nat) {
    j < |t| && IsDigit(t[j]) && forall k :: 0 <= k < j ==> !IsDigit(t[k])
  }

  /** A number starts exactly where a digit does. */
  lemma NumberAtDigit(t: String, j: nat)
    ensures NumberAt(t, j).Some? <==> j < |t| && IsDigit(t[j])
  {
  }

  /** `validate_credits` gives nothing for a text with no digit once cleaned. */
  lemma ValidateCreditsNoDigit(c: String)
    ensures !HasDigit(CleanedCredits(c)) ==> ValidateCredits(Some(c)).None?
  {
    if c != [] && !HasDigit(CleanedCredits(c)) {
      NoDigitNoNumber(CleanedCredits(c));
      assert Search(CleanedCredits(c), NumberAt).None?;
    }
  }

  /** A text without a digit holds no number. */
  lemma NoDigitNoNumber(t: String)
    requires !HasDigit(t)
    ensures Search(t, NumberAt).None?
  {
    forall j | 0 <= j <= |t| ensures NumberAt(t, j).None? { NumberAtDigit(t, j); }
  }

  /**
   * `validate_credits` on a non-empty text reads the number that starts at the first digit of
   * the cleaned text, and keeps it only when it is positive.
   */
  lemma ValidateCreditsFirstDigit(c: String, j: nat)
    requires c != []
    requires FirstDigitAt(CleanedCredits(c), j)
    ensures var t := CleanedCredits(c);
      NumberAt(t, j).Some? &&
      ValidateCredits(Some(c)) == (var d := DecOf(NumberAt(t, j).value.group); if d.units > 0 then Some(d) else None)
  {
    var t := CleanedCredits(c);
    NumberAtDigit(t, j);
    forall k | 0 <= k < j ensures NumberAt(t, k).None? { NumberAtDigit(t, k); }
    SearchFirstAt(t, j, NumberAt);
  }

  /** A whole number is read as itself. */
  lemma CreditsOfWholeNumber(ds: String)
    requires ds != [] && AllDigits(ds) && DigitsValue(ds) > 0
    ensures ValidateCredits(Some(ds)) == Some(Dec(DigitsValue(ds), 0))
  {
    WholeNumberUnchanged(ds);
    assert CleanedCredits(ds) == ds;
    WholeNumberRead(ds);
    WholeNumberValue(ds);
    ValidateCreditsFirstDigit(ds, 0);
  }

  /** Stripping, removing units and replacing commas leave a whole number as it is. */
  lemma WholeNumberUnchanged(ds: String)
    requires ds != [] && AllDigits(ds)
    ensures Strip(ds) == ds && ReplaceChar(RemoveUnits(ds), ',', '.') == ds
  {
    StripUnpadded(ds);
    WholeNumberNoUnit(ds);
    assert ReplaceChar(ds, ',', '.') == ds;
  }

  lemma WholeNumberNoUnit(ds: String)
    requires AllDigits(ds)
    ensures RemoveUnits(ds) == ds
  {
    assert Plain(ds, 0, |ds|);
    PlainHasNoUnit(ds, 0, |ds|);
    RemoveUnitsCopies(ds, 0, |ds|);
    assert ds[0..|ds|] == ds;
  }

  /** The number at the start of a whole number is all of it. */
  lemma WholeNumberRead(ds: String)
    requires ds != [] && AllDigits(ds)
    ensures NumberAt(ds, 0) == Some(Hit(|ds|, ds))
  {
    DigitRunExact(ds, 0, |ds|);
    assert ds[0..|ds|] == ds;
  }

  /** A whole number's decimal value. */
  lemma WholeNumberValue(ds: String)
    requires ds != [] && AllDigits(ds)
    ensures IsNumber(ds) && DecOf(ds) == Dec(DigitsValue(ds), 0)
  {
    RunExact(ds, 0, |ds|, IsDigit);
  }

  /** "a,b hp": the unit goes, the comma becomes a decimal point, the value is a.b exactly. */
  lemma CreditsWithCommaAndUnit(a: String, b: String)
    requires a != [] && b != [] && AllDigits(a) && AllDigits(b) && DigitsValue(a + b) > 0
    ensures ValidateCredits(Some(a + "," + b + " hp")) == Some(Dec(DigitsValue(a + b), |b|))
  {
    var p := a + "," + b;
    var s := p + " hp";
    var t := a + "." + b;
    CommaNumberIsPlain(a, b);
    assert Strip(s) == s by {
      assert s[0] == a[0] && s[|s| - 1] == 'p';
      StripUnpadded(s);
    }
    RemoveTrailingHp(p);
    CommaBecomesDot(a, b);
    assert CleanedCredits(s) == t;
    DecimalNumber(a, b);
    assert t[0] == a[0];
    ValidateCreditsFirstDigit(s, 0);
  }

  lemma CommaNumberIsPlain(a: String, b: String)
    requires AllDigits(a) && AllDigits(b)
    ensures Plain(a + "," + b, 0, |a + "," + b|)
  {
    var p := a + "," + b;
    forall k | 0 <= k < |p| ensures !IsLetter(p[k]) && !IsSpace(p[k]) {
      if k < |a| { assert p[k] == a[k]; }
      else if k == |a| { assert p[k] == ','; }
      else { assert p[k] == b[k - |a| - 1]; }
    }
  }

  /** A plain text followed by " hp" loses exactly the unit. */
  lemma RemoveTrailingHp(p: String)
    requires Plain(p, 0, |p|)
    ensures RemoveUnits(p + " hp") == p
  {
    var s := p + " hp";
    assert Plain(s, 0, |p|) by {
      forall k | 0 <= k < |p| ensures !IsLetter(s[k]) && !IsSpace(s[k]) { assert s[k] == p[k]; }
    }
    PlainHasNoUnit(s, 0, |p|);
    RemoveUnitsCopies(s, 0, |p|);
    assert s[|p|..] == " hp";
    UnitHpAtEnd(s, |p|);
    assert s[0..|p|] == p;
  }

  lemma CommaBecomesDot(a: String, b: String)
    requires AllDigits(a) && AllDigits(b)
    ensures ReplaceChar(a + "," + b, ',', '.') == a + "." + b
  {
    var p := a + "," + b;
    var t := a + "." + b;
    forall k | 0 <= k < |p| ensures ReplaceChar(p, ',', '.')[k] == t[k] {
      if k < |a| { assert p[k] == a[k] && t[k] == a[k]; }
      else if k > |a| { assert p[k] == b[k - |a| - 1] && t[k] == b[k - |a| - 1]; }
    }
  }

  /** "a.b" is one number, whose decimal value is the digits of a and b at scale |b|. */
  lemma DecimalNumber(a: String, b: String)
    requires a != [] && b != [] && AllDigits(a) && AllDigits(b)
    ensures var t := a + "." + b;
      NumberAt(t, 0) == Some(Hit(|t|, t)) && IsNumber(t) && DecOf(t) == Dec(DigitsValue(a + b), |b|)
  {
    var t := a + "." + b;
    DecimalRuns(a, b);
    assert t[|a|] == '.';
    NumberAtWhole(t, |a|);
    DecimalValue(a, b);
  }

  /** Digits, a dot and digits that fill the text make one number, all of it. */
  lemma NumberAtWhole(t: String, d: nat)
    requires 0 < d && d + 1 < |t| && t[d] == '.'
    requires DigitRun(t, 0) == d && DigitRun(t, d + 1) == |t| - d - 1
    ensures NumberAt(t, 0) == Some(Hit(|t|, t))
  {
    assert t[0..|t|] == t;
  }

  lemma DecimalRuns(a: String, b: String)
    requires AllDigits(a) && AllDigits(b)
    ensures DigitRun(a + "." + b, 0) == |a| && Run(a + "." + b, 0, IsDigit) == |a|
    ensures DigitRun(a + "." + b, |a| + 1) == |b|
  {
    var t := a + "." + b;
    WholePartDigits(a, b);
    DigitRunExact(t, 0, |a|);
    RunExact(t, 0, |a|, IsDigit);
    FractionDigits(a, b);
    DigitRunExact(t, |a| + 1, |t|);
  }

  lemma WholePartDigits(a: String, b: String)
    requires AllDigits(a)
    ensures var t := a + "." + b;
            (forall k :: 0 <= k < |a| ==> IsDigit(t[k])) && !IsDigit(t[|a|])
  {
    var t := a + "." + b;
    forall k | 0 <= k < |a| ensures IsDigit(t[k]) {
      assert t[k] == a[k];
    }
    assert t[|a|] == '.';
  }

  lemma FractionDigits(a: String, b: String)
    requires AllDigits(b)
    ensures var t := a + "." + b;
            forall k :: |a| + 1 <= k < |t| ==> IsDigit(t[k])
  {
    var t := a + "." + b;
    forall k | |a| + 1 <= k < |t| ensures IsDigit(t[k]) {
      assert t[k] == b[k - |a| - 1];
    }
  }

  lemma DecimalValue(a: String, b: String)
    requires a != [] && b != [] && AllDigits(a) && AllDigits(b)
    requires Run(a + "." + b, 0, IsDigit) == |a|
    ensures IsNumber(a + "." + b) && DecOf(a + "." + b) == Dec(DigitsValue(a + b), |b|)
  {
    var t := a + "." + b;
    assert t[..|a|] == a;
    assert t[|a| + 1..] == b;
  }

  /** " hp" closing the text is one match that reaches the end. */
  lemma UnitHpAtEnd(s: String, m: nat)
    requires m + 3 == |s| && s[m..] == " hp"
    ensures RemoveUnitsFrom(s, m) == []
  {
    assert s[m] == ' ' && s[m + 1] == 'h' && s[m + 2] == 'p';
    assert SpaceRun(s, m + 1) == 0;
    assert SpaceRun(s, m) == 1;
    assert WordAtIgnoringCase(s, m + 1, "hp");
    assert UnitWordAt(s, m + 1) == 2;
    assert SpaceRun(s, m + 3) == 0;
    assert UnitAt(s, m) == Some(|s|);
  }

  /** What the processor stores as credits: the parsed value, or 7.5 when there is none. */
  function StoredCredits(credits: Option<String>): (r: Dec)
    ensures r.IsPositive() && Models.ValidateCredits(r).Ok?
    ensures ValidateCredits(credits).None? ==> r == Dec(75, 1)
  {
    match ValidateCredits(credits)
    case Some(d) => d
    case None => Dec(75, 1)
  }

  /** `\b([A-Z]{2,3}\d{3,4})\b` at position `i`. */
  function BoundedCodeAt(s: String, i: nat): (r: Option<Hit>)
    ensures r.Some? ==> i <= r.value.end <= |s| && r.value.group == s[i..(r.value.end)]
  {
    CodeAt(BoundedCourseShape, s, i)
  }

  /** The leftmost bounded course code of a text is a course code occurring in it. */
  lemma SearchedCodeOccurs(t: String)
    requires Search(t, BoundedCodeAt).Some?
    ensures IsCode(CourseShape, Search(t, BoundedCodeAt).value.group)
    ensures Contains(t, Search(t, BoundedCodeAt).value.group)
  {
    var h := Search(t, BoundedCodeAt).value;
    var j :| 0 <= j <= |t| && BoundedCodeAt(t, j) == Some(h);
    BoundedCodeIsCode(t, j);
    SliceContained(t, j, h.end);
  }

  lemma BoundedCodeIsCode(t: String, j: nat)
    requires BoundedCodeAt(t, j).Some?
    ensures IsCode(CourseShape, BoundedCodeAt(t, j).value.group)
  {
    CodeAtIsCode(BoundedCourseShape, t, j);
  }

  /** The course code a "Replacing course code" section names: the first one in its stripped text. */
  function ReplacingCode(section: Option<String>): (r: Option<String>)
    ensures r.Some? ==> section.Some? && IsCode(CourseShape, r.value) && Contains(Strip(section.value), r.value)
  {
    if section.None? || section.value == [] then None
    else
      var t := Strip(section.value);
      match Search(t, BoundedCodeAt)
      case None => None
      case Some(h) =>
        SearchedCodeOccurs(t);
        Some(h.group)
  }

  // ----- shape check of the parsed course -----

  /** `d.get(k)` on a JSON object; nothing for any other value. */
  function Field(d: Json, k: String): Option<Json> {
    if d.JObj? then Get(d.fields, k) else None
  }

  /** `_validate_course_data`, one early return at a time. */
  function ValidateCourseData(data: Json): (ok: bool)
    ensures ok <==>
      Field(data, "metadata").Some? && Field(data, "metadata").value.JObj? &&
      Field(Field(data, "metadata").value, "course_code").Some? &&
      Field(Field(data, "metadata").value, "course_code").value.IsTruthy() &&
      Field(data, "sections").Some? && Field(data, "sections").value.JObj? &&
      Field(data, "sections").value.fields != [] &&
      (Field(data, "course_details").Some? ==> Field(data, "course_details").value.JObj?)
  {
    if !data.JObj? || "metadata" !in Keys(data.fields) || "sections" !in Keys(data.fields) then false
    else
      var metadata := Get(data.fields, "metadata").value;
      var sections := Get(data.fields, "sections").value;
      var code := Field(metadata, "course_code");
      if !metadata.JObj? || code.None? || !code.value.IsTruthy() then false
      else if !sections.JObj? || |sections.fields| == 0 then false
      else if "course_details" in Keys(data.fields) && !Get(data.fields, "course_details").value.JObj? then false
      else true
  }

  /** Only the metadata, sections and course_details entries decide the check. */
  lemma ValidateCourseDataReadsThreeKeys(d1: Json, d2: Json)
    requires d1.JObj? && d2.JObj?
    requires Field(d1, "metadata") == Field(d2, "metadata") && Field(d1, "sections") == Field(d2, "sections")
    requires Field(d1, "course_details") == Field(d2, "course_details")
    ensures ValidateCourseData(d1) == ValidateCourseData(d2)
  {
  }

  // ----- programme whitelist -----

  /** `VALID_PROGRAM_CODES`: the only programmes a course may be mapped to. */
  const ValidProgramCodes: set<String> := {"N2COS", "N2SOF", "N1SOF", "N2GDT"}

  predicate IsValidProgram(code: String) { code in ValidProgramCodes }

  /** The mapping loop of `store_course_in_database`: unknown codes are skipped. */
  method MapPrograms(programs: seq<String>) returns (mapped: seq<String>)
    ensures mapped == Filter(programs, IsValidProgram)
    ensures forall c :: c in mapped ==> c in ValidProgramCodes
  {
    mapped := [];
    var i := 0;
    while i < |programs|
      invariant 0 <= i <= |programs|
      invariant mapped == Filter(programs[..i], IsValidProgram)
    {
      var code := programs[i];
      FilterAppend(programs[..i], [code], IsValidProgram);
      assert programs[..i + 1] == programs[..i] + [code];
      i := i + 1;
      if !IsValidProgram(code) {
        continue;
      }
      mapped := mapped + [code];
    }
    assert programs[..i] == programs;
  }

  /**
   * The programme mappings of a course after it is stored: course pages leave them alone, and
   * so does a programmes field without codes; otherwise they are replaced by the whitelisted codes.
   */
  function MappingsAfterStore(contentType: String, programmes: Programmes, existing: seq<String>): seq<String> {
    if contentType == "course_page_md" then existing
    else
      var programs := ExtractProgramCodes(programmes);
      if programs == [] then existing else Filter(programs, IsValidProgram)
  }

  /** Storing never maps a course to a programme outside the whitelist. */
  lemma OnlyWhitelistedProgramsMapped(contentType: String, programmes: Programmes, existing: seq<String>)
    ensures forall c :: c in MappingsAfterStore(contentType, programmes, existing) && c !in existing ==> c in ValidProgramCodes
    ensures (forall c :: c in existing ==> c in ValidProgramCodes) ==>
              forall c :: c in MappingsAfterStore(contentType, programmes, existing) ==> c in ValidProgramCodes
  {
  }

  /** A whitelisted code found in the programmes field is mapped. */
  lemma WhitelistedCodesMapped(contentType: String, programmes: Programmes, existing: seq<String>, c: String)
    requires contentType != "course_page_md" && c in RawProgramCodes(programmes) && c in ValidProgramCodes
    requires programmes.IsTruthy()
    ensures c in MappingsAfterStore(contentType, programmes, existing)
  {
    assert c in ExtractProgramCodes(programmes);
  }
}
