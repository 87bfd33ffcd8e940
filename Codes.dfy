/**
 * Course codes as the regexes of the scrapers describe them: a run of letters followed by a
 * run of digits, `[A-Z]{a,b}\d{c,d}`, optionally case-insensitive in the letters and
 * optionally enclosed in word boundaries `\b...\b`.
 */
module Codes {
  import opened Wrappers
  import opened Text
  import opened Scan

  datatype CodeShape = CodeShape(minLetters: nat, maxLetters: nat, minDigits: nat, maxDigits: nat,
                                 anyCase: bool, bounded: bool)
  {
    /** What Python's `re` demands of `{m,n}`: `m <= n`. */
    predicate WellFormed() { minLetters <= maxLetters && minDigits <= maxDigits }
  }

  predicate IsCodeLetter(shape: CodeShape, c: char) {
    IsAsciiUpper(c) || (shape.anyCase && IsAsciiLower(c))
  }

  /** The whole of `c` has the shape (what `re.fullmatch` would accept). */
  predicate IsCode(shape: CodeShape, c: String) {
    var n := Run(c, 0, (x: char) => IsCodeLetter(shape, x));
    shape.minLetters <= n <= shape.maxLetters && shape.minDigits <= |c| - n <= shape.maxDigits &&
    forall k :: n <= k < |c| ==> IsDigit(c[k])
  }

  /**
   * The pattern tried at position `i`. Greedy letters can only succeed when the letter run
   * from `i` fits the bounds; greedy digits are capped at the maximum, and with word
   * boundaries the digit run must end the word.
   */
  function CodeAt(shape: CodeShape, s: String, i: nat): (r: Option<Hit>)
    ensures r.Some? ==> i <= r.value.end <= |s| && r.value.group == s[i..(r.value.end)]
  {
    if i > |s| then None
    else
      var n := Run(s, i, (x: char) => IsCodeLetter(shape, x));
      var d := DigitRun(s, i + n);
      if !(shape.minLetters <= n <= shape.maxLetters) || d < shape.minDigits then None
      else if shape.bounded then
        var e := i + n + d;
        if (0 < i && IsWordChar(s[i - 1])) || d > shape.maxDigits || (e < |s| && IsWordChar(s[e])) then None
        else Some(Hit(e, s[i..e]))
      else
        var e := i + n + (if d <= shape.maxDigits then d else shape.maxDigits);
        Some(Hit(e, s[i..e]))
  }

  /** Every match has the shape. */
  lemma CodeAtIsCode(shape: CodeShape, s: String, i: nat)
    requires shape.WellFormed() && CodeAt(shape, s, i).Some?
    ensures IsCode(shape, CodeAt(shape, s, i).value.group)
  {
    var p := (x: char) => IsCodeLetter(shape, x);
    var n := Run(s, i, p);
    var c := CodeAt(shape, s, i).value.group;
    assert forall k :: 0 <= k < n ==> c[k] == s[i + k];
    RunExact(c, 0, n, p);
  }
}
