/**
 * Character classes and the handful of Python `str` operations the core relies on:
 * upper/lower case, strip, split, substring search, join and the regex word boundary.
 * Letters are the ASCII letters plus the Swedish å, ä and ö.
 */
module Text {

  type String = seq<char>

  /** The schemes of web addresses, each with the two slashes that follow it. */
  const Http: String := "http:" + ['/', '/']
  const Https: String := "https:" + ['/', '/']

  predicate IsDigit(c: char) { '0' <= c <= '9' }

  predicate IsUpperLetter(c: char) { 'A' <= c <= 'Z' || c == 'Å' || c == 'Ä' || c == 'Ö' }

  predicate IsLowerLetter(c: char) { 'a' <= c <= 'z' || c == 'å' || c == 'ä' || c == 'ö' }

  predicate IsAsciiUpper(c: char) { 'A' <= c <= 'Z' }

  predicate IsAsciiLower(c: char) { 'a' <= c <= 'z' }

  predicate IsLetter(c: char) { IsUpperLetter(c) || IsLowerLetter(c) }

  predicate IsAlnum(c: char) { IsLetter(c) || IsDigit(c) }

  /** Characters matched by the regex class `\w`. */
  predicate IsWordChar(c: char) { IsAlnum(c) || c == '_' }

  /**
   * The ASCII whitespace that `str.strip()`, `str.split()` and the regex class `\s` recognise:
   * space, tab, line feed, carriage return, vertical tab and form feed.
   */
  predicate IsSpace(c: char) {
    c == ' ' || c == '\t' || c == '\n' || c == '\r' || c == '\U{B}' || c == '\U{C}'
  }

  function UpperChar(c: char): (r: char)
    ensures IsLowerLetter(c) ==> IsUpperLetter(r)
    ensures !IsLowerLetter(c) ==> r == c
  {
    if 'a' <= c <= 'z' then (c as int - 32) as char
    else if c == 'å' then 'Å' else if c == 'ä' then 'Ä' else if c == 'ö' then 'Ö'
    else c
  }

  function LowerChar(c: char): (r: char)
    ensures IsUpperLetter(c) ==> IsLowerLetter(r)
    ensures !IsUpperLetter(c) ==> r == c
  {
    if 'A' <= c <= 'Z' then (c as int + 32) as char
    else if c == 'Å' then 'å' else if c == 'Ä' then 'ä' else if c == 'Ö' then 'ö'
    else c
  }

  /** `str.upper()`. */
  function Upper(s: String): (r: String)
    ensures |r| == |s|
    ensures forall i :: 0 <= i < |s| ==> r[i] == UpperChar(s[i])
  {
    if s == [] then [] else [UpperChar(s[0])] + Upper(s[1..])
  }

  /** `str.lower()`. */
  function Lower(s: String): (r: String)
    ensures |r| == |s|
    ensures forall i :: 0 <= i < |s| ==> r[i] == LowerChar(s[i])
  {
    if s == [] then [] else [LowerChar(s[0])] + Lower(s[1..])
  }

  lemma UpperIdempotent(s: String)
    ensures Upper(Upper(s)) == Upper(s)
  {
  }

  lemma CharCaseAgree(x: char, y: char)
    requires LowerChar(x) == LowerChar(y)
    ensures UpperChar(x) == UpperChar(y)
  {
  }

  /** Strings equal ignoring case (by `lower`) are also equal by `upper`. */
  lemma LowerUpperAgree(a: String, b: String)
    requires Lower(a) == Lower(b)
    ensures Upper(a) == Upper(b)
  {
    assert |a| == |b|;
    forall i | 0 <= i < |a| ensures Upper(a)[i] == Upper(b)[i] {
      assert Lower(a)[i] == Lower(b)[i];
      CharCaseAgree(a[i], b[i]);
    }
  }

  predicate IsBlank(s: String) { forall i :: 0 <= i < |s| ==> IsSpace(s[i]) }

  function LStrip(s: String): (r: String)
    ensures |r| <= |s| && r == s[|s| - |r|..]
    ensures r == [] || !IsSpace(r[0])
    ensures forall i :: 0 <= i < |s| - |r| ==> IsSpace(s[i])
  {
    if s != [] && IsSpace(s[0]) then
      var r := LStrip(s[1..]);
      LStripStep(s, r);
      r
    else s
  }

  /** Dropping one leading space keeps what the rest of the string's stripping promised. */
  lemma LStripStep(s: String, r: String)
    requires s != [] && IsSpace(s[0]) && |r| <= |s| - 1 && r == s[1..][|s| - 1 - |r|..]
    requires forall i :: 0 <= i < |s| - 1 - |r| ==> IsSpace(s[1..][i])
    ensures r == s[|s| - |r|..]
    ensures forall i :: 0 <= i < |s| - |r| ==> IsSpace(s[i])
  {
    assert s[1..][|s| - 1 - |r|..] == s[|s| - |r|..];
    forall i | 0 <= i < |s| - |r| ensures IsSpace(s[i]) {
      if i > 0 {
        assert s[i] == s[1..][i - 1];
      }
    }
  }

  function RStrip(s: String): (r: String)
    ensures |r| <= |s| && r == s[..|r|]
    ensures r == [] || !IsSpace(r[|r| - 1])
    ensures forall i :: |r| <= i < |s| ==> IsSpace(s[i])
  {
    if s != [] && IsSpace(s[|s| - 1]) then RStrip(s[..|s| - 1]) else s
  }

  /** `str.strip()`: the longest slice of `s` that neither starts nor ends with whitespace. */
  function Strip(s: String): (r: String)
    ensures |r| <= |s|
    ensures r == [] || (!IsSpace(r[0]) && !IsSpace(r[|r| - 1]))
    ensures r == [] <==> IsBlank(s)
  {
    var l := LStrip(s);
    var r := RStrip(l);
    assert r == [] ==> IsBlank(s) by {
      if r == [] {
        assert l == [];
      }
    }
    assert r != [] ==> !IsSpace(r[0]) by {
      if r != [] { assert r[0] == l[0]; }
    }
    r
  }

  lemma StripOfBlank(s: String)
    requires IsBlank(s)
    ensures Strip(s) == []
  {
  }

  /** The stripped text is a slice of the original, starting at `off`. */
  lemma StripIsSlice(s: String) returns (off: nat)
    ensures off + |Strip(s)| <= |s| && s[off..off + |Strip(s)|] == Strip(s)
  {
    var l := LStrip(s);
    off := |s| - |l|;
    assert s[off..off + |Strip(s)|] == l[..|Strip(s)|];
  }

  /** Stripping a stripped string changes nothing. */
  lemma StripIdempotent(s: String)
    ensures Strip(Strip(s)) == Strip(s)
  {
    StripUnpadded(Strip(s));
  }

  /** A string with no whitespace at either end is its own strip. */
  lemma StripUnpadded(s: String)
    requires s == [] || (!IsSpace(s[0]) && !IsSpace(s[|s| - 1]))
    ensures Strip(s) == s
  {
    assert LStrip(s) == s;
    assert RStrip(s) == s;
  }

  /** A prefix with no whitespace at either end survives stripping. */
  lemma StripKeepsPrefix(s: String, p: String)
    requires StartsWith(s, p) && p != [] && !IsSpace(p[0]) && !IsSpace(p[|p| - 1])
    ensures StartsWith(Strip(s), p)
  {
    assert LStrip(s) == s;
    var r := RStrip(s);
    assert |r| >= |p|;
    assert r[..|p|] == s[..|p|];
  }

  /** A lower-case ASCII letter absent from `s` in both cases is absent from `Lower(s)`. */
  lemma LowerMissing(s: String, lo: char)
    requires IsAsciiLower(lo) && lo !in s && (lo as int - 32) as char !in s
    ensures lo !in Lower(s)
  {
    forall i | 0 <= i < |s| ensures Lower(s)[i] != lo {
      assert s[i] != lo && s[i] != (lo as int - 32) as char;
    }
  }

  /** `w` occurs at `j` when case is ignored (`w` is lower-case). */
  predicate WordAtIgnoringCase(s: String, j: nat, w: String) {
    j + |w| <= |s| && forall k :: 0 <= k < |w| ==> LowerChar(s[j + k]) == w[k]
  }

  /** `str.startswith`. */
  predicate StartsWith(s: String, p: String) { |p| <= |s| && s[..|p|] == p }

  /** `str.endswith`. */
  predicate EndsWith(s: String, p: String) { |p| <= |s| && s[|s| - |p|..] == p }

  predicate OccursAt(s: String, sub: String, i: int) {
    0 <= i && i + |sub| <= |s| && s[i..i + |sub|] == sub
  }

  /** Python's `sub in s`. */
  function Contains(s: String, sub: String): bool
    decreases |s|
  {
    if |sub| > |s| then false
    else if s[..|sub|] == sub then true
    else Contains(s[1..], sub)
  }

  /** `sub in s` holds exactly when `sub` occurs at some position of `s`. */
  lemma {:induction false} ContainsSpec(s: String, sub: String)
    ensures Contains(s, sub) <==> exists i :: OccursAt(s, sub, i)
    decreases |s|
  {
    if |sub| > |s| {
    } else if s[..|sub|] == sub {
      assert OccursAt(s, sub, 0);
    } else {
      ContainsSpec(s[1..], sub);
      if Contains(s[1..], sub) {
        var j :| OccursAt(s[1..], sub, j);
        assert s[j + 1..j + 1 + |sub|] == s[1..][j..j + |sub|];
        assert OccursAt(s, sub, j + 1);
      }
      if exists i :: OccursAt(s, sub, i) {
        var i :| OccursAt(s, sub, i);
        assert i != 0;
        assert s[1..][i - 1..i - 1 + |sub|] == s[i..i + |sub|];
        assert OccursAt(s[1..], sub, i - 1);
      }
    }
  }

  /** Every slice of a string is contained in it. */
  lemma SliceContained(s: String, i: nat, j: nat)
    requires i <= j <= |s|
    ensures Contains(s, s[i..j])
  {
    ContainsSpec(s, s[i..j]);
    assert OccursAt(s, s[i..j], i);
  }

  lemma ContainsEmpty(s: String)
    ensures Contains(s, [])
  {
    ContainsSpec(s, []);
    assert OccursAt(s, [], 0);
  }

  /** `sep.join(parts)`. */
  function Join(parts: seq<String>, sep: String): (r: String)
    ensures parts == [] ==> r == []
    ensures |parts| == 1 ==> r == parts[0]
  {
    if parts == [] then []
    else if |parts| == 1 then parts[0]
    else Join(parts[..|parts| - 1], sep) + sep + parts[|parts| - 1]
  }

  /** `s.replace(a, b)` for single characters. */
  function ReplaceChar(s: String, a: char, b: char): (r: String)
    ensures |r| == |s|
    ensures forall i :: 0 <= i < |s| ==> r[i] == (if s[i] == a then b else s[i])
  {
    if s == [] then [] else [if s[0] == a then b else s[0]] + ReplaceChar(s[1..], a, b)
  }

  /** The regex assertion `\b` at position `i` of `s`. */
  predicate WordBoundary(s: String, i: int) {
    0 <= i <= |s| && ((0 < i && IsWordChar(s[i - 1])) != (i < |s| && IsWordChar(s[i])))
  }

  /** Length of the run of whitespace starting at `i`. */
  function SpaceRun(s: String, i: nat): (n: nat)
    ensures i + n <= |s| || (i > |s| && n == 0)
    ensures forall k :: i <= k < i + n ==> IsSpace(s[k])
    ensures i + n < |s| ==> !IsSpace(s[i + n])
    decreases |s| - i
  {
    if i < |s| && IsSpace(s[i]) then 1 + SpaceRun(s, i + 1) else 0
  }

  /** Length of the run of digits starting at `i`. */
  function DigitRun(s: String, i: nat): (n: nat)
    ensures i + n <= |s| || (i > |s| && n == 0)
    ensures forall k :: i <= k < i + n ==> IsDigit(s[k])
    ensures i + n < |s| ==> !IsDigit(s[i + n])
    decreases |s| - i
  {
    if i < |s| && IsDigit(s[i]) then 1 + DigitRun(s, i + 1) else 0
  }

  /** Length of the run of characters satisfying `p` starting at `i`. */
  function Run(s: String, i: nat, p: char -> bool): (n: nat)
    ensures i + n <= |s| || (i > |s| && n == 0)
    ensures forall k :: i <= k < i + n ==> p(s[k])
    ensures i + n < |s| ==> !p(s[i + n])
    decreases |s| - i
  {
    if i < |s| && p(s[i]) then 1 + Run(s, i + 1, p) else 0
  }

  /** A run of `p` from `j` that stops at `n` has length `n - j`. */
  lemma {:induction false} RunExact(c: String, j: nat, n: nat, p: char -> bool)
    requires j <= n <= |c| && (forall k :: j <= k < n ==> p(c[k])) && (n == |c| || !p(c[n]))
    ensures Run(c, j, p) == n - j
    decreases n - j
  {
    if j < n {
      RunExact(c, j + 1, n, p);
    }
  }

  /** The same for digit runs. */
  lemma {:induction false} DigitRunExact(c: String, j: nat, n: nat)
    requires j <= n <= |c| && (forall k :: j <= k < n ==> IsDigit(c[k])) && (n == |c| || !IsDigit(c[n]))
    ensures DigitRun(c, j) == n - j
    decreases n - j
  {
    if j < n {
      DigitRunExact(c, j + 1, n);
    }
  }

  /** The number a string of decimal digits denotes. */
  function DigitsValue(s: String): (v: nat)
    requires forall k :: 0 <= k < |s| ==> IsDigit(s[k])
  {
    if s == [] then 0
    else
      assert IsDigit(s[|s| - 1]);
      10 * DigitsValue(s[..|s| - 1]) + (s[|s| - 1] as int - '0' as int)
  }

  /** Whitespace-separated words of `s[i..]` when `s[i]` starts a word: `str.split()` with no argument. */
  function Words(s: String): (ws: seq<String>)
    ensures forall w :: w in ws ==> w != [] && forall k :: 0 <= k < |w| ==> !IsSpace(w[k])
    ensures ws == [] <==> IsBlank(s)
    decreases |s|
  {
    var lead := SpaceRun(s, 0);
    if lead == |s| then []
    else
      var rest := s[lead..];
      var n := Run(rest, 0, c => !IsSpace(c));
      assert n > 0;
      var ws := [rest[..n]] + Words(rest[n..]);
      assert !IsBlank(s) by { assert !IsSpace(s[lead]); }
      ws
  }

  /** `s.split(sep)` for a one-character separator. */
  function SplitOn(s: String, sep: char): (parts: seq<String>)
    ensures |parts| >= 1
    ensures forall p :: p in parts ==> sep !in p
    ensures Join(parts, [sep]) == s
    decreases |s|
  {
    var n := Run(s, 0, c => c != sep);
    if n == |s| then
      assert sep !in s by { forall k | 0 <= k < |s| ensures s[k] != sep { } }
      [s]
    else
      var rest := SplitOn(s[n + 1..], sep);
      var parts := [s[..n]] + rest;
      JoinCons(s[..n], rest, [sep]);
      assert s == s[..n] + [sep] + s[n + 1..];
      assert sep !in s[..n] by { forall k | 0 <= k < n ensures s[..n][k] != sep { } }
      parts
  }

  lemma {:induction false} JoinCons(p: String, rest: seq<String>, sep: String)
    requires |rest| >= 1
    ensures Join([p] + rest, sep) == p + sep + Join(rest, sep)
    decreases |rest|
  {
    if |rest| == 1 {
      assert ([p] + rest)[..1] == [p];
    } else {
      var init := rest[..|rest| - 1];
      assert ([p] + rest)[..|rest|] == [p] + init;
      JoinCons(p, init, sep);
    }
  }

  /** A separator-free piece on its own does not split. */
  lemma SplitOnWhole(p: String, sep: char)
    requires sep !in p
    ensures SplitOn(p, sep) == [p]
  {
    assert forall k :: 0 <= k < |p| ==> p[k] != sep;
    RunExact(p, 0, |p|, c => c != sep);
  }

  /** A separator-free piece followed by the separator splits off as the first part. */
  lemma SplitOnCons(p: String, t: String, sep: char)
    requires sep !in p
    ensures SplitOn(p + [sep] + t, sep) == [p] + SplitOn(t, sep)
  {
    var s := p + [sep] + t;
    forall k | 0 <= k < |p| ensures s[k] != sep {
      assert s[k] == p[k];
    }
    assert s[|p|] == sep;
    RunExact(s, 0, |p|, c => c != sep);
    SplitOnAt(s, sep, |p|);
    assert s[..|p|] == p && s[|p| + 1..] == t;
  }

  lemma SplitOnAt(s: String, sep: char, n: nat)
    requires n < |s| && Run(s, 0, c => c != sep) == n
    ensures SplitOn(s, sep) == [s[..n]] + SplitOn(s[n + 1..], sep)
  {
  }
}
