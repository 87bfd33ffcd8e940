/**
 * Calendar dates as the duplicate cleaners use them: `datetime` values at midnight, ordered
 * by (year, month, day), with `datetime.min` (1 January of year 1) as the value for "no date";
 * `strptime` for the formats "%Y-%m-%d", "%Y-%m" and "%Y"; and the leftmost `\d{4}` of a text.
 */
module Dates {
  import opened Wrappers
  import opened Text
  import opened Scan

  datatype Date = Date(year: int, month: int, day: int)

  /** `datetime.min`. */
  const MinDate: Date := Date(1, 1, 1)

  /** `a <= b` on datetimes. */
  predicate AtMost(a: Date, b: Date) {
    a.year < b.year || (a.year == b.year && (a.month < b.month || (a.month == b.month && a.day <= b.day)))
  }

  lemma AtMostTotal(a: Date, b: Date)
    ensures AtMost(a, b) || AtMost(b, a)
  {
  }

  lemma AtMostTrans(a: Date, b: Date, c: Date)
    requires AtMost(a, b) && AtMost(b, c)
    ensures AtMost(a, c)
  {
  }

  lemma AtMostAntisym(a: Date, b: Date)
    requires AtMost(a, b) && AtMost(b, a)
    ensures a == b
  {
  }

  /** `max(a, b)`: `b` only when it is strictly later. */
  function Later(a: Date, b: Date): (r: Date)
    ensures AtMost(a, r) && AtMost(b, r)
    ensures r == a || r == b
  {
    if AtMost(b, a) then a else b
  }

  predicate IsLeap(y: int) { y % 4 == 0 && (y % 100 != 0 || y % 400 == 0) }

  function DaysIn(y: int, m: int): (r: int)
    requires 1 <= m <= 12
    ensures 28 <= r <= 31
  {
    if m == 2 then (if IsLeap(y) then 29 else 28)
    else if m == 4 || m == 6 || m == 9 || m == 11 then 30
    else 31
  }

  /** What `datetime` raises for year 0. */
  const YearZero: String := "year 0 is out of range"

  /** A date `datetime` accepts: year 1 to 9999, a real month and a day within it. */
  predicate Valid(d: Date) {
    1 <= d.year <= 9999 && 1 <= d.month <= 12 && 1 <= d.day <= DaysIn(d.year, d.month)
  }

  /** `datetime.min` is the earliest valid date. */
  lemma MinDateLeast(d: Date)
    requires Valid(d)
    ensures Valid(MinDate) && AtMost(MinDate, d)
  {
  }

  predicate AllDigits(t: String) { forall k :: 0 <= k < |t| ==> IsDigit(t[k]) }

  /** `%Y` against a whole field: exactly four digits. */
  function YearField(t: String): (r: Option<int>)
    ensures r.Some? ==> 0 <= r.value <= 9999
  {
    if |t| == 4 && AllDigits(t) then
      DigitsValueBound(t);
      Some(DigitsValue(t))
    else None
  }

  lemma {:induction false} DigitsValueBound(t: String)
    requires AllDigits(t)
    ensures |t| <= 1 ==> DigitsValue(t) <= 9
    ensures |t| <= 2 ==> DigitsValue(t) <= 99
    ensures |t| <= 3 ==> DigitsValue(t) <= 999
    ensures |t| <= 4 ==> DigitsValue(t) <= 9999
    decreases |t|
  {
    if t != [] {
      DigitsValueBound(t[..|t| - 1]);
    }
  }

  /**
   * A one- or two-digit field with a value from 1 to `hi`: `%m` (`1[0-2]|0[1-9]|[1-9]`) with
   * `hi` 12 and the digit forms of `%d` (`3[01]|[12]\d|0[1-9]|[1-9]`) with `hi` 31.
   */
  function SmallField(t: String, hi: int): (r: Option<int>)
    ensures r.Some? ==> 1 <= r.value <= hi
  {
    if 1 <= |t| <= 2 && AllDigits(t) && 1 <= DigitsValue(t) <= hi then Some(DigitsValue(t)) else None
  }

  /**
   * The `%d` field: the digit forms of `SmallField` with bound 31, and also a space followed by
   * a digit from 1 to 9 (` [1-9]`), which `strptime` accepts for the day.
   */
  function DayField(t: String): (r: Option<int>)
    ensures r.Some? ==> 1 <= r.value <= 31
    ensures |t| == 2 && t[0] == ' ' ==> (r.Some? <==> '1' <= t[1] <= '9')
    ensures |t| == 2 && t[0] == ' ' && r.Some? ==> r.value == t[1] as int - '0' as int
    ensures t == [] || t[0] != ' ' ==> r == SmallField(t, 31)
  {
    if |t| == 2 && t[0] == ' ' && '1' <= t[1] <= '9' then Some(t[1] as int - '0' as int)
    else SmallField(t, 31)
  }

  /**
   * `datetime.strptime(s, fmt)` for the format with the first `fields` of "%Y-%m-%d": the text
   * must be exactly that many '-'-separated fields, and the date must exist; a missing month or
   * day is 1. `None` is the `ValueError`.
   */
  function Strptime(s: String, fields: nat): (r: Option<Date>)
    requires 1 <= fields <= 3
    ensures r.Some? ==> Valid(r.value)
  {
    var parts := SplitOn(s, '-');
    if |parts| != fields then None
    else
      var y := YearField(parts[0]);
      var m := if fields >= 2 then SmallField(parts[1], 12) else Some(1);
      var d := if fields == 3 then DayField(parts[2]) else Some(1);
      if y.Some? && m.Some? && d.Some? && Valid(Date(y.value, m.value, d.value)) then
        Some(Date(y.value, m.value, d.value))
      else None
  }

  /** The formats "%Y-%m-%d", "%Y-%m" and "%Y" tried in that order; `datetime.min` when all fail. */
  function ParseFormats(s: String): (r: Date)
    ensures Valid(r)
    ensures r != MinDate ==> exists n :: 1 <= n <= 3 && Strptime(s, n) == Some(r)
  {
    MinDateLeast(MinDate);
    if Strptime(s, 3).Some? then Strptime(s, 3).value
    else if Strptime(s, 2).Some? then Strptime(s, 2).value
    else if Strptime(s, 1).Some? then Strptime(s, 1).value
    else MinDate
  }

  /** A full "YYYY-MM-DD" date that exists is read as itself. */
  lemma IsoDateParsed(y: String, m: String, d: String)
    requires YearField(y).Some? && SmallField(m, 12).Some? && DayField(d).Some?
    requires Valid(Date(YearField(y).value, SmallField(m, 12).value, DayField(d).value))
    ensures ParseFormats(y + "-" + m + "-" + d) == Date(YearField(y).value, SmallField(m, 12).value, DayField(d).value)
  {
    var s := y + "-" + m + "-" + d;
    NoDashInDigits(y);
    NoDashInDigits(m);
    NoDashInDay(d);
    var md := m + "-" + d;
    assert s == y + ['-'] + md;
    SplitOnFields(y, md, '-');
    SplitOnFields(m, d, '-');
    SplitOnSingle(d, '-');
    assert SplitOn(s, '-') == [y, m, d];
  }

  lemma NoDashInDigits(t: String)
    requires AllDigits(t)
    ensures '-' !in t
  {
    forall k | 0 <= k < |t| ensures t[k] != '-' {
      assert IsDigit(t[k]);
    }
  }

  lemma NoDashInDay(t: String)
    requires DayField(t).Some?
    ensures '-' !in t
  {
    if !(|t| == 2 && t[0] == ' ') {
      NoDashInDigits(t);
    }
  }

  lemma SplitOnSingle(s: String, sep: char)
    requires sep !in s
    ensures SplitOn(s, sep) == [s]
  {
    assert Run(s, 0, c => c != sep) == |s| by {
      RunExact(s, 0, |s|, c => c != sep);
    }
  }

  lemma SplitOnFields(a: String, b: String, sep: char)
    requires sep !in a
    ensures SplitOn(a + [sep] + b, sep) == [a] + SplitOn(b, sep)
  {
    var s := a + [sep] + b;
    assert Run(s, 0, c => c != sep) == |a| by {
      assert forall k :: 0 <= k < |a| ==> s[k] == a[k];
      RunExact(s, 0, |a|, c => c != sep);
    }
    assert s[..|a|] == a && s[|a| + 1..] == b;
  }

  /** `\d{4}` at position `i`. */
  function FourDigitsAt(s: String, i: nat): (r: Option<Hit>)
    ensures r.Some? ==> i + 4 <= |s| && r.value.group == s[i..i + 4] && AllDigits(r.value.group)
  {
    if i + 4 <= |s| && AllDigits(s[i..i + 4]) then Some(Hit(i + 4, s[i..i + 4])) else None
  }

  /** The number of the leftmost four-digit run of `s`, as `int(re.search(r'(\d{4})', s).group(1))`. */
  function FirstYear(s: String): (r: Option<int>)
    ensures r.Some? ==> 0 <= r.value <= 9999
    ensures r.None? <==> forall i :: 0 <= i <= |s| ==> FourDigitsAt(s, i).None?
  {
    match Search(s, FourDigitsAt)
    case None => None
    case Some(h) => YearField(h.group)
  }

  /** The keys of `s` never increase: latest first. */
  predicate LatestFirst<T>(s: seq<T>, key: T -> Date) {
    forall i, j :: 0 <= i < j < |s| ==> AtMost(key(s[j]), key(s[i]))
  }

  /** `x` placed before the first element that is not strictly later than it. */
  function InsertByDate<T>(x: T, s: seq<T>, key: T -> Date): (r: seq<T>)
    requires LatestFirst(s, key)
    ensures LatestFirst(r, key)
    ensures multiset(r) == multiset(s) + multiset{x}
    ensures |r| == |s| + 1
    decreases |s|
  {
    if s == [] || AtMost(key(s[0]), key(x)) then
      assert forall j :: 0 <= j < |s| ==> AtMost(key(s[j]), key(x)) by {
        forall j | 0 <= j < |s| ensures AtMost(key(s[j]), key(x)) {
          if j > 0 { AtMostTrans(key(s[j]), key(s[0]), key(x)); }
        }
      }
      [x] + s
    else
      var rest := InsertByDate(x, s[1..], key);
      assert multiset(rest) == multiset(s[1..]) + multiset{x};
      assert s == [s[0]] + s[1..];
      var r := [s[0]] + rest;
      assert forall j :: 0 <= j < |rest| ==> AtMost(key(rest[j]), key(s[0])) by {
        forall j | 0 <= j < |rest| ensures AtMost(key(rest[j]), key(s[0])) {
          assert rest[j] in multiset(rest);
          if rest[j] != x {
            assert rest[j] in multiset(s[1..]);
            var k :| 0 <= k < |s[1..]| && s[1..][k] == rest[j];
          }
        }
      }
      r
  }

  /**
   * `list.sort(key=..., reverse=True)` on dates: latest first, and stable, so of two elements
   * with the same date the one earlier in the input stays earlier.
   */
  function SortByDateDesc<T>(s: seq<T>, key: T -> Date): (r: seq<T>)
    ensures LatestFirst(r, key)
    ensures multiset(r) == multiset(s)
    ensures |r| == |s|
    decreases |s|
  {
    if s == [] then []
    else
      assert s == [s[0]] + s[1..];
      InsertByDate(s[0], SortByDateDesc(s[1..], key), key)
  }

  /** The first element after sorting is at least as late as every element of the input. */
  lemma SortedHeadLatest<T>(s: seq<T>, key: T -> Date)
    requires s != []
    ensures forall x :: x in s ==> AtMost(key(x), key(SortByDateDesc(s, key)[0]))
  {
    var r := SortByDateDesc(s, key);
    forall x | x in s ensures AtMost(key(x), key(r[0])) {
      assert x in multiset(r);
      var j :| 0 <= j < |r| && r[j] == x;
      if j == 0 { AtMostTotal(key(x), key(x)); }
    }
  }

  /** `s[i]` is the first element of `s` whose date no other element's date exceeds. */
  predicate FirstLatest<T>(s: seq<T>, i: nat, key: T -> Date) {
    i < |s| && (forall j :: 0 <= j < |s| ==> AtMost(key(s[j]), key(s[i]))) &&
    forall j :: 0 <= j < i ==> !AtMost(key(s[i]), key(s[j]))
  }

  /** Sorting puts first the earliest-listed of the latest elements, which is what the stable sort keeps. */
  lemma {:induction false} SortHeadIsFirstLatest<T>(s: seq<T>, i: nat, key: T -> Date)
    requires FirstLatest(s, i, key)
    ensures SortByDateDesc(s, key)[0] == s[i]
    decreases |s|
  {
    var rest := SortByDateDesc(s[1..], key);
    if i == 0 {
      if rest != [] {
        assert rest[0] in multiset(s[1..]);
        var k :| 0 <= k < |s[1..]| && s[1..][k] == rest[0];
        assert s[1..][k] == s[k + 1];
      }
    } else {
      assert FirstLatest(s[1..], i - 1, key) by {
        forall j | 0 <= j < |s[1..]| ensures AtMost(key(s[1..][j]), key(s[1..][i - 1])) {
          assert s[1..][j] == s[j + 1];
        }
        forall j | 0 <= j < i - 1 ensures !AtMost(key(s[1..][i - 1]), key(s[1..][j])) {
          assert s[1..][j] == s[j + 1];
        }
      }
      SortHeadIsFirstLatest(s[1..], i - 1, key);
      assert rest[0] == s[i];
      assert !AtMost(key(s[i]), key(s[0]));
      AtMostTotal(key(s[i]), key(s[0]));
    }
  }
}
