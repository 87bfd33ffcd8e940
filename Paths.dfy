/** POSIX path helpers: `os.path.basename`, `os.path.splitext` and pathlib's `stem`/`suffix`. */
module Paths {
  import opened Wrappers
  import opened Text

  /** `s.rfind(c)`, as an option. */
  function LastIndexOf(s: String, c: char): (r: Option<nat>)
    ensures r.None? <==> c !in s
    ensures r.Some? ==> r.value < |s| && s[r.value] == c && c !in s[r.value + 1..]
    decreases |s|
  {
    if s == [] then None
    else if s[|s| - 1] == c then Some(|s| - 1)
    else
      var r := LastIndexOf(s[..|s| - 1], c);
      assert s == s[..|s| - 1] + [s[|s| - 1]];
      assert r.Some? ==> s[r.value + 1..] == s[..|s| - 1][r.value + 1..] + [s[|s| - 1]];
      r
  }

  /** `os.path.basename`: everything after the last '/'. */
  function Basename(p: String): (r: String)
    ensures '/' !in r && EndsWith(p, r)
  {
    match LastIndexOf(p, '/')
    case None => p
    case Some(k) => p[k + 1..]
  }

  /** A path without '/' is its own base name. */
  lemma BasenameWithoutSlash(p: String)
    requires '/' !in p
    ensures Basename(p) == p
  {
  }

  /** `os.path.splitext` on a name without '/': the extension starts at the last dot, unless only dots precede it. */
  function SplitExt(name: String): (r: (String, String))
    ensures r.0 + r.1 == name
    ensures r.1 == [] || (r.1[0] == '.' && '.' !in r.1[1..])
  {
    match LastIndexOf(name, '.')
    case None => (name, [])
    case Some(k) =>
      if exists i :: 0 <= i < k && name[i] != '.' then
        assert name[..k] + name[k..] == name;
        assert name[k..][1..] == name[k + 1..];
        (name[..k], name[k..])
      else (name, [])
  }

  /** `os.path.splitext(os.path.basename(path))[0]`: the file name without its extension. */
  function FileStem(path: String): (r: String)
    ensures '/' !in r && StartsWith(Basename(path), r)
  {
    var parts := SplitExt(Basename(path));
    assert Basename(path)[..|parts.0|] == parts.0;
    parts.0
  }

  /**
   * A file `<c><ext>` in any directory has the stem `c`, when `c` has no '/' and no '.' and
   * `ext` is a dot followed by neither.
   */
  lemma FileStemOf(dir: String, c: String, ext: String)
    requires c != [] && '/' !in c && '.' !in c
    requires ext != [] && ext[0] == '.' && '.' !in ext[1..] && '/' !in ext
    ensures FileStem(JoinPath(dir, c + ext)) == c
  {
    assert '/' !in c + ext by {
      assert forall k :: 0 <= k < |c + ext| ==> (c + ext)[k] in c || (c + ext)[k] in ext;
    }
    BasenameOfJoin(dir, c + ext);
    SplitExtOf(c, ext);
  }

  lemma SplitExtOf(c: String, ext: String)
    requires c != [] && '.' !in c
    requires ext != [] && ext[0] == '.' && '.' !in ext[1..]
    ensures SplitExt(c + ext).0 == c
  {
    var name := c + ext;
    var k := LastIndexOf(name, '.').value;
    assert k == |c| by {
      assert name[|c|] == '.';
    }
    assert name[0] == c[0];
    assert name[..|c|] == c;
  }

  /** pathlib's `suffix`: from the last dot, when that dot is neither the first nor the last character. */
  function PathSuffix(name: String): (r: String)
    ensures r == [] || (r[0] == '.' && EndsWith(name, r) && |r| < |name| && |r| >= 2)
  {
    match LastIndexOf(name, '.')
    case None => []
    case Some(k) => if 0 < k < |name| - 1 then name[k..] else []
  }

  /** pathlib's `stem`: the name without its suffix. */
  function PathStem(name: String): (r: String)
    ensures r + PathSuffix(name) == name
  {
    var suffix := PathSuffix(name);
    assert name[..|name| - |suffix|] + suffix == name;
    name[..|name| - |suffix|]
  }

  /** `os.path.join(a, b)`: an absolute `b` replaces `a`; otherwise one '/' separates them unless `a` is empty or already ends in '/'. */
  function JoinPath(a: String, b: String): (r: String)
    ensures StartsWith(b, "/") ==> r == b
    ensures !StartsWith(b, "/") ==> StartsWith(r, a) && EndsWith(r, b)
  {
    if |b| > 0 && b[0] == '/' then b
    else if a == [] || a[|a| - 1] == '/' then
      assert (a + b)[..|a|] == a && (a + b)[|a + b| - |b|..] == b;
      a + b
    else
      assert (a + "/" + b)[..|a|] == a && (a + "/" + b)[|a + "/" + b| - |b|..] == b;
      a + "/" + b
  }

  /** The base name of a file joined onto a directory is the file's own name. */
  lemma BasenameOfJoin(dir: String, name: String)
    requires '/' !in name
    ensures Basename(JoinPath(dir, name)) == name
  {
    var r := JoinPath(dir, name);
    var k := |r| - |name|;
    if name == [] {
      assert r == dir || r == dir + "/";
      if r == dir + "/" {
        assert LastIndexOf(r, '/') == Some(|r| - 1);
      } else {
        assert dir == [] || dir[|dir| - 1] == '/';
      }
    } else {
      assert r[k..] == name;
      assert k > 0 ==> r[k - 1] == '/';
      if k == 0 {
        assert r == name;
        BasenameWithoutSlash(name);
      } else {
        assert LastIndexOf(r, '/') == Some(k - 1) by {
          assert '/' !in r[k..];
        }
      }
    }
  }
}
