/** File-name parts of a Windows path, as `Path.GetFileName` and
    `Path.GetExtension` take them apart.  Both `\` and `/` separate
    directories. */
module Paths {

  predicate IsSeparator(c: char) {
    c == '\\' || c == '/'
  }

  /** The position of the last character of `s[..end]` satisfying the
      separator test (or the dot test), or -1. */
  function LastOf(s: string, end: nat, dot: bool): (r: int)
    requires end <= |s|
    ensures -1 <= r < end
    ensures r >= 0 ==> (if dot then s[r] == '.' else IsSeparator(s[r]))
    ensures forall k | r < k < end :: if dot then s[k] != '.' else !IsSeparator(s[k])
  {
    if end == 0 then -1
    else if (if dot then s[end - 1] == '.' else IsSeparator(s[end - 1])) then end - 1
    else LastOf(s, end - 1, dot)
  }

  /** `Path.GetFileName`: what follows the last separator. */
  function FileName(path: string): (r: string)
    ensures |r| <= |path| && r == path[|path| - |r|..]
    ensures forall k | 0 <= k < |r| :: !IsSeparator(r[k])
    ensures |r| < |path| ==> IsSeparator(path[|path| - |r| - 1])
  {
    path[LastOf(path, |path|, false) + 1..]
  }

  /** `Path.GetExtension`: from the last dot of the file name on, or ""
      when the file name has no dot or ends with one. */
  function Extension(path: string): (r: string)
    ensures r == "" || (|r| >= 2 && r[0] == '.' && |r| <= |FileName(path)| && r == FileName(path)[|FileName(path)| - |r|..])
    ensures forall k | 1 <= k < |r| :: r[k] != '.' && !IsSeparator(r[k])
  {
    var name := FileName(path);
    var d := LastOf(name, |name|, true);
    if d < 0 || d == |name| - 1 then "" else name[d..]
  }

  /** A path with no separator is its own file name. */
  lemma FileNamePlain(path: string)
    requires forall k | 0 <= k < |path| :: !IsSeparator(path[k])
    ensures FileName(path) == path
  {
  }

  /** The extension is found when the file name ends in a dot and at
      least one character that is not a dot. */
  lemma ExtensionOf(dir: string, stem: string, ext: string)
    requires forall k | 0 <= k < |stem| :: !IsSeparator(stem[k])
    requires |ext| > 0 && forall k | 0 <= k < |ext| :: ext[k] != '.' && !IsSeparator(ext[k])
    ensures Extension(dir + "\\" + stem + "." + ext) == "." + ext
    ensures FileName(dir + "\\" + stem + "." + ext) == stem + "." + ext
  {
    var path := dir + "\\" + stem + "." + ext;
    var n := stem + "." + ext;
    assert path == (dir + "\\") + n;
    LastSeparatorIn(dir + "\\", n);
    assert FileName(path) == n;
    LastDotIn(stem, ext);
  }

  lemma {:induction false} LastSeparatorIn(a: string, n: string)
    requires |a| > 0 && IsSeparator(a[|a| - 1])
    requires forall k | 0 <= k < |n| :: !IsSeparator(n[k])
    ensures LastOf(a + n, |a + n|, false) == |a| - 1
    decreases |n|
  {
    if |n| > 0 {
      var m := n[..|n| - 1];
      assert (a + n)[..|a + m|] == a + m;
      LastSeparatorIn(a, m);
      LastOfPrefix(a + n, a + m, false);
    }
  }

  lemma {:induction false} LastDotIn(stem: string, ext: string)
    requires forall k | 0 <= k < |ext| :: ext[k] != '.'
    ensures LastOf(stem + "." + ext, |stem + "." + ext|, true) == |stem|
    decreases |ext|
  {
    var s := stem + "." + ext;
    if |ext| > 0 {
      var e := ext[..|ext| - 1];
      assert s[..|stem + "." + e|] == stem + "." + e;
      LastDotIn(stem, e);
      LastOfPrefix(s, stem + "." + e, dot := true);
    }
  }

  /** Searching back from the end of a prefix gives the same answer in the
      prefix and in the whole. */
  lemma {:induction false} LastOfPrefix(s: string, p: string, dot: bool)
    requires |p| < |s| && s[..|p|] == p
    requires if dot then s[|p|] != '.' else !IsSeparator(s[|p|])
    ensures LastOf(s, |p| + 1, dot) == LastOf(p, |p|, dot)
  {
    LastOfSame(s, p, |p|, dot);
  }

  lemma {:induction false} LastOfSame(s: string, p: string, end: nat, dot: bool)
    requires end <= |p| <= |s| && s[..|p|] == p
    ensures LastOf(s, end, dot) == LastOf(p, end, dot)
    decreases end
  {
    if end > 0 {
      assert s[end - 1] == p[end - 1];
      LastOfSame(s, p, end - 1, dot);
    }
  }
}
