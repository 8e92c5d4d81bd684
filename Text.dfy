/** String helpers shared by every parser: the .NET notion of white space,
    Trim, case folding, ordinal search and replace, Join, Split and
    decimal formatting. */
module Text {

  /** `char.IsWhiteSpace`, which is also the set of characters `\s` matches
      in a .NET regular expression (Unicode Z categories plus the controls
      U+0009..U+000D and U+0085). */
  predicate IsWhite(c: char) {
    c == ' ' || ('\t' <= c <= '\r') || c == '\U{85}' || c == '\U{A0}'
    || c == '\U{1680}' || ('\U{2000}' <= c <= '\U{200A}') || c == '\U{2028}'
    || c == '\U{2029}' || c == '\U{202F}' || c == '\U{205F}' || c == '\U{3000}'
  }

  /** `string.IsNullOrWhiteSpace` for a non-null string. */
  predicate IsBlank(s: string) {
    forall i | 0 <= i < |s| :: IsWhite(s[i])
  }

  /** The decimal digits `\d` stands for (ASCII only in this model). */
  predicate IsDigit(c: char) {
    '0' <= c <= '9'
  }

  /** Number of white-space characters at the start of `s`. */
  function LeadWhite(s: string): (n: nat)
    ensures n <= |s|
    ensures forall i | 0 <= i < n :: IsWhite(s[i])
    ensures n < |s| ==> !IsWhite(s[n])
  {
    if |s| > 0 && IsWhite(s[0]) then 1 + LeadWhite(s[1..]) else 0
  }

  /** Number of white-space characters at the end of `s`. */
  function TrailWhite(s: string): (n: nat)
    ensures n <= |s|
    ensures forall i | |s| - n <= i < |s| :: IsWhite(s[i])
    ensures n < |s| ==> !IsWhite(s[|s| - n - 1])
  {
    if |s| > 0 && IsWhite(s[|s| - 1]) then 1 + TrailWhite(s[..|s| - 1]) else 0
  }

  function TrimStart(s: string): string {
    s[LeadWhite(s)..]
  }

  function TrimEnd(s: string): string {
    s[..|s| - TrailWhite(s)]
  }

  /** `string.Trim()`: white space removed from both ends. */
  function Trim(s: string): string {
    TrimEnd(TrimStart(s))
  }

  /** The trimmed string is a slice of the original that starts and ends
      with a non-white character, and it is empty exactly for blank input. */
  lemma TrimFacts(s: string)
    ensures var r := Trim(s);
      && |r| <= |s|
      && (r == [] <==> IsBlank(s))
      && (r != [] ==> !IsWhite(r[0]) && !IsWhite(r[|r| - 1]))
      && r == s[LeadWhite(s)..LeadWhite(s) + |r|]
  {
    var t := TrimStart(s);
    var r := Trim(s);
    if r != [] {
      assert r[0] == t[0];
      assert !IsBlank(s) by {
        assert s[LeadWhite(s)] == t[0];
      }
    }
  }

  lemma TrimBlank(s: string)
    ensures Trim(s) == [] <==> IsBlank(s)
  {
    TrimFacts(s);
  }

  /** A string with no white space at either end is its own trim. */
  lemma TrimNoEdges(s: string)
    requires s == [] || (!IsWhite(s[0]) && !IsWhite(s[|s| - 1]))
    ensures Trim(s) == s
  {
    assert LeadWhite(s) == 0;
    assert TrimStart(s) == s;
  }

  lemma TrimIdempotent(s: string)
    ensures Trim(Trim(s)) == Trim(s)
  {
    TrimFacts(s);
    TrimNoEdges(Trim(s));
  }

  /** The lower-case mapping used wherever the source calls `ToLower()` or
      compares ignoring case: ASCII, Latin-1 and the Turkish capitals
      (dotted capital I folds to plain `i`). */
  function LowerChar(c: char): char {
    if 'A' <= c <= 'Z' then (c as int + 32) as char
    else if '\U{C0}' <= c <= '\U{DE}' && c != '\U{D7}' then (c as int + 32) as char
    else if c == 'Ğ' then 'ğ'
    else if c == 'Ş' then 'ş'
    else if c == 'İ' then 'i'
    else c
  }

  function Lower(s: string): (r: string)
    ensures |r| == |s|
    ensures forall i | 0 <= i < |s| :: r[i] == LowerChar(s[i])
  {
    seq(|s|, i requires 0 <= i < |s| => LowerChar(s[i]))
  }

  /** Lower-casing twice is lower-casing once: no ASCII capital is left,
      and every other ASCII character is kept. */
  lemma LowerIdempotent(s: string)
    ensures Lower(Lower(s)) == Lower(s)
    ensures forall c | c in Lower(s) :: !('A' <= c <= 'Z')
    ensures forall i | 0 <= i < |s| && s[i] < '\U{80}' && !('A' <= s[i] <= 'Z') :: Lower(s)[i] == s[i]
  {
    var l := Lower(s);
    forall i | 0 <= i < |l| ensures Lower(l)[i] == l[i] {
      LowerCharIdempotent(s[i]);
    }
    forall c | c in l ensures !('A' <= c <= 'Z') {
      var i :| 0 <= i < |l| && l[i] == c;
      assert c == LowerChar(s[i]);
    }
  }

  lemma LowerCharIdempotent(c: char)
    ensures LowerChar(LowerChar(c)) == LowerChar(c)
  {
  }

  /** `t` occurs in `s` at position `i`. */
  predicate OccursAt(s: string, t: string, i: int) {
    0 <= i && i + |t| <= |s| && s[i..i + |t|] == t
  }

  predicate Contains(s: string, t: string) {
    exists i | 0 <= i <= |s| - |t| :: OccursAt(s, t, i)
  }

  /** Ordinal `IndexOf(t)` starting the search at `from`; -1 when absent. */
  function IndexFrom(s: string, t: string, from: nat): (r: int)
    requires from <= |s|
    ensures r == -1 || (from <= r && OccursAt(s, t, r))
    ensures r != -1 ==> forall k | from <= k < r :: !OccursAt(s, t, k)
    ensures r == -1 ==> forall k | from <= k :: !OccursAt(s, t, k)
    decreases |s| - from
  {
    if from + |t| > |s| then -1
    else if s[from..from + |t|] == t then from
    else if from == |s| then -1
    else IndexFrom(s, t, from + 1)
  }

  function IndexOf(s: string, t: string): int {
    IndexFrom(s, t, 0)
  }

  /** `IndexOf(t) >= 0` is exactly containment, and the index returned is
      the first occurrence. */
  lemma IndexOfContains(s: string, t: string)
    ensures IndexOf(s, t) >= 0 <==> Contains(s, t)
    ensures IndexOf(s, t) >= 0 ==> OccursAt(s, t, IndexOf(s, t))
  {
    if IndexOf(s, t) >= 0 {
      assert OccursAt(s, t, IndexOf(s, t));
    }
  }

  /** `IndexOf(t, StringComparison.OrdinalIgnoreCase) >= 0`. */
  predicate ContainsIgnoreCase(s: string, t: string) {
    IndexOf(Lower(s), Lower(t)) >= 0
  }

  /** Ordinal `string.Replace(pat, rep)`: every non-overlapping occurrence,
      scanning left to right.  .NET refuses an empty `pat`. */
  function Replace(s: string, pat: string, rep: string): (r: string)
    requires |pat| > 0
    decreases |s|
  {
    if |s| < |pat| then s
    else if s[..|pat|] == pat then rep + Replace(s[|pat|..], pat, rep)
    else [s[0]] + Replace(s[1..], pat, rep)
  }

  /** Replacing a string that does not occur changes nothing. */
  lemma {:induction false} ReplaceAbsent(s: string, pat: string, rep: string)
    requires |pat| > 0
    requires !Contains(s, pat)
    ensures Replace(s, pat, rep) == s
    decreases |s|
  {
    if |s| >= |pat| {
      assert !OccursAt(s, pat, 0);
      assert !Contains(s[1..], pat) by {
        forall i | 0 <= i <= |s[1..]| - |pat| ensures !OccursAt(s[1..], pat, i) {
          assert s[1..][i..i + |pat|] == s[i + 1..i + 1 + |pat|];
          assert !OccursAt(s, pat, i + 1);
        }
      }
      ReplaceAbsent(s[1..], pat, rep);
    }
  }

  /** `string.Join(sep, parts)`. */
  function Join(sep: string, parts: seq<string>): string
    decreases |parts|
  {
    if |parts| == 0 then ""
    else if |parts| == 1 then parts[0]
    else Join(sep, parts[..|parts| - 1]) + sep + parts[|parts| - 1]
  }

  /** `s.Split(new[] { sep }, StringSplitOptions.RemoveEmptyEntries)`. */
  function SplitOn(s: string, sep: string): (r: seq<string>)
    requires |sep| > 0
    ensures forall k | 0 <= k < |r| :: r[k] != []
    decreases |s|
  {
    var i := IndexOf(s, sep);
    if i < 0 then (if s == [] then [] else [s])
    else (if i == 0 then [] else [s[..i]]) + SplitOn(s[i + |sep|..], sep)
  }

  predicate IsLineBreak(c: char) {
    c == '\n' || c == '\r'
  }

  /** Length of the prefix of `s` before the first line-break character. */
  function LineLength(s: string): (n: nat)
    ensures n <= |s|
    ensures forall k | 0 <= k < n :: !IsLineBreak(s[k])
    ensures n < |s| ==> IsLineBreak(s[n])
  {
    if |s| == 0 || IsLineBreak(s[0]) then 0 else 1 + LineLength(s[1..])
  }

  /** `s.Split(new[] { '\n', '\r' }, StringSplitOptions.RemoveEmptyEntries)`. */
  function SplitLines(s: string): (r: seq<string>)
    ensures forall k | 0 <= k < |r| :: r[k] != []
    ensures forall k, j | 0 <= k < |r| && 0 <= j < |r[k]| :: !IsLineBreak(r[k][j])
    decreases |s|
  {
    if s == [] then []
    else if IsLineBreak(s[0]) then SplitLines(s[1..])
    else
      var n := LineLength(s);
      [s[..n]] + SplitLines(s[n..])
  }

  function DigitChar(d: nat): (c: char)
    requires d < 10
    ensures IsDigit(c)
  {
    ('0' as int + d) as char
  }

  function DigitValue(c: char): (d: nat)
    requires IsDigit(c)
    ensures d < 10
  {
    c as int - '0' as int
  }

  predicate AllDigits(s: string) {
    forall i | 0 <= i < |s| :: IsDigit(s[i])
  }

  /** The decimal form of `n`, as `int.ToString()` writes a non-negative number. */
  function NatToString(n: nat): (r: string)
    ensures |r| > 0 && AllDigits(r)
    decreases n
  {
    if n < 10 then [DigitChar(n)] else NatToString(n / 10) + [DigitChar(n % 10)]
  }

  /** The number a run of decimal digits denotes. */
  function DigitsValue(s: string): nat
    requires AllDigits(s)
    decreases |s|
  {
    if |s| == 0 then 0 else 10 * DigitsValue(s[..|s| - 1]) + DigitValue(s[|s| - 1])
  }

  /** Reading back a formatted number gives the number. */
  lemma {:induction false} NatToStringRoundTrip(n: nat)
    ensures DigitsValue(NatToString(n)) == n
    decreases n
  {
    if n >= 10 {
      var s := NatToString(n);
      NatToStringRoundTrip(n / 10);
      assert s[..|s| - 1] == NatToString(n / 10);
    }
  }

  /** The `D2` format: at least two digits, zero padded. */
  function TwoDigits(n: nat): (r: string)
    ensures |r| >= 2 && AllDigits(r)
    ensures n < 100 ==> |r| == 2
  {
    if n < 10 then "0" + NatToString(n)
    else
      assert n < 100 ==> NatToString(n) == NatToString(n / 10) + [DigitChar(n % 10)];
      NatToString(n)
  }

  /** Ordinal string order: `a` is a prefix of `b`, or at the first
      position where they differ `a` has the smaller character. */
  predicate LexLe(a: string, b: string)
    decreases |a|
  {
    |a| == 0 || (|b| > 0 && (a[0] < b[0] || (a[0] == b[0] && LexLe(a[1..], b[1..]))))
  }

  /** The ordinal order is total, antisymmetric and transitive. */
  lemma {:induction false} LexLeTotal(a: string, b: string)
    ensures LexLe(a, b) || LexLe(b, a)
    ensures LexLe(a, b) && LexLe(b, a) ==> a == b
    decreases |a|
  {
    if |a| > 0 && |b| > 0 && a[0] == b[0] {
      LexLeTotal(a[1..], b[1..]);
      if LexLe(a, b) && LexLe(b, a) {
        assert a == [a[0]] + a[1..] && b == [b[0]] + b[1..];
      }
    }
  }

  lemma {:induction false} LexLeTransitive(a: string, b: string, c: string)
    requires LexLe(a, b) && LexLe(b, c)
    ensures LexLe(a, c)
    decreases |a|
  {
    if |a| > 0 && a[0] == b[0] && b[0] == c[0] {
      LexLeTransitive(a[1..], b[1..], c[1..]);
    }
  }

  /** `Environment.NewLine`, which `AppendLine` writes, on Windows. */
  const NewLine: string := "\r\n"
}
