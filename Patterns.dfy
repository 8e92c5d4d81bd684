/** The fixed regular expressions of the parsers, written out as matchers.

    Each pattern answers, for a start position, whether it matches there and
    how long the match is, following the .NET backtracking semantics of the
    original expression (greedy quantifiers, alternatives tried in order).
    `Find` gives the leftmost match, `Matches` the successive
    non-overlapping matches and `ReplaceAll` what `Regex.Replace` returns. */
module Patterns {
  import opened Wrappers
  import opened Text

  /** Characters `\b` treats as word characters: `\w` (letters, non-spacing
      marks, decimal digits, connector punctuation) plus ZWNJ and ZWJ.
      Letters are modelled for the Latin script; `²` and `³` are not word
      characters. */
  predicate IsWordChar(c: char) {
    ('a' <= c <= 'z') || ('A' <= c <= 'Z') || IsDigit(c) || c == '_'
    || c == '\U{AA}' || c == '\U{B5}' || c == '\U{BA}'
    || ('\U{C0}' <= c <= '\U{D6}') || ('\U{D8}' <= c <= '\U{F6}')
    || ('\U{F8}' <= c <= '\U{2AF}') || ('\U{300}' <= c <= '\U{36F}')
    || c == '\U{200C}' || c == '\U{200D}'
  }

  predicate WordAt(s: string, i: int) {
    0 <= i < |s| && IsWordChar(s[i])
  }

  /** `\b` holds at position `i` (between `s[i-1]` and `s[i]`). */
  predicate Boundary(s: string, i: int) {
    WordAt(s, i - 1) != WordAt(s, i)
  }

  /** Length of the run of digits starting at `i`. */
  function DigitRun(s: string, i: nat): (n: nat)
    requires i <= |s|
    ensures i + n <= |s|
    ensures forall k | i <= k < i + n :: IsDigit(s[k])
    ensures i + n < |s| ==> !IsDigit(s[i + n])
    decreases |s| - i
  {
    if i < |s| && IsDigit(s[i]) then 1 + DigitRun(s, i + 1) else 0
  }

  /** Length of the run of white space starting at `i` (what a greedy `\s+`
      or `\s*` takes). */
  function WhiteRun(s: string, i: nat): (n: nat)
    requires i <= |s|
    ensures i + n <= |s|
    ensures forall k | i <= k < i + n :: IsWhite(s[k])
    ensures i + n < |s| ==> !IsWhite(s[i + n])
    decreases |s| - i
  {
    if i < |s| && IsWhite(s[i]) then 1 + WhiteRun(s, i + 1) else 0
  }

  /** The literal `lit` at position `i`, ignoring case. */
  predicate LitAt(s: string, i: nat, lit: string) {
    i + |lit| <= |s| && forall k | 0 <= k < |lit| :: LowerChar(s[i + k]) == LowerChar(lit[k])
  }

  /** One alternative of the unit group: a word, or a count, white space and
      a word. */
  datatype UnitForm = Plain(word: string) | Counted(count: string, word: string)

  /** `(Ton|m³|m²|Ad|1000\s+Ad|100\s+m²)`, in the order the regex tries them. */
  const UnitForms: seq<UnitForm> :=
    [Plain("Ton"), Plain("m³"), Plain("m²"), Plain("Ad"), Counted("1000", "Ad"), Counted("100", "m²")]

  function FormLength(f: UnitForm, s: string, i: nat): (r: Option<nat>)
    requires i <= |s|
    ensures r.Some? ==> |f.word| <= r.value && i + r.value <= |s|
  {
    match f
    case Plain(w) => if LitAt(s, i, w) then Some(|w|) else None
    case Counted(c, w) =>
      if !LitAt(s, i, c) then None
      else
        var ws := WhiteRun(s, i + |c|);
        if ws > 0 && LitAt(s, i + |c| + ws, w) then Some(|c| + ws + |w|) else None
  }

  /** The unit group followed by `\b`, trying the alternatives from the
      `k`-th on: the first one that matches and is followed by a boundary. */
  function UnitFrom(s: string, i: nat, k: nat): (r: Option<nat>)
    requires i <= |s| && k <= |UnitForms|
    ensures r.Some? ==> 0 < r.value && i + r.value <= |s| && Boundary(s, i + r.value)
    decreases |UnitForms| - k
  {
    if k == |UnitForms| then None
    else
      match FormLength(UnitForms[k], s, i)
      case Some(n) => if Boundary(s, i + n) then Some(n) else UnitFrom(s, i, k + 1)
      case None => UnitFrom(s, i, k + 1)
  }

  /** The words of a phrase separated by white space, ignoring case.  Each
      word is assumed not to start with white space, so the greedy `\s+`
      never needs to give characters back. */
  function PhraseLength(s: string, i: nat, words: seq<string>): (r: Option<nat>)
    requires i <= |s|
    ensures r.Some? ==> i + r.value <= |s|
    decreases |words|
  {
    if |words| == 0 then Some(0)
    else if !LitAt(s, i, words[0]) then None
    else if |words| == 1 then Some(|words[0]|)
    else
      var j := i + |words[0]|;
      var ws := WhiteRun(s, j);
      if ws == 0 then None
      else
        match PhraseLength(s, j + ws, words[1..])
        case Some(n) => Some(|words[0]| + ws + n)
        case None => None
  }

  /** Two digits, a dot, three digits, a dot and four digits at `i`. */
  predicate PozShape(s: string, i: nat) {
    i + 11 <= |s|
    && IsDigit(s[i]) && IsDigit(s[i + 1]) && s[i + 2] == '.'
    && IsDigit(s[i + 3]) && IsDigit(s[i + 4]) && IsDigit(s[i + 5]) && s[i + 6] == '.'
    && IsDigit(s[i + 7]) && IsDigit(s[i + 8]) && IsDigit(s[i + 9]) && IsDigit(s[i + 10])
  }

  /** A complete position number: exactly the 11-character shape. */
  predicate IsPozToken(t: string) {
    |t| == 11 && PozShape(t, 0)
  }

  datatype Pattern =
    | PozNo                      // (\d{2}\.\d{3}\.\d{4})(?!\d)
    | PozNoLoose                 // (\d{2}\.\d{3}\.\d{4})
    | Unit                       // \b(Ton|m³|m²|Ad|1000\s+Ad|100\s+m²)\b, ignoring case
    | CountedUnit                // (\d+)\s+(Ton|m³|m²|Ad|1000\s+Ad|100\s+m²)\b, ignoring case
    | Price                      // \b\d{1,3}[.,]\d{2}\b
    | Phrase(words: seq<string>) // words joined by \s+, ignoring case

  /** `TÜİK\s+Endeksleriyle\s+Güncel\s+Fiyatlar` */
  const TuikTurkish: Pattern := Phrase(["TÜİK", "Endeksleriyle", "Güncel", "Fiyatlar"])
  /** `TUIK\s+Endeksleriyle\s+Guncel\s+Fiyatlar` */
  const TuikAscii: Pattern := Phrase(["TUIK", "Endeksleriyle", "Guncel", "Fiyatlar"])

  /** Length of the match of `p` that starts at position `i`, if any.  None
      of the patterns can match the empty string. */
  function MatchAt(p: Pattern, s: string, i: nat): (r: Option<nat>)
    requires i <= |s|
    ensures r.Some? ==> 0 < r.value && i + r.value <= |s|
  {
    match p
    case PozNo =>
      if PozShape(s, i) && !(i + 11 < |s| && IsDigit(s[i + 11])) then Some(11) else None
    case PozNoLoose =>
      if PozShape(s, i) then Some(11) else None
    case Unit =>
      if Boundary(s, i) then UnitFrom(s, i, 0) else None
    case CountedUnit =>
      var d := DigitRun(s, i);
      var w := WhiteRun(s, i + d);
      if d > 0 && w > 0 then
        (match UnitFrom(s, i + d + w, 0)
         case Some(n) => Some(d + w + n)
         case None => None)
      else None
    case Price =>
      // \d{1,3} can only succeed with the whole digit run: a shorter run
      // would leave a digit where [.,] is required.
      var d := DigitRun(s, i);
      if Boundary(s, i) && 1 <= d <= 3 && i + d + 3 <= |s|
         && (s[i + d] == '.' || s[i + d] == ',')
         && IsDigit(s[i + d + 1]) && IsDigit(s[i + d + 2]) && Boundary(s, i + d + 3)
      then Some(d + 3) else None
    case Phrase(ws) =>
      (match PhraseLength(s, i, ws)
       case Some(n) => if n > 0 then Some(n) else None
       case None => None)
  }

  /** Where a match starts and how long it is. */
  datatype Span = Span(index: nat, length: nat)

  /** The text a match covers (`Match.Value`). */
  function Value(s: string, m: Span): string
    requires m.index + m.length <= |s|
  {
    s[m.index..m.index + m.length]
  }

  /** The leftmost match starting at or after `from`. */
  function FindFrom(p: Pattern, s: string, from: nat): (r: Option<Span>)
    requires from <= |s|
    ensures r.Some? ==> from <= r.value.index <= |s| && MatchAt(p, s, r.value.index) == Some(r.value.length)
    ensures r.Some? ==> 0 < r.value.length && r.value.index + r.value.length <= |s|
    ensures r.Some? ==> forall k | from <= k < r.value.index :: MatchAt(p, s, k).None?
    ensures r.None? ==> forall k | from <= k <= |s| :: MatchAt(p, s, k).None?
    decreases |s| - from
  {
    match MatchAt(p, s, from)
    case Some(n) => Some(Span(from, n))
    case None => if from == |s| then None else FindFrom(p, s, from + 1)
  }

  /** `Regex.Match(s)`. */
  function Find(p: Pattern, s: string): Option<Span> {
    FindFrom(p, s, 0)
  }

  /** `Regex.Matches(s)` from position `from`: each match is the leftmost one
      at or after the end of the previous. */
  function MatchesFrom(p: Pattern, s: string, from: nat): (r: seq<Span>)
    requires from <= |s|
    ensures forall k | 0 <= k < |r| :: from <= r[k].index && 0 < r[k].length && r[k].index + r[k].length <= |s|
    ensures forall k | 0 <= k < |r| :: MatchAt(p, s, r[k].index) == Some(r[k].length)
    ensures forall k | 0 <= k < |r| - 1 :: r[k].index + r[k].length <= r[k + 1].index
    decreases |s| - from
  {
    match FindFrom(p, s, from)
    case None => []
    case Some(m) => [m] + MatchesFrom(p, s, m.index + m.length)
  }

  function Matches(p: Pattern, s: string): seq<Span> {
    MatchesFrom(p, s, 0)
  }

  /** What a match is replaced by: fixed text, or `$1` when group 1 is the
      leading digit run (as in `CountedUnit`). */
  datatype Replacement = Put(text: string) | LeadingDigits

  function Substitute(rep: Replacement, s: string, m: Span): string
    requires m.index + m.length <= |s|
  {
    match rep
    case Put(t) => t
    case LeadingDigits => s[m.index..m.index + DigitRun(s, m.index)]
  }

  /** `Regex.Replace` from position `from` on. */
  function ReplaceFrom(p: Pattern, s: string, from: nat, rep: Replacement): string
    requires from <= |s|
    decreases |s| - from
  {
    match FindFrom(p, s, from)
    case None => s[from..]
    case Some(m) => s[from..m.index] + Substitute(rep, s, m) + ReplaceFrom(p, s, m.index + m.length, rep)
  }

  function ReplaceAll(p: Pattern, s: string, rep: Replacement): string {
    ReplaceFrom(p, s, 0, rep)
  }

  /** `Find` returns the match at the leftmost position where `p` matches. */
  lemma FindLeftmost(p: Pattern, s: string, i: nat)
    requires i <= |s| && MatchAt(p, s, i).Some?
    requires forall k | 0 <= k < i :: MatchAt(p, s, k).None?
    ensures Find(p, s) == Some(Span(i, MatchAt(p, s, i).value))
  {
  }

  /** `Find` starts no match before a position where none of the earlier
      ones match, and finds nothing when no position matches. */
  lemma FindNotBefore(p: Pattern, s: string, e: nat)
    requires e <= |s|
    requires forall k | 0 <= k < e :: MatchAt(p, s, k).None?
    ensures Find(p, s).Some? ==> Find(p, s).value.index >= e
    ensures (forall k | e <= k <= |s| :: MatchAt(p, s, k).None?) ==> Find(p, s).None?
  {
    var r := Find(p, s);
    if r.Some? {
      assert MatchAt(p, s, r.value.index).Some?;
    }
  }

  /** The PozNo matcher finds exactly the leftmost complete position number
      that no digit follows, and nothing when there is none. */
  lemma PozNoLeftmost(s: string)
    ensures match Find(PozNo, s)
      case Some(m) =>
        && IsPozToken(Value(s, m))
        && (m.index + 11 == |s| || !IsDigit(s[m.index + 11]))
        && forall k | 0 <= k < m.index :: !(PozShape(s, k) && !(k + 11 < |s| && IsDigit(s[k + 11])))
      case None =>
        forall k | 0 <= k <= |s| :: !(PozShape(s, k) && !(k + 11 < |s| && IsDigit(s[k + 11])))
  {
    match Find(PozNo, s)
    case Some(m) =>
      forall k | 0 <= k < m.index
        ensures !(PozShape(s, k) && !(k + 11 < |s| && IsDigit(s[k + 11])))
      {
        assert MatchAt(PozNo, s, k).None?;
      }
      var v := Value(s, m);
      assert forall j | 0 <= j < 11 :: v[j] == s[m.index + j];
    case None =>
      forall k | 0 <= k <= |s|
        ensures !(PozShape(s, k) && !(k + 11 < |s| && IsDigit(s[k + 11])))
      {
        assert MatchAt(PozNo, s, k).None?;
      }
  }

  /** Every PozNo match is a complete, non-blank, 11-character token. */
  lemma PozNoValue(s: string, m: Span)
    requires m.index + m.length <= |s|
    requires MatchAt(PozNo, s, m.index) == Some(m.length) || MatchAt(PozNoLoose, s, m.index) == Some(m.length)
    ensures IsPozToken(Value(s, m)) && !IsBlank(Value(s, m))
  {
    var v := Value(s, m);
    assert forall j | 0 <= j < 11 :: v[j] == s[m.index + j];
    assert !IsWhite(v[0]);
  }

  /** No white-space character is other than a single space, and no two
      white-space characters are adjacent. */
  ghost predicate SingleSpaced(t: string) {
    forall k | 0 <= k < |t| && IsWhite(t[k]) :: t[k] == ' ' && (k + 1 < |t| ==> !IsWhite(t[k + 1]))
  }

  predicate NoWhite(t: string) {
    forall k | 0 <= k < |t| :: !IsWhite(t[k])
  }

  lemma SingleSpacedJoin(a: string, b: string)
    requires NoWhite(a) && SingleSpaced(b) && (b == [] || !IsWhite(b[0]))
    ensures SingleSpaced(a + " " + b)
  {
    var t := a + " " + b;
    forall k | 0 <= k < |t| && IsWhite(t[k])
      ensures t[k] == ' ' && (k + 1 < |t| ==> !IsWhite(t[k + 1]))
    {
      if k == |a| {
        if k + 1 < |t| { assert t[k + 1] == b[0]; }
      } else if k > |a| {
        assert t[k] == b[k - |a| - 1];
        if k + 1 < |t| { assert t[k + 1] == b[k - |a|]; }
      }
    }
  }

  /** A non-white character followed by a single-spaced string. */
  lemma SingleSpacedCons(c: char, b: string)
    requires !IsWhite(c) && SingleSpaced(b)
    ensures SingleSpaced([c] + b)
  {
    var t := [c] + b;
    forall k | 0 <= k < |t| && IsWhite(t[k])
      ensures t[k] == ' ' && (k + 1 < |t| ==> !IsWhite(t[k + 1]))
    {
      assert t[k] == b[k - 1];
      if k + 1 < |t| { assert t[k + 1] == b[k]; }
    }
  }

  /** `Regex.Replace(s, @"\s+", " ")` from position `from` on, where `from`
      is the start of the text or follows a non-white character or a
      replaced run: the scan puts one space for each maximal run of white
      space and copies every other character. */
  function CollapseRuns(s: string, from: nat): string
    requires from <= |s|
    decreases |s| - from
  {
    if from == |s| then ""
    else if IsWhite(s[from]) then " " + CollapseRuns(s, from + WhiteRun(s, from))
    else [s[from]] + CollapseRuns(s, from + 1)
  }

  /** Collapsing `\s+` to a single space leaves a single-spaced string, and
      when the scan starts at a non-white character the result starts with
      it. */
  lemma {:induction false} CollapseFrom(s: string, from: nat)
    requires from <= |s|
    ensures SingleSpaced(CollapseRuns(s, from))
    ensures from < |s| && !IsWhite(s[from]) ==>
      var r := CollapseRuns(s, from);
      r != [] && r[0] == s[from]
    decreases |s| - from
  {
    if from < |s| {
      if IsWhite(s[from]) {
        var e := from + WhiteRun(s, from);
        CollapseFrom(s, e);
        SingleSpacedJoin("", CollapseRuns(s, e));
        assert "" + " " + CollapseRuns(s, e) == CollapseRuns(s, from);
      } else {
        CollapseFrom(s, from + 1);
        SingleSpacedCons(s[from], CollapseRuns(s, from + 1));
      }
    }
  }

  lemma CollapseSingleSpaced(s: string)
    ensures SingleSpaced(CollapseRuns(s, 0))
  {
    CollapseFrom(s, 0);
  }

  /** Trimming keeps a string single-spaced. */
  lemma TrimSingleSpaced(t: string)
    requires SingleSpaced(t)
    ensures SingleSpaced(Trim(t))
  {
    TrimFacts(t);
    var r := Trim(t);
    var a := LeadWhite(t);
    forall k | 0 <= k < |r| && IsWhite(r[k])
      ensures r[k] == ' ' && (k + 1 < |r| ==> !IsWhite(r[k + 1]))
    {
      assert r[k] == t[a + k];
      if k + 1 < |r| { assert r[k + 1] == t[a + k + 1]; }
    }
  }

  /** A replacement scan that finds nothing returns its input. */
  lemma ReplaceNoMatch(p: Pattern, s: string, rep: Replacement)
    requires Find(p, s).None?
    ensures ReplaceAll(p, s, rep) == s
  {
  }
}
