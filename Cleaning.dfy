/** The description cleaners of the three parsers.

    All of them run the same chain of regular-expression replacements over a
    description: remove the position number, blank out prices, reduce
    "count unit" to the count, blank out units, blank out the TÜİK phrase,
    collapse white space and cap the length at 500 characters plus "...".
    They differ in which steps they run and where they trim; `Steps`
    records those differences. */
module Cleaning {
  import opened Wrappers
  import opened Text
  import opened Patterns

  /** Descriptions longer than this are cut and marked with "...". */
  const Limit: nat := 500

  /** Trimmed, single spaced text: no white space at either end, and every
      white-space character is a lone space. */
  ghost predicate Tidy(t: string) {
    SingleSpaced(t) && (t == [] || (!IsWhite(t[0]) && !IsWhite(t[|t| - 1])))
  }

  /** Which steps a cleaner runs: the position number to remove (if any),
      whether the result of the count-unit step is trimmed, and whether the
      TÜİK phrase is removed. */
  datatype Steps = Steps(removePoz: Option<string>, trimAfterCounts: bool, stripTuik: bool)

  predicate ValidSteps(st: Steps) {
    st.removePoz.Some? ==> |st.removePoz.value| > 0
  }

  /** `t.Replace(pozNo, "").Trim()`, when the cleaner removes it. */
  function RemovePoz(t: string, st: Steps): string
    requires ValidSteps(st)
  {
    match st.removePoz
    case Some(poz) => Trim(Replace(t, poz, ""))
    case None => t
  }

  /** Prices replaced by a space, then trimmed. */
  function StripPrices(t: string): string {
    Trim(ReplaceAll(Price, t, Put(" ")))
  }

  /** `(\d+)\s+unit` replaced by `$1`, trimmed when the cleaner does so. */
  function KeepCounts(t: string, st: Steps): string {
    var r := ReplaceAll(CountedUnit, t, LeadingDigits);
    if st.trimAfterCounts then Trim(r) else r
  }

  /** Stand-alone units replaced by a space, then trimmed. */
  function StripUnits(t: string): string {
    Trim(ReplaceAll(Unit, t, Put(" ")))
  }

  /** The TÜİK phrase, in Turkish and then in ASCII spelling, replaced by a
      space, when the cleaner does so. */
  function StripTuik(t: string, st: Steps): string {
    if st.stripTuik then ReplaceAll(TuikAscii, ReplaceAll(TuikTurkish, t, Put(" ")), Put(" ")) else t
  }

  /** `Regex.Replace(t, @"\s+", " ").Trim()`. */
  function Collapse(t: string): (r: string)
    ensures Tidy(r)
  {
    var c := CollapseRuns(t, 0);
    CollapseSingleSpaced(t);
    TrimSingleSpaced(c);
    TrimFacts(c);
    Trim(c)
  }

  /** The length cap: more than `Limit` characters are cut to `Limit` and
      "..." is appended. */
  function Truncate(t: string): (r: string)
    requires Tidy(t)
    ensures Tidy(r) && |r| <= Limit + 3
    ensures |t| <= Limit ==> r == t
    ensures |t| > Limit ==> |r| == Limit + 3 && r[..Limit] == t[..Limit] && r[Limit..] == "..."
  {
    if |t| > Limit then
      var r := t[..Limit] + "...";
      assert SingleSpaced(r) by {
        forall k | 0 <= k < |r| && IsWhite(r[k])
          ensures r[k] == ' ' && (k + 1 < |r| ==> !IsWhite(r[k + 1]))
        {
          assert k < Limit && r[k] == t[k];
          if k + 1 < Limit { assert r[k + 1] == t[k + 1]; }
        }
      }
      assert r[0] == t[0];
      r
    else t
  }

  /** The whole chain, before the length cap. */
  function Collapsed(t: string, st: Steps): (r: string)
    requires ValidSteps(st)
    ensures Tidy(r)
  {
    Collapse(StripTuik(StripUnits(KeepCounts(StripPrices(RemovePoz(t, st)), st)), st))
  }

  /** The whole chain.  The result is tidy and at most 503 characters long;
      it ends in "..." with the first 500 characters of the collapsed text
      exactly when that text was longer than 500 characters. */
  function Clean(t: string, st: Steps): (r: string)
    requires ValidSteps(st)
    ensures Tidy(r) && |r| <= Limit + 3
    ensures var c := Collapsed(t, st);
      && (|c| <= Limit ==> r == c)
      && (|c| > Limit ==> |r| == Limit + 3 && r[..Limit] == c[..Limit] && r[Limit..] == "...")
  {
    Truncate(Collapsed(t, st))
  }

  /** `PdfParser.CleanTanim`: blank input is returned as it is; otherwise
      the position number, prices, counted units, units and the TÜİK phrase
      are removed, trimming after every step. */
  function PdfCleanTanim(t: string, pozNo: string): (r: string)
    requires |pozNo| > 0
    ensures IsBlank(t) ==> r == t
    ensures !IsBlank(t) ==> Tidy(r) && |r| <= Limit + 3
  {
    if IsBlank(t) then t else Clean(t, Steps(Some(pozNo), true, true))
  }

  /** `ExcelParser.CleanTanim`: like the PDF cleaner, but the position
      number is kept and the count-unit step is not followed by a trim. */
  function ExcelCleanTanim(t: string): (r: string)
    ensures IsBlank(t) ==> r == t
    ensures !IsBlank(t) ==> Tidy(r) && |r| <= Limit + 3
  {
    if IsBlank(t) then t else Clean(t, Steps(None, false, true))
  }

  /** Collapsing a single-spaced text from position `from` returns the rest
      of the text unchanged. */
  lemma {:induction false} CollapseKeepsFrom(s: string, from: nat)
    requires from <= |s| && SingleSpaced(s)
    ensures CollapseRuns(s, from) == s[from..]
    decreases |s| - from
  {
    if from < |s| {
      if IsWhite(s[from]) {
        assert s[from] == ' ' && (from + 1 < |s| ==> !IsWhite(s[from + 1]));
        assert WhiteRun(s, from) == 1;
      }
      CollapseKeepsFrom(s, from + 1);
      assert s[from..] == [s[from]] + s[from + 1..];
    }
  }

  /** A tidy text is its own collapse. */
  lemma CollapseTidy(t: string)
    requires Tidy(t)
    ensures Collapse(t) == t
  {
    CollapseKeepsFrom(t, 0);
    TrimNoEdges(t);
  }

  /** A tidy description of at most 500 characters without prices, units or
      the TÜİK phrase is left unchanged by the spreadsheet cleaner: that
      cleaner never removes anything else, the position number included. */
  lemma ExcelCleanFixpoint(t: string)
    requires Tidy(t) && |t| <= Limit
    requires Find(Price, t).None? && Find(CountedUnit, t).None? && Find(Unit, t).None?
    requires Find(TuikTurkish, t).None? && Find(TuikAscii, t).None?
    ensures ExcelCleanTanim(t) == t
  {
    var st := Steps(None, false, true);
    if !IsBlank(t) {
      TrimNoEdges(t);
      ReplaceNoMatch(Price, t, Put(" "));
      assert StripPrices(t) == t;
      ReplaceNoMatch(CountedUnit, t, LeadingDigits);
      assert KeepCounts(t, st) == t;
      ReplaceNoMatch(Unit, t, Put(" "));
      assert StripUnits(t) == t;
      ReplaceNoMatch(TuikTurkish, t, Put(" "));
      ReplaceNoMatch(TuikAscii, t, Put(" "));
      assert StripTuik(t, st) == t;
      CollapseTidy(t);
    }
  }

  /** Every replacement scan of the empty string returns it. */
  lemma ReplaceAllEmpty(p: Pattern, rep: Replacement)
    ensures ReplaceAll(p, "", rep) == ""
  {
    assert MatchAt(p, "", 0).None?;
    assert FindFrom(p, "", 0).None?;
  }

  /** The PDF cleaner, in contrast, removes the position number it is given:
      a description that is only that number cleans to the empty string. */
  lemma PdfCleanRemovesPozNo(pozNo: string)
    requires |pozNo| > 0 && !IsBlank(pozNo)
    ensures PdfCleanTanim(pozNo, pozNo) == ""
  {
    var st := Steps(Some(pozNo), true, true);
    assert pozNo[..|pozNo|] == pozNo && pozNo[|pozNo|..] == [];
    assert Replace(pozNo, pozNo, "") == "";
    assert RemovePoz(pozNo, st) == "";
    ReplaceAllEmpty(Price, Put(" "));
    ReplaceAllEmpty(CountedUnit, LeadingDigits);
    ReplaceAllEmpty(Unit, Put(" "));
    ReplaceAllEmpty(TuikTurkish, Put(" "));
    ReplaceAllEmpty(TuikAscii, Put(" "));
    assert Trim("") == "";
    assert Collapsed(pozNo, st) == "";
  }

  /** A position number consists of digits and dots, which case folding
      leaves alone and which are not white space. */
  lemma PozTokenChars(t: string)
    requires IsPozToken(t)
    ensures forall j | 0 <= j < |t| :: (IsDigit(t[j]) || t[j] == '.') && LowerChar(t[j]) == t[j] && !IsWhite(t[j])
  {
  }

  lemma PozTokenNoPrice(t: string)
    requires IsPozToken(t)
    ensures Find(Price, t).None?
  {
    PozTokenChars(t);
    assert DigitRun(t, 0) == 2 && DigitRun(t, 3) == 3 && DigitRun(t, 7) == 4;
    forall k | 0 <= k <= |t| ensures MatchAt(Price, t, k).None? {
    }
  }

  lemma PozTokenNoCountedUnit(t: string)
    requires IsPozToken(t)
    ensures Find(CountedUnit, t).None?
  {
    PozTokenChars(t);
    forall k | 0 <= k <= |t| ensures MatchAt(CountedUnit, t, k).None? {
      assert WhiteRun(t, k + DigitRun(t, k)) == 0;
    }
  }

  /** The unit alternatives from the `k`-th on all fail when none of them
      matches at all. */
  lemma {:induction false} UnitFromNone(s: string, i: nat, k: nat)
    requires i <= |s| && k <= |UnitForms|
    requires forall j | k <= j < |UnitForms| :: FormLength(UnitForms[j], s, i).None?
    ensures UnitFrom(s, i, k).None?
    decreases |UnitForms| - k
  {
    if k < |UnitForms| {
      UnitFromNone(s, i, k + 1);
    }
  }

  lemma PozTokenNoUnit(t: string)
    requires IsPozToken(t)
    ensures Find(Unit, t).None?
  {
    PozTokenChars(t);
    forall k | 0 <= k <= |t| ensures MatchAt(Unit, t, k).None? {
      forall j | 0 <= j < |UnitForms| ensures FormLength(UnitForms[j], t, k).None? {
        if j == 4 {
          assert k + 4 <= |t| ==> WhiteRun(t, k + 4) == 0;
        } else if j == 5 {
          assert k + 3 <= |t| ==> WhiteRun(t, k + 3) == 0;
        } else {
          var w := UnitForms[j].word;
          assert UnitForms[j] == Plain(w);
          assert LowerChar(w[0]) == 't' || LowerChar(w[0]) == 'm' || LowerChar(w[0]) == 'a';
          assert !LitAt(t, k, w) by {
            if k < |t| { assert LowerChar(t[k]) == t[k]; }
          }
        }
      }
      UnitFromNone(t, k, 0);
    }
  }

  lemma PozTokenNoPhrase(t: string, words: seq<string>)
    requires IsPozToken(t)
    requires |words| > 0 && |words[0]| > 0 && 'a' <= LowerChar(words[0][0]) <= 'z'
    ensures Find(Phrase(words), t).None?
  {
    PozTokenChars(t);
    forall k | 0 <= k <= |t| ensures MatchAt(Phrase(words), t, k).None? {
      assert !LitAt(t, k, words[0]) by {
        if k < |t| { assert LowerChar(t[k]) == t[k]; }
      }
    }
  }

  /** The spreadsheet cleaner keeps a description that is a bare position
      number as it is. */
  lemma ExcelKeepsPozNo(t: string)
    requires IsPozToken(t)
    ensures ExcelCleanTanim(t) == t
  {
    PozTokenChars(t);
    assert Tidy(t);
    PozTokenNoPrice(t);
    PozTokenNoCountedUnit(t);
    PozTokenNoUnit(t);
    PozTokenNoPhrase(t, TuikTurkish.words);
    PozTokenNoPhrase(t, TuikAscii.words);
    ExcelCleanFixpoint(t);
  }
}
