/** The PDF-to-spreadsheet converter: the rows it writes to its one sheet,
    from the texts of the document's pages.

    A first pass looks at each line of each page and writes a row for every
    position number on it, at most once per position number and page.  When
    that gives fewer than 98 rows, a second pass runs over the text of all
    pages together. */
module PdfToExcel {
  import opened Wrappers
  import opened Text
  import opened Patterns
  import opened Seqs
  import opened Cleaning

  /** One sheet row: position number, description, unit and price. */
  datatype SheetRow = SheetRow(pozNo: string, tanim: string, birim: string, fiyat: string)

  /** Row 1 of the sheet. */
  const Header: SheetRow := SheetRow("Poz No", "Tanım", "Birim", "Fiyat")

  /** The fallback pass runs while the next free row is below this one. */
  const FallbackRow: nat := 100

  /** The longest content the fallback pass hands to the field splitter. */
  const ContentCap: nat := 2000

  function Min(a: int, b: int): int {
    if a <= b then a else b
  }

  // ----- ExtractFields ----------------------------------------------------

  datatype Fields = Fields(tanim: string, birim: string, fiyat: string)

  /** The cleaner used on the part before the first unit or price. */
  function BeforeSteps(pozNo: string): Steps {
    Steps(Some(pozNo), true, true)
  }

  /** The cleaner used on the whole content, which keeps the TÜİK phrase. */
  function WholeSteps(pozNo: string): Steps {
    Steps(Some(pozNo), true, false)
  }

  /** The first match of `p` in the content, trimmed, or "": the unit
      field for `Unit`, the price field for `Price`. */
  function FirstText(p: Pattern, content: string): string {
    match Find(p, content)
    case Some(m) => Trim(Value(content, m))
    case None => ""
  }

  /** Where the description ends: at the earlier of the first unit and the
      first price, or at the end of the content. */
  function TanimEnd(content: string): (e: nat)
    ensures e <= |content|
  {
    var birimMatch := Find(Unit, content);
    var fiyatMatch := Find(Price, content);
    if birimMatch.Some? && fiyatMatch.Some? then Min(birimMatch.value.index, fiyatMatch.value.index)
    else if birimMatch.Some? then birimMatch.value.index
    else if fiyatMatch.Some? then fiyatMatch.value.index
    else |content|
  }

  /** The description: the cleaned part before `TanimEnd`, or the cleaned
      whole content when that part is empty. */
  function TanimText(content: string, pozNo: string): (r: string)
    requires |pozNo| > 0
    ensures Tidy(r) && |r| <= Limit + 3
  {
    var tanimEnd := TanimEnd(content);
    if 0 < tanimEnd <= |content| then Clean(Trim(content[..tanimEnd]), BeforeSteps(pozNo))
    else Clean(content, WholeSteps(pozNo))
  }

  /** `ExtractFields`: nothing for blank content; otherwise the three
      fields above. */
  function ExtractFields(content: string, pozNo: string): (r: Fields)
    requires |pozNo| > 0
    ensures IsBlank(content) ==> r == Fields("", "", "")
    ensures !IsBlank(content) ==> Tidy(r.tanim) && |r.tanim| <= Limit + 3
  {
    if IsBlank(content) then Fields("", "", "")
    else Fields(TanimText(content, pozNo), FirstText(Unit, content), FirstText(Price, content))
  }

  /** A unit or a price starts at `i`. */
  predicate FieldAt(s: string, i: nat)
    requires i <= |s|
  {
    MatchAt(Unit, s, i).Some? || MatchAt(Price, s, i).Some?
  }

  /** No unit and no price starts before `e`. */
  predicate NoFieldBefore(s: string, e: nat)
    requires e <= |s|
  {
    forall k | 0 <= k < e :: !FieldAt(s, k)
  }

  /** With no match anywhere, the field is empty. */
  lemma FirstTextNone(p: Pattern, content: string)
    requires forall k | 0 <= k <= |content| :: MatchAt(p, content, k).None?
    ensures FirstText(p, content) == ""
  {
    FindNotBefore(p, content, 0);
  }

  /** Otherwise the field is the trimmed text of the match at the
      leftmost position where `p` matches: the unit field is the first
      unit, the price field the first price, anywhere in the content. */
  lemma FirstTextLeftmost(p: Pattern, content: string, i: nat)
    requires i <= |content| && MatchAt(p, content, i).Some?
    requires forall k | 0 <= k < i :: MatchAt(p, content, k).None?
    ensures FirstText(p, content) == Trim(content[i..i + MatchAt(p, content, i).value])
  {
    FindLeftmost(p, content, i);
    var m := Find(p, content).value;
    assert Value(content, m) == content[i..i + MatchAt(p, content, i).value];
  }

  /** The description ends at the first position where a unit or a price
      starts, or at the end when there is none. */
  lemma TanimEndFirst(content: string, e: nat)
    requires e <= |content| && NoFieldBefore(content, e) && (e == |content| || FieldAt(content, e))
    ensures TanimEnd(content) == e
  {
    forall k | 0 <= k < e ensures MatchAt(Unit, content, k).None? && MatchAt(Price, content, k).None? {
      assert !FieldAt(content, k);
    }
    FindNotBefore(Unit, content, e);
    FindNotBefore(Price, content, e);
    if e < |content| {
      if MatchAt(Unit, content, e).Some? {
        FindLeftmost(Unit, content, e);
      }
      if MatchAt(Price, content, e).Some? {
        FindLeftmost(Price, content, e);
      }
    }
  }

  /** When the first unit or price starts at `e > 0` (or there is none and
      `e` is the end), the description is the cleaned, trimmed text before
      `e`, with the position number, prices, units and the TÜİK phrase
      removed. */
  lemma TanimBeforeFields(content: string, pozNo: string, e: nat)
    requires |pozNo| > 0 && !IsBlank(content)
    requires 0 < e <= |content| && NoFieldBefore(content, e) && (e == |content| || FieldAt(content, e))
    ensures ExtractFields(content, pozNo).tanim == Clean(Trim(content[..e]), BeforeSteps(pozNo))
  {
    TanimEndFirst(content, e);
  }

  /** When a unit or a price starts the content, the whole content is
      cleaned instead, and the TÜİK phrase is kept. */
  lemma TanimAtStart(content: string, pozNo: string)
    requires |pozNo| > 0 && !IsBlank(content) && FieldAt(content, 0)
    ensures ExtractFields(content, pozNo).tanim == Clean(content, WholeSteps(pozNo))
  {
    TanimEndFirst(content, 0);
  }

  // ----- The first pass ---------------------------------------------------

  /** The key of the processed set: `"{pozNo}_{pageNum}"`. */
  function Key(pozNo: string, page: nat): string {
    pozNo + "_" + NatToString(page)
  }

  /** A first-pass row and the page it came from. */
  datatype Entry = Entry(page: nat, row: SheetRow)

  function EntryKey(e: Entry): string {
    Key(e.row.pozNo, e.page)
  }

  /** The first pass so far: the rows written and the keys processed. */
  datatype Pass = Pass(entries: seq<Entry>, processed: set<string>)

  const Start: Pass := Pass([], {})

  /** The text after match `i` of a line, up to the next match or the end
      of the line, trimmed; None when that span is empty. */
  function LineContent(line: string, i: nat): (r: Option<string>)
    requires i < |Matches(PozNo, line)|
  {
    var ms := Matches(PozNo, line);
    var startIndex := ms[i].index + ms[i].length;
    var endIndex := if i < |ms| - 1 then ms[i + 1].index else |line|;
    if endIndex > startIndex && endIndex <= |line| then Some(Trim(line[startIndex..endIndex])) else None
  }

  /** One match of a line on page `page`. */
  function MatchStep(st: Pass, line: string, i: nat, page: nat): Pass
    requires i < |Matches(PozNo, line)|
  {
    var pozNo := Value(line, Matches(PozNo, line)[i]);
    var key := Key(pozNo, page);
    if IsBlank(pozNo) || key in st.processed then st
    else
      match LineContent(line, i)
      case None => st
      case Some(content) =>
        var f := ExtractFields(content, pozNo);
        if !IsBlank(pozNo) || !IsBlank(f.tanim) then
          Pass(st.entries + [Entry(page, SheetRow(pozNo, f.tanim, f.birim, f.fiyat))], st.processed + {key})
        else st
  }

  /** The first `n` matches of a line. */
  function MatchesFold(st: Pass, line: string, n: nat, page: nat): Pass
    requires n <= |Matches(PozNo, line)|
    decreases n
  {
    if n == 0 then st else MatchStep(MatchesFold(st, line, n - 1, page), line, n - 1, page)
  }

  /** One line of a page: trimmed, and skipped when shorter than five
      characters. */
  function LineStep(st: Pass, line: string, page: nat): Pass {
    var t := Trim(line);
    if IsBlank(t) || |t| < 5 then st else MatchesFold(st, t, |Matches(PozNo, t)|, page)
  }

  function LinesFold(st: Pass, lines: seq<string>, page: nat): Pass
    decreases |lines|
  {
    if lines == [] then st else LineStep(LinesFold(st, lines[..|lines| - 1], page), lines[|lines| - 1], page)
  }

  /** The first pass over the pages; the last page of `pages` has number
      `|pages|`. */
  function FirstPass(pages: seq<string>): Pass
    decreases |pages|
  {
    if pages == [] then Start
    else LinesFold(FirstPass(pages[..|pages| - 1]), SplitLines(pages[|pages| - 1]), |pages|)
  }

  // ----- The fallback pass ------------------------------------------------

  /** The text of all pages, each followed by a line break (`AppendLine`). */
  function AllText(pages: seq<string>): string {
    FlatMap(pages, (t: string) => t + NewLine)
  }

  /** The fallback pass so far: rows written and position numbers seen. */
  datatype Extra = Extra(rows: seq<SheetRow>, additional: set<string>)

  /** The text after match `i`, up to the next match or the end, at most
      2000 characters of it, trimmed. */
  function TextContent(text: string, i: nat): (r: Option<string>)
    requires i < |Matches(PozNo, text)|
    ensures r.Some? ==> |r.value| <= ContentCap
  {
    var ms := Matches(PozNo, text);
    var startIndex := ms[i].index + ms[i].length;
    var endIndex := if i < |ms| - 1 then ms[i + 1].index else |text|;
    if endIndex > startIndex && endIndex <= |text| then
      var c := Trim(text[startIndex..startIndex + Min(endIndex - startIndex, ContentCap)]);
      TrimFacts(text[startIndex..startIndex + Min(endIndex - startIndex, ContentCap)]);
      Some(c)
    else None
  }

  function ExtraStep(processed: set<string>, ex: Extra, text: string, i: nat): Extra
    requires i < |Matches(PozNo, text)|
  {
    var pozNo := Value(text, Matches(PozNo, text)[i]);
    if IsBlank(pozNo) || pozNo in processed || pozNo in ex.additional then ex
    else
      match TextContent(text, i)
      case None => ex
      case Some(content) =>
        var f := ExtractFields(content, pozNo);
        if !IsBlank(pozNo) || !IsBlank(f.tanim) then
          Extra(ex.rows + [SheetRow(pozNo, f.tanim, f.birim, f.fiyat)], ex.additional + {pozNo})
        else ex
  }

  function ExtraFold(processed: set<string>, text: string, n: nat): Extra
    requires n <= |Matches(PozNo, text)|
    decreases n
  {
    if n == 0 then Extra([], {}) else ExtraStep(processed, ExtraFold(processed, text, n - 1), text, n - 1)
  }

  /** The rows of the fallback pass, which runs only while row 100 is not
      reached. */
  function FallbackRows(first: Pass, pages: seq<string>): seq<SheetRow> {
    if 2 + |first.entries| < FallbackRow then
      var text := AllText(pages);
      ExtraFold(first.processed, text, |Matches(PozNo, text)|).rows
    else []
  }

  function RowsOf(es: seq<Entry>): (r: seq<SheetRow>)
    ensures |r| == |es| && forall i | 0 <= i < |es| :: r[i] == es[i].row
  {
    seq(|es|, i requires 0 <= i < |es| => es[i].row)
  }

  /** The sheet: the header, the first-pass rows, then the fallback rows. */
  function Sheet(pages: seq<string>): seq<SheetRow> {
    var first := FirstPass(pages);
    [Header] + RowsOf(first.entries) + FallbackRows(first, pages)
  }

  // ----- The loops --------------------------------------------------------

  /** The body of the inner loop: match `i` of a trimmed line. */
  method HandleMatch(st0: Pass, trimmedLine: string, matchList: seq<Span>, i: nat, pageNum: nat) returns (st: Pass)
    requires matchList == Matches(PozNo, trimmedLine) && i < |matchList|
    ensures st == MatchStep(st0, trimmedLine, i, pageNum)
  {
    st := st0;
    var pozMatch := matchList[i];
    var pozNo := Value(trimmedLine, pozMatch);
    var key := Key(pozNo, pageNum);
    if IsBlank(pozNo) || key in st.processed {
      return;
    }
    var content := LineContent(trimmedLine, i);
    if content.Some? {
      var f := ExtractFields(content.value, pozNo);
      if !IsBlank(pozNo) || !IsBlank(f.tanim) {
        st := Pass(st.entries + [Entry(pageNum, SheetRow(pozNo, f.tanim, f.birim, f.fiyat))], st.processed + {key});
      }
    }
  }

  /** The inner loop over the matches of one trimmed line. */
  method ProcessMatches(st0: Pass, trimmedLine: string, pageNum: nat) returns (st: Pass)
    ensures st == MatchesFold(st0, trimmedLine, |Matches(PozNo, trimmedLine)|, pageNum)
  {
    var matchList := Matches(PozNo, trimmedLine);
    st := st0;
    for i := 0 to |matchList|
      invariant st == MatchesFold(st0, trimmedLine, i, pageNum)
    {
      st := HandleMatch(st, trimmedLine, matchList, i, pageNum);
    }
  }

  /** The loop over the lines of one page. */
  method ProcessPage(st0: Pass, pageText: string, pageNum: nat) returns (st: Pass)
    ensures st == LinesFold(st0, SplitLines(pageText), pageNum)
  {
    var lines := SplitLines(pageText);
    st := st0;
    for j := 0 to |lines|
      invariant st == LinesFold(st0, lines[..j], pageNum)
    {
      var trimmedLine := Trim(lines[j]);
      assert lines[..j + 1][..j] == lines[..j];
      if IsBlank(trimmedLine) || |trimmedLine| < 5 {
        continue;
      }
      st := ProcessMatches(st, trimmedLine, pageNum);
    }
    assert lines[..|lines|] == lines;
  }

  /** The body of the fallback loop: match `i` of the whole text. */
  method HandleExtra(processed: set<string>, ex0: Extra, allText: string, matchList: seq<Span>, i: nat) returns (ex: Extra)
    requires matchList == Matches(PozNo, allText) && i < |matchList|
    ensures ex == ExtraStep(processed, ex0, allText, i)
  {
    ex := ex0;
    var match_ := matchList[i];
    var pozNo := Value(allText, match_);
    if IsBlank(pozNo) || pozNo in processed || pozNo in ex.additional {
      return;
    }
    var content := TextContent(allText, i);
    if content.Some? {
      var f := ExtractFields(content.value, pozNo);
      if !IsBlank(pozNo) || !IsBlank(f.tanim) {
        ex := Extra(ex.rows + [SheetRow(pozNo, f.tanim, f.birim, f.fiyat)], ex.additional + {pozNo});
      }
    }
  }

  /** The fallback loop over the matches of the whole text. */
  method ProcessText(processed: set<string>, allText: string) returns (rows: seq<SheetRow>)
    ensures rows == ExtraFold(processed, allText, |Matches(PozNo, allText)|).rows
  {
    var matchList := Matches(PozNo, allText);
    var ex := Extra([], {});
    for i := 0 to |matchList|
      invariant ex == ExtraFold(processed, allText, i)
    {
      ex := HandleExtra(processed, ex, allText, matchList, i);
    }
    rows := ex.rows;
  }

  /** The `AppendLine` loop. */
  method JoinPages(pages: seq<string>) returns (allText: string)
    ensures allText == AllText(pages)
  {
    allText := "";
    for k := 0 to |pages|
      invariant allText == AllText(pages[..k])
    {
      allText := allText + pages[k] + NewLine;
      assert pages[..k + 1][..k] == pages[..k];
    }
    assert pages[..|pages|] == pages;
  }

  /** `ConvertPdfToExcel`, up to the rows it writes: page texts in, sheet
      rows (header first) out. */
  method ConvertPdfToExcel(pageTexts: seq<string>) returns (sheet: seq<SheetRow>)
    ensures sheet == Sheet(pageTexts)
  {
    var st := Start;
    for p := 0 to |pageTexts|
      invariant st == FirstPass(pageTexts[..p])
    {
      st := ProcessPage(st, pageTexts[p], p + 1);
      assert pageTexts[..p + 1][..p] == pageTexts[..p];
    }
    assert pageTexts[..|pageTexts|] == pageTexts;
    var row := 2 + |st.entries|;
    sheet := [Header];
    for e := 0 to |st.entries|
      invariant sheet == [Header] + RowsOf(st.entries[..e])
    {
      sheet := sheet + [st.entries[e].row];
    }
    assert st.entries[..|st.entries|] == st.entries;
    if row < FallbackRow {
      var allText := JoinPages(pageTexts);
      var extra := ProcessText(st.processed, allText);
      sheet := sheet + extra;
    }
  }

  // ----- Properties of the first pass -------------------------------------

  /** The invariant of the first pass: every row holds a position number
      token from a page numbered from 1, the processed set is exactly the
      set of the rows' keys, and no key occurs twice. */
  ghost predicate GoodPass(st: Pass) {
    && (forall i | 0 <= i < |st.entries| :: IsPozToken(st.entries[i].row.pozNo) && st.entries[i].page >= 1)
    && st.processed == (set i | 0 <= i < |st.entries| :: EntryKey(st.entries[i]))
    && (forall i, j | 0 <= i < j < |st.entries| :: EntryKey(st.entries[i]) != EntryKey(st.entries[j]))
  }

  /** One match adds a row exactly when its key is new and the span after
      it is not empty; the row holds the match and the fields of that
      span. */
  lemma MatchStepEffect(st: Pass, line: string, i: nat, page: nat)
    requires i < |Matches(PozNo, line)|
    ensures var pozNo := Value(line, Matches(PozNo, line)[i]);
      var r := MatchStep(st, line, i, page);
      && IsPozToken(pozNo)
      && (if Key(pozNo, page) !in st.processed && LineContent(line, i).Some? then
            var f := ExtractFields(LineContent(line, i).value, pozNo);
            r == Pass(st.entries + [Entry(page, SheetRow(pozNo, f.tanim, f.birim, f.fiyat))], st.processed + {Key(pozNo, page)})
          else r == st)
  {
    var ms := Matches(PozNo, line);
    PozNoValue(line, ms[i]);
  }

  /** Appending an entry whose key is new keeps the invariant. */
  lemma AppendGood(st: Pass, e: Entry)
    requires GoodPass(st) && EntryKey(e) !in st.processed && IsPozToken(e.row.pozNo) && e.page >= 1
    ensures GoodPass(Pass(st.entries + [e], st.processed + {EntryKey(e)}))
  {
    var es := st.entries + [e];
    var n := |st.entries|;
    assert es[..n] == st.entries;
    assert st.processed + {EntryKey(e)} == (set k | 0 <= k < |es| :: EntryKey(es[k])) by {
      forall x ensures x in st.processed + {EntryKey(e)} <==> x in (set k | 0 <= k < |es| :: EntryKey(es[k])) {
        if x in st.processed {
          var k :| 0 <= k < n && EntryKey(st.entries[k]) == x;
          assert EntryKey(es[k]) == x;
        }
        if x == EntryKey(e) {
          assert EntryKey(es[n]) == x;
        }
        if x in (set k | 0 <= k < |es| :: EntryKey(es[k])) {
          var k :| 0 <= k < |es| && EntryKey(es[k]) == x;
          if k < n {
            assert EntryKey(st.entries[k]) == x;
          }
        }
      }
    }
    forall a, b | 0 <= a < b < |es| ensures EntryKey(es[a]) != EntryKey(es[b]) {
      if b == n {
        assert EntryKey(st.entries[a]) in st.processed;
      } else {
        assert es[a] == st.entries[a] && es[b] == st.entries[b];
      }
    }
  }

  lemma MatchStepGood(st: Pass, line: string, i: nat, page: nat)
    requires i < |Matches(PozNo, line)| && page >= 1 && GoodPass(st)
    ensures GoodPass(MatchStep(st, line, i, page))
  {
    MatchStepEffect(st, line, i, page);
    var pozNo := Value(line, Matches(PozNo, line)[i]);
    if Key(pozNo, page) !in st.processed && LineContent(line, i).Some? {
      var f := ExtractFields(LineContent(line, i).value, pozNo);
      AppendGood(st, Entry(page, SheetRow(pozNo, f.tanim, f.birim, f.fiyat)));
    }
  }

  /** The fold over the first `n` matches is the step for match `n - 1`
      after the fold over the first `n - 1`. */
  lemma MatchesFoldLast(st: Pass, line: string, n: nat, page: nat)
    requires 0 < n <= |Matches(PozNo, line)|
    ensures MatchesFold(st, line, n, page) == MatchStep(MatchesFold(st, line, n - 1, page), line, n - 1, page)
  {
  }

  /** The invariant carries over to an equal state. */
  lemma GoodPassSame(a: Pass, b: Pass)
    requires a == b && GoodPass(a)
    ensures GoodPass(b)
  {
  }

  lemma {:induction false} MatchesFoldGood(st: Pass, line: string, n: nat, page: nat)
    requires n <= |Matches(PozNo, line)| && page >= 1 && GoodPass(st)
    ensures GoodPass(MatchesFold(st, line, n, page))
    decreases n
  {
    if n > 0 {
      var pre := MatchesFold(st, line, n - 1, page);
      MatchesFoldLast(st, line, n, page);
      MatchesFoldGood(st, line, n - 1, page);
      MatchStepGood(pre, line, n - 1, page);
      GoodPassSame(MatchStep(pre, line, n - 1, page), MatchesFold(st, line, n, page));
    }
  }

  lemma {:induction false} LinesFoldGood(st: Pass, lines: seq<string>, page: nat)
    requires page >= 1 && GoodPass(st)
    ensures GoodPass(LinesFold(st, lines, page))
    decreases |lines|
  {
    if lines != [] {
      var pre := LinesFold(st, lines[..|lines| - 1], page);
      LinesFoldGood(st, lines[..|lines| - 1], page);
      var t := Trim(lines[|lines| - 1]);
      if !(IsBlank(t) || |t| < 5) {
        MatchesFoldGood(pre, t, |Matches(PozNo, t)|, page);
      }
    }
  }

  /** The first pass keeps its invariant over all pages. */
  lemma {:induction false} FirstPassGood(pages: seq<string>)
    ensures GoodPass(FirstPass(pages))
    decreases |pages|
  {
    if pages != [] {
      FirstPassGood(pages[..|pages| - 1]);
      LinesFoldGood(FirstPass(pages[..|pages| - 1]), SplitLines(pages[|pages| - 1]), |pages|);
    }
  }

  /** Keys of equally long position numbers are equal only for the same
      position number and page. */
  lemma KeyInjective(p1: string, n1: nat, p2: string, n2: nat)
    requires |p1| == |p2| && Key(p1, n1) == Key(p2, n2)
    ensures p1 == p2 && n1 == n2
  {
    var k := Key(p1, n1);
    assert k[..|p1|] == p1 && Key(p2, n2)[..|p2|] == p2;
    assert k[|p1| + 1..] == NatToString(n1);
    assert Key(p2, n2)[|p2| + 1..] == NatToString(n2);
    NatToStringRoundTrip(n1);
    NatToStringRoundTrip(n2);
  }

  /** The first pass writes at most one row per position number and page. */
  lemma FirstPassUnique(pages: seq<string>)
    ensures var es := FirstPass(pages).entries;
      && (forall i | 0 <= i < |es| :: IsPozToken(es[i].row.pozNo) && 1 <= es[i].page)
      && forall i, j | 0 <= i < j < |es| :: es[i].row.pozNo != es[j].row.pozNo || es[i].page != es[j].page
  {
    FirstPassGood(pages);
  }

  // ----- Properties of the fallback pass ----------------------------------

  /** The invariant of the fallback pass: every row holds a position
      number token, the set of seen numbers is exactly the rows' numbers,
      none of which appears twice. */
  ghost predicate GoodExtra(ex: Extra) {
    && (forall i | 0 <= i < |ex.rows| :: IsPozToken(ex.rows[i].pozNo))
    && ex.additional == (set i | 0 <= i < |ex.rows| :: ex.rows[i].pozNo)
    && (forall i, j | 0 <= i < j < |ex.rows| :: ex.rows[i].pozNo != ex.rows[j].pozNo)
  }

  /** Appending a row whose position number is new keeps the invariant. */
  lemma AppendExtraGood(ex: Extra, row: SheetRow)
    requires GoodExtra(ex) && row.pozNo !in ex.additional && IsPozToken(row.pozNo)
    ensures GoodExtra(Extra(ex.rows + [row], ex.additional + {row.pozNo}))
  {
    var rs := ex.rows + [row];
    var n := |ex.rows|;
    assert rs[..n] == ex.rows;
    assert ex.additional + {row.pozNo} == (set k | 0 <= k < |rs| :: rs[k].pozNo) by {
      forall x ensures x in ex.additional + {row.pozNo} <==> x in (set k | 0 <= k < |rs| :: rs[k].pozNo) {
        if x in ex.additional {
          var k :| 0 <= k < n && ex.rows[k].pozNo == x;
          assert rs[k].pozNo == x;
        }
        if x == row.pozNo {
          assert rs[n].pozNo == x;
        }
        if x in (set k | 0 <= k < |rs| :: rs[k].pozNo) {
          var k :| 0 <= k < |rs| && rs[k].pozNo == x;
          if k < n {
            assert ex.rows[k].pozNo == x;
          }
        }
      }
    }
    forall a, b | 0 <= a < b < |rs| ensures rs[a].pozNo != rs[b].pozNo {
      if b == n {
        assert ex.rows[a].pozNo in ex.additional;
      } else {
        assert rs[a] == ex.rows[a] && rs[b] == ex.rows[b];
      }
    }
  }

  /** One match of the fallback pass adds a row exactly when its position
      number is neither processed nor seen and the span after it is not
      empty. */
  lemma ExtraStepEffect(processed: set<string>, ex: Extra, text: string, i: nat)
    requires i < |Matches(PozNo, text)|
    ensures var pozNo := Value(text, Matches(PozNo, text)[i]);
      var r := ExtraStep(processed, ex, text, i);
      && IsPozToken(pozNo)
      && (if pozNo !in processed && pozNo !in ex.additional && TextContent(text, i).Some? then
            var f := ExtractFields(TextContent(text, i).value, pozNo);
            r == Extra(ex.rows + [SheetRow(pozNo, f.tanim, f.birim, f.fiyat)], ex.additional + {pozNo})
          else r == ex)
  {
    var ms := Matches(PozNo, text);
    PozNoValue(text, ms[i]);
  }

  lemma ExtraStepGood(processed: set<string>, ex: Extra, text: string, i: nat)
    requires i < |Matches(PozNo, text)| && GoodExtra(ex)
    ensures GoodExtra(ExtraStep(processed, ex, text, i))
  {
    ExtraStepEffect(processed, ex, text, i);
    var pozNo := Value(text, Matches(PozNo, text)[i]);
    if pozNo !in processed && pozNo !in ex.additional && TextContent(text, i).Some? {
      var f := ExtractFields(TextContent(text, i).value, pozNo);
      AppendExtraGood(ex, SheetRow(pozNo, f.tanim, f.birim, f.fiyat));
    }
  }

  lemma {:induction false} ExtraFoldGood(processed: set<string>, text: string, n: nat)
    requires n <= |Matches(PozNo, text)|
    ensures GoodExtra(ExtraFold(processed, text, n))
    decreases n
  {
    if n > 0 {
      ExtraFoldGood(processed, text, n - 1);
      ExtraStepGood(processed, ExtraFold(processed, text, n - 1), text, n - 1);
    }
  }

  /** The fallback pass writes at most one row per position number. */
  lemma FallbackUnique(first: Pass, pages: seq<string>)
    ensures var rs := FallbackRows(first, pages);
      && (forall i | 0 <= i < |rs| :: IsPozToken(rs[i].pozNo))
      && forall i, j | 0 <= i < j < |rs| :: rs[i].pozNo != rs[j].pozNo
  {
    var text := AllText(pages);
    ExtraFoldGood(first.processed, text, |Matches(PozNo, text)|);
  }

  /** One step of the fallback pass is the same for every set of
      processed keys none of which is 11 characters long. */
  lemma ExtraStepIgnores(processed: set<string>, ex: Extra, text: string, i: nat)
    requires i < |Matches(PozNo, text)|
    requires forall k | k in processed :: |k| != 11
    ensures ExtraStep(processed, ex, text, i) == ExtraStep({}, ex, text, i)
  {
    var ms := Matches(PozNo, text);
    PozNoValue(text, ms[i]);
  }

  /** A set holding no 11-character string never stops the fallback pass:
      it writes the rows it would write with nothing processed. */
  lemma {:induction false} ExtraFoldIgnores(processed: set<string>, text: string, n: nat)
    requires n <= |Matches(PozNo, text)|
    requires forall k | k in processed :: |k| != 11
    ensures ExtraFold(processed, text, n) == ExtraFold({}, text, n)
    decreases n
  {
    if n > 0 {
      ExtraFoldIgnores(processed, text, n - 1);
      ExtraStepIgnores(processed, ExtraFold({}, text, n - 1), text, n - 1);
    }
  }

  /** The fallback pass looks up bare position numbers in the set of
      `"{pozNo}_{page}"` keys, so that lookup never skips anything: the
      fallback rows are those of a pass that had processed nothing. */
  lemma FallbackIgnoresFirstPass(pages: seq<string>)
    ensures var first := FirstPass(pages);
      var text := AllText(pages);
      2 + |first.entries| < FallbackRow ==>
        FallbackRows(first, pages) == ExtraFold({}, text, |Matches(PozNo, text)|).rows
  {
    var first := FirstPass(pages);
    FirstPassGood(pages);
    forall k | k in first.processed ensures |k| != 11 {
      var i :| 0 <= i < |first.entries| && EntryKey(first.entries[i]) == k;
      assert |first.entries[i].row.pozNo| == 11;
    }
    var text := AllText(pages);
    ExtraFoldIgnores(first.processed, text, |Matches(PozNo, text)|);
  }

  /** Row 1 is the header; the first-pass rows follow from row 2 on, in
      order; the fallback adds rows only when the first pass wrote fewer
      than 98. */
  lemma SheetLayout(pages: seq<string>)
    ensures var s := Sheet(pages);
      var es := FirstPass(pages).entries;
      && |s| >= 1 + |es| && s[0] == Header
      && (forall i | 0 <= i < |es| :: s[1 + i] == es[i].row)
      && (|es| >= FallbackRow - 2 ==> |s| == 1 + |es|)
  {
    var first := FirstPass(pages);
    var es := first.entries;
    var rs := RowsOf(es);
    var fb := FallbackRows(first, pages);
    var s := Sheet(pages);
    assert s == [Header] + rs + fb;
    forall i | 0 <= i < |es| ensures s[1 + i] == es[i].row {
      assert s[1 + i] == rs[i];
    }
    if |es| >= FallbackRow - 2 {
      assert fb == [];
    }
  }
}
