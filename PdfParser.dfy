/** The PDF parser: words are grouped into lines by their vertical
    position, the lines are turned into price items by a small state
    machine, and the page text is written with page markers.

    The words of a page are what the PDF library reports: their text and
    bounding box.  Coordinates are reals compared and subtracted exactly. */
module PdfParser {
  import opened Wrappers
  import opened Text
  import opened Patterns
  import opened Models
  import opened Sorting
  import opened Seqs
  import opened Cleaning
  import opened Paths

  datatype Word = Word(text: string, left: real, right: real, bottom: real)

  datatype PdfPage = PdfPage(number: int, words: seq<Word>)

  /** One reconstructed line and the page it is on. */
  datatype ParsedLine = ParsedLine(page: int, text: string)

  /** Words whose bottoms differ by at most this belong to one line. */
  const Tolerance: real := 2.0

  /** A gap wider than this between two words is written as a tab. */
  const ColumnGap: real := 10.0

  function Abs(x: real): real {
    if x < 0.0 then -x else x
  }

  /** `w` belongs to the line whose first word is `head`. */
  predicate Near(w: Word, head: Word) {
    Abs(w.bottom - head.bottom) <= Tolerance
  }

  /** The first group, from `from` on, whose first word `w` is near. */
  function FirstNear(groups: seq<seq<Word>>, w: Word, from: nat): (r: Option<nat>)
    ensures r.Some? ==> from <= r.value < |groups| && |groups[r.value]| > 0 && Near(w, groups[r.value][0])
    ensures r.Some? ==> forall j | from <= j < r.value :: !(|groups[j]| > 0 && Near(w, groups[j][0]))
    ensures r.None? ==> forall j | from <= j < |groups| :: !(|groups[j]| > 0 && Near(w, groups[j][0]))
    decreases |groups| - from
  {
    if from >= |groups| then None
    else if |groups[from]| > 0 && Near(w, groups[from][0]) then Some(from)
    else FirstNear(groups, w, from + 1)
  }

  /** One step of the grouping loop: `w` joins the first group it is near,
      or starts a new group at the end. */
  function AddWord(groups: seq<seq<Word>>, w: Word): seq<seq<Word>> {
    match FirstNear(groups, w, 0)
    case Some(k) => groups[k := groups[k] + [w]]
    case None => groups + [[w]]
  }

  /** The groups after the loop has seen all of `words`. */
  function Grouped(words: seq<Word>): seq<seq<Word>>
    decreases |words|
  {
    if words == [] then [] else AddWord(Grouped(words[..|words| - 1]), words[|words| - 1])
  }

  /** The grouping loop of `ExtractPdfLines`. */
  method GroupWords(words: seq<Word>) returns (groups: seq<seq<Word>>)
    ensures groups == Grouped(words)
  {
    groups := [];
    for i := 0 to |words|
      invariant groups == Grouped(words[..i])
    {
      var w := words[i];
      var before := groups;
      var added := false;
      var k := 0;
      while k < |groups|
        invariant 0 <= k <= |groups| && groups == before
        invariant FirstNear(before, w, 0) == FirstNear(before, w, k)
      {
        if |groups[k]| > 0 && Near(w, groups[k][0]) {
          added := true;
          break;
        }
        k := k + 1;
      }
      if added {
        groups := groups[k := groups[k] + [w]];
      } else {
        groups := groups + [[w]];
      }
      assert words[..i + 1][..i] == words[..i];
    }
    assert words[..|words|] == words;
  }

  /** All words of all groups, group after group. */
  function Flatten(groups: seq<seq<Word>>): seq<Word>
    decreases |groups|
  {
    if groups == [] then [] else Flatten(groups[..|groups| - 1]) + groups[|groups| - 1]
  }

  lemma {:induction false} FlattenUpdate(groups: seq<seq<Word>>, k: nat, w: Word)
    requires k < |groups|
    ensures multiset(Flatten(groups[k := groups[k] + [w]])) == multiset(Flatten(groups)) + multiset{w}
    decreases |groups|
  {
    var n := |groups| - 1;
    var u := groups[k := groups[k] + [w]];
    assert u[..n] == if k < n then groups[..n][k := groups[k] + [w]] else groups[..n];
    if k < n {
      FlattenUpdate(groups[..n], k, w);
    }
  }

  predicate NonEmptyGroups(groups: seq<seq<Word>>) {
    forall i | 0 <= i < |groups| :: |groups[i]| > 0
  }

  /** Every word is within the tolerance of its group's first word. */
  ghost predicate NearHeads(groups: seq<seq<Word>>)
    requires NonEmptyGroups(groups)
  {
    forall i, j | 0 <= i < |groups| && 0 <= j < |groups[i]| :: Near(groups[i][j], groups[i][0])
  }

  /** The first words of different groups are more than the tolerance
      apart (the later one was not near the earlier one). */
  ghost predicate ApartHeads(groups: seq<seq<Word>>)
    requires NonEmptyGroups(groups)
  {
    forall i, j | 0 <= i < j < |groups| :: !Near(groups[j][0], groups[i][0])
  }

  /** What the grouping promises: every group is non-empty, its words are
      near its first word, the first words are apart, and together the
      groups hold exactly the words of the page. */
  ghost predicate GoodGrouping(groups: seq<seq<Word>>, words: seq<Word>) {
    && NonEmptyGroups(groups)
    && NearHeads(groups)
    && ApartHeads(groups)
    && multiset(Flatten(groups)) == multiset(words)
  }

  lemma AddWordHeads(groups: seq<seq<Word>>, w: Word)
    requires NonEmptyGroups(groups)
    ensures var u := AddWord(groups, w);
      && NonEmptyGroups(u) && |groups| <= |u| <= |groups| + 1
      && (forall i | 0 <= i < |groups| :: u[i][0] == groups[i][0])
      && (|u| == |groups| + 1 ==> u[|groups|] == [w] && FirstNear(groups, w, 0).None?)
  {
  }

  lemma AddWordNear(groups: seq<seq<Word>>, w: Word)
    requires NonEmptyGroups(groups) && NearHeads(groups)
    ensures NonEmptyGroups(AddWord(groups, w)) && NearHeads(AddWord(groups, w))
  {
    AddWordHeads(groups, w);
  }

  lemma AddWordApart(groups: seq<seq<Word>>, w: Word)
    requires NonEmptyGroups(groups) && ApartHeads(groups)
    ensures NonEmptyGroups(AddWord(groups, w)) && ApartHeads(AddWord(groups, w))
  {
    AddWordHeads(groups, w);
    var u := AddWord(groups, w);
    forall i, j | 0 <= i < j < |u| ensures !Near(u[j][0], u[i][0]) {
      if j == |groups| {
        assert u[j][0] == w;
      }
    }
  }

  lemma AddWordWords(groups: seq<seq<Word>>, w: Word)
    ensures multiset(Flatten(AddWord(groups, w))) == multiset(Flatten(groups)) + multiset{w}
  {
    match FirstNear(groups, w, 0)
    case Some(k) => FlattenUpdate(groups, k, w);
    case None => assert Flatten(groups + [[w]]) == Flatten(groups) + [w];
  }

  lemma {:induction false} GroupedGood(words: seq<Word>)
    ensures GoodGrouping(Grouped(words), words)
    decreases |words|
  {
    if words != [] {
      var n := |words| - 1;
      GroupedGood(words[..n]);
      assert words == words[..n] + [words[n]];
      AddWordNear(Grouped(words[..n]), words[n]);
      AddWordApart(Grouped(words[..n]), words[n]);
      AddWordWords(Grouped(words[..n]), words[n]);
    }
  }

  /** Groups in descending order of their first word's bottom (top of the
      page first). */
  function HeadAbove(a: seq<Word>, b: seq<Word>): bool {
    (if |a| > 0 then a[0].bottom else 0.0) >= (if |b| > 0 then b[0].bottom else 0.0)
  }

  /** Words in ascending order of their left edge. */
  function LeftOf(a: Word, b: Word): bool {
    a.left <= b.left
  }

  lemma OrdersArePreorders()
    ensures TotalPreorder(HeadAbove) && TotalPreorder(LeftOf)
  {
  }

  /** The text between two neighbouring words. */
  function Separator(prev: Word, cur: Word): string {
    if cur.left - prev.right > ColumnGap then "\t" else " "
  }

  /** The words' texts, each after the separator its gap calls for. */
  function JoinWords(ws: seq<Word>): string
    decreases |ws|
  {
    if |ws| == 0 then ""
    else if |ws| == 1 then ws[0].text
    else JoinWords(ws[..|ws| - 1]) + Separator(ws[|ws| - 2], ws[|ws| - 1]) + ws[|ws| - 1].text
  }

  function Texts(ws: seq<Word>): (r: seq<string>)
    ensures |r| == |ws| && forall i | 0 <= i < |ws| :: r[i] == ws[i].text
  {
    seq(|ws|, i requires 0 <= i < |ws| => ws[i].text)
  }

  /** When every gap calls for the same separator, the line is the words
      joined with it. */
  lemma {:induction false} JoinWordsUniform(ws: seq<Word>, sep: string)
    requires forall i | 0 < i < |ws| :: Separator(ws[i - 1], ws[i]) == sep
    ensures JoinWords(ws) == Join(sep, Texts(ws))
    decreases |ws|
  {
    if |ws| > 1 {
      var n := |ws| - 1;
      JoinWordsUniform(ws[..n], sep);
      assert Texts(ws)[..n] == Texts(ws[..n]);
    }
  }

  /** The StringBuilder loop that joins a line's sorted words. */
  method BuildLine(ws: seq<Word>) returns (text: string)
    ensures text == JoinWords(ws)
  {
    text := "";
    for i := 0 to |ws|
      invariant text == JoinWords(ws[..i])
    {
      if i > 0 {
        var gap := ws[i].left - ws[i - 1].right;
        if gap > ColumnGap {
          text := text + "\t";
        } else {
          text := text + " ";
        }
      }
      text := text + ws[i].text;
      assert ws[..i + 1][..i] == ws[..i];
    }
    assert ws[..|ws|] == ws;
  }

  /** The line a group becomes, if it is not blank once trimmed. */
  function GroupLine(page: int, g: seq<Word>): seq<ParsedLine> {
    var t := Trim(JoinWords(Sort(g, LeftOf)));
    if IsBlank(t) then [] else [ParsedLine(page, t)]
  }

  /** What a loop over the ordered groups of page `number` appends. */
  function GroupLines(number: int): seq<Word> -> seq<ParsedLine> {
    g => GroupLine(number, g)
  }

  /** The lines of one page, top to bottom; a page without words has none. */
  function PageLines(p: PdfPage): seq<ParsedLine> {
    if |p.words| == 0 then []
    else FlatMap(Sort(Grouped(p.words), HeadAbove), GroupLines(p.number))
  }

  function PdfLines(pages: seq<PdfPage>): seq<ParsedLine> {
    FlatMap(pages, PageLines)
  }

  /** The lines of one page: group the words, order the groups, join each
      group's words and keep the lines that are not blank. */
  method ExtractPageLines(p: PdfPage) returns (lines: seq<ParsedLine>)
    ensures lines == PageLines(p)
  {
    lines := [];
    if |p.words| == 0 {
      return;
    }
    var groups := GroupWords(p.words);
    var ordered := Sort(groups, HeadAbove);
    ghost var f := GroupLines(p.number);
    for i := 0 to |ordered|
      invariant lines == FlatMap(ordered[..i], f)
    {
      var sorted := Sort(ordered[i], LeftOf);
      var text := BuildLine(sorted);
      var finalText := Trim(text);
      FlatMapPrefix(ordered, f, i);
      assert f(ordered[i]) == if IsBlank(finalText) then [] else [ParsedLine(p.number, finalText)];
      if !IsBlank(finalText) {
        lines := lines + [ParsedLine(p.number, finalText)];
      }
    }
    assert ordered[..|ordered|] == ordered;
  }

  /** `ExtractPdfLines` over the pages the library reports. */
  method ExtractPdfLines(pages: seq<PdfPage>) returns (lines: seq<ParsedLine>)
    ensures lines == PdfLines(pages)
  {
    lines := [];
    for i := 0 to |pages|
      invariant lines == PdfLines(pages[..i])
    {
      var pageLines := ExtractPageLines(pages[i]);
      lines := lines + pageLines;
      assert pages[..i + 1][..i] == pages[..i];
    }
    assert pages[..|pages|] == pages;
  }

  /** Every line of a page is trimmed and not blank, and the page has
      words. */
  lemma PageLinesShape(p: PdfPage, l: ParsedLine)
    requires l in PageLines(p)
    ensures Trim(l.text) == l.text && !IsBlank(l.text)
    ensures l.page == p.number && |p.words| > 0
  {
    var gs := Sort(Grouped(p.words), HeadAbove);
    FlatMapFrom(gs, GroupLines(p.number), l);
    var j :| 0 <= j < |gs| && l in GroupLines(p.number)(gs[j]);
    GroupLineShape(p.number, gs[j], l);
  }

  lemma GroupLineShape(number: int, g: seq<Word>, l: ParsedLine)
    requires l in GroupLine(number, g)
    ensures Trim(l.text) == l.text && !IsBlank(l.text) && l.page == number
  {
    TrimIdempotent(JoinWords(Sort(g, LeftOf)));
  }

  /** Every reconstructed line is trimmed and not blank, and carries the
      number of a page that has words. */
  lemma PdfLinesShape(pages: seq<PdfPage>, l: ParsedLine)
    requires l in PdfLines(pages)
    ensures Trim(l.text) == l.text && !IsBlank(l.text)
    ensures exists k | 0 <= k < |pages| :: pages[k].number == l.page && |pages[k].words| > 0
  {
    FlatMapFrom(pages, PageLines, l);
    var k :| 0 <= k < |pages| && l in PageLines(pages[k]);
    PageLinesShape(pages[k], l);
  }

  /** The lines of a page come from its groups in top-to-bottom order, and
      each group's words are read left to right. */
  lemma PageOrder(p: PdfPage, g: seq<Word>)
    ensures SortedBy(Sort(Grouped(p.words), HeadAbove), HeadAbove)
    ensures multiset(Sort(Grouped(p.words), HeadAbove)) == multiset(Grouped(p.words))
    ensures SortedBy(Sort(g, LeftOf), LeftOf) && multiset(Sort(g, LeftOf)) == multiset(g)
  {
    OrdersArePreorders();
    SortSorted(Grouped(p.words), HeadAbove);
    SortSorted(g, LeftOf);
  }

  // ----- The price-line state machine -------------------------------------

  /** The items produced so far and the description lines waiting for the
      next position number. */
  datatype ParseState = ParseState(items: seq<PriceItem>, buffer: seq<string>)

  /** The unit and the price after the position number: the unit is the
      first unit match; the price is the first price match after the unit
      when there is one, else in the whole text; missing fields are "". */
  function UnitAndPrice(afterPoz: string): (string, string) {
    match Find(Unit, afterPoz)
    case Some(b) =>
      var afterBirim := Trim(afterPoz[b.index + b.length..]);
      (Trim(Value(afterPoz, b)),
       match Find(Price, afterBirim)
       case Some(p) => Trim(Value(afterBirim, p))
       case None => "")
    case None =>
      ("",
       match Find(Price, afterPoz)
       case Some(p) => Trim(Value(afterPoz, p))
       case None => "")
  }

  /** The item for a line whose position-number match is `m`. */
  function LineItem(line: ParsedLine, m: Span, buffer: seq<string>, path: string, name: string): PriceItem
    requires m.index + m.length <= |line.text| && m.length > 0
  {
    var pozNo := Value(line.text, m);
    var afterPoz := Trim(line.text[m.index + m.length..]);
    var (birim, fiyat) := UnitAndPrice(afterPoz);
    var tanim := PdfCleanTanim(Trim(Join(" ", buffer)), pozNo);
    PriceItem(Some(pozNo), Some(tanim), Some(birim), Some(fiyat), path, name, line.page)
  }

  /** A line adds its trimmed text to the buffer unless it is blank. */
  function Buffered(st: ParseState, line: ParsedLine): ParseState {
    var t := Trim(line.text);
    if IsBlank(t) then st else st.(buffer := st.buffer + [t])
  }

  /** One iteration of the loop of `ParseLines`. */
  function ParseStep(st: ParseState, line: ParsedLine, path: string, name: string): ParseState {
    match Find(PozNo, line.text)
    case None => Buffered(st, line)
    case Some(m) =>
      if IsBlank(Value(line.text, m)) then Buffered(st, line)
      else ParseState(st.items + [LineItem(line, m, st.buffer, path, name)], [])
  }

  function ParseFold(lines: seq<ParsedLine>, path: string, name: string): ParseState
    decreases |lines|
  {
    if lines == [] then ParseState([], [])
    else ParseStep(ParseFold(lines[..|lines| - 1], path, name), lines[|lines| - 1], path, name)
  }

  /** `ParseLines`: the items; description lines after the last position
      number are dropped. */
  method ParseLines(lines: seq<ParsedLine>, path: string, name: string) returns (result: seq<PriceItem>)
    ensures result == ParseFold(lines, path, name).items
  {
    result := [];
    var buffer: seq<string> := [];
    for i := 0 to |lines|
      invariant ParseState(result, buffer) == ParseFold(lines[..i], path, name)
    {
      var line := lines[i];
      assert lines[..i + 1][..i] == lines[..i];
      var match_ := Find(PozNo, line.text);
      if match_.None? {
        var trimmedLine := Trim(line.text);
        if !IsBlank(trimmedLine) {
          buffer := buffer + [trimmedLine];
        }
        continue;
      }
      var m := match_.value;
      var pozNo := Value(line.text, m);
      if IsBlank(pozNo) {
        var trimmedLine := Trim(line.text);
        if !IsBlank(trimmedLine) {
          buffer := buffer + [trimmedLine];
        }
        continue;
      }
      result := result + [LineItem(line, m, buffer, path, name)];
      buffer := [];
    }
    assert lines[..|lines|] == lines;
  }

  /** A line holds a position number. */
  predicate IsPozLine(line: ParsedLine) {
    Find(PozNo, line.text).Some?
  }

  /** The lines that hold a position number, in order. */
  function PozLines(lines: seq<ParsedLine>): (r: seq<ParsedLine>)
    ensures forall k | 0 <= k < |r| :: IsPozLine(r[k]) && r[k] in lines
    ensures |r| <= |lines|
    decreases |lines|
  {
    if lines == [] then []
    else PozLines(lines[..|lines| - 1]) + (if IsPozLine(lines[|lines| - 1]) then [lines[|lines| - 1]] else [])
  }

  /** The position number a line holds. */
  function PozOf(line: ParsedLine): string
    requires IsPozLine(line)
  {
    Value(line.text, Find(PozNo, line.text).value)
  }

  /** The branch for a blank position number never runs: a match is always
      a complete 11-character number. */
  lemma PozMatchNotBlank(line: ParsedLine)
    requires IsPozLine(line)
    ensures IsPozToken(PozOf(line)) && !IsBlank(PozOf(line))
  {
    PozNoValue(line.text, Find(PozNo, line.text).value);
  }

  /** The buffer's lines are trimmed and not blank. */
  predicate TidyBuffer(buffer: seq<string>) {
    forall k | 0 <= k < |buffer| :: !IsBlank(buffer[k]) && Trim(buffer[k]) == buffer[k]
  }

  /** The item carries the line's position number and page and the
      document's path and name. */
  predicate ItemOf(item: PriceItem, line: ParsedLine, path: string, name: string)
    requires IsPozLine(line)
  {
    item.pozNo == Some(PozOf(line)) && item.pageNumber == line.page
    && item.documentPath == path && item.documentName == name
  }

  /** One step keeps the buffer tidy, and appends an item for the line
      exactly when the line holds a position number. */
  lemma ParseStepShape(st: ParseState, line: ParsedLine, path: string, name: string)
    requires TidyBuffer(st.buffer)
    ensures var r := ParseStep(st, line, path, name);
      && TidyBuffer(r.buffer)
      && (if IsPozLine(line) then
            |r.items| == |st.items| + 1 && r.items[..|st.items|] == st.items
            && ItemOf(r.items[|st.items|], line, path, name)
          else r.items == st.items)
  {
    if IsPozLine(line) {
      PozMatchNotBlank(line);
    } else {
      TrimIdempotent(line.text);
    }
  }

  /** Exactly one item per line that holds a position number, in line
      order: the item has that line's number and page and the document's
      path and name.  The buffer holds only trimmed, non-blank lines. */
  lemma {:induction false} ParseItems(lines: seq<ParsedLine>, path: string, name: string)
    ensures var st := ParseFold(lines, path, name);
      var pl := PozLines(lines);
      && |st.items| == |pl|
      && (forall k | 0 <= k < |pl| :: ItemOf(st.items[k], pl[k], path, name))
      && TidyBuffer(st.buffer)
    decreases |lines|
  {
    if lines != [] {
      var n := |lines| - 1;
      var line := lines[n];
      ParseItems(lines[..n], path, name);
      var st := ParseFold(lines[..n], path, name);
      var r := ParseFold(lines, path, name);
      assert r == ParseStep(st, line, path, name);
      ParseStepShape(st, line, path, name);
      var pl0 := PozLines(lines[..n]);
      var pl := PozLines(lines);
      assert pl == pl0 + (if IsPozLine(line) then [line] else []);
      forall k | 0 <= k < |pl| ensures ItemOf(r.items[k], pl[k], path, name) {
        if k < |pl0| {
          assert r.items[k] == r.items[..|st.items|][k] == st.items[k];
          assert pl[k] == pl0[k];
        }
      }
    }
  }

  /** A line with a position number turns the buffered lines into its
      description and empties the buffer; any other line leaves the items
      alone. */
  lemma ParseStepEffect(st: ParseState, line: ParsedLine, path: string, name: string)
    ensures var r := ParseStep(st, line, path, name);
      if IsPozLine(line) then
        && r.buffer == []
        && r.items[..|st.items|] == st.items && |r.items| == |st.items| + 1
        && r.items[|st.items|].tanim == Some(PdfCleanTanim(Trim(Join(" ", st.buffer)), PozOf(line)))
      else
        r.items == st.items && (r.buffer == st.buffer || r.buffer == st.buffer + [Trim(line.text)])
  {
    if IsPozLine(line) {
      PozMatchNotBlank(line);
    }
  }

  /** The price of an item is a price match or empty, and so is its unit. */
  lemma UnitAndPriceShape(afterPoz: string)
    ensures var (birim, fiyat) := UnitAndPrice(afterPoz);
      && (birim == "" <==> Find(Unit, afterPoz).None?)
      && (Find(Unit, afterPoz).Some? ==> birim == Trim(Value(afterPoz, Find(Unit, afterPoz).value)))
      && (Find(Unit, afterPoz).None? ==> (fiyat == "" <==> Find(Price, afterPoz).None?))
  {
    match Find(Unit, afterPoz)
    case Some(b) =>
      var v := Value(afterPoz, b);
      assert UnitFrom(afterPoz, b.index, 0).Some?;
      assert !IsWhite(v[0]) by {
        UnitStartsWord(afterPoz, b.index);
      }
      TrimFacts(v);
    case None =>
      match Find(Price, afterPoz)
      case Some(p) =>
        var v := Value(afterPoz, p);
        assert IsDigit(v[0]);
        TrimFacts(v);
      case None =>
  }

  /** The literal a unit form starts with. */
  function FirstLiteral(f: UnitForm): string {
    if f.Plain? then f.word else f.count
  }

  /** A form whose first literal starts with a character that folds to a
      non-white one matches only where the text has a non-white
      character. */
  lemma FormStartsWord(f: UnitForm, s: string, i: nat)
    requires i <= |s| && |FirstLiteral(f)| > 0 && !IsWhite(LowerChar(FirstLiteral(f)[0]))
    ensures FormLength(f, s, i).Some? ==> i < |s| && !IsWhite(s[i])
  {
    var w := FirstLiteral(f);
    if LitAt(s, i, w) {
      assert LowerChar(s[i + 0]) == LowerChar(w[0]);
    }
  }

  /** Every unit form starts with `T`, `m`, `A` or `1`. */
  lemma UnitFormStart(k: nat)
    requires k < |UnitForms|
    ensures |FirstLiteral(UnitForms[k])| > 0 && !IsWhite(LowerChar(FirstLiteral(UnitForms[k])[0]))
  {
    var c := FirstLiteral(UnitForms[k])[0];
    if k == 0 {
      assert c == 'T';
    } else if k < 3 {
      assert c == 'm';
    } else if k == 3 {
      assert c == 'A';
    } else {
      assert c == '1';
    }
  }

  /** No unit form from the `k`-th on matches at the end of the text or at
      a white-space character. */
  lemma {:induction false} UnitFromNotAtWhite(s: string, i: nat, k: nat)
    requires i <= |s| && k <= |UnitForms|
    ensures (i == |s| || IsWhite(s[i])) ==> UnitFrom(s, i, k).None?
    decreases |UnitForms| - k
  {
    if k < |UnitForms| {
      UnitFormStart(k);
      FormStartsWord(UnitForms[k], s, i);
      UnitFromNotAtWhite(s, i, k + 1);
    }
  }

  /** A unit match starts with a character that is not white space: every
      unit form begins with a letter or a digit. */
  lemma UnitStartsWord(s: string, i: nat)
    requires i <= |s| && MatchAt(Unit, s, i).Some?
    ensures i < |s| && !IsWhite(s[i])
  {
    UnitFromNotAtWhite(s, i, 0);
  }

  // ----- The text with page markers ---------------------------------------

  /** The text a page contributes: its marker line, then its text. */
  function PageBlock(number: nat, text: string): string {
    "---PAGE_" + NatToString(number) + "---" + NewLine + text + NewLine
  }

  datatype PageText = PageText(number: nat, text: string)

  function MarkedText(pages: seq<PageText>): string {
    Concat(pages)
  }

  function Concat(pages: seq<PageText>): string
    decreases |pages|
  {
    if pages == [] then ""
    else Concat(pages[..|pages| - 1]) + PageBlock(pages[|pages| - 1].number, pages[|pages| - 1].text)
  }

  /** `ExtractText`: the document's pages with their markers, or "" when
      the document cannot be opened (`None`). */
  method ExtractText(document: Option<seq<PageText>>) returns (text: string)
    ensures document.None? ==> text == ""
    ensures document.Some? ==> text == MarkedText(document.value)
  {
    if document.None? {
      return "";
    }
    var pages := document.value;
    text := "";
    for i := 0 to |pages|
      invariant text == Concat(pages[..i])
    {
      text := text + "---PAGE_" + NatToString(pages[i].number) + "---" + NewLine;
      text := text + pages[i].text + NewLine;
      assert pages[..i + 1][..i] == pages[..i];
    }
    assert pages[..|pages|] == pages;
  }

  /** The items of a document: the lines of its pages, parsed; `None`
      stands for a document that cannot be read, which gives no items.
      There is one item per line holding a position number. */
  function PdfItems(pages: Option<seq<PdfPage>>, path: string): (r: seq<PriceItem>)
    ensures pages.None? ==> r == []
    ensures pages.Some? ==> |r| == |PozLines(PdfLines(pages.value))|
    ensures forall k | 0 <= k < |r| :: r[k].documentPath == path && r[k].documentName == FileName(path)
  {
    match pages
    case None => []
    case Some(ps) =>
      ParseItems(PdfLines(ps), path, FileName(path));
      ParseFold(PdfLines(ps), path, FileName(path)).items
  }

  /** `ParsePdf`: extract the lines, then parse them. */
  method ParsePdf(filePath: string, document: Option<seq<PdfPage>>) returns (items: seq<PriceItem>)
    ensures items == PdfItems(document, filePath)
  {
    var fileName := FileName(filePath);
    if document.None? {
      return [];
    }
    var lines := ExtractPdfLines(document.value);
    items := ParseLines(lines, filePath, fileName);
  }
}
