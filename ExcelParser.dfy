/** The Excel parser: each worksheet's header row is located by keywords
    in its first rows, and every later row with a position number or a
    description becomes a price item.

    A worksheet is the range of cells it uses and the texts of its cells;
    a cell outside the map is empty, as `GetString` reads it. */
module ExcelParser {
  import opened Wrappers
  import opened Text
  import opened Patterns
  import opened Models
  import opened Seqs
  import opened Cleaning
  import opened Paths
  import opened Roles

  /** The used range: first and last row and column numbers. */
  datatype Range = Range(firstRow: int, lastRow: int, firstCol: int, lastCol: int)

  /** Row and column numbers start at 1 and a used range is not empty. */
  predicate ValidRange(rg: Range) {
    1 <= rg.firstRow <= rg.lastRow && 1 <= rg.firstCol <= rg.lastCol
  }

  /** `used` is `None` for a worksheet without used cells. */
  datatype Sheet = Sheet(used: Option<Range>, cells: map<(int, int), string>)

  /** A workbook, or the exception opening it raised (its message and its
      inner exception's message, "" when there is none). */
  datatype Workbook = Unreadable(message: string, innerMessage: string) | Workbook(sheets: seq<Sheet>)

  /** What `ParseExcel` gives: the items, or the exception it rethrows. */
  datatype Outcome = Parsed(items: seq<PriceItem>) | Failed(message: string)

  function Cell(sh: Sheet, row: int, col: int): string {
    if (row, col) in sh.cells then sh.cells[(row, col)] else ""
  }

  // ----- Header detection -------------------------------------------------

  /** The keyword tests on a lower-cased, trimmed header cell. */
  predicate IsPozHeader(v: string) {
    Contains(v, "poz no") || Contains(v, "pozno") || (Contains(v, "poz") && Contains(v, "no"))
    || v == "poz no" || v == "pozno"
  }

  predicate IsTanimHeader(v: string) {
    Contains(v, "tanım") || Contains(v, "tanim") || Contains(v, "açıklama") || Contains(v, "aciklama")
    || v == "tanım" || v == "tanim"
  }

  predicate IsBirimHeader(v: string) {
    Contains(v, "birim")
  }

  predicate IsFiyatHeader(v: string) {
    Contains(v, "fiyat") || Contains(v, "endeks") || Contains(v, "tüik") || Contains(v, "tuik")
  }

  /** Which fields a header cell names. */
  function CellNames(v: string): Named {
    Named(IsPozHeader(v), IsTanimHeader(v), IsBirimHeader(v), IsFiyatHeader(v))
  }

  /** The four tests of the header loop on one cell: a field not found yet
      takes the column when the cell names it. */
  function Classify(cs: Columns, n: Named, col: int): Columns {
    Columns(
      if cs.pozNo == -1 && n.pozNo then col else cs.pozNo,
      if cs.tanim == -1 && n.tanim then col else cs.tanim,
      if cs.birim == -1 && n.birim then col else cs.birim,
      if cs.fiyat == -1 && n.fiyat then col else cs.fiyat)
  }

  function HeaderText(sh: Sheet, row: int, col: int): string {
    Trim(Lower(Cell(sh, row, col)))
  }

  /** What each header cell names, by row and column. */
  function SheetNames(sh: Sheet): (int, int) -> Named {
    (row: int, col: int) => CellNames(HeaderText(sh, row, col))
  }

  /** The columns after looking at the cells of `row` in columns `lo` up
      to, not including, `hi`, where `grid` tells what a cell names
      (`SheetNames` of the worksheet in the parser). */
  function RowColumns(row: int, lo: int, hi: int, cs: Columns, grid: (int, int) -> Named): Columns
    decreases hi - lo
  {
    if hi <= lo then cs else Classify(RowColumns(row, lo, hi - 1, cs, grid), grid(row, hi - 1), hi - 1)
  }

  /** The inner loop of the header search. */
  method ScanCells(sh: Sheet, row: int, startCol: int, endCol: int, cs: Columns) returns (r: Columns)
    ensures r == RowColumns(row, startCol, endCol + 1, cs, SheetNames(sh))
  {
    r := cs;
    var col := startCol;
    while col <= endCol
      invariant col == startCol || startCol <= col <= endCol + 1
      invariant r == RowColumns(row, startCol, col, cs, SheetNames(sh))
      decreases endCol - col
    {
      var cellValue := Trim(Lower(Cell(sh, row, col)));
      r := Classify(r, CellNames(cellValue), col);
      col := col + 1;
    }
  }

  /** The inner loop over the columns of the used range. */
  method ScanRow(sh: Sheet, rg: Range, row: int, cs: Columns) returns (r: Columns)
    ensures r == RowScanner(rg, SheetNames(sh))(row, cs)
  {
    r := ScanCells(sh, row, rg.firstCol, rg.lastCol, cs);
  }

  predicate AnyFound(cs: Columns) {
    cs.pozNo > 0 || cs.tanim > 0 || cs.birim > 0 || cs.fiyat > 0
  }

  /** The header row so far, the columns so far, and whether the loop has
      stopped because both the position-number and the description
      columns are known. */
  datatype Scan = Scan(row: int, cs: Columns, done: bool)

  /** The last row the header search looks at: at most 20 rows below the
      first. */
  function ScanEnd(rg: Range): int {
    if rg.firstRow + 20 < rg.lastRow then rg.firstRow + 20 else rg.lastRow
  }

  /** The state after one more row, whose cells turned the columns into
      `cs`. */
  function ScanStep(st: Scan, row: int, cs: Columns): Scan {
    var found := AnyFound(cs);
    Scan(if found then row else st.row, cs, found && cs.pozNo > 0 && cs.tanim > 0)
  }

  /** The state of the header search after rows `rg.firstRow` up to, not
      including, `hi`, where `scanRow` is what the inner loop makes of one
      row. */
  function ScanAfter(rg: Range, hi: int, scanRow: (int, Columns) -> Columns): Scan
    decreases hi - rg.firstRow
  {
    if hi <= rg.firstRow then Scan(rg.firstRow, NotFound, false)
    else
      var st := ScanAfter(rg, hi - 1, scanRow);
      if st.done then st else ScanStep(st, hi - 1, scanRow(hi - 1, st.cs))
  }

  /** The inner loop of the header search over the columns of the used
      range. */
  function RowScanner(rg: Range, grid: (int, int) -> Named): (int, Columns) -> Columns {
    (row: int, cs: Columns) => RowColumns(row, rg.firstCol, rg.lastCol + 1, cs, grid)
  }

  /** The header search over a used range whose cells name what `grid`
      says. */
  function HeaderScanWith(rg: Range, grid: (int, int) -> Named): Scan {
    ScanAfter(rg, ScanEnd(rg) + 1, RowScanner(rg, grid))
  }

  function HeaderScan(sh: Sheet, rg: Range): Scan {
    HeaderScanWith(rg, SheetNames(sh))
  }

  lemma {:induction false} ScanStaysDone(rg: Range, lo: int, hi: int, scanRow: (int, Columns) -> Columns)
    requires lo <= hi && ScanAfter(rg, lo, scanRow).done
    ensures ScanAfter(rg, hi, scanRow) == ScanAfter(rg, lo, scanRow)
    decreases hi - lo
  {
    if lo < hi {
      ScanStaysDone(rg, lo, hi - 1, scanRow);
    }
  }

  /** The outer loop of the header search, which stops at the first row
      after which both key columns are known. */
  method FindHeader(sh: Sheet, rg: Range) returns (headerRow: int, cs: Columns)
    ensures HeaderScan(sh, rg).row == headerRow && HeaderScan(sh, rg).cs == cs
  {
    var last := if rg.firstRow + 20 < rg.lastRow then rg.firstRow + 20 else rg.lastRow;
    headerRow, cs := ScanHeaderRows(sh, rg, last);
  }

  /** The loop of the header search over rows `rg.firstRow` to `last`. */
  method ScanHeaderRows(sh: Sheet, rg: Range, last: int) returns (headerRow: int, cs: Columns)
    ensures ScanAfter(rg, last + 1, RowScanner(rg, SheetNames(sh))).row == headerRow
    ensures ScanAfter(rg, last + 1, RowScanner(rg, SheetNames(sh))).cs == cs
  {
    ghost var f := RowScanner(rg, SheetNames(sh));
    headerRow := rg.firstRow;
    cs := NotFound;
    var row := rg.firstRow;
    while row <= last
      invariant row == rg.firstRow || rg.firstRow <= row <= last + 1
      invariant ScanAfter(rg, row, f) == Scan(headerRow, cs, false)
      decreases last - row
    {
      cs := ScanRow(sh, rg, row, cs);
      if cs.pozNo > 0 || cs.tanim > 0 || cs.birim > 0 || cs.fiyat > 0 {
        headerRow := row;
        if cs.pozNo > 0 && cs.tanim > 0 {
          assert ScanAfter(rg, row + 1, f).done;
          ScanStaysDone(rg, row + 1, last + 1, f);
          return;
        }
      }
      row := row + 1;
    }
  }

  /** Fields the header does not name fall back to columns 1 to 4. */
  function Resolve(cs: Columns): (r: Columns)
    ensures r.pozNo != -1 && r.tanim != -1 && r.birim != -1 && r.fiyat != -1
    ensures && (cs.pozNo != -1 ==> r.pozNo == cs.pozNo) && (cs.tanim != -1 ==> r.tanim == cs.tanim)
            && (cs.birim != -1 ==> r.birim == cs.birim) && (cs.fiyat != -1 ==> r.fiyat == cs.fiyat)
    ensures && (cs.pozNo == -1 ==> r.pozNo == 1) && (cs.tanim == -1 ==> r.tanim == 2)
            && (cs.birim == -1 ==> r.birim == 3) && (cs.fiyat == -1 ==> r.fiyat == 4)
  {
    Columns(
      if cs.pozNo == -1 then 1 else cs.pozNo,
      if cs.tanim == -1 then 2 else cs.tanim,
      if cs.birim == -1 then 3 else cs.birim,
      if cs.fiyat == -1 then 4 else cs.fiyat)
  }

  // ----- Rows -------------------------------------------------------------

  /** `^\s*(\d{2}\.\d{3}\.\d{4})\s*$`: the text is a position number with
      nothing but white space around it. */
  predicate StrictPoz(s: string) {
    var w := WhiteRun(s, 0);
    PozShape(s, w) && forall k | w + 11 <= k < |s| :: IsWhite(s[k])
  }

  /** The position number of a row: none for a blank cell; the number
      when the cell is exactly one, else the first number in it, else the
      cell's text. */
  function CleanPozNo(raw: string): Option<string> {
    if IsBlank(raw) then None
    else if StrictPoz(raw) then Some(raw[WhiteRun(raw, 0)..WhiteRun(raw, 0) + 11])
    else
      match Find(PozNoLoose, raw)
      case Some(m) => Some(Value(raw, m))
      case None => Some(raw)
  }

  /** `!string.IsNullOrWhiteSpace(s)` on a nullable string. */
  predicate Present(s: Option<string>) {
    s.Some? && !IsBlank(s.value)
  }

  /** The item a data row gives, if any. */
  function RowItem(sh: Sheet, row: int, cols: Columns, path: string, name: string): Option<PriceItem> {
    var pozNoRaw := Trim(Cell(sh, row, cols.pozNo));
    var tanimRaw := Trim(Cell(sh, row, cols.tanim));
    var birimRaw := Trim(Cell(sh, row, cols.birim));
    var fiyatRaw := Trim(Cell(sh, row, cols.fiyat));
    if IsBlank(pozNoRaw) && IsBlank(tanimRaw) && IsBlank(birimRaw) && IsBlank(fiyatRaw) then None
    else
      var pozNo := CleanPozNo(pozNoRaw);
      var tanim := if IsBlank(tanimRaw) then None else Some(ExcelCleanTanim(tanimRaw));
      if Present(pozNo) || Present(tanim) then
        Some(PriceItem(pozNo, tanim, Some(birimRaw), Some(fiyatRaw), path, name, 0))
      else None
  }

  function AsSeq<T>(o: Option<T>): seq<T> {
    match o
    case Some(x) => [x]
    case None => []
  }

  /** The items of rows `lo` up to, not including, `hi`. */
  function RowItems(sh: Sheet, cols: Columns, lo: int, hi: int, path: string, name: string): seq<PriceItem>
    decreases hi - lo
  {
    if hi <= lo then [] else RowItems(sh, cols, lo, hi - 1, path, name) + AsSeq(RowItem(sh, hi - 1, cols, path, name))
  }

  /** The items of a worksheet: the rows after the header row. */
  function SheetItems(sh: Sheet, path: string, name: string): seq<PriceItem> {
    match sh.used
    case None => []
    case Some(rg) =>
      var h := HeaderScan(sh, rg);
      RowItems(sh, Resolve(h.cs), h.row + 1, rg.lastRow + 1, path, name)
  }

  /** The message of the exception `ParseExcel` throws. */
  function ErrorMessage(message: string, path: string, inner: string): string {
    "Excel dosyası parse edilirken hata: " + message + "\nDosya: " + path + "\nİç Hata: " + inner
  }

  function ExcelItems(wb: Workbook, path: string): Outcome {
    match wb
    case Unreadable(m, inner) => Failed(ErrorMessage(m, path, inner))
    case Workbook(sheets) => Parsed(FlatMap(sheets, (sh: Sheet) => SheetItems(sh, path, FileName(path))))
  }

  /** The body of the data loop: one row. */
  method ReadRow(sh: Sheet, row: int, cols: Columns, path: string, name: string) returns (item: Option<PriceItem>)
    ensures item == RowItem(sh, row, cols, path, name)
  {
    var pozNoRaw := Trim(Cell(sh, row, cols.pozNo));
    var tanimRaw := Trim(Cell(sh, row, cols.tanim));
    var birimRaw := Trim(Cell(sh, row, cols.birim));
    var fiyatRaw := Trim(Cell(sh, row, cols.fiyat));
    if IsBlank(pozNoRaw) && IsBlank(tanimRaw) && IsBlank(birimRaw) && IsBlank(fiyatRaw) {
      return None;
    }
    var pozNo := CleanPozNo(pozNoRaw);
    var tanim: Option<string> := None;
    if !IsBlank(tanimRaw) {
      tanim := Some(ExcelCleanTanim(tanimRaw));
    }
    if Present(pozNo) || Present(tanim) {
      return Some(PriceItem(pozNo, tanim, Some(birimRaw), Some(fiyatRaw), path, name, 0));
    }
    return None;
  }

  /** The data loop of one worksheet. */
  method ReadRows(sh: Sheet, cols: Columns, lo: int, hi: int, path: string, name: string) returns (items: seq<PriceItem>)
    ensures items == RowItems(sh, cols, lo, hi, path, name)
  {
    items := [];
    var row := lo;
    while row < hi
      invariant row == lo || lo <= row <= hi
      invariant items == RowItems(sh, cols, lo, row, path, name)
      decreases hi - row
    {
      var item := ReadRow(sh, row, cols, path, name);
      if item.Some? {
        items := items + [item.value];
      }
      row := row + 1;
    }
  }

  method ParseSheet(sh: Sheet, path: string, name: string) returns (items: seq<PriceItem>)
    ensures items == SheetItems(sh, path, name)
  {
    if sh.used.None? {
      return [];
    }
    var rg := sh.used.value;
    var headerRow, cs := FindHeader(sh, rg);
    var cols := Resolve(cs);
    items := ReadRows(sh, cols, headerRow + 1, rg.lastRow + 1, path, name);
  }

  /** `ParseExcel`: every worksheet in order; an exception is rethrown
      with the file's path in its message. */
  method ParseExcel(filePath: string, wb: Workbook) returns (r: Outcome)
    ensures r == ExcelItems(wb, filePath)
  {
    var fileName := FileName(filePath);
    if wb.Unreadable? {
      return Failed(ErrorMessage(wb.message, filePath, wb.innerMessage));
    }
    var sheets := wb.sheets;
    ghost var f := (sh: Sheet) => SheetItems(sh, filePath, FileName(filePath));
    var items: seq<PriceItem> := [];
    for i := 0 to |sheets|
      invariant items == FlatMap(sheets[..i], f)
    {
      var sheetItems := ParseSheet(sheets[i], filePath, fileName);
      items := items + sheetItems;
      FlatMapPrefix(sheets, f, i);
    }
    assert sheets[..|sheets|] == sheets;
    return Parsed(items);
  }

  // ----- Text -------------------------------------------------------------

  /** The non-blank cells of `row` in columns 1 up to, not including, `hi`. */
  function RowCells(sh: Sheet, row: int, hi: int): (r: seq<string>)
    ensures forall k | 0 <= k < |r| :: !IsBlank(r[k])
    ensures r == [] <==> forall c | 1 <= c < hi :: IsBlank(Cell(sh, row, c))
    decreases hi - 1
  {
    if hi <= 1 then []
    else RowCells(sh, row, hi - 1) + (if IsBlank(Cell(sh, row, hi - 1)) then [] else [Cell(sh, row, hi - 1)])
  }

  /** A row's line: its non-blank cells joined with spaces; nothing for a
      row without any. */
  function RowLine(sh: Sheet, row: int, lastCol: int): string {
    var cells := RowCells(sh, row, lastCol + 1);
    if |cells| == 0 then "" else Join(" ", cells) + NewLine
  }

  /** The lines of rows 1 up to, not including, `hi`. */
  function SheetLines(sh: Sheet, lastCol: int, hi: int): string
    decreases hi - 1
  {
    if hi <= 1 then "" else SheetLines(sh, lastCol, hi - 1) + RowLine(sh, hi - 1, lastCol)
  }

  /** A worksheet's text, from row and column 1 to the end of its used
      range. */
  function SheetText(sh: Sheet): string {
    match sh.used
    case None => ""
    case Some(rg) => SheetLines(sh, rg.lastCol, rg.lastRow + 1)
  }

  function WorkbookText(wb: Workbook): string {
    match wb
    case Unreadable(_, _) => ""
    case Workbook(sheets) => FlatMap(sheets, SheetText)
  }

  method RowText(sh: Sheet, row: int, endCol: int) returns (line: string)
    ensures line == RowLine(sh, row, endCol)
  {
    var rowText: seq<string> := [];
    var col := 1;
    while col <= endCol
      invariant col == 1 || 1 <= col <= endCol + 1
      invariant rowText == RowCells(sh, row, col)
      decreases endCol - col
    {
      var cellValue := Cell(sh, row, col);
      if !IsBlank(cellValue) {
        rowText := rowText + [cellValue];
      }
      col := col + 1;
    }
    line := if |rowText| > 0 then Join(" ", rowText) + NewLine else "";
  }

  method SheetTextOf(sh: Sheet) returns (text: string)
    ensures text == SheetText(sh)
  {
    text := "";
    if sh.used.None? {
      return;
    }
    var endRow := sh.used.value.lastRow;
    var endCol := sh.used.value.lastCol;
    var row := 1;
    while row <= endRow
      invariant row == 1 || 1 <= row <= endRow + 1
      invariant text == SheetLines(sh, endCol, row)
      decreases endRow - row
    {
      var line := RowText(sh, row, endCol);
      text := text + line;
      row := row + 1;
    }
  }

  /** `ExtractText`: every worksheet's rows; "" when the workbook cannot be
      opened. */
  method ExtractText(wb: Workbook) returns (text: string)
    ensures text == WorkbookText(wb)
  {
    if wb.Unreadable? {
      return "";
    }
    var sheets := wb.sheets;
    text := "";
    for i := 0 to |sheets|
      invariant text == FlatMap(sheets[..i], SheetText)
    {
      var sheetText := SheetTextOf(sheets[i]);
      text := text + sheetText;
      FlatMapPrefix(sheets, SheetText, i);
    }
    assert sheets[..|sheets|] == sheets;
  }
  // ----- Properties -------------------------------------------------------

  /** An occurrence of `a + b` holds occurrences of `a` and of `b`. */
  lemma ContainsParts(v: string, a: string, b: string)
    requires Contains(v, a + b)
    ensures Contains(v, a) && Contains(v, b)
  {
    var i :| 0 <= i <= |v| - |a + b| && OccursAt(v, a + b, i);
    assert v[i..i + |a|] == (a + b)[..|a|] == a;
    assert v[i + |a|..i + |a| + |b|] == (a + b)[|a|..] == b;
    assert OccursAt(v, a, i) && OccursAt(v, b, i + |a|);
  }

  lemma ContainsSelf(v: string)
    ensures Contains(v, v)
  {
    assert OccursAt(v, v, 0);
  }

  /** Of the position-number header tests only "poz" and "no" both
      occurring matters: the others imply it. */
  lemma PozHeaderSimplified(v: string)
    ensures IsPozHeader(v) <==> Contains(v, "poz") && Contains(v, "no")
  {
    assert "poz" + " no" == "poz no" && "poz " + "no" == "poz no" && "poz" + "no" == "pozno";
    if v == "poz no" || v == "pozno" {
      ContainsSelf(v);
    }
    if Contains(v, "poz no") {
      ContainsParts(v, "poz ", "no");
      ContainsParts(v, "poz", " no");
    }
    if Contains(v, "pozno") {
      ContainsParts(v, "poz", "no");
    }
  }

  /** The exact comparisons of the description test add nothing to the
      containment tests. */
  lemma TanimHeaderSimplified(v: string)
    ensures IsTanimHeader(v) <==>
      Contains(v, "tanım") || Contains(v, "tanim") || Contains(v, "açıklama") || Contains(v, "aciklama")
  {
    if v == "tanım" || v == "tanim" {
      ContainsSelf(v);
    }
  }

  lemma ClassifyRole(cs: Columns, n: Named, col: int, k: nat)
    requires k < 4
    ensures Role(Classify(cs, n, col), k) == if Role(cs, k) == -1 && NamedRole(n, k) then col else Role(cs, k)
  {
  }

  /** Scanning the cells of a row, a field keeps the column it already
      has; otherwise it takes the first column whose cell names it, or
      stays unknown when none does. */
  lemma {:induction false} RowColumnsRole(row: int, lo: int, hi: int, cs: Columns, grid: (int, int) -> Named, k: nat)
    requires k < 4 && 1 <= lo
    ensures var r := Role(RowColumns(row, lo, hi, cs, grid), k);
      && (Role(cs, k) != -1 ==> r == Role(cs, k))
      && (Role(cs, k) == -1 && r != -1 ==>
            lo <= r < hi && NamedRole(grid(row, r), k) && forall c | lo <= c < r :: !NamedRole(grid(row, c), k))
      && (Role(cs, k) == -1 && r == -1 ==> forall c | lo <= c < hi :: !NamedRole(grid(row, c), k))
    decreases hi - lo
  {
    if lo < hi {
      RowColumnsRole(row, lo, hi - 1, cs, grid, k);
      ClassifyRole(RowColumns(row, lo, hi - 1, cs, grid), grid(row, hi - 1), hi - 1, k);
    }
  }

  /** The search stops only once both key columns are known. */
  lemma {:induction false} ScanDoneKnown(rg: Range, hi: int, scanRow: (int, Columns) -> Columns)
    requires ScanAfter(rg, hi, scanRow).done
    ensures ScanAfter(rg, hi, scanRow).cs.pozNo > 0 && ScanAfter(rg, hi, scanRow).cs.tanim > 0
    decreases hi - rg.firstRow
  {
    if hi > rg.firstRow && ScanAfter(rg, hi - 1, scanRow).done {
      ScanDoneKnown(rg, hi - 1, scanRow);
    }
  }

  /** A first row naming both the position-number and the description
      columns is the header, and those columns are the first cells of the
      row that name them. */
  lemma FirstRowHeader(rg: Range, grid: (int, int) -> Named, p: int, t: int)
    requires ValidRange(rg)
    requires rg.firstCol <= p <= rg.lastCol && grid(rg.firstRow, p).pozNo
    requires rg.firstCol <= t <= rg.lastCol && grid(rg.firstRow, t).tanim
    ensures HeaderScanWith(rg, grid).row == rg.firstRow
    ensures var cs := HeaderScanWith(rg, grid).cs;
      && rg.firstCol <= cs.pozNo <= p && grid(rg.firstRow, cs.pozNo).pozNo
      && (forall c | rg.firstCol <= c < cs.pozNo :: !grid(rg.firstRow, c).pozNo)
      && rg.firstCol <= cs.tanim <= t && grid(rg.firstRow, cs.tanim).tanim
      && (forall c | rg.firstCol <= c < cs.tanim :: !grid(rg.firstRow, c).tanim)
  {
    var f := RowScanner(rg, grid);
    var cs := RowColumns(rg.firstRow, rg.firstCol, rg.lastCol + 1, NotFound, grid);
    RowColumnsRole(rg.firstRow, rg.firstCol, rg.lastCol + 1, NotFound, grid, 0);
    RowColumnsRole(rg.firstRow, rg.firstCol, rg.lastCol + 1, NotFound, grid, 1);
    assert NamedRole(grid(rg.firstRow, p), 0) && NamedRole(grid(rg.firstRow, t), 1);
    assert Role(cs, 0) == cs.pozNo && Role(cs, 1) == cs.tanim;
    assert ScanAfter(rg, rg.firstRow + 1, f) == Scan(rg.firstRow, cs, true);
    ScanStaysDone(rg, rg.firstRow + 1, ScanEnd(rg) + 1, f);
  }

  /** No cell in rows `lo` to `hi` - 1 of the range names a field. */
  predicate NamesNothing(rg: Range, grid: (int, int) -> Named, lo: int, hi: int) {
    forall row, c | lo <= row < hi && rg.firstCol <= c <= rg.lastCol :: grid(row, c) == Named(false, false, false, false)
  }

  /** The state of a search that has found nothing in its rows so far. */
  lemma {:induction false} NothingFound(rg: Range, grid: (int, int) -> Named, hi: int)
    requires ValidRange(rg) && NamesNothing(rg, grid, rg.firstRow, hi)
    ensures ScanAfter(rg, hi, RowScanner(rg, grid)) == Scan(rg.firstRow, NotFound, false)
    decreases hi - rg.firstRow
  {
    if hi > rg.firstRow {
      NothingFound(rg, grid, hi - 1);
      var r := RowColumns(hi - 1, rg.firstCol, rg.lastCol + 1, NotFound, grid);
      forall k | 0 <= k < 4 ensures Role(r, k) == -1 {
        RowColumnsRole(hi - 1, rg.firstCol, rg.lastCol + 1, NotFound, grid, k);
      }
      assert r == NotFound by {
        assert Role(r, 0) == -1 && Role(r, 1) == -1 && Role(r, 2) == -1 && Role(r, 3) == -1;
      }
    }
  }

  /** Without a header the first row is still skipped, and the fields are
      read from columns 1 to 4. */
  lemma NoHeaderDefaults(rg: Range, grid: (int, int) -> Named)
    requires ValidRange(rg) && NamesNothing(rg, grid, rg.firstRow, ScanEnd(rg) + 1)
    ensures HeaderScanWith(rg, grid).row == rg.firstRow
    ensures Resolve(HeaderScanWith(rg, grid).cs) == Columns(1, 2, 3, 4)
  {
    NothingFound(rg, grid, ScanEnd(rg) + 1);
  }

  /** A search that did not stop early but found some column ends with
      the header row at the last row it looks at. */
  lemma HeaderRowLatest(rg: Range, grid: (int, int) -> Named)
    requires !HeaderScanWith(rg, grid).done && AnyFound(HeaderScanWith(rg, grid).cs)
    ensures HeaderScanWith(rg, grid).row == ScanEnd(rg)
  {
  }

  /** When some header column is found but no description column, the
      search never stops early, and the header row becomes the last row it
      looks at, up to 20 rows below the real header. */
  lemma HeaderRowWithoutTanim(rg: Range, grid: (int, int) -> Named)
    requires HeaderScanWith(rg, grid).cs.tanim == -1 && AnyFound(HeaderScanWith(rg, grid).cs)
    ensures !HeaderScanWith(rg, grid).done && HeaderScanWith(rg, grid).row == ScanEnd(rg)
  {
    if HeaderScanWith(rg, grid).done {
      ScanDoneKnown(rg, ScanEnd(rg) + 1, RowScanner(rg, grid));
    }
    HeaderRowLatest(rg, grid);
  }

  /** The exact position-number pattern adds nothing: the result is the
      first flexible match, or the cell itself when there is none. */
  lemma StrictIsFlexible(raw: string)
    ensures CleanPozNo(raw) ==
      if IsBlank(raw) then None
      else match Find(PozNoLoose, raw)
        case Some(m) => Some(Value(raw, m))
        case None => Some(raw)
  {
    if !IsBlank(raw) && StrictPoz(raw) {
      var w := WhiteRun(raw, 0);
      assert MatchAt(PozNoLoose, raw, w) == Some(11);
      forall k | 0 <= k < w ensures MatchAt(PozNoLoose, raw, k).None? {
        assert IsWhite(raw[k]);
      }
      FindLeftmost(PozNoLoose, raw, w);
    }
  }

  /** A position number read from a cell is absent exactly when the cell
      is blank; otherwise it is not blank, and it is either a complete
      number taken from the cell or the whole cell. */
  lemma CleanPozNoFacts(raw: string)
    ensures CleanPozNo(raw).None? <==> IsBlank(raw)
    ensures CleanPozNo(raw).Some? ==> !IsBlank(CleanPozNo(raw).value)
    ensures CleanPozNo(raw).Some? ==> CleanPozNo(raw).value == raw || IsPozToken(CleanPozNo(raw).value)
  {
    StrictIsFlexible(raw);
    match Find(PozNoLoose, raw)
    case Some(m) => PozNoValue(raw, m);
    case None =>
  }

  /** A cell holding just a position number gives that number. */
  lemma CleanPozNoToken(t: string)
    requires IsPozToken(t)
    ensures CleanPozNo(t) == Some(t)
  {
    PozTokenChars(t);
    assert WhiteRun(t, 0) == 0 && StrictPoz(t);
    assert t[0..11] == t;
  }

  /** A row gives an item exactly when its position-number cell is not
      blank or its description survives cleaning; the item carries the
      cleaned fields, the trimmed unit and price cells, the document and
      page 0. */
  lemma RowItemFacts(sh: Sheet, row: int, cols: Columns, path: string, name: string)
    ensures var pozNoRaw := Trim(Cell(sh, row, cols.pozNo));
      var tanimRaw := Trim(Cell(sh, row, cols.tanim));
      && (RowItem(sh, row, cols, path, name).Some? <==>
            !IsBlank(pozNoRaw) || (!IsBlank(tanimRaw) && !IsBlank(ExcelCleanTanim(tanimRaw))))
      && (RowItem(sh, row, cols, path, name).Some? ==>
            var it := RowItem(sh, row, cols, path, name).value;
            && it.pozNo == CleanPozNo(pozNoRaw)
            && (it.tanim.None? <==> IsBlank(tanimRaw))
            && it.birim == Some(Trim(Cell(sh, row, cols.birim)))
            && it.fiyat == Some(Trim(Cell(sh, row, cols.fiyat)))
            && it.documentPath == path && it.documentName == name && it.pageNumber == 0)
  {
    CleanPozNoFacts(Trim(Cell(sh, row, cols.pozNo)));
  }

  /** An item a row gives names the document and page 0, and has a
      position number or a description. */
  lemma RowItemShape(sh: Sheet, row: int, cols: Columns, path: string, name: string)
    requires RowItem(sh, row, cols, path, name).Some?
    ensures var it := RowItem(sh, row, cols, path, name).value;
      && it.documentPath == path && it.documentName == name && it.pageNumber == 0
      && (Present(it.pozNo) || Present(it.tanim))
  {
  }

  /** Every item of a worksheet comes from one of its rows after the
      header row. */
  lemma {:induction false} RowItemsFrom(sh: Sheet, cols: Columns, lo: int, hi: int, path: string, name: string, it: PriceItem)
    requires it in RowItems(sh, cols, lo, hi, path, name)
    ensures exists row | lo <= row < hi :: RowItem(sh, row, cols, path, name) == Some(it)
    decreases hi - lo
  {
    if it !in AsSeq(RowItem(sh, hi - 1, cols, path, name)) {
      RowItemsFrom(sh, cols, lo, hi - 1, path, name, it);
    }
  }

  /** Every item of the data loop names the document and page 0, and has
      a position number or a description. */
  lemma {:induction false} RowItemsShape(sh: Sheet, cols: Columns, lo: int, hi: int, path: string, name: string, it: PriceItem)
    requires it in RowItems(sh, cols, lo, hi, path, name)
    ensures it.documentPath == path && it.documentName == name && it.pageNumber == 0
    ensures Present(it.pozNo) || Present(it.tanim)
    decreases hi - lo
  {
    var last := RowItem(sh, hi - 1, cols, path, name);
    if it in AsSeq(last) {
      RowItemShape(sh, hi - 1, cols, path, name);
    } else {
      RowItemsShape(sh, cols, lo, hi - 1, path, name, it);
    }
  }

  /** Every item of a worksheet names the file and page 0, and has a
      position number or a description. */
  lemma SheetItemsFacts(sh: Sheet, path: string, name: string, it: PriceItem)
    requires it in SheetItems(sh, path, name)
    ensures it.documentPath == path && it.documentName == name && it.pageNumber == 0
    ensures Present(it.pozNo) || Present(it.tanim)
  {
    var rg := sh.used.value;
    var h := HeaderScan(sh, rg);
    var cols := Resolve(h.cs);
    RowItemsShape(sh, cols, h.row + 1, rg.lastRow + 1, path, name, it);
  }

  /** Every item of a workbook names the file and page 0, and has a
      position number or a description. */
  lemma ExcelItemsFacts(wb: Workbook, path: string, it: PriceItem)
    requires ExcelItems(wb, path).Parsed? && it in ExcelItems(wb, path).items
    ensures it.documentPath == path && it.documentName == FileName(path) && it.pageNumber == 0
    ensures Present(it.pozNo) || Present(it.tanim)
  {
    var f := (sh: Sheet) => SheetItems(sh, path, FileName(path));
    FlatMapFrom(wb.sheets, f, it);
    var k :| 0 <= k < |wb.sheets| && it in f(wb.sheets[k]);
    SheetItemsFacts(wb.sheets[k], path, FileName(path), it);
  }

  /** An unreadable workbook is reported with the file's path. */
  lemma FailureNamesFile(wb: Workbook, path: string)
    requires wb.Unreadable?
    ensures ExcelItems(wb, path).Failed? && Contains(ExcelItems(wb, path).message, path)
  {
    var msg := ExcelItems(wb, path).message;
    var i := |"Excel dosyası parse edilirken hata: " + wb.message + "\nDosya: "|;
    assert msg[i..i + |path|] == path;
    assert OccursAt(msg, path, i);
  }
}
