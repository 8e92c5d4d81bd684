/** The Word parser: the tables of a document's body become price items,
    the first row of each table naming the columns; a document without
    table items becomes one item holding its whole text.

    The document is what the OpenXml library exposes: the body's tables
    (rows of cells of text runs) and the body's inner text. */
module WordParser {
  import opened Wrappers
  import opened Text
  import opened Models
  import opened Seqs
  import opened Paths
  import opened Roles

  /** A table cell: the texts of its text runs, in document order. */
  datatype Cell = Cell(runs: seq<string>)

  datatype Row = Row(cells: seq<Cell>)

  datatype Table = Table(rows: seq<Row>)

  datatype Body = Body(tables: seq<Table>, innerText: string)

  /** A document that cannot be opened, or one that opens, with or without
      a body. */
  datatype WordFile = Unreadable | Opened(body: Option<Body>)

  /** `GetTextFromCell`: the cell's text runs joined with single spaces. */
  function CellText(c: Cell): string {
    Join(" ", c.runs)
  }

  /** The keyword tests on a lower-cased header cell; the position-number
      test accepts "poz" or "no" alone. */
  function HeaderNames(v: string): Named {
    Named(
      Contains(v, "poz") || Contains(v, "no"),
      Contains(v, "tanım") || Contains(v, "tanim") || Contains(v, "açıklama"),
      Contains(v, "birim"),
      Contains(v, "fiyat") || Contains(v, "endeks"))
  }

  /** What each cell of a header row names. */
  function RowNames(cells: seq<Cell>): (r: seq<Named>)
    ensures |r| == |cells| && forall i | 0 <= i < |cells| :: r[i] == HeaderNames(Lower(CellText(cells[i])))
  {
    seq(|cells|, i requires 0 <= i < |cells| => HeaderNames(Lower(CellText(cells[i]))))
  }

  /** One header cell: every field it names takes its index, replacing
      any earlier one. */
  function Classify(cs: Columns, n: Named, i: int): Columns {
    Columns(
      if n.pozNo then i else cs.pozNo,
      if n.tanim then i else cs.tanim,
      if n.birim then i else cs.birim,
      if n.fiyat then i else cs.fiyat)
  }

  /** The columns after the header loop has seen the cells that name
      `names`. */
  function HeaderColumns(names: seq<Named>): Columns
    decreases |names|
  {
    if names == [] then NotFound
    else Classify(HeaderColumns(names[..|names| - 1]), names[|names| - 1], |names| - 1)
  }

  /** Fields the header does not name fall back to indices 0 to 3. */
  function Resolve(cs: Columns): (r: Columns)
    ensures r.pozNo != -1 && r.tanim != -1 && r.birim != -1 && r.fiyat != -1
    ensures && (cs.pozNo != -1 ==> r.pozNo == cs.pozNo) && (cs.tanim != -1 ==> r.tanim == cs.tanim)
            && (cs.birim != -1 ==> r.birim == cs.birim) && (cs.fiyat != -1 ==> r.fiyat == cs.fiyat)
    ensures && (cs.pozNo == -1 ==> r.pozNo == 0) && (cs.tanim == -1 ==> r.tanim == 1)
            && (cs.birim == -1 ==> r.birim == 2) && (cs.fiyat == -1 ==> r.fiyat == 3)
  {
    Columns(
      if cs.pozNo == -1 then 0 else cs.pozNo,
      if cs.tanim == -1 then 1 else cs.tanim,
      if cs.birim == -1 then 2 else cs.birim,
      if cs.fiyat == -1 then 3 else cs.fiyat)
  }

  /** The trimmed text of cell `col`, or "" when the row has no such cell. */
  function Read(cells: seq<Cell>, col: int): string {
    if 0 <= col < |cells| then Trim(CellText(cells[col])) else ""
  }

  /** The item a data row gives, if any; values are not cleaned. */
  function RowItem(row: Row, cols: Columns, path: string, name: string): Option<PriceItem> {
    if |row.cells| == 0 then None
    else
      var pozNo := Read(row.cells, cols.pozNo);
      var tanim := Read(row.cells, cols.tanim);
      var birim := Read(row.cells, cols.birim);
      var fiyat := Read(row.cells, cols.fiyat);
      if !IsBlank(pozNo) || !IsBlank(tanim) then
        Some(PriceItem(Some(pozNo), Some(tanim), Some(birim), Some(fiyat), path, name, 0))
      else None
  }

  function AsSeq<T>(o: Option<T>): seq<T> {
    match o
    case Some(x) => [x]
    case None => []
  }

  /** The columns a table's first row gives. */
  function TableColumns(t: Table): Columns
    requires |t.rows| > 0
  {
    Resolve(HeaderColumns(RowNames(t.rows[0].cells)))
  }

  /** What the data loop appends for one row. */
  function RowItems(cols: Columns, path: string, name: string): Row -> seq<PriceItem> {
    (r: Row) => AsSeq(RowItem(r, cols, path, name))
  }

  /** The items of a table: none for a table with fewer than two rows; else
      one per qualifying row after the first. */
  function TableItems(t: Table, path: string, name: string): seq<PriceItem> {
    if |t.rows| < 2 then [] else FlatMap(t.rows[1..], RowItems(TableColumns(t), path, name))
  }

  function TablesItems(path: string, name: string): Table -> seq<PriceItem> {
    (t: Table) => TableItems(t, path, name)
  }

  /** `ExtractText`: the body's inner text, or "" without a body or when
      the file cannot be opened. */
  function WordText(file: WordFile): string {
    match file
    case Unreadable => ""
    case Opened(None) => ""
    case Opened(Some(b)) => b.innerText
  }

  /** The whole-text item, for a non-blank text. */
  function Fallback(text: string, path: string, name: string): seq<PriceItem> {
    if IsBlank(text) then [] else [PriceItem(None, Some(text), None, None, path, name, 0)]
  }

  function WordItems(file: WordFile, path: string): seq<PriceItem> {
    var name := FileName(path);
    match file
    case Unreadable => Fallback(WordText(file), path, name)
    case Opened(None) => []
    case Opened(Some(b)) =>
      var items := FlatMap(b.tables, TablesItems(path, name));
      if items == [] then Fallback(WordText(file), path, name) else items
  }

  // ----- The loops --------------------------------------------------------

  /** The header loop over the first row's cells. */
  method FindColumns(cells: seq<Cell>) returns (cs: Columns)
    ensures cs == HeaderColumns(RowNames(cells))
  {
    ghost var names := RowNames(cells);
    cs := NotFound;
    for i := 0 to |cells|
      invariant cs == HeaderColumns(names[..i])
    {
      var cellText := Lower(CellText(cells[i]));
      var pozNoCol := if Contains(cellText, "poz") || Contains(cellText, "no") then i else cs.pozNo;
      var tanimCol := if Contains(cellText, "tanım") || Contains(cellText, "tanim") || Contains(cellText, "açıklama") then i else cs.tanim;
      var birimCol := if Contains(cellText, "birim") then i else cs.birim;
      var fiyatCol := if Contains(cellText, "fiyat") || Contains(cellText, "endeks") then i else cs.fiyat;
      assert names[..i + 1][..i] == names[..i];
      cs := Columns(pozNoCol, tanimCol, birimCol, fiyatCol);
    }
    assert names[..|cells|] == names;
  }

  /** The body of the data loop: one row. */
  method ReadRow(row: Row, cols: Columns, path: string, name: string) returns (item: Option<PriceItem>)
    ensures item == RowItem(row, cols, path, name)
  {
    var cells := row.cells;
    if |cells| == 0 {
      return None;
    }
    var pozNo := if 0 <= cols.pozNo < |cells| then Trim(CellText(cells[cols.pozNo])) else "";
    var tanim := if 0 <= cols.tanim < |cells| then Trim(CellText(cells[cols.tanim])) else "";
    var birim := if 0 <= cols.birim < |cells| then Trim(CellText(cells[cols.birim])) else "";
    var fiyat := if 0 <= cols.fiyat < |cells| then Trim(CellText(cells[cols.fiyat])) else "";
    if !IsBlank(pozNo) || !IsBlank(tanim) {
      return Some(PriceItem(Some(pozNo), Some(tanim), Some(birim), Some(fiyat), path, name, 0));
    }
    return None;
  }

  /** One table: the header, then the data rows. */
  method ParseTable(t: Table, path: string, name: string) returns (items: seq<PriceItem>)
    ensures items == TableItems(t, path, name)
  {
    var rows := t.rows;
    items := [];
    if |rows| < 2 {
      return;
    }
    var cs := FindColumns(rows[0].cells);
    var cols := Resolve(cs);
    ghost var data := rows[1..];
    ghost var f := RowItems(cols, path, name);
    for rowIndex := 1 to |rows|
      invariant items == FlatMap(data[..rowIndex - 1], f)
    {
      var item := ReadRow(rows[rowIndex], cols, path, name);
      if item.Some? {
        items := items + [item.value];
      }
      assert data[..rowIndex][..rowIndex - 1] == data[..rowIndex - 1];
    }
    assert data[..|rows| - 1] == data;
  }

  /** `ParseWord`. */
  method ParseWord(filePath: string, file: WordFile) returns (items: seq<PriceItem>)
    ensures items == WordItems(file, filePath)
  {
    var fileName := FileName(filePath);
    items := [];
    if file.Unreadable? {
      var text := WordText(file);
      if !IsBlank(text) {
        items := items + [PriceItem(None, Some(text), None, None, filePath, fileName, 0)];
      }
      return;
    }
    if file.body.None? {
      return;
    }
    var tables := file.body.value.tables;
    ghost var f := TablesItems(filePath, fileName);
    for i := 0 to |tables|
      invariant items == FlatMap(tables[..i], f)
    {
      var tableItems := ParseTable(tables[i], filePath, fileName);
      items := items + tableItems;
      FlatMapPrefix(tables, f, i);
    }
    assert tables[..|tables|] == tables;
    if |items| == 0 {
      var text := WordText(file);
      if !IsBlank(text) {
        items := items + [PriceItem(None, Some(text), None, None, filePath, fileName, 0)];
      }
    }
  }

  // ----- Properties -------------------------------------------------------

  lemma ClassifyRole(cs: Columns, n: Named, i: int, k: nat)
    requires k < 4
    ensures Role(Classify(cs, n, i), k) == if NamedRole(n, k) then i else Role(cs, k)
  {
  }

  /** The last header cell naming a field wins; a field no cell names
      keeps -1. */
  lemma {:induction false} LastWins(names: seq<Named>, k: nat)
    requires k < 4
    ensures var r := Role(HeaderColumns(names), k);
      && (r == -1 <==> forall i | 0 <= i < |names| :: !NamedRole(names[i], k))
      && (r != -1 ==> 0 <= r < |names| && NamedRole(names[r], k)
                      && forall i | r < i < |names| :: !NamedRole(names[i], k))
    decreases |names|
  {
    if names != [] {
      var n := |names| - 1;
      LastWins(names[..n], k);
      ClassifyRole(HeaderColumns(names[..n]), names[n], n, k);
      assert forall i | 0 <= i < n :: names[..n][i] == names[i];
    }
  }

  /** A row gives an item exactly when it has cells and its position
      number or description cell is not blank; the item holds the trimmed
      cells, "" for a column the row does not have, and no page. */
  lemma RowItemFacts(row: Row, cols: Columns, path: string, name: string)
    ensures RowItem(row, cols, path, name).Some? <==>
      |row.cells| > 0 && (!IsBlank(Read(row.cells, cols.pozNo)) || !IsBlank(Read(row.cells, cols.tanim)))
    ensures RowItem(row, cols, path, name).Some? ==>
      var it := RowItem(row, cols, path, name).value;
      && it.pozNo == Some(Read(row.cells, cols.pozNo)) && it.tanim == Some(Read(row.cells, cols.tanim))
      && it.birim == Some(Read(row.cells, cols.birim)) && it.fiyat == Some(Read(row.cells, cols.fiyat))
      && it.documentPath == path && it.documentName == name && it.pageNumber == 0
    ensures forall col | col >= |row.cells| :: Read(row.cells, col) == ""
  {
  }

  /** Every item of a table comes from a data row, never from the first
      row, and a table with fewer than two rows gives nothing. */
  lemma TableItemsFrom(t: Table, path: string, name: string, it: PriceItem)
    requires it in TableItems(t, path, name)
    ensures |t.rows| >= 2
    ensures exists j | 1 <= j < |t.rows| :: RowItem(t.rows[j], TableColumns(t), path, name) == Some(it)
  {
    var data := t.rows[1..];
    FlatMapFrom(data, RowItems(TableColumns(t), path, name), it);
    var j :| 0 <= j < |data| && it in RowItems(TableColumns(t), path, name)(data[j]);
    assert t.rows[j + 1] == data[j];
  }

  /** No table item and a non-blank text give exactly one item holding
      the text and nothing else; table items are returned as they are; an
      unreadable file gives nothing. */
  lemma WordFallback(file: WordFile, path: string)
    ensures file.Opened? && file.body.Some? ==>
      var items := FlatMap(file.body.value.tables, TablesItems(path, FileName(path)));
      var text := file.body.value.innerText;
      if items == [] then
        WordItems(file, path) == (if IsBlank(text) then []
          else [PriceItem(None, Some(text), None, None, path, FileName(path), 0)])
      else WordItems(file, path) == items
    ensures file.Unreadable? || file.body.None? ==> WordItems(file, path) == []
  {
    if file.Unreadable? {
      assert IsBlank("");
    }
  }

  /** Every table item names the file, has no page and has a position
      number or a description. */
  lemma WordItemsFacts(file: WordFile, path: string, it: PriceItem)
    requires it in WordItems(file, path)
    ensures it.documentPath == path && it.documentName == FileName(path) && it.pageNumber == 0
    ensures it.pozNo.None? ==> it.tanim == Some(WordText(file)) && !IsBlank(WordText(file))
    ensures it.pozNo.Some? ==> it.tanim.Some? && (!IsBlank(it.pozNo.value) || !IsBlank(it.tanim.value))
  {
    if file.Opened? && file.body.Some? {
      var items := FlatMap(file.body.value.tables, TablesItems(path, FileName(path)));
      if items != [] {
        FlatMapFrom(file.body.value.tables, TablesItems(path, FileName(path)), it);
        var k :| 0 <= k < |file.body.value.tables| && it in TablesItems(path, FileName(path))(file.body.value.tables[k]);
        var t := file.body.value.tables[k];
        TableItemsFrom(t, path, FileName(path), it);
        var j :| 1 <= j < |t.rows| && RowItem(t.rows[j], TableColumns(t), path, FileName(path)) == Some(it);
        RowItemFacts(t.rows[j], TableColumns(t), path, FileName(path));
      }
    }
  }
}
