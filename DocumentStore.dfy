/** The document store: the loaded documents, kept in memory in load
    order, and the list of their file details written to `documents.json`
    after every change.

    The file system, the clock and the three text extractors are outside
    the model: they are passed in as functions. */
module DocumentStore {
  import opened Wrappers
  import opened Text
  import opened Models
  import opened Paths

  /** Paths are compared ignoring case (`StringComparison.OrdinalIgnoreCase`). */
  predicate SamePath(a: string, b: string) {
    Lower(a) == Lower(b)
  }

  /** Which extractor a lower-cased extension selects. */
  datatype Kind = PdfFile | ExcelFile | WordFile | OtherFile

  function KindOf(extension: string): (k: Kind)
    ensures k == PdfFile <==> extension == ".pdf"
    ensures k == ExcelFile <==> extension == ".xlsx" || extension == ".xls"
    ensures k == WordFile <==> extension == ".docx" || extension == ".doc"
  {
    if extension == ".pdf" then PdfFile
    else if extension == ".xlsx" || extension == ".xls" then ExcelFile
    else if extension == ".docx" || extension == ".doc" then WordFile
    else OtherFile
  }

  /** The three `ExtractText` calls, from a path to the text they give. */
  datatype Extractors = Extractors(pdf: string -> string, excel: string -> string, word: string -> string)

  /** What the file system answers: whether a file exists, its length, and
      whether loading it throws (an unreadable file, an extractor that
      fails). */
  datatype FileSystem = FileSystem(exists_: string -> bool, size: string -> int, throws: string -> bool)

  /** The raw content a load stores: the extractor chosen by the extension,
      or "" for any other file. */
  function RawContent(extension: string, path: string, ex: Extractors): (r: string)
    ensures KindOf(extension) == OtherFile ==> r == ""
  {
    match KindOf(extension)
    case PdfFile => ex.pdf(path)
    case ExcelFile => ex.excel(path)
    case WordFile => ex.word(path)
    case OtherFile => ""
  }

  /** The document `LoadDocumentAsync` builds: the file's name, its
      lower-cased extension, its length, the time and the raw content;
      no price items. */
  function NewDocument(path: string, size: int, now: int, ex: Extractors): (d: Document)
    ensures d.filePath == path && d.fileName == FileName(path) && d.fileExtension == Lower(Extension(path))
    ensures d.fileSize == size && d.uploadDate == now && d.priceItems == []
    ensures d.rawContent == RawContent(Lower(Extension(path)), path, ex)
  {
    var extension := Lower(Extension(path));
    Document(path, FileName(path), extension, size, now, [], RawContent(extension, path, ex))
  }

  /** `RemoveAll(d => d.FilePath.Equals(path, OrdinalIgnoreCase))`. */
  function Without(docs: seq<Document>, path: string): (r: seq<Document>)
    ensures |r| <= |docs|
    decreases |docs|
  {
    if docs == [] then []
    else Without(docs[..|docs| - 1], path) + (if SamePath(docs[|docs| - 1].filePath, path) then [] else [docs[|docs| - 1]])
  }

  function Info(d: Document): DocumentInfo {
    DocumentInfo(d.filePath, d.fileName, d.fileExtension, d.fileSize, d.uploadDate)
  }

  /** The list `SaveDocuments` writes: the details of each document, in
      store order. */
  function Infos(docs: seq<Document>): (r: seq<DocumentInfo>)
    ensures |r| == |docs|
    ensures forall i | 0 <= i < |docs| :: r[i] == Info(docs[i])
  {
    seq(|docs|, i requires 0 <= i < |docs| => Info(docs[i]))
  }

  /** What reloading leaves: the documents, and whether anything was loaded
      (and so written back). */
  datatype Reloaded = Reloaded(documents: seq<Document>, wrote: bool)

  /** The reload loop from entry `i` on: entries with an empty or missing
      path are skipped; the first load that throws ends the loop. */
  function ReloadFrom(docs: seq<Document>, wrote: bool, infos: seq<DocumentInfo>, i: nat,
                      fs: FileSystem, ex: Extractors, clock: nat -> int): Reloaded
    requires i <= |infos|
    decreases |infos| - i
  {
    if i == |infos| then Reloaded(docs, wrote)
    else
      var path := infos[i].filePath;
      if path == "" || !fs.exists_(path) then ReloadFrom(docs, wrote, infos, i + 1, fs, ex, clock)
      else if fs.throws(path) then Reloaded(docs, wrote)
      else
        ReloadFrom(Without(docs, path) + [NewDocument(path, fs.size(path), clock(i), ex)], true,
                   infos, i + 1, fs, ex, clock)
  }

  ghost predicate NoItems(docs: seq<Document>) {
    forall i | 0 <= i < |docs| :: docs[i].priceItems == []
  }

  class DocumentService {
    var documents: seq<Document>
    /** The contents of `documents.json`: None when there is no such file
        or it does not hold a list. */
    var saved: Option<seq<DocumentInfo>>

    /** Documents are only ever stored without price items. */
    ghost predicate Valid()
      reads this
    {
      NoItems(documents)
    }

    constructor (stored: Option<seq<DocumentInfo>>)
      ensures Valid() && documents == [] && saved == stored
    {
      documents := [];
      saved := stored;
    }

    /** `SaveDocuments`. */
    method SaveDocuments()
      modifies this`saved
      ensures saved == Some(Infos(documents))
    {
      var infos: seq<DocumentInfo> := [];
      for i := 0 to |documents|
        invariant infos == Infos(documents[..i])
      {
        var d := documents[i];
        infos := infos + [DocumentInfo(d.filePath, d.fileName, d.fileExtension, d.fileSize, d.uploadDate)];
      }
      assert documents[..|documents|] == documents;
      saved := Some(infos);
    }

    /** The `RemoveAll` of the store's list. */
    method RemoveAllPath(filePath: string)
      modifies this`documents
      ensures documents == Without(old(documents), filePath)
    {
      var kept: seq<Document> := [];
      ghost var was := documents;
      for i := 0 to |documents|
        invariant kept == Without(was[..i], filePath)
      {
        if !SamePath(documents[i].filePath, filePath) {
          kept := kept + [documents[i]];
        }
        assert was[..i + 1][..i] == was[..i];
      }
      assert was[..|was|] == was;
      documents := kept;
    }

    /** The document a load builds, before it is stored. */
    static method ReadDocument(filePath: string, size: int, now: int, ex: Extractors) returns (document: Document)
      ensures document == NewDocument(filePath, size, now, ex)
    {
      var extension := Lower(Extension(filePath));
      var rawContent: string;
      match KindOf(extension) {
        case PdfFile => rawContent := ex.pdf(filePath);
        case ExcelFile => rawContent := ex.excel(filePath);
        case WordFile => rawContent := ex.word(filePath);
        case OtherFile => rawContent := "";
      }
      document := Document(filePath, FileName(filePath), extension, size, now, [], rawContent);
    }

    /** `LoadDocumentAsync`: reading the file's details throws for a bad or
        unreadable path before anything is stored, and the store is left
        alone (`None`); otherwise any document with the same path is
        replaced by the new one, placed last, and the storage rewritten. */
    method LoadDocument(filePath: string, fs: FileSystem, now: int, ex: Extractors) returns (document: Option<Document>)
      requires Valid()
      modifies this
      ensures Valid()
      ensures fs.throws(filePath) ==> document == None && documents == old(documents) && saved == old(saved)
      ensures !fs.throws(filePath) ==>
        && document == Some(NewDocument(filePath, fs.size(filePath), now, ex))
        && documents == Without(old(documents), filePath) + [document.value]
        && saved == Some(Infos(documents))
    {
      if fs.throws(filePath) {
        return None;
      }
      var loaded := ReadDocument(filePath, fs.size(filePath), now, ex);
      Store(loaded);
      document := Some(loaded);
    }

    /** The end of a load: the `RemoveAll` of the path, the `Add` and the
        `SaveDocuments`. */
    method Store(document: Document)
      requires Valid() && document.priceItems == []
      modifies this
      ensures Valid()
      ensures documents == Without(old(documents), document.filePath) + [document]
      ensures saved == Some(Infos(documents))
    {
      RemoveAllPath(document.filePath);
      WithoutNoItems(old(documents), document.filePath);
      documents := documents + [document];
      SaveDocuments();
    }

    /** `RemoveDocument`. */
    method RemoveDocument(filePath: string)
      requires Valid()
      modifies this
      ensures Valid()
      ensures documents == Without(old(documents), filePath)
      ensures saved == Some(Infos(documents))
    {
      RemoveAllPath(filePath);
      WithoutNoItems(old(documents), filePath);
      SaveDocuments();
    }

    /** `GetAllDocuments`: a new list holding the documents; changing it
        leaves the store alone. */
    method GetAllDocuments() returns (copy: array<Document>)
      ensures fresh(copy) && copy[..] == documents
    {
      copy := new Document[|documents|](i requires 0 <= i < |documents| reads this => documents[i]);
    }

    /** `LoadSavedDocumentsAsync`: reload every saved entry whose file still
        exists, in order, until a load throws. */
    method LoadSavedDocuments(fs: FileSystem, ex: Extractors, clock: nat -> int)
      requires Valid()
      modifies this
      ensures Valid()
      ensures old(saved).None? ==> documents == old(documents) && saved == old(saved)
      ensures old(saved).Some? ==>
        var r := ReloadFrom(old(documents), false, old(saved).value, 0, fs, ex, clock);
        documents == r.documents && (if r.wrote then saved == Some(Infos(documents)) else saved == old(saved))
    {
      if saved.None? {
        return;
      }
      var documentInfos := saved.value;
      ghost var result := ReloadFrom(documents, false, documentInfos, 0, fs, ex, clock);
      ghost var wrote := false;
      var i := 0;
      while i < |documentInfos|
        invariant 0 <= i <= |documentInfos|
        invariant Valid()
        invariant ReloadFrom(documents, wrote, documentInfos, i, fs, ex, clock) == result
        invariant if wrote then saved == Some(Infos(documents)) else saved == old(saved)
      {
        var path := documentInfos[i].filePath;
        if path == "" || !fs.exists_(path) {
          i := i + 1;
          continue;
        }
        var loaded := LoadDocument(path, fs, clock(i), ex);
        if loaded.None? {
          break;
        }
        wrote := true;
        i := i + 1;
      }
    }
  }

  // ----- Properties -------------------------------------------------------

  /** Removing keeps only documents from the list, and nothing with the
      path. */
  lemma {:induction false} WithoutKeeps(docs: seq<Document>, path: string)
    ensures forall d | d in Without(docs, path) :: d in docs && !SamePath(d.filePath, path)
    decreases |docs|
  {
    if docs != [] {
      WithoutKeeps(docs[..|docs| - 1], path);
    }
  }

  /** Removing keeps every document whose path differs. */
  lemma {:induction false} WithoutKeepsOthers(docs: seq<Document>, path: string, d: Document)
    requires d in docs && !SamePath(d.filePath, path)
    ensures d in Without(docs, path)
    decreases |docs|
  {
    if d != docs[|docs| - 1] {
      WithoutKeepsOthers(docs[..|docs| - 1], path, d);
    }
  }

  /** Removing works piece by piece, so the documents it keeps stay in
      their relative order. */
  lemma {:induction false} WithoutAppend(a: seq<Document>, b: seq<Document>, path: string)
    ensures Without(a + b, path) == Without(a, path) + Without(b, path)
    decreases |b|
  {
    if b != [] {
      var n := |b| - 1;
      assert (a + b)[..|a + b| - 1] == a + b[..n];
      assert (a + b)[|a + b| - 1] == b[n];
      WithoutAppend(a, b[..n], path);
    } else {
      assert a + b == a;
    }
  }

  lemma WithoutOne(d: Document, path: string)
    ensures Without([d], path) == if SamePath(d.filePath, path) then [] else [d]
  {
    assert [d][..0] == [] && [d][0] == d;
    assert Without([d], path) == Without([], path) + (if SamePath(d.filePath, path) then [] else [d]);
  }

  /** Removing twice removes nothing more. */
  lemma {:induction false} WithoutIdempotent(docs: seq<Document>, path: string)
    ensures Without(Without(docs, path), path) == Without(docs, path)
    decreases |docs|
  {
    if docs != [] {
      var n := |docs| - 1;
      var pre := Without(docs[..n], path);
      var tail := if SamePath(docs[n].filePath, path) then [] else [docs[n]];
      assert Without(docs, path) == pre + tail;
      WithoutIdempotent(docs[..n], path);
      WithoutAppend(pre, tail, path);
      assert Without(tail, path) == tail by {
        if tail != [] { WithoutOne(docs[n], path); }
      }
    }
  }

  /** After a load the store holds exactly one document with the path,
      the last one. */
  lemma LoadLeavesOne(docs: seq<Document>, path: string, d: Document)
    requires d.filePath == path
    ensures var r := Without(docs, path) + [d];
      r[|r| - 1] == d && forall i | 0 <= i < |r| - 1 :: !SamePath(r[i].filePath, path)
  {
    WithoutKeeps(docs, path);
    var r := Without(docs, path) + [d];
    forall i | 0 <= i < |r| - 1 ensures !SamePath(r[i].filePath, path) {
      assert r[i] in Without(docs, path);
    }
  }

  /** The saved list does not depend on the raw content or the price
      items. */
  lemma InfosIgnoreContent(a: seq<Document>, b: seq<Document>)
    requires |a| == |b|
    requires forall i | 0 <= i < |a| :: a[i].(rawContent := "", priceItems := []) == b[i].(rawContent := "", priceItems := [])
    ensures Infos(a) == Infos(b)
  {
    forall i | 0 <= i < |a| ensures Info(a[i]) == Info(b[i]) {
      assert a[i].(rawContent := "", priceItems := []).filePath == a[i].filePath;
    }
  }

  /** A loaded document for `dir\stem.ext`: it is named `stem.ext`, its
      extension is the lower-cased `.ext`, and the extractor is chosen by
      that extension, whatever its case. */
  lemma RawContentByExtension(dir: string, stem: string, ext: string, size: int, now: int, ex: Extractors)
    requires forall k | 0 <= k < |stem| :: !IsSeparator(stem[k])
    requires |ext| > 0 && forall k | 0 <= k < |ext| :: ext[k] != '.' && !IsSeparator(ext[k])
    ensures var path := dir + "\\" + stem + "." + ext;
      var d := NewDocument(path, size, now, ex);
      && d.filePath == path && d.fileName == stem + "." + ext && d.fileExtension == "." + Lower(ext)
      && d.fileSize == size && d.uploadDate == now && d.priceItems == []
      && (Lower(ext) == "pdf" ==> d.rawContent == ex.pdf(path))
      && (Lower(ext) == "xlsx" || Lower(ext) == "xls" ==> d.rawContent == ex.excel(path))
      && (Lower(ext) == "docx" || Lower(ext) == "doc" ==> d.rawContent == ex.word(path))
      && (Lower(ext) !in {"pdf", "xlsx", "xls", "docx", "doc"} ==> d.rawContent == "")
  {
    var path := dir + "\\" + stem + "." + ext;
    ExtensionOf(dir, stem, ext);
    LowerDot(ext);
    assert Lower(Extension(path)) == "." + Lower(ext);
    KindOfDotted(Lower(ext));
  }

  lemma KindOfDotted(l: string)
    ensures KindOf("." + l) == PdfFile <==> l == "pdf"
    ensures KindOf("." + l) == ExcelFile <==> l == "xlsx" || l == "xls"
    ensures KindOf("." + l) == WordFile <==> l == "docx" || l == "doc"
  {
    assert "." + l == ".pdf" <==> l == "pdf" by {
      if "." + l == ".pdf" { assert l == ("." + l)[1..]; }
    }
    assert "." + l == ".xlsx" <==> l == "xlsx" by {
      if "." + l == ".xlsx" { assert l == ("." + l)[1..]; }
    }
    assert "." + l == ".xls" <==> l == "xls" by {
      if "." + l == ".xls" { assert l == ("." + l)[1..]; }
    }
    assert "." + l == ".docx" <==> l == "docx" by {
      if "." + l == ".docx" { assert l == ("." + l)[1..]; }
    }
    assert "." + l == ".doc" <==> l == "doc" by {
      if "." + l == ".doc" { assert l == ("." + l)[1..]; }
    }
  }

  lemma LowerDot(ext: string)
    ensures Lower("." + ext) == "." + Lower(ext)
  {
    assert LowerChar('.') == '.';
    var l := Lower("." + ext);
    assert |l| == 1 + |ext|;
    forall k | 0 <= k < |l| ensures l[k] == ("." + Lower(ext))[k] {
      if k > 0 {
        assert ("." + ext)[k] == ext[k - 1];
      }
    }
  }

  /** Removing keeps a store without price items so. */
  lemma WithoutNoItems(docs: seq<Document>, path: string)
    requires NoItems(docs)
    ensures NoItems(Without(docs, path))
  {
    WithoutKeeps(docs, path);
    var r := Without(docs, path);
    forall k | 0 <= k < |r| ensures r[k].priceItems == [] {
      assert r[k] in Without(docs, path);
    }
  }

  lemma AppendNoItems(docs: seq<Document>, d: Document)
    requires NoItems(docs) && d.priceItems == []
    ensures NoItems(docs + [d])
  {
  }

  /** Reloading never adds price items. */
  lemma {:induction false} ReloadNoPriceItems(docs: seq<Document>, wrote: bool, infos: seq<DocumentInfo>, i: nat,
                                              fs: FileSystem, ex: Extractors, clock: nat -> int)
    requires i <= |infos| && NoItems(docs)
    ensures NoItems(ReloadFrom(docs, wrote, infos, i, fs, ex, clock).documents)
    decreases |infos| - i
  {
    if i < |infos| {
      var path := infos[i].filePath;
      if !(path == "" || !fs.exists_(path) || fs.throws(path)) {
        var d := NewDocument(path, fs.size(path), clock(i), ex);
        WithoutNoItems(docs, path);
        var next := Without(docs, path) + [d];
        AppendNoItems(Without(docs, path), d);
        assert ReloadFrom(docs, wrote, infos, i, fs, ex, clock) == ReloadFrom(next, true, infos, i + 1, fs, ex, clock);
        ReloadNoPriceItems(next, true, infos, i + 1, fs, ex, clock);
      } else {
        ReloadNoPriceItems(docs, wrote, infos, i + 1, fs, ex, clock);
      }
    }
  }
}
