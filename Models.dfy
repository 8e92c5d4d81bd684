/** The records the parsers produce and the store keeps. */
module Models {
  import opened Wrappers

  /** One priced line of a tender document.  The four text fields are
      nullable in the application; `None` stands for null. */
  datatype PriceItem = PriceItem(
    pozNo: Option<string>,
    tanim: Option<string>,
    birim: Option<string>,
    fiyat: Option<string>,
    documentPath: string,
    documentName: string,
    pageNumber: int)

  /** A price item with the document fields at their defaults (empty
      strings, page 0), as `new PriceItem { ... }` leaves them. */
  function Item(pozNo: Option<string>, tanim: Option<string>, birim: Option<string>, fiyat: Option<string>): (r: PriceItem)
    ensures r.documentPath == "" && r.documentName == "" && r.pageNumber == 0
    ensures r.pozNo == pozNo && r.tanim == tanim && r.birim == birim && r.fiyat == fiyat
  {
    PriceItem(pozNo, tanim, birim, fiyat, "", "", 0)
  }

  /** One hit of a search: a document and a page (0 when the document is
      not paginated or the hit is on the file name). */
  datatype SearchResult = SearchResult(documentPath: string, documentName: string, pageNumber: int)

  /** A loaded document.  `uploadDate` is the clock reading taken when the
      document was loaded, in ticks. */
  datatype Document = Document(
    filePath: string,
    fileName: string,
    fileExtension: string,
    fileSize: int,
    uploadDate: int,
    priceItems: seq<PriceItem>,
    rawContent: string)

  /** What the store persists about a document. */
  datatype DocumentInfo = DocumentInfo(
    filePath: string,
    fileName: string,
    fileExtension: string,
    fileSize: int,
    uploadDate: int)
}
