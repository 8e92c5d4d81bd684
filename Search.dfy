/** The search over loaded documents: a query is matched against file names
    and contents (page by page for PDF text), the hits are reduced to one
    per document path and page, and sorted by document name and page. */
module Search {
  import opened Wrappers
  import opened Text
  import opened Patterns
  import opened Models
  import opened Sorting
  import opened Seqs

  /** The Latin base letter of each of the twelve Turkish letters; every
      other character is left alone. */
  function FoldTurkishChar(c: char): char {
    if c == 'ı' || c == 'İ' then 'i'
    else if c == 'ş' || c == 'Ş' then 's'
    else if c == 'ğ' || c == 'Ğ' then 'g'
    else if c == 'ü' || c == 'Ü' then 'u'
    else if c == 'ö' || c == 'Ö' then 'o'
    else if c == 'ç' || c == 'Ç' then 'c'
    else c
  }

  /** The character-wise fold the replacement chain performs. */
  function FoldTurkish(text: string): (r: string)
    ensures |r| == |text|
    ensures forall i | 0 <= i < |text| :: r[i] == FoldTurkishChar(text[i])
  {
    seq(|text|, i requires 0 <= i < |text| => FoldTurkishChar(text[i]))
  }

  /** The twelve letters and their replacements, in the order the source
      replaces them. */
  const TurkishPairs: seq<(char, char)> := [
    ('ı', 'i'), ('İ', 'i'), ('ş', 's'), ('Ş', 's'), ('ğ', 'g'), ('Ğ', 'g'),
    ('ü', 'u'), ('Ü', 'u'), ('ö', 'o'), ('Ö', 'o'), ('ç', 'c'), ('Ç', 'c')]

  /** The fold agrees with the replacement table: each letter the table
      lists becomes its partner, every other character is kept. */
  lemma FoldTurkishByTable(text: string)
    ensures forall i, j | 0 <= i < |text| && 0 <= j < |TurkishPairs| && text[i] == TurkishPairs[j].0 ::
      FoldTurkish(text)[i] == TurkishPairs[j].1
    ensures forall i | 0 <= i < |text| && text[i] !in Firsts(TurkishPairs) :: FoldTurkish(text)[i] == text[i]
  {
    forall i | 0 <= i < |text| && text[i] !in Firsts(TurkishPairs) ensures FoldTurkish(text)[i] == text[i] {
      FirstsOfTable(text[i]);
    }
  }

  /** The letters a table of pairs replaces. */
  function Firsts(pairs: seq<(char, char)>): (r: seq<char>)
    ensures |r| == |pairs| && forall j | 0 <= j < |pairs| :: r[j] == pairs[j].0
  {
    seq(|pairs|, j requires 0 <= j < |pairs| => pairs[j].0)
  }

  lemma FirstsOfTable(c: char)
    ensures c in Firsts(TurkishPairs) <==> c in "ıİşŞğĞüÜöÖçÇ"
  {
    assert Firsts(TurkishPairs) == "ıİşŞğĞüÜöÖçÇ";
  }

  /** `text.Replace(a1, b1).Replace(a2, b2)...` for the pairs from index
      `from` on. */
  function ReplaceChain(text: string, pairs: seq<(char, char)>, from: nat): string
    decreases |pairs| - from
  {
    if from >= |pairs| then text
    else ReplaceChain(Replace(text, [pairs[from].0], [pairs[from].1]), pairs, from + 1)
  }

  /** `NormalizeTurkish`: an empty text is returned as it is, any other goes
      through the chain of twelve one-letter replacements. */
  function NormalizeTurkish(text: string): string {
    if text == [] then text else ReplaceChain(text, TurkishPairs, 0)
  }

  /** One character through the chain of replacements. */
  function ChainChar(c: char, pairs: seq<(char, char)>, from: nat): char
    decreases |pairs| - from
  {
    if from >= |pairs| then c
    else ChainChar(if c == pairs[from].0 then pairs[from].1 else c, pairs, from + 1)
  }

  /** Replacing a one-character string is a character-wise map. */
  lemma {:induction false} ReplaceOneChar(s: string, a: char, b: char)
    ensures |Replace(s, [a], [b])| == |s|
    ensures forall i | 0 <= i < |s| :: Replace(s, [a], [b])[i] == (if s[i] == a then b else s[i])
    decreases |s|
  {
    if |s| >= 1 {
      ReplaceOneChar(s[1..], a, b);
      var r := Replace(s, [a], [b]);
      var t := Replace(s[1..], [a], [b]);
      if s[..1] == [a] {
        assert r == [b] + t;
      } else {
        assert s[0] != a;
        assert r == [s[0]] + t;
      }
    }
  }

  /** A chain of one-character replacements maps each character on its
      own. */
  lemma {:induction false} ReplaceChainChars(text: string, pairs: seq<(char, char)>, from: nat)
    ensures |ReplaceChain(text, pairs, from)| == |text|
    ensures forall i | 0 <= i < |text| :: ReplaceChain(text, pairs, from)[i] == ChainChar(text[i], pairs, from)
    decreases |pairs| - from
  {
    if from < |pairs| {
      var t := Replace(text, [pairs[from].0], [pairs[from].1]);
      ReplaceOneChar(text, pairs[from].0, pairs[from].1);
      ReplaceChainChars(t, pairs, from + 1);
    }
  }

  /** The twelve-step chain is the Turkish fold, character by character. */
  lemma TurkishChainChar(c: char)
    ensures ChainChar(c, TurkishPairs, 0) == FoldTurkishChar(c)
  {
  }

  /** `NormalizeTurkish` folds each character separately: it keeps the
      length, maps the twelve Turkish letters to their base letters and
      leaves every other character as it is. */
  lemma NormalizeTurkishFolds(text: string)
    ensures NormalizeTurkish(text) == FoldTurkish(text)
  {
    if text != [] {
      ReplaceChainChars(text, TurkishPairs, 0);
      forall i | 0 <= i < |text| ensures NormalizeTurkish(text)[i] == FoldTurkish(text)[i] {
        TurkishChainChar(text[i]);
      }
    }
  }

  /** The fold maps every character to one it leaves alone. */
  lemma FoldTurkishIdempotent(text: string)
    ensures FoldTurkish(FoldTurkish(text)) == FoldTurkish(text)
    ensures forall c | c in FoldTurkish(text) :: c !in "ıİşŞğĞüÜöÖçÇ"
  {
    var n := FoldTurkish(text);
    assert FoldTurkish(n) == n;
    forall c | c in n ensures c !in "ıİşŞğĞüÜöÖçÇ" {
      var i :| 0 <= i < |n| && n[i] == c;
      assert c == FoldTurkishChar(text[i]);
    }
  }

  /** Folding twice is folding once, and the folded text has none of the
      twelve letters left. */
  lemma NormalizeTurkishIdempotent(text: string)
    ensures NormalizeTurkish(NormalizeTurkish(text)) == NormalizeTurkish(text)
    ensures forall c | c in NormalizeTurkish(text) :: c !in "ıİşŞğĞüÜöÖçÇ"
  {
    NormalizeTurkishFolds(text);
    NormalizeTurkishFolds(FoldTurkish(text));
    FoldTurkishIdempotent(text);
  }

  /** The separator the PDF text extraction writes before each page. */
  const PageSeparator: string := "---PAGE_"

  const Int32Max: int := 0x7fff_ffff

  /** A page of PDF text: the number it is reported under and its text. */
  datatype Page = Page(number: int, content: string)

  /** The `index`-th segment of the split text: when it starts with
      `^(\d+)---`, the prefix is removed and, if `int.TryParse` accepts the
      digits (they fit in 32 bits), they give the page number; otherwise
      the page number is the 1-based segment index. */
  function SplitPage(segment: string, index: nat): Page {
    var d := DigitRun(segment, 0);
    if d > 0 && d + 3 <= |segment| && segment[d..d + 3] == "---" then
      var v := DigitsValue(segment[..d]);
      Page(if v <= Int32Max then v else index + 1, segment[d + 3..])
    else Page(index + 1, segment)
  }

  /** A segment that starts with a number and "---" is reported under that
      number with the header removed; the 1-based index is used when the
      number does not fit in 32 bits. */
  lemma SplitPageHeader(ds: string, rest: string, index: nat)
    requires |ds| > 0 && AllDigits(ds)
    ensures var p := SplitPage(ds + "---" + rest, index);
      && p.content == rest
      && p.number == (if DigitsValue(ds) <= Int32Max then DigitsValue(ds) else index + 1)
  {
    var s := ds + "---" + rest;
    assert DigitRun(s, 0) == |ds| by {
      assert forall k | 0 <= k < |ds| :: s[k] == ds[k];
      assert s[|ds|] == '-';
    }
    assert s[..|ds|] == ds;
    assert s[|ds|..|ds| + 3] == "---";
    assert s[|ds| + 3..] == rest;
  }

  /** A segment that does not start with such a header keeps its text and
      is reported under its 1-based index. */
  lemma SplitPageNoHeader(segment: string, index: nat)
    requires forall n | 0 < n && n + 3 <= |segment| :: !(AllDigits(segment[..n]) && segment[n..n + 3] == "---")
    ensures SplitPage(segment, index) == Page(index + 1, segment)
  {
    var d := DigitRun(segment, 0);
    if d > 0 && d + 3 <= |segment| {
      assert AllDigits(segment[..d]);
    }
  }

  function ResultFor(d: Document, page: int): SearchResult {
    SearchResult(d.filePath, d.fileName, page)
  }

  /** The query folded the way the source does: lower-cased, trimmed, then
      Turkish letters folded. */
  function NormalizedQuery(query: string): string {
    FoldTurkish(Trim(Lower(query)))
  }

  /** A text matches when its folded, lower-cased form contains the folded
      query, or the text itself contains the trimmed query, both ignoring
      case. */
  predicate ContentMatches(content: string, nq: string, tq: string) {
    ContainsIgnoreCase(FoldTurkish(Lower(content)), nq) || ContainsIgnoreCase(content, tq)
  }

  predicate NameMatches(d: Document, nq: string) {
    ContainsIgnoreCase(FoldTurkish(Lower(d.fileName)), nq)
  }

  /** Only `.pdf` documents with non-blank text are searched page by page. */
  predicate Paginated(d: Document) {
    Lower(d.fileExtension) == ".pdf" && !IsBlank(d.rawContent)
  }

  function NameHits(d: Document, nq: string): seq<SearchResult> {
    if NameMatches(d, nq) then [ResultFor(d, 0)] else []
  }

  function PageHit(d: Document, p: Page, nq: string, tq: string): seq<SearchResult> {
    if ContentMatches(p.content, nq, tq) then [ResultFor(d, p.number)] else []
  }

  /** The hits among the segments, in order; the `i`-th segment is page
      `i + 1` unless its header says otherwise. */
  function PageHits(d: Document, segments: seq<string>, nq: string, tq: string): seq<SearchResult> {
    FlatMapIndexed(segments, (i: nat, seg: string) => PageHit(d, SplitPage(seg, i), nq, tq))
  }

  function ContentHits(d: Document, nq: string, tq: string): seq<SearchResult> {
    if Paginated(d) then PageHits(d, SplitOn(d.rawContent, PageSeparator), nq, tq)
    else if !IsBlank(d.rawContent) && ContentMatches(d.rawContent, nq, tq) then [ResultFor(d, 0)]
    else []
  }

  /** What the loop body adds for one document: the file-name hit, then the
      content hits. */
  function DocumentHits(d: Document, nq: string, tq: string): seq<SearchResult> {
    NameHits(d, nq) + ContentHits(d, nq, tq)
  }

  /** Everything the loop over the documents adds, in order. */
  function Hits(docs: seq<Document>, nq: string, tq: string): seq<SearchResult> {
    FlatMap(docs, (d: Document) => DocumentHits(d, nq, tq))
  }

  /** The grouping key of a result. */
  function Key(r: SearchResult): (string, int) {
    (r.documentPath, r.pageNumber)
  }

  function Keys(rs: seq<SearchResult>): set<(string, int)> {
    set r | r in rs :: Key(r)
  }

  /** `GroupBy(path, page).Select(g => g.First())`: the first result of
      each key, in the order the keys first appear. */
  function Dedup(rs: seq<SearchResult>): seq<SearchResult>
    decreases |rs|
  {
    if rs == [] then []
    else
      var n := |rs| - 1;
      Dedup(rs[..n]) + (if Key(rs[n]) in Keys(rs[..n]) then [] else [rs[n]])
  }

  /** `OrderBy(DocumentName).ThenBy(PageNumber)`, with names in ordinal
      order. */
  function ResultLe(a: SearchResult, b: SearchResult): bool {
    if a.documentName == b.documentName then a.pageNumber <= b.pageNumber
    else LexLe(a.documentName, b.documentName)
  }

  /** What `Search` returns. */
  function SearchSpec(query: string, documents: Option<seq<Document>>): seq<SearchResult> {
    if IsBlank(query) || documents.None? || documents.value == [] then []
    else Sort(Dedup(Hits(documents.value, NormalizedQuery(query), Trim(query))), ResultLe)
  }

  /** The loop over the page segments of a PDF document. */
  method SearchPages(d: Document, pages: seq<string>, nq: string, tq: string) returns (hits: seq<SearchResult>)
    ensures hits == PageHits(d, pages, nq, tq)
  {
    hits := [];
    for j := 0 to |pages|
      invariant hits == PageHits(d, pages[..j], nq, tq)
    {
      var page := SplitPage(pages[j], j);
      NormalizeTurkishFolds(Lower(page.content));
      var found := ContainsIgnoreCase(NormalizeTurkish(Lower(page.content)), nq) || ContainsIgnoreCase(page.content, tq);
      assert found == ContentMatches(page.content, nq, tq);
      if found {
        hits := hits + [ResultFor(d, page.number)];
      }
      assert hits == PageHits(d, pages[..j], nq, tq) + PageHit(d, SplitPage(pages[j], j), nq, tq);
      assert pages[..j + 1][..j] == pages[..j];
    }
    assert pages[..|pages|] == pages;
  }

  /** The file-name test of the loop body. */
  method SearchName(d: Document, nq: string) returns (hits: seq<SearchResult>)
    ensures hits == NameHits(d, nq)
  {
    var name := NormalizeTurkish(Lower(d.fileName));
    NormalizeTurkishFolds(Lower(d.fileName));
    hits := if ContainsIgnoreCase(name, nq) then [ResultFor(d, 0)] else [];
  }

  /** The content test of the loop body: page by page for PDF text, the
      whole text otherwise. */
  method SearchContent(d: Document, nq: string, tq: string) returns (hits: seq<SearchResult>)
    ensures hits == ContentHits(d, nq, tq)
  {
    hits := [];
    if Lower(d.fileExtension) == ".pdf" && !IsBlank(d.rawContent) {
      hits := SearchPages(d, SplitOn(d.rawContent, PageSeparator), nq, tq);
    } else if !IsBlank(d.rawContent) {
      var content := NormalizeTurkish(Lower(d.rawContent));
      NormalizeTurkishFolds(Lower(d.rawContent));
      if ContainsIgnoreCase(content, nq) || ContainsIgnoreCase(d.rawContent, tq) {
        hits := [ResultFor(d, 0)];
      }
    }
  }

  /** The body of the loop over the documents: what is added for `d`. */
  method SearchDocument(d: Document, nq: string, tq: string) returns (hits: seq<SearchResult>)
    ensures hits == DocumentHits(d, nq, tq)
  {
    var nameHits := SearchName(d, nq);
    var contentHits := SearchContent(d, nq, tq);
    hits := nameHits + contentHits;
  }

  /** The loop over the documents: each document's hits, in order. */
  method CollectHits(docs: seq<Document>, nq: string, tq: string) returns (results: seq<SearchResult>)
    ensures results == Hits(docs, nq, tq)
  {
    results := [];
    for i := 0 to |docs|
      invariant results == Hits(docs[..i], nq, tq)
    {
      var hits := SearchDocument(docs[i], nq, tq);
      results := results + hits;
      assert docs[..i + 1][..i] == docs[..i];
    }
    assert docs[..|docs|] == docs;
  }

  /** `SearchService.Search`; a null document list is `None`. */
  method Search(query: string, documents: Option<seq<Document>>) returns (r: seq<SearchResult>)
    ensures r == SearchSpec(query, documents)
    ensures IsBlank(query) || documents.None? || documents.value == [] ==> r == []
  {
    if IsBlank(query) || documents.None? || documents.value == [] {
      return [];
    }
    var nq := NormalizeTurkish(Trim(Lower(query)));
    assert nq == NormalizedQuery(query) by {
      NormalizeTurkishFolds(Trim(Lower(query)));
    }
    var results := CollectHits(documents.value, nq, Trim(query));
    r := Sort(Dedup(results), ResultLe);
  }

  /** Deduplication keeps only results of the input, and every key of the
      input. */
  lemma {:induction false} DedupKeys(rs: seq<SearchResult>)
    ensures forall x | x in Dedup(rs) :: x in rs
    ensures Keys(Dedup(rs)) == Keys(rs)
    decreases |rs|
  {
    if rs != [] {
      var n := |rs| - 1;
      var p := rs[..n];
      DedupKeys(p);
      assert rs == p + [rs[n]];
      assert Keys(rs) == Keys(p) + {Key(rs[n])};
    }
  }

  /** No two results of the deduplication share a key. */
  lemma {:induction false} DedupUnique(rs: seq<SearchResult>)
    ensures UniqueBy(Dedup(rs), Key)
    decreases |rs|
  {
    if rs != [] {
      var n := |rs| - 1;
      var p := rs[..n];
      DedupUnique(p);
      DedupKeys(p);
      var q := Dedup(p);
      if Key(rs[n]) !in Keys(p) {
        var r := q + [rs[n]];
        forall i, j | 0 <= i < j < |r| ensures Key(r[i]) != Key(r[j]) {
          if j == |q| {
            assert r[i] in q;
            assert Key(r[i]) in Keys(q);
          }
        }
      }
    }
  }

  /** A kept result is the first of the input with its key. */
  lemma {:induction false} DedupFirst(rs: seq<SearchResult>)
    ensures forall x | x in Dedup(rs) :: exists i | 0 <= i < |rs| :: rs[i] == x && forall j | 0 <= j < i :: Key(rs[j]) != Key(x)
    decreases |rs|
  {
    if rs != [] {
      var n := |rs| - 1;
      var p := rs[..n];
      DedupFirst(p);
      var q := Dedup(p);
      forall x | x in Dedup(rs)
        ensures exists i | 0 <= i < |rs| :: rs[i] == x && forall j | 0 <= j < i :: Key(rs[j]) != Key(x)
      {
        if x in q {
          var i :| 0 <= i < |p| && p[i] == x && forall j | 0 <= j < i :: Key(p[j]) != Key(x);
          assert rs[i] == x;
          forall j | 0 <= j < i ensures Key(rs[j]) != Key(x) {
            assert rs[j] == p[j];
          }
        } else {
          assert x == rs[n] && Key(x) !in Keys(p);
          forall j | 0 <= j < n ensures Key(rs[j]) != Key(x) {
            assert rs[j] in p;
          }
        }
      }
    }
  }

  /** The result order is a total preorder. */
  lemma ResultLeTotalPreorder()
    ensures TotalPreorder(ResultLe)
  {
    forall a, b ensures ResultLe(a, b) || ResultLe(b, a) {
      LexLeTotal(a.documentName, b.documentName);
    }
    forall a, b, c | ResultLe(a, b) && ResultLe(b, c) ensures ResultLe(a, c) {
      var x, y, z := a.documentName, b.documentName, c.documentName;
      if x != y && y != z {
        LexLeTransitive(x, y, z);
        if x == z {
          LexLeTotal(x, y);
        }
      }
    }
  }

  /** A hit added for the `k`-th document is among all the hits. */
  lemma HitsInclude(docs: seq<Document>, nq: string, tq: string, k: nat, h: SearchResult)
    requires k < |docs| && h in DocumentHits(docs[k], nq, tq)
    ensures h in Hits(docs, nq, tq)
  {
    FlatMapInclude(docs, (d: Document) => DocumentHits(d, nq, tq), k, h);
  }

  /** Every hit belongs to some document of the list. */
  lemma HitsFrom(docs: seq<Document>, nq: string, tq: string, h: SearchResult)
    requires h in Hits(docs, nq, tq)
    ensures exists k | 0 <= k < |docs| :: h in DocumentHits(docs[k], nq, tq)
  {
    FlatMapFrom(docs, (d: Document) => DocumentHits(d, nq, tq), h);
  }

  /** The results are sorted by name and then page, no two share a
      document path and page, and each is the first hit of its key. */
  lemma SearchOrderedUnique(query: string, documents: Option<seq<Document>>)
    ensures SortedBy(SearchSpec(query, documents), ResultLe)
    ensures UniqueBy(SearchSpec(query, documents), Key)
  {
    if !(IsBlank(query) || documents.None? || documents.value == []) {
      var hs := Hits(documents.value, NormalizedQuery(query), Trim(query));
      ResultLeTotalPreorder();
      SortSorted(Dedup(hs), ResultLe);
      DedupUnique(hs);
      SortUnique(Dedup(hs), ResultLe, Key);
    }
  }

  /** The results are exactly the first hits, one per key: each result is
      the first hit of some document with its key, and every key that some
      hit has appears among the results. */
  lemma SearchComplete(query: string, docs: seq<Document>)
    requires !IsBlank(query) && docs != []
    ensures var hs := Hits(docs, NormalizedQuery(query), Trim(query));
      var r := SearchSpec(query, Some(docs));
      && Keys(r) == Keys(hs)
      && forall x | x in r :: exists i | 0 <= i < |hs| :: hs[i] == x && forall j | 0 <= j < i :: Key(hs[j]) != Key(x)
  {
    var hs := Hits(docs, NormalizedQuery(query), Trim(query));
    var r := SearchSpec(query, Some(docs));
    DedupKeys(hs);
    DedupFirst(hs);
    assert multiset(r) == multiset(Dedup(hs));
    forall x | x in r ensures x in Dedup(hs) {
      assert x in multiset(r);
    }
    forall x | x in Dedup(hs) ensures x in r {
      assert x in multiset(Dedup(hs));
    }
    assert Keys(r) == Keys(Dedup(hs));
  }

  /** A document whose folded file name contains the folded query is
      reported on page 0. */
  lemma SearchFindsFileName(query: string, docs: seq<Document>, k: nat)
    requires !IsBlank(query) && k < |docs|
    requires NameMatches(docs[k], NormalizedQuery(query))
    ensures exists x | x in SearchSpec(query, Some(docs)) :: Key(x) == (docs[k].filePath, 0)
  {
    var nq, tq := NormalizedQuery(query), Trim(query);
    var h := ResultFor(docs[k], 0);
    assert h in DocumentHits(docs[k], nq, tq);
    HitsInclude(docs, nq, tq, k, h);
    SearchComplete(query, docs);
    assert Key(h) in Keys(Hits(docs, nq, tq));
  }

  /** A document that is not searched page by page only ever yields page 0. */
  lemma UnpaginatedPageZero(d: Document, nq: string, tq: string)
    requires !Paginated(d)
    ensures forall h | h in DocumentHits(d, nq, tq) :: h.pageNumber == 0 && h.documentPath == d.filePath
  {
  }
}
