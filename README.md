# DocumentSearch, modelled in Dafny

DocumentSearch is a Windows desktop tool for documents with construction
price lists (PDF, Excel and Word files). It extracts their text and
`PriceItem` records (position number "PozNo", description "Tanım", unit
"Birim", price "Fiyat"). It searches the loaded documents, converts a PDF's
price lines into a spreadsheet, updates its own executable from binary
patches and shows a Pomodoro timer. This project models the logic behind the
library calls and proves properties about it:

- `Search`: Turkish letter folding, matching by file name and by content,
  PDF page splitting on `---PAGE_` markers, removal of duplicate
  (path, page) hits and ordering by (name, page).
- `PdfParser`: word grouping by bottom coordinate, line reconstruction,
  the price-line state machine and the page-marked text format.
- `ExcelParser`: keyword header detection within a 21-row window, default
  columns, the row loop, PozNo cleaning and row-to-text flattening, over a
  worksheet given as its used range and a map of cell texts.
- `WordParser`: header classification (the last matching cell wins),
  bounds-checked cell reads and the whole-text fallback item.
- `PdfToExcel`: the rows written by the PDF-to-spreadsheet converter (a first
  pass per line and page, a fallback pass over all text) and `ExtractFields`.
- `DocumentStore`: the document list of `DocumentService` as a class, with
  load (replace by path), remove, snapshot, the persisted projection and
  the reload loop; the file system, the clock and the extractors are
  parameters.
- `Patch`: the patch format and the decoder of `MyPatchService.ApplyPatch`,
  including its int32 arithmetic and every exception it can raise.
- `PomodoroModel` / `Pomodoro`: the timer state machine as a value, and the
  view model as a class whose commands update its fields exactly as the
  model says.
- Shared modules: `Text` (.NET white space, Trim, lower-casing, ordinal
  search and replace, Join, Split, decimal formatting), `Patterns` (the fixed
  regular expressions written as leftmost-match matchers with replace-all,
  and `\s+` to one space as a scan over runs of white space),
  `Cleaning` (the three description cleaners over one pipeline of steps),
  `Paths` (`GetFileName`/`GetExtension`), `Sorting` (stable
  `OrderBy`/`ThenBy`), `Seqs`, `Models`, `Roles` and `Wrappers`.

Loops in the source are methods, each proved equal to a fold function
over the elements processed so far. The properties the source promises are
lemmas about those functions.

Three details the model takes from the code as written:

- Word cell text joins the cell's runs with a single space
  (WordParser.cs:135-138).
- Only `.pdf` documents are split into pages; Word raw text has no markers,
  so its hits are on page 0.
- The fallback pass of the converter tests bare PozNo values against
  "PozNo_page" keys, so that test never suppresses a row.

## Model

| member | source | states |
|---|---|---|
| Text.LeadWhite | DocumentSearch/Services/SearchService.cs:14-15 | the count of leading white space: all of it white, followed by a non-white character or the end |
| Text.TrailWhite | DocumentSearch/Services/SearchService.cs:14-15 | the count of trailing white space: all of it white, preceded by a non-white character or the start |
| Text.TrimFacts | DocumentSearch/Services/SearchService.cs:14-15 | `Trim` gives a slice of the input with no white space at either end, and only white space removed |
| Text.TrimBlank | DocumentSearch/Services/SearchService.cs:10 | trimming gives the empty string exactly for blank text |
| Text.TrimNoEdges | DocumentSearch/Services/SearchService.cs:15 | a string without white space at its ends is its own trim |
| Text.TrimIdempotent | DocumentSearch/Services/SearchService.cs:14 | trimming twice is trimming once |
| Text.LowerIdempotent | DocumentSearch/Services/SearchService.cs:14-20 | lower-casing twice is lower-casing once; no ASCII capital is left and every other ASCII character is kept |
| Text.IndexFrom | DocumentSearch/Services/SearchService.cs:21 | ordinal `IndexOf` from a start: -1 when the text does not occur there or later, else the first occurrence |
| Text.IndexOfContains | DocumentSearch/Services/SearchService.cs:21-57 | `IndexOf(...) >= 0` exactly when the text contains the other, at the index returned |
| Text.ReplaceAbsent | DocumentSearch/Services/SearchService.cs:104 | `Replace` of a text that does not occur changes nothing |
| Text.SplitOn | DocumentSearch/Services/SearchService.cs:36 | splitting on a separator with empty entries removed yields no empty piece |
| Text.LineLength | DocumentSearch/Services/PdfToExcelConverter.cs:62 | the first line ends at the first line break or the end |
| Text.SplitLines | DocumentSearch/Services/PdfToExcelConverter.cs:62 | splitting on line breaks with empty entries removed yields non-empty pieces without line breaks |
| Text.NatToString | DocumentSearch/Services/PdfParser.cs:282 | the decimal form of a number is a non-empty run of digits |
| Text.NatToStringRoundTrip | DocumentSearch/Services/SearchService.cs:46 | reading back the decimal form of a number gives the number |
| Text.TwoDigits | DocumentSearch/ViewModels/PomodoroViewModel.cs:213 | the `D2` format is at least two digits, exactly two below 100 |
| Text.LexLeTotal | DocumentSearch/Services/SearchService.cs:93 | the ordinal string order is total and antisymmetric |
| Text.LexLeTransitive | DocumentSearch/Services/SearchService.cs:93 | the ordinal string order is transitive |
| Sorting.Insert | DocumentSearch/Services/SearchService.cs:93-94 | inserting adds exactly the one element |
| Sorting.Sort | DocumentSearch/Services/SearchService.cs:93-94 | sorting is a permutation of its input |
| Sorting.InsertSorted | DocumentSearch/Services/SearchService.cs:93-94 | inserting into a sorted list under a total preorder keeps it sorted |
| Sorting.SortSorted | DocumentSearch/Services/SearchService.cs:93-94 | the sort under a total preorder is sorted and a permutation |
| Sorting.InsertUnique | DocumentSearch/Services/SearchService.cs:90-94 | inserting an element with a new key keeps keys unique |
| Sorting.SortUnique | DocumentSearch/Services/SearchService.cs:90-94 | sorting keeps keys unique |
| Seqs.FlatMapInclude | DocumentSearch/Services/SearchService.cs:17-87 | everything added for one element is in the result of the whole loop |
| Seqs.FlatMapFrom | DocumentSearch/Services/SearchService.cs:17-87 | everything in the result of the loop was added for some element |
| Seqs.FlatMapIndexedInclude | DocumentSearch/Services/SearchService.cs:38-67 | everything added for one indexed element is in the result of the loop |
| Seqs.FlatMapIndexedFrom | DocumentSearch/Services/SearchService.cs:38-67 | everything in the result of the indexed loop was added for some element |
| Paths.LastOf | DocumentSearch/Services/DocumentService.cs:66-67 | the last separator (or dot) before a position, or -1 when there is none |
| Paths.FileName | DocumentSearch/Services/DocumentService.cs:72 | `FileInfo.Name` is the suffix of the path after its last separator, holding no separator |
| Paths.Extension | DocumentSearch/Services/DocumentService.cs:67 | `FileInfo.Extension` is empty, or a dot and at least one further non-dot character ending the file name |
| Paths.FileNamePlain | DocumentSearch/Services/DocumentService.cs:72 | a path without separators is its own file name |
| Paths.ExtensionOf | DocumentSearch/Services/DocumentService.cs:66-72 | for dir\stem.ext the name is stem.ext and the extension is .ext |
| Paths.LastSeparatorIn | DocumentSearch/Services/DocumentService.cs:72 | the last separator of a path is the one before a separator-free tail |
| Paths.LastDotIn | DocumentSearch/Services/DocumentService.cs:67 | the last dot of stem.ext is the one after the stem when ext has none |
| Paths.LastOfPrefix | DocumentSearch/Services/DocumentService.cs:67-72 | the search below a non-matching position equals the search over the prefix |
| Paths.LastOfSame | DocumentSearch/Services/DocumentService.cs:67-72 | the search below a position only depends on the prefix up to it |
| Search.FoldTurkishByTable | DocumentSearch/Services/SearchService.cs:103-115 | each letter of the replacement table becomes its partner and every character the table does not list is kept |
| Search.ReplaceOneChar | DocumentSearch/Services/SearchService.cs:104-115 | replacing a one-letter string by a one-letter string keeps the length and changes exactly the occurrences of that letter |
| Search.ReplaceChainChars | DocumentSearch/Services/SearchService.cs:103-115 | a chain of one-letter replacements keeps the length and maps each character on its own through the chain |
| Search.TurkishChainChar | DocumentSearch/Services/SearchService.cs:103-115 | the twelve replacements, in their order, send each character where the Turkish fold sends it |
| Search.NormalizeTurkishFolds | DocumentSearch/Services/SearchService.cs:98-116 | NormalizeTurkish (empty text returned as is, then the twelve chained replacements) equals the character-wise fold |
| Search.FoldTurkishIdempotent | DocumentSearch/Services/SearchService.cs:98-116 | folding twice is folding once, and no folded text holds any of the twelve Turkish letters |
| Search.NormalizeTurkishIdempotent | DocumentSearch/Services/SearchService.cs:98-116 | normalising twice is normalising once, and no normalised text holds any of the twelve letters |
| Search.SplitPageHeader | DocumentSearch/Services/SearchService.cs:40-52 | a segment that starts with digits and "---" is searched without that header, under the number the digits give, or under its 1-based index when that number does not fit an int |
| Search.SplitPageNoHeader | DocumentSearch/Services/SearchService.cs:40-44 | a segment without a digits-and-"---" header is searched whole, under its 1-based index |
| Search.SearchPages | DocumentSearch/Services/SearchService.cs:38-67 | the page loop returns exactly the page hits of the segments, in segment order |
| Search.SearchDocument | DocumentSearch/Services/SearchService.cs:20-86 | one iteration of the document loop adds the file-name hit on page 0 and then the content hits: page by page for a non-blank .pdf, one hit on page 0 for other non-blank text |
| Search.SearchName | DocumentSearch/Services/SearchService.cs:20-29 | the file-name test gives one hit on page 0 exactly when the folded, lower-cased name contains the folded query |
| Search.SearchContent | DocumentSearch/Services/SearchService.cs:31-86 | the content test gives the page hits of a non-blank .pdf, one hit on page 0 for other matching non-blank text, and nothing for blank text |
| Search.CollectHits | DocumentSearch/Services/SearchService.cs:17-87 | the document loop collects each document's hits, in document order |
| Search.Search | DocumentSearch/Services/SearchService.cs:8-96 | a blank query, a null list or an empty list gives no results; otherwise the result is the hits, first per (path, page), ordered by name then page |
| Search.DedupKeys | DocumentSearch/Services/SearchService.cs:90-92 | grouping by (path, page) keeps only input results and loses no key |
| Search.DedupUnique | DocumentSearch/Services/SearchService.cs:90-92 | after grouping no two results share a (path, page) key |
| Search.DedupFirst | DocumentSearch/Services/SearchService.cs:91-92 | each kept result is the first input result with its key |
| Search.ResultLeTotalPreorder | DocumentSearch/Services/SearchService.cs:93-94 | ordering by document name, then page number, is total and transitive |
| Search.HitsInclude | DocumentSearch/Services/SearchService.cs:17-87 | every hit added for some document is among the hits of the whole loop |
| Search.HitsFrom | DocumentSearch/Services/SearchService.cs:17-87 | every hit of the loop comes from one of the documents |
| Search.SearchOrderedUnique | DocumentSearch/Services/SearchService.cs:89-95 | the results are sorted by name then page, and no two results share a (path, page) key |
| Search.SearchComplete | DocumentSearch/Services/SearchService.cs:13-95 | the results carry exactly the keys of the hits, and each result is the first hit with its key |
| Search.SearchFindsFileName | DocumentSearch/Services/SearchService.cs:20-29 | a document whose folded file name contains the folded query is reported on page 0 |
| Search.UnpaginatedPageZero | DocumentSearch/Services/SearchService.cs:69-86 | a document that is not a non-blank .pdf only yields results for its own path on page 0 |
| Patterns.DigitRun | DocumentSearch/Services/SearchService.cs:42 | the greedy `\d+` run: all digits, followed by a non-digit or the end |
| Patterns.WhiteRun | DocumentSearch/Services/PdfParser.cs:261 | the greedy `\s+` run: all white space, followed by a non-white character or the end |
| Patterns.FormLength | DocumentSearch/Services/PdfParser.cs:24 | a unit alternative matches at least its word and stays inside the text |
| Patterns.UnitFrom | DocumentSearch/Services/PdfParser.cs:24 | a unit match is non-empty, inside the text, and ends at a word boundary |
| Patterns.PhraseLength | DocumentSearch/Services/PdfParser.cs:257-258 | a TÜİK phrase match stays inside the text |
| Patterns.MatchAt | DocumentSearch/Services/PdfParser.cs:21-27 | a match of any of the fixed patterns is non-empty and inside the text |
| Patterns.FindFrom | DocumentSearch/Services/PdfParser.cs:156-195 | `Match` from a start position: the leftmost position where the pattern matches, or none anywhere |
| Patterns.MatchesFrom | DocumentSearch/Services/PdfToExcelConverter.cs:71 | `Matches`: successive non-overlapping matches, each a real match, in increasing order |
| Patterns.FindLeftmost | DocumentSearch/Services/PdfParser.cs:156 | a match with none before it is the one `Match` returns |
| Patterns.FindNotBefore | DocumentSearch/Services/PdfParser.cs:187 | a text with no match before a position has its first match at or after it, and none when there is none after |
| Patterns.PozNoLeftmost | DocumentSearch/Services/PdfParser.cs:21 | `(\d{2}\.\d{3}\.\d{4})(?!\d)` finds exactly the leftmost complete position number not followed by a digit |
| Patterns.PozNoValue | DocumentSearch/Services/PdfParser.cs:170 | the matched text of a position-number match is an 11-character number and not blank |
| Patterns.SingleSpacedJoin | DocumentSearch/Services/PdfParser.cs:261 | a word, a space and a single-spaced text without leading space is single-spaced |
| Patterns.CollapseFrom | DocumentSearch/Services/PdfParser.cs:261 | replacing every `\s+` by one space leaves the text single-spaced, and a non-white first character in place |
| Patterns.CollapseSingleSpaced | DocumentSearch/Services/PdfParser.cs:261 | `Regex.Replace(t, @"\s+", " ")` is single-spaced |
| Patterns.TrimSingleSpaced | DocumentSearch/Services/PdfParser.cs:261 | trimming keeps a text single-spaced |
| Patterns.ReplaceNoMatch | DocumentSearch/Services/PdfParser.cs:248 | `Regex.Replace` on a text without a match changes nothing |
| DocumentStore.RawContent | DocumentSearch/Services/DocumentService.cs:78-99 | any other extension stores an empty raw content |
| DocumentStore.Without | DocumentSearch/Services/DocumentService.cs:102 | removing by path never lengthens the list |
| DocumentStore.DocumentService.constructor | DocumentSearch/Services/DocumentService.cs:9-31 | the store starts empty, and the saved list is whatever the storage file holds |
| DocumentStore.DocumentService.SaveDocuments | DocumentSearch/Services/DocumentService.cs:123-144 | the storage now holds the details of every document, in order |
| DocumentStore.DocumentService.RemoveAllPath | DocumentSearch/Services/DocumentService.cs:102-114 | the store becomes the old store without the documents whose path equals the given one, ignoring case |
| DocumentStore.DocumentService.ReadDocument | DocumentSearch/Services/DocumentService.cs:66-99 | builds the document NewDocument describes |
| DocumentStore.DocumentService.LoadDocument | DocumentSearch/Services/DocumentService.cs:62-110 | a load that throws leaves the documents and the storage as they were and gives no document; otherwise the loaded document replaces any with the same path and is placed last, and the storage is rewritten |
| DocumentStore.DocumentService.Store | DocumentSearch/Services/DocumentService.cs:101-106 | any document with the same path, compared ignoring case, is replaced by the new one placed last, the storage is rewritten, and no price items are stored |
| DocumentStore.DocumentService.RemoveDocument | DocumentSearch/Services/DocumentService.cs:112-116 | the documents with the path are removed and the storage is rewritten |
| DocumentStore.DocumentService.GetAllDocuments | DocumentSearch/Services/DocumentService.cs:118-121 | returns a new list with the store's documents in order |
| DocumentStore.DocumentService.LoadSavedDocuments | DocumentSearch/Services/DocumentService.cs:33-60 | with no storage file nothing changes; otherwise the saved entries whose path is non-empty and exists are reloaded in order until one throws, and the storage is rewritten only if something loaded |
| DocumentStore.WithoutKeeps | DocumentSearch/Services/DocumentService.cs:102 | removing keeps only documents of the list, none with the path |
| DocumentStore.WithoutKeepsOthers | DocumentSearch/Services/DocumentService.cs:102 | removing keeps every document whose path differs |
| DocumentStore.WithoutAppend | DocumentSearch/Services/DocumentService.cs:102 | removing works piecewise over a concatenation, so kept documents keep their order |
| DocumentStore.WithoutOne | DocumentSearch/Services/DocumentService.cs:102 | a one-document list loses its document exactly when the paths match |
| DocumentStore.WithoutIdempotent | DocumentSearch/Services/DocumentService.cs:114 | removing the same path twice removes nothing more |
| DocumentStore.LoadLeavesOne | DocumentSearch/Services/DocumentService.cs:101-103 | after a load the new document is last and no other document has its path |
| DocumentStore.InfosIgnoreContent | DocumentSearch/Services/DocumentService.cs:127-135 | the saved list does not depend on raw content or price items |
| DocumentStore.RawContentByExtension | DocumentSearch/Services/DocumentService.cs:66-99 | a document loaded from dir\stem.ext is named stem.ext, has the lower-cased .ext as extension, the given size and time and no price items, and its extractor is chosen by ext whatever its case; any other extension gives empty content |
| DocumentStore.KindOfDotted | DocumentSearch/Services/DocumentService.cs:80-97 | a dotted extension selects each extractor exactly for its names |
| DocumentStore.LowerDot | DocumentSearch/Services/DocumentService.cs:67 | lower-casing a dotted extension lower-cases the part after the dot |
| DocumentStore.WithoutNoItems | DocumentSearch/Services/DocumentService.cs:102 | removing keeps a store without price items so |
| DocumentStore.AppendNoItems | DocumentSearch/Services/DocumentService.cs:103 | adding a document without price items keeps the store so |
| DocumentStore.ReloadNoPriceItems | DocumentSearch/Services/DocumentService.cs:47-54 | reloading never brings price items into the store |
| Cleaning.Collapse | DocumentSearch/Services/PdfParser.cs:261 | collapsing white space and trimming gives a tidy text |
| Cleaning.Truncate | DocumentSearch/Services/PdfParser.cs:264-267 | a text of at most 500 characters is kept; a longer one becomes its first 500 characters and "..." |
| Cleaning.Collapsed | DocumentSearch/Services/PdfParser.cs:244-261 | the chain of replacements ends in a tidy text |
| Cleaning.Clean | DocumentSearch/Services/PdfParser.cs:244-267 | the cleaned text is tidy and at most 503 characters, ending in "..." after the first 500 collapsed characters exactly when they were more |
| Cleaning.PdfCleanTanim | DocumentSearch/Services/PdfParser.cs:238-270 | blank input is returned unchanged; otherwise the result is tidy and at most 503 characters |
| Cleaning.ExcelCleanTanim | DocumentSearch/Services/ExcelParser.cs:169-199 | blank input is returned unchanged; otherwise the result is tidy and at most 503 characters |
| Cleaning.CollapseKeepsFrom | DocumentSearch/Services/ExcelParser.cs:190 | collapsing an already single-spaced text changes nothing from a position on |
| Cleaning.CollapseTidy | DocumentSearch/Services/ExcelParser.cs:190 | collapsing a tidy text is the identity |
| Cleaning.ExcelCleanFixpoint | DocumentSearch/Services/ExcelParser.cs:169-199 | a tidy description of at most 500 characters without prices, units or the TÜİK phrase is left as it is |
| Cleaning.ReplaceAllEmpty | DocumentSearch/Services/ExcelParser.cs:175 | a replacement over the empty text gives the empty text |
| Cleaning.PdfCleanRemovesPozNo | DocumentSearch/Services/PdfParser.cs:244 | a description that is only the position number cleans to the empty string |
| Cleaning.PozTokenChars | DocumentSearch/Services/PdfParser.cs:21 | a position number holds only digits and dots, none white and none changed by lower-casing |
| Cleaning.PozTokenNoPrice | DocumentSearch/Services/ExcelParser.cs:17 | no price pattern matches inside a position number |
| Cleaning.PozTokenNoCountedUnit | DocumentSearch/Services/ExcelParser.cs:179 | no count-unit pattern matches inside a position number |
| Cleaning.UnitFromNone | DocumentSearch/Services/ExcelParser.cs:14 | when no remaining unit alternative matches, the unit pattern fails |
| Cleaning.PozTokenNoUnit | DocumentSearch/Services/ExcelParser.cs:14 | no unit pattern matches inside a position number |
| Cleaning.PozTokenNoPhrase | DocumentSearch/Services/ExcelParser.cs:186-187 | no TÜİK phrase matches inside a position number |
| Cleaning.ExcelKeepsPozNo | DocumentSearch/Services/ExcelParser.cs:169-199 | the Excel cleaner leaves a description that is a position number unchanged, unlike the PDF one |
| PdfParser.FirstNear | DocumentSearch/Services/PdfParser.cs:78-91 | the inner loop finds the first non-empty group whose first word is within the tolerance, or reports that none is |
| PdfParser.GroupWords | DocumentSearch/Services/PdfParser.cs:72-98 | the grouping loop produces exactly the groups of the grouping fold |
| PdfParser.FlattenUpdate | DocumentSearch/Services/PdfParser.cs:86 | adding a word to one group adds exactly that word to the words of all groups |
| PdfParser.AddWordHeads | DocumentSearch/Services/PdfParser.cs:78-97 | one grouping step keeps every group's first word and at most adds a group headed by the new word |
| PdfParser.AddWordNear | DocumentSearch/Services/PdfParser.cs:83-87 | one grouping step keeps every word within the tolerance of its group's first word |
| PdfParser.AddWordApart | DocumentSearch/Services/PdfParser.cs:93-97 | one grouping step keeps the first words of different groups more than the tolerance apart |
| PdfParser.AddWordWords | DocumentSearch/Services/PdfParser.cs:75-98 | one grouping step adds exactly the new word to the grouped words |
| PdfParser.GroupedGood | DocumentSearch/Services/PdfParser.cs:72-98 | the groups are non-empty, each word is near its group's first word, first words of different groups are apart, and the groups hold exactly the page's words |
| PdfParser.OrdersArePreorders | DocumentSearch/Services/PdfParser.cs:101-104 | ordering groups by descending bottom and words by ascending left edge are total preorders |
| PdfParser.JoinWordsUniform | DocumentSearch/Services/PdfParser.cs:108-129 | when every gap calls for the same separator the line is the words' texts joined with it |
| PdfParser.BuildLine | DocumentSearch/Services/PdfParser.cs:107-129 | the StringBuilder loop gives the words joined by a tab after a gap over 10 and a space otherwise |
| PdfParser.ExtractPageLines | DocumentSearch/Services/PdfParser.cs:62-140 | the lines of one page: a page without words has none; otherwise its groups top to bottom, words left to right, trimmed and not blank |
| PdfParser.ExtractPdfLines | DocumentSearch/Services/PdfParser.cs:54-144 | the lines of the document are the lines of its pages, page after page |
| PdfParser.PageLinesShape | DocumentSearch/Services/PdfParser.cs:131-139 | every line of a page is trimmed and not blank, carries the page's number, and the page has words |
| PdfParser.GroupLineShape | DocumentSearch/Services/PdfParser.cs:131-139 | a line kept from a group is trimmed, not blank, and on the page's number |
| PdfParser.PdfLinesShape | DocumentSearch/Services/PdfParser.cs:54-144 | every reconstructed line is trimmed, not blank, and on the number of a page that has words |
| PdfParser.PageOrder | DocumentSearch/Services/PdfParser.cs:101-104 | groups are taken top to bottom and each group's words left to right, both as permutations |
| PdfParser.ParseLines | DocumentSearch/Services/PdfParser.cs:149-233 | the loop over the lines returns the items of the line-parsing fold |
| PdfParser.PozLines | DocumentSearch/Services/PdfParser.cs:156-158 | the lines that hold a position number, taken in order from the input |
| PdfParser.PozMatchNotBlank | DocumentSearch/Services/PdfParser.cs:170-181 | a position-number match is always a complete number, so the branch for a blank number never runs |
| PdfParser.ParseItems | DocumentSearch/Services/PdfParser.cs:154-230 | exactly one item per line with a position number, in line order, with that number and page and the document's path and name; the buffer holds only trimmed, non-blank lines |
| PdfParser.ParseStepShape | DocumentSearch/Services/PdfParser.cs:156-229 | one loop step keeps the buffered lines trimmed and non-blank, and appends exactly one item carrying the line's position number, page, path and name when the line holds a position number, none otherwise |
| PdfParser.ParseStepEffect | DocumentSearch/Services/PdfParser.cs:156-229 | a line with a position number appends one item whose description is the cleaned joined buffer and empties the buffer; any other line leaves the items alone and at most buffers its trimmed text |
| PdfParser.UnitAndPriceShape | DocumentSearch/Services/PdfParser.cs:187-209 | the unit is empty exactly when no unit matches, else the trimmed match; without a unit the price is empty exactly when no price matches |
| PdfParser.FormStartsWord | DocumentSearch/Services/PdfParser.cs:24 | a unit alternative whose first letter folds to a non-white character matches only at a non-white character |
| PdfParser.UnitFormStart | DocumentSearch/Services/PdfParser.cs:24 | every alternative of the unit group starts with `T`, `m`, `A` or `1`, none of which is white space |
| PdfParser.UnitFromNotAtWhite | DocumentSearch/Services/PdfParser.cs:24 | no unit alternative matches at the end of the text or at a white-space character |
| PdfParser.UnitStartsWord | DocumentSearch/Services/PdfParser.cs:24 | a unit match starts with a character that is not white space |
| PdfParser.ExtractText | DocumentSearch/Services/PdfParser.cs:272-292 | each page as its "---PAGE_n---" marker line then its text; "" when the document cannot be opened |
| PageMarkers.MarkedTextSplits | DocumentSearch/Services/SearchService.cs:34-52 | when no page number exceeds the int range and no page text holds "---PAGE_", splitting the extracted text gives exactly one segment per page, in order, searched under that page's number with the page's text between line breaks |
| PageMarkers.SplitTail | DocumentSearch/Services/PdfParser.cs:279-284 | past the first separator, the extracted text splits into one piece per page, in page order: the number, "---" and the text on lines of their own |
| PageMarkers.SegIndex | DocumentSearch/Services/PdfParser.cs:282-283 | within a page's piece the separator first occurs where the next page's marker starts, and nowhere when no page follows |
| PageMarkers.ConcatCons | DocumentSearch/Services/PdfParser.cs:279-284 | the extracted text of pages starts with the first page's marker line and text, followed by the text of the rest |
| PdfParser.PdfItems | DocumentSearch/Services/PdfParser.cs:29-48 | no items when the document cannot be read, otherwise one per line holding a position number, each with the document's path and file name |
| PdfParser.ParsePdf | DocumentSearch/Services/PdfParser.cs:29-48 | extracting the lines and parsing them gives the document's items |
| ExcelParser.ScanCells | DocumentSearch/Services/ExcelParser.cs:50-74 | the loop over a row's cells yields the columns the cell-by-cell classification gives |
| ExcelParser.ScanRow | DocumentSearch/Services/ExcelParser.cs:50-74 | scanning a row of the used range gives the row scanner's columns |
| ExcelParser.ScanStaysDone | DocumentSearch/Services/ExcelParser.cs:81-82 | once the header search has stopped, further rows change nothing |
| ExcelParser.FindHeader | DocumentSearch/Services/ExcelParser.cs:44-84 | the header search loop returns the header row and columns of the search fold |
| ExcelParser.ScanHeaderRows | DocumentSearch/Services/ExcelParser.cs:48-84 | the loop over rows up to the bound ends with the header row and columns of the search fold after those rows, stopping early once both key columns are known |
| ExcelParser.Resolve | DocumentSearch/Services/ExcelParser.cs:86-90 | no column is left at -1: a found column is kept and a missing one falls back to column 1, 2, 3 or 4 |
| ExcelParser.ReadRow | DocumentSearch/Services/ExcelParser.cs:95-156 | one data row gives the item RowItem describes, if any |
| ExcelParser.ReadRows | DocumentSearch/Services/ExcelParser.cs:93-157 | the data loop returns the items of the rows, in order |
| ExcelParser.ParseSheet | DocumentSearch/Services/ExcelParser.cs:30-157 | a worksheet gives the items of its rows after the header row |
| ExcelParser.ParseExcel | DocumentSearch/Services/ExcelParser.cs:19-167 | the items of every worksheet in order, or the rethrown error naming the file |
| ExcelParser.RowCells | DocumentSearch/Services/ExcelParser.cs:219-225 | a row's kept cells are all non-blank, and there are none exactly when every cell is blank |
| ExcelParser.RowText | DocumentSearch/Services/ExcelParser.cs:219-227 | a row gives its non-blank cells joined with spaces as one line, or nothing |
| ExcelParser.SheetTextOf | DocumentSearch/Services/ExcelParser.cs:210-228 | a worksheet gives the lines of its rows from row 1 to the end of the used range |
| ExcelParser.ExtractText | DocumentSearch/Services/ExcelParser.cs:201-237 | the text of every worksheet in order; "" when the workbook cannot be opened |
| ExcelParser.ContainsParts | DocumentSearch/Services/ExcelParser.cs:55 | a text containing "poz no" or "pozno" contains "poz" and "no" |
| ExcelParser.ContainsSelf | DocumentSearch/Services/ExcelParser.cs:57-63 | a text equal to a header word also contains it |
| ExcelParser.PozHeaderSimplified | DocumentSearch/Services/ExcelParser.cs:55-57 | the position-number header test holds exactly when the cell contains both "poz" and "no" |
| ExcelParser.TanimHeaderSimplified | DocumentSearch/Services/ExcelParser.cs:61-63 | the description header test holds exactly when the cell contains one of its four words |
| ExcelParser.ClassifyRole | DocumentSearch/Services/ExcelParser.cs:55-73 | a cell sets a field's column only when it is still unknown and the cell names the field |
| ExcelParser.RowColumnsRole | DocumentSearch/Services/ExcelParser.cs:50-74 | after a row a field keeps a known column, else takes the first cell naming it, else stays unknown |
| ExcelParser.ScanDoneKnown | DocumentSearch/Services/ExcelParser.cs:81-82 | the search stops early only when both the position-number and the description columns are known |
| ExcelParser.FirstRowHeader | DocumentSearch/Services/ExcelParser.cs:48-84 | when the first row names both key fields it is the header, with the first cells naming them |
| ExcelParser.NothingFound | DocumentSearch/Services/ExcelParser.cs:44-84 | while no cell names a field the search keeps the first row and no columns |
| ExcelParser.NoHeaderDefaults | DocumentSearch/Services/ExcelParser.cs:44-93 | without any header cell the first row is still the header, so data starts on the second row, read from columns 1 to 4 |
| ExcelParser.HeaderRowLatest | DocumentSearch/Services/ExcelParser.cs:77-84 | a search that found some column but did not stop takes the last row it looked at as the header |
| ExcelParser.HeaderRowWithoutTanim | DocumentSearch/Services/ExcelParser.cs:77-84 | a header without a description column never stops the search, so the header row moves to the last row looked at |
| ExcelParser.StrictIsFlexible | DocumentSearch/Services/ExcelParser.cs:109-134 | the exact pattern adds nothing: the position number is the first flexible match, or the cell itself, or none for a blank cell |
| ExcelParser.CleanPozNoFacts | DocumentSearch/Services/ExcelParser.cs:109-134 | the position number is absent exactly for a blank cell, otherwise non-blank and either a number or the whole cell |
| ExcelParser.CleanPozNoToken | DocumentSearch/Services/ExcelParser.cs:114-117 | a cell holding just a position number gives that number |
| ExcelParser.RowItemFacts | DocumentSearch/Services/ExcelParser.cs:95-156 | a row gives an item exactly when its position-number cell is not blank or its description survives cleaning; the item has the cleaned fields, the trimmed unit and price, the document and page 0 |
| ExcelParser.RowItemsFrom | DocumentSearch/Services/ExcelParser.cs:93-157 | every item of the data loop comes from one of its rows |
| ExcelParser.RowItemShape | DocumentSearch/Services/ExcelParser.cs:142-154 | an item a row gives names the document and page 0 and has a position number or a description that is not blank |
| ExcelParser.RowItemsShape | DocumentSearch/Services/ExcelParser.cs:93-155 | every item the data loop collects names the document and page 0 and has a position number or a description |
| ExcelParser.SheetItemsFacts | DocumentSearch/Services/ExcelParser.cs:144-156 | every item of a worksheet names the file and page 0 and has a position number or a description |
| ExcelParser.ExcelItemsFacts | DocumentSearch/Services/ExcelParser.cs:19-167 | every item of a workbook names the file and page 0 and has a position number or a description |
| ExcelParser.FailureNamesFile | DocumentSearch/Services/ExcelParser.cs:160-164 | an unreadable workbook is reported as an error whose message names the file |
| WordParser.Resolve | DocumentSearch/Services/WordParser.cs:50-54 | no column is left at -1: a found column is kept and a missing one falls back to index 0, 1, 2 or 3 |
| WordParser.FindColumns | DocumentSearch/Services/WordParser.cs:34-48 | the header loop returns the columns of the header fold |
| WordParser.ReadRow | DocumentSearch/Services/WordParser.cs:59-81 | one data row gives the item RowItem describes, if any |
| WordParser.ParseTable | DocumentSearch/Services/WordParser.cs:26-82 | a table with fewer than two rows gives nothing; otherwise the items of its data rows, in order |
| WordParser.ParseWord | DocumentSearch/Services/WordParser.cs:10-115 | the table items of the body, or the whole-text item when there are none, or the whole-text item when opening fails |
| WordParser.ClassifyRole | DocumentSearch/Services/WordParser.cs:40-47 | a header cell that names a field sets that field's column, replacing an earlier one |
| WordParser.LastWins | DocumentSearch/Services/WordParser.cs:37-48 | the last header cell naming a field gives its column; a field no cell names stays -1 |
| WordParser.RowItemFacts | DocumentSearch/Services/WordParser.cs:59-81 | a row gives an item exactly when it has cells and its position-number or description cell is not blank; the item holds the trimmed cells, "" for missing columns, and page 0 |
| WordParser.TableItemsFrom | DocumentSearch/Services/WordParser.cs:26-82 | every table item comes from a data row after the first, and tables with fewer than two rows give nothing |
| WordParser.WordFallback | DocumentSearch/Services/WordParser.cs:85-112 | without table items a non-blank text gives exactly one item holding it, table items are returned unchanged, and an unreadable file or missing body gives nothing |
| WordParser.WordItemsFacts | DocumentSearch/Services/WordParser.cs:72-110 | every item names the file and page 0; a whole-text item holds the non-blank text; a table item has a position number or description that is not blank |
| PdfToExcel.TanimEnd | DocumentSearch/Services/PdfToExcelConverter.cs:242-256 | the description ends at the earlier of the first unit and the first price, or at the end, never past the content |
| PdfToExcel.TanimText | DocumentSearch/Services/PdfToExcelConverter.cs:259-306 | the description is tidy (trimmed and single-spaced) and at most 500 characters plus "..." |
| PdfToExcel.ExtractFields | DocumentSearch/Services/PdfToExcelConverter.cs:217-309 | blank content gives three empty fields; otherwise the description is tidy and at most 503 characters |
| PdfToExcel.FirstTextNone | DocumentSearch/Services/PdfToExcelConverter.cs:227-239 | with no match anywhere the field is empty |
| PdfToExcel.FirstTextLeftmost | DocumentSearch/Services/PdfToExcelConverter.cs:227-239 | otherwise the field is the trimmed text of the leftmost match |
| PdfToExcel.TanimEndFirst | DocumentSearch/Services/PdfToExcelConverter.cs:242-256 | the description ends at the first position where a unit or a price starts, or at the end when there is none |
| PdfToExcel.TanimBeforeFields | DocumentSearch/Services/PdfToExcelConverter.cs:259-287 | a description ending after position 0 is the trimmed part before it, cleaned of the number, prices, units and the TÜİK phrase |
| PdfToExcel.TanimAtStart | DocumentSearch/Services/PdfToExcelConverter.cs:288-306 | when a unit or price starts the content the whole content is cleaned instead, and the TÜİK phrase is kept |
| PdfToExcel.TextContent | DocumentSearch/Services/PdfToExcelConverter.cs:165-176 | the fallback's content after a match is at most 2000 characters before trimming |
| PdfToExcel.HandleMatch | DocumentSearch/Services/PdfToExcelConverter.cs:80-131 | one match of a line updates the first pass as MatchStep describes |
| PdfToExcel.ProcessMatches | DocumentSearch/Services/PdfToExcelConverter.cs:71-132 | the loop over a line's matches gives the fold of MatchStep over them |
| PdfToExcel.ProcessPage | DocumentSearch/Services/PdfToExcelConverter.cs:62-133 | a page's non-empty lines, each trimmed and skipped when shorter than 5, are processed in order |
| PdfToExcel.HandleExtra | DocumentSearch/Services/PdfToExcelConverter.cs:154-192 | one match of the fallback updates it as ExtraStep describes |
| PdfToExcel.ProcessText | DocumentSearch/Services/PdfToExcelConverter.cs:147-193 | the fallback loop gives the rows of the ExtraStep fold |
| PdfToExcel.JoinPages | DocumentSearch/Services/PdfToExcelConverter.cs:139-144 | the fallback text is every page's text followed by a line break |
| PdfToExcel.ConvertPdfToExcel | DocumentSearch/Services/PdfToExcelConverter.cs:29-204 | the sheet is the header, then the first-pass rows, then the fallback rows when fewer than 100 rows were reached |
| PdfToExcel.MatchStepEffect | DocumentSearch/Services/PdfToExcelConverter.cs:80-131 | a match is a position number; it adds one row and its "{pozNo}_{page}" key exactly when the key is new and the span after it is not empty, else nothing changes |
| PdfToExcel.AppendGood | DocumentSearch/Services/PdfToExcelConverter.cs:123-129 | writing a row whose key is not yet processed and adding that key keeps the first-pass invariant |
| PdfToExcel.MatchStepGood | DocumentSearch/Services/PdfToExcelConverter.cs:86-130 | one match keeps the first-pass invariant: the processed keys are exactly the rows' keys, and rows hold position numbers |
| PdfToExcel.MatchesFoldLast | DocumentSearch/Services/PdfToExcelConverter.cs:78-132 | the loop over the first n matches is the loop over n - 1 of them followed by match n - 1 |
| PdfToExcel.MatchesFoldGood | DocumentSearch/Services/PdfToExcelConverter.cs:78-132 | the loop over a line's matches keeps the invariant |
| PdfToExcel.LinesFoldGood | DocumentSearch/Services/PdfToExcelConverter.cs:64-133 | the loop over a page's lines keeps the invariant |
| PdfToExcel.FirstPassGood | DocumentSearch/Services/PdfToExcelConverter.cs:56-134 | the whole first pass keeps the invariant |
| PdfToExcel.KeyInjective | DocumentSearch/Services/PdfToExcelConverter.cs:87 | keys of equally long position numbers are equal only for the same number and page |
| PdfToExcel.FirstPassUnique | DocumentSearch/Services/PdfToExcelConverter.cs:86-89 | the first pass writes at most one row per position number and page, each holding a number from page 1 on |
| PdfToExcel.AppendExtraGood | DocumentSearch/Services/PdfToExcelConverter.cs:184-190 | writing a row whose position number is not yet seen and recording it keeps the fallback invariant |
| PdfToExcel.ExtraStepEffect | DocumentSearch/Services/PdfToExcelConverter.cs:152-193 | one fallback match adds a row exactly when its number is neither processed nor seen and the span after it is not empty, with the fields of that span; otherwise nothing changes |
| PdfToExcel.ExtraStepGood | DocumentSearch/Services/PdfToExcelConverter.cs:157-191 | one fallback match keeps its invariant: the seen numbers are exactly the rows' numbers, none twice |
| PdfToExcel.ExtraFoldGood | DocumentSearch/Services/PdfToExcelConverter.cs:152-193 | the fallback loop keeps its invariant |
| PdfToExcel.FallbackUnique | DocumentSearch/Services/PdfToExcelConverter.cs:150-191 | the fallback writes at most one row per position number |
| PdfToExcel.ExtraStepIgnores | DocumentSearch/Services/PdfToExcelConverter.cs:161 | one fallback match behaves the same under any processed set holding no 11-character string as under the empty set |
| PdfToExcel.ExtraFoldIgnores | DocumentSearch/Services/PdfToExcelConverter.cs:161 | a processed set holding no 11-character string never skips a fallback match |
| PdfToExcel.FallbackIgnoresFirstPass | DocumentSearch/Services/PdfToExcelConverter.cs:161 | the fallback looks up bare numbers among "{pozNo}_{page}" keys, so the first pass never stops it from writing a number again |
| PdfToExcel.SheetLayout | DocumentSearch/Services/PdfToExcelConverter.cs:36-137 | row 1 is the header, the first-pass rows follow in order, and the fallback adds rows only when the first pass wrote fewer than 98 |
| Patch.Wrap | DocumentSearch/Services/MyPatchService.cs:64-70 | `int` addition wraps: a sum of two 32-bit values becomes a 32-bit value differing from it by 0 or 2^32, and a 32-bit value is kept |
| Patch.MagicText | DocumentSearch/Services/MyPatchService.cs:35 | `ReadBytes(4)` yields at most four bytes (fewer at the end of the file), decoded one character each |
| Patch.Int32Of | DocumentSearch/Services/MyPatchService.cs:39 | four little-endian bytes read as a signed 32-bit value |
| Patch.Int32At | DocumentSearch/Services/MyPatchService.cs:39-59 | `ReadInt32` with four bytes left gives a 32-bit value |
| Patch.ReadInt32 | DocumentSearch/Services/MyPatchService.cs:39-59 | `ReadInt32` succeeds exactly when four bytes remain, with the value of those bytes |
| Patch.WriteNew | DocumentSearch/Services/MyPatchService.cs:72-77 | writing the new data leaves `currentPos` alone |
| Patch.Replace | DocumentSearch/Services/MyPatchService.cs:61-77 | one change keeps `currentPos` a 32-bit value |
| Patch.ApplyChange | DocumentSearch/Services/MyPatchService.cs:57-77 | one iteration keeps `currentPos` a 32-bit value |
| Patch.ApplyChanges | DocumentSearch/Services/MyPatchService.cs:52-78 | after any number of iterations `currentPos` is a 32-bit value |
| Patch.ChangesIterate | DocumentSearch/Services/MyPatchService.cs:55-78 | the change loop is the iteration of its body |
| Patch.NextChange | DocumentSearch/Services/MyPatchService.cs:55-78 | the state after iteration i+1 is one more change applied to the state after iteration i |
| Patch.FailureStays | DocumentSearch/Services/MyPatchService.cs:55-78 | once an iteration throws, the loop's outcome is that exception |
| Patch.ReadHeader | DocumentSearch/Services/MyPatchService.cs:35-47 | the header reads fail exactly as the header check does, with the same error; otherwise the change count, none when negative |
| Patch.ReadChange | DocumentSearch/Services/MyPatchService.cs:57-77 | one iteration of the loop body gives ApplyChange's outcome |
| Patch.Advance | DocumentSearch/Services/MyPatchService.cs:55-78 | one more iteration gives the outcome of i+1 iterations |
| Patch.ApplyChangeLoop | DocumentSearch/Services/MyPatchService.cs:52-78 | the loop runs `changeCount` iterations, none when it is negative |
| Patch.ApplyPatch | DocumentSearch/Services/MyPatchService.cs:28-88 | the new file's bytes, or the first error the source throws: bad magic, end of stream, size mismatch, negative capacity, a copy out of range, a truncated change |
| Patch.CopyRest | DocumentSearch/Services/MyPatchService.cs:80-85 | after the loop the old bytes from `currentPos` to the end are appended, and a negative `currentPos` is an error |
| Patch.MagicIff | DocumentSearch/Services/MyPatchService.cs:35-36 | the magic reads "MYPT" exactly when the patch starts with the bytes 4D 59 50 54 |
| Patch.BadMagicIff | DocumentSearch/Services/MyPatchService.cs:35-37 | applying fails with the format error exactly when the patch does not start with "MYPT" |
| Patch.NoBadMagicLater | DocumentSearch/Services/MyPatchService.cs:35-37 | a patch starting with "MYPT" never fails with the format error |
| Patch.ChangesNoBadMagic | DocumentSearch/Services/MyPatchService.cs:55-85 | the change loop and the final copy never raise the format error |
| Patch.SizeMismatchFails | DocumentSearch/Services/MyPatchService.cs:39-44 | a complete header whose old size differs from the old file's length fails with both sizes |
| Patch.NoChangesIdentity | DocumentSearch/Services/MyPatchService.cs:47-85 | with no changes (or a negative count) the new file is the old one |
| Patch.ChangeBehind | DocumentSearch/Services/MyPatchService.cs:62-77 | a change at or behind `currentPos` copies nothing and skips its old bytes from `currentPos`; its data is appended, and a short read is an error |
| Patch.WellFormedEnd | DocumentSearch/Services/MyPatchService.cs:62-70 | in a well-formed change list each change starts after the previous one ends, and the last ends within the old file |
| Patch.PrefixLength | DocumentSearch/Services/MyPatchService.cs:61-77 | the output up to the end of the last change is that many old bytes plus the changes' growth |
| Patch.SpliceLength | DocumentSearch/Services/MyPatchService.cs:40-85 | the spliced file is as long as the old one plus the changes' growth |
| Patch.Le32 | DocumentSearch/Services/MyPatchService.cs:39 | the four-byte little-endian form of a non-negative 32-bit value |
| Patch.Le32Reads | DocumentSearch/Services/MyPatchService.cs:39 | reading back the four-byte form gives the value |
| Patch.EncodeChange | DocumentSearch/Services/MyPatchService.cs:57-75 | a change is written as three integers and its data |
| Patch.ReadWritten | DocumentSearch/Services/MyPatchService.cs:57-59 | `ReadInt32` where an integer was written returns it |
| Patch.InRangePrefix | DocumentSearch/Services/MyPatchService.cs:57-59 | a prefix of changes whose fields fit an int still fits |
| Patch.WellFormedPrefix | DocumentSearch/Services/MyPatchService.cs:55-78 | a prefix of a well-formed change list is well-formed |
| Patch.EncodePrefix | DocumentSearch/Services/MyPatchService.cs:55-78 | the encoding of the first k+1 changes is the encoding of the first k and change k, and a prefix of the whole encoding |
| Patch.ReadWithin | DocumentSearch/Services/MyPatchService.cs:57-59 | reading inside a written window gives the integer written there |
| Patch.ChangeReads | DocumentSearch/Services/MyPatchService.cs:57-75 | at a written change the loop reads its offset, old length, new length and data |
| Patch.ReplaceAhead | DocumentSearch/Services/MyPatchService.cs:61-77 | a change at or after `currentPos` copies the old bytes up to it, skips its old bytes and appends its data |
| Patch.StepAt | DocumentSearch/Services/MyPatchService.cs:57-77 | one iteration at a written change gives the decoded state |
| Patch.EncodingAt | DocumentSearch/Services/MyPatchService.cs:55-78 | change k-1 is written right after the encodings of the changes before it |
| Patch.WindowAfter | DocumentSearch/Services/MyPatchService.cs:55-78 | a window of the encoded changes sits in the patch after the header |
| Patch.PrefixStep | DocumentSearch/Services/MyPatchService.cs:61-77 | the spliced prefix grows by the old bytes up to the next change and its data |
| Patch.ChangeStepDecodes | DocumentSearch/Services/MyPatchService.cs:55-78 | the loop body decodes each written change |
| Patch.DecodeChanges | DocumentSearch/Services/MyPatchService.cs:55-78 | k iterations over k written changes reach the expected state: the reader after them, `currentPos` at the end of the last and the spliced prefix written |
| Patch.ExpectedNext | DocumentSearch/Services/MyPatchService.cs:55-78 | the next written change starts where the expected state's reader stands |
| Patch.ExpectedStep | DocumentSearch/Services/MyPatchService.cs:61-77 | decoding the next change from the state expected after k-1 changes gives the state expected after k |
| Patch.PatchRoundTrip | DocumentSearch/Services/MyPatchService.cs:35-88 | applying the patch written for ordered, non-overlapping changes to the old file gives the old file with those changes spliced in |
| Patch.FinishAtEnd | DocumentSearch/Services/MyPatchService.cs:80-85 | copying the rest of the old file after the last change completes the splice |
| Patch.HeaderReads | DocumentSearch/Services/MyPatchService.cs:35-47 | a written header passes the checks and gives the number of changes written |
| Patch.NewSizeIgnored | DocumentSearch/Services/MyPatchService.cs:40-50 | the new size in the header only sizes the buffer and does not change the result |
| Patch.PatchedLength | DocumentSearch/Services/MyPatchService.cs:50-88 | a well-formed patch succeeds with the old length plus the changes' growth, whatever the header's new size says |
| PomodoroModel.TwoDigitsValue | DocumentSearch/ViewModels/PomodoroViewModel.cs:213 | the two-digit form of a number below 100 reads back as the number |
| PomodoroModel.FormatTimeShape | DocumentSearch/ViewModels/PomodoroViewModel.cs:211-214 | the display is two digits, a colon and two digits |
| PomodoroModel.FormatTimeReadsBack | DocumentSearch/ViewModels/PomodoroViewModel.cs:211-214 | the display shows the minutes and seconds components, and reads back as the time left under an hour |
| PomodoroModel.InitialState | DocumentSearch/ViewModels/PomodoroViewModel.cs:14-43 | the timer starts idle and stopped at a full 25-minute session with no sessions done, showing "25:00" |
| PomodoroModel.StartPauseCases | DocumentSearch/ViewModels/PomodoroViewModel.cs:46-60 | start on an idle timer runs a full session; otherwise it pauses a running timer or resumes a paused one, keeping phase, time left, count and display |
| PomodoroModel.CompleteWorkBreak | DocumentSearch/ViewModels/PomodoroViewModel.cs:97-133 | completing a session counts it, stops the timer and starts a break that is long exactly on every fourth session, at its full length and shown |
| PomodoroModel.TickCases | DocumentSearch/ViewModels/PomodoroViewModel.cs:180-209 | a tick with time left takes one second off and shows it; at zero a session goes to a stopped break with one more count, a break to a new running session |
| PomodoroModel.ResetKeepsCount | DocumentSearch/ViewModels/PomodoroViewModel.cs:62-73 | reset stops at an idle full session showing "25:00" and keeps the completed count |
| PomodoroModel.SkipCases | DocumentSearch/ViewModels/PomodoroViewModel.cs:75-86 | skip completes a session, starts a running session after a break, and does nothing when idle |
| PomodoroModel.StartWorkKeepsDisplay | DocumentSearch/ViewModels/PomodoroViewModel.cs:88-95 | starting a session sets 25 minutes but does not refresh the display |
| PomodoroModel.CompleteWorkGood | DocumentSearch/ViewModels/PomodoroViewModel.cs:97-115 | completing a session keeps the state invariant |
| PomodoroModel.StartWorkGood | DocumentSearch/ViewModels/PomodoroViewModel.cs:88-95 | starting a session keeps the state invariant |
| PomodoroModel.StartPauseGood | DocumentSearch/ViewModels/PomodoroViewModel.cs:46-60 | the start/pause button keeps the invariant: shown count equals the count, time left at most the phase's length, idle means stopped at a full session |
| PomodoroModel.ResetGood | DocumentSearch/ViewModels/PomodoroViewModel.cs:62-73 | reset keeps the state invariant |
| PomodoroModel.SkipGood | DocumentSearch/ViewModels/PomodoroViewModel.cs:75-86 | skip keeps the state invariant |
| PomodoroModel.TickGood | DocumentSearch/ViewModels/PomodoroViewModel.cs:180-209 | a tick keeps the state invariant |
| PomodoroModel.GoodDisplayExact | DocumentSearch/ViewModels/PomodoroViewModel.cs:211-214 | in every reachable state the freshly formatted display reads back as the time left |
| PomodoroModel.CountDown | DocumentSearch/ViewModels/PomodoroViewModel.cs:180-186 | a running timer with time left counts down one second per tick, changing nothing else but the display |
| PomodoroModel.TickDown | DocumentSearch/ViewModels/PomodoroViewModel.cs:182-186 | one tick with time left is one second off, shown |
| PomodoroModel.TicksOnce | DocumentSearch/ViewModels/PomodoroViewModel.cs:180-191 | n ticks are one tick followed by n-1 |
| PomodoroModel.SessionEndsInBreak | DocumentSearch/ViewModels/PomodoroViewModel.cs:180-209 | a running session with r seconds left is in a stopped break with one more session counted after r+1 ticks |
| PomodoroModel.TicksSplit | DocumentSearch/ViewModels/PomodoroViewModel.cs:180-191 | a+b ticks are a ticks followed by b |
| Pomodoro.PomodoroViewModel.constructor | DocumentSearch/ViewModels/PomodoroViewModel.cs:14-43 | the fields start as the model's initial state |
| Pomodoro.PomodoroViewModel.UpdateDisplay | DocumentSearch/ViewModels/PomodoroViewModel.cs:211-214 | the display is set from the time left, nothing else changes |
| Pomodoro.PomodoroViewModel.RunTimer | DocumentSearch/ViewModels/PomodoroViewModel.cs:158-168 | the timer runs and the button reads "Duraklat" |
| Pomodoro.PomodoroViewModel.HaltTimer | DocumentSearch/ViewModels/PomodoroViewModel.cs:170-178 | the timer stops |
| Pomodoro.PomodoroViewModel.BeginWork | DocumentSearch/ViewModels/PomodoroViewModel.cs:88-95 | the fields become the model's StartWork of the old fields |
| Pomodoro.PomodoroViewModel.BeginShortBreak | DocumentSearch/ViewModels/PomodoroViewModel.cs:117-124 | the fields become the model's short break of the old fields |
| Pomodoro.PomodoroViewModel.BeginLongBreak | DocumentSearch/ViewModels/PomodoroViewModel.cs:126-133 | the fields become the model's long break of the old fields |
| Pomodoro.PomodoroViewModel.FinishWork | DocumentSearch/ViewModels/PomodoroViewModel.cs:97-115 | the fields become the model's CompleteWork of the old fields |
| Pomodoro.PomodoroViewModel.PauseTimer | DocumentSearch/ViewModels/PomodoroViewModel.cs:135-141 | the fields become the model's Pause of the old fields |
| Pomodoro.PomodoroViewModel.ResumeTimer | DocumentSearch/ViewModels/PomodoroViewModel.cs:143-156 | the fields become the model's Resume of the old fields |
| Pomodoro.PomodoroViewModel.StartOrPause | DocumentSearch/ViewModels/PomodoroViewModel.cs:46-60 | the fields become the model's StartPause of the old fields |
| Pomodoro.PomodoroViewModel.ResetTimer | DocumentSearch/ViewModels/PomodoroViewModel.cs:62-73 | the fields become the model's Reset of the old fields |
| Pomodoro.PomodoroViewModel.SkipPhase | DocumentSearch/ViewModels/PomodoroViewModel.cs:75-86 | the fields become the model's Skip of the old fields |
| Pomodoro.PomodoroViewModel.TimerComplete | DocumentSearch/ViewModels/PomodoroViewModel.cs:193-209 | the fields become the model's OnTimerComplete of the old fields |
| Pomodoro.PomodoroViewModel.TimerTick | DocumentSearch/ViewModels/PomodoroViewModel.cs:180-191 | the fields become the model's Tick of the old fields |

## Left out

- File and stream I/O (`File.ReadAllBytes`, `File.Exists`, `WriteAllBytes`, the JSON file of the store, PdfPig, ClosedXML, OpenXml): each is replaced by the data it yields, passed in as a parameter (words per page, worksheets as cell maps, Word tables and inner text, byte sequences).
- `Task.Run` and `async`/`await`: loads are modelled as sequential calls.
- The file-existence checks and the file writes of `ApplyPatch` (MyPatchService.cs:21-28,88): the model goes from the old file's bytes and the patch's bytes to the new file's bytes.
- Patch.ApplyPatch: MyPatchService.cs:92 returns an undefined `newBytes`, so the file does not compile as written; the model returns what `newStream.ToArray()` holds at line 88.
- Patch.ApplyPatch: the memory limit of `MemoryStream` (a new size over about 2 GB raises `OutOfMemoryException`) is not modelled; only a negative capacity fails.
- Patch.Wrap: exact only for the sum or difference of two 32-bit values, which is every use the decoder makes of it.
- PomodoroModel: the `DispatcherTimer` is a `running` flag and each tick is an explicit `Tick` call; the real one-second timing is not modelled.
- Pomodoro.PomodoroViewModel.TimerTick: requires a running timer, because a stopped `DispatcherTimer` never raises `Tick`. The timer that Skip during a break leaves running after it starts a new one is not modelled.
- PomodoroModel: the completed count is an unbounded integer; `int` overflow after 2^31 sessions is not modelled.
- Pomodoro.PomodoroViewModel: `InfoText` is a constant text no command changes, so it is not a field of the model.
- Text: `ToLower`/`ToLowerInvariant`, `OrdinalIgnoreCase` and `RegexOptions.IgnoreCase` are all one lower-casing table (ASCII, Latin-1 and the Turkish letters); culture-specific casing of other scripts is not modelled.
- Text: string lengths count Unicode scalar values, not UTF-16 code units; the two agree for text in the Basic Multilingual Plane.
- Patterns: `\d` matches the ASCII digits only, and word characters are the ASCII letters and digits, `_`, the Latin-1 and Latin Extended letters and the combining marks U+0300-U+036F; other Unicode letters are not word characters in the model.
- Search.Search: names are ordered by ordinal character order, not by the current culture's collation.
- PdfParser: word coordinates are exact reals; the floating-point rounding of `double` is not modelled.
- ExcelParser: `RowsUsed`/`ColumnsUsed` become the worksheet's used range; formatting, formulas and typed cell values are not modelled (a cell is its text).
- WordParser: only the top-level tables of the body are read; nested tables are not modelled.
- DocumentStore: the upload date is a clock parameter, the file sizes and existence come from a file-system parameter, and the three extractors are functions passed in.
- PageMarkers.MarkedTextSplits: covers pages whose numbers fit an `int` and whose texts do not hold "---PAGE_". A page text holding the separator is cut there into further segments, which the search reports as pages of their own; a page number above 2147483647 is reported under its segment's index.
- Paths.FileName: a drive-relative path such as `C:a.pdf` keeps its drive prefix, while `Path.GetFileName` removes it; the paths the store receives come from the open-file dialog and are absolute.
- PdfToExcel: the workbook itself (styling, column widths, the temporary path, `SaveAs`) and the rethrow of a failure are not modelled; the model gives the sheet's rows in order with the header first.
