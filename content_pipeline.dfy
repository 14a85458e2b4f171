/**
 * The shared file content pipeline of the connectors (connectors/src/connectors/shared/file.ts):
 * turning a fetched byte buffer into a document section, or `null` when the file is skipped.
 * The collaborators whose code lies elsewhere are parameters: the UTF-8 decoder, `slugify`,
 * `parseAndStringifyCsv`, `upsertTableFromCsv`, `isTextExtractionSupportedContentType` and the
 * text-extraction service.
 */
module ContentPipeline {
  import opened Results
  import opened Decimal
  import opened JsText

  newtype byte = b: int | 0 <= b < 256

  /** `CoreAPIDataSourceDocumentSection`: an optional prefix tag, optional content and sub-sections. */
  datatype Section = Section(prefix: Option<string>, content: Option<string>, sections: seq<Section>)

  /** The "ingested as a table" marker `handleCsvFile` returns: no prefix, no content, no sub-sections. */
  const EmptySection := Section(None, None, [])

  const PdfMimeType := "application/pdf"
  const PptxMimeType := "application/vnd.openxmlformats-officedocument.presentationml.presentation"

  /** `pagePrefixesPerMimeType`: the tag placed before each extracted page. */
  const PagePrefixesPerMimeType: map<string, string> :=
    map[PdfMimeType := "$pdfPage", PptxMimeType := "$slideNumber"]

  /** `dataSourceNameToConnectorName`. */
  const DataSourceNameToConnectorName: map<string, string> :=
    map["managed-microsoft" := "Microsoft", "managed-google_drive" := "Google Drive"]

  /** A text file or table is too big when it exceeds four times the document limit. */
  predicate Oversize(data: seq<byte>, maxDocumentLen: int) {
    |data| > 4 * maxDocumentLen
  }

  /** `dataSourceNameToConnectorName[name]`: `undefined` for a data source without an entry. */
  function ConnectorNameOf(dataSourceName: string): JsString {
    if dataSourceName in DataSourceNameToConnectorName then Str(DataSourceNameToConnectorName[dataSourceName])
    else Undefined
  }

  /** `handleTextFile`: the trimmed decoded text as one flat section, or `null` when oversize. */
  function HandleTextFile(data: seq<byte>, maxDocumentLen: int, decode: seq<byte> -> string): (r: Option<Section>)
    ensures r.None? <==> Oversize(data, maxDocumentLen)
    ensures r.Some? ==>
      && r.value.prefix.None? && r.value.sections == []
      && r.value.content == Some(Trim(decode(data)))
      && NoEdgeWhitespace(r.value.content.value)
  {
    if Oversize(data, maxDocumentLen) then None
    else
      TrimSpec(decode(data));
      Some(Section(None, Some(Trim(decode(data))), []))
  }

  /** The fields of `GoogleDriveObjectType | DriveItem` the CSV handler reads; either may be missing, and the name may be `null`. */
  datatype SourceFile = SourceFile(id: Option<string>, name: JsString)

  /** The arguments `handleCsvFile` passes to `upsertTableFromCsv` (the logger arguments and data source config left out). */
  datatype TableUpsert = TableUpsert(
    tableId: string,
    tableName: string,
    tableDescription: string,
    tableCsv: string,
    truncate: bool)

  /** The section `handleCsvFile` returns, and the table upsert it issued, if any. */
  datatype CsvHandling = CsvHandling(section: Option<Section>, upserted: Option<TableUpsert>)

  /** The table upsert request `handleCsvFile` builds once the CSV has been parsed into `csv`. */
  function CsvUpsertRequest(file: SourceFile, dataSourceName: string, slugify: string -> string, csv: string): (u: TableUpsert)
    ensures u.tableId == file.id.OrElse("")
    ensures u.tableName == slugify(Prefix(file.name.OrElse(""), 32))
    ensures u.tableCsv == csv && u.truncate
  {
    TableUpsert(
      file.id.OrElse(""),
      slugify(Prefix(file.name.OrElse(""), 32)),
      "Structured data from " + ConnectorNameOf(dataSourceName).Render() + " (" + file.name.Render() + ")",
      csv,
      true)
  }

  /**
   * `handleCsvFile`: parse the decoded, trimmed CSV and upsert it as a table; a parse or upsert
   * failure skips the file. `upsert` is the outcome of `upsertTableFromCsv` for a given request.
   */
  function HandleCsvFile(
    data: seq<byte>, file: SourceFile, maxDocumentLen: int, dataSourceName: string,
    decode: seq<byte> -> string, slugify: string -> string,
    parseCsv: string -> Result<string, string>, upsert: TableUpsert -> Outcome): (r: CsvHandling)
    ensures Oversize(data, maxDocumentLen) ==> r == CsvHandling(None, None)
    ensures !Oversize(data, maxDocumentLen) ==>
      match parseCsv(Trim(decode(data)))
      case Err(_) => r == CsvHandling(None, None)
      case Ok(csv) =>
        && r.upserted == Some(CsvUpsertRequest(file, dataSourceName, slugify, csv))
        && (r.section.Some? <==> upsert(r.upserted.value).Pass?)
    ensures r.section.Some? ==> r.section.value == EmptySection && r.upserted.Some?
  {
    if Oversize(data, maxDocumentLen) then CsvHandling(None, None)
    else
      match parseCsv(Trim(decode(data)))
      case Err(_) => CsvHandling(None, None)
      case Ok(csv) =>
        var request := CsvUpsertRequest(file, dataSourceName, slugify, csv);
        match upsert(request)
        case Fail(_) => CsvHandling(None, Some(request))
        case Pass => CsvHandling(Some(EmptySection), Some(request))
  }

  /** A known connector and a file name: "Structured data from Microsoft (sales.csv)". */
  lemma DescriptionOfNamedFile(id: Option<string>, slugify: string -> string, csv: string)
    ensures CsvUpsertRequest(SourceFile(id, Str("sales.csv")), "managed-microsoft", slugify, csv).tableDescription
      == "Structured data from Microsoft (sales.csv)"
  {
    assert ConnectorNameOf("managed-microsoft") == Str("Microsoft");
    assert "Structured data from " + "Microsoft" + " (" + "sales.csv" + ")" == "Structured data from Microsoft (sales.csv)";
  }

  /** A `null` file name renders as "null". */
  lemma DescriptionOfNullName(id: Option<string>, slugify: string -> string, csv: string)
    ensures CsvUpsertRequest(SourceFile(id, Null), "managed-google_drive", slugify, csv).tableDescription
      == "Structured data from Google Drive (null)"
  {
    assert ConnectorNameOf("managed-google_drive") == Str("Google Drive");
    assert "Structured data from " + "Google Drive" + " (" + "null" + ")" == "Structured data from Google Drive (null)";
  }

  /** A data source without a connector name, and a missing file name, both render as "undefined". */
  lemma DescriptionOfUnknownConnector(id: Option<string>, slugify: string -> string, csv: string)
    ensures CsvUpsertRequest(SourceFile(id, Undefined), "webcrawler", slugify, csv).tableDescription
      == "Structured data from undefined (undefined)"
  {
    assert "webcrawler" !in DataSourceNameToConnectorName;
    assert "Structured data from " + "undefined" + " (" + "undefined" + ")" == "Structured data from undefined (undefined)";
  }

  /** One page the text-extraction service returns. */
  datatype ExtractedPage = ExtractedPage(pageNumber: int, content: string)

  /** The prefix of the sub-section for page `pageNumber` of `total`, or `null` when the mime type has no tag. */
  function PagePrefix(mimeType: string, pageNumber: int, total: int): Option<string> {
    if mimeType in PagePrefixesPerMimeType && PagePrefixesPerMimeType[mimeType] != "" then
      Some("\n" + PagePrefixesPerMimeType[mimeType] + ": " + IntToString(pageNumber) + "/" + IntToString(total) + "\n")
    else None
  }

  /**
   * `handleTextExtraction`: one sub-section per extracted page, or `null` when the mime type is not
   * supported (the extractor is then not consulted), extraction fails, or no page comes back.
   */
  function HandleTextExtraction(
    data: seq<byte>, mimeType: string, isSupported: string -> bool,
    extract: (seq<byte>, string) -> Result<seq<ExtractedPage>, string>): (r: Option<Section>)
    ensures !isSupported(mimeType) ==> r.None?
    ensures isSupported(mimeType) ==>
      (r.None? <==> extract(data, mimeType).Err? || |extract(data, mimeType).value| == 0)
    ensures r.Some? ==>
      var pages := extract(data, mimeType).value;
      && r.value.prefix.None? && r.value.content.None?
      && |r.value.sections| == |pages|
      && forall i :: 0 <= i < |pages| ==>
           r.value.sections[i] == Section(PagePrefix(mimeType, pages[i].pageNumber, |pages|), Some(pages[i].content), [])
  {
    if !isSupported(mimeType) then None
    else
      match extract(data, mimeType)
      case Err(_) => None
      case Ok(pages) =>
        if |pages| > 0 then
          Some(Section(None, None,
            seq(|pages|, i requires 0 <= i < |pages| =>
              Section(PagePrefix(mimeType, pages[i].pageNumber, |pages|), Some(pages[i].content), []))))
        else None
  }

  /** The page tag is `$pdfPage` for PDF, `$slideNumber` for PowerPoint, and there is none for any other type. */
  lemma PagePrefixByMimeType(mimeType: string, pageNumber: int, total: int)
    ensures mimeType == PdfMimeType ==>
      PagePrefix(mimeType, pageNumber, total) == Some("\n$pdfPage: " + IntToString(pageNumber) + "/" + IntToString(total) + "\n")
    ensures mimeType == PptxMimeType ==>
      PagePrefix(mimeType, pageNumber, total) == Some("\n$slideNumber: " + IntToString(pageNumber) + "/" + IntToString(total) + "\n")
    ensures mimeType != PdfMimeType && mimeType != PptxMimeType ==> PagePrefix(mimeType, pageNumber, total).None?
  {
    var n, t := IntToString(pageNumber), IntToString(total);
    if mimeType == PdfMimeType {
      assert PagePrefixesPerMimeType[mimeType] == "$pdfPage";
      assert "\n" + "$pdfPage" + ": " == "\n$pdfPage: ";
    } else if mimeType == PptxMimeType {
      assert PagePrefixesPerMimeType[mimeType] == "$slideNumber";
      assert "\n" + "$slideNumber" + ": " == "\n$slideNumber: ";
    } else {
      assert mimeType !in PagePrefixesPerMimeType;
    }
  }

  /** A three-page PDF yields the sub-sections labelled "$pdfPage: 1/3", "2/3" and "3/3", in the extractor's order. */
  lemma ThreePagePdf(
    data: seq<byte>, isSupported: string -> bool,
    extract: (seq<byte>, string) -> Result<seq<ExtractedPage>, string>, c1: string, c2: string, c3: string)
    requires isSupported(PdfMimeType)
    requires extract(data, PdfMimeType) == Ok([ExtractedPage(1, c1), ExtractedPage(2, c2), ExtractedPage(3, c3)])
    ensures HandleTextExtraction(data, PdfMimeType, isSupported, extract) == Some(Section(None, None, [
      Section(Some("\n$pdfPage: 1/3\n"), Some(c1), []),
      Section(Some("\n$pdfPage: 2/3\n"), Some(c2), []),
      Section(Some("\n$pdfPage: 3/3\n"), Some(c3), [])]))
  {
    var r := HandleTextExtraction(data, PdfMimeType, isSupported, extract);
    assert IntToString(1) == "1" && IntToString(2) == "2" && IntToString(3) == "3";
    PagePrefixByMimeType(PdfMimeType, 1, 3);
    PagePrefixByMimeType(PdfMimeType, 2, 3);
    PagePrefixByMimeType(PdfMimeType, 3, 3);
    assert "\n$pdfPage: " + "1" + "/" + "3" + "\n" == "\n$pdfPage: 1/3\n";
    assert "\n$pdfPage: " + "2" + "/" + "3" + "\n" == "\n$pdfPage: 2/3\n";
    assert "\n$pdfPage: " + "3" + "/" + "3" + "\n" == "\n$pdfPage: 3/3\n";
    assert r.Some? && |r.value.sections| == 3;
    assert r.value.sections == [
      Section(Some("\n$pdfPage: 1/3\n"), Some(c1), []),
      Section(Some("\n$pdfPage: 2/3\n"), Some(c2), []),
      Section(Some("\n$pdfPage: 3/3\n"), Some(c3), [])];
  }

  /** Sub-sections built for the same mime type and page count differ in prefix exactly when the page numbers differ. */
  lemma PagePrefixDistinguishesPages(mimeType: string, a: int, b: int, total: int)
    requires mimeType in PagePrefixesPerMimeType
    ensures PagePrefix(mimeType, a, total) == PagePrefix(mimeType, b, total) <==> a == b
  {
    if PagePrefix(mimeType, a, total) == PagePrefix(mimeType, b, total) {
      var head := "\n" + PagePrefixesPerMimeType[mimeType] + ": ";
      var tail := "/" + IntToString(total) + "\n";
      PagePrefixShape(mimeType, a, total);
      PagePrefixShape(mimeType, b, total);
      CancelAround(head, IntToString(a), IntToString(b), tail);
      IntToStringInjective(a, b);
    }
  }

  /** A tagged prefix is the tag's head, the page number, then the page count. */
  lemma PagePrefixShape(mimeType: string, pageNumber: int, total: int)
    requires mimeType in PagePrefixesPerMimeType
    ensures PagePrefix(mimeType, pageNumber, total) == Some(
      ("\n" + PagePrefixesPerMimeType[mimeType] + ": ") + (IntToString(pageNumber) + ("/" + IntToString(total) + "\n")))
  {
    assert PagePrefixesPerMimeType[mimeType] != "";
    var head := "\n" + PagePrefixesPerMimeType[mimeType] + ": ";
    var n := IntToString(pageNumber);
    var tail := "/" + IntToString(total) + "\n";
    assert head + n + "/" + IntToString(total) + "\n" == head + (n + tail);
  }

  /** Text between the same head and the same tail is determined by the whole. */
  lemma CancelAround(head: string, x: string, y: string, tail: string)
    requires head + (x + tail) == head + (y + tail)
    ensures x == y
  {
    assert x + tail == (head + (x + tail))[|head|..];
    assert y + tail == (head + (y + tail))[|head|..];
    assert x == (x + tail)[..|x|];
    assert y == (y + tail)[..|y|];
  }
}
